/**
 * SQL text as `pg_dump` and PostgreSQL write it, said in bytes: identifiers, types, clauses,
 * `CREATE TABLE` statements and `COPY` headers. Nothing here knows how any of it is read.
 */
module SqlPrint {
  import opened Bytes

  // ---------------------------------------------------------------- words

  /** Space, tab, newline, form feed, carriage return. */
  predicate IsBlank(b: byte) {
    b as char == ' ' || b as char == '\t' || b as char == '\n' || b == 12 || b as char == '\r'
  }

  ghost predicate Blank(ws: seq<byte>) {
    forall i :: 0 <= i < |ws| ==> IsBlank(ws[i])
  }

  predicate Trimmed(s: seq<byte>) {
    s != [] && !IsBlank(s[0]) && !IsBlank(s[|s| - 1])
  }

  /** The same character, or the same letter in the other case. */
  predicate SameLetter(b: byte, c: char) {
    || b as int == c as int
    || ('A' <= c <= 'Z' && b as int == c as int + 32)
    || ('a' <= c <= 'z' && b as int == c as int - 32)
  }

  predicate Spells(word: seq<byte>, text: string) {
    |word| == |text| && forall i :: 0 <= i < |word| ==> SameLetter(word[i], text[i])
  }

  predicate Begins(line: seq<byte>, text: string) {
    |line| >= |text| && Spells(line[..|text|], text)
  }

  function FirstWord(s: seq<byte>): (w: seq<byte>) {
    if s == [] || IsBlank(s[0]) then [] else [s[0]] + FirstWord(s[1..])
  }

  /** The keywords that can follow a column's type. */
  predicate EndsTypes(word: seq<byte>) {
    || Spells(word, "DEFAULT") || Spells(word, "NOT") || Spells(word, "NULL") || Spells(word, "GENERATED")
    || Spells(word, "COLLATE") || Spells(word, "CONSTRAINT") || Spells(word, "CHECK") || Spells(word, "REFERENCES")
    || Spells(word, "PRIMARY") || Spells(word, "UNIQUE")
  }

  /** The keywords that begin a table constraint. */
  predicate LeadsConstraint(word: seq<byte>) {
    || Spells(word, "CONSTRAINT") || Spells(word, "PRIMARY") || Spells(word, "UNIQUE") || Spells(word, "FOREIGN")
    || Spells(word, "CHECK") || Spells(word, "EXCLUDE") || Spells(word, "LIKE")
  }

  // ---------------------------------------------------------------- text that holds together

  /**
   * Read from inside `depth` parens, and inside quotes if `quoted`: every paren outside quotes
   * that closes was opened, in the end all are closed, and a comma outside quotes and parens
   * occurs only if `commas`.
   */
  predicate HoldsFrom(s: seq<byte>, depth: nat, quoted: bool, commas: bool)
    decreases |s|
  {
    if s == [] then depth == 0 && !quoted
    else if s[0] == '\"' as int then HoldsFrom(s[1..], depth, !quoted, commas)
    else if quoted then HoldsFrom(s[1..], depth, true, commas)
    else if s[0] == '(' as int then HoldsFrom(s[1..], depth + 1, false, commas)
    else if s[0] == ')' as int then depth > 0 && HoldsFrom(s[1..], depth - 1, false, commas)
    else (commas || depth > 0 || s[0] != ',' as int) && HoldsFrom(s[1..], depth, false, commas)
  }

  predicate Contained(s: seq<byte>, commas: bool) {
    HoldsFrom(s, 0, false, commas)
  }

  ghost predicate AllContained(pieces: seq<seq<byte>>) {
    forall i :: 0 <= i < |pieces| ==> Contained(pieces[i], false)
  }

  function Joined(pieces: seq<seq<byte>>): (s: seq<byte>)
    decreases |pieces|
  {
    if pieces == [] then []
    else if |pieces| == 1 then pieces[0]
    else pieces[0] + ([',' as int] + Joined(pieces[1..]))
  }

  // ---------------------------------------------------------------- names

  /** An identifier, written in quotes or bare. */
  datatype Ident = Ident(name: seq<byte>, quoted: bool)

  function Doubled(name: seq<byte>): (s: seq<byte>)
    decreases |name|
  {
    if name == [] then []
    else (if name[0] == '\"' as int then ['\"' as int, '\"' as int] else [name[0]]) + Doubled(name[1..])
  }

  function PrintIdent(id: Ident): (s: seq<byte>) {
    if id.quoted then ['\"' as int] + (Doubled(id.name) + ['\"' as int]) else id.name
  }

  /** What ends a bare identifier. */
  predicate EndsName(b: byte) {
    IsBlank(b) || b as char == '(' || b as char == ',' || b as char == '.'
  }

  /** A name that may stand without quotes. */
  predicate MayBeBare(name: seq<byte>) {
    name != [] && forall i :: 0 <= i < |name| ==> !EndsName(name[i]) && name[i] as char != ')' && name[i] as char != '\"'
  }

  predicate IsIdent(id: Ident) {
    id.quoted || MayBeBare(id.name)
  }

  /** What may follow an identifier. */
  predicate Delimits(rest: seq<byte>) {
    rest == [] || EndsName(rest[0])
  }

  datatype Name = Name(schema: Option<Ident>, table: Ident)

  predicate IsName(n: Name) {
    (n.schema.Some? ==> IsIdent(n.schema.value)) && IsIdent(n.table)
  }

  function PrintName(n: Name): (s: seq<byte>) {
    (if n.schema.Some? then PrintIdent(n.schema.value) + ['.' as int] else []) + PrintIdent(n.table)
  }

  /** A table as errors and lists of tables name it: its parts with a dot between, without quotes. */
  function TableText(name: Name): (s: seq<byte>) {
    if name.schema.Some? then name.schema.value.name + ['.' as int] + name.table.name else name.table.name
  }

  // ---------------------------------------------------------------- types

  /** Paren depth after the first `k` bytes, quotes not considered. */
  function DepthAfter(t: seq<byte>, k: nat): (d: int)
    requires k <= |t|
  {
    if k == 0 then 0
    else DepthAfter(t, k - 1) + (if t[k - 1] == '(' as int then 1 else if t[k - 1] == ')' as int then -1 else 0)
  }

  /** A word that starts at `i`, outside parens, is a keyword that can follow a type. */
  predicate Keyed(t: seq<byte>, i: nat)
    requires i < |t|
  {
    DepthAfter(t, i + 1) == 0 && (i == 0 || IsBlank(t[i - 1])) && EndsTypes(FirstWord(t[i..]))
  }

  /** A type: text that holds together, without such a keyword outside its parens. */
  predicate IsType(t: seq<byte>) {
    && Trimmed(t) && Contained(t, false)
    && forall i :: 0 <= i < |t| ==> !Keyed(t, i)
  }

  /** What may follow a type: nothing, or a clause that begins with such a keyword. */
  predicate IsTail(tail: seq<byte>) {
    tail == [] || (Trimmed(tail) && EndsTypes(FirstWord(tail)))
  }

  /** A clause is told from the type only where parens balance, those inside quotes counted. */
  predicate Ends(t: seq<byte>, tail: seq<byte>) {
    tail == [] || DepthAfter(t, |t|) == 0
  }

  function WithTail(t: seq<byte>, tail: seq<byte>): (s: seq<byte>) {
    t + (if tail == [] then [] else [' ' as int] + tail)
  }

  /** The clauses that `pg_dump` writes after a type, by what they begin with. */
  datatype Clause =
    | Default | NotNull | Null | Generated | Collate | Constrained | Check | References | PrimaryKey | Unique

  function ClauseText(c: Clause): (text: string) {
    match c
    case Default => "DEFAULT"
    case NotNull => "NOT NULL"
    case Null => "NULL"
    case Generated => "GENERATED"
    case Collate => "COLLATE"
    case Constrained => "CONSTRAINT"
    case Check => "CHECK"
    case References => "REFERENCES"
    case PrimaryKey => "PRIMARY KEY"
    case Unique => "UNIQUE"
  }

  /** Text that begins with `text`, which is not just the front of a longer word. */
  predicate BeginsWord(s: seq<byte>, text: string) {
    Begins(s, text) && (|s| == |text| || IsBlank(s[|text|]))
  }

  // ---------------------------------------------------------------- definitions

  datatype Item =
    | Column(id: Ident, sqlType: seq<byte>, tail: seq<byte>)
    | Constraint(text: seq<byte>)

  /** A bare column must not be called like the start of a constraint. */
  predicate IsItem(item: Item) {
    match item
    case Column(id, t, tail) =>
      && IsIdent(id) && (id.quoted || !LeadsConstraint(id.name))
      && IsType(t) && IsTail(tail) && Contained(tail, false) && Ends(t, tail)
    case Constraint(text) => Trimmed(text) && Contained(text, false) && LeadsConstraint(FirstWord(text))
  }

  function PrintItem(item: Item): (s: seq<byte>) {
    match item
    case Column(id, t, tail) => PrintIdent(id) + ([' ' as int] + WithTail(t, tail))
    case Constraint(text) => text
  }

  /** An item of a column list with the blanks around it. */
  datatype Spaced = Spaced(pre: seq<byte>, item: Item, post: seq<byte>)

  ghost predicate IsSpaced(p: Spaced) {
    Blank(p.pre) && Blank(p.post) && IsItem(p.item)
  }

  function PrintSpaced(p: Spaced): (s: seq<byte>) {
    p.pre + (PrintItem(p.item) + p.post)
  }

  function PrintAll(ps: seq<Spaced>): (pieces: seq<seq<byte>>)
    ensures |pieces| == |ps| && forall i :: 0 <= i < |ps| ==> pieces[i] == PrintSpaced(ps[i])
  {
    seq(|ps|, i requires 0 <= i < |ps| => PrintSpaced(ps[i]))
  }

  function Prefix(unlogged: bool): (s: seq<byte>) {
    if unlogged then Ascii("CREATE UNLOGGED TABLE ") else Ascii("CREATE TABLE ")
  }

  /** A whole statement; whatever follows the column list, the semicolon included, is `trailing`. */
  function PrintCreate(unlogged: bool, name: Name, gap: seq<byte>, ps: seq<Spaced>, trailing: seq<byte>): (s: seq<byte>) {
    Prefix(unlogged)
    + (PrintName(name) + (gap + (['(' as int] + (Joined(PrintAll(ps)) + ([')' as int] + trailing)))))
  }

  /** A line whose text, blanks at its end aside, ends in `);`. */
  ghost predicate ClosesStatement(line: seq<byte>) {
    exists k :: ClosesAtEnd(line, k)
  }

  ghost predicate ClosesAtEnd(line: seq<byte>, k: nat) {
    2 <= k <= |line| && line[k - 2] == ')' as int && line[k - 1] == ';' as int && Blank(line[k..])
  }

  // ---------------------------------------------------------------- headers

  /** A column of a `COPY` header with the blanks around it. */
  datatype Listed = Listed(pre: seq<byte>, id: Ident, post: seq<byte>)

  ghost predicate IsListed(c: Listed) {
    Blank(c.pre) && Blank(c.post) && IsIdent(c.id)
  }

  function PrintListed(cs: seq<Listed>): (pieces: seq<seq<byte>>)
    ensures |pieces| == |cs|
    ensures forall i :: 0 <= i < |cs| ==> pieces[i] == cs[i].pre + (PrintIdent(cs[i].id) + cs[i].post)
  {
    seq(|cs|, i requires 0 <= i < |cs| => cs[i].pre + (PrintIdent(cs[i].id) + cs[i].post))
  }

  function PrintHeader(name: Name, gap: seq<byte>, cs: seq<Listed>, trailing: seq<byte>): (s: seq<byte>) {
    Ascii("COPY ") + (PrintName(name) + (gap + (['(' as int] + (Joined(PrintListed(cs)) + ([')' as int] + trailing)))))
  }
}
