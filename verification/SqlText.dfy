/**
 * Reading `CREATE TABLE` statements and `COPY` headers (src/scan.rs).
 *
 * Identifiers are byte strings: the lossy UTF-8 conversion of the source is the identity on
 * valid text, which is all this model covers.
 */
module SqlText {
  import opened Bytes
  import Numerals

  datatype TableName = TableName(schema: Option<seq<byte>>, table: seq<byte>)

  datatype ColumnDef = ColumnDef(name: seq<byte>, sqlType: seq<byte>)

  datatype TableDef = TableDef(name: TableName, columns: seq<ColumnDef>)

  datatype ScanError =
    | UnsupportedDumpVersion(found: nat)
    | MissingDumpVersion
    | UnterminatedCopy(table: seq<byte>)
    | MalformedCopyHeader
    | MalformedCreateTable(table: seq<byte>)

  const QUOTE: byte := 34
  const OPEN: byte := 40
  const CLOSE: byte := 41
  const COMMA: byte := 44
  const DOT: byte := 46
  const SPACE: byte := 32

  /** The name as the dump writes it, for messages and as a map key. */
  function Qualified(n: TableName): (s: seq<byte>) {
    if n.schema.Some? then n.schema.value + [DOT] + n.table else n.table
  }

  function TrimStart(s: seq<byte>): (r: seq<byte>)
    ensures r != [] ==> !IsWs(r[0])
    ensures |r| <= |s|
  {
    if s != [] && IsWs(s[0]) then TrimStart(s[1..]) else s
  }

  function TrimEnd(s: seq<byte>): (r: seq<byte>)
    ensures r != [] ==> !IsWs(r[|r| - 1])
    ensures |r| <= |s| && r == s[..|r|]
  {
    if s != [] && IsWs(s[|s| - 1]) then TrimEnd(s[..|s| - 1]) else s
  }

  function Trim(s: seq<byte>): (r: seq<byte>) {
    TrimEnd(TrimStart(s))
  }

  function Lower(b: byte): (r: byte) {
    if 65 <= b <= 90 then b + 32 else b
  }

  /** ASCII case-insensitive equality. */
  predicate EqCi(a: seq<byte>, b: seq<byte>) {
    |a| == |b| && forall i :: 0 <= i < |a| ==> Lower(a[i]) == Lower(b[i])
  }

  function StripPrefixCi(line: seq<byte>, prefix: seq<byte>): (r: Option<seq<byte>>) {
    if |line| >= |prefix| && EqCi(line[..|prefix|], prefix) then Some(line[|prefix|..]) else None
  }

  predicate EndsWithCi(line: seq<byte>, suffix: seq<byte>) {
    |line| >= |suffix| && EqCi(line[|line| - |suffix|..], suffix)
  }

  /** True when the line, trailing blanks aside, ends a statement with `);`. */
  predicate EndsStatement(line: seq<byte>) {
    var t := TrimEnd(line);
    |t| >= 2 && t[|t| - 2] == CLOSE && t[|t| - 1] == 59
  }

  function LeadingDigits(s: seq<byte>): (r: seq<byte>)
    ensures Numerals.AllDigits(r)
  {
    if s != [] && Numerals.IsDigit(s[0]) then [s[0]] + LeadingDigits(s[1..]) else []
  }

  /** The leading integer of a version string, when it is one and fits a `u32`. */
  function LeadingMajor(s: seq<byte>): (r: Option<nat>) {
    var digits := LeadingDigits(TrimStart(s));
    if digits == [] || Numerals.Value(digits) > 0xFFFF_FFFF then None else Some(Numerals.Value(digits))
  }

  // ---------------------------------------------------------------- parens and quotes

  /** Where a scan stands: paren depth, and whether it is inside a quoted identifier. */
  datatype Nest = Nest(depth: int, quoted: bool)

  const TOP: Nest := Nest(0, false)

  /**
   * One byte of text. A quote simply toggles: the doubled quote that escapes a quote
   * toggles twice and leaves the scan where it was.
   */
  function Walk(n: Nest, c: byte): (r: Nest) {
    if c == QUOTE then n.(quoted := !n.quoted)
    else if n.quoted then n
    else if c == OPEN then n.(depth := n.depth + 1)
    else if c == CLOSE then n.(depth := n.depth - 1)
    else n
  }

  /** The pieces of `s` between top-level separators; `cur` is the piece under way. */
  function SplitWalk(s: seq<byte>, sep: byte, n: Nest, cur: seq<byte>): (r: seq<seq<byte>>)
    ensures r != []
  {
    if s == [] then [cur]
    else if n == TOP && s[0] == sep then [cur] + SplitWalk(s[1..], sep, n, [])
    else SplitWalk(s[1..], sep, Walk(n, s[0]), cur + [s[0]])
  }

  function SplitTop(s: seq<byte>, sep: byte): (r: seq<seq<byte>>) {
    SplitWalk(s, sep, TOP, [])
  }

  /** The first closing paren, from `i` on, that brings the depth back to zero. */
  function MatchWalk(s: seq<byte>, i: nat, n: Nest): (r: Option<nat>)
    requires i <= |s|
    ensures r.Some? ==> i <= r.value < |s| && s[r.value] == CLOSE
    ensures r.Some? && n == TOP ==> i < r.value
    decreases |s| - i
  {
    if i == |s| then None
    else if s[i] == CLOSE && n == Nest(1, false) then Some(i)
    else MatchWalk(s, i + 1, Walk(n, s[i]))
  }

  /** The pieces still to come when the piece under way began at `start`. */
  ghost function SplitFrom(s: seq<byte>, sep: byte, start: nat, i: nat, n: Nest): seq<seq<byte>>
    requires start <= i <= |s|
  {
    SplitWalk(s[i..], sep, n, s[start..i])
  }

  lemma SplitFromStep(s: seq<byte>, sep: byte, start: nat, i: nat, n: Nest)
    requires start <= i < |s|
    ensures SplitFrom(s, sep, start, i, n) ==
      if n == TOP && s[i] == sep then [s[start..i]] + SplitFrom(s, sep, i + 1, i + 1, n)
      else SplitFrom(s, sep, start, i + 1, Walk(n, s[i]))
  {
    assert s[i..][1..] == s[i + 1..];
    assert s[start..i] + [s[i]] == s[start..i + 1];
    assert s[i + 1..i + 1] == [];
  }

  lemma SplitFromStart(s: seq<byte>, sep: byte)
    ensures SplitTop(s, sep) == [] + SplitFrom(s, sep, 0, 0, TOP)
  {
    assert s[0..] == s && s[0..0] == [];
  }

  lemma Regroup<T>(a: seq<T>, b: seq<T>, c: seq<T>)
    ensures a + (b + c) == a + b + c
  {
  }

  lemma SplitFromEnd(s: seq<byte>, sep: byte, start: nat, n: Nest)
    requires start <= |s|
    ensures SplitFrom(s, sep, start, |s|, n) == [s[start..]]
  {
    assert s[|s|..] == [] && s[start..|s|] == s[start..];
  }

  /**
   * `split_top_level`, which looks ahead for a doubled quote instead of toggling: it cuts
   * where the toggling definition cuts.
   */
  method SplitTopLevel(s: seq<byte>, sep: byte) returns (out: seq<seq<byte>>)
    requires sep != QUOTE && sep != OPEN && sep != CLOSE
    ensures out == SplitTop(s, sep)
  {
    out := [];
    var n := TOP;
    var start, i := 0, 0;
    hide SplitWalk, SplitFrom, SplitTop;
    SplitFromStart(s, sep);
    while i < |s|
      invariant start <= i <= |s|
      invariant SplitTop(s, sep) == out + SplitFrom(s, sep, start, i, n)
    {
      var c := s[i];
      SplitFromStep(s, sep, start, i, n);
      if n.quoted && c == QUOTE && i + 1 < |s| && s[i + 1] == QUOTE {
        SplitFromStep(s, sep, start, i + 1, Walk(n, c));
        i := i + 2;
      } else {
        if n == TOP && c == sep {
          Regroup(out, [s[start..i]], SplitFrom(s, sep, i + 1, i + 1, n));
          out := out + [s[start..i]];
          start := i + 1;
        } else {
          n := Walk(n, c);
        }
        i := i + 1;
      }
    }
    SplitFromEnd(s, sep, start, n);
    out := out + [s[start..]];
  }

  /** `matching_paren`, with the same lookahead. */
  method MatchingParen(s: seq<byte>, open: nat) returns (at: Option<nat>)
    requires open <= |s|
    ensures at == MatchWalk(s, open, TOP)
  {
    var n := TOP;
    var i := open;
    while i < |s|
      invariant open <= i <= |s|
      invariant MatchWalk(s, open, TOP) == MatchWalk(s, i, n)
    {
      var c := s[i];
      if n.quoted && c == QUOTE && i + 1 < |s| && s[i + 1] == QUOTE {
        assert Walk(Walk(n, c), s[i + 1]) == n;
        i := i + 2;
      } else {
        if !n.quoted && c == CLOSE && n.depth - 1 == 0 {
          return Some(i);
        }
        n := Walk(n, c);
        i := i + 1;
      }
    }
    return None;
  }

  // ---------------------------------------------------------------- identifiers

  /** The rest of a quoted identifier, `""` standing for a quote, and what follows it. */
  function QuotedRest(s: seq<byte>): (r: Option<(seq<byte>, seq<byte>)>)
    ensures r.Some? ==> |r.value.1| < |s|
  {
    if s == [] then None
    else if s[0] != QUOTE then
      match QuotedRest(s[1..])
      case None => None
      case Some((name, rest)) => Some(([s[0]] + name, rest))
    else if |s| > 1 && s[1] == QUOTE then
      match QuotedRest(s[2..])
      case None => None
      case Some((name, rest)) => Some(([QUOTE] + name, rest))
    else Some(([], s[1..]))
  }

  predicate EndsBare(b: byte) {
    IsWs(b) || b == OPEN || b == COMMA || b == DOT
  }

  /** The bare identifier at the front of `s`. */
  function BareName(s: seq<byte>): (r: seq<byte>)
    ensures |r| <= |s|
  {
    if s == [] || EndsBare(s[0]) then [] else [s[0]] + BareName(s[1..])
  }

  /** One identifier, quoted or bare, and what follows it. */
  function TakeIdentifier(text: seq<byte>): (r: Option<(seq<byte>, seq<byte>)>)
    ensures r.Some? ==> |r.value.1| < |text|
  {
    var s := TrimStart(text);
    if s != [] && s[0] == QUOTE then QuotedRest(s[1..])
    else
      var name := BareName(s);
      if name == [] then None else Some((name, s[|name|..]))
  }

  function TakeQualified(s: seq<byte>): (r: Option<(TableName, seq<byte>)>) {
    match TakeIdentifier(s)
    case None => None
    case Some((first, rest)) =>
      if rest != [] && rest[0] == DOT then
        match TakeIdentifier(rest[1..])
        case None => None
        case Some((second, rest2)) => Some((TableName(Some(first), second), rest2))
      else Some((TableName(None, first), rest))
  }

  function PrependName(done: seq<byte>, r: Option<(seq<byte>, seq<byte>)>): Option<(seq<byte>, seq<byte>)> {
    match r
    case None => None
    case Some((name, rest)) => Some((done + name, rest))
  }

  /** The loop of `take_identifier` over a quoted name. */
  method ReadQuoted(s: seq<byte>, from: nat) returns (r: Option<(seq<byte>, seq<byte>)>)
    requires from <= |s|
    ensures r == QuotedRest(s[from..])
  {
    var name: seq<byte> := [];
    var i := from;
    assert QuotedRest(s[from..]) == PrependName([], QuotedRest(s[from..])) by {
      match QuotedRest(s[from..])
      case None =>
      case Some((n, _)) => assert [] + n == n;
    }
    while i < |s|
      invariant from <= i <= |s|
      invariant QuotedRest(s[from..]) == PrependName(name, QuotedRest(s[i..]))
    {
      assert s[i..][1..] == s[i + 1..];
      if s[i] == QUOTE {
        if i + 1 < |s| && s[i + 1] == QUOTE {
          assert s[i..][2..] == s[i + 2..];
          PrependNameTwice(name, [QUOTE], QuotedRest(s[i + 2..]));
          name := name + [QUOTE];
          i := i + 2;
        } else {
          assert name + [] == name;
          return Some((name, s[i + 1..]));
        }
      } else {
        PrependNameTwice(name, [s[i]], QuotedRest(s[i + 1..]));
        name := name + [s[i]];
        i := i + 1;
      }
    }
    return None;
  }

  lemma PrependNameTwice(a: seq<byte>, b: seq<byte>, r: Option<(seq<byte>, seq<byte>)>)
    ensures PrependName(a, PrependName(b, r)) == PrependName(a + b, r)
  {
    match r
    case None =>
    case Some((n, _)) => assert a + (b + n) == a + b + n;
  }

  // ---------------------------------------------------------------- column types

  /** The blank-delimited word at `i`. */
  function WordEnd(s: seq<byte>, i: nat): (e: nat)
    requires i <= |s|
    ensures i <= e <= |s|
    ensures e < |s| ==> IsWs(s[e])
    ensures forall k :: i <= k < e ==> !IsWs(s[k])
    decreases |s| - i
  {
    if i == |s| || IsWs(s[i]) then i else WordEnd(s, i + 1)
  }

  const TYPE_TERMINATORS: seq<seq<byte>> := [
    Ascii("DEFAULT"), Ascii("NOT"), Ascii("NULL"), Ascii("GENERATED"), Ascii("COLLATE"),
    Ascii("CONSTRAINT"), Ascii("CHECK"), Ascii("REFERENCES"), Ascii("PRIMARY"), Ascii("UNIQUE")]

  const CONSTRAINT_LEADERS: seq<seq<byte>> := [
    Ascii("CONSTRAINT"), Ascii("PRIMARY"), Ascii("UNIQUE"), Ascii("FOREIGN"), Ascii("CHECK"),
    Ascii("EXCLUDE"), Ascii("LIKE")]

  predicate IsOneOf(word: seq<byte>, keywords: seq<seq<byte>>) {
    exists k :: 0 <= k < |keywords| && EqCi(word, keywords[k])
  }

  function Deepen(depth: int, c: byte): int {
    if c == OPEN then depth + 1 else if c == CLOSE then depth - 1 else depth
  }

  /** A keyword that ends the type text starts at `i`, which is at paren depth `depth`. */
  predicate CutsAt(s: seq<byte>, i: nat, depth: int)
    requires i < |s|
  {
    depth == 0 && (i == 0 || IsWs(s[i - 1])) && IsOneOf(s[i..WordEnd(s, i)], TYPE_TERMINATORS)
  }

  /** Where the type text ends, scanning from `i` at paren depth `depth`. */
  function TypeCut(s: seq<byte>, i: nat, depth: int): (cut: nat)
    requires i <= |s|
    ensures i <= cut <= |s|
    decreases |s| - i
  {
    if i == |s| then i
    else
      var d := Deepen(depth, s[i]);
      if CutsAt(s, i, d) then i else TypeCut(s, i + 1, d)
  }

  /** The type text of a column definition's tail. */
  function TypeText(tail: seq<byte>): (r: seq<byte>) {
    var s := Trim(tail);
    Trim(s[..TypeCut(s, 0, 0)])
  }

  /** `take_type`. */
  method TakeType(tail: seq<byte>) returns (r: seq<byte>)
    ensures r == TypeText(tail)
  {
    var s := Trim(tail);
    var depth := 0;
    var i := 0;
    var cut := |s|;
    while i < |s|
      invariant i <= |s| && cut == |s|
      invariant TypeCut(s, 0, 0) == TypeCut(s, i, depth)
    {
      depth := Deepen(depth, s[i]);
      if CutsAt(s, i, depth) {
        cut := i;
        break;
      }
      i := i + 1;
    }
    r := Trim(s[..cut]);
  }

  // ---------------------------------------------------------------- statements

  function StripCreateTable(line: seq<byte>): (r: Option<seq<byte>>) {
    var plain := StripPrefixCi(line, Ascii("CREATE TABLE "));
    if plain.Some? then plain else StripPrefixCi(line, Ascii("CREATE UNLOGGED TABLE "))
  }

  /** The column an item of the list defines, if it defines one. */
  function ColumnOf(piece: seq<byte>): (r: Option<ColumnDef>) {
    var item := Trim(piece);
    if item == [] || IsOneOf(item[..WordEnd(item, 0)], CONSTRAINT_LEADERS) then None
    else
      match TakeIdentifier(item)
      case None => None
      case Some((name, tail)) =>
        var sqlType := TypeText(tail);
        if sqlType == [] then None else Some(ColumnDef(name, sqlType))
  }

  function ColumnsOf(pieces: seq<seq<byte>>): (r: seq<ColumnDef>) {
    if pieces == [] then []
    else
      var rest := ColumnsOf(pieces[1..]);
      match ColumnOf(pieces[0])
      case None => rest
      case Some(c) => [c] + rest
  }

  function ParseCreateTable(ddl: seq<byte>): (r: Result<TableDef, ScanError>) {
    match StripCreateTable(TrimStart(ddl))
    case None => Err(MalformedCreateTable([]))
    case Some(after) =>
      match TakeQualified(after)
      case None => Err(MalformedCreateTable([]))
      case Some((name, rest)) =>
        var open := IndexOf(rest, OPEN);
        if open == |rest| then Err(MalformedCreateTable(Qualified(name)))
        else
          match MatchWalk(rest, open, TOP)
          case None => Err(MalformedCreateTable(Qualified(name)))
          case Some(close) =>
            Ok(TableDef(name, ColumnsOf(SplitTop(rest[open + 1..close], COMMA))))
  }

  function NamesOf(pieces: seq<seq<byte>>): (r: seq<seq<byte>>) {
    if pieces == [] then []
    else
      var rest := NamesOf(pieces[1..]);
      match TakeIdentifier(pieces[0])
      case None => rest
      case Some((name, _)) => [name] + rest
  }

  function HeaderColumns(rest: seq<byte>): (r: seq<seq<byte>>) {
    var open := IndexOf(rest, OPEN);
    if open == |rest| then []
    else
      match MatchWalk(rest, open, TOP)
      case None => []
      case Some(close) => if close > open then NamesOf(SplitTop(rest[open + 1..close], COMMA)) else []
  }

  function ParseCopyHeader(line: seq<byte>): (r: Result<(TableName, seq<seq<byte>>), ScanError>) {
    match StripPrefixCi(TrimStart(line), Ascii("COPY "))
    case None => Err(MalformedCopyHeader)
    case Some(after) =>
      match TakeQualified(after)
      case None => Err(MalformedCopyHeader)
      case Some((name, rest)) => Ok((name, HeaderColumns(rest)))
  }

  method ReadIdentifier(text: seq<byte>) returns (r: Option<(seq<byte>, seq<byte>)>)
    ensures r == TakeIdentifier(text)
  {
    var s := TrimStart(text);
    if s != [] && s[0] == QUOTE {
      r := ReadQuoted(s, 1);
    } else {
      var name := BareName(s);
      r := if name == [] then None else Some((name, s[|name|..]));
    }
  }

  method ReadQualified(s: seq<byte>) returns (r: Option<(TableName, seq<byte>)>)
    ensures r == TakeQualified(s)
  {
    var first := ReadIdentifier(s);
    if first.None? {
      return None;
    }
    var (name, rest) := first.value;
    if rest == [] || rest[0] != DOT {
      return Some((TableName(None, name), rest));
    }
    var second := ReadIdentifier(rest[1..]);
    if second.None? {
      return None;
    }
    return Some((TableName(Some(name), second.value.0), second.value.1));
  }

  /** The loop of `parse_create_table` over the items of the column list. */
  method ReadColumns(pieces: seq<seq<byte>>) returns (columns: seq<ColumnDef>)
    ensures columns == ColumnsOf(pieces)
  {
    columns := [];
    assert pieces[0..] == pieces;
    for k := 0 to |pieces|
      invariant ColumnsOf(pieces) == columns + ColumnsOf(pieces[k..])
    {
      assert pieces[k..][1..] == pieces[k + 1..] && pieces[k..][0] == pieces[k];
      var item := Trim(pieces[k]);
      if item == [] || IsOneOf(item[..WordEnd(item, 0)], CONSTRAINT_LEADERS) {
        continue;
      }
      var id := ReadIdentifier(item);
      if id.None? {
        continue;
      }
      var sqlType := TakeType(id.value.1);
      if sqlType == [] {
        continue;
      }
      columns := columns + [ColumnDef(id.value.0, sqlType)];
    }
  }

  method ReadCreateTable(ddl: seq<byte>) returns (r: Result<TableDef, ScanError>)
    ensures r == ParseCreateTable(ddl)
  {
    hide ColumnsOf, SplitTop, TakeQualified;
    var after := StripCreateTable(TrimStart(ddl));
    if after.None? {
      return Err(MalformedCreateTable([]));
    }
    var named := ReadQualified(after.value);
    if named.None? {
      return Err(MalformedCreateTable([]));
    }
    var (name, rest) := named.value;
    var open := IndexOf(rest, OPEN);
    if open == |rest| {
      return Err(MalformedCreateTable(Qualified(name)));
    }
    var close := MatchingParen(rest, open);
    if close.None? {
      return Err(MalformedCreateTable(Qualified(name)));
    }
    var pieces := SplitTopLevel(rest[open + 1..close.value], COMMA);
    var columns := ReadColumns(pieces);
    return Ok(TableDef(name, columns));
  }

  /** The loop of `parse_copy_header` over the column list. */
  method ReadNames(pieces: seq<seq<byte>>) returns (names: seq<seq<byte>>)
    ensures names == NamesOf(pieces)
  {
    names := [];
    assert pieces[0..] == pieces;
    for k := 0 to |pieces|
      invariant NamesOf(pieces) == names + NamesOf(pieces[k..])
    {
      assert pieces[k..][1..] == pieces[k + 1..] && pieces[k..][0] == pieces[k];
      var id := ReadIdentifier(pieces[k]);
      if id.Some? {
        names := names + [id.value.0];
      }
    }
  }

  method ReadCopyHeader(line: seq<byte>) returns (r: Result<(TableName, seq<seq<byte>>), ScanError>)
    ensures r == ParseCopyHeader(line)
  {
    hide NamesOf, SplitTop, TakeQualified;
    var after := StripPrefixCi(TrimStart(line), Ascii("COPY "));
    if after.None? {
      return Err(MalformedCopyHeader);
    }
    var named := ReadQualified(after.value);
    if named.None? {
      return Err(MalformedCopyHeader);
    }
    var (table, rest) := named.value;
    var columns: seq<seq<byte>> := [];
    var open := IndexOf(rest, OPEN);
    if open < |rest| {
      var close := MatchingParen(rest, open);
      if close.Some? && close.value > open {
        var pieces := SplitTopLevel(rest[open + 1..close.value], COMMA);
        columns := ReadNames(pieces);
      }
    }
    return Ok((table, columns));
  }
}
