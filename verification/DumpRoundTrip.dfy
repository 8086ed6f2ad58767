/** A whole dump as `pg_dump` prints it, and what reading, and then loading, makes of it. */
module DumpRoundTrip {
  import opened Bytes
  import opened SqlPrint
  import opened SqlText
  import opened Scan
  import opened DdlRoundTrip
  import opened DdlScan
  import CopyText
  import CopyRoundTrip
  import Delta
  import Dump
  import EndToEnd
  import Ledger
  import Load
  import LoadSafety
  import Numerals
  import Pool
  import Session
  import SessionRuns
  import Worker

  type Rows = seq<seq<CopyRoundTrip.Styled>>

  /** A part of a dump: a line of no interest, a version, a definition, or a table's rows. */
  datatype Section =
    | Aside(line: seq<byte>)
    | Origin(major: nat, rest: seq<byte>)
    | DumpedBy(major: nat, rest: seq<byte>)
    | Definition(unlogged: bool, name: Name, gap: seq<byte>, items: seq<Spaced>, trailing: seq<byte>)
    | Block(name: Name, gap: seq<byte>, columns: seq<Listed>, trailing: seq<byte>, rows: Rows)

  // ---------------------------------------------------------------- printing

  /** `text`, in either case, at the end of the line, blanks aside. */
  ghost predicate EndsIn(line: seq<byte>, text: string) {
    exists k :: EndsAt(line, text, k)
  }

  ghost predicate EndsAt(line: seq<byte>, text: string, k: nat) {
    |text| <= k <= |line| && Spells(line[k - |text|..k], text) && Blank(line[k..])
  }

  /** Neither a version, nor the start of a definition or of a block. */
  ghost predicate IsAside(line: seq<byte>) {
    && !Begins(line, "-- Dumped by pg_dump version ") && !Begins(line, "-- Dumped from database version ")
    && (Begins(line, "--")
        || (!Begins(line, "CREATE TABLE ") && !Begins(line, "CREATE UNLOGGED TABLE ")
            && !(Begins(line, "COPY ") && EndsIn(line, "FROM stdin;"))))
  }

  /** What can follow a number. */
  predicate EndsNumber(rest: seq<byte>) {
    rest == [] || !('0' as int <= rest[0] <= '9' as int)
  }

  /** The lines of a printed definition. */
  function DefinitionLines(unlogged: bool, name: Name, gap: seq<byte>, items: seq<Spaced>, trailing: seq<byte>): (ls: seq<seq<byte>>) {
    Lines(PrintCreate(unlogged, name, gap, items, trailing) + [NL])
  }

  /** The last line, and no other, ends in `);`. */
  ghost predicate OnlyLastCloses(ls: seq<seq<byte>>) {
    ls != [] && ClosesStatement(ls[|ls| - 1]) && forall j :: 0 <= j < |ls| - 1 ==> !ClosesStatement(ls[j])
  }

  /** Rows as wide as the header's list, and within the limits. */
  ghost predicate AreRows(rows: Rows, width: nat, limits: CopyText.Limits) {
    forall i :: 0 <= i < |rows| ==> rows[i] != [] && |rows[i]| == width && CopyRoundTrip.Fits(rows[i], limits)
  }

  /** Nothing follows `FROM stdin;`. */
  predicate EndsHeader(trailing: seq<byte>) {
    |trailing| >= 11 && Spells(trailing[|trailing| - 11..], "FROM stdin;")
  }

  ghost predicate IsSection(sec: Section, limits: CopyText.Limits) {
    match sec
    case Aside(line) => IsAside(line)
    case Origin(major, rest) => major < 0x1_0000_0000 && EndsNumber(rest)
    case DumpedBy(major, rest) => (major == 16 || major == 17) && EndsNumber(rest)
    case Definition(unlogged, name, gap, items, trailing) =>
      && IsName(name) && Blank(gap) && (forall i :: 0 <= i < |items| ==> IsSpaced(items[i]))
      && NoNewline(trailing) && OnlyLastCloses(DefinitionLines(unlogged, name, gap, items, trailing))
    case Block(name, gap, columns, trailing, rows) =>
      && IsName(name) && Blank(gap) && (forall i :: 0 <= i < |columns| ==> IsListed(columns[i]))
      && EndsHeader(trailing) && AreRows(rows, |columns|, limits)
  }

  ghost function SectionLines(sec: Section, limits: CopyText.Limits): (ls: seq<seq<byte>>)
    requires IsSection(sec, limits)
  {
    match sec
    case Aside(line) => [line]
    case Origin(major, rest) => [Ascii("-- Dumped from database version ") + (Numerals.Digits(major) + rest)]
    case DumpedBy(major, rest) => [Ascii("-- Dumped by pg_dump version ") + (Numerals.Digits(major) + rest)]
    case Definition(unlogged, name, gap, items, trailing) => DefinitionLines(unlogged, name, gap, items, trailing)
    case Block(name, gap, columns, trailing, rows) =>
      [PrintHeader(name, gap, columns, trailing)] + CopyRoundTrip.RenderRows(rows) + [Ascii("\\.")]
  }

  ghost predicate AreSections(secs: seq<Section>, limits: CopyText.Limits) {
    forall i :: 0 <= i < |secs| ==> IsSection(secs[i], limits)
  }

  ghost function DumpLines(secs: seq<Section>, limits: CopyText.Limits): (ls: seq<seq<byte>>)
    requires AreSections(secs, limits)
  {
    if secs == [] then [] else SectionLines(secs[0], limits) + DumpLines(secs[1..], limits)
  }

  /** Lines that read as `ls` under either line end. */
  ghost predicate Reads(raws: seq<seq<byte>>, ls: seq<seq<byte>>) {
    |raws| == |ls| && forall j :: 0 <= j < |raws| ==> StripCr(raws[j]) == ls[j]
  }

  // ---------------------------------------------------------------- what it says

  function DefOf(sec: Section): (def: TableDef)
    requires sec.Definition?
  {
    TableDef(Named(sec.name), ColumnsDefined(sec.items))
  }

  ghost function After(st: State, sec: Section): (r: State) {
    match sec
    case Aside(_) => st
    case Origin(major, _) => st.(fromDatabase := Some(major))
    case DumpedBy(major, _) => st.(dumpedBy := Some(major))
    case Definition(_, name, _, _, _) => if LeftOut(st.excluded, name) then st else Defined(st, DefOf(sec)).state
    case Block(_, _, _, _, _) => st
  }

  /** What reading a section is to say, where `origin` is the database version read before. */
  ghost function Says(excluded: set<seq<byte>>, origin: Option<nat>, sec: Section, limits: CopyText.Limits): (items: seq<Scan.Item>)
    requires IsSection(sec, limits)
  {
    match sec
    case Aside(_) => []
    case Origin(_, _) => []
    case DumpedBy(major, _) => [Other(DumpVersion(major, origin))]
    case Definition(_, name, _, _, _) => if LeftOut(excluded, name) then [] else [Other(Table(DefOf(sec)))]
    case Block(name, _, columns, _, rows) =>
      [Other(CopyStart(Named(name), ListedNames(columns)))] + RowItems(CopyRoundTrip.RenderRows(rows)) + [Other(CopyEnd(Named(name)))]
  }

  // ---------------------------------------------------------------- one line

  /** Outside anything, with no block open. */
  predicate Clear(st: State) {
    Ready(st) && st.openTable.None?
  }

  lemma EndsAtTrims(line: seq<byte>, k: nat)
    requires EndsAt(line, "FROM stdin;", k)
    ensures TrimEnd(line) == line[..k]
  {
    assert SameLetter(line[k - 11..k][10], "FROM stdin;"[10]);
    assert line[..k][k - 1] == line[k - 11..k][10] == 59;
    assert line == line[..k] + line[k..];
    assert !IsWs(59);
    TrimEndBlanks(line[..k], line[k..]);
  }

  lemma EndsInIff(line: seq<byte>)
    ensures EndsWithCi(TrimEnd(line), Ascii("FROM stdin;")) <==> EndsIn(line, "FROM stdin;")
  {
    var t := TrimEnd(line);
    if |t| >= 11 {
      SpellsIff(t[|t| - 11..], "FROM stdin;");
      assert line[|t| - 11..|t|] == t[|t| - 11..];
    }
    TrimEndSplit(line);
    hide Spells, Ascii, EqCi, TrimEnd;
    if EndsWithCi(t, Ascii("FROM stdin;")) {
      assert EndsAt(line, "FROM stdin;", |t|);
    }
    if k: nat :| EndsAt(line, "FROM stdin;", k) {
      EndsAtTrims(line, k);
    }
  }

  /** A dash line is told from the other by one letter. */
  lemma Dashes(line: seq<byte>)
    ensures Begins(line, "--") <==> |line| >= 2 && line[0] == 45 && line[1] == 45
  {
    if |line| >= 2 {
      assert line[..2][0] == line[0] && line[..2][1] == line[1];
      assert SameLetter(line[..2][0], "--"[0]) <==> line[0] == 45;
      assert SameLetter(line[..2][1], "--"[1]) <==> line[1] == 45;
    }
  }

  lemma AsideSays(st: State, line: seq<byte>)
    requires Clear(st)
    requires StripPrefixCi(line, Ascii("-- Dumped by pg_dump version ")) == None
    requires StripPrefixCi(line, Ascii("-- Dumped from database version ")) == None
    requires (|line| >= 2 && line[0] == 45 && line[1] == 45)
      || (StripCreateTable(line) == None
          && (StripPrefixCi(line, Ascii("COPY ")) == None || !EndsWithCi(TrimEnd(line), Ascii("FROM stdin;"))))
    ensures SqlLine(st, line) == Step(st, [], None)
  {
    hide StripPrefixCi, StripCreateTable, Ascii, EndsWithCi, TrimEnd, ParseCopyHeader;
  }

  lemma NoCreateTable(line: seq<byte>)
    ensures StripCreateTable(line) == None <==> !Begins(line, "CREATE TABLE ") && !Begins(line, "CREATE UNLOGGED TABLE ")
  {
    hide StripPrefixCi, Ascii, Begins;
    StripsIff(line, "CREATE TABLE ");
    StripsIff(line, "CREATE UNLOGGED TABLE ");
  }

  lemma AsideRuns(st: State, raw: seq<byte>, line: seq<byte>)
    requires Clear(st) && IsAside(line) && StripCr(raw) == line
    ensures Run(st, [raw]) == Outcome(st, [], None)
  {
    hide StripPrefixCi, StripCreateTable, Ascii, EndsWithCi, TrimEnd, Run, Begins, EndsIn, SqlLine;
    StripsIff(line, "-- Dumped by pg_dump version ");
    StripsIff(line, "-- Dumped from database version ");
    Dashes(line);
    NoCreateTable(line);
    StripsIff(line, "COPY ");
    EndsInIff(line);
    AsideSays(st, line);
    OneLine(st, raw, line);
    assert Others([]) == [];
  }

  lemma {:induction false} DigitsLead(digits: seq<byte>, rest: seq<byte>)
    requires Numerals.AllDigits(digits) && EndsNumber(rest)
    ensures LeadingDigits(digits + rest) == digits
    decreases |digits|
  {
    var s := digits + rest;
    if digits == [] {
      assert s == rest;
    } else {
      assert s[1..] == digits[1..] + rest;
      DigitsLead(digits[1..], rest);
      assert [digits[0]] + digits[1..] == digits;
    }
  }

  /** A printed version number is read back if 32 bits hold it. */
  lemma MajorTrims(ws: seq<byte>, s: seq<byte>)
    requires Blank(ws)
    ensures LeadingMajor(ws + s) == LeadingMajor(s)
  {
    hide TrimStart, LeadingDigits, Numerals.Value;
    StartTrims(ws, s);
  }

  lemma MajorReads(major: nat, rest: seq<byte>)
    requires EndsNumber(rest)
    ensures LeadingMajor(Numerals.Digits(major) + rest) == if major < 0x1_0000_0000 then Some(major) else None
  {
    hide Numerals.Value, Numerals.Digits, LeadingDigits;
    var s := Numerals.Digits(major) + rest;
    assert Numerals.IsDigit(Numerals.Digits(major)[0]) && s[0] == Numerals.Digits(major)[0];
    assert TrimStart(s) == s;
    DigitsLead(Numerals.Digits(major), rest);
    Numerals.DigitsValue(major);
  }

  lemma OriginRuns(st: State, raw: seq<byte>, major: nat, rest: seq<byte>)
    requires Clear(st) && major < 0x1_0000_0000 && EndsNumber(rest)
    requires StripCr(raw) == Ascii("-- Dumped from database version ") + (Numerals.Digits(major) + rest)
    ensures Run(st, [raw]) == Outcome(st.(fromDatabase := Some(major)), [], None)
  {
    var number := Numerals.Digits(major) + rest;
    var line := Ascii("-- Dumped from database version ") + number;
    MajorReads(major, rest);
    StripsPrefix(Ascii("-- Dumped from database version "), number);
    NotDumpedBy(number);
    hide StripPrefixCi, Run, LeadingMajor, Numerals.Digits, Ascii;
    OneLine(st, raw, line);
    assert Others([]) == [];
  }

  lemma NotDumpedBy(rest: seq<byte>)
    ensures StripPrefixCi(Ascii("-- Dumped from database version ") + rest, Ascii("-- Dumped by pg_dump version ")) == None
  {
    var line := Ascii("-- Dumped from database version ") + rest;
    assert line[..29][10] == line[10] == 102;
    assert Ascii("-- Dumped by pg_dump version ")[10] == 98;
  }

  /** Of the versions of `pg_dump`, 16 and 17 are accepted and any other is refused by its number. */
  lemma VersionRuns(st: State, raw: seq<byte>, major: nat, rest: seq<byte>)
    requires Clear(st) && major < 0x1_0000_0000 && EndsNumber(rest)
    requires StripCr(raw) == Ascii("-- Dumped by pg_dump version ") + (Numerals.Digits(major) + rest)
    ensures Run(st, [raw]) ==
      if major == 16 || major == 17
      then Outcome(st.(dumpedBy := Some(major)), [Other(DumpVersion(major, st.fromDatabase))], None)
      else Outcome(st, [], Some(UnsupportedDumpVersion(major)))
  {
    var number := Numerals.Digits(major) + rest;
    MajorReads(major, rest);
    StripsPrefix(Ascii("-- Dumped by pg_dump version "), number);
    hide StripPrefixCi, Run, LeadingMajor, Numerals.Digits, Ascii;
    OneLine(st, raw, Ascii("-- Dumped by pg_dump version ") + number);
    var event := DumpVersion(major, st.fromDatabase);
    assert Others([event]) == [Other(event)] && Others([]) == [];
  }

  /** A version line without a number, or with one over 32 bits, says nothing. */
  lemma VersionIgnored(st: State, raw: seq<byte>, ws: seq<byte>, major: Option<nat>, rest: seq<byte>)
    requires Clear(st) && Blank(ws) && EndsNumber(rest)
    requires if major.Some? then major.value >= 0x1_0000_0000 else rest == [] || !IsBlank(rest[0])
    requires StripCr(raw) == Ascii("-- Dumped by pg_dump version ") +
      (ws + ((if major.Some? then Numerals.Digits(major.value) else []) + rest))
    ensures Run(st, [raw]) == Outcome(st, [], None)
  {
    var number := (if major.Some? then Numerals.Digits(major.value) else []) + rest;
    if major.Some? {
      MajorReads(major.value, rest);
    } else {
      NoMajor(rest);
      assert number == rest;
    }
    MajorTrims(ws, number);
    StripsPrefix(Ascii("-- Dumped by pg_dump version "), ws + number);
    hide StripPrefixCi, Run, LeadingMajor, Numerals.Digits, Ascii, Blank;
    OneLine(st, raw, Ascii("-- Dumped by pg_dump version ") + (ws + number));
    assert Others([]) == [];
  }

  lemma NoMajor(rest: seq<byte>)
    requires EndsNumber(rest) && (rest == [] || !IsBlank(rest[0]))
    ensures LeadingMajor(rest) == None
  {
    assert TrimStart(rest) == rest;
  }

  // ---------------------------------------------------------------- definitions

  /** The lines of a definition in a schema that is left out. */
  lemma {:induction false} Skips(st: State, raws: seq<seq<byte>>, ls: seq<seq<byte>>, k: nat, j: nat, unlogged: bool, after: seq<byte>)
    requires Ready(st) && FirstEnd(raws, ls, k) && ls[0] == Prefix(unlogged) + after && SchemaExcluded(st, after)
    requires 1 <= j <= k + 1
    ensures Run(st, raws[..j]) == Outcome(st.(skippingCreate := j <= k), [], None)
    decreases j
  {
    hide SqlLine, Run, SchemaExcluded, Prefix, EndsStatement, ClosesStatement, StripCr;
    assert Others([]) == [];
    EndsStatementIff(ls[j - 1]);
    if j == 1 {
      assert raws[..1] == [raws[0]];
      OneLine(st, raws[0], ls[0]);
      CreateLine(st, unlogged, ls[0], after);
      SkipBegins(st, ls[0], after);
    } else {
      Skips(st, raws, ls, k, j - 1, unlogged, after);
      assert raws[..j] == raws[..j - 1] + [raws[j - 1]];
      RunAppend(st, raws[..j - 1], [raws[j - 1]]);
      OneLine(st.(skippingCreate := true), raws[j - 1], ls[j - 1]);
      SkipsOn(st.(skippingCreate := true), ls[j - 1]);
    }
  }

  lemma SkipBegins(st: State, line: seq<byte>, after: seq<byte>)
    requires SchemaExcluded(st, after)
    ensures BeginCreate(st, line, after) == Step(st.(skippingCreate := !EndsStatement(line)), [], None)
  {
  }

  lemma SkipsOn(st: State, line: seq<byte>)
    requires st.skippingCreate
    ensures SqlLine(st, line) == Step(st.(skippingCreate := !EndsStatement(line)), [], None)
  {
  }

  lemma EndsOnce(raws: seq<seq<byte>>, ls: seq<seq<byte>>)
    requires Reads(raws, ls) && OnlyLastCloses(ls)
    ensures ls != [] && |raws| == |ls| && FirstEnd(raws, ls, |ls| - 1)
  {
    hide ClosesStatement;
  }

  lemma DefinitionSkipped(st: State, raws: seq<seq<byte>>, unlogged: bool, ls: seq<seq<byte>>, after: seq<byte>)
    requires Clear(st) && ls != [] && FirstEnd(raws, ls, |ls| - 1) && ls[0] == Prefix(unlogged) + after && SchemaExcluded(st, after)
    ensures Run(st, raws) == Outcome(st, [], None)
  {
    assert raws[..|ls|] == raws;
    hide Run, SchemaExcluded, Prefix, ClosesStatement;
    Skips(st, raws, ls, |ls| - 1, |ls|, unlogged, after);
    assert st.(skippingCreate := false) == st;
  }

  lemma DefinitionRuns(st: State, raws: seq<seq<byte>>, sec: Section, limits: CopyText.Limits)
    requires Clear(st) && sec.Definition? && IsSection(sec, limits) && Reads(raws, SectionLines(sec, limits))
    ensures Run(st, raws) == Outcome(After(st, sec), Says(st.excluded, st.fromDatabase, sec, limits), None)
  {
    hide Run, SchemaExcluded, Prefix, PrintCreate, IsName, Blank, IsSpaced, Lines, FirstEnd, ColumnsDefined, Named, OnlyLastCloses, Reads, LeftOut;
    var ls := DefinitionLines(sec.unlogged, sec.name, sec.gap, sec.items, sec.trailing);
    EndsOnce(raws, ls);
    DefinitionExcluded(st, sec.unlogged, sec.name, sec.gap, sec.items, sec.trailing);
    if LeftOut(st.excluded, sec.name) {
      DefinitionSkipped(st, raws, sec.unlogged, ls, ls[0][|Prefix(sec.unlogged)|..]);
    } else {
      ScannedIff(st, raws, sec.unlogged, sec.name, sec.gap, sec.items, sec.trailing, |ls| - 1);
    }
  }

  // ---------------------------------------------------------------- blocks

  lemma HeaderEnds(front: seq<byte>, trailing: seq<byte>)
    requires EndsHeader(trailing)
    ensures EndsIn(front + trailing, "FROM stdin;") && TrimEnd(front + trailing) == front + trailing
  {
    var line := front + trailing;
    assert line[|line| - 11..|line|] == trailing[|trailing| - 11..] && line[|line|..] == [];
    assert EndsAt(line, "FROM stdin;", |line|);
    assert SameLetter(trailing[|trailing| - 11..][10], "FROM stdin;"[10]);
  }

  lemma CopyIsNoDefinition(line: seq<byte>)
    requires line != [] && line[0] == 67 && StripPrefixCi(line, COPY).Some?
    ensures StripPrefixCi(line, Ascii("-- Dumped by pg_dump version ")).None?
    ensures StripPrefixCi(line, Ascii("-- Dumped from database version ")).None?
    ensures StripCreateTable(line).None?
  {
    assert COPY[1] == 79 && Ascii("CREATE TABLE ")[1] == 82 && Ascii("CREATE UNLOGGED TABLE ")[1] == 82;
    assert Lower(line[..5][1]) == Lower(79);
    hide StripPrefixCi;
    ScanPrefix(line, Ascii("-- Dumped by pg_dump version "));
    ScanPrefix(line, Ascii("-- Dumped from database version "));
    NotPrefixed(line, Ascii("CREATE TABLE "));
    NotPrefixed(line, Ascii("CREATE UNLOGGED TABLE "));
  }

  lemma NotPrefixed(line: seq<byte>, prefix: seq<byte>)
    requires |line| > 1 && |prefix| > 1 && Lower(line[1]) != Lower(prefix[1])
    ensures StripPrefixCi(line, prefix).None?
  {
    if |line| >= |prefix| {
      assert line[..|prefix|][1] == line[1];
    }
  }

  lemma HeaderBegins(name: Name, gap: seq<byte>, columns: seq<Listed>, trailing: seq<byte>)
    requires EndsHeader(trailing)
    ensures var line := PrintHeader(name, gap, columns, trailing);
      && line != [] && line[0] == 67 && StripPrefixCi(line, COPY).Some?
      && EndsIn(line, "FROM stdin;") && TrimEnd(line) == line
  {
    hide PrintName, Joined, PrintListed, EndsHeader, EndsIn, TrimEnd;
    var front := PrintName(name) + (gap + ([OPEN] + (Joined(PrintListed(columns)) + [CLOSE])));
    var rest := PrintName(name) + (gap + ([OPEN] + (Joined(PrintListed(columns)) + ([CLOSE] + trailing))));
    StripsCopy(rest);
    assert COPY[0] == 67;
    HeaderEnds(COPY + front, trailing);
    assert PrintHeader(name, gap, columns, trailing) == COPY + front + trailing;
  }

  lemma HeaderRuns(st: State, raw: seq<byte>, name: Name, gap: seq<byte>, columns: seq<Listed>, trailing: seq<byte>)
    requires Clear(st) && IsName(name) && Blank(gap) && (forall i :: 0 <= i < |columns| ==> IsListed(columns[i]))
    requires EndsHeader(trailing) && StripCr(raw) == PrintHeader(name, gap, columns, trailing)
    ensures Run(st, [raw]) ==
      Outcome(st.(openTable := Some(Named(name)), mode := Copy), [Other(CopyStart(Named(name), ListedNames(columns)))], None)
  {
    hide PrintHeader, IsName, Blank, IsListed, StripPrefixCi, StripCreateTable, EndsWithCi, ParseCopyHeader, Run, Named, ListedNames;
    hide TrimEnd, EndsHeader, EndsIn, Ascii;
    var line := PrintHeader(name, gap, columns, trailing);
    HeaderBegins(name, gap, columns, trailing);
    CopyIsNoDefinition(line);
    EndsInIff(line);
    HeaderRoundTrip(name, gap, columns, trailing);
    OneLine(st, raw, line);
    var event := CopyStart(Named(name), ListedNames(columns));
    assert Others([event]) == [Other(event)];
  }

  /** What cannot begin a name, and a quote that nothing closes. */
  predicate BeginsNoName(b: byte, rest: seq<byte>) {
    b as char in "(,." || (b as char == '\"' && forall i :: 0 <= i < |rest| ==> rest[i] as char != '\"')
  }

  lemma {:induction false} NeverClosed(rest: seq<byte>)
    requires forall i :: 0 <= i < |rest| ==> rest[i] != QUOTE
    ensures QuotedRest(rest) == None
    decreases |rest|
  {
    if rest != [] {
      NeverClosed(rest[1..]);
    }
  }

  lemma NoNameTaken(ws: seq<byte>, b: byte, rest: seq<byte>)
    requires Blank(ws) && BeginsNoName(b, rest)
    ensures TakeQualified(ws + ([b] + rest)) == None
  {
    hide QuotedRest;
    var s := [b] + rest;
    assert s[0] == b && s[1..] == rest;
    TrimStartBlanks(ws, s);
    if b == QUOTE {
      NeverClosed(rest);
    } else {
      assert BareName(s) == [];
    }
  }

  /** A header that names no table is refused. */
  lemma NamelessHeader(st: State, raw: seq<byte>, ws: seq<byte>, b: byte, rest: seq<byte>)
    requires Clear(st) && Blank(ws) && BeginsNoName(b, rest) && EndsHeader(rest)
    requires StripCr(raw) == Ascii("COPY ") + (ws + ([b] + rest))
    ensures Run(st, [raw]) == Outcome(st, [], Some(MalformedCopyHeader))
  {
    hide Blank, StripPrefixCi, StripCreateTable, EndsWithCi, Run, TakeQualified, TrimEnd, TrimStart, EndsHeader, EndsIn, BeginsNoName, Ascii;
    var line := COPY + (ws + ([b] + rest));
    StripsCopy(ws + ([b] + rest));
    NoNameTaken(ws, b, rest);
    CopyFirst();
    assert line[0] == COPY[0] == 67;
    HeaderEnds(COPY + (ws + [b]), rest);
    assert line == COPY + (ws + [b]) + rest;
    CopyIsNoDefinition(line);
    EndsInIff(line);
    OneLine(st, raw, line);
    assert Others([]) == [];
  }

  lemma CopyFirst()
    ensures |COPY| == 5 && COPY[0] == 67
  {
  }

  lemma RowsRun(st: State, raws: seq<seq<byte>>, rows: Rows, limits: CopyText.Limits)
    requires st.mode.Copy? && AreRows(rows, if rows == [] then 0 else |rows[0]|, limits)
    requires Reads(raws, CopyRoundTrip.RenderRows(rows))
    ensures Run(st, raws) == Outcome(st, RowItems(CopyRoundTrip.RenderRows(rows)), None)
  {
    hide CopyRoundTrip.RenderRow, CopyRoundTrip.Fits, CopyText.IsEndOfData, StripCr, Run;
    forall i | 0 <= i < |raws|
      ensures !CopyText.IsEndOfData(StripCr(raws[i]))
    {
      CopyRoundTrip.RowRoundTrip(rows[i], limits);
    }
    RunRows(st, raws);
    assert Stripped(raws) == CopyRoundTrip.RenderRows(rows);
  }

  lemma TerminatorRuns(st: State, raw: seq<byte>, name: TableName)
    requires Clear(st) && StripCr(raw) == Ascii("\\.")
    ensures Run(st.(openTable := Some(name), mode := Copy), [raw]) == Outcome(st, [Other(CopyEnd(name))], None)
  {
    RunOne(st.(openTable := Some(name), mode := Copy), raw);
    assert Others([CopyEnd(name)]) == [Other(CopyEnd(name))];
    assert st.(mode := Sql, openTable := None) == st;
  }

  /** Lines that read as two texts, one after the other. */
  lemma ReadsApart(raws: seq<seq<byte>>, a: seq<seq<byte>>, b: seq<seq<byte>>)
    requires Reads(raws, a + b)
    ensures |a| <= |raws| && raws == raws[..|a|] + raws[|a|..]
    ensures Reads(raws[..|a|], a) && Reads(raws[|a|..], b)
  {
    forall j | 0 <= j < |b|
      ensures StripCr(raws[|a|..][j]) == b[j]
    {
      assert (a + b)[|a| + j] == b[j];
    }
    forall j | 0 <= j < |a|
      ensures StripCr(raws[j]) == a[j]
    {
      assert (a + b)[j] == a[j];
    }
  }

  lemma RunTwo(st: State, a: seq<seq<byte>>, b: seq<seq<byte>>, mid: State, end: State, first: seq<Scan.Item>, second: seq<Scan.Item>)
    requires Run(st, a) == Outcome(mid, first, None) && Run(mid, b) == Outcome(end, second, None)
    ensures Run(st, a + b) == Outcome(end, first + second, None)
  {
    RunAppend(st, a, b);
  }

  function Opened(st: State, name: Name): (r: State) {
    st.(openTable := Some(Named(name)), mode := Copy)
  }

  /** A header and the rows after it. */
  lemma BlockOpens(st: State, raws: seq<seq<byte>>, sec: Section, limits: CopyText.Limits)
    requires Clear(st) && sec.Block? && IsSection(sec, limits)
    requires Reads(raws, [PrintHeader(sec.name, sec.gap, sec.columns, sec.trailing)] + CopyRoundTrip.RenderRows(sec.rows))
    ensures Run(st, raws) == Outcome(Opened(st, sec.name),
      [Other(CopyStart(Named(sec.name), ListedNames(sec.columns)))] + RowItems(CopyRoundTrip.RenderRows(sec.rows)), None)
  {
    var head, rows := [PrintHeader(sec.name, sec.gap, sec.columns, sec.trailing)], CopyRoundTrip.RenderRows(sec.rows);
    ReadsApart(raws, head, rows);
    assert raws[..1] == [raws[0]];
    hide Run, PrintHeader, IsName, Blank, IsListed, EndsHeader, Named, Ascii, ListedNames, StripCr, CopyRoundTrip.RenderRows, CopyRoundTrip.Fits;
    HeaderRuns(st, raws[0], sec.name, sec.gap, sec.columns, sec.trailing);
    var open := Opened(st, sec.name);
    RowsRun(open, raws[1..], sec.rows, limits);
    RunTwo(st, raws[..1], raws[1..], open, open, [Other(CopyStart(Named(sec.name), ListedNames(sec.columns)))], RowItems(rows));
  }

  lemma BlockRuns(st: State, raws: seq<seq<byte>>, sec: Section, limits: CopyText.Limits)
    requires Clear(st) && sec.Block? && IsSection(sec, limits) && Reads(raws, SectionLines(sec, limits))
    ensures Run(st, raws) == Outcome(st, Says(st.excluded, st.fromDatabase, sec, limits), None)
  {
    var front := [PrintHeader(sec.name, sec.gap, sec.columns, sec.trailing)] + CopyRoundTrip.RenderRows(sec.rows);
    ReadsApart(raws, front, [Ascii("\\.")]);
    var body, last := raws[..|front|], raws[|front|..];
    assert last == [last[0]];
    hide Run, PrintHeader, IsName, Blank, IsListed, EndsHeader, Named, Ascii, ListedNames, StripCr, CopyRoundTrip.RenderRows, CopyRoundTrip.Fits;
    BlockOpens(st, body, sec, limits);
    TerminatorRuns(st, last[0], Named(sec.name));
    RunTwo(st, body, last, Opened(st, sec.name), st,
           [Other(CopyStart(Named(sec.name), ListedNames(sec.columns)))] + RowItems(CopyRoundTrip.RenderRows(sec.rows)),
           [Other(CopyEnd(Named(sec.name)))]);
  }

  /** One section, read line by line, says what it says, and leaves nothing open. */
  lemma SectionRuns(st: State, raws: seq<seq<byte>>, sec: Section, limits: CopyText.Limits)
    requires Clear(st) && IsSection(sec, limits) && Reads(raws, SectionLines(sec, limits))
    ensures Run(st, raws) == Outcome(After(st, sec), Says(st.excluded, st.fromDatabase, sec, limits), None)
    ensures Clear(After(st, sec))
  {
    match sec
    case Definition(_, _, _, _, _) => DefinitionRuns(st, raws, sec, limits);
    case Block(_, _, _, _, _) => BlockRuns(st, raws, sec, limits);
    case Aside(line) =>
      assert raws == [raws[0]];
      AsideRuns(st, raws[0], line);
    case Origin(major, rest) =>
      assert raws == [raws[0]];
      OriginRuns(st, raws[0], major, rest);
    case DumpedBy(major, rest) =>
      assert raws == [raws[0]];
      VersionRuns(st, raws[0], major, rest);
  }

  // ---------------------------------------------------------------- the whole dump

  ghost function AfterAll(st: State, secs: seq<Section>): (r: State)
    decreases |secs|
  {
    if secs == [] then st else AfterAll(After(st, secs[0]), secs[1..])
  }

  function NextOrigin(origin: Option<nat>, sec: Section): (r: Option<nat>) {
    if sec.Origin? then Some(sec.major) else origin
  }

  ghost function SaysAll(excluded: set<seq<byte>>, origin: Option<nat>, secs: seq<Section>, limits: CopyText.Limits): (items: seq<Scan.Item>)
    requires AreSections(secs, limits)
    decreases |secs|
  {
    if secs == [] then []
    else Says(excluded, origin, secs[0], limits) + SaysAll(excluded, NextOrigin(origin, secs[0]), secs[1..], limits)
  }

  lemma AfterKeeps(st: State, sec: Section)
    ensures After(st, sec).excluded == st.excluded && After(st, sec).fromDatabase == NextOrigin(st.fromDatabase, sec)
  {
    hide LeftOut;
  }

  lemma {:induction false} SectionsRun(st: State, raws: seq<seq<byte>>, secs: seq<Section>, limits: CopyText.Limits)
    requires Clear(st) && AreSections(secs, limits) && Reads(raws, DumpLines(secs, limits))
    ensures Run(st, raws) == Outcome(AfterAll(st, secs), SaysAll(st.excluded, st.fromDatabase, secs, limits), None)
    ensures Clear(AfterAll(st, secs))
    decreases |secs|
  {
    if secs != [] {
      hide Run, IsSection, SectionLines, After, Says, Clear, StripCr, NextOrigin;
      var n := |SectionLines(secs[0], limits)|;
      var next := After(st, secs[0]);
      ReadsApart(raws, SectionLines(secs[0], limits), DumpLines(secs[1..], limits));
      SectionRuns(st, raws[..n], secs[0], limits);
      AfterKeeps(st, secs[0]);
      SectionsRun(next, raws[n..], secs[1..], limits);
      RunTwo(st, raws[..n], raws[n..], next, AfterAll(st, secs), Says(st.excluded, st.fromDatabase, secs[0], limits),
             SaysAll(next.excluded, next.fromDatabase, secs[1..], limits));
    }
  }

  /** The blocks that are wanted, as they were printed. */
  ghost function Specs(cfg: Pool.Config, secs: seq<Section>, limits: CopyText.Limits): (specs: seq<Ledger.BlockSpec>)
    requires AreSections(secs, limits)
    decreases |secs|
  {
    if secs == [] then [] else SpecOf(cfg, secs[0], limits) + Specs(cfg, secs[1..], limits)
  }

  /** Listed, if there is a list, and not in a schema that is left out. */
  predicate IsWanted(cfg: Pool.Config, name: Name) {
    && (cfg.tables.Some? ==> TableText(name) in cfg.tables.value)
    && (name.schema.Some? ==> name.schema.value.name !in cfg.excludedSchemas)
  }

  lemma WantedName(name: Name)
    ensures Qualified(Named(name)) == TableText(name)
  {
  }

  lemma WantedIff(cfg: Pool.Config, name: Name)
    ensures Pool.Wanted(cfg, Named(name)) <==> IsWanted(cfg, name)
  {
  }

  ghost function SpecOf(cfg: Pool.Config, sec: Section, limits: CopyText.Limits): (specs: seq<Ledger.BlockSpec>)
    requires IsSection(sec, limits)
  {
    if sec.Block? && IsWanted(cfg, sec.name)
    then [Ledger.BlockSpec(Named(sec.name), |sec.columns|, CopyRoundTrip.RenderRows(sec.rows))]
    else []
  }

  lemma BlockEntered(cfg: Pool.Config, items: seq<Scan.Item>, t: TableName, columns: seq<seq<byte>>, rows: seq<seq<byte>>)
    requires Ledger.Entered(cfg, items).open.None?
    ensures Ledger.Entered(cfg, items + ([Other(CopyStart(t, columns))] + RowItems(rows) + [Other(CopyEnd(t))])) ==
      Ledger.Books(Ledger.Entered(cfg, items).closed
                   + (if Pool.Wanted(cfg, t) then [Ledger.BlockSpec(t, |columns|, rows)] else []), None)
  {
    hide Ledger.Entered, Pool.Wanted;
    var begun := items + [Other(CopyStart(t, columns))];
    Ledger.LedgerSnoc(cfg, items, Other(CopyStart(t, columns)));
    Ledger.LedgerRows(cfg, begun, rows);
    Ledger.LedgerSnoc(cfg, begun + RowItems(rows), Other(CopyEnd(t)));
    assert items + ([Other(CopyStart(t, columns))] + RowItems(rows) + [Other(CopyEnd(t))]) ==
           begun + RowItems(rows) + [Other(CopyEnd(t))];
    assert [] + rows == rows;
  }

  lemma SectionEntered(cfg: Pool.Config, items: seq<Scan.Item>, origin: Option<nat>, sec: Section, limits: CopyText.Limits)
    requires IsSection(sec, limits) && Ledger.Entered(cfg, items).open.None?
    ensures Ledger.Entered(cfg, items + Says(cfg.excludedSchemas, origin, sec, limits)) ==
      Ledger.Books(Ledger.Entered(cfg, items).closed + SpecOf(cfg, sec, limits), None)
  {
    hide Ledger.Entered, Pool.Wanted, LeftOut, ColumnsDefined, CopyRoundTrip.RenderRow, CopyRoundTrip.Fits, ClosesStatement, IsWanted;
    var said := Says(cfg.excludedSchemas, origin, sec, limits);
    if sec.Block? {
      WantedIff(cfg, sec.name);
      BlockEntered(cfg, items, Named(sec.name), ListedNames(sec.columns), CopyRoundTrip.RenderRows(sec.rows));
    } else if said == [] {
      assert items + [] == items;
    } else {
      assert said == [said[0]];
      Ledger.LedgerSnoc(cfg, items, said[0]);
    }
  }

  lemma {:induction false} SectionsEntered(cfg: Pool.Config, items: seq<Scan.Item>, origin: Option<nat>, secs: seq<Section>, limits: CopyText.Limits)
    requires AreSections(secs, limits) && Ledger.Entered(cfg, items).open.None?
    ensures Ledger.Entered(cfg, items + SaysAll(cfg.excludedSchemas, origin, secs, limits)) ==
      Ledger.Books(Ledger.Entered(cfg, items).closed + Specs(cfg, secs, limits), None)
    decreases |secs|
  {
    hide Ledger.Entered, IsSection, Says, SpecOf, NextOrigin;
    if secs == [] {
      assert items + [] == items;
    } else {
      SectionEntered(cfg, items, origin, secs[0], limits);
      var more := items + Says(cfg.excludedSchemas, origin, secs[0], limits);
      var next := NextOrigin(origin, secs[0]);
      SectionsEntered(cfg, more, next, secs[1..], limits);
      assert items + SaysAll(cfg.excludedSchemas, origin, secs, limits) == more + SaysAll(cfg.excludedSchemas, next, secs[1..], limits);
      var closed := Ledger.Entered(cfg, items).closed;
      assert closed + SpecOf(cfg, secs[0], limits) + Specs(cfg, secs[1..], limits) == closed + Specs(cfg, secs, limits);
    }
  }

  lemma {:induction false} VersionKept(st: State, secs: seq<Section>)
    ensures AfterAll(st, secs).dumpedBy.Some? <==> st.dumpedBy.Some? || exists k :: 0 <= k < |secs| && secs[k].DumpedBy?
    decreases |secs|
  {
    hide LeftOut;
    if secs != [] {
      VersionKept(After(st, secs[0]), secs[1..]);
      assert forall k :: 0 < k < |secs| ==> secs[k] == secs[1..][k - 1];
    }
  }

  /**
   * A printed dump, read line by line under either line end: no line is refused, it says what
   * was printed, every table and every block in order, with the rows as printed, and it is
   * complete if and only if it says which version of `pg_dump` wrote it.
   */
  lemma DumpReads(data: seq<byte>, secs: seq<Section>, cfg: Pool.Config)
    requires AreSections(secs, cfg.limits) && Reads(Lines(data), DumpLines(secs, cfg.limits))
    ensures EndToEnd.Simple(cfg.excludedSchemas, data).error.None?
    ensures EndToEnd.Simple(cfg.excludedSchemas, data).items == SaysAll(cfg.excludedSchemas, None, secs, cfg.limits)
    ensures EndToEnd.BlocksOf(cfg, data) == Specs(cfg, secs, cfg.limits)
    ensures EndToEnd.Complete(cfg.excludedSchemas, data) <==> exists k :: 0 <= k < |secs| && secs[k].DumpedBy?
  {
    hide Run, Lines, IsSection, DumpLines, AfterAll, SaysAll, Specs, Ledger.Entered;
    var st := Start(cfg.excludedSchemas);
    SectionsRun(st, Lines(data), secs, cfg.limits);
    NothingEntered(cfg);
    var items := SaysAll(cfg.excludedSchemas, None, secs, cfg.limits);
    SectionsEntered(cfg, [], None, secs, cfg.limits);
    assert [] + items == items;
    assert [] + Specs(cfg, secs, cfg.limits) == Specs(cfg, secs, cfg.limits);
    VersionKept(st, secs);
  }

  lemma NothingEntered(cfg: Pool.Config)
    ensures Ledger.Entered(cfg, []) == Ledger.Books([], None)
  {
  }

  // ---------------------------------------------------------------- dumps that are refused

  /** `secs`, then lines that read as `more`: what comes of the first carries over. */
  lemma ReadsOn(data: seq<byte>, secs: seq<Section>, more: seq<seq<byte>>, excluded: set<seq<byte>>, limits: CopyText.Limits)
    returns (raws: seq<seq<byte>>)
    requires AreSections(secs, limits) && Reads(Lines(data), DumpLines(secs, limits) + more)
    ensures Reads(raws, more) && Clear(AfterAll(Start(excluded), secs))
    ensures EndToEnd.Simple(excluded, data) ==
      Then(Outcome(AfterAll(Start(excluded), secs), SaysAll(excluded, None, secs, limits), None), raws)
  {
    hide Run, Lines, IsSection, DumpLines, AfterAll, SaysAll, Then;
    var st := Start(excluded);
    var n := |DumpLines(secs, limits)|;
    ReadsApart(Lines(data), DumpLines(secs, limits), more);
    raws := Lines(data)[n..];
    SectionsRun(st, Lines(data)[..n], secs, limits);
    RunAppend(st, Lines(data)[..n], raws);
  }

  /** A dump by any other version of `pg_dump` is refused, by that version, whatever it says. */
  lemma VersionRefused(data: seq<byte>, secs: seq<Section>, major: nat, rest: seq<byte>, more: seq<seq<byte>>,
                       excluded: set<seq<byte>>, limits: CopyText.Limits)
    requires AreSections(secs, limits) && EndsNumber(rest) && major < 0x1_0000_0000 && major != 16 && major != 17
    requires Reads(Lines(data),
                   DumpLines(secs, limits) + ([Ascii("-- Dumped by pg_dump version ") + (Numerals.Digits(major) + rest)] + more))
    ensures EndToEnd.Simple(excluded, data).error == Some(UnsupportedDumpVersion(major))
  {
    hide Lines, IsSection, DumpLines, AfterAll, SaysAll, Ascii, Numerals.Digits, EndToEnd.Simple, Run;
    var line := Ascii("-- Dumped by pg_dump version ") + (Numerals.Digits(major) + rest);
    var raws := ReadsOn(data, secs, [line] + more, excluded, limits);
    ReadsApart(raws, [line], more);
    assert raws[..1] == [raws[0]];
    VersionRuns(AfterAll(Start(excluded), secs), raws[0], major, rest);
    RunAppend(AfterAll(Start(excluded), secs), raws[..1], raws[1..]);
  }

  /** A dump that breaks off inside a block, as a truncated transfer does, is refused by that table. */
  lemma TruncatedRefused(data: seq<byte>, secs: seq<Section>, block: Section, cfg: Pool.Config)
    requires AreSections(secs, cfg.limits) && block.Block? && IsSection(block, cfg.limits)
    requires Reads(Lines(data), DumpLines(secs, cfg.limits)
                   + ([PrintHeader(block.name, block.gap, block.columns, block.trailing)] + CopyRoundTrip.RenderRows(block.rows)))
    ensures var o := EndToEnd.Simple(cfg.excludedSchemas, data);
      o.error.None? && EndToEnd.Refusal(o.state) == Some(UnterminatedCopy(TableText(block.name)))
  {
    var lines := [PrintHeader(block.name, block.gap, block.columns, block.trailing)] + CopyRoundTrip.RenderRows(block.rows);
    hide Lines, DumpLines, AfterAll, SaysAll, Run, PrintHeader, IsSection, CopyRoundTrip.RenderRows, EndToEnd.Simple, Qualified, TableText;
    var raws := ReadsOn(data, secs, lines, cfg.excludedSchemas, cfg.limits);
    BlockOpens(AfterAll(Start(cfg.excludedSchemas), secs), raws, block, cfg.limits);
    WantedName(block.name);
  }

  /** Lines written with a carriage return before each newline. */
  function WithCrs(ls: seq<seq<byte>>): (r: seq<seq<byte>>)
    ensures |r| == |ls| && forall j :: 0 <= j < |ls| ==> r[j] == ls[j] + [CR]
  {
    seq(|ls|, j requires 0 <= j < |ls| => ls[j] + [CR])
  }

  lemma LinesBack(ls: seq<seq<byte>>)
    requires NewlineFree(ls)
    ensures Lines(Unlines(ls)) == ls
  {
    LinesOfUnlines(ls, []);
    LinesNone([]);
    assert Unlines(ls) + [] == Unlines(ls);
  }

  lemma CrsStripped(ls: seq<seq<byte>>)
    requires NewlineFree(ls)
    ensures NewlineFree(WithCrs(ls)) && Reads(WithCrs(ls), ls)
  {
    forall j | 0 <= j < |ls|
      ensures NoNewline(WithCrs(ls)[j]) && StripCr(WithCrs(ls)[j]) == ls[j]
    {
      assert NoNewline(ls[j]);
    }
  }

  /**
   * Such dumps are there for any lines without newlines of their own: with a carriage return
   * before each newline, and without if no line ends in one.
   */
  lemma EitherEnd(ls: seq<seq<byte>>)
    requires NewlineFree(ls)
    ensures Reads(Lines(Unlines(WithCrs(ls))), ls)
    ensures Reads(Lines(Unlines(ls)), ls) <==> forall j :: 0 <= j < |ls| ==> StripCr(ls[j]) == ls[j]
  {
    hide Unlines, Lines, StripCr, NewlineFree, WithCrs;
    LinesBack(ls);
    CrsStripped(ls);
    LinesBack(WithCrs(ls));
  }

  // ---------------------------------------------------------------- loaded

  /** The values a table's rows were printed from. */
  function Values(rows: Rows): (vs: seq<Worker.Row>)
    ensures |vs| == |rows| && forall i :: 0 <= i < |rows| ==> vs[i] == CopyRoundTrip.EraseFields(rows[i])
  {
    seq(|rows|, i requires 0 <= i < |rows| => CopyRoundTrip.EraseFields(rows[i]))
  }

  lemma RowsDecode(rows: Rows, width: nat, limits: CopyText.Limits)
    requires AreRows(rows, width, limits)
    ensures Worker.DecodeEach(CopyRoundTrip.RenderRows(rows), width, limits) == Worker.AllOk(Values(rows))
  {
    hide CopyRoundTrip.RenderRow, CopyRoundTrip.Fits, CopyRoundTrip.EraseFields, CopyText.DecodeRowSpec;
    forall i | 0 <= i < |rows|
      ensures CopyText.DecodeRowSpec(CopyRoundTrip.RenderRows(rows)[i], width, limits) == Ok(Values(rows)[i])
    {
      CopyRoundTrip.RowRoundTrip(rows[i], limits);
    }
  }

  lemma ConsCount<T>(x: T, rest: seq<T>, y: T)
    ensures multiset([x] + rest)[y] == multiset(rest)[y] + (if x == y then 1 else 0)
  {
    assert multiset([x] + rest) == multiset{x} + multiset(rest);
  }

  lemma AllOkCons(first: Worker.Row, rest: seq<Worker.Row>)
    ensures Worker.AllOk([first] + rest) == [Ok(first)] + Worker.AllOk(rest)
  {
  }

  lemma {:induction false} AllOkCount(rows: seq<Worker.Row>, row: Worker.Row)
    ensures multiset(Worker.AllOk(rows))[Ok(row)] == multiset(rows)[row]
    decreases |rows|
  {
    hide Worker.AllOk;
    if rows == [] {
      assert Worker.AllOk(rows) == [];
    } else {
      var first, rest := rows[0], rows[1..];
      assert rows == [first] + rest;
      AllOkCount(rest, row);
      AllOkCons(first, rest);
      ConsCount(first, rest, row);
      ConsCount<Worker.Decoded>(Ok(first), Worker.AllOk(rest), Ok(row));
    }
  }

  lemma SameRows(a: seq<Worker.Row>, b: seq<Worker.Row>)
    requires multiset(Worker.AllOk(a)) == multiset(Worker.AllOk(b))
    ensures multiset(a) == multiset(b)
  {
    forall row
      ensures multiset(a)[row] == multiset(b)[row]
    {
      AllOkCount(a, row);
      AllOkCount(b, row);
    }
  }

  /** A table that shows what was kept of it, and then exactly the values of a printed block. */
  ghost predicate ShowsValues(l: Load.Load, base: Load.Store, sec: Section)
    requires sec.Block?
  {
    var name := TableText(sec.name);
    var kept := SessionRuns.Kept(l.mode, base, name);
    var shown := LoadSafety.Visible(l.store, name);
    kept <= shown && multiset(Delta.FileRows(shown[|kept|..])) == multiset(Values(sec.rows))
  }

  lemma {:induction false} SpecAt(cfg: Pool.Config, secs: seq<Section>, limits: CopyText.Limits, j: nat) returns (k: nat)
    requires AreSections(secs, limits) && j < |secs| && secs[j].Block? && IsWanted(cfg, secs[j].name)
    ensures k < |Specs(cfg, secs, limits)|
    ensures Specs(cfg, secs, limits)[k] ==
      Ledger.BlockSpec(Named(secs[j].name), |secs[j].columns|, CopyRoundTrip.RenderRows(secs[j].rows))
    decreases |secs|
  {
    hide IsSection, IsWanted, CopyRoundTrip.RenderRows;
    if j == 0 {
      return 0;
    }
    k := SpecAt(cfg, secs[1..], limits, j - 1);
    k := k + |SpecOf(cfg, secs[0], limits)|;
  }

  lemma ShownAsPrinted(l: Load.Load, base: Load.Store, sec: Section, limits: CopyText.Limits)
    requires sec.Block? && IsSection(sec, limits)
    requires EndToEnd.ShowsBlock(l, base, Ledger.BlockSpec(Named(sec.name), |sec.columns|, CopyRoundTrip.RenderRows(sec.rows)), limits)
    ensures ShowsValues(l, base, sec)
  {
    hide CopyRoundTrip.RenderRows, Values, Named, IsName, IsListed, LoadSafety.Visible, SessionRuns.Kept, Delta.FileRows, Worker.AllOk;
    RowsDecode(sec.rows, |sec.columns|, limits);
    var name := TableText(sec.name);
    WantedName(sec.name);
    SameRows(Delta.FileRows(LoadSafety.Visible(l.store, name)[|SessionRuns.Kept(l.mode, base, name)|..]), Values(sec.rows));
  }

  /**
   * The whole way round: values printed as a dump, whatever the style of each byte, the order
   * of definitions, blocks and other lines, and the line ends, then read in chunks and loaded
   * in any session that succeeds, are exactly what the tables then show.
   */
  lemma PrintedThenLoaded(data: seq<byte>, secs: seq<Section>, ceiling: nat, cfg: Pool.Config, events: seq<Event>,
                          failure: Option<EndToEnd.Failure>, run: seq<Session.Session>, steps: seq<Session.Step>, threads: nat,
                          base: Load.Store, i: nat)
    requires AreSections(secs, cfg.limits) && Reads(Lines(data), DumpLines(secs, cfg.limits))
    requires EndToEnd.IsReading(data, cfg.excludedSchemas, ceiling, events, failure)
    requires Session.IsRun(run, steps, cfg, events, failure.None?, threads, base) && i < |run|
    requires run[i].load.phase == Load.Ended(Load.Succeeded)
    ensures forall j :: 0 <= j < |secs| && secs[j].Block? && IsWanted(cfg, secs[j].name) ==>
      ShowsValues(run[i].load, base, secs[j])
  {
    hide EndToEnd.IsReading, Session.IsRun, Lines, IsSection, DumpLines, Specs, EndToEnd.BlocksOf, EndToEnd.ShowsBlock, ShowsValues;
    hide IsWanted, Reads, EndToEnd.Complete, LoadSafety.Visible, Named;
    DumpReads(data, secs, cfg);
    EndToEnd.TablesShowTheDump(data, ceiling, cfg, events, failure, run, steps, threads, base, i);
    forall j | 0 <= j < |secs| && secs[j].Block? && IsWanted(cfg, secs[j].name)
      ensures ShowsValues(run[i].load, base, secs[j])
    {
      var k := SpecAt(cfg, secs, cfg.limits, j);
      ShownAsPrinted(run[i].load, base, secs[j], cfg.limits);
    }
  }
}
