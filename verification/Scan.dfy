/** The streaming scanner over a plain-text dump (src/scan.rs). */
module Scan {
  import opened Bytes
  import opened SqlText
  import CopyText

  datatype Event =
    | DumpVersion(dumpedBy: nat, fromDatabase: Option<nat>)
    | Table(def: TableDef)
    | CopyStart(table: TableName, columns: seq<seq<byte>>)
    | CopyRows(payload: seq<byte>)
    | CopyEnd(closed: TableName)

  datatype Mode = Sql | Copy

  /** Everything the scanner remembers, apart from the partial line it carries over. */
  datatype State = State(
    mode: Mode,
    ddl: seq<byte>,
    inCreate: bool,
    skippingCreate: bool,
    openTable: Option<TableName>,
    dumpedBy: Option<nat>,
    fromDatabase: Option<nat>,
    tables: map<seq<byte>, TableDef>,
    excluded: set<seq<byte>>)

  function Start(excluded: set<seq<byte>>): (st: State)
    ensures WellFormed(st)
  {
    State(Sql, [], false, false, None, None, None, map[], excluded)
  }

  /** A table is open exactly while rows are being read. */
  predicate WellFormed(st: State) {
    st.mode.Copy? <==> st.openTable.Some?
  }

  /** The outcome of a step: the new state, what was recognised, and the error if it failed. */
  datatype Step = Step(state: State, events: seq<Event>, error: Option<ScanError>)

  function SupportedMajor(n: nat): bool {
    n == 16 || n == 17
  }

  function SchemaExcluded(st: State, after: seq<byte>): bool {
    match TakeQualified(after)
    case Some((TableName(Some(schema), _), _)) => schema in st.excluded
    case _ => false
  }

  /** A complete `CREATE TABLE` has been read into `ddl`. */
  function Define(st: State, ddl: seq<byte>): (r: Step) {
    match ParseCreateTable(ddl)
    case Err(e) => Step(st, [], Some(e))
    case Ok(def) => Step(st.(tables := st.tables[Qualified(def.name) := def]), [Table(def)], None)
  }

  function BeginCreate(st: State, line: seq<byte>, after: seq<byte>): (r: Step) {
    if SchemaExcluded(st, after) then
      Step(st.(skippingCreate := !EndsStatement(line)), [], None)
    else if EndsStatement(line) then Define(st.(ddl := []), line)
    else Step(st.(ddl := line, inCreate := true), [], None)
  }

  function BeginCopy(st: State, line: seq<byte>): (r: Step) {
    var trimmed := TrimEnd(line);
    if !EndsWithCi(trimmed, Ascii("FROM stdin;")) then Step(st, [], None)
    else
      match ParseCopyHeader(trimmed)
      case Err(e) => Step(st, [], Some(e))
      case Ok((table, columns)) =>
        Step(st.(openTable := Some(table), mode := Copy), [CopyStart(table, columns)], None)
  }

  /** One line outside a `COPY` block. */
  function SqlLine(st: State, line: seq<byte>): (r: Step) {
    if st.skippingCreate then
      Step(st.(skippingCreate := !EndsStatement(line)), [], None)
    else if st.inCreate then
      var ddl := st.ddl + [NL] + line;
      if EndsStatement(line) then Define(st.(ddl := [], inCreate := false), ddl)
      else Step(st.(ddl := ddl), [], None)
    else
      var dumped := StripPrefixCi(line, Ascii("-- Dumped by pg_dump version "));
      if dumped.Some? then
        match LeadingMajor(dumped.value)
        case None => Step(st, [], None)
        case Some(major) =>
          if !SupportedMajor(major) then Step(st, [], Some(UnsupportedDumpVersion(major)))
          else Step(st.(dumpedBy := Some(major)), [DumpVersion(major, st.fromDatabase)], None)
      else
        var origin := StripPrefixCi(line, Ascii("-- Dumped from database version "));
        if origin.Some? then Step(st.(fromDatabase := LeadingMajor(origin.value)), [], None)
        else if |line| >= 2 && line[0] == 45 && line[1] == 45 then Step(st, [], None)
        else
          var after := StripCreateTable(line);
          if after.Some? then BeginCreate(st, line, after.value)
          else if StripPrefixCi(line, Ascii("COPY ")).Some? then BeginCopy(st, line)
          else Step(st, [], None)
  }

  function CloseCopy(st: State): (r: Step) {
    Step(st.(mode := Sql, openTable := None),
         if st.openTable.Some? then [CopyEnd(st.openTable.value)] else [],
         None)
  }

  // ---------------------------------------------------------------- the simple scanner

  /** What a dump says, row by row: how payloads were cut is not part of it. */
  datatype Item = Other(event: Event) | Row(bytes: seq<byte>)

  datatype Outcome = Outcome(state: State, items: seq<Item>, error: Option<ScanError>)

  function Others(events: seq<Event>): (items: seq<Item>)
    ensures |items| == |events|
    ensures forall i :: 0 <= i < |events| ==> items[i] == Other(events[i])
  {
    seq(|events|, i requires 0 <= i < |events| => Other(events[i]))
  }

  function RowItems(rows: seq<seq<byte>>): (items: seq<Item>)
    ensures |items| == |rows|
    ensures forall i :: 0 <= i < |rows| ==> items[i] == Row(rows[i])
  {
    seq(|rows|, i requires 0 <= i < |rows| => Row(rows[i]))
  }

  /** Events with every row payload split into its rows. */
  function Flatten(events: seq<Event>): (items: seq<Item>) {
    if events == [] then []
    else
      (if events[0].CopyRows? then RowItems(RowsOf(events[0].payload)) else [Other(events[0])])
      + Flatten(events[1..])
  }

  /** One raw line; `row` is how the line reads if it is a row. */
  function LineOutcome(st: State, raw: seq<byte>, row: seq<byte>): (o: Outcome) {
    var line := StripCr(raw);
    match st.mode
    case Sql =>
      var s := SqlLine(st, line);
      Outcome(s.state, Others(s.events), s.error)
    case Copy =>
      if CopyText.IsEndOfData(line) then
        var s := CloseCopy(st);
        Outcome(s.state, Others(s.events), None)
      else Outcome(st, [Row(row)], None)
  }

  /** `o`, then whatever the remaining lines say, unless it already failed. */
  function Then(o: Outcome, lines: seq<seq<byte>>): (r: Outcome)
    decreases |lines|, 1
  {
    if o.error.Some? then o
    else
      var rest := Run(o.state, lines);
      Outcome(rest.state, o.items + rest.items, rest.error)
  }

  /** Splits nothing, carries nothing: reads a dump one line at a time. */
  function Run(st: State, lines: seq<seq<byte>>): (r: Outcome)
    decreases |lines|, 0
  {
    if lines == [] then Outcome(st, [], None)
    else Then(LineOutcome(st, lines[0], StripCr(lines[0])), lines[1..])
  }

  /** How a chunk reads when `pending` was carried over: its first line is stripped twice. */
  function FeedOutcome(st: State, pending: seq<byte>, chunk: seq<byte>): (o: Outcome) {
    var lines := Lines(pending + chunk);
    if pending == [] || lines == [] then Run(st, lines)
    else Then(LineOutcome(st, lines[0], StripCr(StripCr(lines[0]))), lines[1..])
  }

  // ---------------------------------------------------------------- event grammar

  /**
   * Reads events against the block grammar: `open` is the table whose block is open. `None`
   * when the events break it, else the table left open.
   */
  function Grammar(open: Option<TableName>, events: seq<Event>): (r: Option<Option<TableName>>)
    decreases |events|
  {
    if events == [] then Some(open)
    else
      match events[0]
      case DumpVersion(_, _) => if open.None? then Grammar(None, events[1..]) else None
      case Table(_) => if open.None? then Grammar(None, events[1..]) else None
      case CopyStart(t, _) => if open.None? then Grammar(Some(t), events[1..]) else None
      case CopyRows(p) => if open.Some? && p != [] && Aligned(p) then Grammar(open, events[1..]) else None
      case CopyEnd(t) => if open == Some(t) then Grammar(None, events[1..]) else None
  }

  lemma {:induction false} GrammarAppend(open: Option<TableName>, a: seq<Event>, b: seq<Event>)
    ensures Grammar(open, a + b) ==
      match Grammar(open, a) { case None => None case Some(mid) => Grammar(mid, b) }
    decreases |a|
  {
    if a == [] {
      assert a + b == b;
    } else {
      assert (a + b)[1..] == a[1..] + b;
      match a[0]
      case DumpVersion(_, _) => GrammarAppend(None, a[1..], b);
      case Table(_) => GrammarAppend(None, a[1..], b);
      case CopyStart(t, _) => GrammarAppend(Some(t), a[1..], b);
      case CopyRows(_) => GrammarAppend(open, a[1..], b);
      case CopyEnd(_) => GrammarAppend(None, a[1..], b);
    }
  }

  lemma GrammarOne(open: Option<TableName>, e: Event)
    ensures Grammar(open, [e]) ==
      match e
      case DumpVersion(_, _) => (if open.None? then Some(None) else None)
      case Table(_) => (if open.None? then Some(None) else None)
      case CopyStart(t, _) => (if open.None? then Some(Some(t)) else None)
      case CopyRows(p) => (if open.Some? && p != [] && Aligned(p) then Some(open) else None)
      case CopyEnd(t) => (if open == Some(t) then Some(None) else None)
  {
    assert [e][1..] == [];
  }

  /** A line outside a block keeps the invariant and the grammar. */
  lemma SqlLineGrammar(st: State, line: seq<byte>)
    requires WellFormed(st) && st.mode.Sql?
    ensures WellFormed(SqlLine(st, line).state)
    ensures Grammar(None, SqlLine(st, line).events) == Some(SqlLine(st, line).state.openTable)
    ensures forall e :: e in SqlLine(st, line).events ==> !e.CopyRows?
    ensures SqlLine(st, line).error.Some? ==> SqlLine(st, line).events == []
  {
    hide ParseCreateTable, ParseCopyHeader, EndsStatement, StripPrefixCi, LeadingMajor, TakeQualified, EndsWithCi;
    var s := SqlLine(st, line);
    if s.events != [] {
      assert s.events == [s.events[0]];
      GrammarOne(None, s.events[0]);
    }
  }

  // ---------------------------------------------------------------- flattening

  lemma {:induction false} OthersAreFlat(events: seq<Event>)
    requires forall e :: e in events ==> !e.CopyRows?
    ensures Flatten(events) == Others(events)
    decreases |events|
  {
    if events != [] {
      assert events[0] in events;
      OthersAreFlat(events[1..]);
      assert Others(events) == [Other(events[0])] + Others(events[1..]);
    }
  }

  lemma {:induction false} FlattenAppend(a: seq<Event>, b: seq<Event>)
    ensures Flatten(a + b) == Flatten(a) + Flatten(b)
    decreases |a|
  {
    hide RowItems, RowsOf;
    if a == [] {
      assert a + b == b;
      assert [] + Flatten(b) == Flatten(b);
    } else {
      FlattenAppend(a[1..], b);
      assert (a + b)[1..] == a[1..] + b && (a + b)[0] == a[0];
      var head := if a[0].CopyRows? then RowItems(RowsOf(a[0].payload)) else [Other(a[0])];
      Regroup(head, Flatten(a[1..]), Flatten(b));
    }
  }

  /** Adjacent payloads run together. */
  function Merged(events: seq<Event>): (r: seq<Event>)
    ensures events != [] ==> r != []
    decreases |events|
  {
    if events == [] then []
    else
      var rest := Merged(events[1..]);
      if events[0].CopyRows? && rest != [] && rest[0].CopyRows?
      then [CopyRows(events[0].payload + rest[0].payload)] + rest[1..]
      else [events[0]] + rest
  }

  lemma JoinedPayloads(a: seq<byte>, b: seq<byte>, rest: seq<Event>)
    requires Aligned(a)
    ensures Flatten([CopyRows(a + b)] + rest) == RowItems(RowsOf(a)) + Flatten([CopyRows(b)] + rest)
  {
    RowsAppend(a, b);
    assert ([CopyRows(a + b)] + rest)[1..] == rest && ([CopyRows(b)] + rest)[1..] == rest;
    hide RowsOf;
    assert RowItems(RowsOf(a) + RowsOf(b)) == RowItems(RowsOf(a)) + RowItems(RowsOf(b));
    Regroup(RowItems(RowsOf(a)), RowItems(RowsOf(b)), Flatten(rest));
  }

  lemma JoinedGrammar(open: Option<TableName>, a: seq<byte>, b: seq<byte>, rest: seq<Event>)
    requires open.Some? && a != [] && Aligned(a)
    requires Grammar(open, [CopyRows(b)] + rest).Some?
    ensures Grammar(open, [CopyRows(a + b)] + rest) == Grammar(open, [CopyRows(b)] + rest)
  {
    assert ([CopyRows(a + b)] + rest)[1..] == rest && ([CopyRows(b)] + rest)[1..] == rest;
    assert b != [] && (a + b)[|a + b| - 1] == b[|b| - 1];
  }

  /** Where the grammar stands after one event. */
  function After(open: Option<TableName>, e: Event): (r: Option<TableName>) {
    match e
    case CopyStart(t, _) => Some(t)
    case CopyEnd(_) => None
    case _ => open
  }

  lemma GrammarCons(open: Option<TableName>, e: Event, rest: seq<Event>)
    ensures Grammar(open, [e] + rest).Some? ==> Grammar(open, [e] + rest) == Grammar(After(open, e), rest)
    ensures Grammar(open, [e] + rest).Some? && e.CopyRows? ==> open.Some? && e.payload != [] && Aligned(e.payload)
  {
    assert ([e] + rest)[1..] == rest;
  }

  /**
   * How payloads were cut apart does not matter: events with adjacent payloads merged are as
   * well bracketed and hold the same rows, because each payload ends in a newline.
   */
  lemma {:induction false} MergedSame(open: Option<TableName>, events: seq<Event>)
    requires Grammar(open, events).Some?
    ensures Flatten(Merged(events)) == Flatten(events)
    ensures Grammar(open, Merged(events)) == Grammar(open, events)
    decreases |events|
  {
    if events != [] {
      var e, rest := events[0], Merged(events[1..]);
      assert events == [e] + events[1..];
      GrammarCons(open, e, events[1..]);
      MergedSame(After(open, e), events[1..]);
      MergedCons(open, e, events[1..]);
    }
  }

  lemma MergedCons(open: Option<TableName>, e: Event, events: seq<Event>)
    requires Grammar(open, [e] + events).Some?
    requires Flatten(Merged(events)) == Flatten(events)
    requires Grammar(After(open, e), Merged(events)) == Grammar(After(open, e), events)
    ensures Flatten(Merged([e] + events)) == Flatten([e] + events)
    ensures Grammar(open, Merged([e] + events)) == Grammar(open, [e] + events)
  {
    assert ([e] + events)[1..] == events;
    GrammarCons(open, e, events);
    var rest := Merged(events);
    assert ([e] + rest)[1..] == rest;
    if e.CopyRows? && rest != [] && rest[0].CopyRows? {
      assert rest == [rest[0]] + rest[1..];
      JoinedPayloads(e.payload, rest[0].payload, rest[1..]);
      JoinedGrammar(open, e.payload, rest[0].payload, rest[1..]);
    }
  }

  lemma FlattenRows(p: seq<byte>)
    ensures Flatten([CopyRows(p)]) == RowItems(RowsOf(p))
  {
    assert [CopyRows(p)][1..] == [];
  }

  // ---------------------------------------------------------------- running

  lemma ThenAssoc(o: Outcome, a: seq<seq<byte>>, b: seq<seq<byte>>)
    requires Run(o.state, a + b) == Then(Run(o.state, a), b)
    ensures Then(o, a + b) == Then(Then(o, a), b)
  {
    hide Run;
    if o.error.None? {
      var first := Run(o.state, a);
      if first.error.None? {
        var rest := Run(first.state, b);
        assert o.items + (first.items + rest.items) == o.items + first.items + rest.items;
      }
    }
  }

  /** Lines read in two goes read the same as in one. */
  lemma {:induction false} RunAppend(st: State, a: seq<seq<byte>>, b: seq<seq<byte>>)
    ensures Run(st, a + b) == Then(Run(st, a), b)
    decreases |a|
  {
    if a == [] {
      assert a + b == b;
      assert [] + Run(st, b).items == Run(st, b).items;
    } else {
      hide LineOutcome;
      assert (a + b)[1..] == a[1..] + b;
      var o := LineOutcome(st, a[0], StripCr(a[0]));
      RunAppend(o.state, a[1..], b);
      ThenAssoc(o, a[1..], b);
    }
  }

  lemma RunOne(st: State, line: seq<byte>)
    ensures Run(st, [line]) == LineOutcome(st, line, StripCr(line))
  {
    hide LineOutcome;
    var o := LineOutcome(st, line, StripCr(line));
    assert [line][1..] == [];
    assert Run(o.state, []) == Outcome(o.state, [], None);
    assert o.items + [] == o.items;
  }

  /** Rows of an open block up to, not including, any terminator. */
  lemma {:induction false} RunRows(st: State, lines: seq<seq<byte>>)
    requires st.mode.Copy?
    requires NoTerminator(lines)
    ensures Run(st, lines) == Outcome(st, RowItems(Stripped(lines)), None)
    decreases |lines|
  {
    if lines != [] {
      RunRows(st, lines[1..]);
      assert Stripped(lines) == [StripCr(lines[0])] + Stripped(lines[1..]);
      assert RowItems(Stripped(lines)) == [Row(StripCr(lines[0]))] + RowItems(Stripped(lines[1..]));
    }
  }

  function Stripped(lines: seq<seq<byte>>): (r: seq<seq<byte>>)
    ensures |r| == |lines|
  {
    seq(|lines|, i requires 0 <= i < |lines| => StripCr(lines[i]))
  }

  /** Going on after `o` with two batches of lines. */
  lemma ThenAppend(o: Outcome, a: seq<seq<byte>>, b: seq<seq<byte>>)
    ensures Then(o, a + b) == Then(Then(o, a), b)
  {
    RunAppend(o.state, a, b);
    ThenAssoc(o, a, b);
  }

  /** `o` followed by what `next` says. */
  function Extend(o: Outcome, next: Outcome): Outcome {
    Outcome(next.state, o.items + next.items, next.error)
  }

  lemma ThenOne(o: Outcome, line: seq<byte>)
    requires o.error.None?
    ensures Then(o, [line]) == Extend(o, LineOutcome(o.state, line, StripCr(line)))
  {
    RunOne(o.state, line);
  }

  lemma ThenNone(o: Outcome)
    ensures Then(o, []) == o
  {
    assert o.items + [] == o.items;
  }

  lemma ThenFromNothing(st: State, lines: seq<seq<byte>>)
    ensures Then(Outcome(st, [], None), lines) == Run(st, lines)
  {
    assert [] + Run(st, lines).items == Run(st, lines).items;
  }

  /** A line read off the front of the input. */
  lemma RunInput(st: State, input: seq<byte>, nl: nat)
    requires nl == IndexOf(input, NL) < |input|
    ensures Run(st, Lines(input)) == Then(LineOutcome(st, input[..nl], StripCr(input[..nl])), Lines(input[nl + 1..]))
    ensures Tail(input) == Tail(input[nl + 1..])
  {
    LinesFirst(input);
    RunCons(st, input[..nl], Lines(input[nl + 1..]));
  }

  lemma RunCons(st: State, line: seq<byte>, lines: seq<seq<byte>>)
    ensures Run(st, [line] + lines) == Then(LineOutcome(st, line, StripCr(line)), lines)
  {
    hide LineOutcome, Then;
    assert ([line] + lines)[1..] == lines;
  }

  ghost predicate NoTerminator(lines: seq<seq<byte>>) {
    forall i :: 0 <= i < |lines| ==> !CopyText.IsEndOfData(StripCr(lines[i]))
  }

  /** The longest run of rows in front of a terminator, or of the partial last line. */
  ghost predicate IsRowRun(input: seq<byte>, n: nat) {
    && n <= |input|
    && Aligned(input[..n])
    && NoTerminator(Lines(input[..n]))
  }

  lemma RowRunGrows(input: seq<byte>, n: nat, nl: nat)
    requires IsRowRun(input, n)
    requires nl == IndexOf(input[n..], NL) < |input| - n
    requires !CopyText.IsEndOfData(StripCr(input[n..n + nl]))
    ensures IsRowRun(input, n + nl + 1)
  {
    var a, l, b := input[..n], input[n..n + nl], input[n..];
    assert b[nl] == NL && input[n + nl] == b[nl];
    forall k | 0 <= k < |l|
      ensures l[k] != NL
    {
      assert l[k] == b[k];
    }
    assert input[..n + nl + 1] == a + l + [NL];
    LinesSnoc(a, l);
  }

  lemma RunRowRun(st: State, input: seq<byte>, n: nat)
    requires st.mode.Copy? && IsRowRun(input, n)
    ensures Run(st, Lines(input)) == Then(Outcome(st, RowItems(RowsOf(input[..n])), None), Lines(input[n..]))
    ensures Tail(input) == Tail(input[n..])
  {
    var a, b := input[..n], input[n..];
    assert input == a + b;
    AlignedTail(a);
    LinesAppend(a, b);
    assert [] + b == b;
    RunRows(st, Lines(a));
    assert Stripped(Lines(a)) == RowsOf(a);
    RunAppend(st, Lines(a), Lines(b));
  }

  /** Reads `input` for the `\.` line: how much is consumed, and where that line starts. */
  method FindTerminator(input: seq<byte>) returns (consumed: nat, at: Option<nat>)
    ensures consumed <= |input|
    ensures at.None? ==> IsRowRun(input, consumed) && NoNewline(input[consumed..])
    ensures at.Some? ==>
      && IsRowRun(input, at.value)
      && at.value < consumed <= |input|
      && consumed - 1 - at.value == IndexOf(input[at.value..], NL)
      && CopyText.IsEndOfData(StripCr(input[at.value..consumed - 1]))
  {
    consumed := 0;
    assert IsRowRun(input, 0);
    hide IsRowRun;
    while true
      invariant consumed <= |input| && IsRowRun(input, consumed)
      decreases |input| - consumed
    {
      var nl := IndexOf(input[consumed..], NL);
      if consumed + nl == |input| {
        return consumed, None;
      }
      var end := consumed + nl;
      if CopyText.IsEndOfData(StripCr(input[consumed..end])) {
        return end + 1, Some(consumed);
      }
      RowRunGrows(input, consumed, nl);
      consumed := end + 1;
    }
  }

  class Scanner {
    var mode: Mode
    var pending: seq<byte>
    var ddl: seq<byte>
    var inCreate: bool
    var skippingCreate: bool
    var openTable: Option<TableName>
    var dumpedBy: Option<nat>
    var fromDatabase: Option<nat>
    var tables: map<seq<byte>, TableDef>
    var excludedSchemas: set<seq<byte>>

    ghost function Abs(): (st: State)
      reads this
    {
      State(mode, ddl, inCreate, skippingCreate, openTable, dumpedBy, fromDatabase, tables, excludedSchemas)
    }

    constructor (excluded: set<seq<byte>>)
      ensures Abs() == Start(excluded) && pending == []
    {
      mode, pending, ddl := Sql, [], [];
      inCreate, skippingCreate, openTable := false, false, None;
      dumpedBy, fromDatabase, tables := None, None, map[];
      excludedSchemas := excluded;
    }

    method SchemaIsExcluded(after: seq<byte>) returns (r: bool)
      ensures r == SchemaExcluded(Abs(), after)
    {
      if excludedSchemas == {} {
        return false;
      }
      var named := ReadQualified(after);
      return named.Some? && named.value.0.schema.Some? && named.value.0.schema.value in excludedSchemas;
    }

    method DefineTable(text: seq<byte>) returns (events: seq<Event>, error: Option<ScanError>)
      modifies this`tables
      ensures Step(Abs(), events, error) == Define(old(Abs()), text)
    {
      var parsed := ReadCreateTable(text);
      if parsed.Err? {
        return [], Some(parsed.error);
      }
      tables := tables[Qualified(parsed.value.name) := parsed.value];
      return [Table(parsed.value)], None;
    }

    method ReadCreate(line: seq<byte>, after: seq<byte>) returns (events: seq<Event>, error: Option<ScanError>)
      modifies this
      requires !skippingCreate && !inCreate
      ensures Step(Abs(), events, error) == BeginCreate(old(Abs()), line, after)
      ensures pending == old(pending)
    {
      hide ParseCreateTable, EndsStatement, TakeQualified;
      events, error := [], None;
      var excluded := SchemaIsExcluded(after);
      if excluded {
        if !EndsStatement(line) {
          skippingCreate := true;
        }
        return;
      }
      if EndsStatement(line) {
        ddl := [];
        events, error := DefineTable(line);
      } else {
        ddl := line;
        inCreate := true;
      }
    }

    method ReadCopy(line: seq<byte>) returns (events: seq<Event>, error: Option<ScanError>)
      modifies this
      ensures Step(Abs(), events, error) == BeginCopy(old(Abs()), line)
      ensures pending == old(pending)
    {
      hide ParseCopyHeader, EndsWithCi;
      events, error := [], None;
      var trimmed := TrimEnd(line);
      if EndsWithCi(trimmed, Ascii("FROM stdin;")) {
        var header := ReadCopyHeader(trimmed);
        if header.Err? {
          error := Some(header.error);
          return;
        }
        openTable := Some(header.value.0);
        mode := Copy;
        events := [CopyStart(header.value.0, header.value.1)];
      }
    }

    method ReadSqlLine(line: seq<byte>) returns (events: seq<Event>, error: Option<ScanError>)
      modifies this
      ensures Step(Abs(), events, error) == SqlLine(old(Abs()), line)
      ensures pending == old(pending)
    {
      hide BeginCopy, BeginCreate, Define, EndsStatement, StripPrefixCi, LeadingMajor, StripCreateTable;
      events, error := [], None;
      if skippingCreate {
        if EndsStatement(line) {
          skippingCreate := false;
        }
        return;
      }
      if inCreate {
        ddl := ddl + [NL] + line;
        if EndsStatement(line) {
          inCreate := false;
          var text := ddl;
          ddl := [];
          events, error := DefineTable(text);
        }
        return;
      }
      var dumped := StripPrefixCi(line, Ascii("-- Dumped by pg_dump version "));
      if dumped.Some? {
        var major := LeadingMajor(dumped.value);
        if major.Some? {
          if !SupportedMajor(major.value) {
            return [], Some(UnsupportedDumpVersion(major.value));
          }
          dumpedBy := major;
          events := [DumpVersion(major.value, fromDatabase)];
        }
        return;
      }
      var origin := StripPrefixCi(line, Ascii("-- Dumped from database version "));
      if origin.Some? {
        fromDatabase := LeadingMajor(origin.value);
        return;
      }
      if |line| >= 2 && line[0] == 45 && line[1] == 45 {
        return;
      }
      var after := StripCreateTable(line);
      if after.Some? {
        events, error := ReadCreate(line, after.value);
      } else if StripPrefixCi(line, Ascii("COPY ")).Some? {
        events, error := ReadCopy(line);
      }
    }

    method Close() returns (events: seq<Event>)
      modifies this
      ensures Step(Abs(), events, None) == CloseCopy(old(Abs()))
      ensures pending == old(pending)
    {
      mode := Sql;
      events := if openTable.Some? then [CopyEnd(openTable.value)] else [];
      openTable := None;
    }

    /**
     * Reads one statement line, one run of rows, or one terminator off the input. `done`
     * when only a partial line is left.
     */
    method Advance(input: seq<byte>)
      returns (events: seq<Event>, error: Option<ScanError>, rest: seq<byte>, done: bool)
      requires WellFormed(Abs())
      modifies this
      ensures WellFormed(Abs()) && pending == old(pending)
      ensures Run(old(Abs()), Lines(input)) == Then(Outcome(Abs(), Flatten(events), error), Lines(rest))
      ensures Tail(rest) == Tail(input)
      ensures Grammar(old(openTable), events) == Some(openTable)
      ensures error.Some? ==> events == []
      ensures done ==> error.None? && NoNewline(rest)
      ensures !done ==> |rest| < |input|
    {
      match mode
      case Sql => events, error, rest, done := AdvanceSql(input);
      case Copy =>
        error := None;
        events, rest, done := AdvanceCopy(input);
    }

    method AdvanceSql(input: seq<byte>)
      returns (events: seq<Event>, error: Option<ScanError>, rest: seq<byte>, done: bool)
      requires WellFormed(Abs()) && mode.Sql?
      modifies this
      ensures WellFormed(Abs()) && pending == old(pending)
      ensures Run(old(Abs()), Lines(input)) == Then(Outcome(Abs(), Flatten(events), error), Lines(rest))
      ensures Tail(rest) == Tail(input)
      ensures Grammar(None, events) == Some(openTable)
      ensures error.Some? ==> events == []
      ensures done ==> error.None? && NoNewline(rest)
      ensures !done ==> |rest| < |input|
    {
      hide SqlLine, Then, Run;
      var nl := IndexOf(input, NL);
      if nl == |input| {
        ThenFromNothing(Abs(), Lines(input));
        return [], None, input, true;
      }
      ghost var st := Abs();
      var line := StripCr(input[..nl]);
      SqlLineGrammar(st, line);
      events, error := ReadSqlLine(line);
      OthersAreFlat(events);
      RunInput(st, input, nl);
      rest := input[nl + 1..];
      done := false;
    }

    method AdvanceCopy(input: seq<byte>) returns (events: seq<Event>, rest: seq<byte>, done: bool)
      requires WellFormed(Abs()) && mode.Copy?
      modifies this
      ensures WellFormed(Abs()) && pending == old(pending)
      ensures Run(old(Abs()), Lines(input)) == Then(Outcome(Abs(), Flatten(events), None), Lines(rest))
      ensures Tail(rest) == Tail(input)
      ensures Grammar(old(openTable), events) == Some(openTable)
      ensures done ==> NoNewline(rest)
      ensures !done ==> |rest| < |input|
    {
      hide Then, Run, LineOutcome, Flatten, Grammar, IsRowRun;
      ghost var st := Abs();
      var consumed, at := FindTerminator(input);
      var n := if at.Some? then at.value else consumed;
      RowsEvent(st, input, n);
      events := if n > 0 then [CopyRows(input[..n])] else [];
      if at.None? {
        return events, input[consumed..], true;
      }
      ghost var rows := events;
      CloseEvent(st, input, n, consumed, rows);
      var closing := Close();
      events := events + closing;
      return events, input[consumed..], false;
    }

    /** Completes the line carried over from the previous chunk. */
    method CompleteLine(raw: seq<byte>) returns (events: seq<Event>, error: Option<ScanError>)
      requires WellFormed(Abs()) && NoNewline(raw)
      modifies this
      ensures WellFormed(Abs()) && pending == old(pending)
      ensures Outcome(Abs(), Flatten(events), error) == LineOutcome(old(Abs()), raw, StripCr(StripCr(raw)))
      ensures Grammar(old(openTable), events) == Some(openTable)
      ensures error.Some? ==> events == []
    {
      hide SqlLine;
      ghost var st := Abs();
      var line := StripCr(raw);
      if mode.Sql? {
        SqlLineGrammar(st, line);
        events, error := ReadSqlLine(line);
        OthersAreFlat(events);
      } else if CopyText.IsEndOfData(line) {
        events := Close();
        error := None;
        OthersAreFlat(events);
        GrammarOne(st.openTable, events[0]);
      } else {
        OwnedRow(st, raw);
        events, error := [CopyRows(line + [NL])], None;
      }
    }

    /** The main loop of `feed`, once any carried-over line is complete. */
    method FeedLoop(chunk: seq<byte>, first: seq<Event>, ghost total: Outcome, ghost open: Option<TableName>)
      returns (events: seq<Event>, error: Option<ScanError>)
      requires WellFormed(Abs()) && pending == []
      requires Feeding(total, Abs(), first, chunk)
      requires Grammar(open, first) == Some(openTable)
      modifies this
      ensures WellFormed(Abs()) && total.state == Abs() && total.error == error
      ensures error.Some? ==> pending == []
      ensures error.None? ==> pending == Tail(chunk) && total.items == Flatten(events)
      ensures error.None? ==> Grammar(open, events) == Some(openTable)
    {
      hide Feeding, Run, Then, Grammar, Flatten;
      events := first;
      var input := chunk;
      while true
        invariant WellFormed(Abs()) && pending == []
        invariant Feeding(total, Abs(), events, input)
        invariant Tail(input) == Tail(chunk)
        invariant Grammar(open, events) == Some(openTable)
        decreases |input|
      {
        ghost var st := Abs();
        var more, err, rest, done := Advance(input);
        FeedingStep(total, st, events, input, Abs(), more, err, rest);
        if err.Some? {
          return events, err;
        }
        GrammarAppend(open, events, more);
        events := events + more;
        input := rest;
        if done {
          FeedingEnds(total, Abs(), events, input);
          pending := input;
          return events, None;
        }
      }
    }

    /**
     * Consumes one chunk. The events are those of reading the carried-over text and the
     * chunk line by line, up to how rows are grouped into payloads, and they continue the
     * block grammar; every payload is newline-terminated.
     */
    method Feed(chunk: seq<byte>) returns (r: Result<seq<Event>, ScanError>)
      requires WellFormed(Abs()) && NoNewline(pending)
      modifies this
      ensures WellFormed(Abs()) && NoNewline(pending)
      ensures IsFed(old(Abs()), old(pending), chunk, Abs(), pending, r)
    {
      hide Run, Then, Grammar, Flatten, LineOutcome, FeedOutcome;
      ghost var st, carried := Abs(), pending;
      ghost var total := FeedOutcome(st, carried, chunk);
      var input := chunk;
      var first: seq<Event> := [];
      if pending != [] {
        var nl := IndexOf(input, NL);
        if nl == |input| {
          FeedNoLine(st, carried, chunk);
          pending := pending + input;
          return Ok([]);
        }
        var raw := pending + input[..nl];
        pending := [];
        FeedFirstLine(st, carried, chunk, nl);
        var error;
        first, error := CompleteLine(raw);
        if error.Some? {
          FeedFails(Abs(), first, error, Lines(input[nl + 1..]));
          return Err(error.value);
        }
        input := input[nl + 1..];
      } else {
        FeedWhole(st, chunk);
      }
      var events, error := FeedLoop(input, first, total, st.openTable);
      return if error.Some? then Err(error.value) else Ok(events);
    }

    /** The dump must not end inside a block, and must have stated its version. */
    method Finish() returns (r: Result<(), ScanError>)
      requires WellFormed(Abs())
      ensures r.Ok? <==> mode.Sql? && dumpedBy.Some?
      ensures r.Err? && mode.Copy? ==> r.error == UnterminatedCopy(Qualified(openTable.value))
      ensures r.Err? && mode.Sql? ==> r.error == MissingDumpVersion
    {
      if mode.Copy? {
        return Err(UnterminatedCopy(if openTable.Some? then Qualified(openTable.value) else []));
      }
      if dumpedBy.None? {
        return Err(MissingDumpVersion);
      }
      return Ok(());
    }
  }

  /** What feeding `chunk` to a scanner in `st` carrying `carried` must do. */
  ghost predicate IsFed(st: State, carried: seq<byte>, chunk: seq<byte>,
                        now: State, left: seq<byte>, r: Result<seq<Event>, ScanError>) {
    var o := FeedOutcome(st, carried, chunk);
    && now == o.state
    && match r
       case Err(e) => o.error == Some(e) && left == []
       case Ok(events) =>
         && o.error == None
         && o.items == Flatten(events)
         && left == Tail(carried + chunk)
         && Grammar(st.openTable, events) == Some(now.openTable)
  }

  lemma FeedNoLine(st: State, carried: seq<byte>, chunk: seq<byte>)
    requires carried != [] && NoNewline(carried) && IndexOf(chunk, NL) == |chunk|
    ensures FeedOutcome(st, carried, chunk) == Outcome(st, Flatten([]), None)
    ensures Tail(carried + chunk) == carried + chunk && NoNewline(carried + chunk)
    ensures Grammar(st.openTable, []) == Some(st.openTable)
  {
    LinesNone(carried + chunk);
  }

  lemma FeedFirstLine(st: State, carried: seq<byte>, chunk: seq<byte>, nl: nat)
    requires carried != [] && NoNewline(carried) && nl == IndexOf(chunk, NL) < |chunk|
    ensures var raw := carried + chunk[..nl];
      && NoNewline(raw)
      && FeedOutcome(st, carried, chunk) ==
           Then(LineOutcome(st, raw, StripCr(StripCr(raw))), Lines(chunk[nl + 1..]))
      && Tail(carried + chunk) == Tail(chunk[nl + 1..])
  {
    hide Then, LineOutcome;
    var raw := carried + chunk[..nl];
    assert carried + chunk == raw + [NL] + chunk[nl + 1..];
    LinesCons(raw, chunk[nl + 1..]);
    assert ([raw] + Lines(chunk[nl + 1..]))[1..] == Lines(chunk[nl + 1..]);
  }

  lemma FeedFails(st: State, events: seq<Event>, error: Option<ScanError>, lines: seq<seq<byte>>)
    requires error.Some?
    ensures Then(Outcome(st, Flatten(events), error), lines) == Outcome(st, Flatten(events), error)
  {
  }

  lemma FeedWhole(st: State, chunk: seq<byte>)
    ensures Feeding(FeedOutcome(st, [], chunk), st, [], chunk)
    ensures [] + chunk == chunk
    ensures Grammar(st.openTable, []) == Some(st.openTable)
  {
    assert [] + chunk == chunk;
    ThenFromNothing(st, Lines(chunk));
  }

  /** A row completed from two chunks is handed over as an owned payload of its own. */
  lemma OwnedRow(st: State, raw: seq<byte>)
    requires WellFormed(st) && st.mode.Copy? && NoNewline(raw)
    requires !CopyText.IsEndOfData(StripCr(raw))
    ensures var events := [CopyRows(StripCr(raw) + [NL])];
      && Outcome(st, Flatten(events), None) == LineOutcome(st, raw, StripCr(StripCr(raw)))
      && Grammar(st.openTable, events) == Some(st.openTable)
  {
    var line := StripCr(raw);
    assert line + [NL] + [] == line + [NL];
    LinesCons(line, []);
    FlattenRows(line + [NL]);
    GrammarOne(st.openTable, CopyRows(line + [NL]));
    assert RowsOf(line + [NL]) == [StripCr(line)];
  }

  /** `total` is what has been recognised so far, then whatever `input` still says. */
  ghost predicate Feeding(total: Outcome, st: State, events: seq<Event>, input: seq<byte>) {
    total == Then(Outcome(st, Flatten(events), None), Lines(input))
  }

  lemma FeedingStep(total: Outcome, st: State, events: seq<Event>, input: seq<byte>,
                    now: State, more: seq<Event>, error: Option<ScanError>, rest: seq<byte>)
    requires Feeding(total, st, events, input)
    requires Run(st, Lines(input)) == Then(Outcome(now, Flatten(more), error), Lines(rest))
    ensures error.None? ==> Feeding(total, now, events + more, rest)
    ensures error.Some? ==> total.error == error && total.state == now
  {
    hide Run, Flatten, Lines;
    FlattenAppend(events, more);
    var r := Run(now, Lines(rest));
    assert Flatten(events) + (Flatten(more) + r.items) == Flatten(events) + Flatten(more) + r.items;
  }

  lemma FeedingEnds(total: Outcome, st: State, events: seq<Event>, input: seq<byte>)
    requires Feeding(total, st, events, input) && NoNewline(input)
    ensures total == Outcome(st, Flatten(events), None) && Tail(input) == input
  {
    LinesNone(input);
    ThenNone(Outcome(st, Flatten(events), None));
  }

  /** Handing a run of rows over as one payload. */
  lemma RowsEvent(st: State, input: seq<byte>, n: nat)
    requires WellFormed(st) && st.mode.Copy? && IsRowRun(input, n)
    ensures var events := if n > 0 then [CopyRows(input[..n])] else [];
      && Run(st, Lines(input)) == Then(Outcome(st, Flatten(events), None), Lines(input[n..]))
      && Tail(input) == Tail(input[n..])
      && Grammar(st.openTable, events) == Some(st.openTable)
  {
    hide Run, Then, LineOutcome;
    RunRowRun(st, input, n);
    if n > 0 {
      FlattenRows(input[..n]);
      GrammarOne(st.openTable, CopyRows(input[..n]));
    }
  }

  /** The terminator line after those rows. */
  lemma CloseEvent(st: State, input: seq<byte>, n: nat, consumed: nat, rows: seq<Event>)
    requires WellFormed(st) && st.mode.Copy?
    requires n < consumed <= |input| && consumed - 1 - n == IndexOf(input[n..], NL)
    requires CopyText.IsEndOfData(StripCr(input[n..consumed - 1]))
    requires Run(st, Lines(input)) == Then(Outcome(st, Flatten(rows), None), Lines(input[n..]))
    requires Grammar(st.openTable, rows) == Some(st.openTable)
    ensures var s := CloseCopy(st);
      && Run(st, Lines(input)) == Then(Outcome(s.state, Flatten(rows + s.events), None), Lines(input[consumed..]))
      && Tail(input[n..]) == Tail(input[consumed..])
      && Grammar(st.openTable, rows + s.events) == Some(s.state.openTable)
      && WellFormed(s.state)
  {
    hide Run, Then;
    var s := CloseCopy(st);
    var l, rest := input[n..consumed - 1], input[consumed..];
    var b := input[n..];
    assert b[..consumed - 1 - n] == l && b[consumed - n..] == rest;
    assert Lines(b) == [l] + Lines(rest) && Tail(b) == Tail(rest);
    var o := Outcome(st, Flatten(rows), None);
    ThenAppend(o, [l], Lines(rest));
    ThenOne(o, l);
    OthersAreFlat(s.events);
    FlattenAppend(rows, s.events);
    GrammarAppend(st.openTable, rows, s.events);
    GrammarOne(st.openTable, s.events[0]);
  }
}