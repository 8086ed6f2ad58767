/**
 * Feeding a dump to the scanner in pieces: what depends on where the pieces were cut, and
 * what does not.
 */
module ScanChunks {
  import opened Bytes
  import opened SqlText
  import opened Scan
  import CopyText
  import DdlRoundTrip
  import SqlPrint

  /** Feeding chunk after chunk. A failing feed delivers nothing. */
  function FeedAll(st: State, carried: seq<byte>, chunks: seq<seq<byte>>): (o: Outcome)
    decreases |chunks|
  {
    if chunks == [] then Outcome(st, [], None)
    else
      var o := FeedOutcome(st, carried, chunks[0]);
      if o.error.Some? then Outcome(o.state, [], o.error)
      else
        var rest := FeedAll(o.state, Tail(carried + chunks[0]), chunks[1..]);
        Outcome(rest.state, o.items + rest.items, rest.error)
  }

  /** Both fail with the same error, or both say the same and end up in the same state. */
  predicate Same(a: Outcome, b: Outcome) {
    a.error == b.error && (a.error.None? ==> a.state == b.state && a.items == b.items)
  }

  /** The line ends in two carriage returns, so stripping a second one changes it. */
  predicate DoubleCr(line: seq<byte>) {
    |line| >= 2 && line[|line| - 1] == CR && line[|line| - 2] == CR
  }

  /** A row that reads differently when it is stripped twice. */
  predicate FragileRow(st: State, line: seq<byte>) {
    st.mode.Copy? && !CopyText.IsEndOfData(StripCr(line)) && DoubleCr(line)
  }

  /** No row of the dump ends in two carriage returns. */
  predicate Clean(st: State, lines: seq<seq<byte>>)
    decreases |lines|
  {
    lines == [] ||
    (!FragileRow(st, lines[0]) &&
     var o := LineOutcome(st, lines[0], StripCr(lines[0]));
     (o.error.None? ==> Clean(o.state, lines[1..])))
  }

  lemma {:induction false} CleanAppend(st: State, a: seq<seq<byte>>, b: seq<seq<byte>>)
    requires Clean(st, a + b)
    ensures Clean(st, a)
    ensures Run(st, a).error.None? ==> Clean(Run(st, a).state, b)
    decreases |a|
  {
    if a == [] {
      assert a + b == b;
    } else {
      hide LineOutcome, FragileRow;
      assert (a + b)[1..] == a[1..] + b;
      var o := LineOutcome(st, a[0], StripCr(a[0]));
      if o.error.None? {
        CleanAppend(o.state, a[1..], b);
      }
    }
  }

  /** On a clean dump the second stripping of a completed line changes nothing. */
  lemma FeedClean(st: State, carried: seq<byte>, chunk: seq<byte>)
    requires Clean(st, Lines(carried + chunk))
    ensures FeedOutcome(st, carried, chunk) == Run(st, Lines(carried + chunk))
  {
    var lines := Lines(carried + chunk);
    if lines != [] {
      hide SqlLine, Then, Clean;
      assert !FragileRow(st, lines[0]) by {
        assert Clean(st, lines);
        CleanFirst(st, lines);
      }
      assert LineOutcome(st, lines[0], StripCr(StripCr(lines[0]))) == LineOutcome(st, lines[0], StripCr(lines[0]));
    }
  }

  lemma CleanFirst(st: State, lines: seq<seq<byte>>)
    requires Clean(st, lines) && lines != []
    ensures !FragileRow(st, lines[0])
  {
  }

  /** Same error and, if none, same content, for one more chunk in front. */
  lemma SameThen(o: Outcome, rest: Outcome, lines: seq<seq<byte>>)
    requires o.error.None? && Same(rest, Run(o.state, lines))
    ensures Same(Outcome(rest.state, o.items + rest.items, rest.error), Then(o, lines))
  {
  }

  /** A clean dump reads the same however it is cut. */
  lemma {:induction false} CleanFeedAll(st: State, carried: seq<byte>, chunks: seq<seq<byte>>)
    requires NoNewline(carried)
    requires Clean(st, Lines(carried + Concat(chunks)))
    ensures Same(FeedAll(st, carried, chunks), Run(st, Lines(carried + Concat(chunks))))
    decreases |chunks|
  {
    if chunks == [] {
      assert carried + Concat<byte>([]) == carried;
      LinesNone(carried);
    } else {
      var a, rest := carried + chunks[0], Concat(chunks[1..]);
      assert carried + Concat(chunks) == a + rest;
      LinesAppend(a, rest);
      CleanAppend(st, Lines(a), Lines(Tail(a) + rest));
      FeedClean(st, carried, chunks[0]);
      RunAppend(st, Lines(a), Lines(Tail(a) + rest));
      var o := Run(st, Lines(a));
      if o.error.None? {
        hide Run, Clean, FeedOutcome;
        CleanFeedAll(o.state, Tail(a), chunks[1..]);
        SameThen(o, FeedAll(o.state, Tail(a), chunks[1..]), Lines(Tail(a) + rest));
      }
    }
  }

  /** All but possibly the last chunk end in a newline. */
  ghost predicate AllButLastAligned(chunks: seq<seq<byte>>) {
    forall i :: 0 <= i < |chunks| - 1 ==> Aligned(chunks[i])
  }

  /**
   * Newline-aligned chunks, as the chunk reader produces them, read exactly like the dump
   * itself, whatever its rows end in.
   */
  lemma {:induction false} AlignedFeedAll(st: State, chunks: seq<seq<byte>>)
    requires AllButLastAligned(chunks)
    ensures Same(FeedAll(st, [], chunks), Run(st, Lines(Concat(chunks))))
    decreases |chunks|
  {
    if chunks != [] {
      var a, rest := chunks[0], Concat(chunks[1..]);
      assert [] + a == a;
      LinesAppend(a, rest);
      var o := Run(st, Lines(a));
      assert FeedOutcome(st, [], a) == o;
      RunAppend(st, Lines(a), Lines(Tail(a) + rest));
      if o.error.None? {
        hide Run, FeedOutcome, Lines, Tail;
        if |chunks| == 1 {
          assert chunks[1..] == [];
          assert Tail(a) + [] == Tail(a);
          LinesNone(Tail(a));
          assert FeedAll(o.state, Tail(a), []) == Outcome(o.state, [], None);
          assert Then(o, []) == o by { ThenNone(o); }
          assert o.items + [] == o.items;
        } else {
          AlignedTail(a);
          assert [] + rest == rest;
          AlignedFeedAll(o.state, chunks[1..]);
          SameThen(o, FeedAll(o.state, [], chunks[1..]), Lines(rest));
        }
      }
    } else {
      LinesNone([]);
    }
  }

  // ---------------------------------------------------------------- exactly when cutting matters

  /** The first fragile row of a dump that is not clean. */
  lemma {:induction false} FirstFragile(st: State, lines: seq<seq<byte>>) returns (i: nat)
    requires !Clean(st, lines)
    ensures i < |lines|
    ensures Run(st, lines[..i]).error.None? && FragileRow(Run(st, lines[..i]).state, lines[i])
    decreases |lines|
  {
    if FragileRow(st, lines[0]) {
      i := 0;
      assert lines[..0] == [];
    } else {
      hide LineOutcome, FragileRow;
      var o := LineOutcome(st, lines[0], StripCr(lines[0]));
      i := FirstFragile(o.state, lines[1..]);
      assert lines[..i + 1][1..] == lines[1..][..i];
      assert Run(st, lines[..i + 1]) == Then(o, lines[1..][..i]);
      i := i + 1;
    }
  }

  /** A text cut after the first byte of one of its lines. */
  lemma CutText(pre: seq<seq<byte>>, l: seq<byte>, post: seq<seq<byte>>, t: seq<byte>)
    requires NewlineFree(pre) && NewlineFree(post) && NoNewline(l) && NoNewline(t) && l != []
    ensures var a, b := Unlines(pre) + [l[0]], l[1..] + [NL] + (Unlines(post) + t);
      && a + b == Unlines(pre + ([l] + post)) + t
      && Lines(a) == pre && Tail(a) == [l[0]]
      && Lines([l[0]] + b) == [l] + post
  {
    hide Lines, Tail, Unlines;
    LinesNone(t);
    LinesNone([l[0]]);
    LinesOfUnlines(pre, [l[0]]);
    assert pre + [] == pre && post + [] == post;
    var b := l[1..] + [NL] + (Unlines(post) + t);
    assert [l[0]] + b == l + [NL] + (Unlines(post) + t);
    LinesOfUnlines(post, t);
    LinesCons(l, Unlines(post) + t);
    UnlinesAppend(pre, [l] + post);
    Rejoin(l, post, t);
    Regroup(Unlines(pre), [l[0]], b);
    Regroup(Unlines(pre), Unlines([l] + post), t);
  }

  /** What the two pieces of a cut row say, and what the uncut row says. */
  lemma CutReadings(st: State, pre: seq<seq<byte>>, l: seq<byte>, post: seq<seq<byte>>, a: seq<byte>, b: seq<byte>)
    requires l != [] && Lines(a) == pre && Tail(a) == [l[0]] && Lines([l[0]] + b) == [l] + post
    requires Run(st, pre).error.None?
    ensures var o := Run(st, pre);
      && FeedAll(st, [], [a, b]) ==
           (var second := Then(LineOutcome(o.state, l, StripCr(StripCr(l))), post);
            if second.error.Some? then Outcome(second.state, o.items + [], second.error)
            else Outcome(second.state, o.items + second.items, None))
      && Run(st, pre + ([l] + post)) == Then(o, [l] + post)
      && Run(o.state, [l] + post) == Then(LineOutcome(o.state, l, StripCr(l)), post)
  {
    var o := Run(st, pre);
    var second := Then(LineOutcome(o.state, l, StripCr(StripCr(l))), post);
    RunAppend(st, pre, [l] + post);
    RunCons(o.state, l, post);
    hide Run, Then, LineOutcome, Lines, Tail;
    assert [] + a == a;
    assert FeedOutcome(st, [], a) == o;
    assert ([l] + post)[1..] == post;
    assert FeedOutcome(o.state, [l[0]], b) == second;
    hide FeedOutcome;
    TwoFeeds(st, a, b, o, second);
  }

  lemma PartsNewlineFree(pre: seq<seq<byte>>, l: seq<byte>, post: seq<seq<byte>>)
    requires NewlineFree(pre + ([l] + post))
    ensures NewlineFree(pre) && NoNewline(l) && NewlineFree(post)
  {
    var all := pre + ([l] + post);
    forall k | 0 <= k < |pre|
      ensures NoNewline(pre[k])
    {
      assert pre[k] == all[k];
    }
    assert l == all[|pre|];
    forall k | 0 <= k < |post|
      ensures NoNewline(post[k])
    {
      assert post[k] == all[|pre| + 1 + k];
    }
  }

  lemma ConcatTwo(a: seq<byte>, b: seq<byte>)
    ensures Concat([a, b]) == a + b
  {
    ConcatSnoc([a], b);
    ConcatSnoc([], a);
    assert [a, b] == [a] + [b] && [] + [a] == [a] && [] + a == a;
  }

  /** Cutting a fragile row after its first byte changes how it reads. */
  lemma CutFragileRow(st: State, data: seq<byte>, pre: seq<seq<byte>>, l: seq<byte>, post: seq<seq<byte>>)
    returns (a: seq<byte>, b: seq<byte>)
    requires Lines(data) == pre + ([l] + post)
    requires Run(st, pre).error.None? && FragileRow(Run(st, pre).state, l)
    requires Run(st, Lines(data)).error.None?
    ensures a + b == data && !Same(FeedAll(st, [], [a, b]), Run(st, Lines(data)))
  {
    a, b := Unlines(pre) + [l[0]], l[1..] + [NL] + (Unlines(post) + Tail(data));
    hide *;
    SplitLossless(data);
    LinesNewlineFree(data);
    PartsNewlineFree(pre, l, post);
    CutText(pre, l, post, Tail(data));
    assert a + b == data;
    CutReadings(st, pre, l, post, a, b);
    DifferentRows(Run(st, pre), l, post);
    ThenItems(Run(st, pre), [l] + post);
    NotSame(FeedAll(st, [], [a, b]), Run(st, Lines(data)));
  }

  lemma NotSame(a: Outcome, b: Outcome)
    requires b.error.None? && (a.error.Some? || a.items != b.items)
    ensures !Same(a, b)
  {
  }

  lemma ThenItems(o: Outcome, lines: seq<seq<byte>>)
    requires o.error.None?
    ensures Then(o, lines).items == o.items + Run(o.state, lines).items
    ensures Then(o, lines).error == Run(o.state, lines).error
  {
  }

  lemma TwoFeeds(st: State, a: seq<byte>, b: seq<byte>, o: Outcome, second: Outcome)
    requires FeedOutcome(st, [], a) == o && o.error.None?
    requires FeedOutcome(o.state, Tail([] + a), b) == second
    ensures FeedAll(st, [], [a, b]) ==
      if second.error.Some? then Outcome(second.state, o.items + [], second.error)
      else Outcome(second.state, o.items + second.items, None)
  {
    hide FeedOutcome;
    assert [a, b][1..] == [b] && [b][1..] == [];
    var rest := FeedAll(o.state, Tail([] + a), [b]);
    if second.error.None? {
      assert FeedAll(second.state, Tail(Tail([] + a) + b), []) == Outcome(second.state, [], None);
      assert second.items + [] == second.items;
    }
  }

  /** Two readings of the same line put different rows at the same place. */
  lemma DifferentRows(o: Outcome, l: seq<byte>, rest: seq<seq<byte>>)
    requires FragileRow(o.state, l)
    ensures var once := Then(LineOutcome(o.state, l, StripCr(l)), rest);
      var twice := Then(LineOutcome(o.state, l, StripCr(StripCr(l))), rest);
      once.error.None? && twice.error.None? ==> o.items + once.items != o.items + twice.items
  {
    var once := Then(LineOutcome(o.state, l, StripCr(l)), rest);
    var twice := Then(LineOutcome(o.state, l, StripCr(StripCr(l))), rest);
    if once.error.None? && twice.error.None? {
      assert once.items[0] == Row(StripCr(l)) && twice.items[0] == Row(StripCr(StripCr(l)));
      assert (o.items + once.items)[|o.items|] != (o.items + twice.items)[|o.items|];
    }
  }

  /** How a row reads never steers the scanner: state and error are the dump's own. */
  lemma FeedSteers(st: State, carried: seq<byte>, chunk: seq<byte>)
    ensures var o, r := FeedOutcome(st, carried, chunk), Run(st, Lines(carried + chunk));
      o.state == r.state && o.error == r.error
  {
    var lines := Lines(carried + chunk);
    if lines != [] {
      hide SqlLine, Run;
      var a := LineOutcome(st, lines[0], StripCr(StripCr(lines[0])));
      var b := LineOutcome(st, lines[0], StripCr(lines[0]));
      assert a.state == b.state && a.error == b.error;
      RunCons(st, lines[0], lines[1..]);
      assert [lines[0]] + lines[1..] == lines;
    }
  }

  /** However a dump is cut, it fails with the same error or ends in the same state. */
  lemma {:induction false} FeedAllSteers(st: State, carried: seq<byte>, chunks: seq<seq<byte>>)
    requires NoNewline(carried)
    ensures var o, r := FeedAll(st, carried, chunks), Run(st, Lines(carried + Concat(chunks)));
      o.error == r.error && (o.error.None? ==> o.state == r.state)
    decreases |chunks|
  {
    if chunks == [] {
      assert carried + Concat<byte>([]) == carried;
      LinesNone(carried);
    } else {
      var a, rest := carried + chunks[0], Concat(chunks[1..]);
      assert carried + Concat(chunks) == a + rest;
      LinesAppend(a, rest);
      FeedSteers(st, carried, chunks[0]);
      RunAppend(st, Lines(a), Lines(Tail(a) + rest));
      var o := Run(st, Lines(a));
      if o.error.None? {
        hide Run, FeedOutcome;
        FeedAllSteers(o.state, Tail(a), chunks[1..]);
      }
    }
  }

  /** Every way of cutting `data` reads like `data` itself. */
  ghost predicate CutProof(st: State, data: seq<byte>) {
    forall chunks: seq<seq<byte>> :: Concat(chunks) == data ==> Same(FeedAll(st, [], chunks), Run(st, Lines(data)))
  }

  lemma CutProofIf(st: State, data: seq<byte>)
    requires Run(st, Lines(data)).error.Some? || Clean(st, Lines(data))
    ensures CutProof(st, data)
  {
    assert [] + data == data;
    hide Run, Clean, FeedAll, Lines;
    forall chunks: seq<seq<byte>> | Concat(chunks) == data
      ensures Same(FeedAll(st, [], chunks), Run(st, Lines(data)))
    {
      if Clean(st, Lines(data)) {
        CleanFeedAll(st, [], chunks);
      } else {
        FeedAllSteers(st, [], chunks);
      }
    }
  }

  lemma CutProofOnlyIf(st: State, data: seq<byte>)
    ensures CutProof(st, data) ==> Run(st, Lines(data)).error.Some? || Clean(st, Lines(data))
  {
    var lines := Lines(data);
    hide Run, Clean, FeedAll, Lines, Same, FragileRow;
    if Run(st, lines).error.None? && !Clean(st, lines) {
      var i := FirstFragile(st, lines);
      assert lines == lines[..i] + ([lines[i]] + lines[i + 1..]);
      var a, b := CutFragileRow(st, data, lines[..i], lines[i], lines[i + 1..]);
      ConcatTwo(a, b);
    }
  }

  /**
   * Chunking invariance, with its exact condition: every way of cutting a dump reads like
   * the dump itself if and only if the dump fails anyway or none of its rows ends in two
   * carriage returns.
   */
  lemma ChunkingInvariance(st: State, data: seq<byte>)
    ensures CutProof(st, data) <==> Run(st, Lines(data)).error.Some? || Clean(st, Lines(data))
  {
    hide *;
    if Run(st, Lines(data)).error.Some? || Clean(st, Lines(data)) {
      CutProofIf(st, data);
    } else {
      CutProofOnlyIf(st, data);
    }
  }

  /** A header without a column list. */
  function PlainHeader(name: SqlPrint.Name): (line: seq<byte>) {
    DdlRoundTrip.COPY + (SqlPrint.PrintName(name) + Ascii(" FROM stdin;"))
  }

  lemma PrefixFails(line: seq<byte>, prefix: seq<byte>, k: nat)
    requires k < |prefix| && (k >= |line| || Lower(line[k]) != Lower(prefix[k]))
    ensures StripPrefixCi(line, prefix) == None
  {
    if |line| >= |prefix| {
      assert line[..|prefix|][k] == line[k];
    }
  }

  /** A line that begins with `CO` is a header or nothing. */
  lemma CopyLine(st: State, line: seq<byte>)
    requires st.mode.Sql? && !st.inCreate && !st.skippingCreate && |line| >= 2 && line[0] == 67 && line[1] == 79
    requires StripPrefixCi(line, Ascii("COPY ")).Some?
    ensures SqlLine(st, line) == BeginCopy(st, line)
  {
    hide StripPrefixCi, BeginCopy, BeginCreate;
    PrefixFails(line, Ascii("-- Dumped by pg_dump version "), 0);
    PrefixFails(line, Ascii("-- Dumped from database version "), 0);
    PrefixFails(line, Ascii("CREATE TABLE "), 1);
    PrefixFails(line, Ascii("CREATE UNLOGGED TABLE "), 1);
  }

  lemma PlainHeaderParses(name: SqlPrint.Name)
    requires SqlPrint.IsName(name)
    ensures ParseCopyHeader(PlainHeader(name)) == Ok((DdlRoundTrip.Named(name), []))
  {
    var tail := Ascii(" FROM stdin;");
    assert tail[0] == SPACE && EndsBare(SPACE);
    hide SqlPrint.PrintName, ParseCopyHeader, SqlPrint.IsName;
    DdlRoundTrip.HeaderWithoutList(name, tail);
  }

  lemma PlainHeaderBegins(name: SqlPrint.Name)
    ensures StripPrefixCi(PlainHeader(name), Ascii("COPY ")).Some?
    ensures |PlainHeader(name)| >= 5 && PlainHeader(name)[0] == 67 && PlainHeader(name)[1] == 79
  {
    var rest := SqlPrint.PrintName(name) + Ascii(" FROM stdin;");
    hide SqlPrint.PrintName, StripPrefixCi;
    DdlRoundTrip.StripsCopy(rest);
  }

  /** Such a line, first in a dump, opens a block. */
  lemma HeaderOpens(excluded: set<seq<byte>>, name: SqlPrint.Name)
    requires SqlPrint.IsName(name)
    ensures var line := PlainHeader(name);
      StripCr(line) == line &&
      LineOutcome(Start(excluded), line, line) ==
        Outcome(Start(excluded).(mode := Copy, openTable := Some(DdlRoundTrip.Named(name))),
                [Other(CopyStart(DdlRoundTrip.Named(name), []))], None)
  {
    var line := PlainHeader(name);
    var front := DdlRoundTrip.COPY + SqlPrint.PrintName(name);
    assert line == front + Ascii(" FROM stdin;");
    assert line[|line| - 1] == Ascii(" FROM stdin;")[11] == 59;
    PlainHeaderParses(name);
    PlainHeaderBegins(name);
    FromStdin(line, front);
    CopyLine(Start(excluded), line);
    hide ParseCopyHeader, TrimEnd, EndsWithCi, SqlLine, PlainHeader, StripPrefixCi;
    assert Others([CopyStart(DdlRoundTrip.Named(name), [])]) == [Other(CopyStart(DdlRoundTrip.Named(name), []))];
  }

  lemma FromStdin(line: seq<byte>, front: seq<byte>)
    requires line == front + Ascii(" FROM stdin;")
    ensures EndsWithCi(line, Ascii("FROM stdin;")) && TrimEnd(line) == line
  {
    assert line[|line| - 11..] == Ascii("FROM stdin;");
  }

  lemma RowThenEnd(st: State)
    requires st.mode.Copy?
    ensures FragileRow(st, [97, CR, CR])
    ensures Run(st, [[97, CR, CR], CopyText.END_OF_DATA]).error.None?
  {
    var row := [97, CR, CR];
    assert StripCr(row) == [97, CR];
    RunCons(st, row, [CopyText.END_OF_DATA]);
    RunOne(st, CopyText.END_OF_DATA);
    hide Run;
    assert [row] + [CopyText.END_OF_DATA] == [row, CopyText.END_OF_DATA];
  }

  /** After a line that opens a block, that row makes a dump unclean. */
  lemma UncleanAfter(st: State, header: seq<byte>, next: State, rest: seq<seq<byte>>)
    requires LineOutcome(st, header, StripCr(header)).error.None? && LineOutcome(st, header, StripCr(header)).state == next
    requires rest != [] && FragileRow(next, rest[0]) && Run(next, rest).error.None?
    ensures !Clean(st, [header] + rest) && Run(st, [header] + rest).error.None?
  {
    RunCons(st, header, rest);
    hide Run, LineOutcome, FragileRow;
    assert ([header] + rest)[1..] == rest;
    if Clean(next, rest) {
      CleanFirst(next, rest);
    }
  }

  /** A whole dump for which cutting matters: one row that ends in two carriage returns. */
  lemma CuttingMatters(excluded: set<seq<byte>>, name: SqlPrint.Name)
    requires SqlPrint.IsName(name) && NoNewline(PlainHeader(name))
    ensures !CutProof(Start(excluded), Unlines([PlainHeader(name), [97, CR, CR], CopyText.END_OF_DATA]))
  {
    var header, row := PlainHeader(name), [97, CR, CR];
    var rest := [row, CopyText.END_OF_DATA];
    var lines := [header] + rest;
    assert lines == [header, row, CopyText.END_OF_DATA];
    assert NewlineFree(lines) && Unlines(lines) + [] == Unlines(lines) && lines + [] == lines;
    HeaderOpens(excluded, name);
    hide PlainHeader, Run, FeedAll, LineOutcome, FragileRow, Clean, Lines, Unlines, CutProof, SqlPrint.IsName;
    LinesOfUnlines(lines, []);
    LinesNone([]);
    var next := LineOutcome(Start(excluded), header, header).state;
    RowThenEnd(next);
    UncleanAfter(Start(excluded), header, next, rest);
    ChunkingInvariance(Start(excluded), Unlines(lines));
  }

  // ---------------------------------------------------------------- the scanning loop

  /**
   * The reader thread's loop over its chunks, then `finish`. On success the events are
   * well-bracketed blocks with every block closed, every payload newline-terminated, and
   * their rows are those of the chunks read line by line.
   */
  method ScanAll(excluded: set<seq<byte>>, chunks: seq<seq<byte>>) returns (r: Result<seq<Event>, ScanError>)
    ensures match r
      case Ok(events) =>
        && Grammar(None, events) == Some(None)
        && Flatten(events) == FeedAll(Start(excluded), [], chunks).items
        && FeedAll(Start(excluded), [], chunks).error.None?
      case Err(e) =>
        var o := FeedAll(Start(excluded), [], chunks);
        if o.error.Some? then o.error == Some(e)
        else if o.state.openTable.Some? then e == UnterminatedCopy(Qualified(o.state.openTable.value))
        else o.state.dumpedBy.None? && e == MissingDumpVersion
  {
    hide FeedAll, Flatten, Grammar, FeedOutcome;
    var scanner := new Scanner(excluded);
    var events: seq<Event> := [];
    ghost var total := FeedAll(Start(excluded), [], chunks);
    ScanningStarts(excluded, chunks);
    for k := 0 to |chunks|
      invariant fresh(scanner) && WellFormed(scanner.Abs()) && NoNewline(scanner.pending)
      invariant Scanning(total, scanner.Abs(), scanner.pending, events, chunks[k..])
    {
      ghost var st, carried := scanner.Abs(), scanner.pending;
      var fed := scanner.Feed(chunks[k]);
      assert chunks[k..][0] == chunks[k] && chunks[k..][1..] == chunks[k + 1..];
      ScanningStep(total, st, carried, events, chunks[k..], scanner.Abs(), scanner.pending, fed);
      if fed.Err? {
        return Err(fed.error);
      }
      events := events + fed.value;
    }
    assert chunks[|chunks|..] == [];
    ScanningEnds(total, scanner.Abs(), scanner.pending, events);
    var finished := scanner.Finish();
    return if finished.Err? then Err(finished.error) else Ok(events);
  }

  /** `total` is what `events` say, then what feeding the remaining chunks says. */
  ghost predicate Scanning(total: Outcome, st: State, carried: seq<byte>, events: seq<Event>, left: seq<seq<byte>>) {
    var rest := FeedAll(st, carried, left);
    && total.error == rest.error
    && (rest.error.None? ==> total.state == rest.state && total.items == Flatten(events) + rest.items)
    && Grammar(None, events) == Some(st.openTable)
  }

  lemma ScanningStarts(excluded: set<seq<byte>>, chunks: seq<seq<byte>>)
    ensures Scanning(FeedAll(Start(excluded), [], chunks), Start(excluded), [], [], chunks[0..])
  {
    assert chunks[0..] == chunks;
    var o := FeedAll(Start(excluded), [], chunks);
    assert [] + o.items == o.items;
  }

  lemma ScanningStep(total: Outcome, st: State, carried: seq<byte>, events: seq<Event>, left: seq<seq<byte>>,
                     now: State, after: seq<byte>, fed: Result<seq<Event>, ScanError>)
    requires Scanning(total, st, carried, events, left) && left != []
    requires IsFed(st, carried, left[0], now, after, fed)
    ensures fed.Err? ==> total.error == Some(fed.error)
    ensures fed.Ok? ==> Scanning(total, now, after, events + fed.value, left[1..])
  {
    hide FeedOutcome, Grammar, Flatten;
    if fed.Ok? {
      FlattenAppend(events, fed.value);
      GrammarAppend(None, events, fed.value);
      var rest := FeedAll(now, after, left[1..]);
      Regroup(Flatten(events), Flatten(fed.value), rest.items);
    }
  }

  lemma ScanningEnds(total: Outcome, st: State, carried: seq<byte>, events: seq<Event>)
    requires Scanning(total, st, carried, events, [])
    ensures total == Outcome(st, Flatten(events), None) && Grammar(None, events) == Some(st.openTable)
  {
    assert Flatten(events) + [] == Flatten(events);
  }
}
