/**
 * From the byte stream to the loaded blocks: chunked reads, the streaming scanner and the
 * worker pool together compute what reading the dump one line at a time says.
 */
module EndToEnd {
  import opened Bytes
  import opened SqlText
  import opened Scan
  import CopyText
  import Dump
  import Pool
  import PoolRuns
  import Ledger
  import Load
  import LoadSafety
  import Session
  import SessionRuns

  datatype Failure = Reading(io: Dump.ReadError) | Scanning(error: ScanError)

  /** The dump read by its complete lines, one after another. */
  function Simple(excluded: set<seq<byte>>, data: seq<byte>): (o: Outcome) {
    Run(Start(excluded), Lines(data))
  }

  /** Why a dump whose lines all read well is still refused at its end. */
  function Refusal(st: State): (r: Option<ScanError>) {
    if st.openTable.Some? then Some(UnterminatedCopy(Qualified(st.openTable.value)))
    else if st.dumpedBy.None? then Some(MissingDumpVersion)
    else None
  }

  /**
   * What reading a dump in chunks may come to. The events handed on are those of some first
   * part of it read line by line, well bracketed, every payload newline-terminated. Without a
   * failure that is the whole dump, and it is complete; a failure is the reading's own error,
   * the refusal of an incomplete dump, or one of the stream, with `RowTooLarge` only for a run
   * of `ceiling` bytes without a newline.
   */
  ghost predicate IsReading(data: seq<byte>, excluded: set<seq<byte>>, ceiling: nat, events: seq<Event>, failure: Option<Failure>) {
    var o := Simple(excluded, data);
    && Grammar(None, events).Some?
    && (exists at: nat :: HandedOn(data, excluded, at, events))
    && match failure
       case None =>
         && o.error.None? && Refusal(o.state).None?
         && Grammar(None, events) == Some(None)
         && Flatten(events) == o.items
         && !Dump.HasLongRun(data, ceiling)
       case Some(Scanning(e)) =>
         o.error == Some(e) || (o.error.None? && Refusal(o.state) == Some(e) && !Dump.HasLongRun(data, ceiling))
       case Some(Reading(RowTooLarge(len, limit))) => len == limit == ceiling && Dump.HasLongRun(data, ceiling)
       case Some(Reading(Io)) => true
  }

  ghost predicate HandedOn(data: seq<byte>, excluded: set<seq<byte>>, at: nat, events: seq<Event>) {
    && at <= |data|
    && Simple(excluded, data[..at]).error.None? && Simple(excluded, data[..at]).items == Flatten(events)
  }

  /** The scanner after the first `at` bytes. */
  ghost predicate ReadUpTo(data: seq<byte>, at: int, excluded: set<seq<byte>>, st: State, pending: seq<byte>, events: seq<Event>) {
    && 0 <= at <= |data|
    && Simple(excluded, data[..at]) == Outcome(st, Flatten(events), None)
    && Grammar(None, events) == Some(st.openTable)
    && (at < |data| ==> pending == [] && Tail(data[..at]) == [])
  }

  lemma StartUpTo(data: seq<byte>, excluded: set<seq<byte>>)
    ensures ReadUpTo(data, 0, excluded, Start(excluded), [], [])
  {
    assert data[..0] == [];
    LinesNone([]);
  }

  /** Reading on from a newline. */
  lemma SimpleAppend(excluded: set<seq<byte>>, a: seq<byte>, b: seq<byte>)
    requires Tail(a) == []
    ensures Simple(excluded, a + b) == Then(Simple(excluded, a), Lines(b))
    ensures Tail(a + b) == Tail(b)
  {
    LinesAppend(a, b);
    assert [] + b == b;
    RunAppend(Start(excluded), Lines(a), Lines(b));
  }

  /** An error in a complete line of a prefix is the error of the whole. */
  lemma ErrorStays(excluded: set<seq<byte>>, a: seq<byte>, b: seq<byte>)
    requires Simple(excluded, a).error.Some?
    ensures Simple(excluded, a + b).error == Simple(excluded, a).error
  {
    LinesAppend(a, b);
    RunAppend(Start(excluded), Lines(a), Lines(Tail(a) + b));
  }

  lemma ChunkFed(data: seq<byte>, from: int, to: int, excluded: set<seq<byte>>, st: State, pending: seq<byte>, events: seq<Event>,
                 now: State, left: seq<byte>, fed: Result<seq<Event>, ScanError>)
    requires ReadUpTo(data, from, excluded, st, pending, events)
    requires from < to <= |data| && (data[to - 1] == NL || to == |data|)
    requires IsFed(st, pending, data[from..to], now, left, fed)
    ensures fed.Err? ==> Simple(excluded, data).error == Some(fed.error)
    ensures fed.Ok? ==> ReadUpTo(data, to, excluded, now, left, events + fed.value)
  {
    hide Run, Grammar, Flatten, Lines, Tail, Simple;
    var chunk := data[from..to];
    assert data[..from] + chunk == data[..to] && data[..to] + data[to..] == data;
    assert [] + chunk == chunk;
    SimpleAppend(excluded, data[..from], chunk);
    if fed.Ok? {
      FlattenAppend(events, fed.value);
      GrammarAppend(None, events, fed.value);
      if to < |data| {
        assert Aligned(chunk);
        AlignedTail(chunk);
      }
    } else {
      ErrorStays(excluded, data[..to], data[to..]);
    }
  }

  /** A chunk handed over: from a newline to a newline or the end, stepping over no long run. */
  lemma ChunkRead(data: seq<byte>, from: int, to: int, chunk: seq<byte>, ceiling: nat)
    requires Dump.IsResult(data, from, to, Ok(Some(chunk)), ceiling) && ceiling > 0
    requires 0 <= from && Dump.NoLongRunBefore(data, from, ceiling)
    ensures from < to <= |data| && chunk == data[from..to] && (data[to - 1] == NL || to == |data|)
    ensures Dump.NoLongRunBefore(data, to, ceiling)
  {
    Dump.ChunkStepsOverNoRun(data, from, to, ceiling);
  }

  lemma ReadFailed(data: seq<byte>, excluded: set<seq<byte>>, from: int, to: int, io: Dump.ReadError, ceiling: nat,
                   st: State, pending: seq<byte>, events: seq<Event>)
    requires Dump.IsResult(data, from, to, Err(io), ceiling) && ReadUpTo(data, from, excluded, st, pending, events)
    ensures IsReading(data, excluded, ceiling, events, Some(Reading(io)))
  {
    hide Simple;
    assert HandedOn(data, excluded, from, events);
  }

  lemma ScanFailed(data: seq<byte>, excluded: set<seq<byte>>, ceiling: nat, e: ScanError, from: int,
                   st: State, pending: seq<byte>, events: seq<Event>)
    requires Simple(excluded, data).error == Some(e) && ReadUpTo(data, from, excluded, st, pending, events)
    ensures IsReading(data, excluded, ceiling, events, Some(Scanning(e)))
  {
    hide Simple;
    assert HandedOn(data, excluded, from, events);
  }

  lemma StreamEnded(data: seq<byte>, excluded: set<seq<byte>>, ceiling: nat, to: int, st: State, pending: seq<byte>, events: seq<Event>)
    requires Dump.IsResult(data, to, to, Ok(None), ceiling) && ceiling > 0
    requires ReadUpTo(data, to, excluded, st, pending, events) && Dump.NoLongRunBefore(data, to, ceiling)
    ensures IsReading(data, excluded, ceiling, events,
                      if Refusal(st).Some? then Some(Scanning(Refusal(st).value)) else None)
  {
    hide Simple;
    Dump.RunsEndWithStream(data, ceiling);
    assert data[..|data|] == data;
    assert HandedOn(data, excluded, to, events);
  }

  lemma StreamOver(data: seq<byte>, from: int, to: int, ceiling: nat)
    requires Dump.IsResult(data, from, to, Ok(None), ceiling)
    ensures from == to && Dump.IsResult(data, to, to, Ok(None), ceiling)
  {
  }

  lemma NoRunYet(data: seq<byte>, ceiling: nat)
    ensures Dump.NoLongRunBefore(data, 0, ceiling)
  {
  }

  /**
   * The reader thread: chunks off the stream straight into the scanner, then `finish`. For
   * every pattern of short reads and every chunk target it reads what `Simple` reads.
   */
  method ReadDump(data: seq<byte>, target: nat, maxChunk: nat, excluded: set<seq<byte>>)
    returns (events: seq<Event>, failure: Option<Failure>)
    ensures IsReading(data, excluded, Dump.Ceiling(target, maxChunk), events, failure)
  {
    hide Simple, IsFed, IsReading, ReadUpTo, Qualified;
    hide Dump.NoLongRunBefore, Dump.IsResult, Dump.Ceiling, Dump.ChunkReader.Valid, Dump.ChunkReader.Handed, Dump.ByteStream.Valid;
    var stream := new Dump.ByteStream(data);
    var reader := new Dump.ChunkReader(stream, target, maxChunk);
    var scanner := new Scanner(excluded);
    ghost var ceiling := Dump.Ceiling(target, maxChunk);
    events := [];
    StartUpTo(data, excluded);
    NoRunYet(data, ceiling);
    while true
      invariant reader.Valid() && reader.inner.data == data && reader.maxChunk == ceiling
      invariant fresh(reader) && fresh(reader.inner) && fresh(scanner) && 0 <= reader.Handed()
      invariant WellFormed(scanner.Abs()) && NoNewline(scanner.pending)
      invariant ReadUpTo(data, reader.Handed(), excluded, scanner.Abs(), scanner.pending, events)
      invariant Dump.NoLongRunBefore(data, reader.Handed(), ceiling)
      decreases |data| - reader.Handed()
    {
      ghost var from := reader.Handed();
      ghost var st, pending := scanner.Abs(), scanner.pending;
      var next := reader.NextChunk();
      if next.Err? {
        ReadFailed(data, excluded, from, reader.Handed(), next.error, ceiling, st, pending, events);
        return events, Some(Reading(next.error));
      }
      if next.value.None? {
        StreamOver(data, from, reader.Handed(), ceiling);
        break;
      }
      ChunkRead(data, from, reader.Handed(), next.value.value, ceiling);
      var fed := scanner.Feed(next.value.value);
      ChunkFed(data, from, reader.Handed(), excluded, st, pending, events, scanner.Abs(), scanner.pending, fed);
      if fed.Err? {
        ScanFailed(data, excluded, ceiling, fed.error, from, st, pending, events);
        return events, Some(Scanning(fed.error));
      }
      events := events + fed.value;
    }
    StreamEnded(data, excluded, ceiling, reader.Handed(), scanner.Abs(), scanner.pending, events);
    var finished := scanner.Finish();
    return events, if finished.Err? then Some(Scanning(finished.error)) else None;
  }

  // ---------------------------------------------------------------- to the blocks

  /** What a dump should load, read off it one line at a time. */
  function BlocksOf(cfg: Pool.Config, data: seq<byte>): (specs: seq<Ledger.BlockSpec>) {
    Ledger.Entered(cfg, Simple(cfg.excludedSchemas, data).items).closed
  }

  /**
   * End to end: for every stream, short-read pattern, chunk target, batch bound, worker count
   * and scheduling, a pass that succeeds gives every wanted `COPY` block, pooled over the
   * workers, exactly the multiset of rows that reading the dump line by line puts between its
   * header and its `\.`, each decoded, and counts them.
   */
  lemma EndToEnd(data: seq<byte>, ceiling: nat, cfg: Pool.Config, events: seq<Event>, failure: Option<Failure>,
                 run: seq<Pool.Pool>, steps: seq<Pool.Step>, threads: nat, i: nat)
    requires IsReading(data, cfg.excludedSchemas, ceiling, events, failure)
    requires PoolRuns.IsRun(run, steps, cfg, events, failure.None?, threads) && i < |run|
    requires run[i].phase == Pool.Returned(None)
    ensures Ledger.AllLoaded(run[i].results, BlocksOf(cfg, data), cfg.limits)
  {
    hide Simple, PoolRuns.IsRun, Ledger.AllLoaded, Ledger.Entered, Dump.HasLongRun;
    PoolRuns.SuccessLoadsEverything(run, steps, cfg, events, failure.None?, threads, i);
  }

  // ---------------------------------------------------------------- to the tables

  /** A dump that is read to its end, line by line without an error, and accepted there. */
  predicate Complete(excluded: set<seq<byte>>, data: seq<byte>) {
    Simple(excluded, data).error.None? && Refusal(Simple(excluded, data).state).None?
  }

  /**
   * Nothing early: if at any point of any session, over any stream, some table shows something
   * new, then the whole dump was read without a failure, is complete, and the reader and its
   * pool had succeeded.
   */
  lemma NothingEarly(data: seq<byte>, ceiling: nat, cfg: Pool.Config, events: seq<Event>, failure: Option<Failure>,
                     run: seq<Session.Session>, steps: seq<Session.Step>, threads: nat, base: Load.Store, i: nat, name: Load.Name)
    requires IsReading(data, cfg.excludedSchemas, ceiling, events, failure)
    requires Session.IsRun(run, steps, cfg, events, failure.None?, threads, base) && i < |run|
    requires LoadSafety.Visible(run[i].load.store, name) != LoadSafety.Visible(base, name)
    ensures failure.None? && Complete(cfg.excludedSchemas, data)
    ensures run[i].pool.phase == Pool.Returned(None) && run[i].pool.done == events
    ensures Ledger.AllLoaded(run[i].pool.results, BlocksOf(cfg, data), cfg.limits)
  {
    hide Simple, Session.IsRun, Dump.HasLongRun, LoadSafety.Visible, Ledger.AllLoaded, Ledger.Entered, Refusal;
    SessionRuns.BurstOnlyWhenRead(run, steps, cfg, events, failure.None?, threads, base, i);
    if run[i].pool.phase != Pool.Returned(None) {
      SessionRuns.NothingVisibleEarly(run, steps, cfg, events, failure.None?, threads, base, i, name);
    }
    SessionRuns.LoadedWhenRead(run, steps, cfg, events, failure.None?, threads, base, i);
  }

  /** The block's table shows what the load's mode keeps of it, and then the block's rows. */
  ghost predicate ShowsBlock(l: Load.Load, base: Load.Store, spec: Ledger.BlockSpec, limits: CopyText.Limits) {
    SessionRuns.TableShows(l.store, SessionRuns.Kept(l.mode, base, Qualified(spec.table)), spec, limits)
  }

  /**
   * And everything at the end: once a load has succeeded, the table of every wanted block
   * shows exactly the rows that reading the dump line by line puts in it, after what it
   * showed before if the load does not overwrite; every other table shows what it showed.
   */
  lemma TablesShowTheDump(data: seq<byte>, ceiling: nat, cfg: Pool.Config, events: seq<Event>, failure: Option<Failure>,
                          run: seq<Session.Session>, steps: seq<Session.Step>, threads: nat, base: Load.Store, i: nat)
    requires IsReading(data, cfg.excludedSchemas, ceiling, events, failure)
    requires Session.IsRun(run, steps, cfg, events, failure.None?, threads, base) && i < |run|
    requires run[i].load.phase == Load.Ended(Load.Succeeded)
    ensures forall k :: 0 <= k < |BlocksOf(cfg, data)| ==> ShowsBlock(run[i].load, base, BlocksOf(cfg, data)[k], cfg.limits)
    ensures forall name ::
      (forall k :: 0 <= k < |BlocksOf(cfg, data)| ==> Qualified(BlocksOf(cfg, data)[k].table) != name) ==>
        LoadSafety.Visible(run[i].load.store, name) == LoadSafety.Visible(base, name)
  {
    hide Simple, Session.IsRun, Dump.HasLongRun, SessionRuns.TableShows, SessionRuns.Kept, LoadSafety.Visible, Ledger.Entered, Refusal, Qualified;
    SessionRuns.BurstOnlyWhenRead(run, steps, cfg, events, failure.None?, threads, base, i);
    var specs := BlocksOf(cfg, data);
    forall k | 0 <= k < |specs|
      ensures ShowsBlock(run[i].load, base, specs[k], cfg.limits)
    {
      SessionRuns.TablesShowBlocks(run, steps, cfg, events, failure.None?, threads, base, i, k);
    }
    forall name | forall k :: 0 <= k < |specs| ==> Qualified(specs[k].table) != name
      ensures LoadSafety.Visible(run[i].load.store, name) == LoadSafety.Visible(base, name)
    {
      SessionRuns.OtherTablesKept(run, steps, cfg, events, failure.None?, threads, base, i, name);
    }
  }

  /**
   * A block whose header has no column list, but which has a row, fails the load: every row
   * is checked against no columns, not against the declared ones.
   */
  lemma WithoutListNothing(data: seq<byte>, ceiling: nat, cfg: Pool.Config, events: seq<Event>, failure: Option<Failure>,
                           run: seq<Session.Session>, steps: seq<Session.Step>, threads: nat, base: Load.Store, i: nat, k: nat)
    requires IsReading(data, cfg.excludedSchemas, ceiling, events, failure)
    requires Session.IsRun(run, steps, cfg, events, failure.None?, threads, base) && i < |run|
    requires k < |BlocksOf(cfg, data)| && BlocksOf(cfg, data)[k].arity == 0 && BlocksOf(cfg, data)[k].rows != []
    ensures run[i].pool.phase != Pool.Returned(None) && run[i].load.phase != Load.Ended(Load.Succeeded)
    ensures forall name :: LoadSafety.Visible(run[i].load.store, name) == LoadSafety.Visible(base, name)
  {
    hide Simple, Session.IsRun, Dump.HasLongRun, LoadSafety.Visible, Ledger.Entered, Ledger.Loaded, Refusal;
    SessionRuns.BurstOnlyWhenRead(run, steps, cfg, events, failure.None?, threads, base, i);
    SessionRuns.LoadedWhenRead(run, steps, cfg, events, failure.None?, threads, base, i);
    var specs := BlocksOf(cfg, data);
    if run[i].pool.phase == Pool.Returned(None) {
      assert Ledger.Loaded(run[i].pool.results[k], specs[k], cfg.limits);
      Ledger.NeedsColumns(run[i].pool.results[k], specs[k], cfg.limits);
    } else {
      forall name
        ensures LoadSafety.Visible(run[i].load.store, name) == LoadSafety.Visible(base, name)
      {
        SessionRuns.NothingVisibleEarly(run, steps, cfg, events, failure.None?, threads, base, i, name);
      }
    }
  }
}
