/**
 * A whole load as a protocol: open and stage in phase one, then one burst of commits
 * (src/pipeline.rs, `drive`). Storage may fail at any step, before or after taking effect;
 * commits finish in any order. One `COPY` block per table, one writer per table.
 */
module Load {
  import opened Bytes
  import opened Delta
  import opened Sink

  type Name = seq<byte>

  type Store = map<Name, Log>

  /** A table opened in phase one: its log as the handle loaded it, and the dump's schema. */
  datatype Target = Target(name: Name, found: Log, incoming: Schema, drift: Drift)

  /** How one commit of the burst was reported. */
  datatype Report = Report(target: nat, outcome: Result<nat, SinkError>)

  datatype Verdict = Succeeded | Abandoned | CommitFailed(table: Name, committed: nat, total: nat)

  datatype Phase = Loading | Burst | Ended(verdict: Verdict)

  datatype Load = Load(
    mode: WriteMode,
    store: Store,
    phase: Phase,
    targets: seq<Target>,
    staged: map<Name, seq<File>>,
    // Paths that any file ever had, and what became of each target's commit.
    used: set<nat>,
    pending: set<nat>,
    landed: set<nat>,
    reports: seq<Report>)

  function LogOf(store: Store, name: Name): (log: Log) {
    if name in store then store[name] else []
  }

  function StagedFor(l: Load, name: Name): (files: seq<File>) {
    if name in l.staged then l.staged[name] else []
  }

  ghost function Names(targets: seq<Target>): (names: set<Name>) {
    set i | 0 <= i < |targets| :: targets[i].name
  }

  /** The version the burst writes for a target. */
  function TargetCommit(l: Load, t: Target): (actions: seq<Action>) {
    CommitActions(Head(t.found), Adds(StagedFor(l, t.name)), l.mode, Announced(t.drift, t.incoming))
  }

  datatype Step =
    | Open(name: Name, incoming: Schema, after: Log, result: Result<Drift, SinkError>)
    | CloseBlock(i: nat, files: seq<File>)
    | Abandon
    | BeginBurst
    | Commit(i: nat, after: Log, outcome: Result<nat, SinkError>)
    | Conclude

  ghost predicate Enabled(l: Load, step: Step) {
    match step
    case Open(name, incoming, after, result) =>
      l.phase.Loading? && name !in Names(l.targets) && Distinct(incoming)
      && IsOpening(LogOf(l.store, name), after, incoming, l.mode, result)
    case CloseBlock(i, files) =>
      l.phase.Loading? && i < |l.targets| && Separate(files) && forall f :: f in files ==> f.path !in l.used
    case Abandon => l.phase.Loading?
    case BeginBurst => l.phase.Loading?
    case Commit(i, after, outcome) =>
      && l.phase.Burst? && i in l.pending && i < |l.targets|
      && var t := l.targets[i];
         var before := LogOf(l.store, t.name);
         && |t.found| <= |before|
         && IsCommit(before, |t.found|, after, Adds(StagedFor(l, t.name)), l.mode, Announced(t.drift, t.incoming), outcome)
    case Conclude => l.phase.Burst? && l.pending == {}
  }

  // ---------------------------------------------------------------- counting the burst

  function Committed(reports: seq<Report>, n: nat): (c: nat)
    requires n <= |reports|
  {
    if n == 0 then 0 else Committed(reports, n - 1) + (if reports[n - 1].outcome.Ok? then 1 else 0)
  }

  function FirstFailure(reports: seq<Report>, n: nat): (f: Option<nat>)
    requires n <= |reports|
  {
    if n == 0 then None
    else if FirstFailure(reports, n - 1).Some? then FirstFailure(reports, n - 1)
    else if reports[n - 1].outcome.Err? then Some(reports[n - 1].target)
    else None
  }

  function Judge(targets: seq<Target>, reports: seq<Report>): (v: Verdict) {
    match FirstFailure(reports, |reports|)
    case None => Succeeded
    case Some(i) => CommitFailed(if i < |targets| then targets[i].name else [], Committed(reports, |reports|), |targets|)
  }

  /** The loop over the outcomes: what succeeded, and the first failure. */
  method Tally(targets: seq<Target>, reports: seq<Report>) returns (v: Verdict)
    requires forall k :: 0 <= k < |reports| ==> reports[k].target < |targets|
    ensures v == Judge(targets, reports)
  {
    var committed, failure := 0, None;
    for k := 0 to |reports|
      invariant committed == Committed(reports, k) && failure == FirstFailure(reports, k)
      invariant failure.Some? ==> failure.value < |targets|
    {
      match reports[k].outcome
      case Ok(_) => committed := committed + 1;
      case Err(_) =>
        if failure.None? {
          failure := Some(reports[k].target);
        }
    }
    return if failure.Some? then CommitFailed(targets[failure.value].name, committed, |targets|) else Succeeded;
  }

  ghost function Apply(l: Load, step: Step): (r: Load)
    requires Enabled(l, step)
  {
    match step
    case Open(name, incoming, after, result) =>
      var next := if after == LogOf(l.store, name) then l else l.(store := l.store[name := after]);
      if result.Ok? then next.(targets := l.targets + [Target(name, after, incoming, result.value)])
      else next.(phase := Ended(Abandoned))
    case CloseBlock(i, files) =>
      var name := l.targets[i].name;
      l.(staged := l.staged[name := StagedFor(l, name) + files], used := l.used + set f | f in files :: f.path)
    case Abandon => l.(phase := Ended(Abandoned))
    case BeginBurst => l.(phase := Burst, pending := Indices(|l.targets|))
    case Commit(i, after, outcome) =>
      var name := l.targets[i].name;
      l.(store := if after == LogOf(l.store, name) then l.store else l.store[name := after],
         landed := if after == LogOf(l.store, name) then l.landed else l.landed + {i},
         pending := l.pending - {i},
         reports := l.reports + [Report(i, outcome)])
    case Conclude => l.(phase := Ended(Judge(l.targets, l.reports)))
  }

  // ---------------------------------------------------------------- the invariant

  /** A store a load can start from: every path of it is used, none twice in one table. */
  ghost predicate Proper(store: Store, used: set<nat>) {
    forall name :: name in store ==>
      && store[name] != []
      && Separate(Head(store[name]).files)
      && forall f :: f in Head(store[name]).files ==> f.path in used
  }

  ghost predicate Init(l: Load, base: Store) {
    && Proper(base, l.used)
    && l == Load(l.mode, base, Loading, [], map[], l.used, {}, {}, [])
  }

  /** A table that is not (yet) part of the load is as before, or was just created. */
  ghost predicate Aside(base: Store, store: Store, name: Name) {
    if name in base then name in store && store[name] == base[name]
    else name in store ==> exists s: Schema :: store[name] == [[Metadata(s)]]
  }

  /** A target's table: what it was, or was created as, and then at most its own commit. */
  ghost predicate Tracks(l: Load, base: Store, i: nat)
    requires i < |l.targets|
  {
    var t := l.targets[i];
    && t.found == (if t.name in base then base[t.name] else [[Metadata(t.incoming)]])
    && Distinct(t.incoming)
    && t.drift == DriftOf(Head(t.found).schema, t.incoming)
    && (l.mode.Append? ==> IsEmpty(t.drift))
    && (l.mode.ErrorIfExists? ==> Head(t.found).files == [])
    && t.name in l.store
    && l.store[t.name] == (if i in l.landed then t.found + [TargetCommit(l, t)] else t.found)
  }

  /** Staged files sit under paths of their own. */
  ghost predicate Staged(l: Load, i: nat)
    requires i < |l.targets|
  {
    var t := l.targets[i];
    && Separate(Head(t.found).files + StagedFor(l, t.name))
    && (forall f :: f in Head(t.found).files ==> f.path in l.used)
    && (forall f :: f in StagedFor(l, t.name) ==> f.path in l.used)
  }

  ghost predicate Apart(targets: seq<Target>) {
    forall i, j :: 0 <= i < j < |targets| ==> targets[i].name != targets[j].name
  }

  ghost function Reported(reports: seq<Report>): (s: set<nat>) {
    set k | 0 <= k < |reports| :: reports[k].target
  }

  ghost function Succeeding(reports: seq<Report>): (s: set<nat>) {
    set k | 0 <= k < |reports| && reports[k].outcome.Ok? :: reports[k].target
  }

  /** No target is reported twice. */
  ghost predicate Once(reports: seq<Report>) {
    forall a, b :: 0 <= a < b < |reports| ==> reports[a].target != reports[b].target
  }

  /** The burst's books: each target is pending or was reported once; successes landed. */
  ghost predicate Burstwise(l: Load) {
    && l.pending !! Reported(l.reports)
    && Once(l.reports)
    && l.pending + Reported(l.reports) == Indices(|l.targets|)
    && Succeeding(l.reports) <= l.landed <= Reported(l.reports)
  }

  ghost predicate Before(l: Load) {
    l.pending == {} && l.landed == {} && l.reports == []
  }

  ghost predicate PhaseInv(l: Load) {
    match l.phase
    case Loading => Before(l)
    case Burst => Burstwise(l)
    case Ended(Abandoned) => Before(l)
    case Ended(v) => Burstwise(l) && l.pending == {} && v == Judge(l.targets, l.reports)
  }

  ghost predicate TargetsInv(l: Load, base: Store) {
    forall i :: 0 <= i < |l.targets| ==> Tracks(l, base, i) && Staged(l, i)
  }

  /** Tables that are no targets: nothing staged, and nothing written but a creation. */
  ghost predicate AsideInv(l: Load, base: Store) {
    && (forall name :: name !in Names(l.targets) ==> Aside(base, l.store, name))
    && (forall name :: name !in Names(l.targets) ==> name !in l.staged)
    && (l.phase.Loading? ==> forall name :: name !in Names(l.targets) && name !in base ==> name !in l.store)
  }

  ghost predicate Inv(l: Load, base: Store) {
    && Apart(l.targets)
    && Proper(base, l.used)
    && PhaseInv(l)
    && TargetsInv(l, base)
    && AsideInv(l, base)
  }

  lemma InitInv(l: Load, base: Store)
    requires Init(l, base)
    ensures Inv(l, base)
  {
  }
}
