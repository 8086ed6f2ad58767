/** Sequences of loads, each over what the one before left behind, whatever became of it. */
module LoadChain {
  import opened Delta
  import opened Sink
  import opened Load
  import opened LoadSafety

  /** One load of the sequence; it may have been cut off anywhere. */
  datatype Leg = Leg(run: seq<Load>, steps: seq<Step>)

  ghost predicate Started(legs: seq<Leg>) {
    forall i :: 0 <= i < |legs| ==> legs[i].run != []
  }

  function Last(leg: Leg): (l: Load)
    requires leg.run != []
  {
    leg.run[|leg.run| - 1]
  }

  /** What is in storage before leg `i`. */
  function StoreBefore(legs: seq<Leg>, base: Store, i: nat): (s: Store)
    requires i <= |legs| && Started(legs)
  {
    if i == 0 then base else Last(legs[i - 1]).store
  }

  ghost predicate IsChain(legs: seq<Leg>, base: Store) {
    && Started(legs)
    && forall i :: 0 <= i < |legs| ==> IsRun(legs[i].run, legs[i].steps, StoreBefore(legs, base, i))
  }

  lemma LegInv(legs: seq<Leg>, base: Store, i: nat)
    requires IsChain(legs, base) && i < |legs|
    ensures Inv(Last(legs[i]), StoreBefore(legs, base, i))
  {
    hide IsRun, Inv;
    RunInv(legs[i].run, legs[i].steps, StoreBefore(legs, base, i), |legs[i].run| - 1);
  }

  // ---------------------------------------------------------------- every store can be loaded into

  lemma SeparateParts(a: seq<File>, b: seq<File>)
    requires Separate(a + b)
    ensures Separate(a) && Separate(b)
  {
    forall i, j | 0 <= i < j < |a|
      ensures a[i].path != a[j].path
    {
      assert (a + b)[i] == a[i] && (a + b)[j] == a[j];
    }
    forall i, j | 0 <= i < j < |b|
      ensures b[i].path != b[j].path
    {
      assert (a + b)[|a| + i] == b[i] && (a + b)[|a| + j] == b[j];
    }
  }

  /** A log with versions, whose visible files sit under paths of their own. */
  ghost predicate ProperLog(log: Log, used: set<nat>) {
    log != [] && Separate(Head(log).files) && forall f :: f in Head(log).files ==> f.path in used
  }

  lemma TargetProper(l: Load, base: Store, k: nat)
    requires Inv(l, base) && k < |l.targets|
    ensures ProperLog(LogOf(l.store, l.targets[k].name), l.used)
  {
    var t := l.targets[k];
    assert Tracks(l, base, k) && Staged(l, k);
    SeparateParts(Head(t.found).files, StagedFor(l, t.name));
    hide Head, DriftOf, PhaseInv, Separate, Apart, AsideInv;
    if k in l.landed {
      LandedShows(l, base, k);
      Created(t.incoming);
      assert [] + StagedFor(l, t.name) == StagedFor(l, t.name);
      FoundVisible(l, base, k);
    }
  }

  lemma FoundVisible(l: Load, base: Store, k: nat)
    requires Inv(l, base) && k < |l.targets|
    ensures Visible(base, l.targets[k].name) == Head(l.targets[k].found).files
  {
    assert Tracks(l, base, k);
    Created(l.targets[k].incoming);
  }

  lemma AsideProper(l: Load, base: Store, name: Name)
    requires Inv(l, base) && name !in Names(l.targets) && name in l.store
    ensures ProperLog(l.store[name], l.used)
  {
    hide TargetsInv, PhaseInv, Apart;
    assert Aside(base, l.store, name);
    if name !in base {
      var s: Schema :| l.store[name] == [[Metadata(s)]];
      Created(s);
    }
  }

  /** Whatever a load did, and wherever it stopped, the next can start from what it left. */
  lemma StoreProper(l: Load, base: Store)
    requires Inv(l, base)
    ensures Proper(l.store, l.used)
  {
    hide Inv, Head;
    forall name | name in l.store
      ensures ProperLog(l.store[name], l.used)
    {
      if name in Names(l.targets) {
        var k :| 0 <= k < |l.targets| && l.targets[k].name == name;
        TargetProper(l, base, k);
      } else {
        AsideProper(l, base, name);
      }
    }
  }

  lemma StoresKept(legs: seq<Leg>, leg: Leg, base: Store, i: nat)
    requires Started(legs) && leg.run != [] && i <= |legs|
    ensures Started(legs + [leg]) && StoreBefore(legs + [leg], base, i) == StoreBefore(legs, base, i)
  {
  }

  lemma ChainSnoc(legs: seq<Leg>, leg: Leg, base: Store)
    requires IsChain(legs, base) && IsRun(leg.run, leg.steps, StoreBefore(legs, base, |legs|)) && leg.run != []
    ensures IsChain(legs + [leg], base)
  {
    hide IsRun, StoreBefore;
    var more := legs + [leg];
    assert Started(more);
    forall i | 0 <= i < |more|
      ensures IsRun(more[i].run, more[i].steps, StoreBefore(more, base, i))
    {
      StoresKept(legs, leg, base, i);
    }
  }

  /** Whatever the loads so far did, the next can start from what they left. */
  lemma StoreReady(legs: seq<Leg>, base: Store) returns (used: set<nat>)
    requires IsChain(legs, base) && legs != []
    ensures Proper(StoreBefore(legs, base, |legs|), used)
  {
    hide IsRun, Inv, Proper;
    LegInv(legs, base, |legs| - 1);
    StoreProper(Last(legs[|legs| - 1]), StoreBefore(legs, base, |legs| - 1));
    used := Last(legs[|legs| - 1]).used;
  }

  /** A sequence of loads can always be continued, in any mode. */
  lemma CanContinue(legs: seq<Leg>, base: Store, mode: WriteMode) returns (next: Load)
    requires IsChain(legs, base) && legs != []
    ensures next.mode == mode && Init(next, StoreBefore(legs, base, |legs|))
    ensures IsChain(legs + [Leg([next], [])], base)
  {
    hide IsRun, Proper, StoreBefore;
    var used := StoreReady(legs, base);
    var store := StoreBefore(legs, base, |legs|);
    next := Load(mode, store, Loading, [], map[], used, {}, {}, []);
    FirstState(next, store);
    hide Init, IsChain;
    ChainSnoc(legs, Leg([next], []), base);
  }

  lemma FirstState(l: Load, base: Store)
    requires Init(l, base)
    ensures IsRun([l], [], base)
  {
  }

  // ---------------------------------------------------------------- history

  /** What one leg keeps of the versions before it. */
  lemma LegHistory(legs: seq<Leg>, base: Store, i: nat, name: Name, n: nat)
    requires IsChain(legs, base) && i < |legs|
    requires name in StoreBefore(legs, base, i) && n <= |StoreBefore(legs, base, i)[name]|
    ensures var now := StoreBefore(legs, base, i + 1);
      name in now && n <= |now[name]| && At(now[name], n) == At(StoreBefore(legs, base, i)[name], n)
  {
    hide IsRun, At;
    HistoryKept(legs[i].run, legs[i].steps, StoreBefore(legs, base, i), |legs[i].run| - 1, name, n);
  }

  /** Over any sequence of loads every recorded version keeps showing what it showed. */
  lemma {:induction false} ChainHistory(legs: seq<Leg>, base: Store, i: nat, j: nat, name: Name, n: nat)
    requires IsChain(legs, base) && i <= j <= |legs|
    requires name in StoreBefore(legs, base, i) && n <= |StoreBefore(legs, base, i)[name]|
    ensures var now := StoreBefore(legs, base, j);
      name in now && n <= |now[name]| && At(now[name], n) == At(StoreBefore(legs, base, i)[name], n)
    decreases j
  {
    hide IsRun, At, StoreBefore;
    if i < j {
      ChainHistory(legs, base, i, j - 1, name, n);
      LegHistory(legs, base, j - 1, name, n);
    }
  }

  lemma LegIdle(legs: seq<Leg>, base: Store, i: nat, name: Name)
    requires IsChain(legs, base) && i < |legs| && name in StoreBefore(legs, base, i)
    requires !Lands(Last(legs[i]), name)
    ensures name in StoreBefore(legs, base, i + 1)
    ensures StoreBefore(legs, base, i + 1)[name] == StoreBefore(legs, base, i)[name]
  {
    hide IsRun, Inv, Lands, Visible;
    LegInv(legs, base, i);
    Unlanded(Last(legs[i]), StoreBefore(legs, base, i), name);
  }

  /** Legs that do not commit to a table leave it alone. */
  lemma {:induction false} ChainIdle(legs: seq<Leg>, base: Store, i: nat, j: nat, name: Name)
    requires IsChain(legs, base) && i <= j <= |legs| && name in StoreBefore(legs, base, i)
    requires forall m :: i <= m < j ==> !Lands(Last(legs[m]), name)
    ensures name in StoreBefore(legs, base, j) && StoreBefore(legs, base, j)[name] == StoreBefore(legs, base, i)[name]
    decreases j
  {
    hide IsRun, StoreBefore, Lands;
    if i < j {
      ChainIdle(legs, base, i, j - 1, name);
      LegIdle(legs, base, j - 1, name);
    }
  }

  /** What a table shows, and under which columns. */
  ghost predicate Holds(store: Store, name: Name, files: seq<File>, schema: Schema) {
    name in store && Head(store[name]).files == files && Declared(Head(store[name]).schema) == Declared(schema)
  }

  lemma StoreAfter(legs: seq<Leg>, base: Store, i: nat)
    requires Started(legs) && i < |legs|
    ensures StoreBefore(legs, base, i + 1) == Last(legs[i]).store
  {
  }

  /** An overwriting load holds what it staged in every table it committed to. */
  lemma OverwriteHolds(l: Load, base: Store, k: nat)
    requires Inv(l, base) && l.mode.Overwrite? && k < |l.targets|
    requires k in l.landed || l.phase == Ended(Succeeded)
    ensures var t := l.targets[k]; t.name in l.store && Holds(l.store, t.name, StagedFor(l, t.name), t.incoming)
  {
    hide Inv, Head, Declared;
    if k !in l.landed {
      AllLanded(l, base, k);
    }
    LandedShows(l, base, k);
    var files := StagedFor(l, l.targets[k].name);
    assert [] + files == files;
  }

  lemma HoldsStill(before: Store, after: Store, name: Name, files: seq<File>, schema: Schema)
    requires Holds(before, name, files, schema) && name in after && after[name] == before[name]
    ensures Holds(after, name, files, schema)
  {
    hide Head, Declared;
  }

  /**
   * The last overwriting load whose commit for a table was written decides what the table
   * holds and declares, however many loads come after it without committing to that table.
   * A load that succeeded has committed to every table it opened.
   */
  lemma LastOverwriteDecides(legs: seq<Leg>, base: Store, i: nat, j: nat, k: nat)
    requires IsChain(legs, base) && i < j <= |legs| && Last(legs[i]).mode.Overwrite?
    requires k < |Last(legs[i]).targets| && (k in Last(legs[i]).landed || Last(legs[i]).phase == Ended(Succeeded))
    requires forall m :: i < m < j ==> !Lands(Last(legs[m]), Last(legs[i]).targets[k].name)
    ensures var l, t := Last(legs[i]), Last(legs[i]).targets[k];
      Holds(StoreBefore(legs, base, j), t.name, StagedFor(l, t.name), t.incoming)
  {
    hide IsRun, Holds, Lands, Shows, Inv, StoreBefore;
    var l, t := Last(legs[i]), Last(legs[i]).targets[k];
    LegInv(legs, base, i);
    StoreAfter(legs, base, i);
    OverwriteHolds(l, StoreBefore(legs, base, i), k);
    ChainIdle(legs, base, i + 1, j, t.name);
    HoldsStill(l.store, StoreBefore(legs, base, j), t.name, StagedFor(l, t.name), t.incoming);
  }

  /** What a load left behind can still be read after any later ones. */
  lemma StillThere(legs: seq<Leg>, base: Store, i: nat, j: nat, name: Name)
    requires IsChain(legs, base) && i < j < |legs| && name in Last(legs[i]).store
    ensures var once := Last(legs[i]).store[name];
      && name in Last(legs[j]).store && |once| <= |Last(legs[j]).store[name]|
      && At(Last(legs[j]).store[name], |once|) == Head(once)
  {
    hide IsRun, At, StoreBefore;
    StoreAfter(legs, base, i);
    StoreAfter(legs, base, j);
    ChainHistory(legs, base, i + 1, j + 1, name, |Last(legs[i]).store[name]|);
  }

  /** What a successful overwriting load leaves in each of its tables. */
  lemma Overwritten(legs: seq<Leg>, base: Store, i: nat, k: nat)
    requires IsChain(legs, base) && i < |legs| && Last(legs[i]).mode.Overwrite?
    requires Last(legs[i]).phase == Ended(Succeeded) && k < |Last(legs[i]).targets|
    ensures var l, t := Last(legs[i]), Last(legs[i]).targets[k];
      Holds(l.store, t.name, StagedFor(l, t.name), t.incoming)
  {
    hide IsRun, Holds, Lands, StagedFor;
    LastOverwriteDecides(legs, base, i, i + 1, k);
  }

  /**
   * Re-running is idempotent: the same rows loaded over any number of other loads show again
   * under the same columns, and the earlier result can still be read at its version.
   */
  lemma Rerun(legs: seq<Leg>, base: Store, i: nat, k: nat, j: nat, m: nat)
    requires IsChain(legs, base) && i < j < |legs|
    requires Last(legs[i]).phase == Last(legs[j]).phase == Ended(Succeeded)
    requires Last(legs[i]).mode == Last(legs[j]).mode == Overwrite
    requires k < |Last(legs[i]).targets| && m < |Last(legs[j]).targets|
    requires var t, u := Last(legs[i]).targets[k], Last(legs[j]).targets[m];
      && t.name == u.name && Declared(t.incoming) == Declared(u.incoming)
      && FileBag(StagedFor(Last(legs[i]), t.name)) == FileBag(StagedFor(Last(legs[j]), t.name))
    ensures var name := Last(legs[i]).targets[k].name;
      && name in Last(legs[i]).store && name in Last(legs[j]).store
      && var once, twice := Last(legs[i]).store[name], Last(legs[j]).store[name];
      && FileBag(Head(twice).files) == FileBag(Head(once).files)
      && Declared(Head(twice).schema) == Declared(Head(once).schema)
      && |once| <= |twice| && At(twice, |once|) == Head(once)
  {
    hide IsRun, Declared, FileBag, StagedFor, Head, At, StoreBefore;
    Overwritten(legs, base, i, k);
    Overwritten(legs, base, j, m);
    StillThere(legs, base, i, j, Last(legs[i]).targets[k].name);
  }
}
