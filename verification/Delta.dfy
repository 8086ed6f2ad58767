/**
 * The part of the Delta transaction log protocol a load relies on: a table is a sequence of
 * versions, each a list of actions, and a reader sees what replaying them leaves.
 */
module Delta {
  import opened Bytes
  import Worker

  datatype Field = Field(name: seq<byte>, dataType: seq<byte>)

  type Schema = seq<Field>

  datatype File = File(path: nat, rows: seq<Worker.Row>)

  datatype Action = Add(file: File) | Remove(path: nat) | Metadata(schema: Schema)

  type Log = seq<seq<Action>>

  /** What one version of a table shows. */
  datatype Snapshot = Snapshot(files: seq<File>, schema: Schema)

  const NOTHING := Snapshot([], [])

  function Without(files: seq<File>, path: nat): (r: seq<File>)
    decreases |files|
  {
    if files == [] then []
    else (if files[0].path == path then [] else [files[0]]) + Without(files[1..], path)
  }

  function Act(s: Snapshot, a: Action): (r: Snapshot) {
    match a
    case Add(file) => s.(files := Without(s.files, file.path) + [file])
    case Remove(path) => s.(files := Without(s.files, path))
    case Metadata(schema) => s.(schema := schema)
  }

  function Replay(s: Snapshot, actions: seq<Action>): (r: Snapshot)
    decreases |actions|
  {
    if actions == [] then s else Replay(Act(s, actions[0]), actions[1..])
  }

  /** The table after its first `n` versions. */
  function At(log: Log, n: nat): (s: Snapshot)
    requires n <= |log|
  {
    if n == 0 then NOTHING else Replay(At(log, n - 1), log[n - 1])
  }

  function Head(log: Log): (s: Snapshot) {
    At(log, |log|)
  }

  /** The rows of some files, file by file. */
  function FileRows(files: seq<File>): (rows: seq<Worker.Row>)
    decreases |files|
  {
    if files == [] then [] else files[0].rows + FileRows(files[1..])
  }

  lemma {:induction false} FileRowsAppend(a: seq<File>, b: seq<File>)
    ensures FileRows(a + b) == FileRows(a) + FileRows(b)
    decreases |a|
  {
    if a == [] {
      assert a + b == b;
    } else {
      FileRowsAppend(a[1..], b);
      assert (a + b)[1..] == a[1..] + b;
    }
  }

  /** All rows a snapshot holds, in no particular order. */
  function FileBag(files: seq<File>): (m: multiset<Worker.Row>) {
    multiset(FileRows(files))
  }

  // ---------------------------------------------------------------- time travel

  /** No later commit changes what a recorded version shows. */
  lemma {:induction false} TimeTravel(log: Log, more: Log, n: nat)
    requires n <= |log|
    ensures At(log + more, n) == At(log, n)
    decreases n
  {
    if n > 0 {
      TimeTravel(log, more, n - 1);
      assert (log + more)[n - 1] == log[n - 1];
    }
  }

  lemma HeadSnoc(log: Log, commit: seq<Action>)
    ensures Head(log + [commit]) == Replay(Head(log), commit)
  {
    TimeTravel(log, [commit], |log|);
  }

  // ---------------------------------------------------------------- reconciliation

  /** The last action that mentions a path. */
  function Latest(actions: seq<Action>, path: nat): (a: Option<Action>)
    decreases |actions|
  {
    if actions == [] then None
    else
      var last := actions[|actions| - 1];
      if (last.Add? && last.file.path == path) || (last.Remove? && last.path == path) then Some(last)
      else Latest(actions[..|actions| - 1], path)
  }

  lemma {:induction false} WithoutHas(files: seq<File>, path: nat, f: File)
    ensures f in Without(files, path) <==> f in files && f.path != path
    decreases |files|
  {
    if files != [] {
      WithoutHas(files[1..], path, f);
    }
  }

  lemma {:induction false} ReplayAppend(s: Snapshot, a: seq<Action>, b: seq<Action>)
    ensures Replay(s, a + b) == Replay(Replay(s, a), b)
    decreases |a|
  {
    if a == [] {
      assert a + b == b;
    } else {
      assert (a + b)[1..] == a[1..] + b;
      ReplayAppend(Act(s, a[0]), a[1..], b);
    }
  }

  lemma ReplaySnoc(s: Snapshot, actions: seq<Action>, a: Action)
    ensures Replay(s, actions + [a]) == Act(Replay(s, actions), a)
  {
    ReplayAppend(s, actions, [a]);
    assert [a][1..] == [];
  }

  /** Version by version or action by action, replaying comes to the same. */
  lemma {:induction false} HeadIsReplay(log: Log)
    ensures Head(log) == Replay(NOTHING, Concat(log))
    decreases |log|
  {
    if log != [] {
      var init := log[..|log| - 1];
      assert log == init + [log[|log| - 1]];
      HeadIsReplay(init);
      HeadSnoc(init, log[|log| - 1]);
      ConcatSnoc(init, log[|log| - 1]);
      ReplayAppend(NOTHING, Concat(init), log[|log| - 1]);
    }
  }

  lemma {:induction false} ReplayReconciles(actions: seq<Action>, f: File)
    ensures f in Replay(NOTHING, actions).files <==> Latest(actions, f.path) == Some(Add(f))
    decreases |actions|
  {
    if actions != [] {
      var init, last := actions[..|actions| - 1], actions[|actions| - 1];
      assert actions == init + [last];
      ReplayReconciles(init, f);
      ReplaySnoc(NOTHING, init, last);
      var before := Replay(NOTHING, init).files;
      if last.Add? {
        WithoutHas(before, last.file.path, f);
      } else if last.Remove? {
        WithoutHas(before, last.path, f);
      }
    }
  }

  /** Action reconciliation: a file is visible iff the latest word on its path is its addition. */
  lemma Reconciliation(log: Log, f: File)
    ensures f in Head(log).files <==> Latest(Concat(log), f.path) == Some(Add(f))
  {
    HeadIsReplay(log);
    ReplayReconciles(Concat(log), f);
  }

  // ---------------------------------------------------------------- additions and removals

  function Adds(files: seq<File>): (actions: seq<Action>)
    ensures |actions| == |files| && forall i :: 0 <= i < |files| ==> actions[i] == Add(files[i])
  {
    seq(|files|, i requires 0 <= i < |files| => Add(files[i]))
  }

  function Removes(files: seq<File>): (actions: seq<Action>)
    ensures |actions| == |files| && forall i :: 0 <= i < |files| ==> actions[i] == Remove(files[i].path)
  {
    seq(|files|, i requires 0 <= i < |files| => Remove(files[i].path))
  }

  /** No two files share a path. */
  ghost predicate Separate(files: seq<File>) {
    forall i, j :: 0 <= i < j < |files| ==> files[i].path != files[j].path
  }

  function PathsOf(files: seq<File>): (paths: set<nat>) {
    set f | f in files :: f.path
  }

  lemma {:induction false} WithoutAbsent(files: seq<File>, path: nat)
    requires forall i :: 0 <= i < |files| ==> files[i].path != path
    ensures Without(files, path) == files
    decreases |files|
  {
    if files != [] {
      WithoutAbsent(files[1..], path);
    }
  }

  /** Adding files under new paths keeps the old ones and appends the new. */
  lemma {:induction false} ReplayAdds(s: Snapshot, files: seq<File>)
    requires Separate(s.files + files)
    ensures Replay(s, Adds(files)) == s.(files := s.files + files)
    decreases |files|
  {
    if files == [] {
      assert s.files + files == s.files;
    } else {
      var f := files[0];
      forall i | 0 <= i < |s.files|
        ensures s.files[i].path != f.path
      {
        assert (s.files + files)[i] == s.files[i] && (s.files + files)[|s.files|] == f;
      }
      WithoutAbsent(s.files, f.path);
      assert Adds(files)[0] == Add(f) && Adds(files)[1..] == Adds(files[1..]);
      assert s.files + [f] + files[1..] == s.files + files;
      ReplayAdds(s.(files := s.files + [f]), files[1..]);
    }
  }

  /** Removing the files at the front leaves the others. */
  lemma {:induction false} ReplayRemoves(s: Snapshot, gone: seq<File>, rest: seq<File>)
    requires s.files == gone + rest && Separate(s.files)
    ensures Replay(s, Removes(gone)) == s.(files := rest)
    decreases |gone|
  {
    if gone == [] {
      assert gone + rest == rest;
    } else {
      var tail := gone[1..] + rest;
      assert s.files[0] == gone[0] && s.files[1..] == tail;
      forall i | 0 <= i < |tail|
        ensures tail[i].path != gone[0].path
      {
        assert tail[i] == s.files[i + 1];
      }
      WithoutAbsent(tail, gone[0].path);
      assert Without(s.files, gone[0].path) == tail;
      assert Removes(gone)[0] == Remove(gone[0].path);
      assert Removes(gone)[1..] == Removes(gone[1..]);
      assert Separate(tail) by {
        forall i, j | 0 <= i < j < |tail|
          ensures tail[i].path != tail[j].path
        {
          assert tail[i] == s.files[i + 1] && tail[j] == s.files[j + 1];
        }
      }
      ReplayRemoves(s.(files := tail), gone[1..], rest);
    }
  }
}
