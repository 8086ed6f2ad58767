/** Opening and committing Delta tables (src/sink.rs). */
module Sink {
  import opened Bytes
  import opened Delta

  datatype WriteMode = Overwrite | Append | ErrorIfExists

  datatype SinkError = TableExists | SchemaChanged(drift: Drift) | Storage

  // ---------------------------------------------------------------- schema drift

  datatype Drift = Drift(
    added: seq<seq<byte>>,
    removed: seq<seq<byte>>,
    retyped: seq<(seq<byte>, seq<byte>, seq<byte>)>)

  const NO_DRIFT := Drift([], [], [])

  predicate IsEmpty(d: Drift) {
    d.added == [] && d.removed == [] && d.retyped == []
  }

  /** The type of the first field of that name. */
  function Find(s: Schema, name: seq<byte>): (r: Option<seq<byte>>)
    decreases |s|
  {
    if s == [] then None else if s[0].name == name then Some(s[0].dataType) else Find(s[1..], name)
  }

  /** The declared name-to-type map. */
  function Declared(s: Schema): (m: map<seq<byte>, seq<byte>>)
    ensures forall n :: n in m <==> Find(s, n).Some?
    ensures forall n :: n in m ==> m[n] == Find(s, n).value
    decreases |s|
  {
    if s == [] then map[] else Declared(s[1..])[s[0].name := s[0].dataType]
  }

  /** A struct type holds each name once. */
  ghost predicate Distinct(s: Schema) {
    forall i, j :: 0 <= i < j < |s| ==> s[i].name != s[j].name
  }

  /** The names of `want` that `have` lacks, in order, up to field `n`. */
  function Missing(have: Schema, want: Schema, n: nat): (names: seq<seq<byte>>)
    requires n <= |want|
  {
    if n == 0 then []
    else Missing(have, want, n - 1) + (if Find(have, want[n - 1].name).None? then [want[n - 1].name] else [])
  }

  function Retyped(current: Schema, incoming: Schema, n: nat): (r: seq<(seq<byte>, seq<byte>, seq<byte>)>)
    requires n <= |incoming|
  {
    if n == 0 then []
    else
      var f := incoming[n - 1];
      var was := Find(current, f.name);
      Retyped(current, incoming, n - 1)
      + (if was.Some? && was.value != f.dataType then [(f.name, was.value, f.dataType)] else [])
  }

  function DriftOf(current: Schema, incoming: Schema): (d: Drift) {
    Drift(Missing(current, incoming, |incoming|),
          Missing(incoming, current, |current|),
          Retyped(current, incoming, |incoming|))
  }

  method DiffSchema(current: Schema, incoming: Schema) returns (d: Drift)
    ensures d == DriftOf(current, incoming)
  {
    d := NO_DRIFT;
    for i := 0 to |incoming|
      invariant d == Drift(Missing(current, incoming, i), [], Retyped(current, incoming, i))
    {
      var f := incoming[i];
      match Find(current, f.name)
      case None => d := d.(added := d.added + [f.name]);
      case Some(existing) =>
        if existing != f.dataType {
          d := d.(retyped := d.retyped + [(f.name, existing, f.dataType)]);
        }
    }
    for i := 0 to |current|
      invariant d == Drift(Missing(current, incoming, |incoming|), Missing(incoming, current, i), Retyped(current, incoming, |incoming|))
    {
      if Find(incoming, current[i].name).None? {
        d := d.(removed := d.removed + [current[i].name]);
      }
    }
  }

  lemma {:induction false} FindHas(s: Schema, name: seq<byte>)
    ensures Find(s, name).Some? <==> exists i :: 0 <= i < |s| && s[i].name == name
    decreases |s|
  {
    if s != [] {
      FindHas(s[1..], name);
      if i :| 0 <= i < |s| && s[i].name == name && s[0].name != name {
        assert s[1..][i - 1].name == name;
      }
    }
  }

  lemma {:induction false} FindAt(s: Schema, i: nat)
    requires Distinct(s) && i < |s|
    ensures Find(s, s[i].name) == Some(s[i].dataType)
    decreases |s|
  {
    if i > 0 {
      assert s[0].name != s[i].name;
      assert s[1..][i - 1] == s[i];
      FindAt(s[1..], i - 1);
    }
  }

  lemma {:induction false} MissingHas(have: Schema, want: Schema, n: nat, name: seq<byte>)
    requires n <= |want|
    ensures name in Missing(have, want, n) <==> Find(have, name).None? && exists i :: 0 <= i < n && want[i].name == name
    decreases n
  {
    if n > 0 {
      MissingHas(have, want, n - 1, name);
    }
  }

  lemma {:induction false} RetypedHas(current: Schema, incoming: Schema, n: nat, name: seq<byte>, was: seq<byte>, now: seq<byte>)
    requires n <= |incoming|
    ensures (name, was, now) in Retyped(current, incoming, n) <==>
      was != now && Find(current, name) == Some(was) && exists i :: 0 <= i < n && incoming[i] == Field(name, now)
    decreases n
  {
    if n > 0 {
      RetypedHas(current, incoming, n - 1, name, was, now);
      assert incoming[n - 1] == Field(incoming[n - 1].name, incoming[n - 1].dataType);
    }
  }

  /** What drift means, in terms of the two name-to-type maps. */
  lemma DriftMeaning(current: Schema, incoming: Schema, name: seq<byte>, was: seq<byte>, now: seq<byte>)
    requires Distinct(incoming)
    ensures var d, have, want := DriftOf(current, incoming), Declared(current), Declared(incoming);
      && (name in d.added <==> name in want && name !in have)
      && (name in d.removed <==> name in have && name !in want)
      && ((name, was, now) in d.retyped <==> name in have && name in want && have[name] == was != now == want[name])
  {
    FindHas(incoming, name);
    FindHas(current, name);
    MissingHas(current, incoming, |incoming|, name);
    MissingHas(incoming, current, |current|, name);
    RetypedHas(current, incoming, |incoming|, name, was, now);
    if i :| 0 <= i < |incoming| && incoming[i].name == name {
      FindAt(incoming, i);
    }
  }

  /** No drift is reported exactly when both declare the same names with the same types. */
  lemma NoDriftIffSameMap(current: Schema, incoming: Schema)
    requires Distinct(incoming)
    ensures IsEmpty(DriftOf(current, incoming)) <==> Declared(current) == Declared(incoming)
  {
    hide DriftOf;
    var d, have, want := DriftOf(current, incoming), Declared(current), Declared(incoming);
    if IsEmpty(d) {
      forall n
        ensures n in have <==> n in want
        ensures n in have && n in want ==> have[n] == want[n]
      {
        DriftMeaning(current, incoming, n, if n in have then have[n] else [], if n in want then want[n] else []);
      }
    } else if have == want {
      if d.added != [] {
        DriftMeaning(current, incoming, d.added[0], [], []);
      } else if d.removed != [] {
        DriftMeaning(current, incoming, d.removed[0], [], []);
      } else {
        var (n, was, now) := d.retyped[0];
        DriftMeaning(current, incoming, n, was, now);
      }
    }
  }

  // ---------------------------------------------------------------- commits

  /** The actions one commit writes, given what its handle has loaded. */
  function CommitActions(loaded: Snapshot, staged: seq<Action>, mode: WriteMode, schema: Option<Schema>): (actions: seq<Action>) {
    staged +
    (if !mode.Overwrite? then []
     else
       Removes(loaded.files) +
       (if schema.Some? && schema.value != loaded.schema then [Metadata(schema.value)] else []))
  }

  /** What opening declares to the later commit: the dump's schema, only if it moved. */
  function Announced(drift: Drift, incoming: Schema): (s: Option<Schema>) {
    if IsEmpty(drift) then None else Some(incoming)
  }

  /**
   * What a commit through a handle that has loaded `seen` versions may come to: one new
   * version holding all of it, or nothing. Reported as a success only if it is there.
   */
  ghost predicate IsCommit(before: Log, seen: nat, after: Log, staged: seq<Action>, mode: WriteMode, schema: Option<Schema>,
                           r: Result<nat, SinkError>)
    requires seen <= |before|
  {
    && (after == before || (seen == |before| && after == before + [CommitActions(Head(before), staged, mode, schema)]))
    && (r.Ok? ==> after != before && r.value == |before|)
  }

  /**
   * What opening a table may come to. A first run creates it with no files, and may fail
   * after doing so; otherwise nothing in storage changes. `Append` refuses a drifted schema
   * and `ErrorIfExists` a table with files; nothing else is refused.
   */
  ghost predicate IsOpening(before: Log, after: Log, incoming: Schema, mode: WriteMode, r: Result<Drift, SinkError>) {
    && (after == before || (before == [] && after == [[Metadata(incoming)]]))
    && match r
       case Ok(drift) =>
         && after != []
         && drift == DriftOf(Head(after).schema, incoming)
         && (mode.Append? ==> IsEmpty(drift))
         && (mode.ErrorIfExists? ==> Head(after).files == [])
       case Err(SchemaChanged(drift)) =>
         before != [] && mode.Append? && drift == DriftOf(Head(before).schema, incoming) && !IsEmpty(drift)
       case Err(TableExists) => before != [] && mode.ErrorIfExists? && Head(before).files != []
       case Err(Storage) => true
  }

  /** A Delta table in storage, and a handle that has loaded its first `loaded` versions. */
  class Table {
    var log: Log
    var loaded: nat

    ghost predicate Valid()
      reads this
    {
      loaded <= |log|
    }

    /** A handle that has loaded nothing yet. */
    constructor (log: Log)
      ensures Valid() && this.log == log && loaded == 0
    {
      this.log := log;
      loaded := 0;
    }

    /** Loads the latest version; there must be one, and storage may fail. */
    method Load() returns (ok: bool)
      requires Valid()
      modifies this`loaded
      ensures Valid()
      ensures if ok then loaded == |log| > 0 else loaded == old(loaded)
    {
      var reached: bool := *;
      ok := reached && |log| > 0;
      if ok {
        loaded := |log|;
      }
    }

    /** Removals for every file the handle sees, or a storage failure. */
    method CurrentFiles() returns (r: Result<seq<Action>, SinkError>)
      requires Valid()
      ensures if r.Ok? then r.value == Removes(At(log, loaded).files) else r.error == Storage
    {
      var files := At(log, loaded).files;
      var actions: seq<Action> := [];
      for i := 0 to |files|
        invariant actions == Removes(files[..i])
      {
        var reached: bool := *;
        if !reached {
          return Err(Storage);
        }
        actions := actions + [Remove(files[i].path)];
        assert files[..i + 1] == files[..i] + [files[i]];
      }
      assert files[..|files|] == files;
      return Ok(actions);
    }

    /**
     * One commit: all of it becomes one new version, or nothing happens. Only a success
     * leaves the handle at the new version; a failure to reload it is reported as an error
     * although the version is there.
     */
    method Commit(staged: seq<Action>, mode: WriteMode, schema: Option<Schema>) returns (r: Result<nat, SinkError>)
      requires Valid()
      modifies this
      ensures Valid()
      ensures IsCommit(old(log), old(loaded), log, staged, mode, schema, r)
      ensures r.Ok? ==> loaded == |log|
    {
      var actions := staged;
      if mode == Overwrite {
        var files := CurrentFiles();
        if files.Err? {
          return Err(files.error);
        }
        for i := 0 to |files.value|
          invariant actions == staged + files.value[..i]
        {
          assert files.value[..i + 1] == files.value[..i] + [files.value[i]];
          actions := actions + [files.value[i]];
        }
        assert files.value[..|files.value|] == files.value;
        if schema.Some? && schema.value != At(log, loaded).schema {
          actions := actions + [Metadata(schema.value)];
        }
      }
      assert actions == CommitActions(At(log, loaded), staged, mode, schema);
      var reached: bool := *;
      if !reached || loaded != |log| {
        return Err(Storage);
      }
      var version := |log|;
      log := log + [actions];
      var reloaded := Load();
      return if reloaded then Ok(version) else Err(Storage);
    }

    /**
     * Opens the table for a load. A first run creates it, with no files; otherwise nothing in
     * storage changes. `Append` refuses a drifted schema, `ErrorIfExists` a table with files.
     */
    method Open(incoming: Schema, mode: WriteMode) returns (r: Result<Drift, SinkError>)
      requires Valid() && loaded == 0 && Distinct(incoming)
      modifies this
      ensures Valid()
      ensures IsOpening(old(log), log, incoming, mode, r)
      ensures r.Ok? ==> loaded == |log|
    {
      var found := Load();
      if !found {
        var created: bool := *;
        if !created || log != [] {
          return Err(Storage);
        }
        log := [[Metadata(incoming)]];
        Created(incoming);
        SelfDrift(incoming);
        var reloaded := Load();
        return if reloaded then Ok(NO_DRIFT) else Err(Storage);
      }
      if mode == ErrorIfExists {
        var files := CurrentFiles();
        if files.Err? {
          return Err(files.error);
        }
        if files.value != [] {
          return Err(TableExists);
        }
      }
      var drift := DiffSchema(Head(log).schema, incoming);
      if !IsEmpty(drift) && mode == Append {
        return Err(SchemaChanged(drift));
      }
      return Ok(drift);
    }
  }

  // ---------------------------------------------------------------- what a commit shows

  /**
   * Everything the handle sees is replaced by what was staged; the schema is replaced only if
   * it drifted.
   */
  lemma OverwriteShows(log: Log, files: seq<File>, incoming: Schema)
    requires Separate(Head(log).files + files) && Distinct(incoming)
    ensures var drift := DriftOf(Head(log).schema, incoming);
      var now := Head(log + [CommitActions(Head(log), Adds(files), Overwrite, Announced(drift, incoming))]);
      && now.files == files && Declared(now.schema) == Declared(incoming)
      && now.schema == (if IsEmpty(drift) then Head(log).schema else incoming)
  {
    hide DriftOf, Declared;
    var s := Head(log);
    var drift := DriftOf(s.schema, incoming);
    var schema := Announced(drift, incoming);
    var tail := if schema.Some? && schema.value != s.schema then [Metadata(schema.value)] else [];
    HeadSnoc(log, CommitActions(s, Adds(files), Overwrite, schema));
    ReplayAppend(s, Adds(files), Removes(s.files) + tail);
    ReplayAdds(s, files);
    var both := s.(files := s.files + files);
    ReplayAppend(both, Removes(s.files), tail);
    ReplayRemoves(both, s.files, files);
    ReplayLast(s.(files := files), tail);
    NoDriftIffSameMap(s.schema, incoming);
  }

  lemma ReplayLast(s: Snapshot, tail: seq<Action>)
    requires |tail| <= 1
    ensures Replay(s, tail) == if tail == [] then s else Act(s, tail[0])
  {
    if tail != [] {
      assert tail[1..] == [];
    }
  }

  /** Any other mode keeps what is there and adds what was staged; the schema stays. */
  lemma AppendShows(log: Log, files: seq<File>, mode: WriteMode, schema: Option<Schema>)
    requires Separate(Head(log).files + files) && !mode.Overwrite?
    ensures Head(log + [CommitActions(Head(log), Adds(files), mode, schema)]) == Head(log).(files := Head(log).files + files)
  {
    assert CommitActions(Head(log), Adds(files), mode, schema) == Adds(files);
    HeadSnoc(log, Adds(files));
    ReplayAdds(Head(log), files);
  }

  /**
   * After a load, a table declares the columns of the dump exactly when it was an overwrite or
   * there was no drift. `Append` refuses drift on opening; `ErrorIfExists` does not, so a
   * table that existed without files keeps its old declaration over files of the new shape.
   */
  lemma DeclaredAfterLoad(log: Log, files: seq<File>, incoming: Schema, mode: WriteMode)
    requires Separate(Head(log).files + files) && Distinct(incoming)
    ensures var drift := DriftOf(Head(log).schema, incoming);
      var now := Head(log + [CommitActions(Head(log), Adds(files), mode, Announced(drift, incoming))]);
      Declared(now.schema) == Declared(incoming) <==> mode.Overwrite? || IsEmpty(drift)
  {
    hide DriftOf, Declared, CommitActions;
    var drift := DriftOf(Head(log).schema, incoming);
    NoDriftIffSameMap(Head(log).schema, incoming);
    if mode.Overwrite? {
      OverwriteShows(log, files, incoming);
    } else {
      AppendShows(log, files, mode, Announced(drift, incoming));
    }
  }

  /** A load in `ErrorIfExists` mode that opens, commits, and leaves the wrong declaration. */
  lemma StaleDeclaration()
    ensures exists log: Log, incoming: Schema, file: File ::
      && IsOpening(log, log, incoming, ErrorIfExists, Ok(DriftOf(Head(log).schema, incoming)))
      && Declared(Head(log + [CommitActions(Head(log), Adds([file]), ErrorIfExists, Some(incoming))]).schema) != Declared(incoming)
  {
    var was: Schema, incoming: Schema := [Field([97], [105])], [Field([97], [115])];
    var log: Log, file := [[Metadata(was)]], File(0, []);
    Created(was);
    AppendShows(log, [file], ErrorIfExists, Some(incoming));
    assert Declared(was)[[97]] == [105] && Declared(incoming)[[97]] == [115];
    assert IsOpening(log, log, incoming, ErrorIfExists, Ok(DriftOf(Head(log).schema, incoming)));
  }

  lemma SelfDrift(s: Schema)
    requires Distinct(s)
    ensures DriftOf(s, s) == NO_DRIFT
  {
    NoDriftIffSameMap(s, s);
  }

  /** Storage that does not fail has an answer: the table, or the mode's own refusal. */
  lemma Opens(before: Log, incoming: Schema, mode: WriteMode) returns (after: Log, r: Result<Drift, SinkError>)
    requires Distinct(incoming)
    ensures IsOpening(before, after, incoming, mode, r) && r != Err(Storage)
  {
    if before == [] {
      Created(incoming);
      SelfDrift(incoming);
      return [[Metadata(incoming)]], Ok(NO_DRIFT);
    }
    hide DriftOf, Head;
    var drift := DriftOf(Head(before).schema, incoming);
    after := before;
    if mode.ErrorIfExists? && Head(before).files != [] {
      r := Err(TableExists);
    } else if mode.Append? && !IsEmpty(drift) {
      r := Err(SchemaChanged(drift));
    } else {
      r := Ok(drift);
    }
  }

  /** A table just created declares what it was created with, and shows no files. */
  lemma Created(incoming: Schema)
    ensures Head([[Metadata(incoming)]]) == Snapshot([], incoming)
  {
    var log := [[Metadata(incoming)]];
    assert log[0][1..] == [];
    assert At(log, 0) == NOTHING;
    assert At(log, 1) == Replay(NOTHING, log[0]);
  }
}
