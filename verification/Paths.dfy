/** From table names to paths (src/sink.rs, `relative_path`): validated, never rewritten. */
module Paths {
  import opened Bytes
  import opened SqlText

  const SLASH: byte := 47
  const MAX_COMPONENT: nat := 255
  const MAX_PATH: nat := 512

  /** The verdict of the Unicode tables on a component's characters beyond ASCII. */
  type Letters = seq<byte> -> bool

  predicate SafeByte(b: byte) {
    48 <= b <= 57 || 65 <= b <= 90 || 97 <= b <= 122 || b == 95 || b == 45 || b == SPACE || b >= 128
  }

  predicate IsSafe(component: seq<byte>, letters: Letters) {
    && 0 < |component| <= MAX_COMPONENT
    && component[0] != SPACE && component[|component| - 1] != SPACE
    && (forall i :: 0 <= i < |component| ==> SafeByte(component[i]))
    && letters(component)
  }

  function Components(name: TableName): (parts: seq<seq<byte>>) {
    (if name.schema.Some? then [name.schema.value] else []) + [name.table]
  }

  predicate IsAccepted(name: TableName, letters: Letters) {
    && (name.schema.Some? ==> IsSafe(name.schema.value, letters))
    && IsSafe(name.table, letters)
    && (if name.schema.Some? then |name.schema.value| else 0) + |name.table| <= MAX_PATH
  }

  function PathOf(name: TableName): (path: seq<byte>) {
    if name.schema.Some? then name.schema.value + [SLASH] + name.table else name.table
  }

  function Total(parts: seq<seq<byte>>, n: nat): (t: nat)
    requires n <= |parts|
  {
    if n == 0 then 0 else Total(parts, n - 1) + |parts[n - 1]|
  }

  /** The loop over the components. */
  method RelativePath(name: TableName, letters: Letters) returns (r: Option<seq<byte>>)
    ensures r == if IsAccepted(name, letters) then Some(PathOf(name)) else None
  {
    var parts := Components(name);
    var total := 0;
    for i := 0 to |parts|
      invariant forall k :: 0 <= k < i ==> IsSafe(parts[k], letters)
      invariant total == Total(parts, i)
    {
      assert parts[i] == name.table || (name.schema.Some? && parts[i] == name.schema.value);
      if !IsSafe(parts[i], letters) {
        return None;
      }
      total := total + |parts[i]|;
    }
    assert total == (if name.schema.Some? then |name.schema.value| else 0) + |name.table| by {
      assert Total(parts, 1) == |parts[0]|;
    }
    assert IsSafe(parts[0], letters) && IsSafe(parts[|parts| - 1], letters);
    return if total > MAX_PATH then None else Some(PathOf(name));
  }

  // ---------------------------------------------------------------- which names are accepted

  /** A letter, a digit, an underscore, a hyphen or a space; beyond ASCII the tables decide. */
  predicate InAlphabet(b: byte) {
    var c := b as char;
    'A' <= c <= 'Z' || 'a' <= c <= 'z' || '0' <= c <= '9' || c == '_' || c == '-' || c == ' ' || b >= 128
  }

  /** A part of a name that can be part of a path. */
  predicate MayBePart(part: seq<byte>, letters: Letters) {
    && 1 <= |part| <= 255 && part[0] as char != ' ' && part[|part| - 1] as char != ' '
    && (forall i :: 0 <= i < |part| ==> InAlphabet(part[i]))
    && letters(part)
  }

  lemma SafeIff(part: seq<byte>, letters: Letters)
    ensures IsSafe(part, letters) <==> MayBePart(part, letters)
  {
    assert forall i :: 0 <= i < |part| ==> (SafeByte(part[i]) <==> InAlphabet(part[i]));
  }

  /**
   * Exactly the names of one or two such parts, of at most 512 bytes in all, are accepted; the
   * path is the parts themselves with a slash between.
   */
  lemma AcceptedIff(name: TableName, letters: Letters)
    ensures IsAccepted(name, letters) <==>
      match name.schema
      case None => MayBePart(name.table, letters)
      case Some(schema) => MayBePart(schema, letters) && MayBePart(name.table, letters) && |schema| + |name.table| <= 512
    ensures PathOf(name) == match name.schema
      case None => name.table
      case Some(schema) => schema + ['/' as int] + name.table
  {
    hide IsSafe, MayBePart;
    SafeIff(name.table, letters);
    if name.schema.Some? {
      SafeIff(name.schema.value, letters);
    }
    assert MayBePart(name.table, letters) ==> |name.table| <= 255 by { PartBound(name.table, letters); }
  }

  lemma PartBound(part: seq<byte>, letters: Letters)
    ensures MayBePart(part, letters) ==> |part| <= 255
  {
  }

  lemma NoByte(component: seq<byte>, letters: Letters, b: byte)
    requires IsSafe(component, letters) && !SafeByte(b)
    ensures forall i :: 0 <= i < |component| ==> component[i] != b
  {
  }

  /** Two names joined by a byte neither contains are told apart by where it is. */
  lemma SplitsOnce(a: seq<byte>, b: seq<byte>, c: seq<byte>, d: seq<byte>, sep: byte)
    requires a + [sep] + b == c + [sep] + d
    requires forall i :: 0 <= i < |a| ==> a[i] != sep
    requires forall i :: 0 <= i < |c| ==> c[i] != sep
    ensures a == c && b == d
  {
    var s := a + [sep] + b;
    assert s[|a|] == sep && s[|c|] == sep;
    assert forall i :: 0 <= i < |a| ==> s[i] == a[i];
    assert forall i :: 0 <= i < |c| ==> s[i] == c[i];
    assert |a| == |c|;
    assert a == s[..|a|] && c == s[..|c|];
    assert b == s[|a| + 1..] && d == s[|c| + 1..];
  }

  lemma HasSeparator(a: seq<byte>, sep: byte, b: seq<byte>)
    ensures |a| < |a + [sep] + b| && (a + [sep] + b)[|a|] == sep
  {
  }

  /** The name as joined by `sep`, which safe components do not contain. */
  lemma JoinedApart(a: TableName, b: TableName, letters: Letters, sep: byte)
    requires IsAccepted(a, letters) && IsAccepted(b, letters) && !SafeByte(sep)
    requires
      (if a.schema.Some? then a.schema.value + [sep] + a.table else a.table) ==
      (if b.schema.Some? then b.schema.value + [sep] + b.table else b.table)
    ensures a == b
  {
    hide IsSafe;
    NoByte(a.table, letters, sep);
    NoByte(b.table, letters, sep);
    match (a.schema, b.schema)
    case (Some(s), Some(t)) =>
      NoByte(s, letters, sep);
      NoByte(t, letters, sep);
      SplitsOnce(s, a.table, t, b.table, sep);
    case (Some(s), None) => HasSeparator(s, sep, a.table);
    case (None, Some(t)) => HasSeparator(t, sep, b.table);
    case (None, None) =>
  }

  /** No two tables are written to the same path. */
  lemma PathsApart(a: TableName, b: TableName, letters: Letters)
    requires IsAccepted(a, letters) && IsAccepted(b, letters) && PathOf(a) == PathOf(b)
    ensures a == b
  {
    JoinedApart(a, b, letters, SLASH);
  }

  /** And none share the qualified name under which staged files are kept. */
  lemma KeysApart(a: TableName, b: TableName, letters: Letters)
    requires IsAccepted(a, letters) && IsAccepted(b, letters) && Qualified(a) == Qualified(b)
    ensures a == b
  {
    JoinedApart(a, b, letters, DOT);
  }

  /** Without validation they would: a dot is legal inside a quoted identifier. */
  lemma KeysCollide()
    ensures exists a: TableName, b: TableName :: a != b && Qualified(a) == Qualified(b)
  {
    var a, b := TableName(Some([97]), [98, DOT, 99]), TableName(Some([97, DOT, 98]), [99]);
    assert Qualified(a) == Qualified(b);
  }

  /** A path stays below its prefix: no dot, no backslash, no control byte, no empty part. */
  lemma Confined(name: TableName, letters: Letters, i: nat)
    requires IsAccepted(name, letters) && i < |PathOf(name)|
    ensures var b := PathOf(name)[i]; b != DOT && b != BACKSLASH && b >= 32 && b != 127
    ensures PathOf(name)[i] == SLASH ==> 0 < i < |PathOf(name)| - 1
  {
    NoByte(name.table, letters, SLASH);
    if name.schema.Some? {
      NoByte(name.schema.value, letters, SLASH);
    }
  }
}
