/** Byte strings, and the line structure that every stage of the front end relies on. */
module Bytes {

  type byte = b: int | 0 <= b < 256

  const NL: byte := 10
  const CR: byte := 13
  const TAB: byte := 9
  const BACKSLASH: byte := 92

  /** ASCII text as bytes. */
  function Ascii(s: string): (r: seq<byte>)
    requires forall i :: 0 <= i < |s| ==> s[i] as int < 128
    ensures |r| == |s|
    ensures forall i :: 0 <= i < |s| ==> r[i] == s[i] as int
  {
    seq(|s|, i requires 0 <= i < |s| => s[i] as int)
  }

  /** ASCII whitespace (`is_ascii_whitespace`). */
  predicate IsWs(b: byte) {
    b == 32 || b == 9 || b == 10 || b == 12 || b == 13
  }

  datatype Option<+T> = None | Some(value: T)

  datatype Result<+T, +E> = Ok(value: T) | Err(error: E)

  /** A value does not match its declared type. */
  datatype Unparsable = Unparsable

  /** A growable buffer owned by the caller, as `Vec` is in the source. */
  class Vec<T> {
    var elems: seq<T>

    constructor ()
      ensures elems == []
    {
      elems := [];
    }
  }

  /** First position of `b` in `s` from `i` on, or `|s|` when there is none. */
  function IndexFrom(s: seq<byte>, b: byte, i: nat): (r: nat)
    requires i <= |s|
    ensures i <= r <= |s|
    ensures r < |s| ==> s[r] == b
    ensures forall k :: i <= k < r ==> s[k] != b
    decreases |s| - i
  {
    if i == |s| || s[i] == b then i else IndexFrom(s, b, i + 1)
  }

  /** First position of `b` in `s`, or `|s|` when it does not occur (`memchr`). */
  function IndexOf(s: seq<byte>, b: byte): (i: nat)
    ensures i <= |s|
    ensures i < |s| ==> s[i] == b
    ensures forall k :: 0 <= k < i ==> s[k] != b
  {
    IndexFrom(s, b, 0)
  }

  /** Last position of `b` in `s[..n]`, or -1 when there is none. */
  function LastIndexBefore(s: seq<byte>, b: byte, n: nat): (i: int)
    requires n <= |s|
    ensures -1 <= i < n
    ensures i >= 0 ==> s[i] == b
    ensures forall k :: i < k < n ==> s[k] != b
  {
    if n == 0 || s[n - 1] == b then n - 1 else LastIndexBefore(s, b, n - 1)
  }

  /** Last position of `b` in `s`, or -1 when it does not occur (`memrchr`). */
  function LastIndexOf(s: seq<byte>, b: byte): (i: int)
    ensures -1 <= i < |s|
    ensures i >= 0 ==> s[i] == b
    ensures forall k :: i < k < |s| ==> s[k] != b
  {
    LastIndexBefore(s, b, |s|)
  }

  /** `IndexOf` is pinned down by what it promises. */
  lemma IndexOfIs(s: seq<byte>, b: byte, i: nat)
    requires i <= |s|
    requires forall k :: 0 <= k < i ==> s[k] != b
    requires i < |s| ==> s[i] == b
    ensures IndexOf(s, b) == i
  {
    var j := IndexOf(s, b);
    assert !(j < i);
    assert !(i < j);
  }

  predicate NoNewline(s: seq<byte>) {
    forall k :: 0 <= k < |s| ==> s[k] != NL
  }

  /** The newline-terminated lines of `s`, without their newlines. */
  function Lines(s: seq<byte>): (ls: seq<seq<byte>>)
    decreases |s|
  {
    var i := IndexOf(s, NL);
    if i == |s| then [] else [s[..i]] + Lines(s[i + 1..])
  }

  /** What follows the last newline of `s`. */
  function Tail(s: seq<byte>): (t: seq<byte>)
    ensures NoNewline(t)
    decreases |s|
  {
    var i := IndexOf(s, NL);
    if i == |s| then s else Tail(s[i + 1..])
  }

  /** Glues lines back together, each followed by a newline. */
  function Unlines(ls: seq<seq<byte>>): (s: seq<byte>)
  {
    if ls == [] then [] else ls[0] + [NL] + Unlines(ls[1..])
  }

  /** No line contains a newline of its own. */
  ghost predicate NewlineFree(ls: seq<seq<byte>>) {
    forall i :: 0 <= i < |ls| ==> NoNewline(ls[i])
  }

  /** One line and a newline in front of `t` become the first line. */
  lemma LinesCons(l: seq<byte>, t: seq<byte>)
    requires NoNewline(l)
    ensures Lines(l + [NL] + t) == [l] + Lines(t)
    ensures Tail(l + [NL] + t) == Tail(t)
  {
    var s := l + [NL] + t;
    IndexOfIs(s, NL, |l|);
    assert s[..|l|] == l && s[|l| + 1..] == t;
  }

  lemma LinesNone(s: seq<byte>)
    requires NoNewline(s)
    ensures Lines(s) == [] && Tail(s) == s
  {
    IndexOfIs(s, NL, |s|);
  }

  lemma Rejoin(l: seq<byte>, ls: seq<seq<byte>>, t: seq<byte>)
    ensures Unlines([l] + ls) + t == l + [NL] + (Unlines(ls) + t)
  {
    assert ([l] + ls)[1..] == ls;
  }

  lemma {:induction false} LinesNewlineFree(s: seq<byte>)
    ensures NewlineFree(Lines(s))
    decreases |s|
  {
    var i := IndexOf(s, NL);
    if i < |s| {
      LinesNewlineFree(s[i + 1..]);
      assert NoNewline(s[..i]);
    }
  }

  /** Lines and tail together are the whole text: splitting loses nothing. */
  lemma {:induction false} SplitLossless(s: seq<byte>)
    ensures Unlines(Lines(s)) + Tail(s) == s
    decreases |s|
  {
    var i := IndexOf(s, NL);
    if i == |s| {
      assert Unlines([]) + s == s;
    } else {
      var l, t := s[..i], s[i + 1..];
      assert l + [NL] + t == s;
      SplitLossless(t);
      assert Unlines(Lines(s)) + Tail(s) == l + [NL] + (Unlines(Lines(t)) + Tail(t)) by {
        Rejoin(l, Lines(t), Tail(t));
      }
    }
  }

  /** Splitting is the inverse of `Unlines` on newline-free lines, whatever follows. */
  lemma {:induction false} LinesOfUnlines(ls: seq<seq<byte>>, t: seq<byte>)
    requires NewlineFree(ls)
    ensures Lines(Unlines(ls) + t) == ls + Lines(t)
    ensures Tail(Unlines(ls) + t) == Tail(t)
    decreases |ls|
  {
    if ls == [] {
      assert Unlines(ls) + t == t;
    } else {
      LinesOfUnlines(ls[1..], t);
      assert Unlines(ls) + t == ls[0] + [NL] + (Unlines(ls[1..]) + t);
      LinesCons(ls[0], Unlines(ls[1..]) + t);
      assert ls == [ls[0]] + ls[1..];
    }
  }

  lemma LinesFirst(s: seq<byte>)
    requires IndexOf(s, NL) < |s|
    ensures var i := IndexOf(s, NL);
      Lines(s) == [s[..i]] + Lines(s[i + 1..]) && Tail(s) == Tail(s[i + 1..])
  {
  }

  /** A stream may be cut anywhere: the partial line at the cut is carried over. */
  lemma LinesAppend(a: seq<byte>, b: seq<byte>)
    ensures Lines(a + b) == Lines(a) + Lines(Tail(a) + b)
    ensures Tail(a + b) == Tail(Tail(a) + b)
  {
    SplitLossless(a);
    LinesNewlineFree(a);
    assert a + b == Unlines(Lines(a)) + (Tail(a) + b);
    LinesOfUnlines(Lines(a), Tail(a) + b);
  }

  lemma {:induction false} UnlinesAppend(a: seq<seq<byte>>, b: seq<seq<byte>>)
    ensures Unlines(a + b) == Unlines(a) + Unlines(b)
    decreases |a|
  {
    if a == [] {
      assert a + b == b;
    } else {
      UnlinesAppend(a[1..], b);
      assert (a + b)[1..] == a[1..] + b;
    }
  }

  /** Text that is empty or ends in a newline. */
  predicate Aligned(s: seq<byte>) {
    s == [] || s[|s| - 1] == NL
  }

  /** Aligned text is exactly text with nothing left after its last newline. */
  lemma {:induction false} AlignedTail(s: seq<byte>)
    ensures Aligned(s) <==> Tail(s) == []
    decreases |s|
  {
    var i := IndexOf(s, NL);
    if i < |s| {
      AlignedTail(s[i + 1..]);
    }
  }

  /** A complete line at the end of aligned text is its last line. */
  lemma LinesSnoc(a: seq<byte>, l: seq<byte>)
    requires Aligned(a) && NoNewline(l)
    ensures Aligned(a + l + [NL]) && Lines(a + l + [NL]) == Lines(a) + [l]
  {
    AlignedTail(a);
    LinesAppend(a, l + [NL]);
    LinesCons(l, []);
    LinesNone([]);
    assert a + l + [NL] == a + (l + [NL]);
    assert l + [NL] + [] == [] + (l + [NL]);
  }

  /** Removes one trailing carriage return. */
  function StripCr(line: seq<byte>): (r: seq<byte>)
    ensures r <= line
  {
    if line != [] && line[|line| - 1] == CR then line[..|line| - 1] else line
  }

  /** The rows of a payload: its complete lines, each stripped of one carriage return. */
  function RowsOf(payload: seq<byte>): (rows: seq<seq<byte>>)
    ensures |rows| == |Lines(payload)|
    ensures forall i :: 0 <= i < |rows| ==> rows[i] == StripCr(Lines(payload)[i])
  {
    var ls := Lines(payload);
    seq(|ls|, i requires 0 <= i < |ls| => StripCr(ls[i]))
  }

  /** Splitting an aligned payload off the front of another splits its rows off too. */
  lemma RowsAppend(a: seq<byte>, b: seq<byte>)
    requires Aligned(a)
    ensures RowsOf(a + b) == RowsOf(a) + RowsOf(b)
  {
    AlignedTail(a);
    LinesAppend(a, b);
    assert Tail(a) + b == b;
  }

  function Concat<T>(parts: seq<seq<T>>): (s: seq<T>)
  {
    if parts == [] then [] else parts[0] + Concat(parts[1..])
  }

  lemma {:induction false} ConcatAppend<T>(a: seq<seq<T>>, b: seq<seq<T>>)
    ensures Concat(a + b) == Concat(a) + Concat(b)
    decreases |a|
  {
    if a == [] {
      assert a + b == b;
    } else {
      ConcatAppend(a[1..], b);
      assert (a + b)[1..] == a[1..] + b;
    }
  }

  lemma ConcatSnoc<T>(a: seq<seq<T>>, x: seq<T>)
    ensures Concat(a + [x]) == Concat(a) + x
  {
    ConcatAppend(a, [x]);
    assert [x][1..] == [];
    assert Concat([x]) == x + Concat<T>([]);
  }

  /** The numbers below `n`. */
  function Indices(n: nat): (s: set<nat>)
    ensures forall i :: i in s <==> 0 <= i < n
    ensures |s| == n
  {
    if n == 0 then {} else Indices(n - 1) + {n - 1}
  }
}
