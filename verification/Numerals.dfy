/** Decimal text: what the value parsers of src/values.rs read, and how such text is written. */
module Numerals {
  import opened Bytes
  import opened Calendar

  const PLUS: byte := 43
  const MINUS: byte := 45
  const DOT: byte := 46
  const SPACE: byte := 32
  const COLON: byte := 58

  predicate IsDigit(b: byte) {
    48 <= b <= 57
  }

  predicate AllDigits(s: seq<byte>) {
    forall i :: 0 <= i < |s| ==> IsDigit(s[i])
  }

  /** The number a string of digits stands for. */
  function Value(s: seq<byte>): (n: nat)
    requires AllDigits(s)
    decreases |s|
  {
    if s == [] then 0 else Value(s[..|s| - 1]) * 10 + (s[|s| - 1] - 48)
  }

  function Power10(k: nat): (p: nat)
    ensures p >= 1
  {
    if k == 0 then 1 else 10 * Power10(k - 1)
  }

  lemma ValueSnoc(s: seq<byte>, b: byte)
    requires AllDigits(s) && IsDigit(b)
    ensures AllDigits(s + [b]) && Value(s + [b]) == Value(s) * 10 + (b - 48)
  {
    assert (s + [b])[..|s|] == s;
  }

  lemma Times10(a: nat, k: nat)
    ensures a * Power10(k) * 10 == a * Power10(k + 1)
  {
    assert Power10(k + 1) == 10 * Power10(k);
  }

  /** Digits written after others shift them up. */
  lemma {:induction false} ValueAppend(a: seq<byte>, b: seq<byte>)
    requires AllDigits(a) && AllDigits(b)
    ensures AllDigits(a + b) && Value(a + b) == Value(a) * Power10(|b|) + Value(b)
    decreases |b|
  {
    if b == [] {
      assert a + b == a;
    } else {
      var init, last := b[..|b| - 1], b[|b| - 1];
      ValueAppend(a, init);
      assert a + b == a + init + [last] && b == init + [last];
      ValueSnoc(a + init, last);
      ValueSnoc(init, last);
      Times10(Value(a), |init|);
    }
  }

  lemma {:induction false} ValueBound(s: seq<byte>)
    requires AllDigits(s)
    ensures Value(s) < Power10(|s|)
    decreases |s|
  {
    if s != [] {
      ValueBound(s[..|s| - 1]);
    }
  }

  lemma {:induction false} ValueZeros(k: nat)
    ensures AllDigits(Zeros(k)) && Value(Zeros(k)) == 0
  {
    if k > 0 {
      ValueZeros(k - 1);
      assert Zeros(k) == Zeros(k - 1) + [48];
      ValueSnoc(Zeros(k - 1), 48);
    }
  }

  function Zeros(k: nat): (s: seq<byte>)
    ensures |s| == k && forall i :: 0 <= i < k ==> s[i] == 48
  {
    seq(k, _ => 48)
  }

  // ---------------------------------------------------------------- writing

  /** The digits of a number, without leading zeros. */
  function Digits(n: nat): (s: seq<byte>)
    ensures s != [] && AllDigits(s)
  {
    if n < 10 then [48 + n] else Digits(n / 10) + [48 + n % 10]
  }

  lemma {:induction false} DigitsValue(n: nat)
    ensures Value(Digits(n)) == n
  {
    if n < 10 {
      assert Digits(n)[..0] == [];
    } else {
      DigitsValue(n / 10);
      ValueSnoc(Digits(n / 10), 48 + n % 10);
    }
  }

  lemma {:induction false} DigitsLength(n: nat, k: nat)
    requires k >= 1 && n < Power10(k)
    ensures |Digits(n)| <= k
    decreases k
  {
    if n >= 10 {
      assert Power10(k) == 10 * Power10(k - 1);
      assert k > 1;
      DigitsLength(n / 10, k - 1);
    }
  }

  /** A number written with at least `w` digits. */
  function Padded(n: nat, w: nat): (s: seq<byte>)
    ensures s != [] && AllDigits(s) && |s| >= w
  {
    var s := Digits(n);
    if |s| < w then Zeros(w - |s|) + s else s
  }

  lemma PaddedValue(n: nat, w: nat)
    ensures Value(Padded(n, w)) == n
  {
    var s := Digits(n);
    DigitsValue(n);
    if |s| < w {
      ValueZeros(w - |s|);
      ValueAppend(Zeros(w - |s|), s);
    }
  }

  lemma PaddedLength(n: nat, w: nat)
    requires w >= 1 && n < Power10(w)
    ensures |Padded(n, w)| == w
  {
    DigitsLength(n, w);
  }

  // ---------------------------------------------------------------- reading

  /** An integer as the standard library parses one into 64 bits: a sign, then digits. */
  function ParseI64(s: seq<byte>): (r: Option<int>) {
    var signed := s != [] && (s[0] == PLUS || s[0] == MINUS);
    var digits := if signed then s[1..] else s;
    if digits == [] || !AllDigits(digits) then None
    else
      var n := if signed && s[0] == MINUS then -(Value(digits) as int) else Value(digits);
      if FitsI64(n) then Some(n) else None
  }

  /** What is written with digits alone is read back, if it fits. */
  lemma ParsePadded(n: nat, w: nat)
    ensures ParseI64(Padded(n, w)) == if n <= I64_MAX then Some(n) else None
  {
    hide Value, Padded;
    PaddedValue(n, w);
    assert IsDigit(Padded(n, w)[0]);
  }

  datatype Sign = Unsigned | Positive | Negative

  function PrintSign(sign: Sign): (s: seq<byte>) {
    match sign
    case Unsigned => []
    case Positive => ['+' as int]
    case Negative => ['-' as int]
  }

  /** A sign and digits are read as the number they write, if 64 bits hold it. */
  lemma ParseSigned(sign: Sign, digits: seq<byte>)
    requires digits != [] && AllDigits(digits)
    ensures var n := if sign.Negative? then -(Value(digits) as int) else Value(digits);
      ParseI64(PrintSign(sign) + digits) == if FitsI64(n) then Some(n) else None
  {
    hide Value;
    var s := PrintSign(sign) + digits;
    if sign.Unsigned? {
      assert s == digits && IsDigit(s[0]);
    } else {
      assert s[1..] == digits;
    }
  }

  /** And nothing else is a number. */
  lemma ParseOnly(s: seq<byte>) returns (sign: Sign, digits: seq<byte>)
    requires ParseI64(s).Some?
    ensures digits != [] && AllDigits(digits) && s == PrintSign(sign) + digits
  {
    hide Value;
    if s[0] == PLUS || s[0] == MINUS {
      sign, digits := if s[0] == PLUS then Positive else Negative, s[1..];
      assert s == [s[0]] + s[1..];
    } else {
      sign, digits := Unsigned, s;
      assert s == [] + s;
    }
  }

  predicate IsSpace(b: byte) {
    9 <= b <= 13 || b == 32
  }

  function TrimLeft(s: seq<byte>): (r: seq<byte>)
    decreases |s|
  {
    if s != [] && IsSpace(s[0]) then TrimLeft(s[1..]) else s
  }

  function TrimRight(s: seq<byte>): (r: seq<byte>)
    decreases |s|
  {
    if s != [] && IsSpace(s[|s| - 1]) then TrimRight(s[..|s| - 1]) else s
  }

  function Trim(s: seq<byte>): (r: seq<byte>) {
    TrimRight(TrimLeft(s))
  }

  /** The blanks that trimming text takes off: tab to carriage return, and space. */
  predicate AreSpaces(s: seq<byte>) {
    forall i :: 0 <= i < |s| ==> '\t' as int <= s[i] <= '\r' as int || s[i] == ' ' as int
  }

  predicate EndsSpaced(s: seq<byte>) {
    s == [] || AreSpaces(s[..1]) || AreSpaces(s[|s| - 1..])
  }

  lemma {:induction false} TrimLeftSpaces(pre: seq<byte>, s: seq<byte>)
    requires AreSpaces(pre) && (s == [] || !IsSpace(s[0]))
    ensures TrimLeft(pre + s) == s
    decreases |pre|
  {
    if pre == [] {
      assert pre + s == s;
    } else {
      assert (pre + s)[1..] == pre[1..] + s;
      TrimLeftSpaces(pre[1..], s);
    }
  }

  lemma {:induction false} TrimRightSpaces(s: seq<byte>, post: seq<byte>)
    requires AreSpaces(post) && (s == [] || !IsSpace(s[|s| - 1]))
    ensures TrimRight(s + post) == s
    decreases |post|
  {
    if post == [] {
      assert s + post == s;
    } else {
      assert (s + post)[..|s + post| - 1] == s + post[..|post| - 1];
      TrimRightSpaces(s, post[..|post| - 1]);
    }
  }

  /** Trimming takes off all the blanks around a text, and only them. */
  lemma TrimSpaces(pre: seq<byte>, s: seq<byte>, post: seq<byte>)
    requires AreSpaces(pre) && AreSpaces(post) && !EndsSpaced(s)
    ensures Trim(pre + (s + post)) == s
  {
    assert s[..1][0] == s[0] && s[|s| - 1..][0] == s[|s| - 1];
    assert (s + post)[0] == s[0];
    TrimLeftSpaces(pre, s + post);
    TrimRightSpaces(s, post);
  }

  /** At most `n` pieces between occurrences of `b`; the last holds the rest. */
  function SplitN(s: seq<byte>, b: byte, n: nat): (parts: seq<seq<byte>>)
    requires n >= 1
    ensures 1 <= |parts| <= n
    decreases n
  {
    var i := IndexOf(s, b);
    if n == 1 || i == |s| then [s] else [s[..i]] + SplitN(s[i + 1..], b, n - 1)
  }

  predicate Lacks(s: seq<byte>, b: byte) {
    forall i :: 0 <= i < |s| ==> s[i] != b
  }

  lemma DigitsLack(s: seq<byte>, b: byte)
    requires AllDigits(s) && !IsDigit(b)
    ensures Lacks(s, b)
  {
  }

  lemma IndexAfter(a: seq<byte>, b: byte, rest: seq<byte>)
    requires Lacks(a, b)
    ensures IndexOf(a + [b] + rest, b) == |a|
    ensures (a + [b] + rest)[..|a|] == a && (a + [b] + rest)[|a| + 1..] == rest
  {
    IndexOfIs(a + [b] + rest, b, |a|);
  }

  lemma SplitCons(a: seq<byte>, b: byte, rest: seq<byte>, n: nat)
    requires Lacks(a, b) && n >= 2
    ensures SplitN(a + [b] + rest, b, n) == [a] + SplitN(rest, b, n - 1)
  {
    IndexAfter(a, b, rest);
  }

  lemma SplitNone(a: seq<byte>, b: byte, n: nat)
    requires Lacks(a, b) && n >= 1
    ensures SplitN(a, b, n) == [a]
  {
    IndexOfIs(a, b, |a|);
  }
}
