/** Fixed-scale decimals (src/values.rs, `parse_decimal`): exact, and complete. */
module Decimal {
  import opened Bytes
  import opened Numerals

  const I128_MAX: int := 0x7fff_ffff_ffff_ffff_ffff_ffff_ffff_ffff

  datatype Shape =
    | NotANumber
    | Malformed
    | Number(negative: bool, whole: seq<byte>, fraction: seq<byte>)

  const NAN: seq<byte> := [78, 97, 78]

  predicate HasExponent(s: seq<byte>) {
    exists i :: 0 <= i < |s| && (s[i] == 101 || s[i] == 69)
  }

  /** Digits, and digits after a point; at least one digit in all. */
  function BodyShape(negative: bool, digits: seq<byte>): (r: Shape)
    ensures r.Number? ==> AllDigits(r.whole) && AllDigits(r.fraction)
  {
    if digits == [] || HasExponent(digits) then Malformed
    else
      var dot := IndexOf(digits, DOT);
      var whole, fraction := digits[..dot], if dot < |digits| then digits[dot + 1..] else [];
      if whole == [] && fraction == [] then Malformed
      else if !AllDigits(whole) || !AllDigits(fraction) then Malformed
      else Number(negative, whole, fraction)
  }

  /** The grammar: a sign, and a body. */
  function ShapeOf(s: seq<byte>): (r: Shape)
    ensures r.Number? ==> AllDigits(r.whole) && AllDigits(r.fraction)
  {
    if s == NAN then NotANumber
    else
      var signed := s != [] && (s[0] == PLUS || s[0] == MINUS);
      BodyShape(signed && s[0] == MINUS, if signed then s[1..] else s)
  }

  /** `n` is the written number, times ten to the `scale`. */
  predicate IsScaled(whole: seq<byte>, fraction: seq<byte>, scale: nat, n: nat)
    requires AllDigits(whole) && AllDigits(fraction)
  {
    Value(whole + fraction) * Power10(scale) == n * Power10(|fraction|)
  }

  // ---------------------------------------------------------------- the written number

  /** A number as it is written: a sign, digits, and perhaps a point and more digits. */
  datatype Written = Written(sign: Sign, whole: seq<byte>, fraction: Option<seq<byte>>)

  function FractionOf(w: Written): (digits: seq<byte>) {
    if w.fraction.Some? then w.fraction.value else []
  }

  predicate IsWritten(w: Written) {
    AllDigits(w.whole) && AllDigits(FractionOf(w)) && w.whole + FractionOf(w) != []
  }

  function PrintBody(w: Written): (s: seq<byte>) {
    w.whole + (if w.fraction.Some? then ['.' as int] + w.fraction.value else [])
  }

  function PrintNumber(w: Written): (s: seq<byte>) {
    PrintSign(w.sign) + PrintBody(w)
  }

  /** `r` is the written number times ten to the scale, if that is an integer below ten to the precision. */
  ghost predicate IsVerdict(w: Written, precision: nat, scale: int, r: Result<Option<int>, Unparsable>)
    requires IsWritten(w)
  {
    if scale < 0 then r == Err(Unparsable)
    else
      match r
      case Ok(None) => false
      case Ok(Some(x)) =>
        && (x < 0 ==> w.sign.Negative?) && (x > 0 ==> !w.sign.Negative?)
        && var n: nat := if x < 0 then -x else x;
           IsScaled(w.whole, FractionOf(w), scale, n) && n < Power10(precision)
      case Err(_) => forall n: nat :: IsScaled(w.whole, FractionOf(w), scale, n) ==> n >= Power10(precision)
  }

  ghost predicate IsNumber(text: seq<byte>) {
    exists w :: IsWritten(w) && PrintNumber(w) == text
  }

  /**
   * What reading a decimal of a given precision and scale has to come to: nothing for `NaN`,
   * the verdict on the number that is written, and an error if none is.
   */
  ghost predicate IsReading(text: seq<byte>, precision: nat, scale: int, r: Result<Option<int>, Unparsable>) {
    if text == [78, 97, 78] then r == Ok(None)
    else if IsNumber(text) then forall w :: IsWritten(w) && PrintNumber(w) == text ==> IsVerdict(w, precision, scale, r)
    else r == Err(Unparsable)
  }

  // ---------------------------------------------------------------- the grammar is the writing

  lemma PrintedBody(negative: bool, w: Written)
    requires IsWritten(w)
    ensures BodyShape(negative, PrintBody(w)) == Number(negative, w.whole, FractionOf(w))
    ensures PrintBody(w) != [] && (IsDigit(PrintBody(w)[0]) || PrintBody(w)[0] == '.' as int)
  {
    var digits := PrintBody(w);
    IndexOfIs(digits, DOT, |w.whole|);
    assert digits[..|w.whole|] == w.whole;
    assert w.fraction.Some? ==> digits[|w.whole| + 1..] == w.fraction.value;
  }

  lemma PrintedShape(w: Written)
    requires IsWritten(w)
    ensures ShapeOf(PrintNumber(w)) == Number(w.sign.Negative?, w.whole, FractionOf(w))
  {
    hide BodyShape, PrintBody, AllDigits;
    PrintedBody(w.sign.Negative?, w);
    var s := PrintNumber(w);
    if w.sign.Unsigned? {
      assert s == PrintBody(w);
    } else {
      assert s[0] == PrintSign(w.sign)[0] && s[1..] == PrintBody(w);
    }
  }

  lemma BodyWritten(negative: bool, sign: Sign, digits: seq<byte>) returns (w: Written)
    requires BodyShape(negative, digits).Number?
    ensures w.sign == sign && IsWritten(w) && PrintBody(w) == digits
  {
    var dot := IndexOf(digits, DOT);
    w := Written(sign, digits[..dot], if dot < |digits| then Some(digits[dot + 1..]) else None);
    if dot < |digits| {
      assert digits == digits[..dot] + (['.' as int] + digits[dot + 1..]);
    } else {
      assert digits == digits[..dot] + [];
    }
  }

  /** A number of the grammar is one that is written so. */
  lemma ShapeWritten(s: seq<byte>) returns (w: Written)
    requires ShapeOf(s).Number?
    ensures IsWritten(w) && PrintNumber(w) == s
  {
    hide BodyShape, PrintBody, IsWritten;
    var signed := s != [] && (s[0] == PLUS || s[0] == MINUS);
    var negative := signed && s[0] == MINUS;
    w := BodyWritten(negative, if !signed then Unsigned else if negative then Negative else Positive, if signed then s[1..] else s);
    if signed {
      assert s == [s[0]] + s[1..];
    } else {
      assert [] + s == s;
    }
  }

  lemma NumberIff(s: seq<byte>)
    ensures IsNumber(s) <==> ShapeOf(s).Number?
  {
    if ShapeOf(s).Number? {
      var w := ShapeWritten(s);
    }
    if w :| IsWritten(w) && PrintNumber(w) == s {
      PrintedShape(w);
    }
  }

  /** A number of the grammar, as one that is written. */
  function AsWritten(shape: Shape): (w: Written)
    requires shape.Number?
  {
    Written(if shape.negative then Negative else Unsigned, shape.whole, Some(shape.fraction))
  }

  lemma SameVerdict(w: Written, v: Written, precision: nat, scale: int, r: Result<Option<int>, Unparsable>)
    requires IsWritten(w) && IsVerdict(w, precision, scale, r)
    requires v.whole == w.whole && FractionOf(v) == FractionOf(w) && (v.sign.Negative? <==> w.sign.Negative?)
    ensures IsWritten(v) && IsVerdict(v, precision, scale, r)
  {
    hide IsScaled, Power10;
  }

  /** What the grammar makes of a text is what has to come of it. */
  lemma ShapeJudged(s: seq<byte>, precision: nat, scale: int, r: Result<Option<int>, Unparsable>)
    requires match ShapeOf(s)
      case NotANumber => r == Ok(None)
      case Malformed => r == Err(Unparsable)
      case Number(_, _, _) => IsWritten(AsWritten(ShapeOf(s))) && IsVerdict(AsWritten(ShapeOf(s)), precision, scale, r)
    ensures IsReading(s, precision, scale, r)
  {
    NumberIff(s);
    NotANumberIff(s);
    hide IsVerdict, ShapeOf, PrintNumber, IsWritten;
    forall w | IsWritten(w) && PrintNumber(w) == s
      ensures IsVerdict(w, precision, scale, r)
    {
      PrintedShape(w);
      SameVerdict(AsWritten(ShapeOf(s)), w, precision, scale, r);
    }
  }

  lemma NotANumberIff(s: seq<byte>)
    ensures ShapeOf(s).NotANumber? <==> s == [78, 97, 78]
  {
  }

  // ---------------------------------------------------------------- arithmetic

  lemma {:induction false} PowerAdd(a: nat, b: nat)
    ensures Power10(a + b) == Power10(a) * Power10(b)
    decreases b
  {
    if b > 0 {
      PowerAdd(a, b - 1);
      assert Power10(a + b) == 10 * Power10(a + b - 1);
      assert Power10(a) * Power10(b) == 10 * (Power10(a) * Power10(b - 1));
    }
  }

  lemma Cancel(a: int, b: int, p: int)
    requires p > 0
    ensures a * p == b * p <==> a == b
  {
    if a < b {
      assert (b - a) * p > 0;
    } else if a > b {
      assert (a - b) * p > 0;
    }
  }

  lemma Multiples(k: int, p: int)
    requires p > 0
    ensures k >= 1 ==> k * p >= p
    ensures k <= -1 ==> k * p <= -p
  {
  }

  /** A remainder below the power can only make up a multiple of it by being zero. */
  lemma NoRemainder(a: int, b: int, n: int, p: int)
    requires 0 <= b < p
    ensures a * p + b == n * p <==> b == 0 && a == n
  {
    Multiples(n - a, p);
    assert (n - a) * p == n * p - a * p;
  }

  lemma ShortCase(v: int, n: int, p: int, q: int)
    requires p > 0
    ensures v * (q * p) == n * p <==> n == v * q
  {
    assert v * (q * p) == v * q * p;
    Cancel(v * q, n, p);
  }

  lemma LongCase(a: int, b: int, n: int, p: int, q: int)
    requires q > 0 && 0 <= b < p
    ensures (a * p + b) * q == n * (p * q) <==> b == 0 && n == a
  {
    assert n * (p * q) == n * p * q;
    Cancel(a * p + b, n * p, q);
    NoRemainder(a, b, n, p);
  }

  lemma {:induction false} ZeroIffZeros(s: seq<byte>)
    requires AllDigits(s)
    ensures Value(s) == 0 <==> forall i :: 0 <= i < |s| ==> s[i] == 48
    decreases |s|
  {
    if s != [] {
      ZeroIffZeros(s[..|s| - 1]);
    }
  }

  /** With no more fractional digits than the scale, the number is padded. */
  lemma ScaledShort(whole: seq<byte>, fraction: seq<byte>, scale: nat, n: nat)
    requires AllDigits(whole) && AllDigits(fraction) && |fraction| <= scale
    ensures AllDigits(whole + fraction)
    ensures IsScaled(whole, fraction, scale, n) <==> n == Value(whole + fraction) * Power10(scale - |fraction|)
  {
    hide Value, Power10;
    PowerAdd(scale - |fraction|, |fraction|);
    ShortCase(Value(whole + fraction), n, Power10(|fraction|), Power10(scale - |fraction|));
  }

  lemma ZerosFrom(s: seq<byte>, k: nat)
    requires k <= |s|
    ensures (forall i :: 0 <= i < |s[k..]| ==> s[k..][i] == 48) <==> (forall i :: k <= i < |s| ==> s[i] == 48)
  {
    assert forall i :: k <= i < |s| ==> s[i] == s[k..][i - k];
  }

  /** With more, the surplus must be zeros. */
  lemma ScaledLong(whole: seq<byte>, fraction: seq<byte>, scale: nat, n: nat)
    requires AllDigits(whole) && AllDigits(fraction) && |fraction| > scale
    ensures AllDigits(whole + fraction[..scale])
    ensures IsScaled(whole, fraction, scale, n) <==>
      (forall i :: scale <= i < |fraction| ==> fraction[i] == 48) && n == Value(whole + fraction[..scale])
  {
    hide Value, Power10;
    var keep, drop := fraction[..scale], fraction[scale..];
    ValueAppend(whole + keep, drop);
    assert whole + keep + drop == whole + fraction;
    ValueBound(drop);
    ZeroIffZeros(drop);
    ZerosFrom(fraction, scale);
    PowerAdd(|drop|, scale);
    LongCase(Value(whole + keep), Value(drop), n, Power10(|drop|), Power10(scale));
  }

  // ---------------------------------------------------------------- the parser

  /** A prefix of some digits is no greater than all of them. */
  lemma PrefixBelow(s: seq<byte>, k: nat)
    requires AllDigits(s) && k <= |s|
    ensures AllDigits(s[..k]) && Value(s[..k]) <= Value(s)
  {
    hide Value;
    ValueAppend(s[..k], s[k..]);
    assert s[..k] + s[k..] == s;
    assert Value(s[..k]) * Power10(|s[k..]|) >= Value(s[..k]);
  }

  /** Digits accumulated with checked 128-bit arithmetic. */
  method Accumulate(digits: seq<byte>) returns (r: Option<nat>)
    requires AllDigits(digits)
    ensures r == if Value(digits) <= I128_MAX then Some(Value(digits)) else None
  {
    hide Value, Power10;
    var unscaled: nat := 0;
    NoDigits();
    assert digits[..0] == [];
    for k := 0 to |digits|
      invariant unscaled == Value(digits[..k]) <= I128_MAX
    {
      ValueSnoc(digits[..k], digits[k]);
      assert digits[..k + 1] == digits[..k] + [digits[k]];
      PrefixBelow(digits, k + 1);
      if unscaled * 10 > I128_MAX {
        return None;
      }
      unscaled := unscaled * 10;
      if unscaled + (digits[k] - 48) > I128_MAX {
        return None;
      }
      unscaled := unscaled + (digits[k] - 48);
    }
    assert digits[..|digits|] == digits;
    return Some(unscaled);
  }

  lemma NoDigits()
    ensures Value([]) == 0
  {
  }

  lemma Grows(a: nat, i: nat, k: nat)
    requires i <= k
    ensures a * Power10(i) <= a * Power10(k)
  {
    if i < k {
      Grows(a, i, k - 1);
      Times10(a, k - 1);
    }
  }

  /** Multiplied by ten `k` times with checked arithmetic. */
  method Pad(start: nat, k: nat) returns (r: Option<nat>)
    requires start <= I128_MAX
    ensures r == if start * Power10(k) <= I128_MAX then Some(start * Power10(k)) else None
  {
    var unscaled := start;
    assert Power10(0) == 1;
    hide Power10;
    for i := 0 to k
      invariant unscaled == start * Power10(i) <= I128_MAX
    {
      Times10(start, i);
      Grows(start, i + 1, k);
      if unscaled * 10 > I128_MAX {
        return None;
      }
      unscaled := unscaled * 10;
    }
    return Some(unscaled);
  }

  /** Ten to the precision fits: what overflows was too wide anyway. */
  lemma LimitFits(precision: nat)
    requires precision <= 38
    ensures Power10(precision) <= I128_MAX
  {
    Grows(1, precision, 38);
    TenToThe38();
  }

  lemma SmallPowers()
    ensures Power10(4) == 10_000 && Power10(8) == 100_000_000 && Power10(10) == 10_000_000_000
  {
    assert Power10(2) == 100;
    assert Power10(6) == 1_000_000;
  }

  lemma PowerTimes(a: nat, b: nat, x: nat, y: nat)
    requires Power10(a) == x && Power10(b) == y
    ensures Power10(a + b) == x * y
  {
    PowerAdd(a, b);
  }

  lemma TenToThe38()
    ensures Power10(38) == 100_000_000_000_000_000_000_000_000_000_000_000_000
  {
    hide Power10;
    SmallPowers();
    PowerTimes(10, 10, 10_000_000_000, 10_000_000_000);
    PowerTimes(20, 10, 100_000_000_000_000_000_000, 10_000_000_000);
    PowerTimes(30, 8, 1_000_000_000_000_000_000_000_000_000_000, 100_000_000);
  }

  /** Which integer a number of the grammar scales to, if any. */
  lemma ScalesTo(whole: seq<byte>, fraction: seq<byte>, scale: nat, keep: seq<byte>, n: nat)
    requires AllDigits(whole) && AllDigits(fraction)
    requires keep == (if |fraction| > scale then fraction[..scale] else fraction)
    requires forall i :: scale <= i < |fraction| ==> fraction[i] == 48
    ensures AllDigits(whole + keep)
    ensures IsScaled(whole, fraction, scale, n) <==> n == Value(whole + keep) * Power10(scale - |keep|)
  {
    if |fraction| > scale {
      ScaledLong(whole, fraction, scale, n);
      assert Power10(0) == 1;
    } else {
      ScaledShort(whole, fraction, scale, n);
    }
  }

  /** The verdict on a number whose only candidate is `n`. */
  lemma Judged(text: seq<byte>, precision: nat, scale: nat, n: nat, fits: bool)
    requires precision <= 38 && ShapeOf(text).Number?
    requires var s := ShapeOf(text); forall k: nat :: IsScaled(s.whole, s.fraction, scale, k) <==> k == n
    requires fits ==> n < Power10(precision)
    requires !fits ==> n >= Power10(precision)
    ensures var s := ShapeOf(text);
      IsReading(text, precision, scale,
                if fits then Ok(Some(if s.negative then -(n as int) else n)) else Err(Unparsable))
  {
    var s := ShapeOf(text);
    var w := ShapeWritten(text);
    PrintedShape(w);
    assert IsWritten(AsWritten(s));
    hide ShapeOf, IsScaled, Power10, IsReading, PrintNumber;
    ShapeJudged(text, precision, scale, if fits then Ok(Some(if s.negative then -(n as int) else n)) else Err(Unparsable));
  }

  /**
   * `parse_decimal`: accepts a well-formed decimal exactly when its value times ten to the
   * scale is an integer of magnitude below ten to the precision, and returns that integer.
   * None of its overflow checks ever rejects one that is.
   */
  method ParseDecimal(v: seq<byte>, precision: nat, scale: int) returns (r: Result<Option<int>, Unparsable>)
    requires precision <= 38
    ensures IsReading(Trim(v), precision, scale, r)
  {
    hide Value, Power10, IsScaled, ShapeOf, HasExponent, IsReading;
    var s := Trim(v);
    var shape := ReadShape(s);
    if shape.NotANumber? {
      ShapeJudged(s, precision, scale, Ok(None));
      return Ok(None);
    }
    if shape.Malformed? || scale < 0 {
      ShapeRefused(s, precision, scale);
      return Err(Unparsable);
    }
    var fraction := shape.fraction;
    var keep := if |fraction| > scale then fraction[..scale] else fraction;
    for i := |keep| to |fraction|
      invariant forall k :: |keep| <= k < i ==> fraction[k] == 48
    {
      if fraction[i] != 48 {
        Surplus(s, precision, scale, i);
        return Err(Unparsable);
      }
    }
    assert forall i :: scale <= i < |fraction| ==> fraction[i] == 48;
    ghost var n := CandidateOf(shape.whole, fraction, scale, keep);
    LimitFits(precision);
    var unscaled := Accumulate(shape.whole + keep);
    if unscaled.None? {
      TooWide(shape.whole + keep, scale - |keep|);
      Judged(s, precision, scale, n, false);
      return Err(Unparsable);
    }
    unscaled := Pad(unscaled.value, scale - |keep|);
    if unscaled.None? {
      Judged(s, precision, scale, n, false);
      return Err(Unparsable);
    }
    var limit := Limit(precision);
    Judged(s, precision, scale, n, unscaled.value < limit);
    return if unscaled.value >= limit then Err(Unparsable)
      else Ok(Some(if shape.negative then -(unscaled.value as int) else unscaled.value));
  }

  lemma TooWide(digits: seq<byte>, k: nat)
    requires AllDigits(digits)
    ensures Value(digits) <= Value(digits) * Power10(k)
  {
    Grows(Value(digits), 0, k);
  }

  lemma CandidateOf(whole: seq<byte>, fraction: seq<byte>, scale: nat, keep: seq<byte>) returns (n: nat)
    requires AllDigits(whole) && AllDigits(fraction)
    requires keep == (if |fraction| > scale then fraction[..scale] else fraction)
    requires forall i :: scale <= i < |fraction| ==> fraction[i] == 48
    ensures AllDigits(whole + keep) && n == Value(whole + keep) * Power10(scale - |keep|)
    ensures forall k: nat :: IsScaled(whole, fraction, scale, k) <==> k == n
  {
    n := Value(whole + keep) * Power10(scale - |keep|);
    hide Value, Power10, IsScaled;
    forall k: nat
      ensures IsScaled(whole, fraction, scale, k) <==> k == n
    {
      ScalesTo(whole, fraction, scale, keep, k);
    }
  }

  lemma ShapeRefused(s: seq<byte>, precision: nat, scale: int)
    requires ShapeOf(s).Malformed? || (ShapeOf(s).Number? && scale < 0)
    ensures IsReading(s, precision, scale, Err(Unparsable))
  {
    if ShapeOf(s).Number? {
      var w := ShapeWritten(s);
      PrintedShape(w);
      assert IsWritten(AsWritten(ShapeOf(s)));
    }
    hide ShapeOf, IsReading, PrintNumber, IsScaled, Power10;
    ShapeJudged(s, precision, scale, Err(Unparsable));
  }

  /** A significant digit beyond the scale: no integer will do. */
  lemma Surplus(s: seq<byte>, precision: nat, scale: nat, i: nat)
    requires ShapeOf(s).Number? && scale <= i < |ShapeOf(s).fraction| && ShapeOf(s).fraction[i] != 48
    ensures IsReading(s, precision, scale, Err(Unparsable))
  {
    var shape := ShapeOf(s);
    var w := ShapeWritten(s);
    PrintedShape(w);
    assert IsWritten(AsWritten(shape));
    hide Value, Power10, IsScaled, ShapeOf, IsReading, PrintNumber;
    forall n: nat
      ensures !IsScaled(shape.whole, shape.fraction, scale, n)
    {
      ScaledLong(shape.whole, shape.fraction, scale, n);
    }
    ShapeJudged(s, precision, scale, Err(Unparsable));
  }

  /** Ten to the precision. */
  method Limit(precision: nat) returns (p: nat)
    ensures p == Power10(precision)
  {
    p := 1;
    for i := 0 to precision
      invariant p == Power10(i)
    {
      p := p * 10;
    }
  }

  method FindExponent(s: seq<byte>) returns (found: bool)
    ensures found == HasExponent(s)
  {
    for i := 0 to |s|
      invariant forall k :: 0 <= k < i ==> s[k] != 101 && s[k] != 69
    {
      if s[i] == 101 || s[i] == 69 {
        return true;
      }
    }
    return false;
  }

  /** The scan of the text: sign, exponent check, point, digits. */
  method ReadShape(s: seq<byte>) returns (r: Shape)
    ensures r == ShapeOf(s)
  {
    hide HasExponent, AllDigits;
    if s == NAN {
      return NotANumber;
    }
    var negative, digits := false, s;
    if s != [] && s[0] == MINUS {
      negative, digits := true, s[1..];
    } else if s != [] && s[0] == PLUS {
      digits := s[1..];
    }
    if digits == [] {
      return Malformed;
    }
    var exponent := FindExponent(digits);
    if exponent {
      return Malformed;
    }
    var dot := IndexOf(digits, DOT);
    var whole, fraction := digits[..dot], if dot < |digits| then digits[dot + 1..] else [];
    if (whole == [] && fraction == []) || !AllDigits(whole) || !AllDigits(fraction) {
      return Malformed;
    }
    return Number(negative, whole, fraction);
  }

  // ---------------------------------------------------------------- round trip

  /** `n` hundredths, thousandths and so on: `k` digits after the point, and at least one before. */
  function WithPoint(sign: Sign, n: nat, k: nat): (w: Written)
    ensures IsWritten(w) && w.sign == sign && |FractionOf(w)| == k && w.whole + FractionOf(w) == Padded(n, k + 1)
  {
    var digits := Padded(n, k + 1);
    var at := |digits| - k;
    Written(sign, digits[..at], if k == 0 then None else Some(digits[at..]))
  }

  lemma PointScaled(sign: Sign, n: nat, k: nat, scale: nat, m: nat)
    requires k <= scale
    ensures var w := WithPoint(sign, n, k); IsScaled(w.whole, FractionOf(w), scale, m) <==> m == n * Power10(scale - k)
  {
    hide Value, Power10, Padded, IsScaled, WithPoint, FractionOf;
    var w := WithPoint(sign, n, k);
    PaddedValue(n, k + 1);
    ScaledShort(w.whole, FractionOf(w), scale, m);
  }

  /** A text in which a number is written is read as that number. */
  lemma ReadAsWritten(w: Written, precision: nat, scale: int, r: Result<Option<int>, Unparsable>)
    requires IsWritten(w) && IsReading(PrintNumber(w), precision, scale, r)
    ensures IsVerdict(w, precision, scale, r)
  {
    PrintedShape(w);
    NotANumberIff(PrintNumber(w));
    hide IsVerdict, PrintNumber, ShapeOf;
  }

  lemma OneCandidate(w: Written, precision: nat, scale: nat, c: nat, r: Result<Option<int>, Unparsable>)
    requires IsWritten(w) && IsVerdict(w, precision, scale, r)
    requires forall m: nat :: IsScaled(w.whole, FractionOf(w), scale, m) <==> m == c
    ensures r == if c < Power10(precision) then Ok(Some(if w.sign.Negative? then -(c as int) else c)) else Err(Unparsable)
  {
    hide IsScaled, Power10;
    assert IsScaled(w.whole, FractionOf(w), scale, c);
    match r
    case Ok(None) =>
    case Ok(Some(x)) =>
      var n: nat := if x < 0 then -x else x;
      assert IsScaled(w.whole, FractionOf(w), scale, n);
    case Err(e) =>
      assert e.Unparsable?;
  }

  /**
   * A written number comes back with its own sign, scaled, or is refused because it needs more
   * digits than the precision allows.
   */
  lemma DecimalRoundTrip(sign: Sign, n: nat, k: nat, precision: nat, scale: nat, r: Result<Option<int>, Unparsable>)
    requires k <= scale && IsReading(PrintNumber(WithPoint(sign, n, k)), precision, scale, r)
    ensures var m := n * Power10(scale - k);
      r == if m < Power10(precision) then Ok(Some(if sign.Negative? then -(m as int) else m)) else Err(Unparsable)
  {
    var w := WithPoint(sign, n, k);
    hide Power10, PrintNumber, IsScaled, WithPoint, IsReading, IsVerdict;
    ReadAsWritten(w, precision, scale, r);
    forall m: nat
      ensures IsScaled(w.whole, FractionOf(w), scale, m) <==> m == n * Power10(scale - k)
    {
      PointScaled(sign, n, k, scale, m);
    }
    OneCandidate(w, precision, scale, n * Power10(scale - k), r);
  }

  /** Nothing is stored for `NaN`, and for nothing else. */
  lemma NothingIffNaN(text: seq<byte>, precision: nat, scale: int, r: Result<Option<int>, Unparsable>)
    requires IsReading(text, precision, scale, r)
    ensures r == Ok(None) <==> text == [78, 97, 78]
  {
    hide IsScaled, PrintNumber;
    if text != [78, 97, 78] && IsNumber(text) {
      var w :| IsWritten(w) && PrintNumber(w) == text;
      assert IsVerdict(w, precision, scale, r);
    }
  }

  /** No exponent is accepted, whatever stands around it. */
  lemma ExponentRefused(text: seq<byte>, i: nat, precision: nat, scale: int, r: Result<Option<int>, Unparsable>)
    requires i < |text| && (text[i] == 101 || text[i] == 69) && IsReading(text, precision, scale, r)
    ensures r == Err(Unparsable)
  {
    hide IsVerdict;
    if w :| IsWritten(w) && PrintNumber(w) == text {
      PrintedBytes(w, i);
    }
  }

  /** Only digits, signs and points are written. */
  lemma PrintedBytes(w: Written, i: nat)
    requires IsWritten(w) && i < |PrintNumber(w)|
    ensures var b := PrintNumber(w)[i]; IsDigit(b) || b == 43 || b == 45 || b == 46
  {
    var sign, body := PrintSign(w.sign), PrintBody(w);
    if i >= |sign| {
      assert PrintNumber(w)[i] == body[i - |sign|];
    }
  }
}
