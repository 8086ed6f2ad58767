/** Dates and timestamps as text (src/values.rs). Times are in microseconds. */
module Temporal {
  import opened Bytes
  import opened Calendar
  import opened Numerals

  const MIN_SUPPORTED_DAY: int := -2440588
  const SECOND: int := 1000000
  const DAY: int := 86400 * SECOND

  /** `Ok(None)` is a value without a representation, such as infinity. */
  type Parsed = Result<Option<int>, Unparsable>

  const BC: seq<byte> := [32, 66, 67]
  const INFINITY: seq<byte> := [105, 110, 102, 105, 110, 105, 116, 121]

  function SplitEra(s: seq<byte>): (r: (seq<byte>, bool)) {
    if |s| >= 3 && s[|s| - 3..] == BC then (TrimRight(s[..|s| - 3]), true) else (s, false)
  }

  function CivilParts(s: seq<byte>): (r: Option<(int, int, int)>) {
    var parts := SplitN(s, MINUS, 3);
    if |parts| < 3 || parts[0] == [] || !AllDigits(parts[0]) || |parts[1]| != 2 || |parts[2]| != 2 then None
    else
      match (ParseI64(parts[0]), ParseI64(parts[1]), ParseI64(parts[2]))
      case (Some(y), Some(m), Some(d)) => if 1 <= m <= 12 && 1 <= d <= 31 then Some((y, m, d)) else None
      case _ => None
  }

  predicate FitsI32(n: int) {
    -0x8000_0000 <= n <= 0x7fff_ffff
  }

  function ParseDate(v: seq<byte>): (r: Parsed) {
    var s := Trim(v);
    if s == INFINITY || s == [MINUS] + INFINITY then Ok(None)
    else
      var (body, bc) := SplitEra(s);
      match CivilParts(body)
      case None => Err(Unparsable)
      case Some((y, m, d)) =>
        var days := DaysFromCivil(if bc then 1 - y else y, m, d);
        if days < MIN_SUPPORTED_DAY && !bc then Err(Unparsable)
        else if FitsI32(days) then Ok(Some(days)) else Err(Unparsable)
  }

  /** A fraction of a second as microseconds, if it has at most six digits and only digits. */
  function FractionMicros(frac: seq<byte>): (r: Option<int>) {
    if |frac| > 6 || !AllDigits(frac) then None else Some(Value(frac) * Power10(6 - |frac|))
  }

  /** Hours, minutes and perhaps seconds, as seconds. */
  function ClockSeconds(hms: seq<byte>): (r: Option<int>) {
    var parts := SplitN(hms, COLON, 3);
    if |parts| < 2 then None
    else
      match (ParseI64(parts[0]), ParseI64(parts[1]), ParseI64(if |parts| == 3 then parts[2] else [48]))
      case (Some(h), Some(m), Some(sec)) =>
        if 0 <= h <= 24 && 0 <= m < 60 && 0 <= sec <= 60 then Some(h * 3600 + m * 60 + sec) else None
      case _ => None
  }

  function ClockMicros(s: seq<byte>): (r: Option<int>) {
    var dot := IndexOf(s, DOT);
    match (ClockSeconds(s[..dot]), FractionMicros(if dot < |s| then s[dot + 1..] else []))
    case (Some(sec), Some(micros)) => Some(sec * SECOND + micros)
    case _ => None
  }

  lemma ShortFits(s: seq<byte>)
    requires AllDigits(s) && |s| <= 6
    ensures Value(s) < 1000000
    ensures s != [] ==> ParseI64(s) == Some(Value(s))
  {
    ValueBound(s);
    PowerTable();
    PowerMonotone(|s|, 6);
    if s != [] {
      assert IsDigit(s[0]);
    }
  }

  lemma PowerTable()
    ensures Power10(2) == 100 && Power10(6) == 1000000
  {
    assert Power10(1) == 10 && Power10(2) == 100 && Power10(3) == 1000;
    assert Power10(4) == 10000 && Power10(5) == 100000;
  }

  lemma {:induction false} PowerMonotone(a: nat, b: nat)
    requires a <= b
    ensures Power10(a) <= Power10(b)
    decreases b
  {
    if a < b {
      PowerMonotone(a, b - 1);
    }
  }

  /** `time_micros`, with its loop that scales the fraction to microseconds. */
  method TimeMicros(s: seq<byte>) returns (r: Option<int>)
    ensures r == ClockMicros(s)
  {
    hide Value, SplitN;
    var dot := IndexOf(s, DOT);
    var hms, frac := s[..dot], if dot < |s| then s[dot + 1..] else [];
    var parts := SplitN(hms, COLON, 3);
    if |parts| < 2 {
      return None;
    }
    var h, m := ParseI64(parts[0]), ParseI64(parts[1]);
    if h.None? || m.None? {
      return None;
    }
    var sec := ParseI64(if |parts| > 2 then parts[2] else [48]);
    if sec.None? || !(0 <= h.value <= 24) || !(0 <= m.value < 60) || !(0 <= sec.value <= 60) {
      return None;
    }
    var micros := 0;
    if frac != [] {
      if |frac| > 6 || !AllDigits(frac) {
        return None;
      }
      ShortFits(frac);
      micros := ParseI64(frac).value;
      for k := |frac| to 6
        invariant micros == Value(frac) * Power10(k - |frac|)
      {
        Times10(Value(frac), k - |frac|);
        micros := micros * 10;
      }
    } else {
      EmptyFraction();
    }
    return Some((h.value * 3600 + m.value * 60 + sec.value) * SECOND + micros);
  }

  lemma EmptyFraction()
    ensures FractionMicros([]) == Some(0)
  {
    assert Value([]) == 0;
  }

  /** Last plus or minus sign of `s` at or after `from`, or -1. */
  function LastSign(s: seq<byte>, from: nat, n: nat): (i: int)
    requires from <= n <= |s|
    ensures i == -1 || (from <= i < n && (s[i] == PLUS || s[i] == MINUS))
    ensures forall k :: (if i == -1 then from else i + 1) <= k < n ==> s[k] != PLUS && s[k] != MINUS
    decreases n
  {
    if n == from then -1
    else if s[n - 1] == PLUS || s[n - 1] == MINUS then n - 1
    else LastSign(s, from, n - 1)
  }

  function OrZero(r: Option<int>): (n: int) {
    if r.Some? then r.value else 0
  }

  /** Hours, then perhaps minutes and seconds; what does not parse there counts as none. */
  function OffsetSeconds(off: seq<byte>): (r: Option<int>) {
    var parts := SplitN(off, COLON, |off| + 1);
    match ParseI64(parts[0])
    case None => None
    case Some(h) =>
      var m := if |parts| > 1 then OrZero(ParseI64(parts[1])) else 0;
      var sec := if |parts| > 2 then OrZero(ParseI64(parts[2])) else 0;
      Some(h * 3600 + m * 60 + sec)
  }

  function SplitOffset(s: seq<byte>): (r: (seq<byte>, Option<int>)) {
    var space := IndexOf(s, SPACE);
    var at := LastSign(s, if space < |s| then space + 1 else 0, |s|);
    if at == -1 then (s, None)
    else
      match OffsetSeconds(s[at + 1..])
      case None => (s, None)
      case Some(n) => (s[..at], Some(Wrap((if s[at] == MINUS then -n else n) * SECOND)))
  }

  /** The sum of date, time and offset, unless a step of it does not fit 64 bits. */
  function Instant(days: int, micros: int, offset: int): (r: Parsed) {
    if FitsI64(days * DAY) && FitsI64(days * DAY + micros) && FitsI64(days * DAY + micros - offset)
    then Ok(Some(days * DAY + micros - offset)) else Err(Unparsable)
  }

  function ParseTimestamp(v: seq<byte>, tz: bool): (r: Parsed) {
    var s := Trim(v);
    if s == INFINITY || s == [MINUS] + INFINITY then Ok(None)
    else
      var (text, bc) := SplitEra(s);
      var (body, offset) := if tz then SplitOffset(text) else (text, None);
      var space := IndexOf(body, SPACE);
      var time := if space < |body| then Trim(body[space + 1..]) else [48, 48, COLON, 48, 48, COLON, 48, 48];
      match (CivilParts(body[..space]), ClockMicros(time))
      case (Some((y, m, d)), Some(micros)) =>
        Instant(DaysFromCivil(if bc then 1 - y else y, m, d), micros, OrZero(offset))
      case _ => Err(Unparsable)
  }
}
