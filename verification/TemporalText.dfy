/** Dates and timestamps as PostgreSQL writes them read back as the day and the instant they name. */
module TemporalText {
  import opened Bytes
  import opened Calendar
  import opened Numerals
  import opened Temporal

  // ---------------------------------------------------------------- writing

  /** Years are counted from 1 in both eras, with at least four digits. */
  function EraYear(y: int): (n: nat) {
    if y >= 1 then y else 1 - y
  }

  function PrintDate(y: int, m: nat, d: nat): (s: seq<byte>) {
    Padded(EraYear(y), 4) + ['-' as int] + (Padded(m, 2) + ['-' as int] + Padded(d, 2))
  }

  function EraMark(y: int): (s: seq<byte>) {
    if y >= 1 then [] else Ascii(" BC")
  }

  /** A time of day, its fraction of a second written with `digits` digits. */
  datatype Clock = Clock(sec: nat, fraction: nat, digits: nat)

  predicate IsClock(c: Clock) {
    c.sec < 86400 && c.digits <= 6 && c.fraction < Power10(c.digits)
  }

  function Micros(c: Clock): (n: nat)
    requires c.digits <= 6
  {
    c.sec * SECOND + c.fraction * Power10(6 - c.digits)
  }

  /** Every time of day can be written, with six digits if need be. */
  lemma EveryTime(micros: nat)
    requires micros < DAY
    ensures var c := Clock(micros / SECOND, micros % SECOND, 6); IsClock(c) && Micros(c) == micros
  {
    PowerTable();
  }

  /** A zero at the end of the fraction may be left out. */
  lemma DropZero(c: Clock)
    requires IsClock(c) && c.digits > 0 && c.fraction % 10 == 0
    ensures var short := c.(fraction := c.fraction / 10, digits := c.digits - 1); IsClock(short) && Micros(short) == Micros(c)
  {
    assert Power10(7 - c.digits) == 10 * Power10(6 - c.digits);
    assert c.fraction == 10 * (c.fraction / 10);
    Times10(c.fraction / 10, 6 - c.digits);
  }

  /** So every time has its shortest form, the one PostgreSQL writes. */
  lemma {:induction false} Shortest(c: Clock) returns (short: Clock)
    requires IsClock(c)
    ensures IsClock(short) && Micros(short) == Micros(c) && short.sec == c.sec
    ensures short.digits == 0 || short.fraction % 10 != 0
    decreases c.digits
  {
    if c.digits > 0 && c.fraction % 10 == 0 {
      DropZero(c);
      short := Shortest(c.(fraction := c.fraction / 10, digits := c.digits - 1));
    } else {
      short := c;
    }
  }

  function PrintFraction(c: Clock): (s: seq<byte>) {
    if c.digits == 0 then [] else ['.' as int] + Padded(c.fraction, c.digits)
  }

  function PrintHms(sec: nat): (s: seq<byte>) {
    Padded(sec / 3600, 2) + [':' as int] + (Padded(sec / 60 % 60, 2) + [':' as int] + Padded(sec % 60, 2))
  }

  function PrintClock(c: Clock): (s: seq<byte>) {
    PrintHms(c.sec) + PrintFraction(c)
  }

  function Magnitude(off: int): (n: nat) {
    if off < 0 then -off else off
  }

  /** An offset in seconds, written as hours, hours and minutes, or all three. */
  predicate OffsetFits(off: int, fields: nat) {
    && 1 <= fields <= 3
    && Magnitude(off) <= 9_000_000_000_000
    && (fields == 1 ==> Magnitude(off) % 3600 == 0)
    && (fields == 2 ==> Magnitude(off) % 60 == 0)
  }

  function PrintOffset(off: int, fields: nat): (s: seq<byte>)
    requires OffsetFits(off, fields)
  {
    var a := Magnitude(off);
    [if off < 0 then '-' as int else '+' as int] + OffsetBody(a, fields)
  }

  function OffsetBody(a: nat, fields: nat): (s: seq<byte>) {
    var h, m, sec := Padded(a / 3600, 2), Padded(a / 60 % 60, 2), Padded(a % 60, 2);
    if fields <= 1 then h
    else if fields == 2 then h + [':' as int] + m
    else h + [':' as int] + (m + [':' as int] + sec)
  }

  // ---------------------------------------------------------------- reading dates

  lemma TwoDigits(n: nat)
    requires n < 100
    ensures |Padded(n, 2)| == 2 && ParseI64(Padded(n, 2)) == Some(n)
  {
    PowerTable();
    PaddedLength(n, 2);
    ParsePadded(n, 2);
  }

  lemma ReadsDate(y: int, m: nat, d: nat)
    requires 1 <= m <= 12 && 1 <= d <= 31 && EraYear(y) <= I64_MAX
    ensures CivilParts(PrintDate(y, m, d)) == Some((EraYear(y), m, d))
  {
    hide Padded, Value, SplitN, ParseI64;
    var ys, ms, ds := Padded(EraYear(y), 4), Padded(m, 2), Padded(d, 2);
    DigitsLack(ys, MINUS);
    DigitsLack(ms, MINUS);
    DigitsLack(ds, MINUS);
    SplitCons(ys, MINUS, ms + [MINUS] + ds, 3);
    SplitCons(ms, MINUS, ds, 2);
    SplitNone(ds, MINUS, 1);
    TwoDigits(m);
    TwoDigits(d);
    ParsePadded(EraYear(y), 4);
    var parts := SplitN(PrintDate(y, m, d), MINUS, 3);
    assert parts == [ys, ms, ds];
  }

  /** Text that begins and ends with something printable stays as it is. */
  lemma TrimNothing(s: seq<byte>)
    requires s != [] && !IsSpace(s[0]) && !IsSpace(s[|s| - 1])
    ensures Trim(s) == s && TrimRight(s) == s
  {
  }

  /** Text that begins and ends with a digit, then perhaps an era mark. */
  lemma ReadsEra(body: seq<byte>, y: int)
    requires body != [] && IsDigit(body[0]) && IsDigit(body[|body| - 1])
    ensures var s := body + EraMark(y);
      && Trim(s) == s && s != INFINITY && s != [MINUS] + INFINITY
      && SplitEra(s) == (body, y < 1)
  {
    var s := body + EraMark(y);
    TrimNothing(s);
    TrimNothing(body);
    assert s[0] == body[0];
    if y < 1 {
      assert s[|s| - 3..] == BC && s[..|s| - 3] == body;
    } else {
      assert s == body;
      if |s| >= 3 {
        assert s[|s| - 3..][2] == s[|s| - 1] && BC[2] == 67;
      }
    }
  }

  lemma DateEnds(y: int, m: nat, d: nat)
    ensures var s := PrintDate(y, m, d); s != [] && IsDigit(s[0]) && IsDigit(s[|s| - 1])
  {
    var s := PrintDate(y, m, d);
    assert s[0] == Padded(EraYear(y), 4)[0];
    var ds := Padded(d, 2);
    assert s[|s| - 1] == ds[|ds| - 1];
  }

  /** The day a date is read as, for every year that a date's text can name. */
  function ReadAs(y: int, m: int, d: int): (n: int)
    requires 1 <= m <= 12
  {
    if I64_MIN + 399 <= MarchYear(y, m) then Wrap(DayNumber(y, m, d))
    else Wrap(DayNumber(y + TWO64, m, d) - (if (MarchYear(y, m) + TWO64) % 400 == 399 then 0 else 1))
  }

  lemma ReadsDays(y: int, m: int, d: int)
    requires 1 <= m <= 12 && 1 <= d <= 31 && EraYear(y) <= I64_MAX
    ensures DaysFromCivil(y, m, d) == ReadAs(y, m, d)
  {
    hide DaysFromCivil, DayNumber, Wrap;
    if I64_MIN + 399 <= MarchYear(y, m) {
      DaysAreCounted(y, m, d);
    } else {
      LowestYears(y, m, d);
    }
  }

  /** A year that does not fit 64 bits is no year. */
  lemma TooFar(y: int, m: nat, d: nat)
    requires EraYear(y) > I64_MAX
    ensures CivilParts(PrintDate(y, m, d)) == None
  {
    hide Padded, Value, SplitN, ParseI64;
    var ys, ms, ds := Padded(EraYear(y), 4), Padded(m, 2), Padded(d, 2);
    DigitsLack(ys, MINUS);
    SplitCons(ys, MINUS, ms + [MINUS] + ds, 3);
    ParsePadded(EraYear(y), 4);
    assert SplitN(PrintDate(y, m, d), MINUS, 3)[0] == ys;
  }

  /**
   * A date reads back as the wrapped Gregorian day count of its year (that of a year 2^64 later
   * for the 400 lowest), and is refused if that does not fit 32 bits or is implausibly early
   * for the common era, or if the year itself does not fit.
   */
  lemma DateRoundTrip(y: int, m: nat, d: nat)
    requires IsDate(y, m, d)
    ensures ParseDate(PrintDate(y, m, d) + EraMark(y)) ==
      if EraYear(y) > I64_MAX then Err(Unparsable)
      else
        var n := ReadAs(y, m, d);
        if -2_147_483_648 <= n <= 2_147_483_647 && (n >= -2_440_588 || y < 1) then Ok(Some(n)) else Err(Unparsable)
  {
    hide PrintDate, CivilParts, SplitEra, DaysFromCivil, ReadAs, Trim;
    DateEnds(y, m, d);
    ReadsEra(PrintDate(y, m, d), y);
    if EraYear(y) > I64_MAX {
      TooFar(y, m, d);
    } else {
      ReadsDate(y, m, d);
      ReadsDays(y, m, d);
    }
  }

  /** No day of the common era is before the supported minimum. */
  lemma GuardIdle(y: int, m: nat, d: nat)
    requires IsDate(y, m, d) && y >= 0
    ensures DayNumber(y, m, d) >= MIN_SUPPORTED_DAY
  {
    hide DayNumber;
    CountInMarchYears(y, m, d);
    MarchDayBound(m, d);
    MarchBound(MarchYear(y, m));
  }

  /**
   * Where the day count fits 64 bits, a date is read exactly, and refused only if its day
   * does not fit 32: the lower bound never refuses one.
   */
  lemma DatesAreExact(y: int, m: nat, d: nat)
    requires IsDate(y, m, d) && FitsI64(DayNumber(y, m, d))
    ensures ParseDate(PrintDate(y, m, d) + EraMark(y)) ==
      if -2_147_483_648 <= DayNumber(y, m, d) <= 2_147_483_647 then Ok(Some(DayNumber(y, m, d))) else Err(Unparsable)
  {
    hide PrintDate, ParseDate, DayNumber;
    FitsInRange(y, m, d);
    DateRoundTrip(y, m, d);
    if y >= 1 {
      GuardIdle(y, m, d);
    }
  }

  /** Beyond that a far year can wrap into the supported range and be read as another day. */
  lemma FarYearWraps()
    ensures var y := 50_505_469_855_535_080;
      && IsDate(y, 1, 1) && !FitsI64(DayNumber(y, 1, 1))
      && ParseDate(PrintDate(y, 1, 1) + EraMark(y)) == Ok(Some(313))
  {
    hide PrintDate, ParseDate, DayNumber, EraMark;
    var y := 50_505_469_855_535_080;
    CountInMarchYears(y, 1, 1);
    assert MarchDay(1, 1) == 306;
    assert MarchStart(y - 1) == 0x1_0000_0000_0000_0000 + 313 + 719468 - 306;
    DateRoundTrip(y, 1, 1);
  }

  // ---------------------------------------------------------------- reading times

  lemma ReadsHms(sec: nat)
    requires sec < 86400
    ensures ClockSeconds(PrintHms(sec)) == Some(sec)
  {
    hide Padded, SplitN, ParseI64;
    var h, m, s := Padded(sec / 3600, 2), Padded(sec / 60 % 60, 2), Padded(sec % 60, 2);
    DigitsLack(h, COLON);
    DigitsLack(m, COLON);
    DigitsLack(s, COLON);
    SplitCons(h, COLON, m + [COLON] + s, 3);
    SplitCons(m, COLON, s, 2);
    SplitNone(s, COLON, 1);
    TwoDigits(sec / 3600);
    TwoDigits(sec / 60 % 60);
    TwoDigits(sec % 60);
    HmsParts(sec);
    assert SplitN(PrintHms(sec), COLON, 3) == [h, m, s];
  }

  lemma HmsLacks(sec: nat, b: byte)
    requires !IsDigit(b) && b != COLON
    ensures Lacks(PrintHms(sec), b)
  {
    hide Padded;
    var h, m, s := Padded(sec / 3600, 2), Padded(sec / 60 % 60, 2), Padded(sec % 60, 2);
    DigitsLack(h, b);
    DigitsLack(m, b);
    DigitsLack(s, b);
  }

  lemma ReadsFraction(c: Clock)
    requires IsClock(c) && c.digits > 0
    ensures var f := Padded(c.fraction, c.digits);
      FractionMicros(f) == Some(c.fraction * Power10(6 - c.digits))
  {
    hide Value, Padded;
    PaddedLength(c.fraction, c.digits);
    PaddedValue(c.fraction, c.digits);
  }

  lemma HmsParts(sec: nat)
    ensures sec / 3600 * 3600 + sec / 60 % 60 * 60 + sec % 60 == sec
    ensures sec < 86400 ==> sec / 3600 < 24
  {
  }

  lemma WholeSeconds(hms: seq<byte>, sec: int)
    requires Lacks(hms, DOT) && ClockSeconds(hms) == Some(sec)
    ensures ClockMicros(hms) == Some(sec * SECOND)
  {
    IndexOfIs(hms, DOT, |hms|);
    EmptyFraction();
    hide ClockSeconds, FractionMicros, IndexOf, Lacks;
    assert hms[..|hms|] == hms;
  }

  /** After a point comes the fraction. */
  lemma WithFraction(hms: seq<byte>, frac: seq<byte>, sec: int, micros: int)
    requires Lacks(hms, DOT) && ClockSeconds(hms) == Some(sec) && FractionMicros(frac) == Some(micros)
    ensures ClockMicros(hms + [DOT] + frac) == Some(sec * SECOND + micros)
  {
    hide ClockSeconds, FractionMicros, IndexOf, Lacks;
    IndexAfter(hms, DOT, frac);
  }

  lemma ReadsClock(c: Clock)
    requires IsClock(c)
    ensures ClockMicros(PrintClock(c)) == Some(Micros(c))
  {
    hide PrintHms, ClockSeconds, Padded, FractionMicros, ClockMicros;
    var hms, f := PrintHms(c.sec), Padded(c.fraction, c.digits);
    ReadsHms(c.sec);
    HmsLacks(c.sec, DOT);
    if c.digits == 0 {
      assert PrintClock(c) == hms;
      assert c.fraction == 0;
      WholeSeconds(hms, c.sec);
    } else {
      hide Power10, Lacks;
      ReadsFraction(c);
      assert PrintClock(c) == hms + [DOT] + f;
      WithFraction(hms, f, c.sec, c.fraction * Power10(6 - c.digits));
    }
  }

  // ---------------------------------------------------------------- reading offsets

  lemma OffsetLacks(a: nat, fields: nat, b: byte)
    requires !IsDigit(b) && b != COLON
    ensures Lacks(OffsetBody(a, fields), b)
  {
    hide Padded;
    var h, m, s := Padded(a / 3600, 2), Padded(a / 60 % 60, 2), Padded(a % 60, 2);
    DigitsLack(h, b);
    DigitsLack(m, b);
    DigitsLack(s, b);
  }

  lemma ReadsOffsetBody(off: int, fields: nat)
    requires OffsetFits(off, fields)
    ensures OffsetSeconds(OffsetBody(Magnitude(off), fields)) == Some(Magnitude(off))
  {
    var a := Magnitude(off);
    hide Padded, SplitN, ParseI64, Value;
    var h, m, sec := Padded(a / 3600, 2), Padded(a / 60 % 60, 2), Padded(a % 60, 2);
    DigitsLack(h, COLON);
    DigitsLack(m, COLON);
    DigitsLack(sec, COLON);
    ParsePadded(a / 3600, 2);
    TwoDigits(a / 60 % 60);
    TwoDigits(a % 60);
    HmsParts(a);
    var s := OffsetBody(a, fields);
    if fields == 1 {
      SplitNone(h, COLON, |s| + 1);
    } else if fields == 2 {
      SplitCons(h, COLON, m, |s| + 1);
      SplitNone(m, COLON, |s|);
      assert SplitN(s, COLON, |s| + 1) == [h, m];
    } else {
      SplitCons(h, COLON, m + [COLON] + sec, |s| + 1);
      SplitCons(m, COLON, sec, |s|);
      SplitNone(sec, COLON, |s| - 1);
      assert SplitN(s, COLON, |s| + 1) == [h, m, sec];
    }
  }

  /** The sign in front of an offset is the last one, and the time before it has none. */
  lemma FindsSign(date: seq<byte>, clock: seq<byte>, sign: byte, off: seq<byte>)
    requires Lacks(date, SPACE) && (sign == PLUS || sign == MINUS)
    requires Lacks(off, PLUS) && Lacks(off, MINUS)
    ensures var body := date + [SPACE] + clock;
      var s := body + ([sign] + off);
      && IndexOf(s, SPACE) == |date| < |s|
      && LastSign(s, |date| + 1, |s|) == |body|
      && s[..|body|] == body && s[|body|] == sign && s[|body| + 1..] == off
  {
    var body := date + [SPACE] + clock;
    var s := body + ([sign] + off);
    assert s == date + [SPACE] + (clock + ([sign] + off));
    IndexAfter(date, SPACE, clock + ([sign] + off));
    assert s[|body|] == sign;
    forall k | |body| < k < |s|
      ensures s[k] != PLUS && s[k] != MINUS
    {
      assert s[k] == off[k - |body| - 1];
    }
  }

  lemma SplitsAt(s: seq<byte>, space: nat, at: nat, n: int)
    requires IndexOf(s, SPACE) == space < |s| && space + 1 <= |s|
    requires LastSign(s, space + 1, |s|) == at && OffsetSeconds(s[at + 1..]) == Some(n)
    ensures SplitOffset(s) == (s[..at], Some(Wrap((if s[at] == MINUS then -n else n) * SECOND)))
  {
    hide OffsetSeconds, Wrap;
  }

  lemma ReadsOffset(date: seq<byte>, clock: seq<byte>, off: int, fields: nat)
    requires Lacks(date, SPACE) && OffsetFits(off, fields)
    ensures var body := date + [SPACE] + clock;
      SplitOffset(body + PrintOffset(off, fields)) == (body, Some(off * SECOND))
  {
    hide OffsetBody, OffsetSeconds, LastSign, IndexOf, Wrap, SplitOffset, Lacks;
    var a := Magnitude(off);
    var sign := if off < 0 then MINUS else PLUS;
    var body := date + [SPACE] + clock;
    OffsetLacks(a, fields, PLUS);
    OffsetLacks(a, fields, MINUS);
    FindsSign(date, clock, sign, OffsetBody(a, fields));
    ReadsOffsetBody(off, fields);
    var s := body + PrintOffset(off, fields);
    assert s == body + ([sign] + OffsetBody(a, fields));
    SplitsAt(s, |date|, |body|, a);
    SignedOffset(off);
  }

  lemma SignedOffset(off: int)
    requires Magnitude(off) <= 9_000_000_000_000
    ensures Wrap((if off < 0 then -(Magnitude(off) as int) else Magnitude(off)) * SECOND) == off * SECOND
  {
  }

  // ---------------------------------------------------------------- timestamps

  /** A UTC offset in seconds and how many of its fields are written. */
  datatype Zone = Zone(off: int, fields: nat)

  predicate IsZone(zone: Option<Zone>) {
    zone.Some? ==> OffsetFits(zone.value.off, zone.value.fields)
  }

  function OffsetOf(zone: Option<Zone>): (off: int) {
    if zone.Some? then zone.value.off else 0
  }

  function PrintZone(zone: Option<Zone>): (s: seq<byte>)
    requires IsZone(zone)
  {
    if zone.Some? then PrintOffset(zone.value.off, zone.value.fields) else []
  }

  function PrintTimestamp(y: int, m: nat, d: nat, c: Clock, zone: Option<Zone>): (s: seq<byte>)
    requires IsZone(zone)
  {
    PrintDate(y, m, d) + [' ' as int] + PrintClock(c) + PrintZone(zone) + EraMark(y)
  }

  lemma DateLacks(y: int, m: nat, d: nat)
    ensures Lacks(PrintDate(y, m, d), SPACE)
  {
    hide Padded;
    DigitsLack(Padded(EraYear(y), 4), SPACE);
    DigitsLack(Padded(m, 2), SPACE);
    DigitsLack(Padded(d, 2), SPACE);
  }

  /** A printed time begins and ends with a digit. */
  lemma ClockEnds(c: Clock)
    ensures var s := PrintClock(c); s != [] && IsDigit(s[0]) && IsDigit(s[|s| - 1])
  {
    hide Digits;
    var s := PrintClock(c);
    assert s[0] == Padded(c.sec / 3600, 2)[0];
    if c.digits == 0 {
      var z := Padded(c.sec % 60, 2);
      assert s[|s| - 1] == z[|z| - 1];
    } else {
      var z := Padded(c.fraction, c.digits);
      assert s[|s| - 1] == z[|z| - 1];
    }
  }

  lemma OffsetEnds(off: int, fields: nat)
    requires OffsetFits(off, fields)
    ensures var s := PrintOffset(off, fields); s != [] && IsDigit(s[|s| - 1])
  {
    hide Padded;
    var a := Magnitude(off);
    var s := PrintOffset(off, fields);
    var z := if fields == 1 then Padded(a / 3600, 2) else if fields == 2 then Padded(a / 60 % 60, 2) else Padded(a % 60, 2);
    assert s[|s| - 1] == z[|z| - 1];
  }

  /** Without its era mark a timestamp begins and ends with a digit. */
  lemma TimestampEnds(date: seq<byte>, clock: seq<byte>, zone: Option<Zone>)
    requires IsZone(zone) && date != [] && IsDigit(date[0]) && clock != [] && IsDigit(clock[|clock| - 1])
    ensures var s := date + [SPACE] + clock + PrintZone(zone); s != [] && IsDigit(s[0]) && IsDigit(s[|s| - 1])
  {
    hide PrintOffset, OffsetFits;
    if zone.Some? {
      OffsetEnds(zone.value.off, zone.value.fields);
    }
  }

  lemma ReadsZone(date: seq<byte>, clock: seq<byte>, zone: Option<Zone>)
    requires IsZone(zone) && Lacks(date, SPACE)
    ensures var body := date + [SPACE] + clock;
      var text := body + PrintZone(zone);
      (if zone.Some? then SplitOffset(text) else (text, None)) ==
        (body, if zone.Some? then Some(OffsetOf(zone) * SECOND) else None)
  {
    hide SplitOffset, PrintOffset, OffsetFits, Lacks;
    var body := date + [SPACE] + clock;
    if zone.Some? {
      ReadsOffset(date, clock, zone.value.off, zone.value.fields);
    } else {
      assert body + [] == body;
    }
  }

  lemma ReadsBody(date: seq<byte>, clock: seq<byte>)
    requires Lacks(date, SPACE) && clock != [] && IsDigit(clock[0]) && IsDigit(clock[|clock| - 1])
    ensures var body := date + [SPACE] + clock;
      var space := IndexOf(body, SPACE);
      space < |body| && body[..space] == date && Trim(body[space + 1..]) == clock
  {
    IndexAfter(date, SPACE, clock);
    TrimNothing(clock);
  }

  /** What is written is read: the date's wrapped day count, the time and the offset. */
  lemma ReadsTimestamp(y: int, m: nat, d: nat, c: Clock, zone: Option<Zone>)
    requires IsDate(y, m, d) && EraYear(y) <= I64_MAX && IsClock(c) && IsZone(zone)
    ensures ParseTimestamp(PrintTimestamp(y, m, d, c, zone), zone.Some?) ==
      Instant(ReadAs(y, m, d), Micros(c), OffsetOf(zone) * SECOND)
  {
    hide PrintDate, PrintClock, PrintZone, CivilParts, ClockMicros, SplitEra, SplitOffset, DaysFromCivil, ReadAs;
    hide Trim, Micros, IsClock, Instant, Lacks, IndexOf, EraMark, IsZone;
    var date, clock := PrintDate(y, m, d), PrintClock(c);
    DateEnds(y, m, d);
    DateLacks(y, m, d);
    ClockEnds(c);
    TimestampEnds(date, clock, zone);
    var text := date + [SPACE] + clock + PrintZone(zone);
    ReadsEra(text, y);
    ReadsZone(date, clock, zone);
    ReadsBody(date, clock);
    ReadsDate(y, m, d);
    ReadsClock(c);
    ReadsDays(y, m, d);
  }

  /** A day near the epoch is in a year near it. */
  lemma YearNear(y: int, m: nat, d: nat)
    requires IsDate(y, m, d) && -1_000_000_000 <= DayNumber(y, m, d) <= 1_000_000_000
    ensures -10_000_000 <= y <= 10_000_000
  {
    hide DayNumber;
    CountInMarchYears(y, m, d);
    MarchDayBound(m, d);
    var z := MarchYear(y, m);
    assert if z >= 0 then MarchStart(z) >= 365 * z else MarchStart(z) <= 365 * z;
  }

  /**
   * For every instant, every UTC offset and every way of writing them, the local date and
   * time read back as that instant, provided the local day and time fit 64 bits.
   */
  lemma TimestampRoundTrip(t: int, y: int, m: nat, d: nat, c: Clock, zone: Option<Zone>)
    requires FitsI64(t) && IsZone(zone) && IsClock(c) && IsDate(y, m, d)
    requires DayNumber(y, m, d) * DAY + Micros(c) == t + OffsetOf(zone) * SECOND
    ensures ParseTimestamp(PrintTimestamp(y, m, d, c, zone), zone.Some?) ==
      if FitsI64(DayNumber(y, m, d) * DAY) && FitsI64(t + OffsetOf(zone) * SECOND) then Ok(Some(t)) else Err(Unparsable)
  {
    hide PrintTimestamp, ParseTimestamp, DayNumber, Micros, Wrap, MonthLength;
    var n := DayNumber(y, m, d);
    ClockBound(c);
    DayNear(t, n, Micros(c), OffsetOf(zone));
    YearNear(y, m, d);
    ReadsTimestamp(y, m, d, c, zone);
    assert Wrap(n) == n;
  }

  lemma DayNear(t: int, n: int, micros: int, off: int)
    requires FitsI64(t) && 0 <= micros < DAY && -9_000_000_000_000 <= off <= 9_000_000_000_000
    requires n * DAY + micros == t + off * SECOND
    ensures -1_000_000_000 <= n <= 1_000_000_000
  {
  }

  /** However many digits of fraction are written, it is the same instant. */
  lemma WidthsAgree(y: int, m: nat, d: nat, c: Clock, zone: Option<Zone>) returns (short: Clock)
    requires IsDate(y, m, d) && EraYear(y) <= I64_MAX && IsClock(c) && IsZone(zone)
    ensures IsClock(short) && (short.digits == 0 || short.fraction % 10 != 0)
    ensures ParseTimestamp(PrintTimestamp(y, m, d, short, zone), zone.Some?) ==
      ParseTimestamp(PrintTimestamp(y, m, d, c, zone), zone.Some?)
  {
    hide IsDate, IsZone, ParseTimestamp, PrintTimestamp;
    short := Shortest(c);
    ReadsTimestamp(y, m, d, c, zone);
    ReadsTimestamp(y, m, d, short, zone);
  }

  lemma ClockBound(c: Clock)
    requires IsClock(c)
    ensures 0 <= Micros(c) < DAY
  {
    FractionBound(c.fraction, c.digits);
  }

  lemma {:induction false} FractionBound(f: nat, k: nat)
    requires k <= 6 && f < Power10(k)
    ensures f * Power10(6 - k) < SECOND
    decreases 6 - k
  {
    if k == 6 {
      PowerTable();
    } else {
      assert Power10(k + 1) == 10 * Power10(k);
      FractionBound(10 * f, k + 1);
      Times10(f, 5 - k);
      assert 10 * f * Power10(5 - k) == f * Power10(5 - k) * 10;
    }
  }

  /** Every instant has such a date and time at every offset. */
  lemma EveryInstant(t: int, zone: Option<Zone>) returns (y: int, m: int, d: int, c: Clock)
    ensures IsDate(y, m, d) && IsClock(c)
    ensures DayNumber(y, m, d) * DAY + Micros(c) == t + OffsetOf(zone) * SECOND
  {
    hide DayNumber, IsDate, IsClock, Micros;
    var local := t + OffsetOf(zone) * SECOND;
    y, m, d := Surjective(local / DAY);
    EveryTime(local % DAY);
    c := Clock(local % DAY / SECOND, local % DAY % SECOND, 6);
  }
}
