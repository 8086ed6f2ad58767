/** What the date and time parsers accept at their edges, and what they refuse. */
module TemporalEdges {
  import opened Bytes
  import opened Calendar
  import opened Numerals
  import opened Temporal
  import opened TemporalText

  // ---------------------------------------------------------------- infinity

  predicate IsInfinity(s: seq<byte>) {
    s == Ascii("infinity") || s == Ascii("-infinity")
  }

  lemma InfinityBytes(s: seq<byte>)
    ensures IsInfinity(s) <==> s == INFINITY || s == [MINUS] + INFINITY
    ensures IsInfinity(s) ==> !EndsSpaced(s)
  {
    assert Ascii("infinity") == INFINITY;
    assert Ascii("-infinity") == [MINUS] + INFINITY;
    if IsInfinity(s) {
      assert s[..1][0] == s[0] && s[|s| - 1..][0] == s[|s| - 1];
    }
  }

  /** Nothing is stored for either infinity, blanks around it or not, and for nothing else. */
  lemma NothingIffInfinity(pre: seq<byte>, s: seq<byte>, post: seq<byte>, tz: bool)
    requires AreSpaces(pre) && AreSpaces(post) && !EndsSpaced(s)
    ensures ParseDate(pre + (s + post)) == Ok(None) <==> IsInfinity(s)
    ensures ParseTimestamp(pre + (s + post), tz) == Ok(None) <==> IsInfinity(s)
  {
    TrimSpaces(pre, s, post);
    InfinityBytes(s);
    hide Trim, IsInfinity, SplitEra, CivilParts, SplitOffset, ClockMicros, DaysFromCivil;
  }

  // ---------------------------------------------------------------- dates

  /** Digits, then two numbers of two digits, with dashes between. */
  function PrintParts(year: seq<byte>, m: nat, d: nat): (s: seq<byte>) {
    year + ['-' as int] + (Padded(m, 2) + ['-' as int] + Padded(d, 2))
  }

  /** Exactly the months 1 to 12 and the days 1 to 31 are accepted, of any year that fits. */
  lemma PartsIff(year: seq<byte>, m: nat, d: nat)
    requires year != [] && AllDigits(year) && m < 100 && d < 100
    ensures CivilParts(PrintParts(year, m, d)) ==
      if Value(year) <= I64_MAX && 1 <= m <= 12 && 1 <= d <= 31 then Some((Value(year), m, d)) else None
  {
    hide Padded, Value, SplitN, ParseI64;
    var ms, ds := Padded(m, 2), Padded(d, 2);
    DigitsLack(year, MINUS);
    DigitsLack(ms, MINUS);
    DigitsLack(ds, MINUS);
    SplitCons(year, MINUS, ms + [MINUS] + ds, 3);
    SplitCons(ms, MINUS, ds, 2);
    SplitNone(ds, MINUS, 1);
    TwoDigits(m);
    TwoDigits(d);
    ParseSigned(Unsigned, year);
    assert PrintSign(Unsigned) + year == year;
    assert SplitN(PrintParts(year, m, d), MINUS, 3) == [year, ms, ds];
  }

  /** A year has no sign, and month and day no other width than two. */
  lemma PartsOnly(s: seq<byte>) returns (year: seq<byte>, month: seq<byte>, day: seq<byte>)
    requires CivilParts(s).Some?
    ensures year != [] && AllDigits(year) && |month| == |day| == 2
    ensures s == year + ['-' as int] + (month + ['-' as int] + day)
  {
    hide Value, ParseI64;
    var i := IndexOf(s, MINUS);
    var rest := s[i + 1..];
    var j := IndexOf(rest, MINUS);
    year, month, day := s[..i], rest[..j], rest[j + 1..];
    assert SplitN(s, MINUS, 3) == [year] + SplitN(rest, MINUS, 2);
    assert SplitN(rest, MINUS, 2) == [month] + SplitN(day, MINUS, 1);
    assert rest == month + [MINUS] + day && s == year + [MINUS] + rest;
  }

  // ---------------------------------------------------------------- times

  function PrintFields(h: nat, m: nat, sec: nat): (s: seq<byte>) {
    Padded(h, 2) + [':' as int] + (Padded(m, 2) + [':' as int] + Padded(sec, 2))
  }

  /** Hours to 24, minutes to 59 and seconds to 60 are accepted, and no others. */
  lemma FieldsIff(h: nat, m: nat, sec: nat)
    requires h < 100 && m < 100 && sec < 100
    ensures ClockSeconds(PrintFields(h, m, sec)) ==
      if h <= 24 && m <= 59 && sec <= 60 then Some(h * 3600 + m * 60 + sec) else None
    ensures ClockSeconds(Padded(h, 2) + [':' as int] + Padded(m, 2)) ==
      if h <= 24 && m <= 59 then Some(h * 3600 + m * 60) else None
  {
    hide Padded, SplitN, ParseI64;
    var hs, ms, ss := Padded(h, 2), Padded(m, 2), Padded(sec, 2);
    DigitsLack(hs, COLON);
    DigitsLack(ms, COLON);
    DigitsLack(ss, COLON);
    SplitCons(hs, COLON, ms + [COLON] + ss, 3);
    SplitCons(ms, COLON, ss, 2);
    SplitNone(ss, COLON, 1);
    SplitCons(hs, COLON, ms, 3);
    SplitNone(ms, COLON, 2);
    TwoDigits(h);
    TwoDigits(m);
    TwoDigits(sec);
    ZeroReads();
    assert SplitN(PrintFields(h, m, sec), COLON, 3) == [hs, ms, ss];
    assert SplitN(hs + [COLON] + ms, COLON, 3) == [hs, ms];
  }

  lemma ZeroReads()
    ensures ParseI64([48]) == Some(0)
  {
    assert [48][..0] == [];
    assert Value([48]) == 0;
  }

  /** More than six digits of fraction, or anything else there, is refused and not rounded. */
  lemma FractionRefused(hms: seq<byte>, frac: seq<byte>)
    requires Lacks(hms, DOT) && (|frac| > 6 || !AllDigits(frac))
    ensures ClockMicros(hms + ['.' as int] + frac) == None
  {
    hide ClockSeconds;
    IndexAfter(hms, DOT, frac);
  }

  // ---------------------------------------------------------------- dates as timestamps

  lemma DateText(y: int, m: nat, d: nat)
    requires m < 100 && d < 100
    ensures var s := PrintDate(y, m, d);
      var front := Padded(EraYear(y), 4) + [MINUS] + Padded(m, 2);
      && s == front + [MINUS] + Padded(d, 2) && Lacks(Padded(d, 2), PLUS) && Lacks(Padded(d, 2), MINUS)
      && Lacks(s, SPACE) && IndexOf(s, SPACE) == |s|
  {
    hide Padded;
    DigitsLack(Padded(d, 2), PLUS);
    DigitsLack(Padded(d, 2), MINUS);
    DateLacks(y, m, d);
    IndexOfIs(PrintDate(y, m, d), SPACE, |PrintDate(y, m, d)|);
  }

  lemma LastDash(front: seq<byte>, day: seq<byte>)
    requires Lacks(day, PLUS) && Lacks(day, MINUS)
    ensures LastSign(front + [MINUS] + day, 0, |front + [MINUS] + day|) == |front|
  {
    var s := front + [MINUS] + day;
    assert s[|front|] == MINUS;
    forall k | |front| < k < |s|
      ensures s[k] != PLUS && s[k] != MINUS
    {
      assert s[k] == day[k - |front| - 1];
    }
  }

  lemma DayAsOffset(d: nat)
    requires d < 100
    ensures OffsetSeconds(Padded(d, 2)) == Some(d * 3600)
  {
    hide Padded, ParseI64;
    var ds := Padded(d, 2);
    DigitsLack(ds, COLON);
    SplitNone(ds, COLON, |ds| + 1);
    TwoDigits(d);
  }

  /** What is left of a date once its day was taken for an offset is no date. */
  lemma NoDayNoDate(y: int, m: nat)
    requires m < 100
    ensures CivilParts(Padded(EraYear(y), 4) + [MINUS] + Padded(m, 2)) == None
  {
    hide Padded, ParseI64;
    var ys, ms := Padded(EraYear(y), 4), Padded(m, 2);
    DigitsLack(ys, MINUS);
    DigitsLack(ms, MINUS);
    SplitCons(ys, MINUS, ms, 3);
    SplitNone(ms, MINUS, 2);
    assert SplitN(ys + [MINUS] + ms, MINUS, 3) == [ys, ms];
  }

  /** What becomes of a timestamp once its era mark is off. */
  function AfterEra(text: seq<byte>, bc: bool, tz: bool): (r: Parsed) {
    var (body, offset) := if tz then SplitOffset(text) else (text, None);
    var space := IndexOf(body, SPACE);
    var time := if space < |body| then Trim(body[space + 1..]) else [48, 48, COLON, 48, 48, COLON, 48, 48];
    match (CivilParts(body[..space]), ClockMicros(time))
    case (Some((y, m, d)), Some(micros)) => Instant(DaysFromCivil(if bc then 1 - y else y, m, d), micros, OrZero(offset))
    case _ => Err(Unparsable)
  }

  lemma EraOff(text: seq<byte>, y: int, tz: bool)
    requires text != [] && IsDigit(text[0]) && IsDigit(text[|text| - 1])
    ensures ParseTimestamp(text + EraMark(y), tz) == AfterEra(text, y < 1, tz)
  {
    hide Trim, SplitEra, SplitOffset, CivilParts, ClockMicros, DaysFromCivil, EraMark, Instant, IndexOf;
    ReadsEra(text, y);
  }

  lemma DateBounds(y: int, m: nat, d: nat)
    requires IsDate(y, m, d)
    ensures 1 <= m <= 12 && 1 <= d <= 31
  {
  }

  lemma MidnightOf(y: int, m: nat, d: nat)
    requires 1 <= m <= 12 && 1 <= d <= 31 && EraYear(y) <= I64_MAX
    ensures AfterEra(PrintDate(y, m, d), y < 1, false) == Instant(ReadAs(y, m, d), 0, 0)
  {
    hide PrintDate, CivilParts, ClockMicros, DaysFromCivil, ReadAs, Trim, Padded, Instant, IndexOf, Lacks;
    var s := PrintDate(y, m, d);
    DateText(y, m, d);
    assert s[..|s|] == s;
    ReadsDate(y, m, d);
    ReadsDays(y, m, d);
    Midnight();
  }

  lemma OffsetTaken(front: seq<byte>, day: seq<byte>, n: int)
    requires IndexOf(front + [MINUS] + day, SPACE) == |front + [MINUS] + day|
    requires Lacks(day, PLUS) && Lacks(day, MINUS)
    requires OffsetSeconds(day) == Some(n)
    ensures SplitOffset(front + [MINUS] + day).0 == front
  {
    hide OffsetSeconds, LastSign, Lacks, IndexOf, Wrap;
    var s := front + [MINUS] + day;
    LastDash(front, day);
    assert s[|front|..][1..] == day && s[|front| + 1..] == day && s[..|front|] == front;
  }

  lemma NoCivilNoInstant(text: seq<byte>, front: seq<byte>, bc: bool)
    requires SplitOffset(text).0 == front && IndexOf(front, SPACE) == |front| && CivilParts(front) == None
    ensures AfterEra(text, bc, true) == Err(Unparsable)
  {
    hide CivilParts, ClockMicros, DaysFromCivil, Trim, Instant, IndexOf, SplitOffset;
    assert front[..|front|] == front;
  }

  lemma DayTaken(y: int, m: nat, d: nat)
    requires m < 100 && d < 100
    ensures AfterEra(PrintDate(y, m, d), y < 1, true) == Err(Unparsable)
  {
    hide *;
    var s := PrintDate(y, m, d);
    var front := Padded(EraYear(y), 4) + [MINUS] + Padded(m, 2);
    DateText(y, m, d);
    DayAsOffset(d);
    OffsetTaken(front, Padded(d, 2), d * 3600);
    assert s[..|front|] == front;
    FrontLacks(s, |front|);
    NoDayNoDate(y, m);
    NoCivilNoInstant(s, front, y < 1);
  }

  /**
   * A date alone is midnight of that day where no offset is expected. Where one is, its day is
   * taken for the offset, and the rest is refused.
   */
  lemma DateAlone(y: int, m: nat, d: nat, tz: bool)
    requires IsDate(y, m, d) && EraYear(y) <= I64_MAX
    ensures ParseTimestamp(PrintDate(y, m, d) + EraMark(y), tz) ==
      if tz then Err(Unparsable) else Instant(ReadAs(y, m, d), 0, 0)
  {
    DateBounds(y, m, d);
    hide AfterEra, ParseTimestamp, PrintDate, ReadAs, Instant, EraMark, MonthLength, IsDate;
    DateEnds(y, m, d);
    EraOff(PrintDate(y, m, d), y, tz);
    if tz {
      DayTaken(y, m, d);
    } else {
      MidnightOf(y, m, d);
    }
  }

  lemma FrontLacks(s: seq<byte>, k: nat)
    requires Lacks(s, SPACE) && k <= |s|
    ensures IndexOf(s[..k], SPACE) == k && s[..k][..k] == s[..k]
  {
    IndexOfIs(s[..k], SPACE, k);
  }

  lemma Midnight()
    ensures ClockMicros([48, 48, COLON, 48, 48, COLON, 48, 48]) == Some(0)
    ensures OrZero(None) == 0
  {
    var s := [48, 48, COLON, 48, 48, COLON, 48, 48];
    var c := Clock(0, 0, 0);
    assert Digits(0) == [48] && Zeros(1) == [48] && Padded(0, 2) == [48, 48];
    assert Power10(0) == 1;
    assert PrintClock(c) == s;
    ReadsClock(c);
  }

  lemma ClockThenZone(c: Clock, zone: Zone)
    requires IsZone(Some(zone))
    ensures var s := PrintClock(c) + PrintZone(Some(zone)); s != [] && IsDigit(s[0]) && IsDigit(s[|s| - 1])
  {
    hide PrintClock, PrintOffset, OffsetFits;
    ClockEnds(c);
    OffsetEnds(zone.off, zone.fields);
  }

  lemma NoClockNoInstant(date: seq<byte>, clock: seq<byte>, bc: bool)
    requires Lacks(date, SPACE) && clock != [] && IsDigit(clock[0]) && IsDigit(clock[|clock| - 1])
    requires ClockMicros(clock) == None
    ensures AfterEra(date + [SPACE] + clock, bc, false) == Err(Unparsable)
  {
    ReadsBody(date, clock);
    hide CivilParts, ClockMicros, DaysFromCivil, Trim, Instant, IndexOf, Lacks;
  }

  /**
   * A time without a sign has no offset, whatever the date in front of it looks like: it is
   * read as UTC, just as where no offset is expected.
   */
  lemma WithoutOffset(date: seq<byte>, clock: seq<byte>, bc: bool)
    requires Lacks(date, SPACE) && Lacks(clock, PLUS) && Lacks(clock, MINUS)
    ensures AfterEra(date + [SPACE] + clock, bc, true) == AfterEra(date + [SPACE] + clock, bc, false)
  {
    hide CivilParts, ClockMicros, DaysFromCivil, Trim, Instant, OffsetSeconds;
    var s := date + [SPACE] + clock;
    IndexOfIs(s, SPACE, |date|);
    assert forall k :: |date| < k < |s| ==> s[k] == clock[k - |date| - 1];
    assert LastSign(s, |date| + 1, |s|) == -1;
  }

  /** A timestamp with time zone that was written without an offset is one in UTC. */
  lemma DefaultsToUtc(y: int, m: nat, d: nat, c: Clock)
    requires IsDate(y, m, d) && IsClock(c)
    ensures ParseTimestamp(PrintTimestamp(y, m, d, c, None), true) == ParseTimestamp(PrintTimestamp(y, m, d, c, None), false)
  {
    assert IsZone(None);
    hide *;
    var date, clock := PrintDate(y, m, d), PrintClock(c);
    var text := date + [SPACE] + clock;
    Written(y, m, d, c, None);
    DateEnds(y, m, d);
    DateLacks(y, m, d);
    ClockEnds(c);
    ClockLacks(c);
    EraOff(text, y, true);
    EraOff(text, y, false);
    WithoutOffset(date, clock, y < 1);
  }

  lemma Written(y: int, m: nat, d: nat, c: Clock, zone: Option<Zone>)
    requires IsZone(zone)
    ensures PrintTimestamp(y, m, d, c, zone) == PrintDate(y, m, d) + [SPACE] + (PrintClock(c) + PrintZone(zone)) + EraMark(y)
    ensures zone.None? ==> PrintClock(c) + PrintZone(zone) == PrintClock(c)
  {
    hide PrintDate, PrintClock, PrintOffset, EraMark, OffsetFits;
  }

  lemma ClockLacks(c: Clock)
    requires IsClock(c)
    ensures Lacks(PrintClock(c), PLUS) && Lacks(PrintClock(c), MINUS)
  {
    hide PrintHms, Padded;
    HmsLacks(c.sec, PLUS);
    HmsLacks(c.sec, MINUS);
    if c.digits > 0 {
      DigitsLack(Padded(c.fraction, c.digits), PLUS);
      DigitsLack(Padded(c.fraction, c.digits), MINUS);
    }
  }

  /** A timestamp without time zone that carries an offset is refused, not shifted. */
  lemma NaiveOffsetRefused(y: int, m: nat, d: nat, c: Clock, zone: Zone)
    requires IsDate(y, m, d) && IsClock(c) && IsZone(Some(zone))
    ensures ParseTimestamp(PrintTimestamp(y, m, d, c, Some(zone)), false) == Err(Unparsable)
  {
    hide *;
    var date, clock := PrintDate(y, m, d), PrintClock(c) + PrintZone(Some(zone));
    var text := date + [SPACE] + clock;
    Written(y, m, d, c, Some(zone));
    DateEnds(y, m, d);
    DateLacks(y, m, d);
    ClockThenZone(c, zone);
    EraOff(text, y, false);
    OffsetSpoilsClock(c, zone);
    NoClockNoInstant(date, clock, y < 1);
  }

  lemma FractionSpoiled(hms: seq<byte>, f: seq<byte>, off: seq<byte>)
    requires Lacks(hms, DOT) && off != [] && !IsDigit(off[0])
    ensures ClockMicros(hms + ['.' as int] + (f + off)) == None
  {
    hide ClockMicros;
    assert (f + off)[|f|] == off[0];
    FractionRefused(hms, f + off);
  }

  lemma OffsetSign(zone: Zone)
    requires IsZone(Some(zone))
    ensures var off := PrintOffset(zone.off, zone.fields); off != [] && !IsDigit(off[0])
  {
  }

  lemma OffsetSpoilsClock(c: Clock, zone: Zone)
    requires IsClock(c) && IsZone(Some(zone))
    ensures ClockMicros(PrintClock(c) + PrintZone(Some(zone))) == None
  {
    hide OffsetFits, PrintOffset, PrintHms, Padded, ClockMicros, Lacks, Power10;
    var off := PrintOffset(zone.off, zone.fields);
    OffsetSign(zone);
    HmsLacks(c.sec, DOT);
    if c.digits > 0 {
      var f := Padded(c.fraction, c.digits);
      assert PrintClock(c) + off == PrintHms(c.sec) + ['.' as int] + (f + off);
      FractionSpoiled(PrintHms(c.sec), f, off);
    } else {
      assert PrintClock(c) + off == PrintHms(c.sec) + off;
      OffsetDots(zone);
      SecondsSpoiled(c.sec, off);
    }
  }

  lemma SecondsSpoiled(sec: nat, off: seq<byte>)
    requires off != [] && !IsDigit(off[0]) && Lacks(off, DOT)
    ensures ClockMicros(PrintHms(sec) + off) == None
  {
    hide PrintHms, ClockSeconds, FractionMicros;
    HmsLacks(sec, DOT);
    var s := PrintHms(sec) + off;
    IndexOfIs(s, DOT, |s|);
    assert s[..|s|] == s;
    SignSpoilsSeconds(sec, off);
  }

  lemma OffsetDots(zone: Zone)
    requires IsZone(Some(zone))
    ensures Lacks(PrintOffset(zone.off, zone.fields), DOT)
  {
    hide OffsetBody;
    OffsetLacks(Magnitude(zone.off), zone.fields, DOT);
  }

  /** Seconds with a sign inside are no number. */
  lemma SignSpoilsSeconds(sec: nat, off: seq<byte>)
    requires off != [] && !IsDigit(off[0])
    ensures ClockSeconds(PrintHms(sec) + off) == None
  {
    hide Padded, SplitN;
    var h, m, s := Padded(sec / 3600, 2), Padded(sec / 60 % 60, 2), Padded(sec % 60, 2);
    DigitsLack(h, COLON);
    DigitsLack(m, COLON);
    var tail := s + off;
    assert PrintHms(sec) + off == h + [COLON] + (m + [COLON] + tail);
    SplitCons(h, COLON, m + [COLON] + tail, 3);
    SplitCons(m, COLON, tail, 2);
    LastPiece(tail);
    assert tail[0] == s[0] && IsDigit(s[0]) && tail[|s|] == off[0];
    assert SplitN(PrintHms(sec) + off, COLON, 3) == [h, m, tail];
  }

  lemma LastPiece(s: seq<byte>)
    ensures SplitN(s, COLON, 1) == [s]
  {
  }
}
