/**
 * What COPY text means beyond what a dump writes: every escape the format allows, by its
 * spelling, which texts are refused and why, and which rows are.
 */
module CopyEscapes {
  import opened Bytes
  import opened CopyText
  import CopyRoundTrip

  const LOWER_HEX := "0123456789abcdef"
  const UPPER_HEX := "0123456789ABCDEF"

  // ---------------------------------------------------------------- digits

  /** A hexadecimal digit of either case, by its place in the alphabet. */
  predicate IsHex(b: byte, d: nat) {
    d < 16 && (b as int == LOWER_HEX[d] as int || b as int == UPPER_HEX[d] as int)
  }

  lemma HexDigitIff(b: byte, d: nat)
    ensures HexDigit(b) == Some(d) <==> IsHex(b, d)
  {
  }

  predicate NoHex(s: seq<byte>) {
    s == [] || !('0' as int <= s[0] <= '9' as int || 'a' as int <= s[0] <= 'f' as int || 'A' as int <= s[0] <= 'F' as int)
  }

  predicate NoOctal(s: seq<byte>) {
    s == [] || !('0' as int <= s[0] <= '7' as int)
  }

  predicate AreOctal(s: seq<byte>) {
    forall i :: 0 <= i < |s| ==> '0' as int <= s[i] <= '7' as int
  }

  function OctalNumber(s: seq<byte>): (n: int) {
    if s == [] then 0 else OctalNumber(s[..|s| - 1]) * 8 + (s[|s| - 1] as int - 48)
  }

  lemma {:induction false} OctalRunReads(s: seq<byte>, done: seq<byte>, rest: seq<byte>)
    requires AreOctal(done + s) && |done| + |s| <= 3 && (|done| + |s| == 3 || NoOctal(rest)) && OctalNumber(done) >= 0
    ensures OctalRun(s + rest, OctalNumber(done), |done|) == (OctalNumber(done + s), |done + s|)
    decreases |s|
  {
    if s == [] {
      assert s + rest == rest && done + s == done;
    } else {
      var next := done + [s[0]];
      assert (s + rest)[0] == s[0] && (s + rest)[1..] == s[1..] + rest;
      assert (done + s)[|done|] == s[0] && next[..|next| - 1] == done && next + s[1..] == done + s;
      OctalRunReads(s[1..], next, rest);
    }
  }

  // ---------------------------------------------------------------- escapes

  lemma OctalStarts(s: seq<byte>)
    requires s != [] && '0' as int <= s[0] <= '7' as int
    ensures var run := OctalRun(s[1..], s[0] - 48, 1); EscapeAt(s) == Ok((run.0 % 256, run.1))
  {
  }

  /** One to three octal digits, as many as there are: the number's last eight bits. */
  lemma OctalEscape(digits: seq<byte>, rest: seq<byte>)
    requires 1 <= |digits| <= 3 && AreOctal(digits) && (|digits| == 3 || NoOctal(rest))
    ensures EscapeAt(digits + rest) == Ok((OctalNumber(digits) % 256, |digits|))
  {
    var s := digits + rest;
    assert s[0] == digits[0] && s[1..] == digits[1..] + rest;
    assert 48 <= digits[0] <= 55;
    hide *;
    OctalsFrom(digits, rest);
    OctalStarts(s);
  }

  lemma OctalsFrom(digits: seq<byte>, rest: seq<byte>)
    requires 1 <= |digits| <= 3 && AreOctal(digits) && (|digits| == 3 || NoOctal(rest))
    ensures OctalRun(digits[1..] + rest, digits[0] - 48, 1) == (OctalNumber(digits), |digits|)
  {
    hide OctalRun, NoOctal;
    var first := digits[..1];
    assert first + digits[1..] == digits && first[..0] == [];
    assert OctalNumber([]) == 0 && OctalNumber(first) == digits[0] - 48;
    hide OctalNumber, AreOctal;
    OctalRunReads(digits[1..], first, rest);
  }

  /** `x` and one or two hexadecimal digits of either case, as many as there are. */
  lemma HexEscape(digits: seq<byte>, ds: seq<nat>, rest: seq<byte>)
    requires 1 <= |digits| == |ds| <= 2 && (forall i :: 0 <= i < |ds| ==> IsHex(digits[i], ds[i]))
    requires |digits| == 2 || NoHex(rest)
    ensures EscapeAt(['x' as int] + (digits + rest)) == Ok((if |ds| == 1 then ds[0] else ds[0] * 16 + ds[1], 1 + |digits|))
  {
    var t := digits + rest;
    var s := ['x' as int] + t;
    assert s[1..] == t && t[0] == digits[0];
    HexDigitIff(digits[0], ds[0]);
    if |digits| == 2 {
      HexDigitIff(digits[1], ds[1]);
      assert t[1..][0] == digits[1];
      assert HexRun(t, 0, 0) == HexRun(t[1..], ds[0], 1);
      assert HexRun(t[1..], ds[0], 1) == HexRun(t[1..][1..], ds[0] * 16 + ds[1], 2);
    } else {
      assert t[1..] == rest;
      assert HexRun(t, 0, 0) == HexRun(rest, ds[0], 1);
      assert rest != [] ==> HexDigit(rest[0]).None?;
    }
  }

  /** The six letters that stand for control characters. */
  lemma LetterEscape(rest: seq<byte>)
    ensures EscapeAt(['b' as int] + rest) == Ok((8, 1)) && EscapeAt(['f' as int] + rest) == Ok((12, 1))
    ensures EscapeAt(['n' as int] + rest) == Ok(('\n' as int, 1)) && EscapeAt(['r' as int] + rest) == Ok(('\r' as int, 1))
    ensures EscapeAt(['t' as int] + rest) == Ok(('\t' as int, 1)) && EscapeAt(['v' as int] + rest) == Ok((11, 1))
  {
  }

  predicate Reserved(b: byte) {
    || b as char == 'b' || b as char == 'f' || b as char == 'n' || b as char == 'r' || b as char == 't'
    || b as char == 'v' || b as char == 'x' || '0' <= b as char <= '7'
  }

  /** Any other character stands for itself. */
  lemma ItselfEscape(s: seq<byte>)
    requires s != [] && !Reserved(s[0])
    ensures EscapeAt(s) == Ok((s[0], 1))
  {
  }

  // ---------------------------------------------------------------- text that is refused

  lemma {:induction false} TextThen(text: seq<(byte, CopyRoundTrip.Style)>, rest: seq<byte>)
    ensures Unescape(CopyRoundTrip.RenderText(text) + rest) == Prepend(CopyRoundTrip.EraseText(text), Unescape(rest))
    decreases |text|
  {
    if text == [] {
      assert CopyRoundTrip.RenderText(text) + rest == rest;
      assert Unescape(rest).Ok? ==> [] + Unescape(rest).value == Unescape(rest).value;
    } else {
      hide Unescape, CopyRoundTrip.RenderByte;
      var first, more := CopyRoundTrip.RenderByte(text[0].0, text[0].1), CopyRoundTrip.RenderText(text[1..]);
      assert CopyRoundTrip.RenderText(text) + rest == first + (more + rest);
      CopyRoundTrip.RenderByteInverts(text[0].0, text[0].1, more + rest);
      TextThen(text[1..], rest);
      PrependTwice([text[0].0], CopyRoundTrip.EraseText(text[1..]), Unescape(rest));
    }
  }

  /** A backslash that ends the field is an error. */
  lemma LoneBackslash(text: seq<(byte, CopyRoundTrip.Style)>)
    ensures Unescape(CopyRoundTrip.RenderText(text) + [BACKSLASH]) == Err(TruncatedEscape)
  {
    TextThen(text, [BACKSLASH]);
    assert [BACKSLASH][1..] == [];
  }

  /** So is `\x` without a hexadecimal digit after it. */
  lemma BareHex(text: seq<(byte, CopyRoundTrip.Style)>, rest: seq<byte>)
    requires NoHex(rest)
    ensures Unescape(CopyRoundTrip.RenderText(text) + (Ascii("\\x") + rest)) == Err(InvalidHexEscape)
  {
    var s := Ascii("\\x") + rest;
    TextThen(text, s);
    assert s[0] == BACKSLASH && s[1..][0] == 120 && s[1..][1..] == rest;
    assert rest != [] ==> HexDigit(rest[0]).None?;
  }

  /** Only these two markers are markers, and only where they stand alone. */
  lemma Markers(s: seq<byte>)
    ensures ValueOf(s) == Ok(None) <==> s == Ascii("\\N")
    ensures IsEndOfData(s) <==> s == Ascii("\\.")
  {
    assert Ascii("\\N") == [92, 78] && Ascii("\\.") == [92, 46];
  }

  // ---------------------------------------------------------------- rows that are refused

  /** What is wrong with field `k` of a row, the limits first. */
  function Trouble(raws: seq<seq<byte>>, k: nat, limits: Limits): (e: Option<CopyError>)
    requires k < |raws|
  {
    if k >= limits.maxColumns then Some(TooManyColumns(k + 1, limits.maxColumns))
    else if |raws[k]| > limits.maxFieldBytes then Some(FieldTooLarge(|raws[k]|, limits.maxFieldBytes))
    else if ValueOf(raws[k]).Err? then Some(ValueOf(raws[k]).error)
    else None
  }

  predicate Untroubled(raws: seq<seq<byte>>, k: nat, limits: Limits)
    requires k <= |raws|
  {
    forall j :: 0 <= j < k ==> Trouble(raws, j, limits).None?
  }

  lemma {:induction false} FieldsFrom(raws: seq<seq<byte>>, i: nat, k: nat, limits: Limits)
    requires i <= k <= |raws| && Untroubled(raws, k, limits)
    ensures k < |raws| && Trouble(raws, k, limits).Some? ==> DecodeFields(raws[i..], i, limits) == Err(Trouble(raws, k, limits).value)
    ensures k == |raws| ==> DecodeFields(raws[i..], i, limits).Ok?
    ensures k == |raws| ==> forall j :: i <= j < k ==> ValueOf(raws[j]) == Ok(DecodeFields(raws[i..], i, limits).value[j - i])
    decreases k - i
  {
    hide ValueOf;
    var rest := raws[i..];
    if i < |raws| {
      assert rest[0] == raws[i] && rest[1..] == raws[i + 1..];
    }
    if i < k {
      assert Trouble(raws, i, limits).None?;
      FieldsFrom(raws, i + 1, k, limits);
    }
  }

  /** The first field in trouble decides the error, whatever comes after it. */
  lemma FirstTrouble(row: seq<byte>, k: nat, expected: nat, limits: Limits)
    requires |row| <= limits.maxRowBytes && k < |SplitTabs(row)|
    requires Untroubled(SplitTabs(row), k, limits) && Trouble(SplitTabs(row), k, limits).Some?
    ensures DecodeRowSpec(row, expected, limits) == Err(Trouble(SplitTabs(row), k, limits).value)
  {
    hide SplitTabs, ValueOf, DecodeFields;
    FieldsFrom(SplitTabs(row), 0, k, limits);
    assert SplitTabs(row)[0..] == SplitTabs(row);
  }

  /**
   * A row decodes exactly when it is short enough, none of its fields is in trouble, and there
   * are as many as expected; each value is then its own field's. A row that is too long, or
   * of another width, is refused as such.
   */
  lemma DecodesIff(row: seq<byte>, expected: nat, limits: Limits)
    ensures var raws, r := SplitTabs(row), DecodeRowSpec(row, expected, limits);
      && (r.Ok? <==> |row| <= limits.maxRowBytes && Untroubled(raws, |raws|, limits) && |raws| == expected)
      && (r.Ok? ==> forall j :: 0 <= j < |raws| ==> ValueOf(raws[j]) == Ok(r.value[j]))
      && (|row| > limits.maxRowBytes ==> r == Err(RowTooLarge(|row|, limits.maxRowBytes)))
      && (|row| <= limits.maxRowBytes && Untroubled(raws, |raws|, limits) && |raws| != expected ==>
            r == Err(FieldCountMismatch(|raws|, expected)))
  {
    hide SplitTabs, ValueOf, DecodeFields, Trouble;
    var raws := SplitTabs(row);
    assert raws[0..] == raws;
    if Untroubled(raws, |raws|, limits) {
      FieldsFrom(raws, 0, |raws|, limits);
    } else {
      var k := First(raws, limits);
      FieldsFrom(raws, 0, k, limits);
    }
  }

  lemma First(raws: seq<seq<byte>>, limits: Limits) returns (k: nat)
    requires !Untroubled(raws, |raws|, limits)
    ensures k < |raws| && Untroubled(raws, k, limits) && Trouble(raws, k, limits).Some?
  {
    hide Trouble;
    k := 0;
    while Trouble(raws, k, limits).None?
      invariant k < |raws| && Untroubled(raws, k, limits)
      decreases |raws| - k
    {
      k := k + 1;
    }
  }
}
