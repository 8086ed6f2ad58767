/** `bytea` text in both of its formats (src/values.rs, `parse_bytea`). */
module Bytea {
  import opened Bytes
  import opened CopyText
  import CopyEscapes
  import CopyRoundTrip

  const LOWER_X: byte := 120

  predicate IsHexFormat(v: seq<byte>) {
    |v| >= 2 && v[0] == BACKSLASH && v[1] == LOWER_X
  }

  /** The bytes of the hex digits from `i` on, two for each. */
  function HexFrom(s: seq<byte>, i: nat): (r: Option<seq<byte>>)
    requires i <= |s| && (|s| - i) % 2 == 0
    decreases |s| - i
  {
    if i == |s| then Some([])
    else
      match (HexDigit(s[i]), HexDigit(s[i + 1]), HexFrom(s, i + 2))
      case (Some(hi), Some(lo), Some(rest)) => Some([hi * 16 + lo] + rest)
      case _ => None
  }

  /** The number that the first `n` digits of `s` are in octal. */
  function OctalValue(s: seq<byte>, n: nat): (v: Option<nat>)
    requires n <= |s|
  {
    if n == 0 then Some(0)
    else if OctalValue(s, n - 1).None? || !IsOctal(s[n - 1]) then None
    else Some(OctalValue(s, n - 1).value * 8 + (s[n - 1] as int - 48))
  }

  /** Three octal digits at `i`, if they name a byte. */
  function OctalAt(v: seq<byte>, i: nat): (b: Option<byte>) {
    if i + 3 > |v| then None
    else
      match OctalValue(v[i..i + 3], 3)
      case None => None
      case Some(n) => if n < 256 then Some(n) else None
  }

  /** The bytes of the escape format from `i` on. */
  function EscapedFrom(v: seq<byte>, i: nat): (r: Option<seq<byte>>)
    requires i <= |v|
    decreases |v| - i
  {
    if i == |v| then Some([])
    else if v[i] != BACKSLASH then Before(v[i], EscapedFrom(v, i + 1))
    else if i + 1 < |v| && v[i + 1] == BACKSLASH then Before(BACKSLASH, EscapedFrom(v, i + 2))
    else if OctalAt(v, i + 1).Some? then Before(OctalAt(v, i + 1).value, EscapedFrom(v, i + 4))
    else None
  }

  function Before(b: byte, rest: Option<seq<byte>>): (r: Option<seq<byte>>) {
    if rest.None? then None else Some([b] + rest.value)
  }

  function ByteaOf(v: seq<byte>): (r: Option<seq<byte>>) {
    if !IsHexFormat(v) then EscapedFrom(v, 0)
    else if |v| % 2 != 0 then None
    else HexFrom(v, 2)
  }

  // ---------------------------------------------------------------- the parser

  /** What is there already and then the rest, if there is a rest. */
  ghost predicate Resumes(whole: Option<seq<byte>>, done: seq<byte>, rest: Option<seq<byte>>) {
    if rest.None? then whole.None? else whole == Some(done + rest.value)
  }

  lemma ResumesOn(whole: Option<seq<byte>>, done: seq<byte>, b: byte, rest: Option<seq<byte>>)
    requires Resumes(whole, done, Before(b, rest))
    ensures Resumes(whole, done + [b], rest)
  {
    if rest.Some? {
      assert done + ([b] + rest.value) == done + [b] + rest.value;
    }
  }

  lemma ResumesFromStart(whole: Option<seq<byte>>)
    ensures Resumes(whole, [], whole)
  {
    if whole.Some? {
      assert [] + whole.value == whole.value;
    }
  }

  method AppendHex(v: seq<byte>, out: Vec<byte>) returns (ok: bool)
    requires IsHexFormat(v) && |v| % 2 == 0
    modifies out
    ensures ok == HexFrom(v, 2).Some?
    ensures ok ==> out.elems == old(out.elems) + HexFrom(v, 2).value
  {
    ghost var whole := HexFrom(v, 2);
    ghost var start := out.elems;
    ghost var done: seq<byte> := [];
    ResumesFromStart(whole);
    var i := 2;
    while i < |v|
      invariant 2 <= i <= |v| && (|v| - i) % 2 == 0
      invariant out.elems == start + done && Resumes(whole, done, HexFrom(v, i))
    {
      var hi, lo := HexDigit(v[i]), HexDigit(v[i + 1]);
      if hi.None? || lo.None? {
        return false;
      }
      var b := hi.value * 16 + lo.value;
      assert HexFrom(v, i) == Before(b, HexFrom(v, i + 2));
      ResumesOn(whole, done, b, HexFrom(v, i + 2));
      done := done + [b];
      out.elems := out.elems + [b];
      i := i + 2;
    }
    assert done + [] == done;
    return true;
  }

  method AppendEscaped(v: seq<byte>, out: Vec<byte>) returns (ok: bool)
    modifies out
    ensures ok == EscapedFrom(v, 0).Some?
    ensures ok ==> out.elems == old(out.elems) + EscapedFrom(v, 0).value
  {
    ghost var whole := EscapedFrom(v, 0);
    ghost var start := out.elems;
    ghost var done: seq<byte> := [];
    ResumesFromStart(whole);
    var i := 0;
    while i < |v|
      invariant i <= |v| && out.elems == start + done && Resumes(whole, done, EscapedFrom(v, i))
    {
      var b, next := v[i], i + 1;
      if v[i] == BACKSLASH {
        if i + 1 < |v| && v[i + 1] == BACKSLASH {
          next := i + 2;
        } else {
          var octal := ReadOctalByte(v, i + 1);
          if octal.None? {
            return false;
          }
          b, next := octal.value, i + 4;
        }
      }
      assert EscapedFrom(v, i) == Before(b, EscapedFrom(v, next));
      ResumesOn(whole, done, b, EscapedFrom(v, next));
      done := done + [b];
      out.elems := out.elems + [b];
      i := next;
    }
    assert done + [] == done;
    return true;
  }

  /** A digit, then two more: all octal, and no more than a byte. */
  method ReadOctalByte(v: seq<byte>, i: nat) returns (b: Option<byte>)
    ensures b == OctalAt(v, i)
  {
    if i + 3 > |v| {
      return None;
    }
    var oct := v[i..i + 3];
    var value: nat := 0;
    for k := 0 to 3
      invariant OctalValue(oct, k) == Some(value)
    {
      if !IsOctal(oct[k]) {
        NotOctal(oct, k);
        return None;
      }
      value := value * 8 + (oct[k] as int - 48);
    }
    return if value < 256 then Some(value) else None;
  }

  lemma NotOctal(oct: seq<byte>, k: nat)
    requires |oct| == 3 && k < 3 && !IsOctal(oct[k])
    ensures OctalValue(oct, 3) == None
  {
    assert OctalValue(oct, k + 1) == None;
    assert k < 2 ==> OctalValue(oct, 2) == None;
  }

  method ParseBytea(v: seq<byte>, out: Vec<byte>) returns (r: Result<(), Unparsable>)
    modifies out
    ensures r.Ok? <==> ByteaOf(v).Some?
    ensures r.Ok? ==> out.elems == old(out.elems) + ByteaOf(v).value
  {
    var ok := false;
    if !IsHexFormat(v) {
      ok := AppendEscaped(v, out);
    } else if |v| % 2 == 0 {
      ok := AppendHex(v, out);
    }
    return if ok then Ok(()) else Err(Unparsable);
  }

  // ---------------------------------------------------------------- round trips

  function PrintHexDigits(bytes: seq<byte>): (s: seq<byte>)
    ensures |s| == 2 * |bytes|
    decreases |bytes|
  {
    if bytes == [] then []
    else [CopyRoundTrip.HexChar(bytes[0] / 16), CopyRoundTrip.HexChar(bytes[0] % 16)] + PrintHexDigits(bytes[1..])
  }

  function PrintHex(bytes: seq<byte>): (s: seq<byte>) {
    Ascii("\\x") + PrintHexDigits(bytes)
  }

  lemma {:induction false} HexReads(v: seq<byte>, i: nat, bytes: seq<byte>)
    requires i <= |v| && v[i..] == PrintHexDigits(bytes)
    ensures (|v| - i) % 2 == 0 && HexFrom(v, i) == Some(bytes)
    decreases |bytes|
  {
    if bytes != [] {
      var b := bytes[0];
      assert v[i] == v[i..][0] && v[i + 1] == v[i..][1];
      assert v[i + 2..] == v[i..][2..];
      HexReads(v, i + 2, bytes[1..]);
      assert b / 16 * 16 + b % 16 == b;
      assert [b] + bytes[1..] == bytes;
    }
  }

  /** The hex format holds every byte string. */
  lemma HexRoundTrip(bytes: seq<byte>)
    ensures ByteaOf(PrintHex(bytes)) == Some(bytes)
  {
    var v := PrintHex(bytes);
    assert v[2..] == PrintHexDigits(bytes);
    HexReads(v, 2, bytes);
  }

  /** One byte in the escape format: itself, doubled, or in octal. */
  datatype Shape = Plain | Octal

  function PrintByte(b: byte, shape: Shape): (s: seq<byte>) {
    if shape.Octal? then ['\\' as int, 48 + b / 64, 48 + b / 8 % 8, 48 + b % 8]
    else if b as char == '\\' then [b, b]
    else [b]
  }

  function PrintEscaped(text: seq<(byte, Shape)>): (s: seq<byte>)
    decreases |text|
  {
    if text == [] then [] else PrintByte(text[0].0, text[0].1) + PrintEscaped(text[1..])
  }

  function Plainly(text: seq<(byte, Shape)>): (bytes: seq<byte>)
    decreases |text|
  {
    if text == [] then [] else [text[0].0] + Plainly(text[1..])
  }

  lemma OctalReads(oct: seq<byte>, b: byte)
    requires oct == [48 + b / 64, 48 + b / 8 % 8, 48 + b % 8]
    ensures OctalValue(oct, 3) == Some(b)
  {
    CopyRoundTrip.OctalDigits(b);
    assert OctalValue(oct, 1) == Some(b / 64);
    assert OctalValue(oct, 2) == Some(b / 64 * 8 + b / 8 % 8);
  }

  lemma ByteReads(v: seq<byte>, i: nat, b: byte, shape: Shape, rest: seq<byte>)
    requires i <= |v| && v[i..] == PrintByte(b, shape) + rest
    ensures i + |PrintByte(b, shape)| <= |v| && v[i + |PrintByte(b, shape)|..] == rest
    ensures EscapedFrom(v, i) == Before(b, EscapedFrom(v, i + |PrintByte(b, shape)|))
  {
    var p := PrintByte(b, shape);
    assert forall k :: 0 <= k < |p| ==> v[i + k] == v[i..][k];
    assert v[i + |p|..] == v[i..][|p|..];
    assert v[i] == v[i + 0] == p[0];
    if |p| > 1 {
      assert v[i + 1] == p[1];
    }
    if shape.Octal? {
      assert v[i + 2] == p[2] && v[i + 3] == p[3];
      assert v[i + 1..i + 4] == p[1..];
      OctalReads(v[i + 1..i + 4], b);
    }
  }

  lemma {:induction false} EscapedReads(v: seq<byte>, i: nat, text: seq<(byte, Shape)>)
    requires i <= |v| && v[i..] == PrintEscaped(text)
    ensures EscapedFrom(v, i) == Some(Plainly(text))
    decreases |text|
  {
    if text != [] {
      hide EscapedFrom, PrintByte;
      ByteReads(v, i, text[0].0, text[0].1, PrintEscaped(text[1..]));
      EscapedReads(v, i + |PrintByte(text[0].0, text[0].1)|, text[1..]);
    }
  }

  lemma NeverHex(text: seq<(byte, Shape)>)
    ensures !IsHexFormat(PrintEscaped(text))
  {
    if text != [] {
      var s, p := PrintEscaped(text), PrintByte(text[0].0, text[0].1);
      assert s[0] == p[0] && (|p| > 1 ==> s[1] == p[1]);
    }
  }

  /** So does the escape format, whichever bytes are written in octal; it never looks like hex. */
  lemma EscapeRoundTrip(text: seq<(byte, Shape)>)
    ensures ByteaOf(PrintEscaped(text)) == Some(Plainly(text))
  {
    var v := PrintEscaped(text);
    NeverHex(text);
    assert v[0..] == v;
    EscapedReads(v, 0, text);
  }

  // ---------------------------------------------------------------- exactly these

  /** Two digits of either case for each byte. */
  ghost predicate AreDigitsOf(digits: seq<byte>, bytes: seq<byte>) {
    && |digits| == 2 * |bytes|
    && forall i :: 0 <= i < |bytes| ==>
         CopyEscapes.IsHex(digits[2 * i], bytes[i] / 16) && CopyEscapes.IsHex(digits[2 * i + 1], bytes[i] % 16)
  }

  lemma {:induction false} HexFromIff(v: seq<byte>, i: nat, bytes: seq<byte>)
    requires i <= |v| && (|v| - i) % 2 == 0
    ensures HexFrom(v, i) == Some(bytes) <==> AreDigitsOf(v[i..], bytes)
    decreases |v| - i
  {
    if i < |v| {
      var digits := v[i..];
      assert digits[0] == v[i] && digits[1] == v[i + 1] && digits[2..] == v[i + 2..];
      if bytes != [] {
        HexFromIff(v, i + 2, bytes[1..]);
        CopyEscapes.HexDigitIff(v[i], bytes[0] / 16);
        CopyEscapes.HexDigitIff(v[i + 1], bytes[0] % 16);
        PairFirst(digits, bytes);
        NextPair(v, i, bytes);
      }
    }
  }

  lemma PairFirst(digits: seq<byte>, bytes: seq<byte>)
    requires bytes != [] && |digits| >= 2
    ensures AreDigitsOf(digits, bytes) <==>
      && CopyEscapes.IsHex(digits[0], bytes[0] / 16) && CopyEscapes.IsHex(digits[1], bytes[0] % 16)
      && AreDigitsOf(digits[2..], bytes[1..])
  {
    hide CopyEscapes.IsHex;
    if AreDigitsOf(digits, bytes) {
      forall i | 0 <= i < |bytes| - 1
        ensures CopyEscapes.IsHex(digits[2..][2 * i], bytes[1..][i] / 16) && CopyEscapes.IsHex(digits[2..][2 * i + 1], bytes[1..][i] % 16)
      {
        assert digits[2..][2 * i] == digits[2 * (i + 1)] && digits[2..][2 * i + 1] == digits[2 * (i + 1) + 1];
        assert bytes[1..][i] == bytes[i + 1];
      }
    }
    if CopyEscapes.IsHex(digits[0], bytes[0] / 16) && CopyEscapes.IsHex(digits[1], bytes[0] % 16) && AreDigitsOf(digits[2..], bytes[1..]) {
      forall i | 0 <= i < |bytes|
        ensures CopyEscapes.IsHex(digits[2 * i], bytes[i] / 16) && CopyEscapes.IsHex(digits[2 * i + 1], bytes[i] % 16)
      {
        if i > 0 {
          assert digits[2..][2 * (i - 1)] == digits[2 * i] && digits[2..][2 * (i - 1) + 1] == digits[2 * i + 1];
          assert bytes[1..][i - 1] == bytes[i];
        }
      }
    }
  }

  /** One pair of digits, and the pairs after it. */
  lemma NextPair(v: seq<byte>, i: nat, bytes: seq<byte>)
    requires i + 2 <= |v| && (|v| - i) % 2 == 0 && bytes != []
    ensures HexFrom(v, i) == Some(bytes) <==>
      HexDigit(v[i]) == Some(bytes[0] / 16) && HexDigit(v[i + 1]) == Some(bytes[0] % 16) && HexFrom(v, i + 2) == Some(bytes[1..])
  {
    hide HexDigit;
    assert bytes == [bytes[0]] + bytes[1..];
    assert bytes[0] / 16 * 16 + bytes[0] % 16 == bytes[0];
    match (HexDigit(v[i]), HexDigit(v[i + 1]), HexFrom(v, i + 2))
    case (Some(hi), Some(lo), Some(rest)) =>
      var b := hi * 16 + lo;
      assert b / 16 == hi && b % 16 == lo;
      assert ([b] + rest)[0] == b && ([b] + rest)[1..] == rest;
    case _ =>
  }

  /** The hex format is `\x` and pairs of digits, and nothing else. */
  lemma HexIff(digits: seq<byte>, bytes: seq<byte>)
    ensures ByteaOf(Ascii("\\x") + digits) == Some(bytes) <==> AreDigitsOf(digits, bytes)
  {
    var v := Ascii("\\x") + digits;
    assert v[0] == 92 && v[1] == 120 && v[2..] == digits;
    hide HexFrom, AreDigitsOf;
    if |v| % 2 == 0 {
      HexFromIff(v, 2, bytes);
    } else {
      OddDigits(digits, bytes);
    }
  }

  lemma OddDigits(digits: seq<byte>, bytes: seq<byte>)
    requires |digits| % 2 == 1
    ensures !AreDigitsOf(digits, bytes)
  {
  }

  lemma OctalParts(x: nat, y: nat, z: nat)
    requires y < 8 && z < 8
    ensures var n := (x * 8 + y) * 8 + z; n / 64 == x && n / 8 % 8 == y && n % 8 == z
  {
  }

  lemma OctalOnly(oct: seq<byte>) returns (b: byte)
    requires |oct| == 3 && OctalValue(oct, 3).Some? && OctalValue(oct, 3).value < 256
    ensures OctalValue(oct, 3) == Some(b) && oct == [48 + b / 64, 48 + b / 8 % 8, 48 + b % 8]
  {
    var x, y, z := oct[0] as int - 48, oct[1] as int - 48, oct[2] as int - 48;
    assert OctalValue(oct, 1) == Some(x);
    assert OctalValue(oct, 2) == Some(x * 8 + y);
    b := OctalValue(oct, 3).value;
    hide OctalValue;
    OctalParts(x, y, z);
  }

  lemma OneOnly(v: seq<byte>, i: nat) returns (b: byte, shape: Shape)
    requires i < |v| && EscapedFrom(v, i).Some?
    ensures var p := PrintByte(b, shape);
      p != [] && i + |p| <= |v| && v[i..] == p + v[i + |p|..] && EscapedFrom(v, i) == Before(b, EscapedFrom(v, i + |p|))
  {
    if v[i] != BACKSLASH {
      b, shape := v[i], Shape.Plain;
      assert v[i..] == [v[i]] + v[i + 1..];
    } else if i + 1 < |v| && v[i + 1] == BACKSLASH {
      b, shape := BACKSLASH, Shape.Plain;
      assert v[i..] == [v[i], v[i + 1]] + v[i + 2..];
    } else {
      shape := Octal;
      b := OctalOnly(v[i + 1..i + 4]);
      assert v[i + 1..i + 4] == [v[i + 1], v[i + 2], v[i + 3]];
      assert v[i..] == [v[i], v[i + 1], v[i + 2], v[i + 3]] + v[i + 4..];
    }
  }

  /** Whatever the escape format accepts is a byte string written so, and is read as that. */
  lemma {:induction false} EscapedOnly(v: seq<byte>, i: nat) returns (text: seq<(byte, Shape)>)
    requires i <= |v| && EscapedFrom(v, i).Some?
    ensures v[i..] == PrintEscaped(text) && EscapedFrom(v, i) == Some(Plainly(text))
    decreases |v| - i
  {
    hide EscapedFrom, PrintByte;
    if i == |v| {
      text := [];
      EscapedReads(v, i, text);
    } else {
      var b, shape := OneOnly(v, i);
      var rest := EscapedOnly(v, i + |PrintByte(b, shape)|);
      text := [(b, shape)] + rest;
      assert text[1..] == rest;
    }
  }

  /** Anything else is refused: what is accepted without `\x` in front was written in the escape format. */
  lemma EscapeOnly(v: seq<byte>) returns (text: seq<(byte, Shape)>)
    requires ByteaOf(v).Some? && !(|v| >= 2 && v[..2] == Ascii("\\x"))
    ensures v == PrintEscaped(text) && ByteaOf(v) == Some(Plainly(text))
  {
    assert |v| >= 2 ==> v[..2] == [v[0], v[1]];
    assert Ascii("\\x") == [92, 120];
    hide EscapedFrom;
    text := EscapedOnly(v, 0);
    assert v[0..] == v;
  }
}
