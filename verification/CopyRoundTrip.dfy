/**
 * The writer's side of COPY TEXT, as PostgreSQL's COPY reference page defines it ("Text
 * Format"), and the proof that the decoder inverts every rendering it allows.
 */
module CopyRoundTrip {
  import opened Bytes
  import opened CopyText

  /** How one byte is written: as COPY TO writes it, or as `\ooo`, or as `\xhh`. */
  datatype Style = Natural | Octal | Hex

  type Styled = Option<seq<(byte, Style)>>

  function HexChar(d: nat): (c: byte)
    requires d < 16
    ensures HexDigit(c) == Some(d)
  {
    if d < 10 then 48 + d else 87 + d
  }

  function RenderByte(b: byte, style: Style): (s: seq<byte>)
    ensures s != []
  {
    match style
    case Octal => ['\\' as int, 48 + b / 64, 48 + b / 8 % 8, 48 + b % 8]
    case Hex => ['\\' as int, 'x' as int, HexChar(b / 16), HexChar(b % 16)]
    case Natural =>
      if b == 8 then ['\\' as int, 'b' as int]
      else if b == 12 then ['\\' as int, 'f' as int]
      else if b == '\n' as int then ['\\' as int, 'n' as int]
      else if b == '\r' as int then ['\\' as int, 'r' as int]
      else if b == '\t' as int then ['\\' as int, 't' as int]
      else if b == 11 then ['\\' as int, 'v' as int]
      else if b == '\\' as int then ['\\' as int, '\\' as int]
      else [b]
  }

  function RenderText(text: seq<(byte, Style)>): (s: seq<byte>) {
    if text == [] then [] else RenderByte(text[0].0, text[0].1) + RenderText(text[1..])
  }

  function RenderField(f: Styled): (s: seq<byte>) {
    if f.None? then Ascii("\\N") else RenderText(f.value)
  }

  /** The value a styled field stands for. */
  function Erase(f: Styled): (v: Value) {
    if f.None? then None else Some(EraseText(f.value))
  }

  function EraseText(text: seq<(byte, Style)>): (s: seq<byte>) {
    if text == [] then [] else [text[0].0] + EraseText(text[1..])
  }

  function JoinTabs(raws: seq<seq<byte>>): (row: seq<byte>)
    requires raws != []
  {
    if |raws| == 1 then raws[0] else raws[0] + ['\t' as int] + JoinTabs(raws[1..])
  }

  function RenderFields(fs: seq<Styled>): (raws: seq<seq<byte>>)
    ensures |raws| == |fs|
    ensures forall i :: 0 <= i < |fs| ==> raws[i] == RenderField(fs[i])
  {
    seq(|fs|, i requires 0 <= i < |fs| => RenderField(fs[i]))
  }

  function EraseFields(fs: seq<Styled>): (vs: seq<Value>)
    ensures |vs| == |fs|
  {
    seq(|fs|, i requires 0 <= i < |fs| => Erase(fs[i]))
  }

  function RenderRow(fs: seq<Styled>): (row: seq<byte>)
    requires fs != []
  {
    JoinTabs(RenderFields(fs))
  }

  function RenderRows(table: seq<seq<Styled>>): (rows: seq<seq<byte>>)
    requires forall i :: 0 <= i < |table| ==> table[i] != []
    ensures |rows| == |table|
    ensures forall i :: 0 <= i < |table| ==> rows[i] == RenderRow(table[i])
  {
    seq(|table|, i requires 0 <= i < |table| => RenderRow(table[i]))
  }

  /** The body of a COPY block, up to its terminator. */
  function RenderTable(table: seq<seq<Styled>>): (payload: seq<byte>)
    requires forall i :: 0 <= i < |table| ==> table[i] != []
  {
    Unlines(RenderRows(table))
  }

  /** No tab, newline or carriage return: nothing that structures a payload. */
  ghost predicate Unstructured(s: seq<byte>) {
    forall k :: 0 <= k < |s| ==> s[k] as char != '\t' && s[k] as char != '\n' && s[k] as char != '\r'
  }

  /** Within the decoder's limits. */
  ghost predicate Fits(fs: seq<Styled>, limits: Limits)
    requires fs != []
  {
    && |RenderRow(fs)| <= limits.maxRowBytes
    && |fs| <= limits.maxColumns
    && forall i :: 0 <= i < |fs| ==> |RenderField(fs[i])| <= limits.maxFieldBytes
  }

  // ---------------------------------------------------------------- one field

  lemma OctalDigits(b: byte)
    ensures b / 64 < 4 && (b / 64 * 8 + b / 8 % 8) * 8 + b % 8 == b
  {
  }

  lemma ThreeOctals(x: nat, y: nat, z: nat, rest: seq<byte>)
    requires x < 4 && y < 8 && z < 8
    ensures EscapeAt([48 + x, 48 + y, 48 + z] + rest) == Ok(((x * 8 + y) * 8 + z, 3))
  {
    var s := [48 + x, 48 + y, 48 + z] + rest;
    assert s[1..][1..] == s[2..] && s[2..][1..] == s[3..];
    assert OctalRun(s[1..], x, 1) == OctalRun(s[2..], x * 8 + y, 2);
    assert OctalRun(s[2..], x * 8 + y, 2) == OctalRun(s[3..], (x * 8 + y) * 8 + z, 3);
  }

  lemma OctalInverts(b: byte, rest: seq<byte>)
    ensures EscapeAt(RenderByte(b, Octal)[1..] + rest) == Ok((b, 3))
  {
    hide EscapeAt;
    OctalDigits(b);
    ThreeOctals(b / 64, b / 8 % 8, b % 8, rest);
    assert RenderByte(b, Octal)[1..] == [48 + b / 64, 48 + b / 8 % 8, 48 + b % 8];
  }

  lemma HexInverts(b: byte, rest: seq<byte>)
    ensures EscapeAt(RenderByte(b, Hex)[1..] + rest) == Ok((b, 3))
  {
    var s := RenderByte(b, Hex)[1..] + rest;
    assert s[1..][1..] == s[2..] && s[2..][1..] == s[3..];
    assert HexRun(s[1..], 0, 0) == HexRun(s[2..], b / 16, 1);
    assert HexRun(s[2..], b / 16, 1) == HexRun(s[3..], b, 2);
  }

  lemma EscapeInverts(b: byte, style: Style, rest: seq<byte>)
    requires RenderByte(b, style)[0] == BACKSLASH
    ensures EscapeAt(RenderByte(b, style)[1..] + rest) == Ok((b, |RenderByte(b, style)| - 1))
  {
    match style
    case Natural =>
    case Octal => OctalInverts(b, rest);
    case Hex => HexInverts(b, rest);
  }

  lemma RenderByteInverts(b: byte, style: Style, rest: seq<byte>)
    ensures Unescape(RenderByte(b, style) + rest) == Prepend([b], Unescape(rest))
  {
    var r := RenderByte(b, style);
    var s := r + rest;
    if r[0] != BACKSLASH {
      assert s[1..] == rest;
    } else {
      EscapeInverts(b, style, rest);
      hide EscapeAt;
      assert s[1..] == r[1..] + rest;
      assert s[|r|..] == rest;
    }
  }

  lemma {:induction false} RenderTextInverts(text: seq<(byte, Style)>)
    ensures Unescape(RenderText(text)) == Ok(EraseText(text))
    decreases |text|
  {
    if text != [] {
      RenderTextInverts(text[1..]);
      RenderByteInverts(text[0].0, text[0].1, RenderText(text[1..]));
    }
  }

  lemma {:induction false} RenderTextUnstructured(text: seq<(byte, Style)>)
    ensures Unstructured(RenderText(text))
    decreases |text|
  {
    if text != [] {
      RenderTextUnstructured(text[1..]);
      assert Unstructured(RenderByte(text[0].0, text[0].1));
    }
  }

  /** No text renders as the NULL marker or as the end-of-data marker. */
  lemma RenderTextNoMarker(text: seq<(byte, Style)>)
    ensures RenderText(text) != Ascii("\\N") && RenderText(text) != Ascii("\\.")
  {
    if text != [] {
      var r := RenderByte(text[0].0, text[0].1);
      var s := RenderText(text);
      assert s[0] == r[0];
      assert |r| > 1 ==> s[1] == r[1];
    }
  }

  /** A rendered field decodes to its value: NULL, empty and every text stay apart. */
  lemma FieldRoundTrip(f: Styled)
    ensures ValueOf(RenderField(f)) == Ok(Erase(f))
    ensures Unstructured(RenderField(f))
    ensures RenderField(f) != Ascii("\\.")
  {
    if f.Some? {
      RenderTextInverts(f.value);
      RenderTextUnstructured(f.value);
      RenderTextNoMarker(f.value);
    } else {
      assert RenderField(f)[1] != Ascii("\\.")[1];
    }
  }

  // ---------------------------------------------------------------- one row

  ghost predicate AllUnstructured(raws: seq<seq<byte>>) {
    forall i :: 0 <= i < |raws| ==> Unstructured(raws[i])
  }

  lemma {:induction false} SplitJoined(raws: seq<seq<byte>>)
    requires raws != [] && AllUnstructured(raws)
    ensures SplitTabs(JoinTabs(raws)) == raws
    decreases |raws|
  {
    var row := JoinTabs(raws);
    if |raws| == 1 {
      IndexOfIs(row, TAB, |row|);
    } else {
      SplitJoined(raws[1..]);
      IndexOfIs(row, TAB, |raws[0]|);
      assert row[..|raws[0]|] == raws[0];
      assert row[|raws[0]| + 1..] == JoinTabs(raws[1..]);
      assert raws == [raws[0]] + raws[1..];
    }
  }

  /** A joined row has no newline, and no carriage return for a line ending to be confused with. */
  lemma {:induction false} JoinedRowBytes(raws: seq<seq<byte>>)
    requires raws != [] && AllUnstructured(raws)
    ensures NoNewline(JoinTabs(raws)) && StripCr(JoinTabs(raws)) == JoinTabs(raws)
    ensures forall k :: 0 <= k < |JoinTabs(raws)| ==> JoinTabs(raws)[k] != CR
    decreases |raws|
  {
    if |raws| > 1 {
      JoinedRowBytes(raws[1..]);
    }
  }

  lemma {:induction false} DecodeRendered(fs: seq<Styled>, count: nat, limits: Limits)
    requires count + |fs| <= limits.maxColumns
    requires forall i :: 0 <= i < |fs| ==> |RenderField(fs[i])| <= limits.maxFieldBytes
    ensures DecodeFields(RenderFields(fs), count, limits) == Ok(EraseFields(fs))
    decreases |fs|
  {
    if fs != [] {
      FieldRoundTrip(fs[0]);
      DecodeRendered(fs[1..], count + 1, limits);
      hide RenderField, ValueOf;
      assert RenderFields(fs)[1..] == RenderFields(fs[1..]);
      assert EraseFields(fs) == [Erase(fs[0])] + EraseFields(fs[1..]);
    }
  }

  /** A one-field row is never the terminator, and a longer one contains a tab. */
  lemma RowNotTerminator(fs: seq<Styled>)
    requires fs != []
    ensures !IsEndOfData(RenderRow(fs))
  {
    if |fs| == 1 {
      FieldRoundTrip(fs[0]);
    } else {
      var row := RenderRow(fs);
      var at := |RenderField(fs[0])|;
      assert row[at] == TAB;
    }
  }

  /** Decoding inverts rendering on every row within the limits. */
  lemma RowRoundTrip(fs: seq<Styled>, limits: Limits)
    requires fs != [] && Fits(fs, limits)
    ensures DecodeRowSpec(RenderRow(fs), |fs|, limits) == Ok(EraseFields(fs))
    ensures NoNewline(RenderRow(fs)) && StripCr(RenderRow(fs)) == RenderRow(fs)
    ensures !IsEndOfData(RenderRow(fs))
  {
    var raws := RenderFields(fs);
    forall i | 0 <= i < |raws|
      ensures Unstructured(raws[i])
    {
      FieldRoundTrip(fs[i]);
    }
    SplitJoined(raws);
    JoinedRowBytes(raws);
    DecodeRendered(fs, 0, limits);
    RowNotTerminator(fs);
  }

  // ---------------------------------------------------------------- a whole table

  /**
   * COPY TEXT round trip: for every table with at least one column and within the limits,
   * and however each byte was rendered, the payload splits into exactly its rows, each row
   * decodes to exactly its values, and no row can be taken for the end-of-data marker.
   */
  lemma TableRoundTrip(table: seq<seq<Styled>>, limits: Limits)
    requires forall i :: 0 <= i < |table| ==> table[i] != [] && Fits(table[i], limits)
    ensures var rows := RowsOf(RenderTable(table));
      && |rows| == |table|
      && Aligned(RenderTable(table))
      && forall i :: 0 <= i < |table| ==>
           && DecodeRowSpec(rows[i], |table[i]|, limits) == Ok(EraseFields(table[i]))
           && !IsEndOfData(rows[i])
  {
    var lines := RenderRows(table);
    forall i | 0 <= i < |table|
      ensures NoNewline(lines[i]) && StripCr(lines[i]) == lines[i]
      ensures DecodeRowSpec(lines[i], |table[i]|, limits) == Ok(EraseFields(table[i]))
      ensures !IsEndOfData(lines[i])
    {
      RowRoundTrip(table[i], limits);
    }
    hide Fits, RenderRow, DecodeRowSpec;
    LinesOfUnlines(lines, []);
    assert Unlines(lines) + [] == Unlines(lines);
    AlignedTail(Unlines(lines));
    assert Lines(RenderTable(table)) == lines;
  }
}
