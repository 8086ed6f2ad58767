/** Decoding the COPY TEXT format (src/copy.rs). */
module CopyText {
  import opened Bytes

  const END_OF_DATA: seq<byte> := [92, 46]
  const NULL_MARKER: seq<byte> := [92, 78]

  datatype CopyError =
    | TruncatedEscape
    | InvalidHexEscape
    | RowTooLarge(len: nat, limit: nat)
    | TooManyColumns(count: nat, limit: nat)
    | FieldTooLarge(len: nat, limit: nat)
    | FieldCountMismatch(found: nat, expected: nat)

  datatype Limits = Limits(maxFieldBytes: nat, maxRowBytes: nat, maxColumns: nat)

  datatype Field = Null | Plain(bytes: seq<byte>) | Escaped(bytes: seq<byte>)

  datatype Range = Range(lo: nat, hi: nat)

  /** A decoded field: absent for NULL. */
  type Value = Option<seq<byte>>

  predicate IsEndOfData(line: seq<byte>) {
    line == END_OF_DATA
  }

  predicate NoBackslash(s: seq<byte>) {
    forall k :: 0 <= k < |s| ==> s[k] != BACKSLASH
  }

  // ---------------------------------------------------------------- escapes

  function HexDigit(b: byte): (d: Option<byte>)
    ensures d.Some? ==> d.value < 16
  {
    if 48 <= b <= 57 then Some(b - 48)
    else if 97 <= b <= 102 then Some(b - 97 + 10)
    else if 65 <= b <= 70 then Some(b - 65 + 10)
    else None
  }

  predicate IsOctal(b: byte) {
    48 <= b <= 55
  }

  /** Up to two hexadecimal digits from the front of `s`, on top of `value`. */
  function HexRun(s: seq<byte>, value: nat, digits: nat): (r: (nat, nat))
    requires digits <= 2
    ensures digits <= r.1 <= digits + |s| && r.1 <= 2
    ensures digits == 0 && value == 0 ==> r.0 < 256
    ensures digits == 1 && value < 16 ==> r.0 < 256
    decreases |s|
  {
    if digits < 2 && s != [] && HexDigit(s[0]).Some? then
      HexRun(s[1..], value * 16 + HexDigit(s[0]).value, digits + 1)
    else
      (value, digits)
  }

  /** Up to three octal digits, of which `digits` have been read. */
  function OctalRun(s: seq<byte>, value: nat, digits: nat): (r: (nat, nat))
    requires digits <= 3
    ensures digits <= r.1 <= digits + |s| && r.1 <= 3
    decreases |s|
  {
    if digits < 3 && s != [] && IsOctal(s[0]) then
      OctalRun(s[1..], value * 8 + (s[0] - 48), digits + 1)
    else
      (value, digits)
  }

  /** The byte an escape stands for, and how many bytes after the backslash it takes. */
  function EscapeAt(s: seq<byte>): (r: Result<(byte, nat), CopyError>)
    ensures r.Ok? ==> 1 <= r.value.1 <= |s|
  {
    if s == [] then Err(TruncatedEscape)
    else if s[0] == 98 then Ok((8, 1))
    else if s[0] == 102 then Ok((12, 1))
    else if s[0] == 110 then Ok((NL, 1))
    else if s[0] == 114 then Ok((CR, 1))
    else if s[0] == 116 then Ok((TAB, 1))
    else if s[0] == 118 then Ok((11, 1))
    else if s[0] == 120 then
      var (value, digits) := HexRun(s[1..], 0, 0);
      if digits == 0 then Err(InvalidHexEscape) else Ok((value, 1 + digits))
    else if IsOctal(s[0]) then
      var (value, digits) := OctalRun(s[1..], s[0] - 48, 1);
      Ok((value % 256, digits))
    else Ok((s[0], 1))
  }

  function Prepend<T>(p: seq<T>, r: Result<seq<T>, CopyError>): Result<seq<T>, CopyError> {
    if r.Ok? then Ok(p + r.value) else r
  }

  /** A field with its escapes resolved, one byte at a time. */
  function Unescape(s: seq<byte>): (r: Result<seq<byte>, CopyError>)
    decreases |s|
  {
    if s == [] then Ok([])
    else if s[0] != BACKSLASH then Prepend([s[0]], Unescape(s[1..]))
    else
      match EscapeAt(s[1..])
      case Err(e) => Err(e)
      case Ok((b, n)) => Prepend([b], Unescape(s[1 + n..]))
  }

  lemma PrependTwice<T>(p: seq<T>, q: seq<T>, r: Result<seq<T>, CopyError>)
    ensures Prepend(p, Prepend(q, r)) == Prepend(p + q, r)
  {
    if r.Ok? {
      assert p + (q + r.value) == p + q + r.value;
    }
  }

  /** A run without backslashes is copied as it stands. */
  lemma {:induction false} UnescapeRun(p: seq<byte>, s: seq<byte>)
    requires NoBackslash(p)
    ensures Unescape(p + s) == Prepend(p, Unescape(s))
    decreases |p|
  {
    if p == [] {
      assert p + s == s;
      assert Unescape(s).Ok? ==> [] + Unescape(s).value == Unescape(s).value;
    } else {
      UnescapeRun(p[1..], s);
      assert (p + s)[1..] == p[1..] + s;
      PrependTwice([p[0]], p[1..], Unescape(s));
      assert [p[0]] + p[1..] == p;
    }
  }

  lemma UnescapePlain(p: seq<byte>)
    requires NoBackslash(p)
    ensures Unescape(p) == Ok(p)
  {
    UnescapeRun(p, []);
    assert p + [] == p;
  }

  method ReadHex(bytes: seq<byte>, from: nat) returns (value: nat, digits: nat)
    requires from <= |bytes|
    ensures (value, digits) == HexRun(bytes[from..], 0, 0)
  {
    value, digits := 0, 0;
    while digits < 2
      invariant digits <= 2 && from + digits <= |bytes|
      invariant HexRun(bytes[from..], 0, 0) == HexRun(bytes[from + digits..], value, digits)
    {
      if from + digits == |bytes| || HexDigit(bytes[from + digits]).None? {
        break;
      }
      value := value * 16 + HexDigit(bytes[from + digits]).value;
      digits := digits + 1;
    }
  }

  method ReadOctal(bytes: seq<byte>, from: nat, first: nat) returns (value: nat, digits: nat)
    requires from <= |bytes|
    ensures (value, digits) == OctalRun(bytes[from..], first, 1)
  {
    value, digits := first, 1;
    while digits < 3
      invariant 1 <= digits <= 3 && from + digits - 1 <= |bytes|
      invariant OctalRun(bytes[from..], first, 1) == OctalRun(bytes[from + digits - 1..], value, digits)
    {
      var i := from + digits - 1;
      if i == |bytes| || !IsOctal(bytes[i]) {
        break;
      }
      value := value * 8 + (bytes[i] - 48);
      digits := digits + 1;
    }
  }

  /** Resolves the escape whose backslash is just before `i`. */
  method ReadEscape(bytes: seq<byte>, i: nat) returns (r: Result<(byte, nat), CopyError>)
    requires i <= |bytes|
    ensures r == EscapeAt(bytes[i..])
  {
    if i == |bytes| {
      return Err(TruncatedEscape);
    }
    assert bytes[i..][1..] == bytes[i + 1..];
    var c := bytes[i];
    if c == 120 {
      var value, digits := ReadHex(bytes, i + 1);
      if digits == 0 {
        return Err(InvalidHexEscape);
      }
      return Ok((value, 1 + digits));
    } else if IsOctal(c) {
      var value, digits := ReadOctal(bytes, i + 1, c - 48);
      return Ok((value % 256, digits));
    }
    var named := if c == 98 then 8 else if c == 102 then 12 else if c == 110 then NL
      else if c == 114 then CR else if c == 116 then TAB else if c == 118 then 11 else c;
    return Ok((named, 1));
  }

  /** Decoding `bytes` gives `done` followed by whatever decoding from `i` gives. */
  ghost predicate Resumes(bytes: seq<byte>, i: nat, done: seq<byte>) {
    i <= |bytes| && Unescape(bytes) == Prepend(done, Unescape(bytes[i..]))
  }

  lemma ResumesAtStart(bytes: seq<byte>)
    ensures Resumes(bytes, 0, [])
  {
    assert bytes[0..] == bytes;
    assert Unescape(bytes).Ok? ==> [] + Unescape(bytes).value == Unescape(bytes).value;
  }

  lemma ResumesAtEnd(bytes: seq<byte>, done: seq<byte>)
    requires Resumes(bytes, |bytes|, done)
    ensures Unescape(bytes) == Ok(done)
  {
    assert bytes[|bytes|..] == [] && done + [] == done;
  }

  lemma ResumesAfterRun(bytes: seq<byte>, i: nat, done: seq<byte>, n: nat)
    requires Resumes(bytes, i, done) && i + n <= |bytes| && NoBackslash(bytes[i..i + n])
    ensures Resumes(bytes, i + n, done + bytes[i..i + n])
  {
    var run := bytes[i..i + n];
    assert bytes[i..] == run + bytes[i + n..];
    UnescapeRun(run, bytes[i + n..]);
    PrependTwice(done, run, Unescape(bytes[i + n..]));
  }

  lemma UnescapeAtBackslash(bytes: seq<byte>, i: nat)
    requires i < |bytes| && bytes[i] == BACKSLASH
    ensures match EscapeAt(bytes[i + 1..])
            case Ok((b, n)) => Unescape(bytes[i..]) == Prepend([b], Unescape(bytes[i + 1 + n..]))
            case Err(e) => Unescape(bytes[i..]) == Err(e)
  {
    hide EscapeAt;
    assert bytes[i..][1..] == bytes[i + 1..];
    if EscapeAt(bytes[i + 1..]).Ok? {
      var n := EscapeAt(bytes[i + 1..]).value.1;
      assert bytes[i..][1 + n..] == bytes[i + 1 + n..];
    }
  }

  lemma ResumesAfterEscape(bytes: seq<byte>, i: nat, done: seq<byte>)
    requires Resumes(bytes, i, done) && i < |bytes| && bytes[i] == BACKSLASH
    ensures match EscapeAt(bytes[i + 1..])
            case Ok((b, n)) => Resumes(bytes, i + 1 + n, done + [b])
            case Err(e) => Unescape(bytes) == Err(e)
  {
    hide EscapeAt, Unescape;
    UnescapeAtBackslash(bytes, i);
    match EscapeAt(bytes[i + 1..])
    case Err(_) =>
    case Ok((b, n)) =>
      PrependTwice(done, [b], Unescape(bytes[i + 1 + n..]));
  }

  /** Resolves the escape at `i`, moving past it. */
  method TakeEscape(bytes: seq<byte>, i: nat, ghost done: seq<byte>) returns (r: Result<(byte, nat), CopyError>)
    requires Resumes(bytes, i, done) && i < |bytes| && bytes[i] == BACKSLASH
    ensures r.Err? ==> Unescape(bytes) == Err(r.error)
    ensures r.Ok? ==> i < r.value.1 <= |bytes| && Resumes(bytes, r.value.1, done + [r.value.0])
  {
    ResumesAfterEscape(bytes, i, done);
    var esc := ReadEscape(bytes, i + 1);
    if esc.Err? {
      return Err(esc.error);
    }
    return Ok((esc.value.0, i + 1 + esc.value.1));
  }

  /** How much of `bytes` from `i` on can be copied as it stands. */
  method TakeRun(bytes: seq<byte>, i: nat, ghost done: seq<byte>) returns (end: nat)
    requires Resumes(bytes, i, done)
    ensures i <= end <= |bytes| && Resumes(bytes, end, done + bytes[i..end])
    ensures end < |bytes| ==> bytes[end] == BACKSLASH
  {
    var off := IndexOf(bytes[i..], BACKSLASH);
    ResumesAfterRun(bytes, i, done, off);
    end := i + off;
  }

  /** The loop of `unescape_into`, copying runs between backslashes in one go. */
  method UnescapeEscaped(bytes: seq<byte>, out: Vec<byte>) returns (r: Result<(), CopyError>)
    modifies out
    ensures match Unescape(bytes)
            case Ok(v) => r.Ok? && out.elems == old(out.elems) + v
            case Err(e) => r == Err(e)
  {
    hide Unescape, Resumes;
    ghost var done: seq<byte> := [];
    var i := 0;
    ResumesAtStart(bytes);
    while i < |bytes|
      invariant i <= |bytes|
      invariant Resumes(bytes, i, done)
      invariant out.elems == old(out.elems) + done
    {
      var end := TakeRun(bytes, i, done);
      out.elems := out.elems + bytes[i..end];
      done := done + bytes[i..end];
      i := end;
      if i == |bytes| {
        break;
      }
      var esc := TakeEscape(bytes, i, done);
      if esc.Err? {
        return Err(esc.error);
      }
      out.elems := out.elems + [esc.value.0];
      done := done + [esc.value.0];
      i := esc.value.1;
    }
    ResumesAtEnd(bytes, done);
    return Ok(());
  }

  /**
   * Appends the decoded field to the caller's buffer; agrees with the byte-at-a-time
   * definition on every input, errors included.
   */
  method UnescapeInto(field: Field, out: Vec<byte>) returns (r: Result<(), CopyError>)
    requires field.Plain? ==> NoBackslash(field.bytes)
    modifies out
    ensures field.Null? ==> r.Ok? && out.elems == old(out.elems)
    ensures !field.Null? ==>
      match Unescape(field.bytes)
      case Ok(v) => r.Ok? && out.elems == old(out.elems) + v
      case Err(e) => r == Err(e)
  {
    match field
    case Null =>
      r := Ok(());
    case Plain(b) =>
      UnescapePlain(b);
      out.elems := out.elems + b;
      r := Ok(());
    case Escaped(b) =>
      r := UnescapeEscaped(b, out);
  }

  // ---------------------------------------------------------------- rows and fields

  /** Splits on tabs; a row always has at least one field. */
  function SplitTabs(row: seq<byte>): (raws: seq<seq<byte>>)
    ensures raws != []
    decreases |row|
  {
    var i := IndexOf(row, TAB);
    if i == |row| then [row] else [row[..i]] + SplitTabs(row[i + 1..])
  }

  function Classify(raw: seq<byte>): (f: Field)
    ensures f.Null? <==> raw == NULL_MARKER
    ensures f.Plain? ==> NoBackslash(raw)
    ensures !f.Null? ==> f.bytes == raw
  {
    if raw == NULL_MARKER then Null
    else if IndexOf(raw, BACKSLASH) < |raw| then Escaped(raw)
    else Plain(raw)
  }

  /** What a raw field denotes. */
  function ValueOf(raw: seq<byte>): (r: Result<Value, CopyError>) {
    if raw == NULL_MARKER then Ok(None)
    else
      match Unescape(raw)
      case Ok(v) => Ok(Some(v))
      case Err(e) => Err(e)
  }

  /** Decodes raw fields in order, `count` fields of the row having gone before. */
  function DecodeFields(raws: seq<seq<byte>>, count: nat, limits: Limits): (r: Result<seq<Value>, CopyError>)
    ensures r.Ok? ==> |r.value| == |raws|
  {
    if raws == [] then Ok([])
    else if count + 1 > limits.maxColumns then Err(TooManyColumns(count + 1, limits.maxColumns))
    else if |raws[0]| > limits.maxFieldBytes then Err(FieldTooLarge(|raws[0]|, limits.maxFieldBytes))
    else
      match ValueOf(raws[0])
      case Err(e) => Err(e)
      case Ok(v) => Prepend([v], DecodeFields(raws[1..], count + 1, limits))
  }

  /** The fields of a row of any width. */
  function RowFields(row: seq<byte>, limits: Limits): (r: Result<seq<Value>, CopyError>) {
    if |row| > limits.maxRowBytes then Err(RowTooLarge(|row|, limits.maxRowBytes))
    else DecodeFields(SplitTabs(row), 0, limits)
  }

  /** What decoding a row must give, error precedence included. */
  function DecodeRowSpec(row: seq<byte>, expected: nat, limits: Limits): (r: Result<seq<Value>, CopyError>)
    ensures r.Ok? ==> |r.value| == expected
  {
    match RowFields(row, limits)
    case Err(e) => Err(e)
    case Ok(vs) => if |vs| != expected then Err(FieldCountMismatch(|vs|, expected)) else Ok(vs)
  }

  /** Even an empty line has a field, so no row decodes against no columns. */
  lemma NoRowIsEmpty(row: seq<byte>, limits: Limits)
    ensures var r := RowFields(row, limits);
      DecodeRowSpec(row, 0, limits) == (if r.Ok? then Err(FieldCountMismatch(|r.value|, 0)) else Err(r.error))
    ensures RowFields(row, limits).Ok? ==> RowFields(row, limits).value != []
  {
    assert SplitTabs(row) != [];
  }

  /** The complete rows of a chunk, one at a time. */
  class Rows {
    var rest: seq<byte>

    constructor (chunk: seq<byte>)
      ensures rest == chunk
    {
      rest := chunk;
    }

    /** Takes the first of the remaining rows; at the end, what is left has no newline. */
    method Next() returns (row: Option<seq<byte>>)
      modifies this
      ensures row.None? ==> rest == old(rest) && RowsOf(rest) == [] && Tail(rest) == rest
      ensures row.Some? ==>
        && RowsOf(old(rest)) == [row.value] + RowsOf(rest)
        && Tail(rest) == Tail(old(rest))
        && |rest| < |old(rest)|
    {
      var nl := IndexOf(rest, NL);
      if nl == |rest| {
        return None;
      }
      row := Some(StripCr(rest[..nl]));
      rest := rest[nl + 1..];
    }
  }

  /** The fields of one row, checked against the limits as they are met. */
  class Fields {
    const row: seq<byte>
    const limits: Limits
    var pos: nat
    var count: nat
    var finished: bool
    var rowChecked: bool

    ghost predicate Valid()
      reads this
    {
      pos <= |row|
    }

    /** The raw fields still to come. */
    ghost function Remaining(): (raws: seq<seq<byte>>)
      requires Valid()
      reads this
    {
      if finished then [] else SplitTabs(row[pos..])
    }

    constructor (row: seq<byte>, limits: Limits)
      ensures Valid() && Remaining() == SplitTabs(row)
      ensures this.row == row && this.limits == limits && count == 0 && !rowChecked
    {
      this.row, this.limits := row, limits;
      pos, count, finished, rowChecked := 0, 0, false, false;
      assert row[0..] == row;
    }

    /** Cuts the next raw field off the row. */
    method Cut() returns (raw: seq<byte>)
      requires Valid() && !finished
      modifies this`pos, this`finished
      ensures Valid() && old(Remaining()) == [raw] + Remaining()
    {
      var off := IndexOf(row[pos..], TAB);
      raw := row[pos..pos + off];
      if pos + off < |row| {
        assert row[pos..][off + 1..] == row[pos + off + 1..];
        assert row[pos..][..off] == raw;
        pos := pos + off + 1;
      } else {
        assert row[pos..pos + off] == row[pos..];
        finished := true;
      }
    }

    method Next() returns (r: Option<Result<Field, CopyError>>)
      requires Valid()
      modifies this
      ensures Valid() && rowChecked
      ensures IsNext(row, limits, old(rowChecked), old(count), old(Remaining()), r, count, Remaining())
    {
      if !rowChecked {
        rowChecked := true;
        if |row| > limits.maxRowBytes {
          finished := true;
          return Some(Err(RowTooLarge(|row|, limits.maxRowBytes)));
        }
      }
      if finished {
        return None;
      }
      var raw := Cut();
      count := count + 1;
      if count > limits.maxColumns {
        finished := true;
        return Some(Err(TooManyColumns(count, limits.maxColumns)));
      }
      if |raw| > limits.maxFieldBytes {
        finished := true;
        return Some(Err(FieldTooLarge(|raw|, limits.maxFieldBytes)));
      }
      return Some(Ok(Classify(raw)));
    }
  }

  /** What asking for the next field must answer, and what it leaves to come. */
  ghost predicate IsNext(row: seq<byte>, limits: Limits, checked: bool, count: nat, left: seq<seq<byte>>,
                         r: Option<Result<Field, CopyError>>, after: nat, rest: seq<seq<byte>>) {
    if !checked && |row| > limits.maxRowBytes then
      r == Some(Err(RowTooLarge(|row|, limits.maxRowBytes))) && rest == []
    else if left == [] then
      r == None && rest == []
    else
      && after == count + 1
      && if after > limits.maxColumns then
           r == Some(Err(TooManyColumns(after, limits.maxColumns))) && rest == []
         else if |left[0]| > limits.maxFieldBytes then
           r == Some(Err(FieldTooLarge(|left[0]|, limits.maxFieldBytes))) && rest == []
         else
           r == Some(Ok(Classify(left[0]))) && rest == left[1..]
  }

  /** The ranges tile `from..to`: each non-null field starts where the previous one ended. */
  predicate Tiles(ranges: seq<Option<Range>>, from: nat, to: nat) {
    if ranges == [] then from == to
    else if ranges[0].None? then Tiles(ranges[1..], from, to)
    else ranges[0].value.lo == from <= ranges[0].value.hi && Tiles(ranges[1..], ranges[0].value.hi, to)
  }

  /** `ranges` into `scratch` hold exactly the decoded values. */
  ghost predicate Holds(ranges: seq<Option<Range>>, scratch: seq<byte>, values: seq<Value>) {
    && |ranges| == |values|
    && forall i :: 0 <= i < |ranges| ==> HoldsOne(ranges[i], scratch, values[i])
  }

  ghost predicate HoldsOne(range: Option<Range>, scratch: seq<byte>, value: Value) {
    match range
    case None => value == None
    case Some(Range(lo, hi)) => lo <= hi <= |scratch| && value == Some(scratch[lo..hi])
  }

  lemma {:induction false} TilesSnoc(ranges: seq<Option<Range>>, from: nat, mid: nat, to: nat)
    requires Tiles(ranges, from, mid) && mid <= to
    ensures Tiles(ranges + [Some(Range(mid, to))], from, to)
    ensures Tiles(ranges + [None], from, mid)
    decreases |ranges|
  {
    var more := ranges + [Some(Range(mid, to))];
    var none := ranges + [None];
    if ranges == [] {
      assert more[1..] == [] && none[1..] == [];
    } else {
      TilesSnoc(ranges[1..], if ranges[0].None? then from else ranges[0].value.hi, mid, to);
      assert more[1..] == ranges[1..] + [Some(Range(mid, to))];
      assert none[1..] == ranges[1..] + [None];
    }
  }

  lemma HoldsSnoc(ranges: seq<Option<Range>>, scratch: seq<byte>, values: seq<Value>, more: seq<byte>)
    requires Holds(ranges, scratch, values)
    ensures Holds(ranges + [Some(Range(|scratch|, |scratch + more|))], scratch + more, values + [Some(more)])
    ensures Holds(ranges + [None], scratch, values + [None])
  {
    forall i | 0 <= i < |ranges|
      ensures HoldsOne(ranges[i], scratch + more, values[i])
    {
      assert HoldsOne(ranges[i], scratch, values[i]);
      if ranges[i].Some? {
        var Range(lo, hi) := ranges[i].value;
        assert (scratch + more)[lo..hi] == scratch[lo..hi];
      }
    }
    assert (scratch + more)[|scratch|..|scratch + more|] == more;
  }

  /** The progress of decoding one row. */
  ghost predicate Decoding(raws: seq<seq<byte>>, limits: Limits, count: nat, left: seq<seq<byte>>,
                           ranges: seq<Option<Range>>, scratch: seq<byte>, values: seq<Value>) {
    && Tiles(ranges, 0, |scratch|)
    && Holds(ranges, scratch, values)
    && DecodeFields(raws, 0, limits) == Prepend(values, DecodeFields(left, count, limits))
  }

  /** One more field decoded: from the field's own result to the row's. */
  lemma DecodingStep(raws: seq<seq<byte>>, limits: Limits, count: nat, left: seq<seq<byte>>,
                     ranges: seq<Option<Range>>, scratch: seq<byte>, values: seq<Value>)
    requires Decoding(raws, limits, count, left, ranges, scratch, values) && left != []
    requires count + 1 <= limits.maxColumns && |left[0]| <= limits.maxFieldBytes
    ensures match ValueOf(left[0])
            case Err(e) => DecodeFields(raws, 0, limits) == Err(e)
            case Ok(None) => Decoding(raws, limits, count + 1, left[1..], ranges + [None], scratch, values + [None])
            case Ok(Some(v)) =>
              Decoding(raws, limits, count + 1, left[1..], ranges + [Some(Range(|scratch|, |scratch + v|))],
                       scratch + v, values + [Some(v)])
  {
    match ValueOf(left[0])
    case Err(_) =>
    case Ok(v) =>
      var more := if v.Some? then v.value else [];
      PrependTwice(values, [v], DecodeFields(left[1..], count + 1, limits));
      TilesSnoc(ranges, 0, |scratch|, |scratch + more|);
      HoldsSnoc(ranges, scratch, values, more);
  }

  /** With nothing left, the row is decoded. */
  lemma DecodingEnds(raws: seq<seq<byte>>, limits: Limits, count: nat,
                     ranges: seq<Option<Range>>, scratch: seq<byte>, values: seq<Value>)
    requires Decoding(raws, limits, count, [], ranges, scratch, values)
    ensures DecodeFields(raws, 0, limits) == Ok(values)
    ensures Tiles(ranges, 0, |scratch|) && Holds(ranges, scratch, values)
  {
    assert values + [] == values;
  }

  /** A field over a limit is the row's error. */
  lemma DecodingOverLimit(raws: seq<seq<byte>>, limits: Limits, count: nat, left: seq<seq<byte>>,
                          ranges: seq<Option<Range>>, scratch: seq<byte>, values: seq<Value>)
    requires Decoding(raws, limits, count, left, ranges, scratch, values) && left != []
    ensures count + 1 > limits.maxColumns ==>
      DecodeFields(raws, 0, limits) == Err(TooManyColumns(count + 1, limits.maxColumns))
    ensures count + 1 <= limits.maxColumns && |left[0]| > limits.maxFieldBytes ==>
      DecodeFields(raws, 0, limits) == Err(FieldTooLarge(|left[0]|, limits.maxFieldBytes))
  {
  }

  lemma DecodingStarts(row: seq<byte>, limits: Limits)
    ensures Decoding(SplitTabs(row), limits, 0, SplitTabs(row), [], [], [])
  {
    var r := DecodeFields(SplitTabs(row), 0, limits);
    assert r.Ok? ==> [] + r.value == r.value;
  }

  /** Decodes one field onto the end of the buffers. */
  method AppendField(field: Field, scratch: Vec<byte>, out: Vec<Option<Range>>,
                     ghost raws: seq<seq<byte>>, ghost limits: Limits, ghost count: nat,
                     ghost left: seq<seq<byte>>, ghost values: seq<Value>)
    returns (r: Result<(), CopyError>, ghost now: seq<Value>)
    requires Decoding(raws, limits, count, left, out.elems, scratch.elems, values) && left != []
    requires count + 1 <= limits.maxColumns && |left[0]| <= limits.maxFieldBytes
    requires field == Classify(left[0])
    modifies scratch, out
    ensures r.Err? ==> DecodeFields(raws, 0, limits) == Err(r.error)
    ensures r.Ok? ==> Decoding(raws, limits, count + 1, left[1..], out.elems, scratch.elems, now)
  {
    hide Decoding, DecodeFields, Unescape;
    now := values;
    DecodingStep(raws, limits, count, left, out.elems, scratch.elems, values);
    if field.Null? {
      out.elems := out.elems + [None];
      now := now + [None];
      return Ok(()), now;
    }
    var start := |scratch.elems|;
    r := UnescapeInto(field, scratch);
    if r.Ok? {
      out.elems := out.elems + [Some(Range(start, |scratch.elems|))];
      now := now + [Some(Unescape(field.bytes).value)];
    }
  }

  /** The loop of `decode_row` over the fields. */
  method DecodeInto(row: seq<byte>, limits: Limits, scratch: Vec<byte>, out: Vec<Option<Range>>)
    returns (r: Result<(), CopyError>)
    requires scratch.elems == [] && out.elems == []
    modifies scratch, out
    ensures r.Err? ==> RowFields(row, limits) == Err(r.error)
    ensures r.Ok? ==>
      && RowFields(row, limits).Ok?
      && Tiles(out.elems, 0, |scratch.elems|)
      && Holds(out.elems, scratch.elems, RowFields(row, limits).value)
  {
    hide Decoding, DecodeFields, SplitTabs, Unescape, Tiles, Holds;
    var fields := new Fields(row, limits);
    ghost var raws := SplitTabs(row);
    ghost var values: seq<Value> := [];
    DecodingStarts(row, limits);
    while true
      invariant fresh(fields) && fields.Valid() && fields.row == row && fields.limits == limits
      invariant fields.rowChecked ==> |row| <= limits.maxRowBytes
      invariant Decoding(raws, limits, fields.count, fields.Remaining(), out.elems, scratch.elems, values)
      decreases |fields.Remaining()|, !fields.rowChecked
    {
      ghost var left, count, checked := fields.Remaining(), fields.count, fields.rowChecked;
      var next := fields.Next();
      if next.None? {
        DecodingEnds(raws, limits, count, out.elems, scratch.elems, values);
        return Ok(());
      }
      if next.value.Err? {
        if left != [] {
          DecodingOverLimit(raws, limits, count, left, out.elems, scratch.elems, values);
        }
        return Err(next.value.error);
      }
      r, values := AppendField(next.value.value, scratch, out, raws, limits, count, left, values);
      if r.Err? {
        return;
      }
    }
  }

  /**
   * Decodes a row into the caller's buffers: the outcome is the specified one on every
   * input, and on success the ranges tile `scratch` and hold the decoded fields.
   */
  method DecodeRow(row: seq<byte>, expected: nat, limits: Limits, scratch: Vec<byte>, out: Vec<Option<Range>>)
    returns (r: Result<(), CopyError>)
    modifies scratch, out
    ensures match DecodeRowSpec(row, expected, limits)
            case Err(e) => r == Err(e)
            case Ok(vs) => r.Ok? && Tiles(out.elems, 0, |scratch.elems|) && Holds(out.elems, scratch.elems, vs)
  {
    scratch.elems := [];
    out.elems := [];
    r := DecodeInto(row, limits, scratch, out);
    if r.Ok? && |out.elems| != expected {
      r := Err(FieldCountMismatch(|out.elems|, expected));
    }
  }
}
