/**
 * A decode worker's handling of one job (src/pipeline.rs, `worker_loop`), with the batch
 * bounds of src/builders.rs and the row count of src/sink.rs.
 */
module Worker {
  import opened Bytes
  import CopyText

  type Row = seq<CopyText.Value>

  /** A row as decoding it went. */
  type Decoded = Result<Row, CopyText.CopyError>

  /** The immutable description of an open block. */
  datatype Ctx = Ctx(generation: nat, arity: nat, limits: CopyText.Limits, maxRows: nat, maxBytes: nat)

  datatype Job =
    | Open(ctx: Ctx)
    | Rows(generation: nat, bytes: seq<byte>)
    | Close(generation: nat)

  /** Batches already written, and the one being filled. */
  datatype Block = Block(written: seq<seq<Row>>, filling: seq<Row>, bytes: nat)

  const NEW_BLOCK := Block([], [], 0)

  function Content(b: Block): (rows: seq<Row>) {
    Concat(b.written) + b.filling
  }

  function FieldBytes(row: Row): (n: nat) {
    if row == [] then 0 else (if row[0].Some? then |row[0].value| else 0) + FieldBytes(row[1..])
  }

  predicate IsFull(b: Block, ctx: Ctx) {
    |b.filling| >= ctx.maxRows || b.bytes >= ctx.maxBytes
  }

  /** Writes the batch being filled, if it holds anything. */
  function Flush(b: Block): (r: Block)
    ensures r.filling == []
  {
    if b.filling == [] then b else Block(b.written + [b.filling], [], 0)
  }

  function AppendRow(b: Block, row: Row, ctx: Ctx): (r: Block) {
    var more := Block(b.written, b.filling + [row], b.bytes + FieldBytes(row));
    if IsFull(more, ctx) then Flush(more) else more
  }

  /** Rows counted as batches are handed to the writer. */
  function WrittenRows(written: seq<seq<Row>>): (n: nat) {
    if written == [] then 0 else |written[0]| + WrittenRows(written[1..])
  }

  /** Flushing and appending neither lose nor reorder rows, whatever the batch bounds. */
  lemma FlushContent(b: Block)
    ensures Content(Flush(b)) == Content(b)
  {
    if b.filling != [] {
      ConcatSnoc(b.written, b.filling);
      assert Concat(b.written + [b.filling]) + [] == Concat(b.written + [b.filling]);
    }
  }

  lemma AppendContent(b: Block, row: Row, ctx: Ctx)
    ensures Content(AppendRow(b, row, ctx)) == Content(b) + [row]
  {
    var more := Block(b.written, b.filling + [row], b.bytes + FieldBytes(row));
    FlushContent(more);
    assert Concat(b.written) + (b.filling + [row]) == Concat(b.written) + b.filling + [row];
  }

  lemma {:induction false} WrittenRowsCount(written: seq<seq<Row>>)
    ensures WrittenRows(written) == |Concat(written)|
    decreases |written|
  {
    if written != [] {
      WrittenRowsCount(written[1..]);
    }
  }

  /** Every row of a payload decoded and appended, or the first decoding error. */
  function AppendRows(b: Block, rows: seq<seq<byte>>, ctx: Ctx): (r: Result<Block, CopyText.CopyError>)
    decreases |rows|
  {
    if rows == [] then Ok(b)
    else
      match CopyText.DecodeRowSpec(rows[0], ctx.arity, ctx.limits)
      case Err(e) => Err(e)
      case Ok(row) => AppendRows(AppendRow(b, row, ctx), rows[1..], ctx)
  }

  /** How each row of a sequence decodes. */
  function DecodeEach(rows: seq<seq<byte>>, arity: nat, limits: CopyText.Limits): (r: seq<Decoded>)
    ensures |r| == |rows|
    ensures forall i :: 0 <= i < |rows| ==> r[i] == CopyText.DecodeRowSpec(rows[i], arity, limits)
  {
    seq(|rows|, i requires 0 <= i < |rows| => CopyText.DecodeRowSpec(rows[i], arity, limits))
  }

  function AllOk(rows: seq<Row>): (r: seq<Decoded>)
    ensures |r| == |rows|
    ensures forall i :: 0 <= i < |rows| ==> r[i] == Ok(rows[i])
  {
    seq(|rows|, i requires 0 <= i < |rows| => Ok(rows[i]))
  }

  lemma DecodeEachAppend(a: seq<seq<byte>>, b: seq<seq<byte>>, arity: nat, limits: CopyText.Limits)
    ensures DecodeEach(a + b, arity, limits) == DecodeEach(a, arity, limits) + DecodeEach(b, arity, limits)
  {
    hide CopyText.DecodeRowSpec;
  }

  /** Row `i` is the first that does not decode, for the reason `e`. */
  ghost predicate FirstBad(rows: seq<seq<byte>>, i: nat, arity: nat, limits: CopyText.Limits, e: CopyText.CopyError) {
    && i < |rows| && CopyText.DecodeRowSpec(rows[i], arity, limits) == Err(e)
    && forall j :: 0 <= j < i ==> CopyText.DecodeRowSpec(rows[j], arity, limits).Ok?
  }

  lemma FirstBadLater(rows: seq<seq<byte>>, i: nat, arity: nat, limits: CopyText.Limits, e: CopyText.CopyError)
    requires rows != [] && CopyText.DecodeRowSpec(rows[0], arity, limits).Ok? && FirstBad(rows[1..], i, arity, limits, e)
    ensures FirstBad(rows, i + 1, arity, limits, e)
  {
    hide CopyText.DecodeRowSpec;
    forall j | 0 <= j < i + 1
      ensures CopyText.DecodeRowSpec(rows[j], arity, limits).Ok?
    {
      assert j > 0 ==> rows[j] == rows[1..][j - 1];
    }
  }

  /** A payload is appended whole and in order, or refused for the first row that does not decode. */
  lemma {:induction false} AppendRowsContent(b: Block, rows: seq<seq<byte>>, ctx: Ctx)
    ensures match AppendRows(b, rows, ctx)
      case Ok(r) => AllOk(Content(r)) == AllOk(Content(b)) + DecodeEach(rows, ctx.arity, ctx.limits)
      case Err(e) => exists i :: FirstBad(rows, i, ctx.arity, ctx.limits, e)
    decreases |rows|
  {
    hide CopyText.DecodeRowSpec, AppendRow, Content;
    if rows != [] {
      var d := CopyText.DecodeRowSpec(rows[0], ctx.arity, ctx.limits);
      if d.Ok? {
        var next := AppendRow(b, d.value, ctx);
        AppendRowsContent(next, rows[1..], ctx);
        AppendContent(b, d.value, ctx);
        assert AllOk(Content(next)) == AllOk(Content(b)) + [d];
        assert DecodeEach(rows, ctx.arity, ctx.limits) == [d] + DecodeEach(rows[1..], ctx.arity, ctx.limits);
        var r := AppendRows(next, rows[1..], ctx);
        if r.Err? {
          var i: nat :| FirstBad(rows[1..], i, ctx.arity, ctx.limits, r.error);
          FirstBadLater(rows, i, ctx.arity, ctx.limits, r.error);
        }
      } else {
        assert FirstBad(rows, 0, ctx.arity, ctx.limits, d.error);
      }
    }
  }

  /** Whatever was appended before it, the first bad row decides the error. */
  lemma {:induction false} FirstBadFails(b: Block, rows: seq<seq<byte>>, ctx: Ctx, i: nat, e: CopyText.CopyError)
    requires FirstBad(rows, i, ctx.arity, ctx.limits, e)
    ensures AppendRows(b, rows, ctx) == Err(e)
    decreases i
  {
    hide CopyText.DecodeRowSpec, AppendRow;
    if i > 0 {
      var d := CopyText.DecodeRowSpec(rows[0], ctx.arity, ctx.limits);
      assert rows[1..][i - 1] == rows[i] && forall j :: 0 <= j < i - 1 ==> rows[1..][j] == rows[j + 1];
      FirstBadFails(AppendRow(b, d.value, ctx), rows[1..], ctx, i - 1, e);
    }
  }

  // ---------------------------------------------------------------- batches

  /** The bytes of a row's values, end to end; a null has none. */
  function ValueBytes(row: Row): (bytes: seq<byte>) {
    if row == [] then [] else ValueBytes(row[..|row| - 1]) + (if row[|row| - 1].Some? then row[|row| - 1].value else [])
  }

  /** The bytes of the values in some rows. */
  function BatchBytes(rows: seq<Row>): (n: nat) {
    if rows == [] then 0 else BatchBytes(rows[..|rows| - 1]) + |ValueBytes(rows[|rows| - 1])|
  }

  lemma {:induction false} FieldBytesSnoc(row: Row, v: CopyText.Value)
    ensures FieldBytes(row + [v]) == FieldBytes(row) + (if v.Some? then |v.value| else 0)
    decreases |row|
  {
    if row == [] {
      assert ([v])[1..] == [];
      assert row + [v] == [v];
    } else {
      assert (row + [v])[1..] == row[1..] + [v];
      FieldBytesSnoc(row[1..], v);
    }
  }

  lemma {:induction false} FieldBytesAre(row: Row)
    ensures FieldBytes(row) == |ValueBytes(row)|
    decreases |row|
  {
    if row != [] {
      var init, last := row[..|row| - 1], row[|row| - 1];
      assert row == init + [last];
      FieldBytesAre(init);
      FieldBytesSnoc(init, last);
    }
  }

  /** As many rows, or as many bytes, as a batch may hold. */
  predicate Reaches(rows: seq<Row>, ctx: Ctx) {
    |rows| >= ctx.maxRows || BatchBytes(rows) >= ctx.maxBytes
  }

  /** A batch is written as soon as it reaches a bound: with its last row, and not before. */
  predicate JustFull(batch: seq<Row>, ctx: Ctx) {
    batch != [] && Reaches(batch, ctx) && (|batch| > 1 ==> !Reaches(batch[..|batch| - 1], ctx))
  }

  /** Every batch written was just full, and what is being filled is not full yet. */
  ghost predicate Batched(b: Block, ctx: Ctx) {
    && b.bytes == BatchBytes(b.filling)
    && (b.filling != [] ==> !Reaches(b.filling, ctx))
    && forall i :: 0 <= i < |b.written| ==> JustFull(b.written[i], ctx)
  }

  lemma AppendBatched(b: Block, row: Row, ctx: Ctx)
    requires Batched(b, ctx)
    ensures Batched(AppendRow(b, row, ctx), ctx)
  {
    var filling := b.filling + [row];
    assert filling[..|filling| - 1] == b.filling;
    FieldBytesAre(row);
    hide FieldBytes, ValueBytes;
    if IsFull(Block(b.written, filling, b.bytes + FieldBytes(row)), ctx) {
      assert JustFull(filling, ctx);
    }
  }

  /** No batch outgrows its bounds by more than the row that reaches them, and none is cut early. */
  lemma {:induction false} AppendRowsBatched(b: Block, rows: seq<seq<byte>>, ctx: Ctx)
    requires Batched(b, ctx)
    ensures match AppendRows(b, rows, ctx) { case Ok(r) => Batched(r, ctx) case Err(_) => true }
    decreases |rows|
  {
    hide CopyText.DecodeRowSpec, AppendRow, Batched;
    if rows != [] {
      var d := CopyText.DecodeRowSpec(rows[0], ctx.arity, ctx.limits);
      if d.Ok? {
        AppendBatched(b, d.value, ctx);
        AppendRowsBatched(AppendRow(b, d.value, ctx), rows[1..], ctx);
      }
    }
  }

  /** The values the decoder left in the scratch buffer, as the builders read them. */
  function ReadRanges(ranges: seq<Option<CopyText.Range>>, scratch: seq<byte>): (row: Row)
    requires forall i :: 0 <= i < |ranges| && ranges[i].Some? ==> ranges[i].value.lo <= ranges[i].value.hi <= |scratch|
    ensures |row| == |ranges|
    ensures forall i :: 0 <= i < |ranges| ==>
      row[i] == if ranges[i].None? then None else Some(scratch[ranges[i].value.lo..ranges[i].value.hi])
  {
    seq(|ranges|, i requires 0 <= i < |ranges| =>
      if ranges[i].None? then None else Some(scratch[ranges[i].value.lo..ranges[i].value.hi]))
  }

  lemma RangesHold(ranges: seq<Option<CopyText.Range>>, scratch: seq<byte>, row: Row)
    requires CopyText.Holds(ranges, scratch, row)
    ensures forall i :: 0 <= i < |ranges| && ranges[i].Some? ==> ranges[i].value.lo <= ranges[i].value.hi <= |scratch|
    ensures ReadRanges(ranges, scratch) == row
  {
    forall i | 0 <= i < |ranges|
      ensures CopyText.HoldsOne(ranges[i], scratch, row[i])
    {
    }
  }

  /**
   * The row loop of a worker: split the payload, decode each row into the reused buffers,
   * append it, and write a batch whenever one fills. What the payload leaves after its last
   * newline is dropped.
   */
  method WorkRows(block: Block, payload: seq<byte>, ctx: Ctx) returns (r: Result<Block, CopyText.CopyError>)
    ensures r == AppendRows(block, RowsOf(payload), ctx)
  {
    hide CopyText.DecodeRowSpec, AppendRow, CopyText.Tiles, CopyText.Holds;
    var scratch := new Vec<byte>();
    var ranges := new Vec<Option<CopyText.Range>>();
    var rows := new CopyText.Rows(payload);
    var b := block;
    while true
      invariant fresh(rows) && fresh(scratch) && fresh(ranges)
      invariant AppendRows(block, RowsOf(payload), ctx) == AppendRows(b, RowsOf(rows.rest), ctx)
      decreases |rows.rest|
    {
      ghost var left := rows.rest;
      var row := rows.Next();
      if row.None? {
        return Ok(b);
      }
      assert RowsOf(left)[1..] == RowsOf(rows.rest);
      var d := CopyText.DecodeRow(row.value, ctx.arity, ctx.limits, scratch, ranges);
      if d.Err? {
        return Err(d.error);
      }
      RangesHold(ranges.elems, scratch.elems, CopyText.DecodeRowSpec(row.value, ctx.arity, ctx.limits).value);
      b := AppendRow(b, ReadRanges(ranges.elems, scratch.elems), ctx);
    }
  }
}
