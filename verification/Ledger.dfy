/**
 * What a load should contain, read off a dump one line at a time: for every `COPY` block
 * that is wanted, its table, its arity and its rows in order.
 */
module Ledger {
  import opened Bytes
  import opened SqlText
  import opened Scan
  import opened Worker
  import CopyText
  import Pool
  import Delta

  datatype BlockSpec = BlockSpec(table: TableName, arity: nat, rows: seq<seq<byte>>)

  datatype Books = Books(closed: seq<BlockSpec>, open: Option<BlockSpec>)

  function Enter(cfg: Pool.Config, b: Books, item: Item): (r: Books) {
    match item
    case Row(bytes) =>
      if b.open.Some? then b.(open := Some(b.open.value.(rows := b.open.value.rows + [bytes]))) else b
    case Other(CopyStart(t, columns)) =>
      b.(open := if Pool.Wanted(cfg, t) then Some(BlockSpec(t, |columns|, [])) else None)
    case Other(CopyEnd(_)) =>
      if b.open.Some? then Books(b.closed + [b.open.value], None) else b
    case Other(_) => b
  }

  /** The books after `items`, entered one by one. */
  function Entered(cfg: Pool.Config, items: seq<Item>): (b: Books)
    decreases |items|
  {
    if items == [] then Books([], None)
    else Enter(cfg, Entered(cfg, items[..|items| - 1]), items[|items| - 1])
  }

  lemma LedgerSnoc(cfg: Pool.Config, items: seq<Item>, item: Item)
    ensures Entered(cfg, items + [item]) == Enter(cfg, Entered(cfg, items), item)
  {
    assert (items + [item])[..|items|] == items;
  }

  function WithRows(b: Books, rows: seq<seq<byte>>): (r: Books) {
    if b.open.Some? then b.(open := Some(b.open.value.(rows := b.open.value.rows + rows))) else b
  }

  lemma {:induction false} LedgerRows(cfg: Pool.Config, items: seq<Item>, rows: seq<seq<byte>>)
    ensures Entered(cfg, items + RowItems(rows)) == WithRows(Entered(cfg, items), rows)
    decreases |rows|
  {
    hide Entered;
    var b := Entered(cfg, items);
    if rows == [] {
      assert items + RowItems(rows) == items;
      if b.open.Some? {
        assert b.open.value.rows + [] == b.open.value.rows;
      }
    } else {
      var init, last := rows[..|rows| - 1], rows[|rows| - 1];
      LedgerRows(cfg, items, init);
      assert items + RowItems(rows) == items + RowItems(init) + [Row(last)];
      LedgerSnoc(cfg, items + RowItems(init), Row(last));
      if b.open.Some? {
        assert b.open.value.rows + init + [last] == b.open.value.rows + rows;
      }
    }
  }

  /** How one more event changes the books. */
  lemma LedgerEvent(cfg: Pool.Config, done: seq<Event>, e: Event)
    ensures Entered(cfg, Flatten(done + [e])) ==
      if e.CopyRows? then WithRows(Entered(cfg, Flatten(done)), RowsOf(e.payload))
      else Enter(cfg, Entered(cfg, Flatten(done)), Other(e))
  {
    hide Entered, Enter, RowItems;
    FlattenAppend(done, [e]);
    if e.CopyRows? {
      FlattenRows(e.payload);
      LedgerRows(cfg, Flatten(done), RowsOf(e.payload));
    } else {
      assert [e][1..] == [];
      assert Flatten([e]) == [Other(e)];
      LedgerSnoc(cfg, Flatten(done), Other(e));
    }
  }

  /** The rows of a block as they decode, in no particular order. */
  function Bag(rows: seq<seq<byte>>, arity: nat, limits: CopyText.Limits): (m: multiset<Decoded>) {
    multiset(DecodeEach(rows, arity, limits))
  }

  lemma BagAppend(a: seq<seq<byte>>, b: seq<seq<byte>>, arity: nat, limits: CopyText.Limits)
    ensures Bag(a + b, arity, limits) == Bag(a, arity, limits) + Bag(b, arity, limits)
  {
    DecodeEachAppend(a, b, arity, limits);
  }

  /** A block loaded as it should be: its table, all its rows, and their number. */
  ghost predicate Loaded(r: Pool.BlockResult, spec: BlockSpec, limits: CopyText.Limits) {
    && r.table == spec.table
    && multiset(AllOk(Delta.FileRows(r.files))) == Bag(spec.rows, spec.arity, limits)
    && r.count == |spec.rows|
  }

  ghost predicate AllLoaded(results: seq<Pool.BlockResult>, specs: seq<BlockSpec>, limits: CopyText.Limits) {
    && |results| == |specs|
    && forall i :: 0 <= i < |results| ==> Loaded(results[i], specs[i], limits)
  }

  /** Equal bags are equally big. */
  lemma LoadedCount(rows: seq<Row>, raw: seq<seq<byte>>, arity: nat, limits: CopyText.Limits)
    requires multiset(AllOk(rows)) == Bag(raw, arity, limits)
    ensures |rows| == |raw|
  {
    assert |multiset(AllOk(rows))| == |rows| && |Bag(raw, arity, limits)| == |raw|;
  }

  /** Nothing that is loaded failed to decode: every row of the block decodes, and is there. */
  lemma LoadedDecodes(r: Pool.BlockResult, spec: BlockSpec, limits: CopyText.Limits, i: nat)
    requires Loaded(r, spec, limits) && i < |spec.rows|
    ensures CopyText.DecodeRowSpec(spec.rows[i], spec.arity, limits).Ok?
    ensures CopyText.DecodeRowSpec(spec.rows[i], spec.arity, limits).value in Delta.FileRows(r.files)
  {
    hide CopyText.DecodeRowSpec;
    var d := DecodeEach(spec.rows, spec.arity, limits)[i];
    assert d in Bag(spec.rows, spec.arity, limits);
    assert d in multiset(AllOk(Delta.FileRows(r.files)));
    assert d in AllOk(Delta.FileRows(r.files));
  }

  /** A block whose header lists no columns is loaded only if it has no rows. */
  lemma NeedsColumns(r: Pool.BlockResult, spec: BlockSpec, limits: CopyText.Limits)
    requires Loaded(r, spec, limits) && spec.arity == 0
    ensures spec.rows == []
  {
    hide CopyText.DecodeRowSpec, Loaded;
    if spec.rows != [] {
      LoadedDecodes(r, spec, limits, 0);
      CopyText.NoRowIsEmpty(spec.rows[0], limits);
    }
  }
}
