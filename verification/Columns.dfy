/** Column types and the builders of Arrow arrays (src/types.rs, src/builders.rs). */
module Columns {
  import opened Bytes
  import ArrayText

  // ---------------------------------------------------------------- types

  datatype PgType =
    | SmallInt | Integer | BigInt | Real | DoublePrecision
    | Numeric(precision: Option<nat>, scale: Option<int>)
    | Boolean | Date | Timestamp(tz: bool) | Time(tz: bool) | Bytea | Text

  datatype ResolvedType = ResolvedType(pg: PgType, isArray: bool, dimensions: nat, recognised: bool)

  datatype ArrowType =
    | Int16 | Int32 | Int64 | Float32 | Float64
    | Decimal128(precision: nat, scale: int)
    | Bool | Date32 | TimestampMicros(utc: bool) | Time64Micros | Binary | Utf8
    | List(item: ArrowType)

  const MAX_DECIMAL_PRECISION: nat := 38
  const WIDE_NUMERIC_SCALE: int := 18

  predicate NumericTooWide(precision: Option<nat>) {
    precision.None? || precision.value > MAX_DECIMAL_PRECISION
  }

  predicate DecimalFits(precision: Option<nat>, scale: Option<int>) {
    precision.Some? && 1 <= precision.value <= MAX_DECIMAL_PRECISION
    && (scale.None? || 0 <= scale.value <= precision.value)
  }

  predicate IsTextual(rt: ResolvedType) {
    rt.isArray || rt.pg.Text? || (rt.pg.Numeric? && !DecimalFits(rt.pg.precision, rt.pg.scale))
  }

  function AsElement(rt: ResolvedType): (e: ResolvedType) {
    rt.(isArray := false, dimensions := 0)
  }

  function OrElse<T>(o: Option<T>, default: T): (t: T) {
    if o.Some? then o.value else default
  }

  predicate IsWide(rt: ResolvedType, wide: bool) {
    rt.pg.Numeric? && wide && NumericTooWide(rt.pg.precision)
  }

  function ElementType(rt: ResolvedType, wide: bool): (t: Option<ArrowType>)
    requires !rt.isArray
    decreases rt.isArray, 1
  {
    var unsupported := match rt.pg
      case Text => !rt.recognised
      case Numeric(precision, _) => IsTextual(rt) && !(wide && NumericTooWide(precision))
      case _ => false;
    if unsupported then None else Some(TypeOf(rt, wide, false))
  }

  /** The type the schema declares for a column. */
  function TypeOf(rt: ResolvedType, wide: bool, native: bool): (t: ArrowType)
    decreases rt.isArray, 0
  {
    if rt.isArray then
      if native && rt.dimensions == 1 && ElementType(AsElement(rt), wide).Some?
      then List(ElementType(AsElement(rt), wide).value) else Utf8
    else if IsWide(rt, wide) then Decimal128(MAX_DECIMAL_PRECISION, WIDE_NUMERIC_SCALE)
    else if IsTextual(rt) then Utf8
    else
      match rt.pg
      case SmallInt => Int16
      case Integer => Int32
      case BigInt => Int64
      case Real => Float32
      case DoublePrecision => Float64
      case Numeric(p, s) => Decimal128(OrElse(p, 38), OrElse(s, 0))
      case Boolean => Bool
      case Date => Date32
      case Timestamp(_) => TimestampMicros(true)
      case Time(_) => Time64Micros
      case Bytea => Binary
      case Text => Utf8
  }

  /** The variants of a column's builder. */
  datatype Builder =
    | Int16Builder | Int32Builder | Int64Builder | Float32Builder | Float64Builder
    | DecimalBuilder(precision: nat, scale: int)
    | BooleanBuilder | DateBuilder | TimestampBuilder(tz: bool) | TimeBuilder | BinaryBuilder
    | ListBuilder(element: Builder)
    | Utf8Builder

  /** What the decimal builder of Arrow accepts. */
  predicate ArrowAccepts(precision: nat, scale: int) {
    1 <= precision <= 38 && scale <= 38 && (scale > 0 ==> scale <= precision)
  }

  function NewDecimal(precision: nat, scale: int): (b: Builder) {
    if ArrowAccepts(precision, scale) then DecimalBuilder(precision, scale) else Utf8Builder
  }

  function NewBuilder(rt: ResolvedType, wide: bool, native: bool): (b: Builder)
    decreases rt.isArray
  {
    if rt.isArray then
      if native && rt.dimensions == 1 && ElementType(AsElement(rt), wide).Some?
      then ListBuilder(NewBuilder(AsElement(rt), wide, native)) else Utf8Builder
    else if IsWide(rt, wide) then NewDecimal(MAX_DECIMAL_PRECISION, WIDE_NUMERIC_SCALE)
    else if IsTextual(rt) then Utf8Builder
    else
      match rt.pg
      case SmallInt => Int16Builder
      case Integer => Int32Builder
      case BigInt => Int64Builder
      case Real => Float32Builder
      case DoublePrecision => Float64Builder
      case Numeric(p, s) => NewDecimal(OrElse(p, 38), OrElse(s, 0))
      case Boolean => BooleanBuilder
      case Date => DateBuilder
      case Timestamp(tz) => TimestampBuilder(tz)
      case Time(_) => TimeBuilder
      case Bytea => BinaryBuilder
      case Text => Utf8Builder
  }

  /** The type of the arrays a builder finishes. */
  function Finishes(b: Builder): (t: ArrowType) {
    match b
    case Int16Builder => Int16
    case Int32Builder => Int32
    case Int64Builder => Int64
    case Float32Builder => Float32
    case Float64Builder => Float64
    case DecimalBuilder(p, s) => Decimal128(p, s)
    case BooleanBuilder => Bool
    case DateBuilder => Date32
    case TimestampBuilder(_) => TimestampMicros(true)
    case TimeBuilder => Time64Micros
    case BinaryBuilder => Binary
    case ListBuilder(e) => List(Finishes(e))
    case Utf8Builder => Utf8
  }

  lemma ScalarAgrees(rt: ResolvedType, wide: bool, a: bool, b: bool)
    requires !rt.isArray
    ensures Finishes(NewBuilder(rt, wide, a)) == TypeOf(rt, wide, b)
  {
  }

  /**
   * For every resolved type and both flags, what the builder finishes is what the schema
   * declares; lists are never nested, and a decimal always has a precision and scale that
   * Arrow accepts, with values its parser can read.
   */
  lemma BuilderAgrees(rt: ResolvedType, wide: bool, native: bool)
    ensures Finishes(NewBuilder(rt, wide, native)) == TypeOf(rt, wide, native)
    ensures TypeOf(rt, wide, native).List? ==> !TypeOf(rt, wide, native).item.List? && rt.isArray && native
    ensures var t := TypeOf(rt, wide, native);
      t.Decimal128? ==> 1 <= t.precision <= 38 && 0 <= t.scale <= t.precision && ArrowAccepts(t.precision, t.scale)
  {
    if rt.isArray {
      ScalarAgrees(AsElement(rt), wide, native, false);
    } else {
      ScalarAgrees(rt, wide, native, native);
    }
  }

  // ---------------------------------------------------------------- nothing is narrowed

  function PowerOf2(k: nat): (p: int) {
    if k == 0 then 1 else 2 * PowerOf2(k - 1)
  }

  /** The integers of a type, as PostgreSQL documents them, lowest and highest. */
  function IntegersOf(pg: PgType): (range: Option<(int, int)>) {
    match pg
    case SmallInt => Some((-32_768, 32_767))
    case Integer => Some((-2_147_483_648, 2_147_483_647))
    case BigInt => Some((-9_223_372_036_854_775_808, 9_223_372_036_854_775_807))
    case _ => None
  }

  /** The integers a column holds: those of so many bits, in two's complement. */
  function HeldBy(t: ArrowType): (range: Option<(int, int)>) {
    match t
    case Int16 => Some((-PowerOf2(15), PowerOf2(15) - 1))
    case Int32 => Some((-PowerOf2(31), PowerOf2(31) - 1))
    case Int64 => Some((-PowerOf2(63), PowerOf2(63) - 1))
    case _ => None
  }

  lemma {:induction false} PowersAdd(a: nat, b: nat)
    ensures PowerOf2(a + b) == PowerOf2(a) * PowerOf2(b)
    decreases a
  {
    if a > 0 {
      PowersAdd(a - 1, b);
    }
  }

  lemma Powers()
    ensures PowerOf2(15) == 32_768 && PowerOf2(31) == 2_147_483_648 && PowerOf2(63) == 9_223_372_036_854_775_808
  {
    assert PowerOf2(5) == 32;
    PowersAdd(5, 5);
    PowersAdd(10, 5);
    assert PowerOf2(1) == 2;
    PowersAdd(15, 15);
    PowersAdd(30, 1);
    PowersAdd(31, 31);
    PowersAdd(62, 1);
  }

  /** Every integer of the declared type fits its column, and the column is no wider. */
  lemma IntegersFit(rt: ResolvedType, wide: bool, native: bool)
    requires !rt.isArray
    ensures HeldBy(TypeOf(rt, wide, native)) == IntegersOf(rt.pg)
  {
    Powers();
    hide PowerOf2;
  }

  /** A numeric keeps its own precision and scale, or is text; unless wide ones are wanted as decimals. */
  lemma NumericsFit(precision: Option<nat>, scale: Option<int>, wide: bool, native: bool, recognised: bool)
    ensures var t := TypeOf(ResolvedType(Numeric(precision, scale), false, 0, recognised), wide, native);
      if precision.Some? && 1 <= precision.value <= 38 && (scale.Some? ==> 0 <= scale.value <= precision.value)
      then t == Decimal128(precision.value, if scale.Some? then scale.value else 0)
      else if wide && (precision.Some? ==> precision.value > 38) then t == Decimal128(38, 18)
      else t == Utf8
  {
  }

  /** The other types: binary as wide as declared, times in UTC microseconds, and text for the rest. */
  lemma OthersFit(rt: ResolvedType, wide: bool, native: bool)
    requires !rt.isArray
    ensures var t := TypeOf(rt, wide, native);
      match rt.pg
      case Real => t == Float32
      case DoublePrecision => t == Float64
      case Boolean => t == Bool
      case Date => t == Date32
      case Timestamp(_) => t == TimestampMicros(true)
      case Time(_) => t == Time64Micros
      case Bytea => t == Binary
      case Text => t == Utf8
      case _ => true
    ensures rt.pg.Timestamp? ==> NewBuilder(rt, wide, native) == TimestampBuilder(rt.pg.tz)
  {
  }

  /** An array is a list of its own element type when that is asked for and it can be, and text otherwise. */
  lemma ArraysFit(rt: ResolvedType, wide: bool, native: bool)
    requires rt.isArray
    ensures var scalar := ResolvedType(rt.pg, false, 0, rt.recognised);
      var item := TypeOf(scalar, wide, false);
      TypeOf(rt, wide, native) ==
        if native && rt.dimensions == 1 && (item == Utf8 ==> rt.pg.Text? && rt.recognised) then List(item) else Utf8
  {
  }

  // ---------------------------------------------------------------- lists

  const I32_MAX: int := 0x7fff_ffff

  /** A parser of one element: a value, a value without representation, or an error. */
  type Parser<V> = seq<byte> -> Result<Option<V>, Unparsable>

  /** Every element that is there can be read. */
  ghost predicate AllRead<V>(parse: Parser<V>, es: seq<ArrayText.Element>) {
    forall i :: 0 <= i < |es| && es[i].Some? ==> parse(es[i].value).Ok?
  }

  /** The elements in their own order, each as its own text reads, a null as a null. */
  ghost predicate Stores<V>(parse: Parser<V>, es: seq<ArrayText.Element>, vs: seq<Option<V>>) {
    && |vs| == |es|
    && forall i :: 0 <= i < |es| ==> match es[i] { case None => vs[i] == None case Some(text) => parse(text) == Ok(vs[i]) }
  }

  /** Some element that was there is stored as null. */
  predicate AnySubstituted<V(==)>(parse: Parser<V>, es: seq<ArrayText.Element>) {
    exists i :: 0 <= i < |es| && es[i].Some? && parse(es[i].value) == Ok(None)
  }

  /** The parts of a list array. */
  datatype ListArray<V> = ListArray(offsets: seq<int>, values: seq<Option<V>>, validity: seq<bool>)

  /** What the checked constructor of Arrow's list array demands. */
  ghost predicate Constructible<V>(a: ListArray<V>) {
    && |a.offsets| == |a.validity| + 1
    && a.offsets[0] == 0
    && (forall i, j :: 0 <= i <= j < |a.offsets| ==> a.offsets[i] <= a.offsets[j])
    && a.offsets[|a.offsets| - 1] == |a.values|
    && (forall i :: 0 <= i < |a.offsets| ==> 0 <= a.offsets[i] <= I32_MAX)
  }

  /** Row `i` of a list array. */
  ghost function RowAt<V>(a: ListArray<V>, i: nat): (row: Option<seq<Option<V>>>)
    requires Constructible(a) && i < |a.validity|
  {
    if a.validity[i] then Some(a.values[a.offsets[i]..a.offsets[i + 1]]) else None
  }

  ghost function RowsIn<V>(a: ListArray<V>): (rows: seq<Option<seq<Option<V>>>>)
    requires Constructible(a)
    ensures |rows| == |a.validity|
    ensures forall i :: 0 <= i < |rows| ==> rows[i] == RowAt(a, i)
  {
    seq(|a.validity|, i requires 0 <= i < |a.validity| => RowAt(a, i))
  }

  /** One more row appended to a list array. */
  function Extended<V>(a: ListArray<V>, row: Option<seq<Option<V>>>): (r: ListArray<V>)
    requires a.offsets != []
  {
    var more := if row.Some? then row.value else [];
    ListArray(a.offsets + [a.offsets[|a.offsets| - 1] + |more|], a.values + more, a.validity + [row.Some?])
  }

  lemma ExtendedRows<V>(a: ListArray<V>, row: Option<seq<Option<V>>>)
    requires Constructible(a) && (row.Some? ==> |a.values| + |row.value| <= I32_MAX)
    ensures Constructible(Extended(a, row)) && RowsIn(Extended(a, row)) == RowsIn(a) + [row]
  {
    var b := Extended(a, row);
    var n := |a.validity|;
    assert forall i :: 0 <= i <= n ==> b.offsets[i] == a.offsets[i];
    assert a.offsets[n] == |a.values| && b.offsets[n + 1] == |b.values|;
    assert Constructible(b) by {
      forall i, j | 0 <= i <= j < |b.offsets|
        ensures b.offsets[i] <= b.offsets[j]
      {
        if j <= n {
          assert a.offsets[i] <= a.offsets[j];
        } else if i <= n {
          assert a.offsets[i] <= a.offsets[n];
        }
      }
    }
    forall i | 0 <= i <= n
      ensures RowAt(b, i) == (RowsIn(a) + [row])[i]
    {
      if i < n {
        assert a.offsets[i] <= a.offsets[i + 1] <= |a.values|;
        assert b.values[b.offsets[i]..b.offsets[i + 1]] == a.values[a.offsets[i]..a.offsets[i + 1]];
      } else if row.Some? {
        assert b.values[|a.values|..|b.values|] == row.value;
      }
    }
  }

  /** The list variant of a column builder, with its own offsets and validity. */
  class ListColumn<V(==)> {
    const parse: Parser<V>
    var values: seq<Option<V>>
    var offsets: seq<int>
    var validity: seq<bool>

    ghost function Parts(): (a: ListArray<V>)
      reads this
    {
      ListArray(offsets, values, validity)
    }

    /** Offsets, values and validity in lockstep. */
    ghost predicate Valid()
      reads this
    {
      Constructible(Parts())
    }

    constructor (parse: Parser<V>)
      ensures Valid() && this.parse == parse && RowsIn(Parts()) == []
    {
      this.parse := parse;
      values, offsets, validity := [], [0], [];
    }

    method AppendNull()
      requires Valid()
      modifies this`offsets, this`validity
      ensures Valid() && RowsIn(Parts()) == old(RowsIn(Parts())) + [None]
    {
      ghost var before := Parts();
      ExtendedRows(before, None);
      offsets := offsets + [offsets[|offsets| - 1]];
      validity := validity + [false];
      assert values + [] == values;
      assert Parts() == Extended(before, None);
    }

    /** The elements of one literal, stored one by one. */
    method StoreElements(es: seq<ArrayText.Element>) returns (r: Result<bool, Unparsable>)
      modifies this`values
      ensures r.Ok? <==> AllRead(parse, es)
      ensures r.Ok? ==>
        && |values| == |old(values)| + |es| && values[..|old(values)|] == old(values)
        && Stores(parse, es, values[|old(values)|..]) && r.value == AnySubstituted(parse, es)
    {
      var substituted := false;
      ghost var n := |values|;
      for i := 0 to |es|
        invariant |values| == n + i && values[..n] == old(values)
        invariant AllRead(parse, es[..i]) && Stores(parse, es[..i], values[n..])
        invariant substituted == AnySubstituted(parse, es[..i])
      {
        assert es[..i + 1] == es[..i] + [es[i]];
        SubstitutedSnoc(parse, es[..i], es[i]);
        if es[i].None? {
          values := values + [None];
        } else {
          var v := parse(es[i].value);
          if v.Err? {
            return Err(Unparsable);
          }
          substituted := substituted || v.value.None?;
          values := values + [v.value];
        }
      }
      assert es[..|es|] == es;
      return Ok(substituted);
    }

    /** The last row is new, and holds the elements of `es`; the others are as they were. */
    ghost predicate AppendedRow(before: seq<Option<seq<Option<V>>>>, es: seq<ArrayText.Element>)
      reads this
      requires Valid()
    {
      var rows := RowsIn(Parts());
      && |rows| == |before| + 1 && rows[..|before|] == before
      && rows[|before|].Some? && Stores(parse, es, rows[|before|].value)
    }

    /**
     * One value. It succeeds exactly when the literal is one, each of its elements can be
     * read, and 32 bits hold the offset after them; it then appends one row with the elements
     * in order, and reports whether any was replaced by null.
     */
    method Append(value: Option<seq<byte>>) returns (r: Result<bool, Unparsable>)
      requires Valid()
      modifies this
      ensures value.None? ==> r == Ok(false) && Valid() && RowsIn(Parts()) == old(RowsIn(Parts())) + [None]
      ensures value.Some? ==>
        var es := ArrayText.ParseArray(value.value);
        && (r.Ok? <==> es.Ok? && AllRead(parse, es.value) && |old(values)| + |es.value| <= 2_147_483_647)
        && (r.Ok? ==> Valid() && AppendedRow(old(RowsIn(Parts())), es.value) && r.value == AnySubstituted(parse, es.value))
    {
      hide ArrayText.ParseArray;
      if value.None? {
        AppendNull();
        return Ok(false);
      }
      var es := ArrayText.ParseArrayElements(value.value);
      if es.Err? {
        return Err(es.error);
      }
      ghost var before := Parts();
      var stored := StoreElements(es.value);
      if stored.Err? {
        return Err(stored.error);
      }
      if |es.value| > I32_MAX || offsets[|offsets| - 1] + |es.value| > I32_MAX {
        return Err(Unparsable);
      }
      ghost var row := Some(values[|before.values|..]);
      assert values == before.values + row.value;
      ExtendedRows(before, row);
      offsets := offsets + [offsets[|offsets| - 1] + |es.value|];
      validity := validity + [true];
      assert Parts() == Extended(before, row);
      return stored;
    }

    /** Finishing hands over everything appended, and starts afresh. */
    method Finish() returns (a: ListArray<V>)
      requires Valid()
      modifies this
      ensures Constructible(a) && RowsIn(a) == old(RowsIn(Parts()))
      ensures Valid() && RowsIn(Parts()) == []
    {
      a := ListArray(offsets, values, validity);
      offsets, values, validity := [0], [], [];
    }
  }

  lemma SubstitutedSnoc<V>(parse: Parser<V>, es: seq<ArrayText.Element>, e: ArrayText.Element)
    ensures AnySubstituted(parse, es + [e]) <==> AnySubstituted(parse, es) || (e.Some? && parse(e.value) == Ok(None))
  {
    var all := es + [e];
    assert all[|es|] == e;
    if AnySubstituted(parse, es) {
      var i :| 0 <= i < |es| && es[i].Some? && parse(es[i].value) == Ok(None);
      assert all[i] == es[i];
    }
  }
}
