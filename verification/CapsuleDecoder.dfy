/** The capsule decoder as it runs: a cursor that gives up bytes from the front. */
module CapsuleDecoder {
  import opened Basics
  import opened CapsuleFormat
  import opened CapsuleParser

  /** A result together with the bytes that the cursor has left. */
  function Left<T>(r: Result<T>, remaining: Bytes): Parse<T> {
    match r
    case Ok(value) => Good(value, remaining)
    case Err(error) => Bad(error, remaining)
  }

  /** `p` continues a list whose front has been read already. */
  function After<T>(front: seq<T>, p: Parse<seq<T>>): Parse<seq<T>> {
    match p
    case Good(back, rest) => Good(front + back, rest)
    case Bad(error, rest) => Bad(error, rest)
  }

  lemma AfterNothing<T>(p: Parse<seq<T>>)
    ensures After([], p) == p
  {
    if p.Good? {
      assert [] + p.value == p.value;
    }
  }

  lemma AfterPush<T>(front: seq<T>, x: T, p: Parse<seq<T>>)
    ensures After(front, After([x], p)) == After(front + [x], p)
  {
    if p.Good? {
      assert front + ([x] + p.value) == (front + [x]) + p.value;
    }
  }

  lemma AfterFails<T>(front: seq<T>)
    ensures forall e, rest :: After(front, Bad(e, rest)) == Bad(e, rest)
  {
  }

  lemma AfterAll<T>(front: seq<T>, rest: Bytes)
    ensures After(front, Good([], rest)) == Good(front, rest)
  {
    assert front + [] == front;
  }

  /** The conversion of a 64-bit count to the platform size. */
  function Narrow(value: nat): Result<nat> {
    if value > USIZE_MAX then Err(CountOverflow) else Ok(value)
  }

  function CheckedAdd(a: nat, b: nat): Option<nat> {
    Fit(a + b)
  }

  function CheckedMul(a: nat, b: nat): Option<nat> {
    Fit(a * b)
  }

  /** The weight of the seven-bit group with index `k`. */
  function Weight(k: nat): (w: nat)
    ensures w > 0
  {
    if k == 0 then 1 else 128 * Weight(k - 1)
  }

  class Cursor {
    var remaining: Bytes
    /** The length of the whole capsule; the cursor never holds more. */
    ghost const size: nat
    /** The most elements that a table can be given room for. */
    const room: nat

    ghost predicate Valid()
      reads this
    {
      |remaining| <= size
    }

    /** What was parsed and is left, unless a table asked for more room than there is; that takes a longer capsule. */
    ghost predicate Read<T>(r: Result<T>, p: Parse<T>)
      reads this
    {
      Left(r, remaining) == p || (r == Err(AllocationFailed) && room < size)
    }

    constructor (bytes: Bytes, room: nat)
      ensures Valid() && remaining == bytes && size == |bytes| && this.room == room
    {
      remaining := bytes;
      size := |bytes|;
      this.room := room;
    }

    method IsEmpty() returns (empty: bool)
      ensures empty <==> remaining == []
    {
      empty := remaining == [];
    }

    method TakeBytes(count: nat) returns (r: Result<Bytes>)
      requires Valid()
      modifies this
      ensures Valid() && Left(r, remaining) == Take(old(remaining), count)
    {
      if count > |remaining| {
        return Err(Truncated);
      }
      r := Ok(remaining[..count]);
      remaining := remaining[count..];
    }

    method RequireMinimum(count: nat) returns (r: Result<()>)
      ensures Left(r, remaining) == Guard(remaining, Some(count), true)
    {
      r := if count > |remaining| then Err(Truncated) else Ok(());
    }

    /** Reserves room for `count` elements. */
    method Reserve<T>(count: nat) returns (r: Result<seq<T>>)
      ensures r == if count > room then Err(AllocationFailed) else Ok([])
    {
      r := if count > room then Err(AllocationFailed) else Ok([]);
    }

    method NextByte() returns (r: Result<Byte>)
      requires Valid()
      modifies this
      ensures Valid() && Left(r, remaining) == ReadByte(old(remaining))
    {
      var bytes :- TakeBytes(1);
      r := Ok(bytes[0]);
    }

    method NextVarint() returns (r: Result<nat>)
      requires Valid()
      modifies this
      ensures Valid() && Left(r, remaining) == Varint(old(remaining))
    {
      hide Varint, VarintFrom, Scaled;
      ghost var all := remaining;
      var value: nat := 0;
      ScaledStart(all);
      for k := 0 to 10
        invariant Valid() && k <= 9 && value < Weight(k)
        invariant Varint(all) == Scaled(value, Weight(k), VarintFrom(remaining, k))
      {
        ghost var s := remaining;
        GroupFails(s, k, value);
        var b :- NextByte();
        assert s[1..] == remaining && s[0] == b;
        if k == 9 && b > 1 {
          return Err(VarintOverflow);
        }
        var low := b % 128;
        GroupStep(s, k, value, low, value + low * Weight(k));
        value := value + low * Weight(k);
        if b < 128 {
          return Ok(value);
        }
        assert k < 9;
      }
      assert false;
    }

    method NextUsize() returns (r: Result<nat>)
      requires Valid()
      modifies this
      ensures Valid() && Left(r, remaining) == UsizeVarint(old(remaining))
    {
      var value :- NextVarint();
      r := Narrow(value);
    }

    method NextSigned() returns (r: Result<int>)
      requires Valid()
      modifies this
      ensures Valid() && Left(r, remaining) == SignedVarint(old(remaining))
    {
      var value :- NextVarint();
      r := Ok(Unzigzag(value));
    }

    method NextIds(count: nat) returns (r: Result<seq<int>>)
      requires Valid()
      modifies this
      ensures Valid() && Read(r, DeltaIds(old(remaining), count, true))
    {
      hide Deltas, SignedVarint, IsI64, After;
      ghost var all := remaining;
      var _ :- RequireMinimum(count);
      var values: seq<int> :- Reserve(count);
      var previous := 0;
      AfterNothing(Deltas(all, count, 0));
      for i := 0 to count
        invariant Valid()
        invariant Deltas(all, count, 0) == After(values, Deltas(remaining, count - i, previous))
      {
        DeltasNext(remaining, count - i, previous);
        AfterFails<int>(values);
        var delta :- NextSigned();
        if !IsI64(previous + delta) {
          return Err(DeltaOverflow);
        }
        previous := previous + delta;
        AfterPush(values, previous, Deltas(remaining, count - i - 1, previous));
        values := values + [previous];
      }
      NoDeltas(remaining, previous);
      AfterAll(values, remaining);
      r := Ok(values);
    }
  }

  function Scaled(value: nat, weight: nat, p: Parse<nat>): Parse<nat> {
    match p
    case Good(high, rest) => Good(value + weight * high, rest)
    case Bad(error, rest) => Bad(error, rest)
  }

  lemma ScaledStart(s: Bytes)
    ensures Varint(s) == Scaled(0, 1, VarintFrom(s, 0))
  {
  }

  lemma GroupArithmetic(value: nat, w: nat, low: nat, high: nat)
    requires low < 128 && value < w
    ensures value + w * (low + 128 * high) == (value + low * w) + (128 * w) * high
    ensures value + low * w < 128 * w
  {
    assert w * (low + 128 * high) == w * low + w * (128 * high);
    assert low * w <= 127 * w;
  }

  lemma GroupFails(s: Bytes, k: nat, value: nat)
    requires k <= 9
    ensures s == [] ==> Scaled(value, Weight(k), VarintFrom(s, k)) == Bad(Truncated, s)
    ensures s != [] && k == 9 && s[0] > 1 ==> Scaled(value, Weight(k), VarintFrom(s, k)) == Bad(VarintOverflow, s[1..])
  {
  }

  /** The group's bits stay within 64 when they are shifted into place. */
  lemma {:induction false} WeightFits(k: nat)
    requires k <= 9
    ensures Weight(k) <= Weight(9) == (U64_MAX + 1) / 2
    decreases 9 - k
  {
    if k < 9 {
      WeightFits(k + 1);
    } else {
      assert Weight(2) == 128 * 128;
      assert Weight(4) == 128 * (128 * Weight(2));
      assert Weight(6) == 128 * (128 * Weight(4));
      assert Weight(8) == 128 * (128 * Weight(6));
    }
  }

  /** Reading one more group moves its seven bits from the part to come to the part read. */
  lemma GroupStep(s: Bytes, k: nat, value: nat, low: nat, more: nat)
    requires k <= 9 && s != [] && !(k == 9 && s[0] > 1) && value < Weight(k)
    requires low == s[0] % 128 && more == value + low * Weight(k)
    ensures more < Weight(k + 1) && more <= U64_MAX
    ensures s[0] < 128 ==> Scaled(value, Weight(k), VarintFrom(s, k)) == Good(more, s[1..])
    ensures s[0] >= 128 ==>
              k < 9 && Scaled(value, Weight(k), VarintFrom(s, k)) == Scaled(more, Weight(k + 1), VarintFrom(s[1..], k + 1))
  {
    hide VarintFrom, Weight;
    VarintFromStep(s, k);
    WeightStep(k);
    GroupArithmetic(value, Weight(k), low, 0);
    GroupFits(k, value, low);
    if s[0] >= 128 {
      var p := VarintFrom(s[1..], k + 1);
      if p.Good? {
        GroupArithmetic(value, Weight(k), low, p.value);
      }
    }
  }

  lemma GroupFits(k: nat, value: nat, low: nat)
    requires k <= 9 && value < Weight(k) && low < 128 && (k == 9 ==> low <= 1)
    ensures value + low * Weight(k) <= U64_MAX
  {
    hide Weight;
    WeightFits(9);
    if k < 9 {
      WeightStep(k);
      WeightFits(k + 1);
      GroupArithmetic(value, Weight(k), low, 0);
    } else {
      assert low == 0 || low == 1;
    }
  }

  lemma WeightStep(k: nat)
    ensures Weight(k + 1) == 128 * Weight(k)
  {
  }

  lemma NoDeltas(s: Bytes, previous: int)
    ensures Deltas(s, 0, previous) == Good([], s)
  {
  }

  /** One step of the list of ids. */
  lemma DeltasNext(s: Bytes, count: nat, previous: int)
    requires count > 0
    ensures
      match SignedVarint(s)
      case Bad(error, rest) => Deltas(s, count, previous) == Bad(error, rest)
      case Good(delta, rest) =>
        Deltas(s, count, previous) ==
        (if !IsI64(previous + delta) then Bad(DeltaOverflow, rest)
         else After([previous + delta], Deltas(rest, count - 1, previous + delta)))
  {
  }

  // ---------- materialized rows ----------

  /** Every step of the sum is checked. */
  method MinimumBytes(layout: Layout, rows: nat) returns (minimum: Option<nat>)
    ensures minimum == Fit(RowsMinimum(layout, rows))
  {
    minimum := CheckedMul(rows, layout.idCount);
    if minimum == None { return; }
    if layout.labels {
      minimum := CheckedAdd(minimum.value, 1);
      if minimum == None { return; }
      minimum := CheckedAdd(minimum.value, rows);
      if minimum == None { return; }
    }
    if layout.violations {
      minimum := CheckedAdd(minimum.value, PackedCount(rows));
      if minimum == None { return; }
    }
    if layout.values {
      minimum := CheckedAdd(minimum.value, rows);
    }
  }

  method DictionaryMinimum(layout: Layout, rows: nat, count: nat) returns (minimum: Option<nat>)
    ensures minimum == Fit(count + rows + TailMinimum(layout, rows))
  {
    minimum := CheckedAdd(count, rows);
    if minimum == None { return; }
    if layout.violations {
      minimum := CheckedAdd(minimum.value, PackedCount(rows));
      if minimum == None { return; }
    }
    if layout.values {
      minimum := CheckedAdd(minimum.value, rows);
    }
  }

  method Require(cursor: Cursor, minimum: Option<nat>) returns (r: Result<()>)
    ensures Left(r, cursor.remaining) == Guard(cursor.remaining, minimum, true)
  {
    if minimum == None {
      return Err(CountOverflow);
    }
    r := cursor.RequireMinimum(minimum.value);
  }

  lemma ColumnsNext(s: Bytes, columns: nat, rows: nat)
    requires columns > 0
    ensures
      match DeltaIds(s, rows, true)
      case Bad(error, rest) => Columns(s, columns, rows, true) == Bad(error, rest)
      case Good(ids, rest) => Columns(s, columns, rows, true) == After([ids], Columns(rest, columns - 1, rows, true))
  {
    hide DeltaIds;
  }

  method DecodeColumns(cursor: Cursor, columns: nat, rows: nat) returns (r: Result<seq<seq<int>>>)
    requires cursor.Valid() && columns <= cursor.size
    modifies cursor
    ensures cursor.Valid() && cursor.Read(r, Columns(old(cursor.remaining), columns, rows, true))
  {
    hide Columns, DeltaIds, After;
    ghost var all := cursor.remaining;
    var table: seq<seq<int>> :- cursor.Reserve(columns);
    AfterNothing(Columns(all, columns, rows, true));
    for i := 0 to columns
      invariant cursor.Valid()
      invariant Columns(all, columns, rows, true) == After(table, Columns(cursor.remaining, columns - i, rows, true))
    {
      ColumnsNext(cursor.remaining, columns - i, rows);
      AfterFails<seq<int>>(table);
      var ids :- cursor.NextIds(rows);
      AfterPush(table, ids, Columns(cursor.remaining, columns - i - 1, rows, true));
      table := table + [ids];
    }
    NoColumns(cursor.remaining, rows, true);
    AfterAll(table, cursor.remaining);
    r := Ok(table);
  }

  lemma DictionaryNext(s: Bytes, count: nat)
    requires count > 0
    ensures
      match UsizeVarint(s)
      case Bad(error, rest) => Dictionary(s, count) == Bad(error, rest)
      case Good(length, rest) =>
        match Take(rest, length)
        case Bad(error, rest) => Dictionary(s, count) == Bad(error, rest)
        case Good(text, rest) =>
          Dictionary(s, count) ==
          (if !ValidUtf8(text) then Bad(InvalidUtf8, rest) else After([text], Dictionary(rest, count - 1)))
  {
    hide UsizeVarint, Take, ValidUtf8;
  }

  lemma TakeFits(s: Bytes, count: nat)
    ensures Take(s, count).Good? ==> |Take(s, count).value| <= |s|
  {
  }

  method DecodeDictionary(cursor: Cursor, count: nat) returns (r: Result<seq<Bytes>>)
    requires cursor.Valid() && count <= cursor.size
    modifies cursor
    ensures cursor.Valid() && cursor.Read(r, Dictionary(old(cursor.remaining), count))
  {
    hide Dictionary, UsizeVarint, Take, ValidUtf8, After;
    ghost var all := cursor.remaining;
    var dictionary: seq<Bytes> :- cursor.Reserve(count);
    AfterNothing(Dictionary(all, count));
    for i := 0 to count
      invariant cursor.Valid()
      invariant Dictionary(all, count) == After(dictionary, Dictionary(cursor.remaining, count - i))
    {
      DictionaryNext(cursor.remaining, count - i);
      AfterFails<Bytes>(dictionary);
      var length :- cursor.NextUsize();
      TakeFits(cursor.remaining, length);
      var text :- cursor.TakeBytes(length);
      if !ValidUtf8(text) {
        return Err(InvalidUtf8);
      }
      var _ :- cursor.Reserve<Byte>(|text|);
      AfterPush(dictionary, text, Dictionary(cursor.remaining, count - i - 1));
      dictionary := dictionary + [text];
    }
    NoDictionary(cursor.remaining);
    AfterAll(dictionary, cursor.remaining);
    r := Ok(dictionary);
  }

  lemma IndexesNext(s: Bytes, count: nat, bound: nat)
    requires count > 0
    ensures
      match UsizeVarint(s)
      case Bad(error, rest) => Indexes(s, count, bound) == Bad(error, rest)
      case Good(index, rest) =>
        Indexes(s, count, bound) ==
        (if index >= bound then Bad(InvalidLabelDictionary, rest) else After([index], Indexes(rest, count - 1, bound)))
  {
    hide UsizeVarint;
  }

  lemma NoIndexes(s: Bytes, bound: nat)
    ensures Indexes(s, 0, bound) == Good([], s)
  {
  }

  method DecodeIndexes(cursor: Cursor, count: nat, bound: nat) returns (r: Result<seq<nat>>)
    requires cursor.Valid() && count <= cursor.size
    modifies cursor
    ensures cursor.Valid() && cursor.Read(r, Indexes(old(cursor.remaining), count, bound))
  {
    hide Indexes, UsizeVarint, After;
    ghost var all := cursor.remaining;
    var indexes: seq<nat> :- cursor.Reserve(count);
    AfterNothing<nat>(Indexes(all, count, bound));
    for i := 0 to count
      invariant cursor.Valid()
      invariant Indexes(all, count, bound) == After<nat>(indexes, Indexes(cursor.remaining, count - i, bound))
    {
      IndexesNext(cursor.remaining, count - i, bound);
      AfterFails<nat>(indexes);
      var index :- cursor.NextUsize();
      if index >= bound {
        return Err(InvalidLabelDictionary);
      }
      AfterPush<nat>(indexes, index, Indexes(cursor.remaining, count - i - 1, bound));
      indexes := indexes + [index];
    }
    NoIndexes(cursor.remaining, bound);
    AfterAll<nat>(indexes, cursor.remaining);
    r := Ok(indexes);
  }

  method DecodeLabels(cursor: Cursor, layout: Layout, rows: nat) returns (r: Result<LabelPart>)
    requires cursor.Valid()
    modifies cursor
    ensures cursor.Valid() && cursor.Read(r, Labels(old(cursor.remaining), layout, rows, true))
  {
    hide Dictionary, Indexes, UsizeVarint, TailMinimum;
    if !layout.labels {
      return Ok(LabelPart([], None));
    }
    var count :- cursor.NextUsize();
    if count > rows || (rows != 0 && count == 0) {
      return Err(InvalidLabelDictionary);
    }
    var minimum := DictionaryMinimum(layout, rows, count);
    var _ :- Require(cursor, minimum);
    var dictionary :- DecodeDictionary(cursor, count);
    var indexes :- DecodeIndexes(cursor, rows, count);
    r := Ok(LabelPart(dictionary, Some(indexes)));
  }

  method DecodeViolations(cursor: Cursor, layout: Layout, rows: nat) returns (r: Result<Option<seq<bool>>>)
    requires cursor.Valid() && (layout.violations ==> rows <= cursor.size)
    modifies cursor
    ensures cursor.Valid() && cursor.Read(r, Violations(old(cursor.remaining), layout, rows))
  {
    if !layout.violations {
      return Ok(None);
    }
    var packed :- cursor.TakeBytes(PackedCount(rows));
    var values: seq<bool> :- cursor.Reserve(rows);
    for i := 0 to rows
      invariant cursor.Valid() && cursor.remaining == old(cursor.remaining)[PackedCount(rows)..]
      invariant values == Unpack(packed, rows)[..i]
    {
      values := values + [BitSet(packed[i / 8], i % 8)];
    }
    assert values == Unpack(packed, rows);
    r := Ok(Some(values));
  }

  lemma FloatBitsNext(s: Bytes, count: nat)
    requires count > 0
    ensures
      match Varint(s)
      case Bad(error, rest) => FloatBits(s, count) == Bad(error, rest)
      case Good(bits, rest) => FloatBits(s, count) == After([bits], FloatBits(rest, count - 1))
  {
    hide Varint;
  }

  lemma NoFloatBits(s: Bytes)
    ensures FloatBits(s, 0) == Good([], s)
  {
  }

  method DecodeValues(cursor: Cursor, layout: Layout, rows: nat) returns (r: Result<Option<seq<nat>>>)
    requires cursor.Valid() && (layout.values ==> rows <= cursor.size)
    modifies cursor
    ensures cursor.Valid() && cursor.Read(r, Values(old(cursor.remaining), layout, rows))
  {
    hide FloatBits, Varint, After;
    if !layout.values {
      return Ok(None);
    }
    ghost var all := cursor.remaining;
    var values: seq<nat> :- cursor.Reserve(rows);
    AfterNothing(FloatBits(all, rows));
    for i := 0 to rows
      invariant cursor.Valid()
      invariant FloatBits(all, rows) == After(values, FloatBits(cursor.remaining, rows - i))
    {
      FloatBitsNext(cursor.remaining, rows - i);
      AfterFails<nat>(values);
      var bits :- cursor.NextVarint();
      AfterPush(values, bits, FloatBits(cursor.remaining, rows - i - 1));
      values := values + [bits];
    }
    NoFloatBits(cursor.remaining);
    AfterAll(values, cursor.remaining);
    r := Ok(Some(values));
  }

  /** The size check up front bounds every reservation that follows by the length of the capsule. */
  method DecodeMaterialized(cursor: Cursor, schema: Schema, rows: nat) returns (r: Result<MaterializedRows>)
    requires cursor.Valid() && schema != PairGroups && cursor.size >= 7
    modifies cursor
    ensures cursor.Valid()
    ensures cursor.Read(r, Materialized(old(cursor.remaining), LayoutOf(schema), rows, true))
  {
    hide Columns, Labels, Violations, Values, PackedCount;
    var layout := LayoutOf(schema);
    var minimum := MinimumBytes(layout, rows);
    var _ :- Require(cursor, minimum);
    RowsFit(layout, rows);
    var columns :- DecodeColumns(cursor, layout.idCount, rows);
    var labels :- DecodeLabels(cursor, layout, rows);
    var violations :- DecodeViolations(cursor, layout, rows);
    var values :- DecodeValues(cursor, layout, rows);
    r := Ok(MaterializedRows(columns, labels.dictionary, labels.indexes, violations, values));
  }

  lemma RowsFit(layout: Layout, rows: nat)
    ensures layout.idCount > 0 || layout.labels || layout.values ==> rows <= RowsMinimum(layout, rows)
  {
    hide PackedCount;
    if layout.idCount > 0 {
      AtLeastOnce(layout.idCount, rows);
    }
  }

  lemma AtLeastOnce(k: nat, n: nat)
    requires k > 0
    ensures n <= k * n
  {
  }

  // ---------- pair groups ----------

  /** Sizes read so far in front of the sizes to come. */
  function Sized(front: seq<nat>, p: Parse<SizeTable>): Parse<SizeTable> {
    match p
    case Good(t, rest) => Good(SizeTable(front + t.sizes, t.entries, t.expanded), rest)
    case Bad(error, rest) => Bad(error, rest)
  }

  lemma SizesNext(s: Bytes, count: nat, entries: nat, expanded: nat, front: seq<nat>)
    requires count > 0
    ensures
      match UsizeVarint(s)
      case Bad(error, rest) => Sized(front, Sizes(s, count, entries, expanded, true)) == Bad(error, rest)
      case Good(n, rest) =>
        Sized(front, Sizes(s, count, entries, expanded, true)) ==
        (if n == 0 then Bad(InvalidPairGroups, rest)
         else if entries + n > USIZE_MAX || Square(n) > USIZE_MAX || expanded + Square(n) > USIZE_MAX then
           Bad(CountOverflow, rest)
         else Sized(front + [n], Sizes(rest, count - 1, entries + n, expanded + Square(n), true)))
  {
    hide UsizeVarint, Square;
    var size := UsizeVarint(s);
    if size.Good? {
      var p := Sizes(size.rest, count - 1, entries + size.value, expanded + Square(size.value), true);
      if p.Good? {
        assert front + ([size.value] + p.value.sizes) == (front + [size.value]) + p.value.sizes;
      }
    }
  }

  lemma SizedEnds(s: Bytes, entries: nat, expanded: nat, front: seq<nat>)
    ensures Sized(front, Sizes(s, 0, entries, expanded, true)) == Good(SizeTable(front, entries, expanded), s)
  {
    assert front + [] == front;
  }

  lemma SizedStarts(p: Parse<SizeTable>)
    ensures Sized([], p) == p
  {
    if p.Good? {
      assert [] + p.value.sizes == p.value.sizes;
    }
  }

  method DecodeSizes(cursor: Cursor, count: nat) returns (r: Result<SizeTable>)
    requires cursor.Valid() && count <= cursor.size
    modifies cursor
    ensures cursor.Valid() && cursor.Read(r, Sizes(old(cursor.remaining), count, 0, 0, true))
  {
    hide Sizes, UsizeVarint, Sized;
    ghost var all := cursor.remaining;
    var sizes: seq<nat> :- cursor.Reserve(count);
    var entries: nat, expanded: nat := 0, 0;
    SizedStarts(Sizes(all, count, 0, 0, true));
    for i := 0 to count
      invariant cursor.Valid()
      invariant Sizes(all, count, 0, 0, true) == Sized(sizes, Sizes(cursor.remaining, count - i, entries, expanded, true))
    {
      SizesNext(cursor.remaining, count - i, entries, expanded, sizes);
      var size :- cursor.NextUsize();
      if size == 0 {
        return Err(InvalidPairGroups);
      }
      var more := CheckedAdd(entries, size);
      if more == None { return Err(CountOverflow); }
      entries := more.value;
      var square := CheckedMul(size, size);
      if square == None { return Err(CountOverflow); }
      more := CheckedAdd(expanded, square.value);
      if more == None { return Err(CountOverflow); }
      expanded := more.value;
      sizes := sizes + [size];
    }
    SizedEnds(cursor.remaining, entries, expanded, sizes);
    r := Ok(SizeTable(sizes, entries, expanded));
  }

  method DecodePairGroups(cursor: Cursor, rows: nat) returns (r: Result<GroupTable>)
    requires cursor.Valid()
    modifies cursor
    ensures cursor.Valid() && cursor.Read(r, PairGroupTable(old(cursor.remaining), rows, true))
  {
    hide UsizeVarint, DeltaIds, Sizes;
    var count :- cursor.NextUsize();
    var _ :- Require(cursor, CheckedMul(2, count));
    var sources :- cursor.NextIds(count);
    var table :- DecodeSizes(cursor, count);
    if table.expanded != rows {
      return Err(InvalidPairGroups);
    }
    var _ :- Require(cursor, CheckedMul(2, table.entries));
    var targets :- cursor.NextIds(table.entries);
    var events :- cursor.NextIds(table.entries);
    r := Ok(GroupTable(sources, table.sizes, targets, events));
  }

  // ---------- the whole capsule ----------

  method DecodeBody(cursor: Cursor, schema: Schema, rows: nat) returns (r: Result<Storage>)
    requires cursor.Valid() && cursor.size >= 7
    modifies cursor
    ensures cursor.Valid() && cursor.Read(r, Body(old(cursor.remaining), schema, rows, true))
  {
    hide PairGroupTable, Materialized;
    if schema == PairGroups {
      var groups :- DecodePairGroups(cursor, rows);
      r := Ok(Groups(groups));
    } else {
      var materialized :- DecodeMaterialized(cursor, schema, rows);
      r := Ok(Rows(materialized));
    }
  }

  /** Decodes all that the cursor holds. */
  method DecodeAll(cursor: Cursor) returns (r: Result<Capsule>)
    requires cursor.Valid()
    modifies cursor
    ensures cursor.Valid()
    ensures r == Decode(old(cursor.remaining), true) || (r == Err(AllocationFailed) && cursor.room < cursor.size)
  {
    hide Body, UsizeVarint;
    var magic :- cursor.TakeBytes(4);
    if magic != MAGIC {
      return Err(BadMagic);
    }
    var version :- cursor.NextByte();
    if version != VERSION {
      return Err(UnsupportedVersion(version));
    }
    var code :- cursor.NextByte();
    var schema := SchemaOf(code);
    if schema.None? {
      return Err(UnknownSchema(code));
    }
    var rows :- cursor.NextUsize();
    var storage :- DecodeBody(cursor, schema.value, rows);
    var empty := cursor.IsEmpty();
    if !empty {
      return Err(TrailingBytes);
    }
    r := Ok(Capsule(schema.value, rows, storage));
  }

  /**
   * Decoding is as specified, unless an allocation fails; that takes fewer elements to be allocatable than the capsule
   * has bytes, since no table or text is ever given room for more.
   */
  method DecodeCapsule(bytes: Bytes, room: nat) returns (r: Result<Capsule>)
    ensures r == Decode(bytes, true) || (r == Err(AllocationFailed) && room < |bytes|)
  {
    var cursor := new Cursor(bytes, room);
    r := DecodeAll(cursor);
  }
}
