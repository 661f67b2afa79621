/**
 * The capsule grammar as functions from the bytes left to a value and the bytes left after it.
 * With `guarded` false, the early size checks and the overflow checks are left out.
 */
module CapsuleParser {
  import opened Basics
  import opened CapsuleFormat

  datatype Parse<+T> = Good(value: T, rest: Bytes) | Bad(error: DecodeError, rest: Bytes) {
    predicate IsFailure() {
      Bad?
    }

    function PropagateFailure<U>(): Parse<U>
      requires Bad?
    {
      Bad(error, rest)
    }

    function Extract(): (T, Bytes)
      requires Good?
    {
      (value, rest)
    }
  }

  // ---------- cursor operations ----------

  function Take(s: Bytes, count: nat): Parse<Bytes> {
    if count > |s| then Bad(Truncated, s) else Good(s[..count], s[count..])
  }

  function ReadByte(s: Bytes): Parse<Byte> {
    var (bytes, rest) :- Take(s, 1);
    Good(bytes[0], rest)
  }

  /** `k` groups of seven bits have been read before. */
  function VarintLimit(k: nat): nat
    requires k <= 9
    decreases 9 - k
  {
    if k == 9 then 2 else 128 * VarintLimit(k + 1)
  }

  function VarintFrom(s: Bytes, k: nat): (p: Parse<nat>)
    requires k <= 9
    ensures p.Good? ==> |p.rest| < |s| && p.value < VarintLimit(k)
    decreases |s|
  {
    if s == [] then Bad(Truncated, s)
    else if k == 9 && s[0] > 1 then Bad(VarintOverflow, s[1..])
    else if s[0] < 128 then
      LimitGrows(k);
      Good(s[0], s[1..])
    else
      var (high, rest) :- VarintFrom(s[1..], k + 1);
      Good(s[0] % 128 + 128 * high, rest)
  }

  lemma VarintFromStep(s: Bytes, k: nat)
    requires k <= 9 && s != [] && !(k == 9 && s[0] > 1)
    ensures
      if s[0] < 128 then VarintFrom(s, k) == Good(s[0], s[1..])
      else
        k < 9 && VarintFrom(s, k) ==
                 match VarintFrom(s[1..], k + 1)
                 case Bad(error, rest) => Bad(error, rest)
                 case Good(high, rest) => Good(s[0] - 128 + 128 * high, rest)
  {
  }

  lemma {:induction false} LimitGrows(k: nat)
    requires k <= 9
    ensures if k == 9 then VarintLimit(k) == 2 else VarintLimit(k) >= 128
    decreases 9 - k
  {
    if k < 9 {
      LimitGrows(k + 1);
    }
  }

  lemma LimitIsU64()
    ensures VarintLimit(0) == U64_MAX + 1
  {
    assert VarintLimit(7) == 128 * (128 * 2);
    assert VarintLimit(5) == 128 * (128 * VarintLimit(7));
    assert VarintLimit(3) == 128 * (128 * VarintLimit(5));
    assert VarintLimit(1) == 128 * (128 * VarintLimit(3));
  }

  function Varint(s: Bytes): (p: Parse<nat>)
    ensures p.Good? ==> |p.rest| < |s| && p.value <= U64_MAX
  {
    LimitIsU64();
    VarintFrom(s, 0)
  }

  function UsizeVarint(s: Bytes): (p: Parse<nat>)
    ensures p.Good? ==> |p.rest| < |s| && p.value <= USIZE_MAX
  {
    var (value, rest) :- Varint(s);
    if value > USIZE_MAX then Bad(CountOverflow, rest) else Good(value, rest)
  }

  function SignedVarint(s: Bytes): (p: Parse<int>)
    ensures p.Good? ==> |p.rest| < |s| && IsI64(p.value)
  {
    var (value, rest) :- Varint(s);
    Good(Unzigzag(value), rest)
  }

  /** A size check; `None` stands for a count that does not fit a machine word. */
  function Guard(s: Bytes, minimum: Option<nat>, guarded: bool): Parse<()> {
    if !guarded then Good((), s)
    else if minimum.None? then Bad(CountOverflow, s)
    else if minimum.value > |s| then Bad(Truncated, s)
    else Good((), s)
  }

  function Fit(n: nat): Option<nat> {
    if n <= USIZE_MAX then Some(n) else None
  }

  function Deltas(s: Bytes, count: nat, previous: int): (p: Parse<seq<int>>)
    ensures p.Good? ==> |p.rest| + count <= |s| && |p.value| == count && Encodable(p.value, previous)
    decreases count
  {
    if count == 0 then Good([], s)
    else
      var (delta, rest) :- SignedVarint(s);
      if !IsI64(previous + delta) then Bad(DeltaOverflow, rest)
      else
        var (ids, last) :- Deltas(rest, count - 1, previous + delta);
        Good([previous + delta] + ids, last)
  }

  function DeltaIds(s: Bytes, count: nat, guarded: bool): (p: Parse<seq<int>>)
    ensures p.Good? ==> |p.rest| + count <= |s| && |p.value| == count && Encodable(p.value, 0)
  {
    var (_, rest) :- Guard(s, Some(count), guarded);
    Deltas(rest, count, 0)
  }

  // ---------- materialized rows ----------

  function Columns(s: Bytes, columns: nat, rows: nat, guarded: bool): (p: Parse<seq<seq<int>>>)
    ensures p.Good? ==> |p.rest| + columns * rows <= |s| && |p.value| == columns
    ensures p.Good? ==> forall c | c in p.value :: |c| == rows && Encodable(c, 0)
    decreases columns
  {
    if columns == 0 then Good([], s)
    else
      var (ids, rest) :- DeltaIds(s, rows, guarded);
      var (others, last) :- Columns(rest, columns - 1, rows, guarded);
      assert (columns - 1) * rows + rows == columns * rows;
      Good([ids] + others, last)
  }

  lemma NoColumns(s: Bytes, rows: nat, guarded: bool)
    ensures Columns(s, 0, rows, guarded) == Good([], s)
  {
  }

  function Dictionary(s: Bytes, count: nat): (p: Parse<seq<Bytes>>)
    ensures p.Good? ==> |p.rest| + count <= |s| && |p.value| == count
    ensures p.Good? ==> forall d | d in p.value :: ValidUtf8(d) && |d| <= USIZE_MAX
    decreases count
  {
    if count == 0 then Good([], s)
    else
      var (length, rest) :- UsizeVarint(s);
      var (text, rest') :- Take(rest, length);
      if !ValidUtf8(text) then Bad(InvalidUtf8, rest')
      else
        var (others, last) :- Dictionary(rest', count - 1);
        Good([text] + others, last)
  }

  lemma NoDictionary(s: Bytes)
    ensures Dictionary(s, 0) == Good([], s)
  {
  }

  function Indexes(s: Bytes, count: nat, bound: nat): (p: Parse<seq<nat>>)
    ensures p.Good? ==> |p.rest| + count <= |s| && |p.value| == count
    ensures p.Good? ==> forall i | i in p.value :: i < bound
    decreases count
  {
    if count == 0 then Good([], s)
    else
      var (index, rest) :- UsizeVarint(s);
      if index >= bound then Bad(InvalidLabelDictionary, rest)
      else
        var (others, last) :- Indexes(rest, count - 1, bound);
        Good([index] + others, last)
  }

  function FloatBits(s: Bytes, count: nat): (p: Parse<seq<nat>>)
    ensures p.Good? ==> |p.rest| + count <= |s| && |p.value| == count
    ensures p.Good? ==> forall v | v in p.value :: v <= U64_MAX
    decreases count
  {
    if count == 0 then Good([], s)
    else
      var (bits, rest) :- Varint(s);
      var (others, last) :- FloatBits(rest, count - 1);
      Good([bits] + others, last)
  }

  function Unpack(packed: Bytes, rows: nat): (bits: seq<bool>)
    requires |packed| == PackedCount(rows)
    ensures |bits| == rows
  {
    seq(rows, i requires 0 <= i < rows => BitSet(packed[i / 8], i % 8))
  }

  /** The bytes that violations and values need at least. */
  function TailMinimum(layout: Layout, rows: nat): nat {
    (if layout.violations then PackedCount(rows) else 0) + (if layout.values then rows else 0)
  }

  function RowsMinimum(layout: Layout, rows: nat): nat {
    layout.idCount * rows + (if layout.labels then 1 + rows else 0) + TailMinimum(layout, rows)
  }

  datatype LabelPart = LabelPart(dictionary: seq<Bytes>, indexes: Option<seq<nat>>)

  function Labels(s: Bytes, layout: Layout, rows: nat, guarded: bool): (p: Parse<LabelPart>)
    ensures p.Good? ==> |p.rest| + (if layout.labels then 1 + rows else 0) <= |s|
  {
    if !layout.labels then Good(LabelPart([], None), s)
    else
      var (count, rest) :- UsizeVarint(s);
      if count > rows || (rows != 0 && count == 0) then Bad(InvalidLabelDictionary, rest)
      else
        var (_, rest) :- Guard(rest, Fit(count + rows + TailMinimum(layout, rows)), guarded);
        var (dictionary, rest) :- Dictionary(rest, count);
        var (indexes, rest) :- Indexes(rest, rows, count);
        Good(LabelPart(dictionary, Some(indexes)), rest)
  }

  function Violations(s: Bytes, layout: Layout, rows: nat): (p: Parse<Option<seq<bool>>>)
    ensures p.Good? ==> |p.rest| + (if layout.violations then PackedCount(rows) else 0) <= |s|
  {
    if !layout.violations then Good(None, s)
    else
      var (packed, rest) :- Take(s, PackedCount(rows));
      Good(Some(Unpack(packed, rows)), rest)
  }

  function Values(s: Bytes, layout: Layout, rows: nat): (p: Parse<Option<seq<nat>>>)
    ensures p.Good? ==> |p.rest| + (if layout.values then rows else 0) <= |s|
  {
    if !layout.values then Good(None, s)
    else
      var (values, rest) :- FloatBits(s, rows);
      Good(Some(values), rest)
  }

  function Materialized(s: Bytes, layout: Layout, rows: nat, guarded: bool): (p: Parse<MaterializedRows>)
    ensures p.Good? ==> |p.rest| + RowsMinimum(layout, rows) <= |s|
  {
    var (_, rest) :- Guard(s, Fit(RowsMinimum(layout, rows)), guarded);
    var (columns, rest) :- Columns(rest, layout.idCount, rows, guarded);
    var (labels, rest) :- Labels(rest, layout, rows, guarded);
    var (violations, rest) :- Violations(rest, layout, rows);
    var (values, rest) :- Values(rest, layout, rows);
    Good(MaterializedRows(columns, labels.dictionary, labels.indexes, violations, values), rest)
  }

  // ---------- pair groups ----------

  datatype SizeTable = SizeTable(sizes: seq<nat>, entries: nat, expanded: nat)

  /** Reads group sizes on top of the entries and expanded rows counted so far. */
  function Sizes(s: Bytes, count: nat, entries: nat, expanded: nat, guarded: bool): (p: Parse<SizeTable>)
    ensures p.Good? ==> |p.rest| + count <= |s| && |p.value.sizes| == count
    ensures p.Good? ==> p.value.entries >= entries && p.value.expanded >= expanded
    decreases count
  {
    if count == 0 then Good(SizeTable([], entries, expanded), s)
    else
      var (size, rest) :- UsizeVarint(s);
      if size == 0 then Bad(InvalidPairGroups, rest)
      else if guarded && (entries + size > USIZE_MAX || Square(size) > USIZE_MAX || expanded + Square(size) > USIZE_MAX) then
        Bad(CountOverflow, rest)
      else
        var (table, last) :- Sizes(rest, count - 1, entries + size, expanded + Square(size), guarded);
        Good(SizeTable([size] + table.sizes, table.entries, table.expanded), last)
  }

  function PairGroupTable(s: Bytes, rows: nat, guarded: bool): Parse<GroupTable> {
    var (count, rest) :- UsizeVarint(s);
    var (_, rest) :- Guard(rest, Fit(2 * count), guarded);
    var (sources, rest) :- DeltaIds(rest, count, guarded);
    var (table, rest) :- Sizes(rest, count, 0, 0, guarded);
    if table.expanded != rows then Bad(InvalidPairGroups, rest)
    else
      var (_, rest) :- Guard(rest, Fit(2 * table.entries), guarded);
      var (targets, rest) :- DeltaIds(rest, table.entries, guarded);
      var (events, rest) :- DeltaIds(rest, table.entries, guarded);
      Good(GroupTable(sources, table.sizes, targets, events), rest)
  }

  // ---------- the whole capsule ----------

  function Body(s: Bytes, schema: Schema, rows: nat, guarded: bool): Parse<Storage> {
    if schema == PairGroups then
      var (groups, rest) :- PairGroupTable(s, rows, guarded);
      Good(Groups(groups), rest)
    else
      var (m, rest) :- Materialized(s, LayoutOf(schema), rows, guarded);
      Good(Rows(m), rest)
  }

  function CapsuleAt(s: Bytes, guarded: bool): Parse<Capsule> {
    var (magic, rest) :- Take(s, 4);
    if magic != MAGIC then Bad(BadMagic, rest)
    else
      var (version, rest) :- ReadByte(rest);
      if version != VERSION then Bad(UnsupportedVersion(version), rest)
      else
        var (code, rest) :- ReadByte(rest);
        if SchemaOf(code).None? then Bad(UnknownSchema(code), rest)
        else
          var (rows, rest) :- UsizeVarint(rest);
          var (storage, rest) :- Body(rest, SchemaOf(code).value, rows, guarded);
          Good(Capsule(SchemaOf(code).value, rows, storage), rest)
  }

  function Decode(s: Bytes, guarded: bool): Result<Capsule> {
    match CapsuleAt(s, guarded)
    case Bad(error, _) => Err(error)
    case Good(capsule, rest) => if rest != [] then Err(TrailingBytes) else Ok(capsule)
  }
}
