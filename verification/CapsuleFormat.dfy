/** The entities of a binding capsule and the primitive values it is written in. */
module CapsuleFormat {
  import opened Basics

  type Byte = b: int | 0 <= b < 256

  type Bytes = seq<Byte>

  const U64_MAX: nat := 0xFFFF_FFFF_FFFF_FFFF
  /** No slice is longer than this. */
  const ISIZE_MAX: nat := 0x7FFF_FFFF_FFFF_FFFF
  const I64_MIN: int := -0x8000_0000_0000_0000
  const I64_MAX: int := 0x7FFF_FFFF_FFFF_FFFF

  const MAGIC: Bytes := [79, 67, 80, 66]
  const VERSION: Byte := 1

  datatype Schema =
    | IdViolation | IdIdViolation | IdLabelIdViolation | Value | FiveIds | PairGroups
    | ThreeIdsViolation | TwoIds | ThreeIds | FourIds | FiveIdsViolation

  function SchemaByte(schema: Schema): Byte {
    match schema
    case IdViolation => 1
    case IdIdViolation => 2
    case IdLabelIdViolation => 3
    case Value => 4
    case FiveIds => 5
    case PairGroups => 6
    case ThreeIdsViolation => 7
    case TwoIds => 8
    case ThreeIds => 9
    case FourIds => 10
    case FiveIdsViolation => 11
  }

  function SchemaOf(b: Byte): (schema: Option<Schema>)
    ensures schema.Some? ==> SchemaByte(schema.value) == b
    ensures schema.None? ==> forall s :: SchemaByte(s) != b
  {
    match b
    case 1 => Some(IdViolation)
    case 2 => Some(IdIdViolation)
    case 3 => Some(IdLabelIdViolation)
    case 4 => Some(Value)
    case 5 => Some(FiveIds)
    case 6 => Some(PairGroups)
    case 7 => Some(ThreeIdsViolation)
    case 8 => Some(TwoIds)
    case 9 => Some(ThreeIds)
    case 10 => Some(FourIds)
    case 11 => Some(FiveIdsViolation)
    case _ => None
  }

  /** Which columns a materialized schema carries. */
  datatype Layout = Layout(idCount: nat, labels: bool, violations: bool, values: bool)

  function LayoutOf(schema: Schema): Layout
    requires schema != PairGroups
  {
    match schema
    case IdViolation => Layout(1, false, true, false)
    case IdIdViolation => Layout(2, false, true, false)
    case IdLabelIdViolation => Layout(2, true, true, false)
    case Value => Layout(0, false, false, true)
    case FiveIds => Layout(5, false, false, false)
    case ThreeIdsViolation => Layout(3, false, true, false)
    case TwoIds => Layout(2, false, false, false)
    case ThreeIds => Layout(3, false, false, false)
    case FourIds => Layout(4, false, false, false)
    case FiveIdsViolation => Layout(5, false, true, false)
  }

  /** Identifiers are 64-bit integers, labels are their UTF-8 bytes, values are the bits of a 64-bit float. */
  datatype MaterializedRows = MaterializedRows(
    idColumns: seq<seq<int>>,
    dictionary: seq<Bytes>,
    labelIndexes: Option<seq<nat>>,
    violations: Option<seq<bool>>,
    values: Option<seq<nat>>)

  datatype GroupTable = GroupTable(sources: seq<int>, sizes: seq<nat>, targets: seq<int>, events: seq<int>)

  datatype Storage = Rows(rows: MaterializedRows) | Groups(groups: GroupTable)

  datatype Capsule = Capsule(schema: Schema, rowCount: nat, storage: Storage)

  datatype DecodeError =
    | Truncated | BadMagic | UnsupportedVersion(version: Byte) | UnknownSchema(schema: Byte) | VarintOverflow
    | CountOverflow | DeltaOverflow | InvalidUtf8 | InvalidLabelDictionary | InvalidPairGroups | TrailingBytes
    | AllocationFailed

  datatype Result<+T> = Ok(value: T) | Err(error: DecodeError) {
    predicate IsFailure() {
      Err?
    }

    function PropagateFailure<U>(): Result<U>
      requires Err?
    {
      Err(error)
    }

    function Extract(): T
      requires Ok?
    {
      value
    }
  }

  // ---------- arithmetic on the wire values ----------

  predicate IsI64(i: int) {
    I64_MIN <= i <= I64_MAX
  }

  function Unzigzag(u: nat): (i: int)
    ensures u == if i >= 0 then 2 * i else -2 * i - 1
  {
    if u % 2 == 0 then u / 2 else -(u / 2) - 1
  }

  function Zigzag(i: int): nat {
    if i >= 0 then 2 * i else -2 * i - 1
  }

  /** Zigzag pairs the unsigned with the signed 64-bit integers. */
  lemma ZigzagIsBijective(u: nat, i: int)
    ensures u <= U64_MAX ==> IsI64(Unzigzag(u)) && Zigzag(Unzigzag(u)) == u
    ensures IsI64(i) ==> Zigzag(i) <= U64_MAX && Unzigzag(Zigzag(i)) == i
  {
  }

  function PackedCount(rows: nat): nat {
    rows / 8 + if rows % 8 != 0 then 1 else 0
  }

  /** Bit `k` of `b`, the lowest being bit zero. */
  predicate BitSet(b: nat, k: nat) {
    if k == 0 then b % 2 == 1 else BitSet(b / 2, k - 1)
  }

  function Sum(sizes: seq<nat>): nat {
    if sizes == [] then 0 else sizes[0] + Sum(sizes[1..])
  }

  function SumOfSquares(sizes: seq<nat>): nat {
    if sizes == [] then 0 else Square(sizes[0]) + SumOfSquares(sizes[1..])
  }

  function Square(n: nat): nat {
    n * n
  }

  // ---------- text ----------

  predicate IsContinuation(b: Byte) {
    0x80 <= b <= 0xBF
  }

  /** The length of the well-formed UTF-8 sequence (section 4 of RFC 3629) at the head of `s`, or zero. */
  function Utf8Width(s: Bytes): (n: nat)
    ensures n <= |s|
  {
    if s == [] then 0
    else if s[0] <= 0x7F then 1
    else if 0xC2 <= s[0] <= 0xDF && |s| >= 2 && IsContinuation(s[1]) then 2
    else if |s| >= 3 && IsContinuation(s[1]) && IsContinuation(s[2])
            && (0xE1 <= s[0] <= 0xEC || 0xEE <= s[0] <= 0xEF
                || (s[0] == 0xE0 && s[1] >= 0xA0) || (s[0] == 0xED && s[1] <= 0x9F)) then 3
    else if |s| >= 4 && IsContinuation(s[1]) && IsContinuation(s[2]) && IsContinuation(s[3])
            && (0xF1 <= s[0] <= 0xF3 || (s[0] == 0xF0 && s[1] >= 0x90) || (s[0] == 0xF4 && s[1] <= 0x8F)) then 4
    else 0
  }

  predicate ValidUtf8(s: Bytes) {
    s == [] || (Utf8Width(s) > 0 && ValidUtf8(s[Utf8Width(s)..]))
  }

  // ---------- well-formed capsules ----------

  /** Every difference to the value before, starting from zero, is a 64-bit integer. */
  predicate Encodable(ids: seq<int>, previous: int) {
    ids == [] || (IsI64(ids[0]) && IsI64(ids[0] - previous) && Encodable(ids[1..], ids[0]))
  }

  predicate WellFormedRows(m: MaterializedRows, layout: Layout, rows: nat) {
    && |m.idColumns| == layout.idCount
    && (forall c | c in m.idColumns :: |c| == rows && Encodable(c, 0))
    && (if layout.labels then
          && m.labelIndexes.Some? && |m.labelIndexes.value| == rows
          && |m.dictionary| <= rows && (rows != 0 ==> m.dictionary != [])
          && (forall i | i in m.labelIndexes.value :: i < |m.dictionary|)
          && (forall d | d in m.dictionary :: ValidUtf8(d) && |d| <= USIZE_MAX)
        else m.labelIndexes.None? && m.dictionary == [])
    && (if layout.violations then m.violations.Some? && |m.violations.value| == rows else m.violations.None?)
    && (if layout.values then
          m.values.Some? && |m.values.value| == rows && forall v | v in m.values.value :: v <= U64_MAX
        else m.values.None?)
  }

  predicate WellFormedGroups(g: GroupTable, rows: nat) {
    && |g.sources| == |g.sizes| && (forall n | n in g.sizes :: n > 0)
    && |g.targets| == |g.events| == Sum(g.sizes)
    && SumOfSquares(g.sizes) == rows
    && Encodable(g.sources, 0) && Encodable(g.targets, 0) && Encodable(g.events, 0)
  }

  predicate WellFormed(c: Capsule) {
    && c.rowCount <= USIZE_MAX
    && if c.schema == PairGroups then c.storage.Groups? && WellFormedGroups(c.storage.groups, c.rowCount)
       else c.storage.Rows? && WellFormedRows(c.storage.rows, LayoutOf(c.schema), c.rowCount)
  }
}
