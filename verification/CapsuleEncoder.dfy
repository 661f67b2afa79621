/** The capsule encoder, and decoding as its inverse. */
module CapsuleEncoder {
  import opened Basics
  import opened CapsuleFormat
  import opened CapsuleParser
  import opened CapsuleLaws

  function EncodeVarint(v: nat): (bytes: Bytes)
    ensures bytes != []
  {
    if v < 128 then [v] else [v % 128 + 128] + EncodeVarint(v / 128)
  }

  function EncodeSigned(i: int): Bytes {
    EncodeVarint(Zigzag(i))
  }

  function EncodeDeltas(ids: seq<int>, previous: int): Bytes {
    if ids == [] then [] else EncodeSigned(ids[0] - previous) + EncodeDeltas(ids[1..], ids[0])
  }

  function EncodeColumns(columns: seq<seq<int>>): Bytes {
    if columns == [] then [] else EncodeDeltas(columns[0], 0) + EncodeColumns(columns[1..])
  }

  function EncodeDictionary(dictionary: seq<Bytes>): Bytes {
    if dictionary == [] then []
    else EncodeVarint(|dictionary[0]|) + dictionary[0] + EncodeDictionary(dictionary[1..])
  }

  function EncodeAll(values: seq<nat>): Bytes {
    if values == [] then [] else EncodeVarint(values[0]) + EncodeAll(values[1..])
  }

  function PackByte(bits: seq<bool>): (b: nat)
    ensures |bits| <= 8 ==> b < 256
  {
    PackBound(bits);
    PackBits(bits)
  }

  function PackBits(bits: seq<bool>): nat {
    if bits == [] then 0 else (if bits[0] then 1 else 0) + 2 * PackBits(bits[1..])
  }

  function Limit(k: nat): nat {
    if k == 0 then 1 else 2 * Limit(k - 1)
  }

  lemma {:induction false} PackBound(bits: seq<bool>)
    ensures PackBits(bits) < Limit(|bits|)
    ensures |bits| <= 8 ==> Limit(|bits|) <= 256
  {
    if bits != [] {
      PackBound(bits[1..]);
    }
    if |bits| <= 8 {
      LimitMonotone(|bits|, 8);
      assert Limit(8) == 16 * Limit(4) && Limit(4) == 16;
    }
  }

  lemma {:induction false} LimitMonotone(i: nat, j: nat)
    requires i <= j
    ensures Limit(i) <= Limit(j)
    decreases j
  {
    if i < j {
      LimitMonotone(i, j - 1);
    }
  }

  /** Eight flags to the byte, the last byte padded with zero bits. */
  function Pack(bits: seq<bool>): Bytes {
    if bits == [] then []
    else if |bits| <= 8 then [PackByte(bits)]
    else [PackByte(bits[..8])] + Pack(bits[8..])
  }

  function EncodeLabels(part: LabelPart): Bytes {
    if part.indexes.Some?
    then EncodeVarint(|part.dictionary|) + (EncodeDictionary(part.dictionary) + EncodeAll(part.indexes.value)) else []
  }

  function EncodeFlags(violations: Option<seq<bool>>): Bytes {
    if violations.Some? then Pack(violations.value) else []
  }

  function EncodeValues(values: Option<seq<nat>>): Bytes {
    if values.Some? then EncodeAll(values.value) else []
  }

  function EncodeRows(m: MaterializedRows): Bytes {
    EncodeColumns(m.idColumns) + EncodeLabels(LabelPart(m.dictionary, m.labelIndexes))
    + EncodeFlags(m.violations) + EncodeValues(m.values)
  }

  function EncodeGroups(g: GroupTable): Bytes {
    EncodeVarint(|g.sources|) + (EncodeDeltas(g.sources, 0) + (EncodeAll(g.sizes)
    + (EncodeDeltas(g.targets, 0) + EncodeDeltas(g.events, 0))))
  }

  function Header(schema: Schema, rows: nat): Bytes {
    MAGIC + [VERSION, SchemaByte(schema)] + EncodeVarint(rows)
  }

  function EncodeBody(storage: Storage): Bytes {
    match storage
    case Rows(m) => EncodeRows(m)
    case Groups(g) => EncodeGroups(g)
  }

  function Encode(c: Capsule): Bytes {
    Header(c.schema, c.rowCount) + EncodeBody(c.storage)
  }

  // ---------- round trips of the parts ----------

  lemma {:induction false} VarintFromRoundTrip(v: nat, k: nat, rest: Bytes)
    requires k <= 9 && v < VarintLimit(k)
    ensures VarintFrom(EncodeVarint(v) + rest, k) == Good(v, rest)
    decreases v
  {
    var s := EncodeVarint(v) + rest;
    if v < 128 {
      assert s[0] == v && s[1..] == rest;
    } else {
      assert s[0] == v % 128 + 128 && s[1..] == EncodeVarint(v / 128) + rest;
      VarintFromRoundTrip(v / 128, k + 1, rest);
    }
  }

  lemma VarintRoundTrip(v: nat, rest: Bytes)
    requires v <= U64_MAX
    ensures Varint(EncodeVarint(v) + rest) == UsizeVarint(EncodeVarint(v) + rest) == Good(v, rest)
  {
    LimitIsU64();
    VarintFromRoundTrip(v, 0, rest);
  }

  lemma SignedRoundTrip(i: int, rest: Bytes)
    requires IsI64(i)
    ensures SignedVarint(EncodeSigned(i) + rest) == Good(i, rest)
  {
    ZigzagIsBijective(0, i);
    VarintRoundTrip(Zigzag(i), rest);
  }

  lemma {:induction false} DeltasRoundTrip(ids: seq<int>, previous: int, rest: Bytes)
    requires Encodable(ids, previous)
    ensures Deltas(EncodeDeltas(ids, previous) + rest, |ids|, previous) == Good(ids, rest)
    decreases |ids|
  {
    hide SignedVarint, EncodeSigned;
    if ids == [] {
      assert EncodeDeltas(ids, previous) + rest == rest;
    } else {
      assert [ids[0]] + ids[1..] == ids;
      var tail := EncodeDeltas(ids[1..], ids[0]) + rest;
      assert EncodeDeltas(ids, previous) + rest == EncodeSigned(ids[0] - previous) + tail;
      SignedRoundTrip(ids[0] - previous, tail);
      DeltasRoundTrip(ids[1..], ids[0], rest);
    }
  }

  lemma DeltaIdsRoundTrip(ids: seq<int>, rest: Bytes)
    requires Encodable(ids, 0)
    ensures DeltaIds(EncodeDeltas(ids, 0) + rest, |ids|, false) == Good(ids, rest)
  {
    DeltasRoundTrip(ids, 0, rest);
  }

  lemma ColumnsStep(s: Bytes, columns: seq<seq<int>>, rows: nat, tail: Bytes, rest: Bytes)
    requires columns != [] && DeltaIds(s, rows, false) == Good(columns[0], tail)
    requires Columns(tail, |columns| - 1, rows, false) == Good(columns[1..], rest)
    ensures Columns(s, |columns|, rows, false) == Good(columns, rest)
  {
    hide DeltaIds, Encodable;
    assert [columns[0]] + columns[1..] == columns;
  }

  lemma {:induction false} ColumnsRoundTrip(columns: seq<seq<int>>, rows: nat, rest: Bytes)
    requires forall c | c in columns :: |c| == rows && Encodable(c, 0)
    ensures Columns(EncodeColumns(columns) + rest, |columns|, rows, false) == Good(columns, rest)
  {
    hide Columns, DeltaIds, EncodeDeltas, Encodable;
    if columns == [] {
      NoColumns(rest, rows, false);
      assert EncodeColumns(columns) + rest == rest;
    } else {
      assert columns[0] in columns;
      assert forall c | c in columns[1..] :: c in columns;
      var tail := EncodeColumns(columns[1..]) + rest;
      assert EncodeColumns(columns) + rest == EncodeDeltas(columns[0], 0) + tail;
      DeltaIdsRoundTrip(columns[0], tail);
      ColumnsRoundTrip(columns[1..], rows, rest);
      ColumnsStep(EncodeColumns(columns) + rest, columns, rows, tail, rest);
    }
  }

  lemma TakeRoundTrip(text: Bytes, rest: Bytes)
    ensures Take(text + rest, |text|) == Good(text, rest)
  {
    assert (text + rest)[..|text|] == text && (text + rest)[|text|..] == rest;
  }

  lemma DictionaryStep(s: Bytes, dictionary: seq<Bytes>, tail: Bytes, rest: Bytes)
    requires dictionary != [] && ValidUtf8(dictionary[0])
    requires UsizeVarint(s) == Good(|dictionary[0]|, dictionary[0] + tail)
    requires Take(dictionary[0] + tail, |dictionary[0]|) == Good(dictionary[0], tail)
    requires Dictionary(tail, |dictionary| - 1) == Good(dictionary[1..], rest)
    ensures Dictionary(s, |dictionary|) == Good(dictionary, rest)
  {
    hide UsizeVarint, ValidUtf8, Take;
    assert [dictionary[0]] + dictionary[1..] == dictionary;
  }

  lemma EncodeDictionaryHead(dictionary: seq<Bytes>, rest: Bytes)
    requires dictionary != []
    ensures EncodeDictionary(dictionary) + rest
            == EncodeVarint(|dictionary[0]|) + (dictionary[0] + (EncodeDictionary(dictionary[1..]) + rest))
  {
    hide EncodeVarint;
    RegroupThree(EncodeVarint(|dictionary[0]|), dictionary[0], EncodeDictionary(dictionary[1..]), rest);
  }

  lemma RegroupThree(a: Bytes, b: Bytes, c: Bytes, d: Bytes)
    ensures a + b + c + d == a + (b + (c + d))
  {
  }

  lemma {:induction false} DictionaryRoundTrip(dictionary: seq<Bytes>, rest: Bytes)
    requires forall d | d in dictionary :: ValidUtf8(d) && |d| <= USIZE_MAX
    ensures Dictionary(EncodeDictionary(dictionary) + rest, |dictionary|) == Good(dictionary, rest)
  {
    hide UsizeVarint, EncodeVarint, ValidUtf8, Take, Dictionary;
    if dictionary == [] {
      assert EncodeDictionary(dictionary) + rest == rest;
      NoDictionary(rest);
    } else {
      assert dictionary[0] in dictionary;
      assert forall d | d in dictionary[1..] :: d in dictionary;
      var text, tail := dictionary[0], EncodeDictionary(dictionary[1..]) + rest;
      EncodeDictionaryHead(dictionary, rest);
      VarintRoundTrip(|text|, text + tail);
      TakeRoundTrip(text, tail);
      DictionaryRoundTrip(dictionary[1..], rest);
      DictionaryStep(EncodeDictionary(dictionary) + rest, dictionary, tail, rest);
    }
  }

  lemma {:induction false} IndexesRoundTrip(indexes: seq<nat>, bound: nat, rest: Bytes)
    requires bound <= USIZE_MAX && forall i | i in indexes :: i < bound
    ensures Indexes(EncodeAll(indexes) + rest, |indexes|, bound) == Good(indexes, rest)
  {
    hide UsizeVarint, EncodeVarint;
    if indexes == [] {
      assert EncodeAll(indexes) + rest == rest;
    } else {
      assert [indexes[0]] + indexes[1..] == indexes && indexes[0] in indexes;
      assert forall i | i in indexes[1..] :: i in indexes;
      var tail := EncodeAll(indexes[1..]) + rest;
      assert EncodeAll(indexes) + rest == EncodeVarint(indexes[0]) + tail;
      VarintRoundTrip(indexes[0], tail);
      IndexesRoundTrip(indexes[1..], bound, rest);
    }
  }

  lemma {:induction false} FloatBitsRoundTrip(values: seq<nat>, rest: Bytes)
    requires forall v | v in values :: v <= U64_MAX
    ensures FloatBits(EncodeAll(values) + rest, |values|) == Good(values, rest)
  {
    hide Varint, EncodeVarint;
    if values == [] {
      assert EncodeAll(values) + rest == rest;
    } else {
      assert [values[0]] + values[1..] == values && values[0] in values;
      assert forall v | v in values[1..] :: v in values;
      var tail := EncodeAll(values[1..]) + rest;
      assert EncodeAll(values) + rest == EncodeVarint(values[0]) + tail;
      VarintRoundTrip(values[0], tail);
      FloatBitsRoundTrip(values[1..], rest);
    }
  }

  lemma PackBitsHead(bits: seq<bool>)
    requires bits != []
    ensures PackBits(bits) / 2 == PackBits(bits[1..]) && (PackBits(bits) % 2 == 1 <==> bits[0])
  {
  }

  lemma {:induction false} BitOfPackedByte(bits: seq<bool>, k: nat)
    requires k < |bits|
    ensures BitSet(PackBits(bits), k) == bits[k]
  {
    hide PackBits;
    PackBitsHead(bits);
    if k > 0 {
      BitOfPackedByte(bits[1..], k - 1);
    }
  }

  lemma {:induction false} PackedBit(bits: seq<bool>, i: nat)
    requires i < |bits|
    ensures |Pack(bits)| == PackedCount(|bits|) && BitSet(Pack(bits)[i / 8], i % 8) == bits[i]
  {
    if |bits| <= 8 {
      BitOfPackedByte(bits, i);
    } else if i < 8 {
      PackedBit(bits[8..], 0);
      BitOfPackedByte(bits[..8], i);
    } else {
      PackedBit(bits[8..], i - 8);
      assert i / 8 == (i - 8) / 8 + 1;
    }
  }

  lemma PackRoundTrip(bits: seq<bool>)
    ensures |Pack(bits)| == PackedCount(|bits|)
    ensures Unpack(Pack(bits), |bits|) == bits
  {
    if bits != [] {
      PackedBit(bits, 0);
    }
    forall i | 0 <= i < |bits| ensures Unpack(Pack(bits), |bits|)[i] == bits[i] {
      PackedBit(bits, i);
    }
  }

  lemma SizesStep(s: Bytes, sizes: seq<nat>, entries: nat, expanded: nat, tail: Bytes, rest: Bytes)
    requires sizes != [] && sizes[0] > 0 && UsizeVarint(s) == Good(sizes[0], tail)
    requires
      var n := sizes[0];
      Sizes(tail, |sizes| - 1, entries + n, expanded + Square(n), false) ==
      Good(SizeTable(sizes[1..], entries + n + Sum(sizes[1..]), expanded + Square(n) + SumOfSquares(sizes[1..])), rest)
    ensures Sizes(s, |sizes|, entries, expanded, false) ==
            Good(SizeTable(sizes, entries + Sum(sizes), expanded + SumOfSquares(sizes)), rest)
  {
    hide UsizeVarint, Square, Sum, SumOfSquares;
    SumSplits(sizes[0], sizes[1..]);
    assert [sizes[0]] + sizes[1..] == sizes;
  }

  lemma {:induction false} SizesRoundTrip(sizes: seq<nat>, entries: nat, expanded: nat, rest: Bytes)
    requires forall n | n in sizes :: 0 < n <= USIZE_MAX
    ensures Sizes(EncodeAll(sizes) + rest, |sizes|, entries, expanded, false) ==
            Good(SizeTable(sizes, entries + Sum(sizes), expanded + SumOfSquares(sizes)), rest)
    decreases |sizes|
  {
    hide UsizeVarint, EncodeVarint, Square, Sizes, Sum, SumOfSquares;
    if sizes == [] {
      assert EncodeAll(sizes) + rest == rest;
      NoSizes(rest, entries, expanded, false);
    } else {
      assert sizes[0] in sizes;
      assert forall n | n in sizes[1..] :: n in sizes;
      var n, tail := sizes[0], EncodeAll(sizes[1..]) + rest;
      assert EncodeAll(sizes) + rest == EncodeVarint(n) + tail;
      VarintRoundTrip(n, tail);
      SizesRoundTrip(sizes[1..], entries + n, expanded + Square(n), rest);
      SizesStep(EncodeAll(sizes) + rest, sizes, entries, expanded, tail, rest);
    }
  }

  // ---------- the round trip of a capsule ----------

  lemma LabelsRoundTrip(m: MaterializedRows, layout: Layout, rows: nat, rest: Bytes)
    requires WellFormedRows(m, layout, rows) && layout.labels && rows <= USIZE_MAX
    ensures
      var bytes := EncodeVarint(|m.dictionary|) + (EncodeDictionary(m.dictionary) + EncodeAll(m.labelIndexes.value));
      Labels(bytes + rest, layout, rows, false) == Good(LabelPart(m.dictionary, m.labelIndexes), rest)
  {
    hide UsizeVarint, EncodeVarint, Dictionary, Indexes, EncodeDictionary, EncodeAll, ValidUtf8, Encodable;
    var n, d, x := EncodeVarint(|m.dictionary|), EncodeDictionary(m.dictionary), EncodeAll(m.labelIndexes.value);
    assert (n + (d + x)) + rest == n + (d + (x + rest));
    VarintRoundTrip(|m.dictionary|, d + (x + rest));
    DictionaryRoundTrip(m.dictionary, x + rest);
    IndexesRoundTrip(m.labelIndexes.value, |m.dictionary|, rest);
  }

  lemma ViolationsRoundTrip(violations: Option<seq<bool>>, layout: Layout, rows: nat, rest: Bytes)
    requires if layout.violations then violations.Some? && |violations.value| == rows else violations.None?
    ensures Violations((if violations.Some? then Pack(violations.value) else []) + rest, layout, rows)
            == Good(violations, rest)
  {
    hide Pack, Unpack, PackedCount;
    if layout.violations {
      PackRoundTrip(violations.value);
      TakeRoundTrip(Pack(violations.value), rest);
    } else {
      assert [] + rest == rest;
    }
  }

  lemma ValuesRoundTrip(values: Option<seq<nat>>, layout: Layout, rows: nat, rest: Bytes)
    requires if layout.values then values.Some? && |values.value| == rows && forall v | v in values.value :: v <= U64_MAX
             else values.None?
    ensures Values((if values.Some? then EncodeAll(values.value) else []) + rest, layout, rows) == Good(values, rest)
  {
    hide FloatBits, EncodeAll;
    if layout.values {
      FloatBitsRoundTrip(values.value, rest);
    } else {
      assert [] + rest == rest;
    }
  }

  lemma MaterializedStep(s: Bytes, layout: Layout, rows: nat, m: MaterializedRows, a: Bytes, b: Bytes, c: Bytes, rest: Bytes)
    requires Columns(s, layout.idCount, rows, false) == Good(m.idColumns, a)
    requires Labels(a, layout, rows, false) == Good(LabelPart(m.dictionary, m.labelIndexes), b)
    requires Violations(b, layout, rows) == Good(m.violations, c)
    requires Values(c, layout, rows) == Good(m.values, rest)
    ensures Materialized(s, layout, rows, false) == Good(m, rest)
  {
    hide Columns, Labels, Violations, Values, RowsMinimum;
  }

  lemma Regroup(a: Bytes, b: Bytes, c: Bytes, d: Bytes, e: Bytes)
    ensures a + b + c + d + e == a + (b + (c + (d + e)))
  {
  }

  lemma RowsRoundTrip(m: MaterializedRows, layout: Layout, rows: nat, rest: Bytes)
    requires WellFormedRows(m, layout, rows) && rows <= USIZE_MAX
    ensures Materialized(EncodeRows(m) + rest, layout, rows, false) == Good(m, rest)
  {
    hide Columns, EncodeColumns, Labels, EncodeVarint, EncodeDictionary, EncodeAll, Violations, Values, Pack,
      Encodable, ValidUtf8, RowsMinimum, Materialized;
    var c := EncodeColumns(m.idColumns);
    var l := if m.labelIndexes.Some?
             then EncodeVarint(|m.dictionary|) + (EncodeDictionary(m.dictionary) + EncodeAll(m.labelIndexes.value)) else [];
    var b := if m.violations.Some? then Pack(m.violations.value) else [];
    var v := if m.values.Some? then EncodeAll(m.values.value) else [];
    Regroup(c, l, b, v, rest);
    ColumnsRoundTrip(m.idColumns, rows, l + (b + (v + rest)));
    if layout.labels {
      LabelsRoundTrip(m, layout, rows, b + (v + rest));
    } else {
      NoLabels(b + (v + rest), layout, rows);
      assert l + (b + (v + rest)) == b + (v + rest);
    }
    ViolationsRoundTrip(m.violations, layout, rows, v + rest);
    ValuesRoundTrip(m.values, layout, rows, rest);
    MaterializedStep(EncodeRows(m) + rest, layout, rows, m, l + (b + (v + rest)), b + (v + rest), v + rest, rest);
  }

  lemma NoLabels(s: Bytes, layout: Layout, rows: nat)
    requires !layout.labels
    ensures Labels(s, layout, rows, false) == Good(LabelPart([], None), s)
  {
  }

  lemma {:induction false} SquaresCover(sizes: seq<nat>)
    requires forall n | n in sizes :: n > 0
    ensures |sizes| <= Sum(sizes) <= SumOfSquares(sizes) && forall n | n in sizes :: n <= SumOfSquares(sizes)
  {
    hide Square;
    if sizes != [] {
      assert sizes[0] in sizes && forall n | n in sizes[1..] :: n in sizes;
      SquareAtLeast(sizes[0]);
      SquaresCover(sizes[1..]);
      assert forall n | n in sizes :: n == sizes[0] || n in sizes[1..];
    }
  }

  lemma GroupsRoundTrip(g: GroupTable, rows: nat, rest: Bytes)
    requires WellFormedGroups(g, rows) && rows <= USIZE_MAX
    ensures PairGroupTable(EncodeGroups(g) + rest, rows, false) == Good(g, rest)
  {
    hide UsizeVarint, EncodeVarint, Deltas, EncodeDeltas, Sizes, EncodeAll, Sum, SumOfSquares, Encodable;
    SquaresCover(g.sizes);
    var n, s, z := EncodeVarint(|g.sources|), EncodeDeltas(g.sources, 0), EncodeAll(g.sizes);
    var t, e := EncodeDeltas(g.targets, 0), EncodeDeltas(g.events, 0);
    assert EncodeGroups(g) + rest == n + (s + (z + (t + (e + rest))));
    VarintRoundTrip(|g.sources|, s + (z + (t + (e + rest))));
    DeltasRoundTrip(g.sources, 0, z + (t + (e + rest)));
    SizesRoundTrip(g.sizes, 0, 0, t + (e + rest));
    DeltasRoundTrip(g.targets, 0, e + rest);
    DeltasRoundTrip(g.events, 0, rest);
  }

  lemma SchemaIsRead(schema: Schema)
    ensures SchemaOf(SchemaByte(schema)) == Some(schema)
  {
  }

  /** Behind the header, the body decides. */
  lemma HeaderRoundTrip(schema: Schema, rows: nat, body: Bytes)
    requires rows <= USIZE_MAX
    ensures
      CapsuleAt(Header(schema, rows) + body, false) ==
      match Body(body, schema, rows, false)
      case Bad(error, rest) => Bad(error, rest)
      case Good(storage, rest) => Good(Capsule(schema, rows, storage), rest)
  {
    hide UsizeVarint, EncodeVarint, Body, SchemaOf, SchemaByte;
    SchemaIsRead(schema);
    var s := Header(schema, rows) + body;
    assert s[..4] == MAGIC && s[4..][..1] == [VERSION] && s[4..][1..][..1] == [SchemaByte(schema)];
    assert s[4..][1..][1..] == EncodeVarint(rows) + body;
    VarintRoundTrip(rows, body);
  }

  lemma BodyRoundTrip(c: Capsule)
    requires WellFormed(c)
    ensures Decode(Encode(c), false) == Ok(c)
  {
    hide UsizeVarint, EncodeVarint, EncodeRows, EncodeGroups, CapsuleAt, Materialized, PairGroupTable, WellFormedRows,
      WellFormedGroups, Header;
    var body := EncodeBody(c.storage);
    HeaderRoundTrip(c.schema, c.rowCount, body);
    assert body + [] == body;
    if c.schema == PairGroups {
      GroupsRoundTrip(c.storage.groups, c.rowCount, []);
    } else {
      RowsRoundTrip(c.storage.rows, LayoutOf(c.schema), c.rowCount, []);
    }
  }

  /** Decoding an encoded capsule gives the capsule back, for every capsule whose encoding is a slice. */
  lemma RoundTrip(c: Capsule)
    requires WellFormed(c) && |Encode(c)| <= ISIZE_MAX
    ensures Decode(Encode(c), true) == Ok(c)
  {
    hide Encode, Decode, WellFormed;
    BodyRoundTrip(c);
    GuardsAreExact(Encode(c), c);
  }

  /** The decodable capsules are exactly the well-formed ones. */
  lemma DecodableIffWellFormed(c: Capsule)
    requires |Encode(c)| <= ISIZE_MAX
    ensures WellFormed(c) <==> exists s: Bytes :: |s| <= ISIZE_MAX && Decode(s, true) == Ok(c)
  {
    hide Encode, Decode, WellFormed;
    if WellFormed(c) {
      RoundTrip(c);
    } else {
      forall s: Bytes ensures Decode(s, true) != Ok(c) {
        if Decode(s, true).Ok? {
          AcceptedIsWellFormed(s, true);
        }
      }
    }
  }

  // ---------- which byte strings are canonical ----------

  lemma EncodeAboveGroup(v: nat, low: nat, high: nat)
    requires low < 128 && v == low + 128 * high
    ensures EncodeVarint(v) == if high == 0 then [low] else [low + 128] + EncodeVarint(high)
  {
    assert v / 128 == high && v % 128 == low;
  }

  lemma VarintReads(s: Bytes, k: nat)
    requires k <= 9 && VarintFrom(s, k).Good?
    ensures s != [] && !(k == 9 && s[0] > 1)
    ensures s[0] >= 128 ==> VarintFrom(s[1..], k + 1).Good?
  {
  }

  lemma {:induction false} EncodingEndsNonzero(v: nat)
    ensures v > 0 ==> EncodeVarint(v)[|EncodeVarint(v)| - 1] != 0
  {
    if v >= 128 {
      EncodingEndsNonzero(v / 128);
    }
  }

  /** A number may be written with superfluous zero groups; it is canonical unless its last of several bytes is zero. */
  lemma {:induction false} VarintCanonicalIff(s: Bytes, k: nat)
    requires k <= 9 && VarintFrom(s, k).Good?
    ensures
      var p := VarintFrom(s, k);
      var used := s[..|s| - |p.rest|];
      && s == used + p.rest
      && (used == EncodeVarint(p.value) <==> |used| == 1 || used[|used| - 1] != 0)
    decreases |s|
  {
    hide EncodeVarint, VarintFrom;
    VarintReads(s, k);
    VarintFromStep(s, k);
    if s[0] < 128 {
      EncodeAboveGroup(s[0], s[0], 0);
    } else {
      VarintCanonicalIff(s[1..], k + 1);
      var q := VarintFrom(s[1..], k + 1);
      var used := s[1..][..|s[1..]| - |q.rest|];
      assert s[..|s| - |q.rest|] == [s[0]] + used;
      EncodeAboveGroup(VarintFrom(s, k).value, s[0] - 128, q.value);
      EncodingEndsNonzero(q.value);
      CanonicalAboveGroup(s[0], used, q.value);
    }
  }

  lemma CanonicalAboveGroup(b: Byte, used: Bytes, high: nat)
    requires b >= 128 && used != []
    requires used == EncodeVarint(high) <==> |used| == 1 || used[|used| - 1] != 0
    requires high > 0 ==> EncodeVarint(high)[|EncodeVarint(high)| - 1] != 0
    ensures [b] + used == (if high == 0 then [b - 128] else [b] + EncodeVarint(high)) <==> used[|used| - 1] != 0
  {
    hide EncodeVarint;
    var tail := EncodeVarint(high);
    assert ([b] + used)[1..] == used && ([b] + tail)[1..] == tail;
    if high == 0 {
      EncodeAboveGroup(high, 0, 0);
      assert |[b] + used| > 1;
    }
  }
}
