/** Which accepted capsules are the encodings of what they decode to. */
module CapsuleCanonical {
  import opened CapsuleFormat
  import opened CapsuleParser
  import opened CapsuleEncoder

  /** What was read off `s`, leaving `rest`, is no shorter than `encoding`, and is that encoding just when `exact` holds. */
  predicate Reads(s: Bytes, encoding: Bytes, rest: Bytes, exact: bool) {
    && |encoding| + |rest| <= |s| && s[|s| - |rest|..] == rest
    && (s == encoding + rest <==> exact)
  }

  lemma ReadsNothing(s: Bytes)
    ensures Reads(s, [], s, true)
  {
    assert [] + s == s;
  }

  lemma ReadsThen(s: Bytes, a: Bytes, middle: Bytes, x: bool, b: Bytes, rest: Bytes, y: bool)
    requires Reads(s, a, middle, x) && Reads(middle, b, rest, y)
    ensures Reads(s, a + b, rest, x && y)
  {
    assert s[|s| - |rest|..] == middle[|middle| - |rest|..];
    assert a + b + rest == a + (b + rest);
    if s == a + (b + rest) {
      assert s[|a|..] == b + rest;
    }
  }

  lemma SamePrefix(a: Bytes, b: Bytes, rest: Bytes)
    ensures a + rest == b + rest <==> a == b
  {
    if a + rest == b + rest {
      assert |a| == |b| && (a + rest)[..|a|] == a && (b + rest)[..|b|] == b;
    }
  }

  // ---------- numbers ----------

  /** The number at the head of `s` has one byte, or does not end in zero: no group of it is superfluous. */
  predicate Tidy(s: Bytes) {
    Varint(s).Good? ==> var used := |s| - |Varint(s).rest|; used == 1 || s[used - 1] != 0
  }

  function AfterNumber(s: Bytes): Bytes {
    Varint(s).rest
  }

  /** So are the first `count` numbers. */
  predicate AllTidy(s: Bytes, count: nat)
    decreases count
  {
    count == 0 || (Tidy(s) && AllTidy(AfterNumber(s), count - 1))
  }

  lemma {:induction false} VarintNoShorter(s: Bytes, k: nat)
    requires k <= 9 && VarintFrom(s, k).Good?
    ensures |EncodeVarint(VarintFrom(s, k).value)| + |VarintFrom(s, k).rest| <= |s|
    decreases |s|
  {
    hide EncodeVarint, VarintFrom;
    VarintReads(s, k);
    VarintFromStep(s, k);
    if s[0] < 128 {
      EncodeAboveGroup(s[0], s[0], 0);
    } else {
      VarintNoShorter(s[1..], k + 1);
      var q := VarintFrom(s[1..], k + 1);
      EncodeAboveGroup(VarintFrom(s, k).value, s[0] - 128, q.value);
    }
  }

  lemma VarintTidyIff(s: Bytes)
    ensures Varint(s).Good? ==> Reads(s, EncodeVarint(Varint(s).value), AfterNumber(s), Tidy(s))
    ensures UsizeVarint(s).Good? ==>
              UsizeVarint(s).rest == AfterNumber(s) && Reads(s, EncodeVarint(UsizeVarint(s).value), AfterNumber(s), Tidy(s))
    ensures SignedVarint(s).Good? ==>
              SignedVarint(s).rest == AfterNumber(s) && Reads(s, EncodeSigned(SignedVarint(s).value), AfterNumber(s), Tidy(s))
  {
    hide EncodeVarint, VarintFrom;
    if Varint(s).Good? {
      VarintNoShorter(s, 0);
      VarintCanonicalIff(s, 0);
      SamePrefix(s[..|s| - |AfterNumber(s)|], EncodeVarint(Varint(s).value), AfterNumber(s));
      ZigzagIsBijective(Varint(s).value, 0);
    }
  }

  lemma {:induction false} DeltasTidyIff(s: Bytes, count: nat, previous: int)
    requires Deltas(s, count, previous).Good?
    ensures
      Reads(s, EncodeDeltas(Deltas(s, count, previous).value, previous), Deltas(s, count, previous).rest, AllTidy(s, count))
    decreases count
  {
    hide Reads, SignedVarint, EncodeSigned, Tidy, AfterNumber;
    if count == 0 {
      ReadsNothing(s);
    } else {
      VarintTidyIff(s);
      var p := SignedVarint(s);
      DeltasTidyIff(p.rest, count - 1, previous + p.value);
      var q := Deltas(p.rest, count - 1, previous + p.value);
      ReadsThen(s, EncodeSigned(p.value), p.rest, Tidy(s), EncodeDeltas(q.value, previous + p.value), q.rest, AllTidy(p.rest, count - 1));
    }
  }

  predicate ColumnsTidy(s: Bytes, columns: nat, rows: nat, guarded: bool)
    decreases columns
  {
    columns == 0 || (AllTidy(s, rows) && ColumnsTidy(DeltaIds(s, rows, guarded).rest, columns - 1, rows, guarded))
  }

  lemma ColumnsSplit(s: Bytes, columns: nat, rows: nat, guarded: bool)
    requires columns > 0 && Columns(s, columns, rows, guarded).Good?
    ensures
      var p := DeltaIds(s, rows, guarded);
      && p == Deltas(s, rows, 0) && p.Good?
      && var q := Columns(p.rest, columns - 1, rows, guarded);
         q.Good? && Columns(s, columns, rows, guarded) == Good([p.value] + q.value, q.rest)
  {
    hide Deltas, Encodable;
  }

  lemma {:induction false} ColumnsTidyIff(s: Bytes, columns: nat, rows: nat, guarded: bool)
    requires Columns(s, columns, rows, guarded).Good?
    ensures Reads(s, EncodeColumns(Columns(s, columns, rows, guarded).value), Columns(s, columns, rows, guarded).rest,
                  ColumnsTidy(s, columns, rows, guarded))
    decreases columns
  {
    hide Reads, Columns, DeltaIds, Deltas, Encodable, EncodeDeltas, AllTidy;
    if columns == 0 {
      NoColumns(s, rows, guarded);
      ReadsNothing(s);
    } else {
      ColumnsSplit(s, columns, rows, guarded);
      var p := DeltaIds(s, rows, guarded);
      DeltasTidyIff(s, rows, 0);
      ColumnsTidyIff(p.rest, columns - 1, rows, guarded);
      var q := Columns(p.rest, columns - 1, rows, guarded);
      ReadsThen(s, EncodeDeltas(p.value, 0), p.rest, AllTidy(s, rows),
                EncodeColumns(q.value), q.rest, ColumnsTidy(p.rest, columns - 1, rows, guarded));
    }
  }

  lemma TakeReads(s: Bytes, count: nat)
    requires Take(s, count).Good?
    ensures Reads(s, Take(s, count).value, Take(s, count).rest, true)
  {
    assert s == s[..count] + s[count..];
  }

  /** The lengths of the texts are tidy. */
  predicate DictionaryTidy(s: Bytes, count: nat)
    decreases count
  {
    count == 0
    || (UsizeVarint(s).Good? ==> Tidy(s) && DictionaryTidy(Take(AfterNumber(s), UsizeVarint(s).value).rest, count - 1))
  }

  lemma {:induction false} DictionaryTidyIff(s: Bytes, count: nat)
    requires Dictionary(s, count).Good?
    ensures Reads(s, EncodeDictionary(Dictionary(s, count).value), Dictionary(s, count).rest, DictionaryTidy(s, count))
    decreases count
  {
    hide Reads, UsizeVarint, EncodeVarint, ValidUtf8, Tidy, AfterNumber;
    if count == 0 {
      ReadsNothing(s);
    } else {
      VarintTidyIff(s);
      var p := UsizeVarint(s);
      TakeReads(p.rest, p.value);
      var text := Take(p.rest, p.value);
      ReadsThen(s, EncodeVarint(p.value), p.rest, Tidy(s), text.value, text.rest, true);
      DictionaryTidyIff(text.rest, count - 1);
      var q := Dictionary(text.rest, count - 1);
      ReadsThen(s, EncodeVarint(p.value) + text.value, text.rest, Tidy(s),
                EncodeDictionary(q.value), q.rest, DictionaryTidy(text.rest, count - 1));
    }
  }

  lemma {:induction false} IndexesTidyIff(s: Bytes, count: nat, bound: nat)
    requires Indexes(s, count, bound).Good?
    ensures Reads(s, EncodeAll(Indexes(s, count, bound).value), Indexes(s, count, bound).rest, AllTidy(s, count))
    decreases count
  {
    hide Reads, UsizeVarint, EncodeVarint, Tidy, AfterNumber;
    if count == 0 {
      ReadsNothing(s);
    } else {
      VarintTidyIff(s);
      var p := UsizeVarint(s);
      IndexesTidyIff(p.rest, count - 1, bound);
      var q := Indexes(p.rest, count - 1, bound);
      ReadsThen(s, EncodeVarint(p.value), p.rest, Tidy(s), EncodeAll(q.value), q.rest, AllTidy(p.rest, count - 1));
    }
  }

  lemma {:induction false} FloatBitsTidyIff(s: Bytes, count: nat)
    requires FloatBits(s, count).Good?
    ensures Reads(s, EncodeAll(FloatBits(s, count).value), FloatBits(s, count).rest, AllTidy(s, count))
    decreases count
  {
    hide Reads, Varint, EncodeVarint, Tidy;
    if count == 0 {
      ReadsNothing(s);
    } else {
      VarintTidyIff(s);
      var p := Varint(s);
      FloatBitsTidyIff(p.rest, count - 1);
      var q := FloatBits(p.rest, count - 1);
      ReadsThen(s, EncodeVarint(p.value), p.rest, Tidy(s), EncodeAll(q.value), q.rest, AllTidy(p.rest, count - 1));
    }
  }

  lemma {:induction false} SizesTidyIff(s: Bytes, count: nat, entries: nat, expanded: nat, guarded: bool)
    requires Sizes(s, count, entries, expanded, guarded).Good?
    ensures Reads(s, EncodeAll(Sizes(s, count, entries, expanded, guarded).value.sizes),
                  Sizes(s, count, entries, expanded, guarded).rest, AllTidy(s, count))
    decreases count
  {
    hide Reads, UsizeVarint, EncodeVarint, Square, Tidy, AfterNumber;
    if count == 0 {
      ReadsNothing(s);
    } else {
      VarintTidyIff(s);
      var p := UsizeVarint(s);
      SizesTidyIff(p.rest, count - 1, entries + p.value, expanded + Square(p.value), guarded);
      var q := Sizes(p.rest, count - 1, entries + p.value, expanded + Square(p.value), guarded);
      ReadsThen(s, EncodeVarint(p.value), p.rest, Tidy(s), EncodeAll(q.value.sizes), q.rest, AllTidy(p.rest, count - 1));
    }
  }

  // ---------- flags ----------

  /** The bits behind the last flag are zero. */
  predicate ZeroPadded(packed: Bytes, rows: nat)
    requires |packed| == PackedCount(rows)
  {
    rows % 8 == 0 || packed[|packed| - 1] < Limit(rows % 8)
  }

  function BitsOf(b: nat, k: nat): (bits: seq<bool>)
    ensures |bits| == k && forall i | 0 <= i < k :: bits[i] == BitSet(b, i)
  {
    seq(k, i requires 0 <= i < k => BitSet(b, i))
  }

  /** Packing the lowest bits of a number gives it back just when it has no others. */
  lemma {:induction false} PackBitsOf(b: nat, k: nat)
    ensures PackBits(BitsOf(b, k)) == b <==> b < Limit(k)
  {
    PackBound(BitsOf(b, k));
    if k > 0 {
      var bits := BitsOf(b, k);
      assert bits[1..] == BitsOf(b / 2, k - 1);
      assert bits[0] <==> b % 2 == 1;
      PackBitsOf(b / 2, k - 1);
    }
  }

  lemma LimitOfByte()
    ensures Limit(8) == 256
  {
    assert Limit(8) == 16 * Limit(4) && Limit(4) == 16;
  }

  lemma UnpackSplits(packed: Bytes, rows: nat)
    requires rows > 8 && |packed| == PackedCount(rows)
    ensures |packed[1..]| == PackedCount(rows - 8)
    ensures Unpack(packed, rows)[..8] == BitsOf(packed[0], 8)
    ensures Unpack(packed, rows)[8..] == Unpack(packed[1..], rows - 8)
  {
    hide BitSet;
    forall i | 0 <= i < rows - 8 ensures Unpack(packed, rows)[8..][i] == Unpack(packed[1..], rows - 8)[i] {
      assert (i + 8) / 8 == i / 8 + 1 && (i + 8) % 8 == i % 8;
    }
  }

  lemma {:induction false} PackUnpackIff(packed: Bytes, rows: nat)
    requires |packed| == PackedCount(rows)
    ensures |Pack(Unpack(packed, rows))| == |packed|
    ensures Pack(Unpack(packed, rows)) == packed <==> ZeroPadded(packed, rows)
    decreases rows
  {
    hide PackBits, Limit, BitSet;
    var bits := Unpack(packed, rows);
    PackRoundTrip(bits);
    LimitOfByte();
    if rows == 0 {
    } else if rows <= 8 {
      assert bits == BitsOf(packed[0], rows);
      PackBitsOf(packed[0], rows);
    } else {
      UnpackSplits(packed, rows);
      PackUnpackIff(packed[1..], rows - 8);
      PackBitsOf(packed[0], 8);
      assert packed == [packed[0]] + packed[1..];
    }
  }

  // ---------- parts ----------

  predicate LabelsTidy(s: Bytes, layout: Layout, rows: nat) {
    layout.labels && UsizeVarint(s).Good? ==>
      var count, rest := UsizeVarint(s).value, AfterNumber(s);
      Tidy(s) && DictionaryTidy(rest, count) && AllTidy(Dictionary(rest, count).rest, rows)
  }

  lemma LabelsTidyIff(s: Bytes, layout: Layout, rows: nat, guarded: bool)
    requires Labels(s, layout, rows, guarded).Good?
    ensures Reads(s, EncodeLabels(Labels(s, layout, rows, guarded).value), Labels(s, layout, rows, guarded).rest,
                  LabelsTidy(s, layout, rows))
  {
    hide Reads, UsizeVarint, EncodeVarint, Dictionary, Indexes, EncodeDictionary, EncodeAll, Tidy, AllTidy, DictionaryTidy,
      AfterNumber;
    if !layout.labels {
      ReadsNothing(s);
    } else {
      VarintTidyIff(s);
      var p := UsizeVarint(s);
      DictionaryTidyIff(p.rest, p.value);
      var d := Dictionary(p.rest, p.value);
      IndexesTidyIff(d.rest, rows, p.value);
      var q := Indexes(d.rest, rows, p.value);
      var x, y := DictionaryTidy(p.rest, p.value), AllTidy(d.rest, rows);
      ReadsThen(p.rest, EncodeDictionary(d.value), d.rest, x, EncodeAll(q.value), q.rest, y);
      ReadsThen(s, EncodeVarint(p.value), p.rest, Tidy(s), EncodeDictionary(d.value) + EncodeAll(q.value), q.rest, x && y);
    }
  }

  /** The flags that start at `s` are padded with zero bits. */
  predicate FlagsPadded(s: Bytes, layout: Layout, rows: nat) {
    layout.violations && PackedCount(rows) <= |s| ==> ZeroPadded(s[..PackedCount(rows)], rows)
  }

  lemma FlagsPaddedIff(s: Bytes, layout: Layout, rows: nat)
    requires Violations(s, layout, rows).Good?
    ensures Reads(s, EncodeFlags(Violations(s, layout, rows).value), Violations(s, layout, rows).rest, FlagsPadded(s, layout, rows))
  {
    hide Pack, Unpack, ZeroPadded;
    if !layout.violations {
      ReadsNothing(s);
    } else {
      var packed, rest := s[..PackedCount(rows)], s[PackedCount(rows)..];
      PackUnpackIff(packed, rows);
      assert s == packed + rest;
      SamePrefix(packed, Pack(Unpack(packed, rows)), rest);
    }
  }

  lemma ValuesTidyIff(s: Bytes, layout: Layout, rows: nat)
    requires Values(s, layout, rows).Good?
    ensures Reads(s, EncodeValues(Values(s, layout, rows).value), Values(s, layout, rows).rest, layout.values ==> AllTidy(s, rows))
  {
    hide Reads, FloatBits, EncodeAll, AllTidy;
    if !layout.values {
      ReadsNothing(s);
    } else {
      FloatBitsTidyIff(s, rows);
    }
  }

  // ---------- bodies ----------

  predicate GroupsTidy(s: Bytes, rows: nat, guarded: bool)
    requires PairGroupTable(s, rows, guarded).Good?
  {
    var count, first := UsizeVarint(s).value, AfterNumber(s);
    var sizes := Deltas(first, count, 0).rest;
    var table := Sizes(sizes, count, 0, 0, guarded);
    && Tidy(s) && AllTidy(first, count) && AllTidy(sizes, count) && AllTidy(table.rest, table.value.entries)
    && AllTidy(Deltas(table.rest, table.value.entries, 0).rest, table.value.entries)
  }

  lemma GroupsTidyIff(s: Bytes, rows: nat, guarded: bool)
    requires PairGroupTable(s, rows, guarded).Good?
    ensures Reads(s, EncodeGroups(PairGroupTable(s, rows, guarded).value), PairGroupTable(s, rows, guarded).rest,
                  GroupsTidy(s, rows, guarded))
  {
    hide Reads, UsizeVarint, EncodeVarint, Deltas, EncodeDeltas, Sizes, EncodeAll, Tidy, AllTidy, AfterNumber;
    VarintTidyIff(s);
    var p := UsizeVarint(s);
    DeltasTidyIff(p.rest, p.value, 0);
    var sources := Deltas(p.rest, p.value, 0);
    SizesTidyIff(sources.rest, p.value, 0, 0, guarded);
    var table := Sizes(sources.rest, p.value, 0, 0, guarded);
    var n := table.value.entries;
    DeltasTidyIff(table.rest, n, 0);
    var targets := Deltas(table.rest, n, 0);
    DeltasTidyIff(targets.rest, n, 0);
    var events := Deltas(targets.rest, n, 0);
    var t, e := EncodeDeltas(targets.value, 0), EncodeDeltas(events.value, 0);
    var z, o := EncodeAll(table.value.sizes), EncodeDeltas(sources.value, 0);
    var x, y := AllTidy(table.rest, n), AllTidy(targets.rest, n);
    var v, w := AllTidy(p.rest, p.value), AllTidy(sources.rest, p.value);
    ReadsThen(table.rest, t, targets.rest, x, e, events.rest, y);
    ReadsThen(sources.rest, z, table.rest, w, t + e, events.rest, x && y);
    ReadsThen(p.rest, o, sources.rest, v, z + (t + e), events.rest, w && x && y);
    ReadsThen(s, EncodeVarint(p.value), p.rest, Tidy(s), o + (z + (t + e)), events.rest, v && w && x && y);
  }

  predicate RowsTidy(s: Bytes, layout: Layout, rows: nat, guarded: bool)
    requires Materialized(s, layout, rows, guarded).Good?
  {
    var labels := Columns(s, layout.idCount, rows, guarded).rest;
    var flags := Labels(labels, layout, rows, guarded).rest;
    && ColumnsTidy(s, layout.idCount, rows, guarded) && LabelsTidy(labels, layout, rows)
    && FlagsPadded(flags, layout, rows) && (layout.values ==> AllTidy(Violations(flags, layout, rows).rest, rows))
  }

  lemma RowsTidyIff(s: Bytes, layout: Layout, rows: nat, guarded: bool)
    requires Materialized(s, layout, rows, guarded).Good?
    ensures Reads(s, EncodeRows(Materialized(s, layout, rows, guarded).value), Materialized(s, layout, rows, guarded).rest,
                  RowsTidy(s, layout, rows, guarded))
  {
    hide Columns, Labels, Violations, Values, EncodeColumns, EncodeLabels, EncodeFlags, EncodeValues, Reads,
      ColumnsTidy, LabelsTidy, FlagsPadded, AllTidy;
    var columns := Columns(s, layout.idCount, rows, guarded);
    var labels := Labels(columns.rest, layout, rows, guarded);
    var flags := Violations(labels.rest, layout, rows);
    var values := Values(flags.rest, layout, rows);
    ColumnsTidyIff(s, layout.idCount, rows, guarded);
    LabelsTidyIff(columns.rest, layout, rows, guarded);
    FlagsPaddedIff(labels.rest, layout, rows);
    ValuesTidyIff(flags.rest, layout, rows);
    var c, l, f, v := EncodeColumns(columns.value), EncodeLabels(labels.value), EncodeFlags(flags.value), EncodeValues(values.value);
    var w, x := ColumnsTidy(s, layout.idCount, rows, guarded), LabelsTidy(columns.rest, layout, rows);
    var y, z := FlagsPadded(labels.rest, layout, rows), layout.values ==> AllTidy(flags.rest, rows);
    ReadsThen(s, c, columns.rest, w, l, labels.rest, x);
    ReadsThen(s, c + l, labels.rest, w && x, f, flags.rest, y);
    ReadsThen(s, c + l + f, flags.rest, w && x && y, v, values.rest, z);
  }

  // ---------- the whole capsule ----------

  predicate BodyTidy(s: Bytes, schema: Schema, rows: nat, guarded: bool)
    requires Body(s, schema, rows, guarded).Good?
  {
    if schema == PairGroups then GroupsTidy(s, rows, guarded) else RowsTidy(s, LayoutOf(schema), rows, guarded)
  }

  /** Every number in the capsule is tidy, and the flags are padded with zero bits. */
  predicate CapsuleTidy(s: Bytes, guarded: bool)
    requires CapsuleAt(s, guarded).Good?
  {
    HeaderIff(s, guarded);
    var c := CapsuleAt(s, guarded).value;
    Tidy(s[6..]) && BodyTidy(AfterNumber(s[6..]), c.schema, c.rowCount, guarded)
  }

  lemma HeaderIff(s: Bytes, guarded: bool)
    requires CapsuleAt(s, guarded).Good?
    ensures
      var c := CapsuleAt(s, guarded).value;
      && |s| >= 6 && UsizeVarint(s[6..]) == Good(c.rowCount, AfterNumber(s[6..]))
      && Reads(s, Header(c.schema, c.rowCount), AfterNumber(s[6..]), Tidy(s[6..]))
      && Body(AfterNumber(s[6..]), c.schema, c.rowCount, guarded) == Good(c.storage, CapsuleAt(s, guarded).rest)
  {
    hide UsizeVarint, EncodeVarint, Body, SchemaByte, Tidy, AfterNumber;
    assert s[4..][1..][1..] == s[6..];
    var schema := CapsuleAt(s, guarded).value.schema;
    var front := MAGIC + [VERSION, SchemaByte(schema)];
    assert s[4..][0] == s[4] && s[4..][1..][0] == s[5];
    assert s == front + s[6..];
    VarintTidyIff(s[6..]);
    ReadsThen(s, front, s[6..], true, EncodeVarint(UsizeVarint(s[6..]).value), AfterNumber(s[6..]), Tidy(s[6..]));
  }

  lemma BodyTidyIff(s: Bytes, schema: Schema, rows: nat, guarded: bool)
    requires Body(s, schema, rows, guarded).Good?
    ensures Reads(s, EncodeBody(Body(s, schema, rows, guarded).value), Body(s, schema, rows, guarded).rest,
                  BodyTidy(s, schema, rows, guarded))
  {
    hide Reads, Materialized, PairGroupTable, EncodeRows, EncodeGroups, GroupsTidy, RowsTidy;
    if schema == PairGroups {
      GroupsTidyIff(s, rows, guarded);
    } else {
      RowsTidyIff(s, LayoutOf(schema), rows, guarded);
    }
  }

  /**
   * No accepted capsule is shorter than the encoding of what it decodes to, and it is that encoding exactly when no
   * number in it of several bytes ends in zero, and the bits behind its last flag are zero.
   */
  lemma CanonicalIff(s: Bytes, guarded: bool)
    requires Decode(s, guarded).Ok?
    ensures |Encode(Decode(s, guarded).value)| <= |s|
    ensures s == Encode(Decode(s, guarded).value) <==> CapsuleTidy(s, guarded)
  {
    hide Reads, Body, UsizeVarint, Header, CapsuleAt, EncodeBody, BodyTidy, Tidy, AfterNumber;
    HeaderIff(s, guarded);
    var c, body := Decode(s, guarded).value, AfterNumber(s[6..]);
    BodyTidyIff(body, c.schema, c.rowCount, guarded);
    ReadsThen(s, Header(c.schema, c.rowCount), body, Tidy(s[6..]),
              EncodeBody(c.storage), [], BodyTidy(body, c.schema, c.rowCount, guarded));
    ReadsAll(s, Encode(c), CapsuleTidy(s, guarded));
  }

  lemma ReadsAll(s: Bytes, encoding: Bytes, exact: bool)
    requires Reads(s, encoding, [], exact)
    ensures |encoding| <= |s| && (s == encoding <==> exact)
  {
    assert encoding + [] == encoding;
  }
}
