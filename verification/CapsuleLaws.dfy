/** Laws of the capsule grammar: its guards change no accepted capsule, and no accepted capsule is a prefix of another. */
module CapsuleLaws {
  import opened Basics
  import opened CapsuleFormat
  import opened CapsuleParser

  // ---------- the guards are exact ----------

  ghost predicate Agree<T>(checked: Parse<T>, plain: Parse<T>) {
    checked.Good? || plain.Good? ==> checked == plain
  }

  lemma DeltaIdsExact(s: Bytes, count: nat)
    ensures Agree(DeltaIds(s, count, true), DeltaIds(s, count, false))
  {
  }

  lemma {:induction false} ColumnsExact(s: Bytes, columns: nat, rows: nat)
    ensures Agree(Columns(s, columns, rows, true), Columns(s, columns, rows, false))
    decreases columns
  {
    if columns > 0 {
      DeltaIdsExact(s, rows);
      var ids := DeltaIds(s, rows, false);
      if ids.Good? {
        ColumnsExact(ids.rest, columns - 1, rows);
      }
    }
  }

  /** The rest of the capsule still holds what violations and values need. */
  ghost predicate HoldsTail(s: Bytes, layout: Layout, rows: nat) {
    TailMinimum(layout, rows) <= |s| <= ISIZE_MAX
  }

  lemma LabelsExact(s: Bytes, layout: Layout, rows: nat)
    requires |s| <= ISIZE_MAX
    ensures Labels(s, layout, rows, true).Good? ==> Labels(s, layout, rows, true) == Labels(s, layout, rows, false)
    ensures Labels(s, layout, rows, false).Good? && HoldsTail(Labels(s, layout, rows, false).rest, layout, rows) ==>
              Labels(s, layout, rows, true) == Labels(s, layout, rows, false)
  {
  }

  lemma MaterializedExact(s: Bytes, layout: Layout, rows: nat)
    requires |s| <= ISIZE_MAX
    ensures Agree(Materialized(s, layout, rows, true), Materialized(s, layout, rows, false))
  {
    hide Columns, Labels, Violations, Values, PackedCount;
    ColumnsExact(s, layout.idCount, rows);
    var columns := Columns(s, layout.idCount, rows, false);
    if columns.Good? {
      LabelsExact(columns.rest, layout, rows);
    }
  }

  lemma SquareAtLeast(n: nat)
    ensures n <= Square(n)
  {
  }

  /** Totals only grow, so a table whose expansion fits never overflows on the way. */
  lemma {:induction false} SizesExact(s: Bytes, count: nat, entries: nat, expanded: nat)
    ensures Sizes(s, count, entries, expanded, true).Good? ==>
              Sizes(s, count, entries, expanded, true) == Sizes(s, count, entries, expanded, false)
    ensures entries <= expanded && Sizes(s, count, entries, expanded, false).Good?
            && Sizes(s, count, entries, expanded, false).value.expanded <= USIZE_MAX ==>
              Sizes(s, count, entries, expanded, true) == Sizes(s, count, entries, expanded, false)
    decreases count
  {
    hide UsizeVarint, Square;
    if count > 0 {
      var size := UsizeVarint(s);
      if size.Good? {
        SquareAtLeast(size.value);
        SizesExact(size.rest, count - 1, entries + size.value, expanded + Square(size.value));
      }
    }
  }

  /** A table of sizes is its first size and the table behind it. */
  lemma SizesHead(s: Bytes, count: nat, entries: nat, expanded: nat, guarded: bool) returns (n: nat, rest: Bytes)
    requires count > 0 && Sizes(s, count, entries, expanded, guarded).Good?
    ensures n > 0
    ensures
      var p := Sizes(rest, count - 1, entries + n, expanded + Square(n), guarded);
      p.Good? && Sizes(s, count, entries, expanded, guarded).value == SizeTable([n] + p.value.sizes, p.value.entries, p.value.expanded)
  {
    hide UsizeVarint, Square;
    n, rest := UsizeVarint(s).value, UsizeVarint(s).rest;
  }

  lemma NoSizes(s: Bytes, entries: nat, expanded: nat, guarded: bool)
    ensures Sizes(s, 0, entries, expanded, guarded) ==
            Good(SizeTable([], entries + Sum([]), expanded + SumOfSquares([])), s)
  {
  }

  lemma {:induction false} SizesSum(s: Bytes, count: nat, entries: nat, expanded: nat, guarded: bool)
    requires Sizes(s, count, entries, expanded, guarded).Good?
    ensures
      var t := Sizes(s, count, entries, expanded, guarded).value;
      && t.entries == entries + Sum(t.sizes) && t.expanded == expanded + SumOfSquares(t.sizes)
      && forall n | n in t.sizes :: n > 0
    decreases count
  {
    hide Sizes, Square, Sum, SumOfSquares;
    if count == 0 {
      NoSizes(s, entries, expanded, guarded);
    } else {
      var n, rest := SizesHead(s, count, entries, expanded, guarded);
      SizesSum(rest, count - 1, entries + n, expanded + Square(n), guarded);
      SumSplits(n, Sizes(rest, count - 1, entries + n, expanded + Square(n), guarded).value.sizes);
    }
  }

  lemma SumSplits(n: nat, sizes: seq<nat>)
    ensures Sum([n] + sizes) == n + Sum(sizes)
    ensures SumOfSquares([n] + sizes) == Square(n) + SumOfSquares(sizes)
  {
    assert ([n] + sizes)[1..] == sizes;
  }

  lemma PairGroupTableExact(s: Bytes, rows: nat)
    requires |s| <= ISIZE_MAX && rows <= USIZE_MAX
    ensures Agree(PairGroupTable(s, rows, true), PairGroupTable(s, rows, false))
  {
    var count := UsizeVarint(s);
    if count.Good? {
      DeltaIdsExact(count.rest, count.value);
      var sources := DeltaIds(count.rest, count.value, false);
      if sources.Good? {
        SizesExact(sources.rest, count.value, 0, 0);
        var table := Sizes(sources.rest, count.value, 0, 0, false);
        if table.Good? {
          DeltaIdsExact(table.rest, table.value.entries);
          var targets := DeltaIds(table.rest, table.value.entries, false);
          if targets.Good? {
            DeltaIdsExact(targets.rest, table.value.entries);
          }
        }
      }
    }
  }

  lemma CapsuleExact(s: Bytes)
    requires |s| <= ISIZE_MAX
    ensures Agree(CapsuleAt(s, true), CapsuleAt(s, false))
  {
    hide Materialized, PairGroupTable, Varint, Square, Sum, SumOfSquares;
    forall rest: Bytes, schema, rows: nat | |rest| <= |s| && rows <= USIZE_MAX
      ensures Agree(Body(rest, schema, rows, true), Body(rest, schema, rows, false))
    {
      if schema == PairGroups {
        PairGroupTableExact(rest, rows);
      } else {
        MaterializedExact(rest, LayoutOf(schema), rows);
      }
    }
  }

  /** The early size checks and the overflow checks reject nothing that decodes without them, and change no result. */
  lemma GuardsAreExact(s: Bytes, c: Capsule)
    requires |s| <= ISIZE_MAX
    ensures Decode(s, true) == Ok(c) <==> Decode(s, false) == Ok(c)
  {
    hide CapsuleAt;
    CapsuleExact(s);
  }

  // ---------- accepted capsules are well formed ----------

  lemma AcceptedIsWellFormed(s: Bytes, guarded: bool)
    requires Decode(s, guarded).Ok?
    ensures WellFormed(Decode(s, guarded).value)
  {
    var c := Decode(s, guarded).value;
    var body := CapsuleAt(s, guarded);
    var rest := s[6..];
    var rows := UsizeVarint(rest);
    if c.schema == PairGroups {
      GroupsWellFormed(rows.rest, rows.value, guarded);
    } else {
      RowsWellFormed(rows.rest, LayoutOf(c.schema), rows.value, guarded);
    }
  }

  lemma GroupsWellFormed(s: Bytes, rows: nat, guarded: bool)
    requires PairGroupTable(s, rows, guarded).Good?
    ensures WellFormedGroups(PairGroupTable(s, rows, guarded).value, rows)
  {
    var count := UsizeVarint(s);
    var sources := DeltaIds(count.rest, count.value, guarded);
    SizesSum(sources.rest, count.value, 0, 0, guarded);
  }

  lemma RowsWellFormed(s: Bytes, layout: Layout, rows: nat, guarded: bool)
    requires Materialized(s, layout, rows, guarded).Good?
    ensures WellFormedRows(Materialized(s, layout, rows, guarded).value, layout, rows)
  {
    hide Columns, Labels, FloatBits, Encodable, ValidUtf8, Unpack;
    LabelsWellFormed(Columns(s, layout.idCount, rows, guarded).rest, layout, rows, guarded);
  }

  lemma LabelsWellFormed(s: Bytes, layout: Layout, rows: nat, guarded: bool)
    requires Labels(s, layout, rows, guarded).Good?
    ensures
      var part := Labels(s, layout, rows, guarded).value;
      if layout.labels then
        && part.indexes.Some? && |part.indexes.value| == rows
        && |part.dictionary| <= rows && (rows != 0 ==> part.dictionary != [])
        && (forall i | i in part.indexes.value :: i < |part.dictionary|)
        && (forall d | d in part.dictionary :: ValidUtf8(d) && |d| <= USIZE_MAX)
      else part == LabelPart([], None)
  {
    hide Dictionary, Indexes, UsizeVarint, ValidUtf8;
  }

  // ---------- more bytes behind an accepted value change nothing but the rest ----------

  /** More bytes are left over by what was accepted, and do not help what was refused for more than a lack of bytes. */
  ghost predicate Stable<T>(p: Parse<T>, q: Parse<T>, more: Bytes) {
    && (p.Good? ==> q == Good(p.value, p.rest + more))
    && (p.Bad? && p.error != Truncated ==> q == Bad(p.error, p.rest + more))
  }

  lemma TakeStable(s: Bytes, count: nat, more: Bytes)
    ensures Stable(Take(s, count), Take(s + more, count), more)
  {
    if count <= |s| {
      assert (s + more)[..count] == s[..count];
      assert (s + more)[count..] == s[count..] + more;
    }
  }

  lemma {:induction false} VarintFromStable(s: Bytes, k: nat, more: Bytes)
    requires k <= 9
    ensures Stable(VarintFrom(s, k), VarintFrom(s + more, k), more)
    decreases |s|
  {
    if s != [] {
      assert (s + more)[0] == s[0] && (s + more)[1..] == s[1..] + more;
      if k < 9 {
        VarintFromStable(s[1..], k + 1, more);
      }
    }
  }

  lemma VarintStable(s: Bytes, more: Bytes)
    ensures Stable(Varint(s), Varint(s + more), more)
    ensures Stable(UsizeVarint(s), UsizeVarint(s + more), more)
    ensures Stable(SignedVarint(s), SignedVarint(s + more), more)
  {
    VarintFromStable(s, 0, more);
  }

  lemma {:induction false} DeltasStable(s: Bytes, count: nat, previous: int, more: Bytes)
    ensures Stable(Deltas(s, count, previous), Deltas(s + more, count, previous), more)
    decreases count
  {
    hide SignedVarint, IsI64;
    if count > 0 {
      VarintStable(s, more);
      var delta := SignedVarint(s);
      if delta.Good? {
        DeltasStable(delta.rest, count - 1, previous + delta.value, more);
      }
    }
  }

  lemma DeltaIdsStable(s: Bytes, count: nat, guarded: bool, more: Bytes)
    ensures Stable(DeltaIds(s, count, guarded), DeltaIds(s + more, count, guarded), more)
  {
    hide Deltas;
    DeltasStable(s, count, 0, more);
  }

  lemma {:induction false} ColumnsStable(s: Bytes, columns: nat, rows: nat, guarded: bool, more: Bytes)
    ensures Stable(Columns(s, columns, rows, guarded), Columns(s + more, columns, rows, guarded), more)
    decreases columns
  {
    hide DeltaIds, Encodable;
    if columns > 0 {
      DeltaIdsStable(s, rows, guarded, more);
      var ids := DeltaIds(s, rows, guarded);
      if ids.Good? {
        ColumnsStable(ids.rest, columns - 1, rows, guarded, more);
      }
    }
  }

  lemma {:induction false} DictionaryStable(s: Bytes, count: nat, more: Bytes)
    ensures Stable(Dictionary(s, count), Dictionary(s + more, count), more)
    decreases count
  {
    hide UsizeVarint, ValidUtf8, Take;
    if count > 0 {
      VarintStable(s, more);
      var length := UsizeVarint(s);
      if length.Good? {
        TakeStable(length.rest, length.value, more);
        var text := Take(length.rest, length.value);
        if text.Good? {
          DictionaryStable(text.rest, count - 1, more);
        }
      }
    }
  }

  lemma {:induction false} IndexesStable(s: Bytes, count: nat, bound: nat, more: Bytes)
    ensures Stable(Indexes(s, count, bound), Indexes(s + more, count, bound), more)
    decreases count
  {
    hide UsizeVarint;
    if count > 0 {
      VarintStable(s, more);
      var index := UsizeVarint(s);
      if index.Good? {
        IndexesStable(index.rest, count - 1, bound, more);
      }
    }
  }

  lemma {:induction false} FloatBitsStable(s: Bytes, count: nat, more: Bytes)
    ensures Stable(FloatBits(s, count), FloatBits(s + more, count), more)
    decreases count
  {
    hide Varint;
    if count > 0 {
      VarintStable(s, more);
      var bits := Varint(s);
      if bits.Good? {
        FloatBitsStable(bits.rest, count - 1, more);
      }
    }
  }

  lemma GuardStable(s: Bytes, minimum: Option<nat>, guarded: bool, more: Bytes)
    ensures Stable(Guard(s, minimum, guarded), Guard(s + more, minimum, guarded), more)
  {
  }

  lemma GuardKeeps(s: Bytes, minimum: Option<nat>, guarded: bool)
    ensures Guard(s, minimum, guarded).Good? ==> Guard(s, minimum, guarded) == Good((), s)
  {
  }

  /** The label part behind its count. */
  function LabelsBehind(s: Bytes, layout: Layout, rows: nat, count: nat, guarded: bool): Parse<LabelPart> {
    if count > rows || (rows != 0 && count == 0) then Bad(InvalidLabelDictionary, s)
    else
      var (_, rest) :- Guard(s, Fit(count + rows + TailMinimum(layout, rows)), guarded);
      var (dictionary, rest) :- Dictionary(rest, count);
      var (indexes, rest) :- Indexes(rest, rows, count);
      Good(LabelPart(dictionary, Some(indexes)), rest)
  }

  lemma LabelsSplit(s: Bytes, layout: Layout, rows: nat, guarded: bool)
    ensures Labels(s, layout, rows, guarded) ==
            if !layout.labels then Good(LabelPart([], None), s)
            else
              match UsizeVarint(s)
              case Bad(error, rest) => Bad(error, rest)
              case Good(count, rest) => LabelsBehind(rest, layout, rows, count, guarded)
  {
    hide UsizeVarint, Dictionary, Indexes, Guard, Fit;
  }

  lemma LabelsBehindStable(s: Bytes, layout: Layout, rows: nat, count: nat, guarded: bool, more: Bytes)
    ensures Stable(LabelsBehind(s, layout, rows, count, guarded), LabelsBehind(s + more, layout, rows, count, guarded), more)
  {
    hide Dictionary, Indexes, Guard, Fit, TailMinimum;
    var minimum := Fit(count + rows + TailMinimum(layout, rows));
    GuardStable(s, minimum, guarded, more);
    GuardKeeps(s, minimum, guarded);
    DictionaryStable(s, count, more);
    var dictionary := Dictionary(s, count);
    if dictionary.Good? {
      IndexesStable(dictionary.rest, rows, count, more);
    }
  }

  lemma LabelsStable(s: Bytes, layout: Layout, rows: nat, guarded: bool, more: Bytes)
    ensures Stable(Labels(s, layout, rows, guarded), Labels(s + more, layout, rows, guarded), more)
  {
    hide Labels, UsizeVarint, LabelsBehind;
    LabelsSplit(s, layout, rows, guarded);
    LabelsSplit(s + more, layout, rows, guarded);
    VarintStable(s, more);
    var count := UsizeVarint(s);
    if layout.labels && count.Good? {
      LabelsBehindStable(count.rest, layout, rows, count.value, guarded, more);
    }
  }

  lemma MaterializedStable(s: Bytes, layout: Layout, rows: nat, guarded: bool, more: Bytes)
    ensures Stable(Materialized(s, layout, rows, guarded), Materialized(s + more, layout, rows, guarded), more)
  {
    hide Columns, Labels, FloatBits, Unpack, PackedCount, Encodable, Guard;
    GuardStable(s, Fit(RowsMinimum(layout, rows)), guarded, more);
    GuardKeeps(s, Fit(RowsMinimum(layout, rows)), guarded);
    ColumnsStable(s, layout.idCount, rows, guarded, more);
    var columns := Columns(s, layout.idCount, rows, guarded);
    if columns.Good? {
      LabelsStable(columns.rest, layout, rows, guarded, more);
      var labels := Labels(columns.rest, layout, rows, guarded);
      if labels.Good? {
        TakeStable(labels.rest, PackedCount(rows), more);
        var violations := Violations(labels.rest, layout, rows);
        if violations.Good? {
          FloatBitsStable(violations.rest, rows, more);
        }
      }
    }
  }

  lemma SizesUnfold(s: Bytes, count: nat, entries: nat, expanded: nat, guarded: bool)
    requires count > 0
    ensures
      match UsizeVarint(s)
      case Bad(error, rest) => Sizes(s, count, entries, expanded, guarded) == Bad(error, rest)
      case Good(n, rest) =>
        var m, e := entries + n, expanded + Square(n);
        Sizes(s, count, entries, expanded, guarded) ==
        if n == 0 then Bad(InvalidPairGroups, rest)
        else if guarded && (m > USIZE_MAX || Square(n) > USIZE_MAX || e > USIZE_MAX) then Bad(CountOverflow, rest)
        else
          match Sizes(rest, count - 1, m, e, guarded)
          case Bad(error, last) => Bad(error, last)
          case Good(t, last) => Good(SizeTable([n] + t.sizes, t.entries, t.expanded), last)
  {
    hide UsizeVarint, Square;
  }

  lemma {:induction false} SizesStable(s: Bytes, count: nat, entries: nat, expanded: nat, guarded: bool, more: Bytes)
    ensures Stable(Sizes(s, count, entries, expanded, guarded), Sizes(s + more, count, entries, expanded, guarded), more)
    decreases count
  {
    hide UsizeVarint, Square, Sizes;
    if count == 0 {
      NoSizes(s, entries, expanded, guarded);
      NoSizes(s + more, entries, expanded, guarded);
    } else {
      VarintStable(s, more);
      SizesUnfold(s, count, entries, expanded, guarded);
      SizesUnfold(s + more, count, entries, expanded, guarded);
      var size := UsizeVarint(s);
      if size.Good? {
        SizesStable(size.rest, count - 1, entries + size.value, expanded + Square(size.value), guarded, more);
      }
    }
  }

  lemma PairGroupTableStable(s: Bytes, rows: nat, guarded: bool, more: Bytes)
    ensures Stable(PairGroupTable(s, rows, guarded), PairGroupTable(s + more, rows, guarded), more)
  {
    hide UsizeVarint, DeltaIds, Sizes, Guard;
    VarintStable(s, more);
    var count := UsizeVarint(s);
    if count.Good? {
      GuardStable(count.rest, Fit(2 * count.value), guarded, more);
      GuardKeeps(count.rest, Fit(2 * count.value), guarded);
      DeltaIdsStable(count.rest, count.value, guarded, more);
      var sources := DeltaIds(count.rest, count.value, guarded);
      if sources.Good? {
        SizesStable(sources.rest, count.value, 0, 0, guarded, more);
        var table := Sizes(sources.rest, count.value, 0, 0, guarded);
        if table.Good? {
          GuardStable(table.rest, Fit(2 * table.value.entries), guarded, more);
          GuardKeeps(table.rest, Fit(2 * table.value.entries), guarded);
          DeltaIdsStable(table.rest, table.value.entries, guarded, more);
          var targets := DeltaIds(table.rest, table.value.entries, guarded);
          if targets.Good? {
            DeltaIdsStable(targets.rest, table.value.entries, guarded, more);
          }
        }
      }
    }
  }

  lemma BodyStable(s: Bytes, schema: Schema, rows: nat, guarded: bool, more: Bytes)
    ensures Stable(Body(s, schema, rows, guarded), Body(s + more, schema, rows, guarded), more)
  {
    if schema == PairGroups {
      PairGroupTableStable(s, rows, guarded, more);
    } else {
      MaterializedStable(s, LayoutOf(schema), rows, guarded, more);
    }
  }

  /** The capsule behind its magic, version and schema. */
  function BehindHeader(s: Bytes, schema: Schema, guarded: bool): Parse<Capsule> {
    var (rows, rest) :- UsizeVarint(s);
    var (storage, rest) :- Body(rest, schema, rows, guarded);
    Good(Capsule(schema, rows, storage), rest)
  }

  lemma BehindHeaderStable(s: Bytes, schema: Schema, guarded: bool, more: Bytes)
    ensures Stable(BehindHeader(s, schema, guarded), BehindHeader(s + more, schema, guarded), more)
  {
    hide UsizeVarint, Body;
    VarintStable(s, more);
    var rows := UsizeVarint(s);
    if rows.Good? {
      BodyStable(rows.rest, schema, rows.value, guarded, more);
    }
  }

  /** The header byte by byte, and what is wrong with it. */
  lemma HeaderSplit(s: Bytes, guarded: bool)
    ensures CapsuleAt(s, guarded) ==
            if |s| < 4 then Bad(Truncated, s)
            else if s[..4] != MAGIC then Bad(BadMagic, s[4..])
            else if |s| < 5 then Bad(Truncated, s[4..])
            else if s[4] != VERSION then Bad(UnsupportedVersion(s[4]), s[5..])
            else if |s| < 6 then Bad(Truncated, s[5..])
            else if SchemaOf(s[5]).None? then Bad(UnknownSchema(s[5]), s[6..])
            else BehindHeader(s[6..], SchemaOf(s[5]).value, guarded)
  {
    hide UsizeVarint, Body, SchemaOf;
    if |s| >= 5 {
      assert s[4..][1..] == s[5..];
      if |s| >= 6 {
        assert s[5..][1..] == s[6..];
      }
    }
  }

  lemma CapsuleStable(s: Bytes, guarded: bool, more: Bytes)
    ensures Stable(CapsuleAt(s, guarded), CapsuleAt(s + more, guarded), more)
  {
    hide CapsuleAt, BehindHeader, SchemaOf;
    HeaderSplit(s, guarded);
    HeaderSplit(s + more, guarded);
    if |s| >= 4 {
      assert (s + more)[..4] == s[..4] && (s + more)[4..] == s[4..] + more;
      if |s| >= 5 {
        assert (s + more)[5..] == s[5..] + more;
        if |s| >= 6 {
          assert (s + more)[6..] == s[6..] + more;
          if SchemaOf(s[5]).Some? {
            BehindHeaderStable(s[6..], SchemaOf(s[5]).value, guarded, more);
          }
        }
      }
    }
  }

  /** No accepted capsule continues another: anything behind an accepted capsule is reported as trailing bytes. */
  lemma AcceptedIsPrefixFree(s: Bytes, more: Bytes, guarded: bool)
    requires Decode(s, guarded).Ok? && more != []
    ensures Decode(s + more, guarded) == Err(TrailingBytes)
  {
    hide CapsuleAt;
    CapsuleStable(s, guarded, more);
    assert [] + more == more;
  }

  /** Every proper beginning of an accepted capsule is refused, and as truncated. */
  lemma BeginningIsTruncated(s: Bytes, guarded: bool, n: nat)
    requires Decode(s, guarded).Ok? && n < |s|
    ensures Decode(s[..n], guarded) == Err(Truncated)
  {
    hide CapsuleAt;
    CapsuleStable(s[..n], guarded, s[n..]);
    assert s[..n] + s[n..] == s;
    assert s[n..] != [];
  }
}
