/** The lazy row iterator over a decoded capsule, and the iterator over its unexpanded pair groups. */
module CapsuleRows {
  import opened Basics
  import opened CapsuleFormat

  datatype Row = Row(ids: seq<int>, violated: Option<bool>, text: Option<Bytes>, value: Option<nat>)

  datatype PairGroup = PairGroup(source: int, targets: seq<int>, events: seq<int>)

  // ---------- the rows of a capsule ----------

  function RowAt(m: MaterializedRows, i: nat, layout: Layout, rows: nat): Row
    requires WellFormedRows(m, layout, rows) && i < rows
  {
    Row(
      seq(|m.idColumns|, c requires 0 <= c < |m.idColumns| => assert m.idColumns[c] in m.idColumns; m.idColumns[c][i]),
      if m.violations.Some? then Some(m.violations.value[i]) else None,
      if m.labelIndexes.Some? then
        assert m.labelIndexes.value[i] in m.labelIndexes.value; Some(m.dictionary[m.labelIndexes.value[i]])
      else None,
      if m.values.Some? then Some(m.values.value[i]) else None)
  }

  function RowsFrom(m: MaterializedRows, layout: Layout, rows: nat, from: nat): (rs: seq<Row>)
    requires WellFormedRows(m, layout, rows) && from <= rows
    ensures |rs| == rows - from
  {
    seq(rows - from, i requires 0 <= i < rows - from => RowAt(m, from + i, layout, rows))
  }

  lemma RowsFromStep(m: MaterializedRows, layout: Layout, rows: nat, from: nat)
    requires WellFormedRows(m, layout, rows) && from < rows
    ensures RowsFrom(m, layout, rows, from) == [RowAt(m, from, layout, rows)] + RowsFrom(m, layout, rows, from + 1)
  {
    hide RowAt, WellFormedRows;
  }

  predicate Paired(g: PairGroup) {
    |g.targets| == |g.events|
  }

  function PairRow(g: PairGroup, left: nat, right: nat): Row
    requires Paired(g) && left < |g.targets| && right < |g.targets|
  {
    Row([g.source, g.targets[left], g.targets[right], g.events[left], g.events[right]], None, None, None)
  }

  /** All pairs with entry `left` first. */
  function PairsOf(g: PairGroup, left: nat): (rows: seq<Row>)
    requires Paired(g) && left < |g.targets|
    ensures |rows| == |g.targets|
  {
    seq(|g.targets|, right requires 0 <= right < |g.targets| => PairRow(g, left, right))
  }

  /** The pairs with entry `left` or a later one first: for `left` zero, the Cartesian square in row-major order. */
  function PairsFrom(g: PairGroup, left: nat): seq<Row>
    requires Paired(g) && left <= |g.targets|
    decreases |g.targets| - left
  {
    if left == |g.targets| then [] else PairsOf(g, left) + PairsFrom(g, left + 1)
  }

  /** The entries from `offset` on are exactly those of the groups from `group` on. */
  predicate Lines(t: GroupTable, group: nat, offset: nat) {
    && |t.sources| == |t.sizes| && |t.targets| == |t.events| && group <= |t.sizes|
    && offset + Sum(t.sizes[group..]) == |t.targets|
  }

  lemma LinesUp(t: GroupTable, group: nat, offset: nat)
    requires Lines(t, group, offset) && group < |t.sizes|
    ensures offset + t.sizes[group] <= |t.targets| && Lines(t, group + 1, offset + t.sizes[group])
  {
    assert t.sizes[group..][1..] == t.sizes[group + 1..];
  }

  function GroupAt(t: GroupTable, group: nat, offset: nat): (g: PairGroup)
    requires Lines(t, group, offset) && group < |t.sizes|
    ensures Paired(g) && |g.targets| == t.sizes[group]
  {
    LinesUp(t, group, offset);
    PairGroup(t.sources[group], t.targets[offset..offset + t.sizes[group]], t.events[offset..offset + t.sizes[group]])
  }

  function GroupsFrom(t: GroupTable, group: nat, offset: nat): (gs: seq<PairGroup>)
    requires Lines(t, group, offset)
    ensures |gs| == |t.sizes| - group && forall g | g in gs :: Paired(g)
    decreases |t.sizes| - group
  {
    if group == |t.sizes| then []
    else
      LinesUp(t, group, offset);
      [GroupAt(t, group, offset)] + GroupsFrom(t, group + 1, offset + t.sizes[group])
  }

  /** The groups expanded one after the other. */
  function Expand(gs: seq<PairGroup>): seq<Row>
    requires forall g | g in gs :: Paired(g)
  {
    if gs == [] then [] else PairsFrom(gs[0], 0) + Expand(gs[1..])
  }

  function AllRows(c: Capsule): seq<Row>
    requires WellFormed(c)
  {
    match c.storage
    case Rows(m) => RowsFrom(m, LayoutOf(c.schema), c.rowCount, 0)
    case Groups(t) => AllLines(t); Expand(GroupsFrom(t, 0, 0))
  }

  lemma AllLines(t: GroupTable)
    requires |t.sources| == |t.sizes| && |t.targets| == |t.events| == Sum(t.sizes)
    ensures Lines(t, 0, 0)
  {
    assert t.sizes[0..] == t.sizes;
  }

  // ---------- which they are ----------

  /** A materialized row holds the entries of all columns at its position. */
  lemma MaterializedRowIs(c: Capsule, m: MaterializedRows, i: nat)
    requires WellFormed(c) && c.storage == Rows(m) && i < c.rowCount
    ensures i < |AllRows(c)|
    ensures
      var row := AllRows(c)[i];
      && |row.ids| == |m.idColumns|
      && (forall k | 0 <= k < |m.idColumns| :: i < |m.idColumns[k]| && row.ids[k] == m.idColumns[k][i])
      && (if m.violations.None? then row.violated == None
          else i < |m.violations.value| && row.violated == Some(m.violations.value[i]))
      && (if m.labelIndexes.None? then row.text == None
          else i < |m.labelIndexes.value| && m.labelIndexes.value[i] < |m.dictionary|
               && row.text == Some(m.dictionary[m.labelIndexes.value[i]]))
      && (if m.values.None? then row.value == None else i < |m.values.value| && row.value == Some(m.values.value[i]))
  {
    hide Encodable, ValidUtf8;
    assert forall k | 0 <= k < |m.idColumns| :: m.idColumns[k] in m.idColumns;
    assert m.labelIndexes.Some? ==> m.labelIndexes.value[i] in m.labelIndexes.value;
  }

  function Area(lines: nat, n: nat): nat {
    lines * n
  }

  lemma AreaOfLines(lines: nat, n: nat)
    ensures Area(0, n) == 0
    ensures lines > 0 ==> Area(lines, n) == n + Area(lines - 1, n)
  {
  }

  lemma PairsSplit(g: PairGroup, start: nat)
    requires Paired(g) && start < |g.targets|
    ensures PairsFrom(g, start) == PairsOf(g, start) + PairsFrom(g, start + 1)
    ensures forall right | 0 <= right < |g.targets| :: PairsOf(g, start)[right] == PairRow(g, start, right)
  {
    hide PairRow;
  }

  lemma {:induction false} PairIs(g: PairGroup, start: nat, left: nat, right: nat) returns (at: nat)
    requires Paired(g) && start <= left < |g.targets| && right < |g.targets|
    ensures at == Area(left - start, |g.targets|) + right
    ensures at < |PairsFrom(g, start)| && PairsFrom(g, start)[at] == PairRow(g, left, right)
    decreases left - start
  {
    hide PairRow, Paired, PairsOf, PairsFrom, Area;
    PairsSplit(g, start);
    AreaOfLines(left - start, |g.targets|);
    if start < left {
      at := PairIs(g, start + 1, left, right);
      at := |g.targets| + at;
    } else {
      at := right;
    }
  }

  lemma EntriesAdd(t: GroupTable, first: nat, group: nat)
    requires first < group <= |t.sizes|
    ensures Sum(t.sizes[first..group]) == t.sizes[first] + Sum(t.sizes[first + 1..group])
    ensures SumOfSquares(t.sizes[first..group]) == t.sizes[first] * t.sizes[first] + SumOfSquares(t.sizes[first + 1..group])
  {
    assert t.sizes[first..group] == [t.sizes[first]] + t.sizes[first + 1..group];
  }

  lemma FirstExpanded(t: GroupTable, first: nat, offset: nat)
    requires Lines(t, first, offset) && first < |t.sizes|
    ensures Lines(t, first + 1, offset + t.sizes[first])
    ensures
      var pairs := PairsFrom(GroupAt(t, first, offset), 0);
      && |pairs| == t.sizes[first] * t.sizes[first]
      && Expand(GroupsFrom(t, first, offset)) == pairs + Expand(GroupsFrom(t, first + 1, offset + t.sizes[first]))
  {
    hide PairsFrom, Sum;
    LinesUp(t, first, offset);
    PairCount(GroupAt(t, first, offset), 0);
    assert GroupsFrom(t, first, offset)[1..] == GroupsFrom(t, first + 1, offset + t.sizes[first]);
  }

  /** Where the rows of a group begin, and where its entries do, as the groups from `first` on are counted. */
  lemma {:induction false} ExpandedIs(t: GroupTable, first: nat, offset: nat, group: nat, left: nat, right: nat)
    returns (at: nat, entry: nat)
    requires Lines(t, first, offset) && first <= group < |t.sizes| && left < t.sizes[group] && right < t.sizes[group]
    ensures at == SumOfSquares(t.sizes[first..group]) + (left * t.sizes[group] + right)
    ensures entry == offset + Sum(t.sizes[first..group]) && Lines(t, group, entry)
    ensures at < |Expand(GroupsFrom(t, first, offset))|
    ensures Expand(GroupsFrom(t, first, offset))[at] == PairRow(GroupAt(t, group, entry), left, right)
    decreases group - first
  {
    hide PairsFrom, Lines, Expand, GroupsFrom, GroupAt, PairRow, Sum, SumOfSquares;
    FirstExpanded(t, first, offset);
    var pairs := PairsFrom(GroupAt(t, first, offset), 0);
    if first == group {
      NoSizes(t, first);
      at := PairIs(GroupAt(t, first, offset), 0, left, right);
      entry := offset;
    } else {
      EntriesAdd(t, first, group);
      at, entry := ExpandedIs(t, first + 1, offset + t.sizes[first], group, left, right);
      at := |pairs| + at;
    }
  }

  lemma NoSizes(t: GroupTable, first: nat)
    requires first <= |t.sizes|
    ensures Sum(t.sizes[first..first]) == 0 && SumOfSquares(t.sizes[first..first]) == 0
  {
  }

  lemma LiteralPairRow(t: GroupTable, group: nat, entry: nat, left: nat, right: nat)
    requires Lines(t, group, entry) && group < |t.sizes| && left < t.sizes[group] && right < t.sizes[group]
    ensures entry + left < |t.targets| && entry + right < |t.targets|
    ensures PairRow(GroupAt(t, group, entry), left, right) ==
            Row([t.sources[group], t.targets[entry + left], t.targets[entry + right],
                 t.events[entry + left], t.events[entry + right]], None, None, None)
  {
    LinesUp(t, group, entry);
  }

  /**
   * Row by row: behind the squares of the groups before it a group has its pairs in row-major order, with its source
   * and the targets and events of both entries.
   */
  lemma GroupRowIs(c: Capsule, t: GroupTable, group: nat, left: nat, right: nat)
    requires WellFormed(c) && c.storage == Groups(t)
    requires group < |t.sizes| && left < t.sizes[group] && right < t.sizes[group]
    ensures
      var at := SumOfSquares(t.sizes[..group]) + (left * t.sizes[group] + right);
      var entry := Sum(t.sizes[..group]);
      && entry + left < |t.targets| && entry + right < |t.targets| && at < |AllRows(c)|
      && AllRows(c)[at] ==
         Row([t.sources[group], t.targets[entry + left], t.targets[entry + right],
              t.events[entry + left], t.events[entry + right]], None, None, None)
  {
    hide Encodable, Sum, SumOfSquares, Expand, GroupsFrom, GroupAt, Lines;
    AllLines(t);
    var at, entry := ExpandedIs(t, 0, 0, group, left, right);
    assert t.sizes[0..group] == t.sizes[..group];
    LiteralPairRow(t, group, entry, left, right);
  }

  // ---------- how many there are ----------

  lemma {:induction false} PairCount(g: PairGroup, left: nat)
    requires Paired(g) && left <= |g.targets|
    ensures |PairsFrom(g, left)| == (|g.targets| - left) * |g.targets|
    decreases |g.targets| - left
  {
    if left < |g.targets| {
      PairCount(g, left + 1);
      assert (|g.targets| - left - 1) * |g.targets| + |g.targets| == (|g.targets| - left) * |g.targets|;
    }
  }

  lemma {:induction false} ExpandCount(t: GroupTable, group: nat, offset: nat)
    requires Lines(t, group, offset)
    ensures |Expand(GroupsFrom(t, group, offset))| == SumOfSquares(t.sizes[group..])
    decreases |t.sizes| - group
  {
    if group < |t.sizes| {
      LinesUp(t, group, offset);
      PairCount(GroupAt(t, group, offset), 0);
      ExpandCount(t, group + 1, offset + t.sizes[group]);
      assert GroupsFrom(t, group, offset)[1..] == GroupsFrom(t, group + 1, offset + t.sizes[group]);
      assert t.sizes[group..][1..] == t.sizes[group + 1..];
    }
  }

  /** A capsule has as many rows as it says. */
  lemma RowCount(c: Capsule)
    requires WellFormed(c)
    ensures |AllRows(c)| == c.rowCount
  {
    if c.storage.Groups? {
      var t := c.storage.groups;
      AllLines(t);
      ExpandCount(t, 0, 0);
      assert t.sizes[0..] == t.sizes;
    }
  }

  // ---------- the row iterator ----------

  class BindingRows {
    const capsule: Capsule
    var row: nat
    var group: nat
    var left: nat
    var right: nat
    var entryOffset: nat

    /** The rows still to come. */
    ghost function Remaining(): seq<Row>
      requires Placed()
      reads this
    {
      match capsule.storage
      case Rows(m) => RowsFrom(m, LayoutOf(capsule.schema), capsule.rowCount, row)
      case Groups(t) => RowsToCome(t, group, entryOffset, left, right)
    }

    ghost predicate Placed()
      reads this
    {
      && WellFormed(capsule) && row <= capsule.rowCount
      && (capsule.storage.Groups? ==> InGroup(capsule.storage.groups, group, entryOffset, left, right))
    }

    ghost predicate Valid()
      reads this
      ensures Valid() ==> Placed()
    {
      Placed() && row + |Remaining()| == capsule.rowCount
    }

    constructor (c: Capsule)
      requires WellFormed(c)
      ensures Valid() && capsule == c && row == 0 && Remaining() == AllRows(c)
    {
      capsule := c;
      row, group, left, right, entryOffset := 0, 0, 0, 0, 0;
      new;
      RowCount(c);
      if c.storage.Groups? {
        AllLines(c.storage.groups);
        assert forall n | n in c.storage.groups.sizes :: n > 0;
        assert c.storage.groups.sizes != [] ==> c.storage.groups.sizes[0] in c.storage.groups.sizes;
        RowsToComeFromTheFront(c.storage.groups, 0, 0);
      }
    }

    /** Exact at every step. */
    method SizeHint() returns (lower: nat, upper: nat)
      requires Valid()
      ensures lower == upper == |Remaining()|
    {
      var remaining := if capsule.rowCount >= row then capsule.rowCount - row else 0;
      return remaining, remaining;
    }

    method Next() returns (r: Option<Row>)
      requires Valid()
      modifies this
      ensures Valid()
      ensures r.None? ==> old(Remaining()) == [] && Remaining() == []
      ensures r.Some? ==> old(Remaining()) == [r.value] + Remaining()
    {
      match capsule.storage
      case Rows(m) =>
        if row >= capsule.rowCount {
          return None;
        }
        RowsFromStep(m, LayoutOf(capsule.schema), capsule.rowCount, row);
        r := Some(RowAt(m, row, LayoutOf(capsule.schema), capsule.rowCount));
        row := row + 1;
      case Groups(t) =>
        r := NextPair(t);
    }

    method NextPair(t: GroupTable) returns (r: Option<Row>)
      requires Valid() && capsule.storage == Groups(t)
      modifies this
      ensures Valid()
      ensures r.None? ==> old(Remaining()) == [] && Remaining() == []
      ensures r.Some? ==> old(Remaining()) == [r.value] + Remaining()
    {
      hide WellFormed, WellFormedGroups, WellFormedRows, RowsFrom, RowsToCome, InGroup, Paired, PairRow, GroupAt, Lines,
        Advanced;
      SameLengths(t, group, entryOffset, left, right);
      if group >= |t.sources| {
        NothingToCome(t, group, entryOffset, left, right);
        return None;
      }
      RowsToComeStep(t, group, entryOffset, left, right);
      PairRowAt(t, group, entryOffset, left, right);
      var l, k := entryOffset + left, entryOffset + right;
      r := Some(Row([t.sources[group], t.targets[l], t.targets[k], t.events[l], t.events[k]], None, None, None));
      row := row + 1;
      Advance(t);
    }

    method Advance(t: GroupTable)
      requires group < |t.sizes| && left < t.sizes[group] && right < t.sizes[group]
      modifies this`group, this`entryOffset, this`left, this`right
      ensures (group, entryOffset, left, right) == Advanced(t, old(group), old(entryOffset), old(left), old(right))
    {
      var size := t.sizes[group];
      right := right + 1;
      if right == size {
        right := 0;
        left := left + 1;
        if left == size {
          left := 0;
          entryOffset := entryOffset + size;
          group := group + 1;
        }
      }
    }
  }

  /** The iterator stands inside a group, or behind the last one. */
  predicate InGroup(t: GroupTable, group: nat, offset: nat, left: nat, right: nat) {
    && Lines(t, group, offset) && (forall n | n in t.sizes :: n > 0)
    && if group < |t.sizes| then left < t.sizes[group] && right < t.sizes[group] else left == right == 0
  }

  ghost function RowsToCome(t: GroupTable, group: nat, offset: nat, left: nat, right: nat): seq<Row>
    requires InGroup(t, group, offset, left, right)
  {
    if group == |t.sizes| then []
    else
      LinesUp(t, group, offset);
      var g := GroupAt(t, group, offset);
      PairsOf(g, left)[right..] + (PairsFrom(g, left + 1) + Expand(GroupsFrom(t, group + 1, offset + t.sizes[group])))
  }

  lemma RowsToComeFromTheFront(t: GroupTable, group: nat, offset: nat)
    requires InGroup(t, group, offset, 0, 0)
    ensures RowsToCome(t, group, offset, 0, 0) == Expand(GroupsFrom(t, group, offset))
  {
    if group < |t.sizes| {
      LinesUp(t, group, offset);
      var g, rest := GroupAt(t, group, offset), GroupsFrom(t, group + 1, offset + t.sizes[group]);
      assert GroupsFrom(t, group, offset)[1..] == rest;
      assert PairsOf(g, 0)[0..] + (PairsFrom(g, 1) + Expand(rest)) == PairsFrom(g, 0) + Expand(rest);
    }
  }

  /** The next position of the iterator. */
  function Advanced(t: GroupTable, group: nat, offset: nat, left: nat, right: nat): (nat, nat, nat, nat)
    requires group < |t.sizes|
  {
    var size := t.sizes[group];
    if right + 1 < size then (group, offset, left, right + 1)
    else if left + 1 < size then (group, offset, left + 1, 0)
    else (group + 1, offset + size, 0, 0)
  }

  /** Inside a line of pairs, at its end, and at the end of a group. */
  lemma PairLine(g: PairGroup, left: nat, right: nat, rest: seq<Row>)
    requires Paired(g) && left < |g.targets| && right < |g.targets|
    ensures PairsOf(g, left)[right..] + rest == [PairRow(g, left, right)] + (PairsOf(g, left)[right + 1..] + rest)
  {
    hide PairRow;
    var pairs := PairsOf(g, left);
    assert pairs[right..] == [pairs[right]] + pairs[right + 1..];
  }

  lemma NextLine(g: PairGroup, left: nat, rest: seq<Row>)
    requires Paired(g) && left < |g.targets|
    ensures PairsOf(g, left)[0..] + (PairsFrom(g, left + 1) + rest) == PairsFrom(g, left) + rest
  {
    hide PairsOf;
  }

  /** The row under the iterator comes first, and the rows behind it are those of the next position. */
  lemma RowsToComeStep(t: GroupTable, group: nat, offset: nat, left: nat, right: nat)
    requires InGroup(t, group, offset, left, right) && group < |t.sizes|
    ensures offset + t.sizes[group] <= |t.targets|
    ensures
      var (g, o, l, r) := Advanced(t, group, offset, left, right);
      InGroup(t, g, o, l, r) &&
      RowsToCome(t, group, offset, left, right) ==
      [PairRow(GroupAt(t, group, offset), left, right)] + RowsToCome(t, g, o, l, r)
  {
    hide GroupAt, PairsOf, PairRow, Lines, PairsFrom;
    LinesUp(t, group, offset);
    var size, g := t.sizes[group], GroupAt(t, group, offset);
    var rest := Expand(GroupsFrom(t, group + 1, offset + size));
    PairLine(g, left, right, PairsFrom(g, left + 1) + rest);
    if right + 1 == size {
      assert PairsOf(g, left)[right + 1..] == [];
      if left + 1 == size {
        assert group + 1 < |t.sizes| ==> t.sizes[group + 1] in t.sizes;
        RowsToComeFromTheFront(t, group + 1, offset + size);
        NoMorePairs(g);
      } else {
        NextLine(g, left + 1, rest);
      }
    }
  }

  lemma SameLengths(t: GroupTable, group: nat, offset: nat, left: nat, right: nat)
    requires InGroup(t, group, offset, left, right)
    ensures |t.sources| == |t.sizes| && |t.targets| == |t.events| && group <= |t.sizes|
  {
  }

  lemma NothingToCome(t: GroupTable, group: nat, offset: nat, left: nat, right: nat)
    requires InGroup(t, group, offset, left, right) && group >= |t.sources|
    ensures RowsToCome(t, group, offset, left, right) == []
  {
  }

  lemma PairRowAt(t: GroupTable, group: nat, offset: nat, left: nat, right: nat)
    requires InGroup(t, group, offset, left, right) && group < |t.sizes|
    ensures left < t.sizes[group] && right < t.sizes[group]
    ensures offset + left < |t.targets| && offset + right < |t.targets|
    ensures
      PairRow(GroupAt(t, group, offset), left, right) ==
      Row([t.sources[group], t.targets[offset + left], t.targets[offset + right],
           t.events[offset + left], t.events[offset + right]], None, None, None)
  {
    LiteralPairRow(t, group, offset, left, right);
  }

  lemma NoMorePairs(g: PairGroup)
    requires Paired(g)
    ensures PairsFrom(g, |g.targets|) == []
  {
  }

  // ---------- the group iterator ----------

  class PairGroupIter {
    const storage: GroupTable
    var group: nat
    var offset: nat

    ghost predicate Valid()
      reads this
    {
      Lines(storage, group, offset)
    }

    ghost function Remaining(): seq<PairGroup>
      requires Valid()
      reads this
    {
      GroupsFrom(storage, group, offset)
    }

    constructor (t: GroupTable)
      requires |t.sources| == |t.sizes| && |t.targets| == |t.events| == Sum(t.sizes)
      ensures Valid() && storage == t && group == 0 && offset == 0
      ensures Remaining() == GroupsFrom(t, 0, 0)
    {
      storage, group, offset := t, 0, 0;
      new;
      AllLines(t);
    }

    method SizeHint() returns (lower: nat, upper: nat)
      requires Valid()
      ensures lower == upper == |Remaining()|
    {
      var remaining := if |storage.sources| >= group then |storage.sources| - group else 0;
      return remaining, remaining;
    }

    method Next() returns (r: Option<PairGroup>)
      requires Valid()
      modifies this
      ensures Valid()
      ensures r.None? ==> old(Remaining()) == [] && Remaining() == []
      ensures r.Some? ==> old(Remaining()) == [r.value] + Remaining()
    {
      if group >= |storage.sources| {
        return None;
      }
      LinesUp(storage, group, offset);
      var size := storage.sizes[group];
      var end := offset + size;
      r := Some(PairGroup(storage.sources[group], storage.targets[offset..end], storage.events[offset..end]));
      group := group + 1;
      offset := end;
    }
  }

  // ---------- whole runs of the iterators ----------

  /** Draining the row iterator yields exactly the rows of the capsule, in order. */
  method CollectRows(c: Capsule) returns (rows: seq<Row>)
    requires WellFormed(c)
    ensures rows == AllRows(c) && |rows| == c.rowCount
  {
    hide *;
    RowCount(c);
    var iter := new BindingRows(c);
    rows := [];
    var r := iter.Next();
    while r.Some?
      invariant iter.Valid() && fresh(iter)
      invariant rows + (if r.Some? then [r.value] else []) + iter.Remaining() == AllRows(c)
      invariant r.None? ==> iter.Remaining() == []
      decreases |iter.Remaining()|, r.Some?
    {
      rows := rows + [r.value];
      ghost var before := iter.Remaining();
      r := iter.Next();
      assert before == (if r.Some? then [r.value] else []) + iter.Remaining();
    }
  }

  /** Expanding the groups one by one gives the same rows as the row iterator. */
  method ExpandGroups(t: GroupTable, rowCount: nat) returns (rows: seq<Row>)
    requires WellFormedGroups(t, rowCount) && rowCount <= USIZE_MAX
    ensures rows == AllRows(Capsule(PairGroups, rowCount, Groups(t)))
  {
    hide Encodable, PairsFrom, Sum, SumOfSquares, Paired;
    var iter := new PairGroupIter(t);
    rows := [];
    AllLines(t);
    while true
      invariant iter.Valid() && fresh(iter)
      invariant rows + Expand(iter.Remaining()) == Expand(GroupsFrom(t, 0, 0))
      decreases |iter.Remaining()|
    {
      ghost var before := iter.Remaining();
      var r := iter.Next();
      match r
      case None =>
        break;
      case Some(g) =>
        assert before[1..] == iter.Remaining() && before[0] == g && g in before;
        rows := rows + PairsFrom(g, 0);
    }
  }
}
