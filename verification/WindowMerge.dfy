/** Directly-follows counts aligned over many windows: one query, chunks of windows, or summaries of event rows. */
module WindowMerge {
  import opened Basics
  import opened EventLog
  import opened EventCounts

  const MAX_WINDOWS := 256

  datatype Key = Key(objectType: string, source: string, target: string)

  /** Empty `sources` or `targets` admit every activity. */
  datatype Request = Request(objectTypes: seq<string>, sources: seq<string>, targets: seq<string>, minimum: int, windows: nat)

  /** Minimum frequency and windows as the request check leaves them. */
  predicate Checked(q: Request) {
    q.minimum >= 1 && q.windows >= 1
  }

  datatype ChunkRow = ChunkRow(firstWindow: int, key: Key, frequencies: seq<int>)

  datatype Fault = InvalidChunk | NegativeCount | DuplicateEdge

  datatype Merge = Merged(counts: map<Key, seq<int>>) | Refused(fault: Fault)

  // ---------- what is to be counted ----------

  /** The windows of every object type. */
  type Logs = map<string, seq<seq<Case>>>

  predicate SidesAdmitted(q: Request, source: string, target: string) {
    (q.sources == [] || source in q.sources) && (q.targets == [] || target in q.targets)
  }

  predicate Admitted(q: Request, key: Key) {
    key.objectType in q.objectTypes && SidesAdmitted(q, key.source, key.target)
  }

  /** How often the key's target directly follows its source in window `w`, counted from zero. */
  function Count(logs: Logs, key: Key, w: nat): nat {
    if key.objectType in logs && w < |logs[key.objectType]|
    then EdgeCount(logs[key.objectType][w], key.source, key.target) else 0
  }

  function Counts(logs: Logs, key: Key, from: nat, to: nat): (counts: seq<int>)
    requires from <= to
    ensures |counts| == to - from
    ensures forall i | 0 <= i < to - from :: counts[i] == Count(logs, key, from + i)
  {
    seq(to - from, i requires 0 <= i < to - from => Count(logs, key, from + i))
  }

  /** The result asked for: all admitted edges that are frequent enough, counted in every window. */
  ghost predicate Aligned(counts: map<Key, seq<int>>, q: Request, logs: Logs) {
    forall key ::
      && (key in counts <==> Admitted(q, key) && SeqSum(Counts(logs, key, 0, q.windows)) >= q.minimum)
      && (key in counts ==> counts[key] == Counts(logs, key, 0, q.windows))
  }

  /** Said without `Aligned`: what is in the result, and with which counts. */
  lemma AlignedMeans(counts: map<Key, seq<int>>, q: Request, logs: Logs)
    requires Aligned(counts, q, logs)
    ensures
      forall key ::
        && (key in counts <==>
              && key.objectType in q.objectTypes
              && (q.sources == [] || key.source in q.sources) && (q.targets == [] || key.target in q.targets)
              && SeqSum(seq(q.windows, w requires 0 <= w < q.windows => Count(logs, key, w))) >= q.minimum)
        && (key in counts ==> counts[key] == seq(q.windows, w requires 0 <= w < q.windows => Count(logs, key, w)))
  {
    hide SeqSum, Count;
    forall key ensures Counts(logs, key, 0, q.windows) == seq(q.windows, w requires 0 <= w < q.windows => Count(logs, key, w)) {
    }
  }

  /** A key counts the steps from its source to its target in the window of its object type. */
  lemma CountIs(logs: Logs, key: Key, w: nat)
    requires key.objectType in logs && w < |logs[key.objectType]|
    ensures Count(logs, key, w) == EdgeCount(logs[key.objectType][w], key.source, key.target)
  {
  }

  lemma AlignedIsUnique(m: map<Key, seq<int>>, m': map<Key, seq<int>>, q: Request, logs: Logs)
    requires Aligned(m, q, logs) && Aligned(m', q, logs)
    ensures m == m'
  {
    assert m.Keys == m'.Keys;
  }

  // ---------- what the database answers ----------

  /** Windows from `first` on, counted from one: at most 256 of them. */
  function ChunkSize(first: int, windows: nat): int {
    if windows - first + 1 < MAX_WINDOWS then windows - first + 1 else MAX_WINDOWS
  }

  predicate StartsChunk(first: int, windows: nat) {
    1 <= first <= windows && (first - 1) % MAX_WINDOWS == 0
  }

  /** The threshold that the database applies to a chunk: with several chunks, only presence. */
  function ChunkMinimum(q: Request): int {
    if q.windows <= MAX_WINDOWS then q.minimum else 1
  }

  function ChunkCounts(q: Request, logs: Logs, first: int, key: Key): seq<int>
    requires StartsChunk(first, q.windows)
  {
    Counts(logs, key, first - 1, first - 1 + ChunkSize(first, q.windows))
  }

  /** Row `i` counts its edge over its chunk. */
  ghost predicate Truthful(row: ChunkRow, q: Request, logs: Logs) {
    && StartsChunk(row.firstWindow, q.windows) && Admitted(q, row.key)
    && row.frequencies == ChunkCounts(q, logs, row.firstWindow, row.key)
    && SeqSum(row.frequencies) >= ChunkMinimum(q)
  }

  ghost predicate Reported(rows: seq<ChunkRow>, first: int, key: Key) {
    exists i :: 0 <= i < |rows| && rows[i].firstWindow == first && rows[i].key == key
  }

  /** One row for each chunk and each admitted edge that is frequent enough in it, in any order. */
  ghost predicate Answers(rows: seq<ChunkRow>, q: Request, logs: Logs) {
    && (forall i | 0 <= i < |rows| :: Truthful(rows[i], q, logs))
    && (forall i, j | 0 <= i < j < |rows| :: !SameChunkKey(rows[i], rows[j]))
    && forall first, key ::
         StartsChunk(first, q.windows) && Admitted(q, key) && SeqSum(ChunkCounts(q, logs, first, key)) >= ChunkMinimum(q)
         ==> Reported(rows, first, key)
  }

  predicate SameChunkKey(a: ChunkRow, b: ChunkRow) {
    a.firstWindow == b.firstWindow && a.key == b.key
  }

  // ---------- merging ----------

  predicate ValidChunk(row: ChunkRow, windows: nat) {
    row.firstWindow >= 1 && ChunkSize(row.firstWindow, windows) >= 1 && |row.frequencies| == ChunkSize(row.firstWindow, windows)
  }

  predicate Negative(row: ChunkRow) {
    exists i :: 0 <= i < |row.frequencies| && row.frequencies[i] < 0
  }

  /** What is wrong with row `i`, given the rows before it. */
  function RowFault(rows: seq<ChunkRow>, windows: nat, i: nat): Option<Fault>
    requires i < |rows|
  {
    if !ValidChunk(rows[i], windows) then Some(InvalidChunk)
    else if Negative(rows[i]) then Some(NegativeCount)
    else if exists j :: 0 <= j < i && SameChunkKey(rows[j], rows[i]) then Some(DuplicateEdge)
    else None
  }

  function Zeros(n: nat): (z: seq<int>)
    ensures |z| == n && forall i | 0 <= i < n :: z[i] == 0
  {
    seq(n, i => 0)
  }

  function Overlay(counts: seq<int>, row: ChunkRow): (r: seq<int>)
    requires ValidChunk(row, |counts|)
    ensures |r| == |counts|
    ensures forall w | 0 <= w < |r| ::
      r[w] == if row.firstWindow - 1 <= w < row.firstWindow - 1 + |row.frequencies|
              then row.frequencies[w - (row.firstWindow - 1)] else counts[w]
  {
    var offset := row.firstWindow - 1;
    counts[..offset] + row.frequencies + counts[offset + |row.frequencies|..]
  }

  /** The counts of an edge after its rows are laid over zeros, in order. */
  function Overlaid(rows: seq<ChunkRow>, windows: nat, key: Key): (r: seq<int>)
    requires forall i | 0 <= i < |rows| :: ValidChunk(rows[i], windows)
    ensures |r| == windows
  {
    if rows == [] then Zeros(windows)
    else
      var row := rows[|rows| - 1];
      var before := Overlaid(rows[..|rows| - 1], windows, key);
      if row.key == key then Overlay(before, row) else before
  }

  ghost predicate Mentioned(rows: seq<ChunkRow>, key: Key) {
    exists i :: 0 <= i < |rows| && rows[i].key == key
  }

  ghost predicate MergeOf(counts: map<Key, seq<int>>, rows: seq<ChunkRow>, windows: nat)
    requires forall i | 0 <= i < |rows| :: ValidChunk(rows[i], windows)
  {
    forall key ::
      && (key in counts <==> Mentioned(rows, key))
      && (key in counts ==> counts[key] == Overlaid(rows, windows, key))
  }

  function Frequent(counts: map<Key, seq<int>>, minimum: int): map<Key, seq<int>> {
    map key | key in counts && SeqSum(counts[key]) >= minimum :: counts[key]
  }

  /** The first fault of a row: its chunk, a negative count, or a row before it for the same chunk and edge. */
  lemma FaultIs(rows: seq<ChunkRow>, windows: nat, i: nat)
    requires i < |rows|
    ensures
      var row := rows[i];
      var size := if windows - row.firstWindow < 256 then windows - row.firstWindow + 1 else 256;
      RowFault(rows, windows, i) ==
      if row.firstWindow < 1 || size < 1 || |row.frequencies| != size then Some(InvalidChunk)
      else if exists w :: 0 <= w < |row.frequencies| && row.frequencies[w] < 0 then Some(NegativeCount)
      else if exists j :: 0 <= j < i && rows[j].firstWindow == row.firstWindow && rows[j].key == row.key then Some(DuplicateEdge)
      else None
  {
    assert forall j | 0 <= j < i ::
      SameChunkKey(rows[j], rows[i]) <==> rows[j].firstWindow == rows[i].firstWindow && rows[j].key == rows[i].key;
  }

  /** Rows are faultless when their chunks end with 256 windows or the last one, their counts are, and no two are for the same. */
  lemma FaultlessIff(rows: seq<ChunkRow>, windows: nat)
    ensures (forall i | 0 <= i < |rows| :: RowFault(rows, windows, i) == None) <==>
      && (forall i | 0 <= i < |rows| ::
            && 1 <= rows[i].firstWindow <= windows
            && |rows[i].frequencies| == (if windows - rows[i].firstWindow < 256 then windows - rows[i].firstWindow + 1 else 256)
            && forall w | 0 <= w < |rows[i].frequencies| :: rows[i].frequencies[w] >= 0)
      && forall i, j | 0 <= j < i < |rows| :: rows[i].firstWindow != rows[j].firstWindow || rows[i].key != rows[j].key
  {
    forall i | 0 <= i < |rows|
      ensures RowFault(rows, windows, i) == None <==>
              && 1 <= rows[i].firstWindow <= windows
              && |rows[i].frequencies| == (if windows - rows[i].firstWindow < 256 then windows - rows[i].firstWindow + 1 else 256)
              && (forall w | 0 <= w < |rows[i].frequencies| :: rows[i].frequencies[w] >= 0)
              && forall j | 0 <= j < i :: rows[i].firstWindow != rows[j].firstWindow || rows[i].key != rows[j].key
    {
      assert forall j | 0 <= j < i ::
        SameChunkKey(rows[j], rows[i]) <==> !(rows[i].firstWindow != rows[j].firstWindow || rows[i].key != rows[j].key);
    }
  }

  /** Merges the rows of the query; the first faulty row stops it. */
  method MergeRows(q: Request, rows: seq<ChunkRow>) returns (r: Merge)
    ensures r.Merged? <==> forall i | 0 <= i < |rows| :: RowFault(rows, q.windows, i) == None
    ensures r.Refused? ==>
      exists i :: 0 <= i < |rows| && RowFault(rows, q.windows, i) == Some(r.fault)
                  && forall j | 0 <= j < i :: RowFault(rows, q.windows, j) == None
    ensures r.Merged? ==>
      (forall i | 0 <= i < |rows| :: ValidChunk(rows[i], q.windows))
      && exists counts :: MergeOf(counts, rows, q.windows) && r.counts == Frequent(counts, q.minimum)
  {
    hide Overlaid, Negative, MergeOf, Overlay;
    var n := q.windows;
    MergeOfNothing(n);
    var counts: map<Key, seq<int>> := map[];
    var seen: set<(int, Key)> := {};
    for i := 0 to |rows|
      invariant forall j | 0 <= j < i :: RowFault(rows, n, j) == None
      invariant forall j | 0 <= j < i :: ValidChunk(rows[..i][j], n)
      invariant forall first, key :: (first, key) in seen <==> exists j :: 0 <= j < i && rows[j].firstWindow == first && rows[j].key == key
      invariant MergeOf(counts, rows[..i], n)
    {
      var row := rows[i];
      var fault :=
        if !ValidChunk(row, n) then Some(InvalidChunk)
        else if Negative(row) then Some(NegativeCount)
        else if (row.firstWindow, row.key) in seen then Some(DuplicateEdge)
        else None;
      assert fault == RowFault(rows, n, i);
      if fault.Some? {
        return Refused(fault.value);
      }
      seen := seen + {(row.firstWindow, row.key)};
      var before := if row.key in counts then counts[row.key] else Zeros(n);
      MergeGrows(counts, rows[..i], row, n);
      assert rows[..i] + [row] == rows[..i + 1];
      counts := counts[row.key := Overlay(before, row)];
    }
    assert rows[..|rows|] == rows;
    r := Merged(Frequent(counts, q.minimum));
  }

  lemma {:induction false} OverlaidUnseen(rows: seq<ChunkRow>, windows: nat, key: Key)
    requires forall i | 0 <= i < |rows| :: ValidChunk(rows[i], windows)
    requires forall i | 0 <= i < |rows| :: rows[i].key != key
    ensures Overlaid(rows, windows, key) == Zeros(windows)
  {
    if rows != [] {
      OverlaidUnseen(rows[..|rows| - 1], windows, key);
    }
  }

  lemma MergeOfNothing(windows: nat)
    ensures MergeOf(map[], [], windows)
  {
  }

  lemma MergeGrows(counts: map<Key, seq<int>>, rows: seq<ChunkRow>, row: ChunkRow, windows: nat)
    requires forall i | 0 <= i < |rows| :: ValidChunk(rows[i], windows)
    requires ValidChunk(row, windows) && MergeOf(counts, rows, windows)
    ensures
      var before := if row.key in counts then counts[row.key] else Zeros(windows);
      |before| == windows && MergeOf(counts[row.key := Overlay(before, row)], rows + [row], windows)
  {
    hide Overlay, ValidChunk;
    var before := if row.key in counts then counts[row.key] else Zeros(windows);
    assert before == Overlaid(rows, windows, row.key) by {
      if row.key !in counts {
        OverlaidUnseen(rows, windows, row.key);
      }
    }
    MentionedGrows(rows, row);
    var all := rows + [row];
    assert all[..|all| - 1] == rows && all[|all| - 1] == row;
    assert forall key ::
      Overlaid(all, windows, key) == if key == row.key then Overlay(Overlaid(rows, windows, key), row) else Overlaid(rows, windows, key);
  }

  lemma MentionedGrows(rows: seq<ChunkRow>, row: ChunkRow)
    ensures forall key :: Mentioned(rows + [row], key) <==> key == row.key || Mentioned(rows, key)
  {
    var all := rows + [row];
    assert all[|rows|] == row && forall i | 0 <= i < |rows| :: all[i] == rows[i];
  }

  // ---------- merged chunks are the counts ----------

  function StartOf(w: nat): int {
    w - w % MAX_WINDOWS + 1
  }

  /** A window lies in exactly one chunk. */
  lemma ChunkOfWindow(first: int, windows: nat, w: nat)
    requires StartsChunk(first, windows) && w < windows
    ensures StartsChunk(StartOf(w), windows)
    ensures first - 1 <= w < first - 1 + ChunkSize(first, windows) <==> first == StartOf(w)
  {
    var k := (first - 1) / MAX_WINDOWS;
    var m := w / MAX_WINDOWS;
    assert first - 1 == MAX_WINDOWS * k && w == MAX_WINDOWS * m + w % MAX_WINDOWS;
    assert StartOf(w) - 1 == MAX_WINDOWS * m;
  }

  lemma TruthfulHasNoFault(row: ChunkRow, q: Request, logs: Logs)
    requires Truthful(row, q, logs)
    ensures ValidChunk(row, q.windows) && !Negative(row)
  {
  }

  lemma {:induction false} OverlaidCell(rows: seq<ChunkRow>, q: Request, logs: Logs, key: Key, w: nat)
    requires forall i | 0 <= i < |rows| :: Truthful(rows[i], q, logs)
    requires w < q.windows
    ensures forall i | 0 <= i < |rows| :: ValidChunk(rows[i], q.windows)
    ensures Overlaid(rows, q.windows, key)[w] == if Reported(rows, StartOf(w), key) then Count(logs, key, w) else 0
  {
    hide Truthful, Overlay, StartOf, Count, StartsChunk;
    forall i | 0 <= i < |rows| ensures ValidChunk(rows[i], q.windows) {
      TruthfulHasNoFault(rows[i], q, logs);
    }
    if rows != [] {
      var init, row := rows[..|rows| - 1], rows[|rows| - 1];
      OverlaidCell(init, q, logs, key, w);
      assert rows == init + [row];
      ReportedGrows(init, row, StartOf(w), key);
      if row.key == key {
        OverlaidRow(Overlaid(init, q.windows, key), row, q, logs, w);
      }
    }
  }

  lemma OverlaidRow(before: seq<int>, row: ChunkRow, q: Request, logs: Logs, w: nat)
    requires Truthful(row, q, logs) && |before| == q.windows && w < q.windows
    ensures ValidChunk(row, q.windows)
    ensures Overlay(before, row)[w] == if row.firstWindow == StartOf(w) then Count(logs, row.key, w) else before[w]
  {
    hide Overlay, StartOf, Count, SeqSum;
    TruthfulHasNoFault(row, q, logs);
    ChunkOfWindow(row.firstWindow, q.windows, w);
  }

  lemma ReportedGrows(rows: seq<ChunkRow>, row: ChunkRow, first: int, key: Key)
    ensures Reported(rows + [row], first, key) <==> Reported(rows, first, key) || (row.firstWindow == first && row.key == key)
  {
    var all := rows + [row];
    assert all[|rows|] == row && forall i | 0 <= i < |rows| :: all[i] == rows[i];
    if i :| 0 <= i < |rows| && rows[i].firstWindow == first && rows[i].key == key {
      assert all[i].firstWindow == first && all[i].key == key;
    }
  }

  /** A chunk without a row for an admitted edge has no occurrence of it, unless a threshold suppressed the row. */
  lemma UnreportedIsZero(rows: seq<ChunkRow>, q: Request, logs: Logs, key: Key, w: nat)
    requires Answers(rows, q, logs) && ChunkMinimum(q) == 1 && Admitted(q, key)
    requires w < q.windows && !Reported(rows, StartOf(w), key)
    ensures Count(logs, key, w) == 0
  {
    ChunkOfWindow(1, q.windows, w);
    var first := StartOf(w);
    ChunkOfWindow(first, q.windows, w);
    var counts := ChunkCounts(q, logs, first, key);
    SeqSumOfNothing(counts);
    assert counts[w - (first - 1)] == Count(logs, key, w);
  }

  /** A query over at most 256 windows is one chunk, which covers them all. */
  lemma OneChunk(q: Request, logs: Logs, key: Key)
    requires Checked(q) && q.windows <= MAX_WINDOWS
    ensures StartsChunk(1, q.windows) && ChunkCounts(q, logs, 1, key) == Counts(logs, key, 0, q.windows)
    ensures forall w | 0 <= w < q.windows :: StartOf(w) == 1
    ensures forall first | StartsChunk(first, q.windows) :: first == 1
  {
    forall first | StartsChunk(first, q.windows) ensures first == 1 {
      ChunkOfWindow(first, q.windows, first - 1);
    }
  }

  lemma OverlaidIsCounts(rows: seq<ChunkRow>, q: Request, logs: Logs, key: Key)
    requires Checked(q) && Answers(rows, q, logs)
    requires forall i | 0 <= i < |rows| :: ValidChunk(rows[i], q.windows)
    requires Admitted(q, key) && (ChunkMinimum(q) == 1 || Reported(rows, 1, key))
    ensures Overlaid(rows, q.windows, key) == Counts(logs, key, 0, q.windows)
  {
    hide Answers, Overlaid, Reported;
    TruthfulRows(rows, q, logs);
    forall w | 0 <= w < q.windows ensures Overlaid(rows, q.windows, key)[w] == Count(logs, key, w) {
      OverlaidCell(rows, q, logs, key, w);
      if !Reported(rows, StartOf(w), key) {
        if ChunkMinimum(q) != 1 {
          OneChunk(q, logs, key);
          assert false;
        } else {
          UnreportedIsZero(rows, q, logs, key, w);
        }
      }
    }
  }

  lemma TruthfulRows(rows: seq<ChunkRow>, q: Request, logs: Logs)
    requires Answers(rows, q, logs)
    ensures forall i | 0 <= i < |rows| :: Truthful(rows[i], q, logs) && RowFault(rows, q.windows, i) == None
  {
    forall i | 0 <= i < |rows| ensures Truthful(rows[i], q, logs) && RowFault(rows, q.windows, i) == None {
      TruthfulHasNoFault(rows[i], q, logs);
    }
  }

  /** A frequent edge has a row to start its counts with. */
  lemma FrequentIsReported(rows: seq<ChunkRow>, q: Request, logs: Logs, key: Key)
    requires Checked(q) && Answers(rows, q, logs) && Admitted(q, key)
    requires SeqSum(Counts(logs, key, 0, q.windows)) >= q.minimum
    ensures q.windows <= MAX_WINDOWS ==> Reported(rows, 1, key)
    ensures Mentioned(rows, key)
  {
    if q.windows <= MAX_WINDOWS {
      OneChunk(q, logs, key);
      assert Reported(rows, 1, key);
    } else {
      SeqSumOfNothing(Counts(logs, key, 0, q.windows));
      var w :| 0 <= w < q.windows && Count(logs, key, w) != 0;
      if !Reported(rows, StartOf(w), key) {
        UnreportedIsZero(rows, q, logs, key, w);
      }
    }
  }

  /**
   * What the database answers, whole or in chunks, in any order, merges without a fault into the aligned counts
   * of the whole request.
   */
  lemma MergedAnswerIsAligned(rows: seq<ChunkRow>, q: Request, logs: Logs, counts: map<Key, seq<int>>)
    requires Checked(q) && Answers(rows, q, logs)
    ensures forall i | 0 <= i < |rows| :: ValidChunk(rows[i], q.windows) && RowFault(rows, q.windows, i) == None
    ensures MergeOf(counts, rows, q.windows) ==> Aligned(Frequent(counts, q.minimum), q, logs)
  {
    hide Answers, Overlaid;
    TruthfulRows(rows, q, logs);
    forall i | 0 <= i < |rows| ensures ValidChunk(rows[i], q.windows) {
      TruthfulHasNoFault(rows[i], q, logs);
    }
    if MergeOf(counts, rows, q.windows) {
      var frequent := Frequent(counts, q.minimum);
      forall key
        ensures key in frequent <==> Admitted(q, key) && SeqSum(Counts(logs, key, 0, q.windows)) >= q.minimum
        ensures key in frequent ==> frequent[key] == Counts(logs, key, 0, q.windows)
      {
        if key in counts {
          var i :| 0 <= i < |rows| && rows[i].key == key;
          assert Truthful(rows[i], q, logs);
          OnlyChunkIsReported(rows, q, logs, i);
          OverlaidIsCounts(rows, q, logs, key);
        } else if Admitted(q, key) && SeqSum(Counts(logs, key, 0, q.windows)) >= q.minimum {
          FrequentIsReported(rows, q, logs, key);
        }
      }
    }
  }

  lemma OnlyChunkIsReported(rows: seq<ChunkRow>, q: Request, logs: Logs, i: nat)
    requires Checked(q) && i < |rows| && Truthful(rows[i], q, logs)
    ensures ChunkMinimum(q) == 1 || Reported(rows, 1, rows[i].key)
  {
    if q.windows <= MAX_WINDOWS {
      OneChunk(q, logs, rows[i].key);
    }
  }

  /** The merge of the database's answer, whole or in chunks, is what is asked for. */
  method ExecuteLifecycleDfg(q: Request, rows: seq<ChunkRow>) returns (r: Merge)
    requires Checked(q)
    ensures forall logs | Answers(rows, q, logs) :: r.Merged? && Aligned(r.counts, q, logs)
    ensures forall logs | Answers(rows, q, logs) ::
      forall key ::
        && (key in r.counts <==>
              && key.objectType in q.objectTypes
              && (q.sources == [] || key.source in q.sources) && (q.targets == [] || key.target in q.targets)
              && SeqSum(seq(q.windows, w requires 0 <= w < q.windows => Count(logs, key, w))) >= q.minimum)
        && (key in r.counts ==> r.counts[key] == seq(q.windows, w requires 0 <= w < q.windows => Count(logs, key, w)))
  {
    hide Answers, Aligned, MergeOf;
    r := MergeRows(q, rows);
    forall logs | Answers(rows, q, logs) ensures r.Merged? && Aligned(r.counts, q, logs) {
      MergedAnswerIsAligned(rows, q, logs, map[]);
      var counts :| MergeOf(counts, rows, q.windows) && r.counts == Frequent(counts, q.minimum);
      MergedAnswerIsAligned(rows, q, logs, counts);
    }
    forall logs | Answers(rows, q, logs)
      ensures
        forall key ::
        && (key in r.counts <==>
              && key.objectType in q.objectTypes
              && (q.sources == [] || key.source in q.sources) && (q.targets == [] || key.target in q.targets)
              && SeqSum(seq(q.windows, w requires 0 <= w < q.windows => Count(logs, key, w))) >= q.minimum)
        && (key in r.counts ==> r.counts[key] == seq(q.windows, w requires 0 <= w < q.windows => Count(logs, key, w)))
    {
      AlignedMeans(r.counts, q, logs);
    }
  }
}
