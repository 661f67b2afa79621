/** The aligned counts taken from event summaries, when the database cannot count over windows itself. */
module WindowFallback {
  import opened Basics
  import opened EventLog
  import opened EventCounts
  import opened EventSummary
  import opened WindowMerge

  datatype FallbackResult = Counted(counts: map<Key, seq<int>>) | Broken(error: LogError)

  function Cell(counts: map<Key, seq<int>>, key: Key, w: nat): int {
    if key in counts && w < |counts[key]| then counts[key][w] else 0
  }

  ghost predicate Sized(counts: map<Key, seq<int>>, windows: nat) {
    forall key | key in counts :: |counts[key]| == windows
  }

  // ---------- one summary ----------

  predicate Listed(q: Request, objectType: string, edges: set<(string, string)>, key: Key) {
    key.objectType == objectType && SidesAdmitted(q, key.source, key.target) && (key.source, key.target) in edges
  }

  function FrequencyOf(dfg: map<(string, string), EdgeTotals>, key: Key): nat {
    Edge(dfg, key.source, key.target).frequency
  }

  /** Window `w` of the listed edges holds their frequencies; all else is as before. */
  ghost predicate WindowSet(
    counts: map<Key, seq<int>>, counts': map<Key, seq<int>>, q: Request, objectType: string, w: nat,
    dfg: map<(string, string), EdgeTotals>, edges: set<(string, string)>)
  {
    forall key ::
      && (key in counts' <==> key in counts || Listed(q, objectType, edges, key))
      && forall x: nat | x < q.windows ::
           Cell(counts', key, x) == if Listed(q, objectType, edges, key) && x == w then FrequencyOf(dfg, key) else Cell(counts, key, x)
  }

  method SetWindow(q: Request, counts: map<Key, seq<int>>, objectType: string, w: nat, dfg: map<(string, string), EdgeTotals>)
    returns (counts': map<Key, seq<int>>)
    requires w < q.windows && Sized(counts, q.windows)
    ensures Sized(counts', q.windows) && WindowSet(counts, counts', q, objectType, w, dfg, dfg.Keys)
  {
    counts' := counts;
    var pending := dfg.Keys;
    while pending != {}
      invariant pending <= dfg.Keys
      invariant Sized(counts', q.windows) && WindowSet(counts, counts', q, objectType, w, dfg, dfg.Keys - pending)
    {
      var edge :| edge in pending;
      pending := pending - {edge};
      if SidesAdmitted(q, edge.0, edge.1) {
        var key := Key(objectType, edge.0, edge.1);
        var aligned := if key in counts' then counts'[key] else Zeros(q.windows);
        ghost var before := counts';
        counts' := counts'[key := aligned[w := dfg[edge].frequency]];
        assert forall k, x: nat | x < q.windows ::
          Cell(counts', k, x) == if k == key && x == w then FrequencyOf(dfg, key) else Cell(before, k, x);
      }
    }
  }

  // ---------- all summaries ----------

  /** Whether window `w` of the key has been counted when `k` windows of object type `i` are. */
  predicate Done(q: Request, i: nat, k: nat, key: Key, w: nat)
    requires i <= |q.objectTypes|
  {
    && SidesAdmitted(q, key.source, key.target)
    && (key.objectType in q.objectTypes[..i] || (i < |q.objectTypes| && key.objectType == q.objectTypes[i] && w < k))
  }

  ghost predicate Begun(q: Request, i: nat, k: nat, key: Key)
    requires i <= |q.objectTypes|
  {
    exists w: nat :: w < q.windows && Done(q, i, k, key, w)
  }

  ghost predicate Filled(counts: map<Key, seq<int>>, q: Request, logs: Logs, i: nat, k: nat)
    requires i <= |q.objectTypes|
  {
    && Sized(counts, q.windows)
    && (forall key, w: nat | w < q.windows :: Cell(counts, key, w) == if Done(q, i, k, key, w) then Count(logs, key, w) else 0)
    && (forall key | key in counts :: Begun(q, i, k, key))
    && (forall key, w: nat | w < q.windows && Done(q, i, k, key, w) && Count(logs, key, w) > 0 :: key in counts)
  }

  lemma FilledOne(counts: map<Key, seq<int>>, counts': map<Key, seq<int>>, q: Request, logs: Logs, i: nat, k: nat, s: Summary)
    requires i < |q.objectTypes| && k < q.windows && Filled(counts, q, logs, i, k) && Sized(counts', q.windows)
    requires WindowSet(counts, counts', q, q.objectTypes[i], k, s.dfg, s.dfg.Keys)
    requires q.objectTypes[i] in logs && k < |logs[q.objectTypes[i]]| && EdgesOf(s.dfg, logs[q.objectTypes[i]][k])
    ensures Filled(counts', q, logs, i, k + 1)
  {
    hide EdgeCount, EdgeTime, SidesAdmitted, Sized, Cell;
    var objectType := q.objectTypes[i];
    forall key, w: nat | w < q.windows
      ensures Cell(counts', key, w) == if Done(q, i, k + 1, key, w) then Count(logs, key, w) else 0
      ensures Done(q, i, k + 1, key, w) && Count(logs, key, w) > 0 ==> key in counts'
    {
      var listed := Listed(q, objectType, s.dfg.Keys, key);
      var count := EdgeCount(logs[objectType][k], key.source, key.target);
      assert FrequencyOf(s.dfg, key) == count && ((key.source, key.target) in s.dfg.Keys <==> count > 0);
      assert Cell(counts', key, w) == if listed && w == k then FrequencyOf(s.dfg, key) else Cell(counts, key, w);
      if key.objectType == objectType && w == k {
        assert Count(logs, key, w) == count;
      } else {
        assert Done(q, i, k + 1, key, w) == Done(q, i, k, key, w);
      }
    }
    forall key | key in counts' ensures Begun(q, i, k + 1, key) {
      if key in counts {
        var w: nat :| w < q.windows && Done(q, i, k, key, w);
        assert Done(q, i, k + 1, key, w);
      } else {
        assert Done(q, i, k + 1, key, k);
      }
    }
  }

  lemma FilledNext(counts: map<Key, seq<int>>, q: Request, logs: Logs, i: nat)
    requires i < |q.objectTypes| && Filled(counts, q, logs, i, q.windows)
    ensures Filled(counts, q, logs, i + 1, 0)
  {
    hide Cell, Count, SidesAdmitted;
    var types := q.objectTypes;
    assert types[..i + 1] == types[..i] + [types[i]];
    forall key, w: nat | w < q.windows ensures Done(q, i + 1, 0, key, w) == Done(q, i, q.windows, key, w) {
    }
  }

  lemma FilledFrom(q: Request, logs: Logs)
    ensures Filled(map[], q, logs, 0, 0)
  {
  }

  /** Once all windows of all object types are counted, dropping what is too rare leaves the aligned counts. */
  lemma FilledIsAligned(counts: map<Key, seq<int>>, q: Request, logs: Logs)
    requires Checked(q) && Filled(counts, q, logs, |q.objectTypes|, 0)
    ensures Aligned(Frequent(counts, q.minimum), q, logs)
  {
    hide Count, SidesAdmitted;
    assert q.objectTypes[..|q.objectTypes|] == q.objectTypes;
    var frequent := Frequent(counts, q.minimum);
    forall key
      ensures key in frequent <==> Admitted(q, key) && SeqSum(Counts(logs, key, 0, q.windows)) >= q.minimum
      ensures key in frequent ==> frequent[key] == Counts(logs, key, 0, q.windows)
    {
      var all := Counts(logs, key, 0, q.windows);
      assert Admitted(q, key) <==> Done(q, |q.objectTypes|, 0, key, 0);
      if key in counts {
        var w: nat :| w < q.windows && Done(q, |q.objectTypes|, 0, key, w);
        forall x: nat | x < q.windows ensures counts[key][x] == all[x] {
          assert Cell(counts, key, x) == Count(logs, key, x);
        }
        assert counts[key] == all;
      } else if Admitted(q, key) {
        SeqSumOfNothing(all);
        forall x: nat | x < q.windows ensures all[x] == 0 {
          assert Done(q, |q.objectTypes|, 0, key, x);
        }
      }
    }
  }

  // ---------- from the rows to the counts ----------

  /** The logs that the streams of the object types flatten. */
  function LogsOf(q: Request, streams: string -> seq<EventRow>): Logs {
    map t | t in q.objectTypes && ReadLog(streams(t), 1, q.windows).Log? :: ReadLog(streams(t), 1, q.windows).windows
  }

  method SetWindows(q: Request, counts: map<Key, seq<int>>, ghost logs: Logs, i: nat, summaries: seq<Summary>)
    returns (counts': map<Key, seq<int>>)
    requires i < |q.objectTypes| && Filled(counts, q, logs, i, 0) && q.objectTypes[i] in logs
    requires |summaries| == q.windows == |logs[q.objectTypes[i]]|
    requires forall k | 0 <= k < q.windows :: EdgesOf(summaries[k].dfg, logs[q.objectTypes[i]][k])
    ensures Filled(counts', q, logs, i + 1, 0)
  {
    hide EdgesOf, WindowSet, Done, Count, SidesAdmitted;
    counts' := counts;
    for k := 0 to |summaries|
      invariant Filled(counts', q, logs, i, k)
    {
      ghost var before := counts';
      counts' := SetWindow(q, counts', q.objectTypes[i], k, summaries[k].dfg);
      FilledOne(before, counts', q, logs, i, k, summaries[k]);
    }
    FilledNext(counts', q, logs, i);
  }

  /**
   * The fallback: one summary run for each object type, the first broken stream ending it. Unbroken, it returns the
   * counts that the merge of the database's own answer returns.
   */
  method ExecuteFallback(q: Request, streams: string -> seq<EventRow>) returns (r: FallbackResult)
    requires Checked(q)
    ensures r.Counted? <==> forall t | t in q.objectTypes :: ReadLog(streams(t), 1, q.windows).Log?
    ensures r.Counted? ==> Aligned(r.counts, q, LogsOf(q, streams))
    ensures r.Counted? ==>
      forall key ::
        && (key in r.counts <==>
              && key.objectType in q.objectTypes
              && (q.sources == [] || key.source in q.sources) && (q.targets == [] || key.target in q.targets)
              && SeqSum(seq(q.windows, w requires 0 <= w < q.windows => Count(LogsOf(q, streams), key, w))) >= q.minimum)
        && (key in r.counts ==> r.counts[key] == seq(q.windows, w requires 0 <= w < q.windows => Count(LogsOf(q, streams), key, w)))
    ensures r.Broken? ==>
      exists i :: 0 <= i < |q.objectTypes| && ReadLog(streams(q.objectTypes[i]), 1, q.windows) == Failed(r.error)
                  && forall j | 0 <= j < i :: ReadLog(streams(q.objectTypes[j]), 1, q.windows).Log?
  {
    hide Filled, Aligned, EdgesOf, ReadLog;
    ghost var logs := LogsOf(q, streams);
    var counts: map<Key, seq<int>> := map[];
    FilledFrom(q, logs);
    for i := 0 to |q.objectTypes|
      invariant Filled(counts, q, logs, i, 0)
      invariant forall j | 0 <= j < i :: ReadLog(streams(q.objectTypes[j]), 1, q.windows).Log?
    {
      var summary := SummarizeRows(streams(q.objectTypes[i]), q.windows);
      if summary.Failed? {
        assert q.objectTypes[i] in q.objectTypes;
        return Broken(summary.error);
      }
      ReadLogSound(streams(q.objectTypes[i]), 1, q.windows);
      counts := SetWindows(q, counts, logs, i, summary.windows);
    }
    FilledIsAligned(counts, q, logs);
    AlignedMeans(Frequent(counts, q.minimum), q, logs);
    r := Counted(Frequent(counts, q.minimum));
  }

  /** However the counts are found, they are the same: chunks need not know about each other, nor about the summaries. */
  lemma PathsAgree(q: Request, streams: string -> seq<EventRow>, rows: seq<ChunkRow>, merged: map<Key, seq<int>>,
                   counted: map<Key, seq<int>>)
    requires Checked(q) && Answers(rows, q, LogsOf(q, streams))
    requires Aligned(counted, q, LogsOf(q, streams))
    ensures forall i | 0 <= i < |rows| :: ValidChunk(rows[i], q.windows)
    ensures MergeOf(merged, rows, q.windows) ==> Frequent(merged, q.minimum) == counted
  {
    hide Answers, Aligned, MergeOf;
    MergedAnswerIsAligned(rows, q, LogsOf(q, streams), merged);
    if MergeOf(merged, rows, q.windows) {
      AlignedIsUnique(Frequent(merged, q.minimum), counted, q, LogsOf(q, streams));
    }
  }
}
