/** The frequency-coverage model: the most frequent edges, until they cover the target. */
module Coverage {
  import opened SetSums
  import opened TextOrder

  type Key = (string, string)

  type Counts = map<Key, nat>

  function CountOf(counts: Counts, k: Key): nat {
    if k in counts then counts[k] else 0
  }

  ghost function Weight(counts: Counts): Key -> int {
    k => CountOf(counts, k)
  }

  ghost function Covered(counts: Counts, keys: set<Key>): nat {
    SumIsNat(counts, keys);
    SetSum(keys, Weight(counts))
  }

  lemma SumIsNat(counts: Counts, keys: set<Key>)
    ensures SetSum(keys, Weight(counts)) >= 0
    decreases |keys|
  {
    if keys != {} {
      var x :| x in keys;
      SetSumRemove(keys, Weight(counts), x);
      SumIsNat(counts, keys - {x});
    }
  }

  ghost function Elements(ks: seq<Key>): set<Key> {
    set k | k in ks
  }

  // ---------- ranking ----------

  predicate KeyLess(k: Key, l: Key) {
    TextLess(k.0, l.0) || (k.0 == l.0 && TextLess(k.1, l.1))
  }

  /** More frequent edges first, edges of one frequency by name. */
  predicate RankedBefore(counts: Counts, k: Key, l: Key) {
    CountOf(counts, k) > CountOf(counts, l) || (CountOf(counts, k) == CountOf(counts, l) && KeyLess(k, l))
  }

  /** The key that ranks first has the higher count, or for equal counts the smaller source, or then the smaller target. */
  lemma RankedBeforeIff(counts: Counts, k: Key, l: Key)
    ensures RankedBefore(counts, k, l) <==>
            var m, n := if k in counts then counts[k] else 0, if l in counts then counts[l] else 0;
            if m != n then m > n
            else if k.0 != l.0 then
              exists i :: 0 <= i <= |k.0| && i < |l.0| && k.0[..i] == l.0[..i] && (i == |k.0| || k.0[i] < l.0[i])
            else
              exists i :: 0 <= i <= |k.1| && i < |l.1| && k.1[..i] == l.1[..i] && (i == |k.1| || k.1[i] < l.1[i])
  {
    hide TextLess;
    TextLessIff(k.0, l.0);
    TextLessIff(k.1, l.1);
    TextLessTotal(k.0, l.0);
  }

  /** What a set of edges covers is the sum of their counts. */
  lemma CoveredIs(counts: Counts, keys: set<Key>)
    ensures Covered(counts, keys) == SetSum(keys, k => if k in counts then counts[k] else 0)
  {
    SetSumSame(keys, Weight(counts), k => if k in counts then counts[k] else 0);
  }

  lemma RankTotal(counts: Counts, k: Key, l: Key)
    ensures k == l || RankedBefore(counts, k, l) || RankedBefore(counts, l, k)
    ensures !(RankedBefore(counts, k, l) && RankedBefore(counts, l, k))
  {
    TextLessTotal(k.0, l.0);
    TextLessTotal(k.1, l.1);
  }

  lemma RankTransitive(counts: Counts, k: Key, l: Key, m: Key)
    requires RankedBefore(counts, k, l) && RankedBefore(counts, l, m)
    ensures RankedBefore(counts, k, m)
  {
    if TextLess(k.0, l.0) && TextLess(l.0, m.0) {
      TextLessTransitive(k.0, l.0, m.0);
    }
    if TextLess(k.1, l.1) && TextLess(l.1, m.1) {
      TextLessTransitive(k.1, l.1, m.1);
    }
  }

  ghost predicate Ranking(counts: Counts, keys: set<Key>, ks: seq<Key>) {
    && Elements(ks) == keys
    && forall i, j | 0 <= i < j < |ks| :: RankedBefore(counts, ks[i], ks[j])
  }

  ghost predicate IsFirst(counts: Counts, keys: set<Key>, k: Key) {
    k in keys && forall l | l in keys :: l == k || RankedBefore(counts, k, l)
  }

  lemma {:induction false} FirstExists(counts: Counts, keys: set<Key>) returns (k: Key)
    requires keys != {}
    ensures IsFirst(counts, keys, k)
    decreases |keys|
  {
    hide RankedBefore;
    k :| k in keys;
    if keys != {k} {
      var l := FirstExists(counts, keys - {k});
      RankTotal(counts, k, l);
      forall m | m in keys && RankedBefore(counts, k, l) && RankedBefore(counts, l, m) ensures RankedBefore(counts, k, m) {
        RankTransitive(counts, k, l, m);
      }
      k := if RankedBefore(counts, k, l) then k else l;
    }
  }

  /** The order of the input plays no part: the ranking of a set of keys is unique. */
  lemma {:induction false} RankingIsUnique(counts: Counts, keys: set<Key>, ks: seq<Key>, ls: seq<Key>)
    requires Ranking(counts, keys, ks) && Ranking(counts, keys, ls)
    ensures ks == ls
    decreases |ks|
  {
    NoElements(ks);
    NoElements(ls);
    if ks != [] {
      assert ks[0] in Elements(ks) && ls[0] in Elements(ls);
      RankTotal(counts, ks[0], ls[0]);
      var i :| 0 <= i < |ls| && ls[i] == ks[0];
      var j :| 0 <= j < |ks| && ks[j] == ls[0];
      assert ks[0] == ls[0];
      RankingTail(counts, keys, ks);
      RankingTail(counts, keys, ls);
      RankingIsUnique(counts, keys - {ks[0]}, ks[1..], ls[1..]);
      assert ks == [ks[0]] + ks[1..] && ls == [ls[0]] + ls[1..];
    }
  }

  lemma NoElements(ks: seq<Key>)
    ensures Elements(ks) == {} <==> ks == []
  {
    if ks != [] {
      assert ks[0] in Elements(ks);
    }
  }

  lemma RankingTail(counts: Counts, keys: set<Key>, ks: seq<Key>)
    requires Ranking(counts, keys, ks) && ks != []
    ensures Ranking(counts, keys - {ks[0]}, ks[1..])
  {
    forall k ensures k in Elements(ks[1..]) <==> k in keys - {ks[0]} {
      if k in ks[1..] {
        var i :| 0 <= i < |ks| - 1 && ks[1..][i] == k;
        RankTotal(counts, ks[0], ks[i + 1]);
        assert k in Elements(ks) && k != ks[0];
      }
      if k in keys && k != ks[0] {
        assert k in Elements(ks);
        var i :| 0 <= i < |ks| && ks[i] == k;
        assert ks[1..][i - 1] == k;
      }
    }
  }

  method Rank(counts: Counts, keys: set<Key>) returns (ks: seq<Key>)
    ensures Ranking(counts, keys, ks)
  {
    ks := [];
    var pending := keys;
    while pending != {}
      invariant pending !! Elements(ks) && pending + Elements(ks) == keys
      invariant forall i, j | 0 <= i < j < |ks| :: RankedBefore(counts, ks[i], ks[j])
      invariant forall i, k | 0 <= i < |ks| && k in pending :: RankedBefore(counts, ks[i], k)
    {
      ghost var first := FirstExists(counts, pending);
      var k :| k in pending && forall l | l in pending :: l == k || RankedBefore(counts, k, l);
      assert Elements(ks + [k]) == Elements(ks) + {k};
      ks := ks + [k];
      pending := pending - {k};
    }
  }

  // ---------- the greedy model ----------

  /** The first `n` ranked edges: all occur, no fewer reach the target, and they reach it if anything does. */
  ghost predicate Greedy(counts: Counts, ks: seq<Key>, target: nat, n: nat) {
    && n <= |ks|
    && (forall i | 0 <= i < n :: CountOf(counts, ks[i]) > 0)
    && (forall i | 0 <= i < n :: Covered(counts, Elements(ks[..i])) < target)
    && (Covered(counts, Elements(ks[..n])) >= target || forall i | n <= i < |ks| :: CountOf(counts, ks[i]) == 0)
  }

  lemma CoverNothing(counts: Counts)
    ensures Covered(counts, {}) == 0
  {
    SetSumZero({}, Weight(counts));
  }

  lemma RankedCounts(counts: Counts, k: Key, l: Key)
    requires RankedBefore(counts, k, l)
    ensures CountOf(counts, k) >= CountOf(counts, l)
  {
  }

  lemma CoverOne(counts: Counts, keys: set<Key>, k: Key)
    requires k !in keys
    ensures Covered(counts, keys + {k}) == Covered(counts, keys) + CountOf(counts, k)
  {
    SetSumRemove(keys + {k}, Weight(counts), k);
    assert keys + {k} - {k} == keys;
  }

  lemma PrefixGrows(counts: Counts, ks: seq<Key>, n: nat)
    requires n < |ks| && forall i, j | 0 <= i < j < |ks| :: RankedBefore(counts, ks[i], ks[j])
    ensures Covered(counts, Elements(ks[..n + 1])) == Covered(counts, Elements(ks[..n])) + CountOf(counts, ks[n])
    ensures |Elements(ks[..n + 1])| == |Elements(ks[..n])| + 1
  {
    assert ks[..n + 1] == ks[..n] + [ks[n]];
    assert Elements(ks[..n + 1]) == Elements(ks[..n]) + {ks[n]};
    if ks[n] in ks[..n] {
      var i :| 0 <= i < n && ks[i] == ks[n];
      RankTotal(counts, ks[i], ks[n]);
    }
    CoverOne(counts, Elements(ks[..n]), ks[n]);
  }

  lemma {:induction false} PrefixSize(counts: Counts, ks: seq<Key>, n: nat)
    requires n <= |ks| && forall i, j | 0 <= i < j < |ks| :: RankedBefore(counts, ks[i], ks[j])
    ensures |Elements(ks[..n])| == n
  {
    if n > 0 {
      PrefixSize(counts, ks, n - 1);
      PrefixGrows(counts, ks, n - 1);
    }
  }

  method SelectModel(train: Counts, ks: seq<Key>, target: nat) returns (model: seq<Key>)
    requires exists keys :: Ranking(train, keys, ks)
    ensures |model| <= |ks| && model == ks[..|model|] && Greedy(train, ks, target, |model|)
  {
    hide RankedBefore, Covered;
    model := [];
    var covered: nat := 0;
    CoverNothing(train);
    assert Elements(ks[..0]) == {};
    for i := 0 to |ks|
      invariant |model| <= i && model == ks[..|model|]
      invariant covered == Covered(train, Elements(model))
      invariant forall j | |model| <= j < i :: CountOf(train, ks[j]) == 0
      invariant forall j | 0 <= j < |model| :: CountOf(train, ks[j]) > 0
      invariant forall j | 0 <= j < |model| :: Covered(train, Elements(ks[..j])) < target
    {
      if covered >= target {
        break;
      }
      var count := CountOf(train, ks[i]);
      if count != 0 {
        if |model| < i {
          RankedCounts(train, ks[|model|], ks[i]);
        }
        PrefixGrows(train, ks, i);
        model := model + [ks[i]];
        covered := covered + count;
      }
    }
  }

  // ---------- optimality ----------

  /** Swapping what `other` has outside `top` for what it lacks of `top` loses nothing. */
  lemma Exchange(f: Key -> int, other: set<Key>, top: set<Key>, v: nat)
    requires |other| <= |top|
    requires forall k | k in other - top :: f(k) <= v
    requires forall k | k in top - other :: v <= f(k)
    ensures SetSum(other, f) <= SetSum(top, f)
  {
    hide Times;
    var both := other * top;
    assert other == both + (other - top) && top == both + (top - other);
    SetSumUnion(both, other - top, f);
    SetSumUnion(both, top - other, f);
    SetSumAtMost(other - top, f, v);
    SetSumAtLeast(top - other, f, v);
    assert |other| == |both| + |other - top| && |top| == |both| + |top - other|;
    TimesMonotone(|other - top|, |top - other|, v);
  }

  /** No set of keys covers more than as many top-ranked keys. */
  lemma TopRankedCoverMost(counts: Counts, keys: set<Key>, ks: seq<Key>, n: nat, other: set<Key>)
    requires Ranking(counts, keys, ks) && counts.Keys <= keys && n <= |ks| && |other| <= n
    ensures Covered(counts, other) <= Covered(counts, Elements(ks[..n]))
  {
    hide RankedBefore;
    PrefixSize(counts, ks, n);
    var f, top := Weight(counts), Elements(ks[..n]);
    var v := if n == 0 then 0 else CountOf(counts, ks[n - 1]);
    forall k | k in other - top ensures f(k) <= v {
      if n > 0 {
        LowerRanked(counts, keys, ks, n, k);
      }
    }
    forall k | k in top - other ensures v <= f(k) {
      var i :| 0 <= i < n && ks[i] == k;
      if i < n - 1 {
        RankedCounts(counts, ks[i], ks[n - 1]);
      }
    }
    Exchange(f, other, top, v);
  }

  lemma LaterElement(ks: seq<Key>, n: nat, k: Key) returns (i: nat)
    requires n <= |ks| && k in Elements(ks) && k !in Elements(ks[..n])
    ensures n <= i < |ks| && ks[i] == k
  {
    assert ks == ks[..n] + ks[n..];
    var j :| 0 <= j < |ks| - n && ks[n..][j] == k;
    i := n + j;
  }

  lemma LowerRanked(counts: Counts, keys: set<Key>, ks: seq<Key>, n: nat, k: Key)
    requires Ranking(counts, keys, ks) && counts.Keys <= keys && 0 < n <= |ks| && k !in ks[..n]
    ensures CountOf(counts, k) <= CountOf(counts, ks[n - 1])
  {
    if k in keys {
      var i := LaterElement(ks, n, k);
      RankedCounts(counts, ks[n - 1], ks[i]);
    }
  }

  /** A reachable target is reached. */
  lemma GreedyReaches(counts: Counts, keys: set<Key>, ks: seq<Key>, target: nat, n: nat)
    requires Ranking(counts, keys, ks) && Greedy(counts, ks, target, n) && target <= Covered(counts, keys)
    ensures Covered(counts, Elements(ks[..n])) >= target
  {
    hide RankedBefore;
    if Covered(counts, Elements(ks[..n])) < target {
      var f, top := Weight(counts), Elements(ks[..n]);
      forall k | k in keys - top ensures f(k) == 0 {
        var i := LaterElement(ks, n, k);
      }
      assert forall k | k in ks[..n] :: k in ks;
      assert top + (keys - top) == keys;
      SetSumZero(keys - top, f);
      SetSumUnion(top, keys - top, f);
    }
  }

  /** No smaller set of edges reaches the target, and none as small covers more. */
  lemma GreedyIsOptimal(counts: Counts, keys: set<Key>, ks: seq<Key>, target: nat, n: nat)
    requires Ranking(counts, keys, ks) && counts.Keys <= keys && Greedy(counts, ks, target, n)
    ensures forall other: set<Key> | Covered(counts, other) >= target :: |other| >= n
    ensures forall other: set<Key> | |other| <= n :: Covered(counts, other) <= Covered(counts, Elements(ks[..n]))
  {
    hide Ranking, Covered;
    forall other: set<Key> | |other| <= n ensures Covered(counts, other) <= Covered(counts, Elements(ks[..n])) {
      TopRankedCoverMost(counts, keys, ks, n, other);
    }
    forall other: set<Key> | Covered(counts, other) >= target ensures |other| >= n {
      if |other| < n {
        TopRankedCoverMost(counts, keys, ks, |other|, other);
      }
    }
  }

  /** A higher target only adds edges to the model. */
  lemma GreedyIsMonotone(counts: Counts, ks: seq<Key>, low: nat, high: nat, n: nat, m: nat)
    requires low <= high && Greedy(counts, ks, low, n) && Greedy(counts, ks, high, m)
    ensures n <= m && ks[..n] <= ks[..m]
  {
    var next := if m < |ks| then CountOf(counts, ks[m]) else 0;
  }

  // ---------- the held-out score ----------

  datatype Score = Score(conforming: nat, deviations: nat, testTotal: nat, model: seq<Key>)

  method SumCounts(counts: Counts, keys: set<Key>) returns (total: nat)
    ensures total == Covered(counts, keys)
  {
    total := 0;
    var pending := keys;
    while pending != {}
      invariant pending <= keys && total + Covered(counts, pending) == Covered(counts, keys)
    {
      var k :| k in pending;
      SetSumRemove(pending, Weight(counts), k);
      total := total + CountOf(counts, k);
      pending := pending - {k};
    }
    CoverNothing(counts);
  }

  lemma CoveredSplits(counts: Counts, keys: set<Key>, part: set<Key>)
    ensures Covered(counts, keys * part) + Covered(counts, keys - part) == Covered(counts, keys)
  {
    SetSumUnion(keys * part, keys - part, Weight(counts));
    assert keys * part + (keys - part) == keys;
  }

  method ScoreCounts(train: Counts, test: Counts, target: nat) returns (score: Score)
    ensures exists ks ::
      Ranking(train, train.Keys + test.Keys, ks) && |score.model| <= |ks| && score.model == ks[..|score.model|]
      && Greedy(train, ks, target, |score.model|)
    ensures score.testTotal == SetSum(test.Keys, k => if k in test then test[k] else 0)
    ensures score.conforming == SetSum((set k | k in test && k in score.model), k => if k in test then test[k] else 0)
    ensures score.deviations == SetSum((set k | k in test && k !in score.model), k => if k in test then test[k] else 0)
    ensures score.testTotal == Covered(test, test.Keys)
    ensures score.conforming == Covered(test, test.Keys * Elements(score.model))
    ensures score.conforming + score.deviations == score.testTotal
    ensures score.deviations == Covered(test, test.Keys - Elements(score.model))
  {
    hide Ranking, Greedy;
    var ks := Rank(train, train.Keys + test.Keys);
    var model := SelectModel(train, ks, target);
    var accepted := set k | k in model;
    var testTotal := SumCounts(test, test.Keys);
    var conforming := SumCounts(test, test.Keys * accepted);
    CoveredSplits(test, test.Keys, accepted);
    CoveredIs(test, test.Keys);
    CoveredIs(test, set k | k in test && k in model);
    CoveredIs(test, set k | k in test && k !in model);
    assert (set k | k in test && k in model) == test.Keys * accepted;
    assert (set k | k in test && k !in model) == test.Keys - accepted;
    score := Score(conforming, testTotal - conforming, testTotal, model);
  }
}
