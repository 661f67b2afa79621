/** The totals of an alignment check over a whole log. */
module AlignmentReport {
  import opened Basics
  import opened EditDistance
  import opened AlignmentGraph
  import opened AlignmentOutcome
  import opened AlignmentSearch
  import opened AlignmentTheorems

  datatype LogResult =
    | LogAligned(synchronous: nat, moves: nat, expanded: nat, violations: seq<nat>)
    | LogFailed(error: AlignError)

  ghost predicate AllAligned(rs: seq<AlignResult>) {
    forall i | 0 <= i < |rs| :: rs[i].Aligned?
  }

  function Costs(rs: seq<AlignResult>): (costs: seq<int>)
    requires AllAligned(rs)
  {
    seq(|rs|, i requires 0 <= i < |rs| => rs[i].cost)
  }

  function Expansions(rs: seq<AlignResult>): (expansions: seq<int>)
    requires AllAligned(rs)
  {
    seq(|rs|, i requires 0 <= i < |rs| => rs[i].expanded)
  }

  /** The events of each trace that its alignment does not pay for. */
  function Matches(log: seq<seq<Activity>>, rs: seq<AlignResult>): (matches: seq<int>)
    requires AllAligned(rs) && |rs| <= |log|
  {
    seq(|rs|, i requires 0 <= i < |rs| => |log[i]| - Min(rs[i].cost, |log[i]|))
  }

  /** The positions of the traces with a positive cost, in log order. */
  ghost predicate Violating(rs: seq<AlignResult>, violations: seq<nat>)
    requires AllAligned(rs)
  {
    && (forall j, k | 0 <= j < k < |violations| :: violations[j] < violations[k])
    && forall i: nat :: i in violations <==> i < |rs| && rs[i].cost > 0
  }

  ghost predicate TotalsOf(log: seq<seq<Activity>>, rs: seq<AlignResult>, r: LogResult)
    requires AllAligned(rs) && |rs| <= |log| && r.LogAligned?
  {
    && r.moves == SeqSum(Costs(rs)) && r.expanded == SeqSum(Expansions(rs)) && r.synchronous == SeqSum(Matches(log, rs))
    && Violating(rs, r.violations)
  }

  /**
   * The first trace whose search fails ends the check with its error. Otherwise the moves are the costs of all traces,
   * the synchronous moves their events less their costs as far as these go, and the violations the traces that cost.
   */
  method AlignLog(m: DfgModel, log: seq<seq<Activity>>) returns (r: LogResult, ghost rs: seq<AlignResult>)
    ensures |rs| <= |log| && forall i | 0 <= i < |rs| :: Outcome(m, log[i], rs[i])
    ensures r.LogFailed? ==>
      rs != [] && rs[|rs| - 1] == Failed(r.error) && forall i | 0 <= i < |rs| - 1 :: rs[i].Aligned?
    ensures r.LogAligned? ==> |rs| == |log| && forall i | 0 <= i < |rs| :: rs[i].Aligned?
    ensures r.LogAligned? ==>
      && r.moves == SeqSum(seq(|rs|, i requires 0 <= i < |rs| => rs[i].cost))
      && r.expanded == SeqSum(seq(|rs|, i requires 0 <= i < |rs| => rs[i].expanded))
      && r.synchronous ==
         SeqSum(seq(|rs|, i requires 0 <= i < |rs| => if rs[i].cost <= |log[i]| then |log[i]| - rs[i].cost else 0))
      && (forall j, k | 0 <= j < k < |r.violations| :: r.violations[j] < r.violations[k])
      && forall i: nat :: i in r.violations <==> i < |rs| && rs[i].cost > 0
  {
    hide Outcome, TotalsOf;
    rs := [];
    r := LogAligned(0, 0, 0, []);
    NothingAligned(log, r);
    for i := 0 to |log|
      invariant |rs| == i && (forall j | 0 <= j < i :: Outcome(m, log[j], rs[j])) && AllAligned(rs)
      invariant r.LogAligned? && TotalsOf(log, rs, r)
    {
      var trace := log[i];
      var one := AlignDfg(m, trace);
      if one.Failed? {
        rs := rs + [one];
        return LogFailed(one.error), rs;
      }
      TotalsGrow(log, rs, r, one);
      r := LogAligned(
        r.synchronous + (|trace| - Min(one.cost, |trace|)), r.moves + one.cost, r.expanded + one.expanded,
        if one.cost > 0 then r.violations + [i] else r.violations);
      rs := rs + [one];
    }
    TotalsMean(log, rs, r);
  }

  lemma TotalsMean(log: seq<seq<Activity>>, rs: seq<AlignResult>, r: LogResult)
    requires AllAligned(rs) && |rs| <= |log| && r.LogAligned? && TotalsOf(log, rs, r)
    ensures
      && r.moves == SeqSum(seq(|rs|, i requires 0 <= i < |rs| => rs[i].cost))
      && r.expanded == SeqSum(seq(|rs|, i requires 0 <= i < |rs| => rs[i].expanded))
      && r.synchronous ==
         SeqSum(seq(|rs|, i requires 0 <= i < |rs| => if rs[i].cost <= |log[i]| then |log[i]| - rs[i].cost else 0))
      && (forall j, k | 0 <= j < k < |r.violations| :: r.violations[j] < r.violations[k])
      && forall i: nat :: i in r.violations <==> i < |rs| && rs[i].cost > 0
  {
    assert Costs(rs) == seq(|rs|, i requires 0 <= i < |rs| => rs[i].cost);
    assert Expansions(rs) == seq(|rs|, i requires 0 <= i < |rs| => rs[i].expanded);
    assert Matches(log, rs)
        == seq(|rs|, i requires 0 <= i < |rs| => if rs[i].cost <= |log[i]| then |log[i]| - rs[i].cost else 0);
  }

  lemma NothingAligned(log: seq<seq<Activity>>, r: LogResult)
    requires r == LogAligned(0, 0, 0, [])
    ensures TotalsOf(log, [], r)
  {
  }

  lemma TotalsGrow(log: seq<seq<Activity>>, rs: seq<AlignResult>, r: LogResult, one: AlignResult)
    requires AllAligned(rs) && |rs| < |log| && r.LogAligned? && TotalsOf(log, rs, r) && one.Aligned?
    ensures
      var matched := |log[|rs|]| - Min(one.cost, |log[|rs|]|);
      TotalsOf(log, rs + [one], LogAligned(
        r.synchronous + matched, r.moves + one.cost, r.expanded + one.expanded,
        if one.cost > 0 then r.violations + [|rs|] else r.violations))
  {
    hide SeqSum;
    var more := rs + [one];
    var matched := |log[|rs|]| - Min(one.cost, |log[|rs|]|);
    assert Costs(more) == Costs(rs) + [one.cost];
    assert Expansions(more) == Expansions(rs) + [one.expanded];
    assert Matches(log, more) == Matches(log, rs) + [matched];
    SeqSumIsAdditive(Costs(rs), [one.cost], one.cost);
    SeqSumIsAdditive(Expansions(rs), [one.expanded], one.expanded);
    SeqSumIsAdditive(Matches(log, rs), [matched], matched);
    ViolatingGrows(rs, one, r.violations);
  }

  lemma ViolatingGrows(rs: seq<AlignResult>, one: AlignResult, violations: seq<nat>)
    requires AllAligned(rs) && Violating(rs, violations) && one.Aligned?
    ensures Violating(rs + [one], if one.cost > 0 then violations + [|rs|] else violations)
  {
    var more := if one.cost > 0 then violations + [|rs|] else violations;
    forall i: nat ensures i in more <==> i < |rs| + 1 && (rs + [one])[i].cost > 0 {
      assert i in more <==> i in violations || (i == |rs| && one.cost > 0);
    }
    forall j, k | 0 <= j < k < |more| ensures more[j] < more[k] {
      if k == |violations| {
        assert violations[j] in violations;
      }
    }
  }

  /** Together the synchronous moves and the moves are at least the events, and equal them if no trace costs more than it is long. */
  lemma {:induction false} MovesAgainstEvents(log: seq<seq<Activity>>, rs: seq<AlignResult>)
    requires |log| == |rs| && AllAligned(rs)
    ensures TotalLength(log) <= SeqSum(Matches(log, rs)) + SeqSum(Costs(rs))
    ensures SeqSum(Matches(log, rs)) + SeqSum(Costs(rs)) == TotalLength(log)
            <==> forall i | 0 <= i < |rs| :: rs[i].cost <= |log[i]|
  {
    if rs != [] {
      var k := |rs| - 1;
      MovesAgainstEvents(log[..k], rs[..k]);
      assert Costs(rs)[..k] == Costs(rs[..k]) && Matches(log, rs)[..k] == Matches(log[..k], rs[..k]);
      assert forall i | 0 <= i < k :: rs[..k][i] == rs[i] && log[..k][i] == log[i];
    }
  }

  /**
   * Synchronous moves and deviating moves add up to the events of the log whenever some accepting run
   * takes no more steps than each trace has events.
   */
  lemma MovesAddUpToEvents(m: DfgModel, log: seq<seq<Activity>>, rs: seq<AlignResult>, run: seq<Activity>)
    requires |rs| == |log| && AllAligned(rs) && forall i | 0 <= i < |rs| :: Outcome(m, log[i], rs[i])
    requires Accepts(m, run) && forall i | 0 <= i < |log| :: |run| - 1 <= |log[i]|
    ensures SeqSum(Matches(log, rs)) + SeqSum(Costs(rs)) == TotalLength(log)
  {
    MovesAgainstEvents(log, rs);
    forall i | 0 <= i < |rs| ensures rs[i].cost <= |log[i]| {
      AlignedIsLeastRunCost(m, log[i], rs[i]);
      RunCostWithinOne(log[i], run);
    }
  }
}
