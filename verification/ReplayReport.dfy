/** The totals of token replay over a whole log. */
module ReplayReport {
  import opened Basics
  import opened PetriNets
  import opened ReplaySpec
  import opened TokenReplay

  datatype ReplayTotals = ReplayTotals(
    conforming: nat, deviations: nat, missing: nat, remaining: nat, consumed: nat, produced: nat, violations: seq<nat>)

  function Add(r: Replay, s: Replay): Replay {
    Replay(r.missing + s.missing, r.remaining + s.remaining, r.consumed + s.consumed, r.produced + s.produced,
           r.logMoves + s.logMoves)
  }

  /** The counters of all replays of a log. */
  function LogReplay(net: PetriNet, log: seq<seq<string>>): Replay {
    if log == [] then Replay(0, 0, 0, 0, 0) else Add(LogReplay(net, log[..|log| - 1]), ReplayOf(net, log[|log| - 1]))
  }

  function Deviations(r: Replay): nat {
    r.logMoves + r.missing + r.remaining
  }

  /** The positions of the traces that deviate, in log order. */
  ghost predicate Deviating(net: PetriNet, log: seq<seq<string>>, violations: seq<nat>) {
    && (forall j, k | 0 <= j < k < |violations| :: violations[j] < violations[k])
    && forall i: nat :: i in violations <==> i < |log| && Deviations(ReplayOf(net, log[i])) > 0
  }

  lemma DeviatingGrows(net: PetriNet, log: seq<seq<string>>, trace: seq<string>, violations: seq<nat>)
    requires Deviating(net, log, violations)
    ensures Deviating(net, log + [trace],
                      if Deviations(ReplayOf(net, trace)) > 0 then violations + [|log|] else violations)
  {
    hide ReplayOf;
    var more := if Deviations(ReplayOf(net, trace)) > 0 then violations + [|log|] else violations;
    forall i: nat ensures i in more <==> i < |log| + 1 && Deviations(ReplayOf(net, (log + [trace])[i])) > 0 {
      assert i in more <==> i in violations || (i == |log| && Deviations(ReplayOf(net, trace)) > 0);
      if i < |log| {
        assert (log + [trace])[i] == log[i];
      }
    }
    forall j, k | 0 <= j < k < |more| ensures more[j] < more[k] {
      if k == |violations| {
        assert violations[j] in violations;
      }
    }
  }

  /** Nothing is missing that was not consumed, and no event is passed over that is not there. */
  lemma {:induction false} TotalsBounded(net: PetriNet, log: seq<seq<string>>)
    ensures LogReplay(net, log).missing <= LogReplay(net, log).consumed
    ensures LogReplay(net, log).logMoves <= TotalLength(log)
  {
    hide ReplayOf;
    if log != [] {
      TotalsBounded(net, log[..|log| - 1]);
      ReplayBounds(net, log[|log| - 1]);
    }
  }

  /** Every event conforms or is a log move, and every deviation is a log move, a missing or a remaining token. */
  ghost predicate TotalsOf(net: PetriNet, log: seq<seq<string>>, t: ReplayTotals) {
    var sum := LogReplay(net, log);
    && t.missing == sum.missing && t.remaining == sum.remaining && t.consumed == sum.consumed && t.produced == sum.produced
    && t.conforming + sum.logMoves == TotalLength(log) && t.deviations == Deviations(sum)
    && Deviating(net, log, t.violations)
  }

  /** The totals with one more trace, at position `i`. */
  function Counted(t: ReplayTotals, i: nat, events: nat, r: Replay): ReplayTotals
    requires r.logMoves <= events
  {
    ReplayTotals(
      t.conforming + (events - r.logMoves), t.deviations + Deviations(r),
      t.missing + r.missing, t.remaining + r.remaining, t.consumed + r.consumed, t.produced + r.produced,
      if Deviations(r) > 0 then t.violations + [i] else t.violations)
  }

  /** Nothing when the replay of some trace takes more tokens than a place holds. */
  method ReplayLog(net: PetriNet, log: seq<seq<string>>) returns (totals: Option<ReplayTotals>)
    ensures totals.Some? <==> forall i | 0 <= i < |log| :: SafeTrace(net, log[i])
    ensures totals.Some? ==> totals.value.missing <= totals.value.consumed
    ensures totals.Some? ==>
      var t := totals.value;
      && t.missing == SeqSum(seq(|log|, i requires 0 <= i < |log| => ReplayOf(net, log[i]).missing))
      && t.remaining == SeqSum(seq(|log|, i requires 0 <= i < |log| => ReplayOf(net, log[i]).remaining))
      && t.consumed == SeqSum(seq(|log|, i requires 0 <= i < |log| => ReplayOf(net, log[i]).consumed))
      && t.produced == SeqSum(seq(|log|, i requires 0 <= i < |log| => ReplayOf(net, log[i]).produced))
      && t.conforming == SeqSum(seq(|log|, i requires 0 <= i < |log| => |log[i]| - ReplayOf(net, log[i]).logMoves))
      && t.deviations == SeqSum(seq(|log|, i requires 0 <= i < |log| =>
           ReplayOf(net, log[i]).logMoves + ReplayOf(net, log[i]).missing + ReplayOf(net, log[i]).remaining))
      && (forall j, k | 0 <= j < k < |t.violations| :: t.violations[j] < t.violations[k])
      && forall i: nat :: i in t.violations <==>
           i < |log| && ReplayOf(net, log[i]).logMoves + ReplayOf(net, log[i]).missing + ReplayOf(net, log[i]).remaining > 0
  {
    hide SafeTrace, ReplayOf, TotalsOf, Counted;
    var t := ReplayTotals(0, 0, 0, 0, 0, 0, []);
    NothingReplayed(net);
    for i := 0 to |log|
      invariant TotalsOf(net, log[..i], t)
      invariant forall j | 0 <= j < i :: SafeTrace(net, log[j])
    {
      var trace := log[i];
      var replayed := ReplayTrace(net, trace);
      if replayed.None? {
        return None;
      }
      ReplayBounds(net, trace);
      TotalsGrow(net, log[..i], trace, t);
      assert log[..i + 1] == log[..i] + [trace];
      t := Counted(t, i, |trace|, replayed.value);
    }
    assert log[..|log|] == log;
    MissingWithinConsumed(net, log, t);
    SumsMean(net, log, t);
    ViolationsMean(net, log, t);
    totals := Some(t);
  }

  lemma {:induction false} SumMissing(net: PetriNet, log: seq<seq<string>>)
    ensures LogReplay(net, log).missing == SeqSum(seq(|log|, i requires 0 <= i < |log| => ReplayOf(net, log[i]).missing))
  {
    hide ReplayOf;
    if log != [] {
      SumMissing(net, log[..|log| - 1]);
      var init, all := log[..|log| - 1], seq(|log|, i requires 0 <= i < |log| => ReplayOf(net, log[i]).missing);
      assert all[..|all| - 1] == seq(|init|, i requires 0 <= i < |init| => ReplayOf(net, init[i]).missing);
    }
  }

  lemma {:induction false} SumRemaining(net: PetriNet, log: seq<seq<string>>)
    ensures LogReplay(net, log).remaining == SeqSum(seq(|log|, i requires 0 <= i < |log| => ReplayOf(net, log[i]).remaining))
  {
    hide ReplayOf;
    if log != [] {
      SumRemaining(net, log[..|log| - 1]);
      var init, all := log[..|log| - 1], seq(|log|, i requires 0 <= i < |log| => ReplayOf(net, log[i]).remaining);
      assert all[..|all| - 1] == seq(|init|, i requires 0 <= i < |init| => ReplayOf(net, init[i]).remaining);
    }
  }

  lemma {:induction false} SumConsumed(net: PetriNet, log: seq<seq<string>>)
    ensures LogReplay(net, log).consumed == SeqSum(seq(|log|, i requires 0 <= i < |log| => ReplayOf(net, log[i]).consumed))
  {
    hide ReplayOf;
    if log != [] {
      SumConsumed(net, log[..|log| - 1]);
      var init, all := log[..|log| - 1], seq(|log|, i requires 0 <= i < |log| => ReplayOf(net, log[i]).consumed);
      assert all[..|all| - 1] == seq(|init|, i requires 0 <= i < |init| => ReplayOf(net, init[i]).consumed);
    }
  }

  lemma {:induction false} SumProduced(net: PetriNet, log: seq<seq<string>>)
    ensures LogReplay(net, log).produced == SeqSum(seq(|log|, i requires 0 <= i < |log| => ReplayOf(net, log[i]).produced))
  {
    hide ReplayOf;
    if log != [] {
      SumProduced(net, log[..|log| - 1]);
      var init, all := log[..|log| - 1], seq(|log|, i requires 0 <= i < |log| => ReplayOf(net, log[i]).produced);
      assert all[..|all| - 1] == seq(|init|, i requires 0 <= i < |init| => ReplayOf(net, init[i]).produced);
    }
  }

  lemma {:induction false} SumLogMoves(net: PetriNet, log: seq<seq<string>>)
    ensures LogReplay(net, log).logMoves == SeqSum(seq(|log|, i requires 0 <= i < |log| => ReplayOf(net, log[i]).logMoves))
  {
    hide ReplayOf;
    if log != [] {
      SumLogMoves(net, log[..|log| - 1]);
      var init, all := log[..|log| - 1], seq(|log|, i requires 0 <= i < |log| => ReplayOf(net, log[i]).logMoves);
      assert all[..|all| - 1] == seq(|init|, i requires 0 <= i < |init| => ReplayOf(net, init[i]).logMoves);
    }
  }

  lemma SumDeviations(net: PetriNet, log: seq<seq<string>>)
    ensures Deviations(LogReplay(net, log)) == SeqSum(seq(|log|, i requires 0 <= i < |log| =>
      ReplayOf(net, log[i]).logMoves + ReplayOf(net, log[i]).missing + ReplayOf(net, log[i]).remaining))
  {
    hide ReplayOf, LogReplay, SeqSum;
    SumLogMoves(net, log);
    SumMissing(net, log);
    SumRemaining(net, log);
    var moves := seq(|log|, i requires 0 <= i < |log| => ReplayOf(net, log[i]).logMoves);
    var missing := seq(|log|, i requires 0 <= i < |log| => ReplayOf(net, log[i]).missing);
    var remaining := seq(|log|, i requires 0 <= i < |log| => ReplayOf(net, log[i]).remaining);
    var both := seq(|log|, i requires 0 <= i < |log| => moves[i] + missing[i]);
    SeqSumPlus(moves, missing, both);
    SeqSumPlus(both, remaining, seq(|log|, i requires 0 <= i < |log| =>
      ReplayOf(net, log[i]).logMoves + ReplayOf(net, log[i]).missing + ReplayOf(net, log[i]).remaining));
  }

  lemma {:induction false} SumConforming(net: PetriNet, log: seq<seq<string>>)
    ensures TotalLength(log) - LogReplay(net, log).logMoves == SeqSum(seq(|log|, i requires 0 <= i < |log| => |log[i]| - ReplayOf(net, log[i]).logMoves))
  {
    hide ReplayOf;
    if log != [] {
      SumConforming(net, log[..|log| - 1]);
      var init, all := log[..|log| - 1], seq(|log|, i requires 0 <= i < |log| => |log[i]| - ReplayOf(net, log[i]).logMoves);
      assert all[..|all| - 1] == seq(|init|, i requires 0 <= i < |init| => |init[i]| - ReplayOf(net, init[i]).logMoves);
    }
  }

  lemma SumsMean(net: PetriNet, log: seq<seq<string>>, t: ReplayTotals)
    requires TotalsOf(net, log, t)
    ensures
      && t.missing == SeqSum(seq(|log|, i requires 0 <= i < |log| => ReplayOf(net, log[i]).missing))
      && t.remaining == SeqSum(seq(|log|, i requires 0 <= i < |log| => ReplayOf(net, log[i]).remaining))
      && t.consumed == SeqSum(seq(|log|, i requires 0 <= i < |log| => ReplayOf(net, log[i]).consumed))
      && t.produced == SeqSum(seq(|log|, i requires 0 <= i < |log| => ReplayOf(net, log[i]).produced))
      && t.conforming == SeqSum(seq(|log|, i requires 0 <= i < |log| => |log[i]| - ReplayOf(net, log[i]).logMoves))
      && t.deviations == SeqSum(seq(|log|, i requires 0 <= i < |log| =>
           ReplayOf(net, log[i]).logMoves + ReplayOf(net, log[i]).missing + ReplayOf(net, log[i]).remaining))
  {
    hide ReplayOf, LogReplay, TotalLength, SeqSum;
    SumMissing(net, log);
    SumRemaining(net, log);
    SumConsumed(net, log);
    SumProduced(net, log);
    SumDeviations(net, log);
    SumConforming(net, log);
  }

  lemma ViolationsMean(net: PetriNet, log: seq<seq<string>>, t: ReplayTotals)
    requires TotalsOf(net, log, t)
    ensures
      && (forall j, k | 0 <= j < k < |t.violations| :: t.violations[j] < t.violations[k])
      && forall i: nat :: i in t.violations <==>
           i < |log| && ReplayOf(net, log[i]).logMoves + ReplayOf(net, log[i]).missing + ReplayOf(net, log[i]).remaining > 0
  {
    hide ReplayOf, LogReplay, TotalLength;
  }

  lemma MissingWithinConsumed(net: PetriNet, log: seq<seq<string>>, t: ReplayTotals)
    requires TotalsOf(net, log, t)
    ensures t.missing <= t.consumed
  {
    TotalsBounded(net, log);
  }

  lemma TotalsGrow(net: PetriNet, log: seq<seq<string>>, trace: seq<string>, t: ReplayTotals)
    requires TotalsOf(net, log, t) && ReplayOf(net, trace).logMoves <= |trace|
    ensures TotalsOf(net, log + [trace], Counted(t, |log|, |trace|, ReplayOf(net, trace)))
  {
    hide ReplayOf, Deviating, LogReplay, TotalLength;
    LogGrows(net, log, trace);
    DeviatingGrows(net, log, trace, t.violations);
  }

  lemma NothingReplayed(net: PetriNet)
    ensures TotalsOf(net, [], ReplayTotals(0, 0, 0, 0, 0, 0, []))
  {
  }

  lemma LogGrows(net: PetriNet, log: seq<seq<string>>, trace: seq<string>)
    ensures TotalLength(log + [trace]) == TotalLength(log) + |trace|
    ensures LogReplay(net, log + [trace]) == Add(LogReplay(net, log), ReplayOf(net, trace))
  {
    hide ReplayOf;
    assert (log + [trace])[..|log|] == log;
  }
}
