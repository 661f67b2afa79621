/** Token replay as it runs: one event at a time over a marking of all places. */
module TokenReplay {
  import opened Basics
  import opened PetriNets
  import opened ReplaySpec

  // ---------- the arcs of one transition ----------

  function Incoming(arcs: seq<Arc>, tokens: Marking, t: Transition): seq<Arc> {
    if arcs == [] then []
    else
      var init, last := Incoming(arcs[..|arcs| - 1], tokens, t), arcs[|arcs| - 1];
      if last.target == t.id && last.source in tokens then init + [last] else init
  }

  function Outgoing(arcs: seq<Arc>, t: Transition): seq<Arc> {
    if arcs == [] then []
    else
      var init, last := Outgoing(arcs[..|arcs| - 1], t), arcs[|arcs| - 1];
      if last.source == t.id then init + [last] else init
  }

  function SourceWeight(arcs: seq<Arc>, p: Id): nat {
    if arcs == [] then 0
    else SourceWeight(arcs[..|arcs| - 1], p) + if arcs[|arcs| - 1].source == p then arcs[|arcs| - 1].weight else 0
  }

  function TargetWeight(arcs: seq<Arc>, p: Id): nat {
    if arcs == [] then 0
    else TargetWeight(arcs[..|arcs| - 1], p) + if arcs[|arcs| - 1].target == p then arcs[|arcs| - 1].weight else 0
  }

  lemma SourceWeightAppend(arcs: seq<Arc>, a: Arc, p: Id)
    ensures SourceWeight(arcs + [a], p) == SourceWeight(arcs, p) + if a.source == p then a.weight else 0
  {
    assert (arcs + [a])[..|arcs|] == arcs;
  }

  lemma {:induction false} IncomingWeight(arcs: seq<Arc>, tokens: Marking, t: Transition, p: Id)
    requires p in tokens
    ensures SourceWeight(Incoming(arcs, tokens, t), p) == Weight(arcs, p, t.id)
  {
    if arcs != [] {
      var init, last := arcs[..|arcs| - 1], arcs[|arcs| - 1];
      IncomingWeight(init, tokens, t, p);
      SourceWeightAppend(Incoming(init, tokens, t), last, p);
    }
  }

  lemma {:induction false} OutgoingWeight(arcs: seq<Arc>, t: Transition, p: Id)
    ensures TargetWeight(Outgoing(arcs, t), p) == Weight(arcs, t.id, p)
  {
    if arcs != [] {
      var init, last := arcs[..|arcs| - 1], arcs[|arcs| - 1];
      OutgoingWeight(init, t, p);
      assert (Outgoing(init, t) + [last])[..|Outgoing(init, t)|] == Outgoing(init, t);
    }
  }

  /** The heaviest of the arcs from a place. */
  function Heaviest(arcs: seq<Arc>, p: Id): nat {
    if arcs == [] then 0
    else
      var init, last := Heaviest(arcs[..|arcs| - 1], p), arcs[|arcs| - 1];
      if last.source == p then Max(init, last.weight) else init
  }

  lemma {:induction false} IncomingPeak(arcs: seq<Arc>, tokens: Marking, t: Transition, p: Id)
    requires p in tokens
    ensures Heaviest(Incoming(arcs, tokens, t), p) == Peak(arcs, p, t.id)
  {
    if arcs != [] {
      var init, last := arcs[..|arcs| - 1], arcs[|arcs| - 1];
      IncomingPeak(init, tokens, t, p);
      var kept := Incoming(init, tokens, t);
      assert (kept + [last])[..|kept|] == kept;
    }
  }

  lemma {:induction false} IncomingSources(arcs: seq<Arc>, tokens: Marking, t: Transition)
    ensures forall a | a in Incoming(arcs, tokens, t) :: a.source in tokens
  {
    if arcs != [] {
      IncomingSources(arcs[..|arcs| - 1], tokens, t);
    }
  }

  lemma {:induction false} WithinHeaviest(arcs: seq<Arc>, p: Id, level: nat)
    requires forall a | a in arcs && a.source == p :: a.weight <= level
    ensures Heaviest(arcs, p) <= level
  {
    if arcs != [] {
      WithinHeaviest(arcs[..|arcs| - 1], p, level);
    }
  }

  /** The first arcs take no more than all of them. */
  lemma {:induction false} SourceWeightGrows(arcs: seq<Arc>, k: nat, p: Id)
    requires k <= |arcs|
    ensures SourceWeight(arcs[..k], p) <= SourceWeight(arcs, p)
  {
    if k < |arcs| {
      SourceWeightGrows(arcs[..|arcs| - 1], k, p);
      assert arcs[..|arcs| - 1][..k] == arcs[..k];
    } else {
      assert arcs[..k] == arcs;
    }
  }

  // ---------- one firing ----------

  /** The tokens map always has exactly the places of the net as its keys. */
  ghost predicate Over(ids: seq<Id>, tokens: Marking) {
    Distinct(ids) && forall p :: p in ids <==> p in tokens
  }

  /** Makes up what the input places lack, one arc at a time. */
  method TopUp(incoming: seq<Arc>, tokens: Marking, ghost ids: seq<Id>) returns (tokens': Marking, missing: nat)
    requires Over(ids, tokens) && forall a | a in incoming :: a.source in tokens
    ensures tokens' == map p | p in tokens :: Max(tokens[p], Heaviest(incoming, p)) as nat
    ensures Total(ids, tokens') == Total(ids, tokens) + missing
  {
    hide Total;
    tokens', missing := tokens, 0;
    for k := 0 to |incoming|
      invariant Over(ids, tokens')
      invariant forall p | p in tokens :: tokens'[p] == Max(tokens[p], Heaviest(incoming[..k], p))
      invariant Total(ids, tokens') == Total(ids, tokens) + missing
    {
      var arc := incoming[k];
      assert incoming[..k + 1][..k] == incoming[..k];
      var available := tokens'[arc.source];
      if available < arc.weight {
        TotalUpdate(ids, tokens', arc.source, available + (arc.weight - available));
        tokens' := tokens'[arc.source := available + (arc.weight - available)];
        missing := missing + (arc.weight - available);
      }
    }
    assert incoming[..|incoming|] == incoming;
  }

  /** Every place holds what its arcs take together. */
  ghost predicate Covers(incoming: seq<Arc>, tokens: Marking) {
    forall p | p in tokens :: SourceWeight(incoming, p) <= tokens[p]
  }

  /** Takes the tokens; not `safe` when an arc finds fewer than it takes. */
  method Consume(incoming: seq<Arc>, tokens: Marking, ghost ids: seq<Id>)
    returns (safe: bool, tokens': Marking, consumed: nat)
    requires Over(ids, tokens) && forall a | a in incoming :: a.source in tokens
    ensures safe <==> Covers(incoming, tokens)
    ensures safe ==> tokens'.Keys == tokens.Keys && forall p | p in tokens :: tokens'[p] == tokens[p] - SourceWeight(incoming, p)
    ensures safe ==> Total(ids, tokens') + consumed == Total(ids, tokens)
  {
    hide Total;
    tokens', consumed := tokens, 0;
    for k := 0 to |incoming|
      invariant Over(ids, tokens') && tokens'.Keys == tokens.Keys
      invariant forall p | p in tokens :: tokens'[p] == tokens[p] - SourceWeight(incoming[..k], p)
      invariant Total(ids, tokens') + consumed == Total(ids, tokens)
    {
      var arc := incoming[k];
      assert incoming[..k + 1][..k] == incoming[..k];
      SourceWeightGrows(incoming, k + 1, arc.source);
      if tokens'[arc.source] < arc.weight {
        return false, tokens', consumed;
      }
      TotalUpdate(ids, tokens', arc.source, tokens'[arc.source] - arc.weight);
      tokens' := tokens'[arc.source := tokens'[arc.source] - arc.weight];
      consumed := consumed + arc.weight;
    }
    assert incoming[..|incoming|] == incoming;
    safe := true;
  }

  /** Arcs that lead to something other than a place are passed over. */
  method Produce(outgoing: seq<Arc>, tokens: Marking, ghost ids: seq<Id>) returns (tokens': Marking, produced: nat)
    requires Over(ids, tokens)
    ensures tokens' == map p | p in tokens :: tokens[p] + TargetWeight(outgoing, p)
    ensures Total(ids, tokens') == Total(ids, tokens) + produced
  {
    hide Total;
    tokens', produced := tokens, 0;
    for k := 0 to |outgoing|
      invariant Over(ids, tokens')
      invariant forall p | p in tokens :: tokens'[p] == tokens[p] + TargetWeight(outgoing[..k], p)
      invariant Total(ids, tokens') == Total(ids, tokens) + produced
    {
      var arc := outgoing[k];
      assert outgoing[..k + 1][..k] == outgoing[..k];
      if arc.target in tokens' {
        TotalUpdate(ids, tokens', arc.target, tokens'[arc.target] + arc.weight);
        tokens' := tokens'[arc.target := tokens'[arc.target] + arc.weight];
        produced := produced + arc.weight;
      }
    }
    assert outgoing[..|outgoing|] == outgoing;
  }

  /** The shortfall is made up only when the transition is not enabled as it stands. */
  method Enable(incoming: seq<Arc>, tokens: Marking, ghost ids: seq<Id>) returns (topped: Marking, missing: nat)
    requires Over(ids, tokens) && forall a | a in incoming :: a.source in tokens
    ensures topped == map p | p in tokens :: Max(tokens[p], Heaviest(incoming, p)) as nat
    ensures Total(ids, topped) == Total(ids, tokens) + missing
  {
    hide Heaviest;
    topped, missing := tokens, 0;
    var enabled := forall a | a in incoming :: tokens[a.source] >= a.weight;
    if !enabled {
      topped, missing := TopUp(incoming, tokens, ids);
    } else {
      forall p | p in tokens ensures Heaviest(incoming, p) <= tokens[p] {
        WithinHeaviest(incoming, p, tokens[p]);
      }
    }
  }

  lemma IncomingNeeds(net: PetriNet, t: Transition, tokens: Marking)
    ensures
      var incoming := Incoming(net.arcs, tokens, t);
      && (forall p | p in tokens :: SourceWeight(incoming, p) == Need(net, p, t))
      && (forall p | p in tokens :: Heaviest(incoming, p) == Peak(net.arcs, p, t.id))
      && (forall a | a in incoming :: a.source in tokens)
  {
    IncomingSources(net.arcs, tokens, t);
    forall p | p in tokens
      ensures SourceWeight(Incoming(net.arcs, tokens, t), p) == Need(net, p, t)
      ensures Heaviest(Incoming(net.arcs, tokens, t), p) == Peak(net.arcs, p, t.id)
    {
      IncomingWeight(net.arcs, tokens, t, p);
      IncomingPeak(net.arcs, tokens, t, p);
    }
  }

  /** Where the firing is safe, topping up to the heaviest arc is topping up to the need. */
  lemma ToppedToNeed(net: PetriNet, m: Marking, t: Transition, topped: Marking)
    requires topped.Keys == m.Keys && forall p | p in m :: topped[p] == Max(m[p], Peak(net.arcs, p, t.id))
    ensures SafeAt(net, m, t) <==> forall p | p in m :: Need(net, p, t) <= topped[p]
    ensures SafeAt(net, m, t) ==> forall p | p in m :: topped[p] == Max(m[p], Need(net, p, t))
  {
    hide Peak, Weight;
    forall p | p in m ensures Peak(net.arcs, p, t.id) <= Need(net, p, t) {
      PeakZero(net.arcs, p, t.id);
    }
  }

  /** A safe firing changes every place as the place-by-place description says; an unsafe one is noticed. */
  method FireOne(net: PetriNet, t: Transition, tokens: Marking, ghost ids: seq<Id>)
    returns (safe: bool, tokens': Marking, missing: nat, consumed: nat, produced: nat)
    requires Over(ids, tokens)
    ensures safe <==> SafeAt(net, tokens, t)
    ensures safe ==> tokens' == Levels(net, tokens, t)
    ensures safe ==> missing == Total(ids, Deficits(net, tokens, t))
    ensures safe ==> consumed == Total(ids, NeedMap(net, tokens, t))
    ensures safe ==> produced == Total(ids, GainMap(net, tokens, t))
  {
    hide Incoming, Outgoing, SourceWeight, TargetWeight, Weight, Heaviest, Peak, Need, Gain, SafeAt,
      Levels, Deficits, NeedMap, GainMap, Total;
    KeysAfter(net, tokens, t);
    var incoming := Incoming(net.arcs, tokens, t);
    IncomingNeeds(net, t, tokens);
    var topped, left;
    topped, missing := Enable(incoming, tokens, ids);
    ToppedToNeed(net, tokens, t, topped);
    safe, left, consumed := Consume(incoming, topped, ids);
    if !safe {
      return false, tokens, 0, 0, 0;
    }
    tokens', produced := Produce(Outgoing(net.arcs, t), left, ids);
    OutgoingGains(net, t);
    FiringTotals(net, t, ids, tokens, topped, left, tokens');
    FiringLevels(net, t, tokens, topped, left, tokens');
  }

  lemma FiringTotals(net: PetriNet, t: Transition, ids: seq<Id>, m: Marking, topped: Marking, left: Marking, out: Marking)
    requires Over(ids, m) && topped.Keys == left.Keys == out.Keys == m.Keys
    requires forall p | p in m :: topped[p] == Max(m[p], Need(net, p, t))
    requires forall p | p in m :: left[p] == topped[p] - Need(net, p, t)
    requires forall p | p in m :: out[p] == left[p] + Gain(net, p, t)
    ensures Total(ids, topped) == Total(ids, m) + Total(ids, Deficits(net, m, t))
    ensures Total(ids, topped) == Total(ids, left) + Total(ids, NeedMap(net, m, t))
    ensures Total(ids, out) == Total(ids, left) + Total(ids, GainMap(net, m, t))
  {
    hide Weight, Need, Gain, Total;
    TotalAdd(ids, m, Deficits(net, m, t), topped);
    TotalAdd(ids, left, NeedMap(net, m, t), topped);
    TotalAdd(ids, left, GainMap(net, m, t), out);
  }

  lemma FiringLevels(net: PetriNet, t: Transition, m: Marking, topped: Marking, left: Marking, out: Marking)
    requires topped.Keys == left.Keys == out.Keys == m.Keys
    requires forall p | p in m :: topped[p] == Max(m[p], Need(net, p, t))
    requires forall p | p in m :: left[p] == topped[p] - Need(net, p, t)
    requires forall p | p in m :: out[p] == left[p] + Gain(net, p, t)
    ensures out == Levels(net, m, t)
  {
    hide Weight, Need, Gain;
    forall p | p in m ensures out[p] == Level(net, p, m[p], t) {
      assert left[p] == topped[p] - Need(net, p, t);
    }
  }

  lemma OutgoingGains(net: PetriNet, t: Transition)
    ensures forall p :: TargetWeight(Outgoing(net.arcs, t), p) == Gain(net, p, t)
  {
    forall p ensures TargetWeight(Outgoing(net.arcs, t), p) == Gain(net, p, t) {
      OutgoingWeight(net.arcs, t, p);
    }
  }

  // ---------- a whole trace ----------

  lemma StepAtPlace(net: PetriNet, p: Id, level: nat, t: Transition, rest: seq<Transition>)
    ensures
      var ts, next := [t] + rest, Level(net, p, level, t);
      && Injected(net, p, level, ts) == Deficit(net, p, level, t) + Injected(net, p, next, rest)
      && Needs(net, p, ts) == Need(net, p, t) + Needs(net, p, rest)
      && Gains(net, p, ts) == Gain(net, p, t) + Gains(net, p, rest)
      && FinalLevel(net, p, level, ts) == FinalLevel(net, p, next, rest)
  {
    hide Weight;
    assert ([t] + rest)[1..] == rest;
  }

  /** Splitting off the first transition splits every total. */
  lemma StepTotals(net: PetriNet, ids: seq<Id>, m: Marking, t: Transition, rest: seq<Transition>)
    requires Over(ids, m)
    ensures
      var ts, next := [t] + rest, Levels(net, m, t);
      && Total(ids, InjectedMap(net, m, ts)) == Total(ids, Deficits(net, m, t)) + Total(ids, InjectedMap(net, next, rest))
      && Total(ids, NeedsMap(net, m, ts)) == Total(ids, NeedMap(net, m, t)) + Total(ids, NeedsMap(net, next, rest))
      && Total(ids, GainsMap(net, m, ts)) == Total(ids, GainMap(net, m, t)) + Total(ids, GainsMap(net, next, rest))
      && FinalLevels(net, m, ts) == FinalLevels(net, next, rest)
  {
    hide Weight, Need, Gain, Level, Deficit, Injected, Needs, Gains, FinalLevel, Total;
    var ts, next := [t] + rest, Levels(net, m, t);
    forall p, level
      ensures Injected(net, p, level, ts) == Deficit(net, p, level, t) + Injected(net, p, Level(net, p, level, t), rest)
      ensures Needs(net, p, ts) == Need(net, p, t) + Needs(net, p, rest)
      ensures Gains(net, p, ts) == Gain(net, p, t) + Gains(net, p, rest)
      ensures FinalLevel(net, p, level, ts) == FinalLevel(net, p, Level(net, p, level, t), rest)
    {
      StepAtPlace(net, p, level, t, rest);
    }
    TotalAdd(ids, Deficits(net, m, t), InjectedMap(net, next, rest), InjectedMap(net, m, ts));
    TotalAdd(ids, NeedMap(net, m, t), NeedsMap(net, next, rest), NeedsMap(net, m, ts));
    TotalAdd(ids, GainMap(net, m, t), GainsMap(net, next, rest), GainsMap(net, m, ts));
  }

  lemma NothingLeft(net: PetriNet, ids: seq<Id>, m: Marking)
    requires Over(ids, m)
    ensures Total(ids, InjectedMap(net, m, [])) == Total(ids, NeedsMap(net, m, [])) == Total(ids, GainsMap(net, m, [])) == 0
    ensures FinalLevels(net, m, []) == m
  {
    TotalZero(ids, InjectedMap(net, m, []));
    TotalZero(ids, NeedsMap(net, m, []));
    TotalZero(ids, GainsMap(net, m, []));
  }

  method InitialTokens(places: seq<Place>) returns (tokens: Marking)
    ensures tokens == InitialMarking(places)
  {
    tokens := map[];
    for i := 0 to |places|
      invariant tokens == InitialMarking(places[..i])
    {
      assert places[..i + 1][..i] == places[..i];
      tokens := tokens[places[i].id := places[i].initialTokens];
    }
    assert places[..|places|] == places;
  }

  method Remaining(places: seq<Place>, tokens: Marking) returns (remaining: nat)
    requires forall place | place in places :: place.id in tokens
    ensures remaining == Residual(places, tokens)
  {
    remaining := 0;
    for i := 0 to |places|
      invariant remaining == Residual(places[..i], tokens)
    {
      assert places[..i + 1][..i] == places[..i];
      remaining := remaining + AbsDiff(tokens[places[i].id], places[i].finalTokens);
    }
    assert places[..|places|] == places;
  }

  /** What is counted so far and what the transitions still to come will add make up the whole. */
  ghost predicate OnTrack(net: PetriNet, ids: seq<Id>, m: Marking, all: seq<Transition>, tokens: Marking,
                          rest: seq<Transition>, missing: nat, consumed: nat, produced: nat)
    requires Over(ids, m)
  {
    && Over(ids, tokens)
    && missing + Total(ids, InjectedMap(net, tokens, rest)) == Total(ids, InjectedMap(net, m, all))
    && consumed + Total(ids, NeedsMap(net, tokens, rest)) == Total(ids, NeedsMap(net, m, all))
    && produced + Total(ids, GainsMap(net, tokens, rest)) == Total(ids, GainsMap(net, m, all))
    && FinalLevels(net, tokens, rest) == FinalLevels(net, m, all)
    && (Safe(net, tokens, rest) <==> Safe(net, m, all))
  }

  /** Fires the next transition of the trace. */
  method Step(net: PetriNet, t: Transition, tokens: Marking, missing: nat, consumed: nat, produced: nat,
              ghost ids: seq<Id>, ghost m: Marking, ghost all: seq<Transition>, ghost rest: seq<Transition>)
    returns (safe: bool, tokens': Marking, missing': nat, consumed': nat, produced': nat)
    requires Over(ids, m)
    requires OnTrack(net, ids, m, all, tokens, [t] + rest, missing, consumed, produced)
    ensures safe ==> OnTrack(net, ids, m, all, tokens', rest, missing', consumed', produced')
    ensures !safe ==> !Safe(net, m, all)
  {
    hide SafeAt, Levels, Deficits, NeedMap, GainMap, InjectedMap, NeedsMap, GainsMap, FinalLevels, Total;
    StepTotals(net, ids, tokens, t, rest);
    SafeSplits(net, tokens, t, rest);
    KeysAfter(net, tokens, t);
    var dm, dc, dp;
    safe, tokens', dm, dc, dp := FireOne(net, t, tokens, ids);
    missing', consumed', produced' := missing + dm, consumed + dc, produced + dp;
  }

  lemma SafeSplits(net: PetriNet, m: Marking, t: Transition, rest: seq<Transition>)
    ensures Safe(net, m, [t] + rest) <==> SafeAt(net, m, t) && Safe(net, Levels(net, m, t), rest)
  {
    assert ([t] + rest)[1..] == rest;
  }

  lemma OnTrackAtEnd(net: PetriNet, ids: seq<Id>, m: Marking, all: seq<Transition>, tokens: Marking,
                     missing: nat, consumed: nat, produced: nat)
    requires Over(ids, m) && OnTrack(net, ids, m, all, tokens, [], missing, consumed, produced)
    ensures Safe(net, m, all)
    ensures tokens == FinalLevels(net, m, all) && missing == Total(ids, InjectedMap(net, m, all))
    ensures consumed == Total(ids, NeedsMap(net, m, all)) && produced == Total(ids, GainsMap(net, m, all))
  {
    NothingLeft(net, ids, tokens);
  }

  /** The replay of any trace on any net; nothing when the tokens of a place do not suffice for its arcs. */
  method ReplayTrace(net: PetriNet, trace: seq<string>) returns (r: Option<Replay>)
    ensures r.Some? <==> SafeTrace(net, trace)
    ensures r.Some? ==> r.value == ReplayOf(net, trace)
  {
    hide Fired, OnTrack, PlaceIds, InitialMarking, InjectedMap, NeedsMap, GainsMap, FinalLevels, Total, Safe;
    var tokens := InitialTokens(net.places);
    ghost var ids, m, all := PlaceIds(net.places), InitialMarking(net.places), Fired(net, trace);
    IdsAreKeys(net);
    OnTrackAtStart(net, ids, m, all);
    var missing: nat, consumed: nat, produced: nat, logMoves := 0, 0, 0, 0;
    assert trace[0..] == trace;
    for i := 0 to |trace|
      invariant OnTrack(net, ids, m, all, tokens, Fired(net, trace[i..]), missing, consumed, produced)
      invariant logMoves + |all| == i + |Fired(net, trace[i..])|
    {
      FiredSplits(net, trace, i);
      match FirstNamed(net.transitions, trace[i])
      case None =>
        logMoves := logMoves + 1;
      case Some(t) =>
        var safe;
        safe, tokens, missing, consumed, produced :=
          Step(net, t, tokens, missing, consumed, produced, ids, m, all, Fired(net, trace[i + 1..]));
        if !safe {
          return None;
        }
    }
    FiredNone(net, trace);
    OnTrackAtEnd(net, ids, m, all, tokens, missing, consumed, produced);
    KeysStay(net, m, all);
    var remaining := Remaining(net.places, tokens);
    r := Some(Replay(missing, remaining, consumed, produced, logMoves));
  }

  /** On a net where no event fires a transition with two such arcs every trace is replayed. */
  lemma SafeNetReplaysAll(net: PetriNet, trace: seq<string>)
    requires SafeNet(net)
    ensures SafeTrace(net, trace)
  {
    IdsAreKeys(net);
    FiredAreNamed(net, trace);
    SafeNetIsSafe(net, InitialMarking(net.places), Fired(net, trace));
  }

  lemma OnTrackAtStart(net: PetriNet, ids: seq<Id>, m: Marking, all: seq<Transition>)
    requires Over(ids, m)
    ensures OnTrack(net, ids, m, all, m, all, 0, 0, 0)
  {
  }

  lemma KeysStay(net: PetriNet, m: Marking, ts: seq<Transition>)
    ensures InjectedMap(net, m, ts).Keys == NeedsMap(net, m, ts).Keys == GainsMap(net, m, ts).Keys == m.Keys
    ensures FinalLevels(net, m, ts).Keys == m.Keys
  {
  }

  lemma KeysAfter(net: PetriNet, m: Marking, t: Transition)
    ensures Levels(net, m, t).Keys == Deficits(net, m, t).Keys == NeedMap(net, m, t).Keys == GainMap(net, m, t).Keys == m.Keys
  {
  }

  lemma FiredNone(net: PetriNet, trace: seq<string>)
    ensures Fired(net, trace[|trace|..]) == []
  {
  }

  lemma FiredSplits(net: PetriNet, trace: seq<string>, i: nat)
    requires i < |trace|
    ensures
      match FirstNamed(net.transitions, trace[i])
      case None => Fired(net, trace[i..]) == Fired(net, trace[i + 1..])
      case Some(t) => Fired(net, trace[i..]) == [t] + Fired(net, trace[i + 1..])
  {
    assert trace[i..][1..] == trace[i + 1..];
  }
}
