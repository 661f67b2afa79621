/** What the counters of a replay say about the token game on the net. */
module ReplayMeaning {
  import opened Basics
  import opened SetSums
  import opened PetriNets
  import opened ReplaySpec

  // ---------- the token game ----------

  /** The transition finds its tokens at every place, takes them and puts down others. */
  ghost predicate TokenStep(net: PetriNet, m: Marking, t: Transition, m': Marking) {
    m'.Keys == m.Keys && forall p | p in m ::
      Weight(net.arcs, p, t.id) <= m[p] && m'[p] == m[p] - Weight(net.arcs, p, t.id) + Weight(net.arcs, t.id, p)
  }

  ghost predicate Game(net: PetriNet, ts: seq<Transition>, ms: seq<Marking>) {
    |ms| == |ts| + 1 && forall k | 0 <= k < |ts| :: TokenStep(net, ms[k], ts[k], ms[k + 1])
  }

  lemma {:induction false} FiresHasGame(net: PetriNet, m: Marking, ts: seq<Transition>) returns (ms: seq<Marking>)
    requires Fires(net, m, ts)
    ensures Game(net, ts, ms) && ms[0] == m && ms[|ts|] == Reached(net, m, ts)
  {
    hide Weight, TokenStep;
    if ts == [] {
      ms := [m];
    } else {
      var next := Fire(net, m, ts[0]);
      FireIsStep(net, m, ts[0]);
      var others := FiresHasGame(net, next, ts[1..]);
      ms := [m] + others;
      forall k | 0 <= k < |ts| ensures TokenStep(net, ms[k], ts[k], ms[k + 1]) {
        if k > 0 {
          assert TokenStep(net, others[k - 1], ts[1..][k - 1], others[k - 1 + 1]);
        }
      }
    }
  }

  lemma FireIsStep(net: PetriNet, m: Marking, t: Transition)
    requires Enabled(net, m, t)
    ensures TokenStep(net, m, t, Fire(net, m, t))
  {
    hide Weight;
  }

  lemma StepIsFire(net: PetriNet, m: Marking, t: Transition, m': Marking)
    requires TokenStep(net, m, t, m')
    ensures Enabled(net, m, t) && m' == Fire(net, m, t)
  {
    hide Weight;
  }

  lemma {:induction false} GameFires(net: PetriNet, ts: seq<Transition>, ms: seq<Marking>)
    requires Game(net, ts, ms)
    ensures Fires(net, ms[0], ts) && Reached(net, ms[0], ts) == ms[|ts|]
  {
    hide Weight, TokenStep, Enabled;
    if ts != [] {
      assert TokenStep(net, ms[0], ts[0], ms[0 + 1]);
      StepIsFire(net, ms[0], ts[0], ms[1]);
      forall k | 0 <= k < |ts[1..]| ensures TokenStep(net, ms[1..][k], ts[1..][k], ms[1..][k + 1]) {
        assert TokenStep(net, ms[k + 1], ts[k + 1], ms[k + 1 + 1]);
      }
      GameFires(net, ts[1..], ms[1..]);
    }
  }

  // ---------- which traces are spotless ----------

  lemma {:induction false} FiredInOrder(net: PetriNet, trace: seq<string>)
    requires forall a | a in trace :: FirstNamed(net.transitions, a).Some?
    ensures |Fired(net, trace)| == |trace|
    ensures forall k | 0 <= k < |trace| :: FirstNamed(net.transitions, trace[k]) == Some(Fired(net, trace)[k])
  {
    if trace != [] {
      FiredInOrder(net, trace[1..]);
      assert forall k | 1 <= k < |trace| :: trace[k] == trace[1..][k - 1];
    }
  }

  /** The firings of a trace are those of its parts, in order; one event fires its first transition, or none. */
  lemma {:induction false} FiredIsAdditive(net: PetriNet, a: seq<string>, b: seq<string>, x: string)
    ensures Fired(net, a + b) == Fired(net, a) + Fired(net, b)
    ensures Fired(net, [x]) ==
            match FirstNamed(net.transitions, x)
            case None => []
            case Some(t) => [t]
  {
    hide FirstNamed;
    assert [x][1..] == [];
    if a == [] {
      assert a + b == b;
    } else {
      FiredIsAdditive(net, a[1..], b, x);
      assert (a + b)[1..] == a[1..] + b;
    }
  }

  /**
   * No event passed over, nothing missing and nothing remaining: exactly when the first transitions with the labels of
   * the events play the token game from the initial tokens to the final ones.
   */
  lemma FitsIff(net: PetriNet, trace: seq<string>, m: Marking)
    requires m.Keys == set place | place in net.places :: place.id
    requires forall i | 0 <= i < |net.places| && (forall j | i < j < |net.places| :: net.places[j].id != net.places[i].id) ::
      m[net.places[i].id] == net.places[i].initialTokens
    ensures
      var r := ReplayOf(net, trace);
      (r.logMoves == 0 && r.missing == 0 && r.remaining == 0) <==>
      exists ts: seq<Transition>, ms: seq<Marking> ::
        && |ts| == |trace| && |ms| == |trace| + 1 && ms[0] == m
        && (forall k | 0 <= k < |trace| :: FirstNamed(net.transitions, trace[k]) == Some(ts[k]))
        && (forall k | 0 <= k < |trace| :: TokenStep(net, ms[k], ts[k], ms[k + 1]))
        && forall place | place in net.places :: place.id in ms[|trace|] && ms[|trace|][place.id] == place.finalTokens
  {
    hide Fires, Reached, Fired, Weight, TokenStep, ReplayOf, InitialMarking;
    SpotlessIff(net, trace, m);
    var r := ReplayOf(net, trace);
    if r.logMoves == 0 && r.missing == 0 && r.remaining == 0 {
      var ts := Fired(net, trace);
      FiredInOrder(net, trace);
      var ms := FiresHasGame(net, m, ts);
    }
    forall ts: seq<Transition>, ms: seq<Marking> |
      && |ts| == |trace| && |ms| == |trace| + 1 && ms[0] == m
      && (forall k | 0 <= k < |trace| :: FirstNamed(net.transitions, trace[k]) == Some(ts[k]))
      && (forall k | 0 <= k < |trace| :: TokenStep(net, ms[k], ts[k], ms[k + 1]))
      && (forall place | place in net.places :: place.id in ms[|trace|] && ms[|trace|][place.id] == place.finalTokens)
      ensures r.logMoves == 0 && r.missing == 0 && r.remaining == 0
    {
      FiredInOrder(net, trace);
      assert ts == Fired(net, trace);
      GameFires(net, ts, ms);
    }
  }

  // ---------- what is counted ----------

  lemma {:induction false} TotalIsSum(ids: seq<Id>, m: Marking, f: Id -> int)
    requires Distinct(ids) && forall p | p in ids :: p in m && m[p] == f(p)
    ensures Total(ids, m) == SetSum((set p | p in ids), f)
  {
    var s := set p | p in ids;
    if ids != [] {
      TotalIsSum(ids[1..], m, f);
      SetSumRemove(s, f, ids[0]);
      assert s - {ids[0]} == set p | p in ids[1..];
    }
  }

  lemma {:induction false} NeedsAre(net: PetriNet, p: Id, ts: seq<Transition>)
    ensures Needs(net, p, ts) == SeqSum(seq(|ts|, k requires 0 <= k < |ts| => Weight(net.arcs, p, ts[k].id)))
    ensures Gains(net, p, ts) == SeqSum(seq(|ts|, k requires 0 <= k < |ts| => Weight(net.arcs, ts[k].id, p)))
  {
    hide Weight;
    var needs := seq(|ts|, k requires 0 <= k < |ts| => Weight(net.arcs, p, ts[k].id));
    var gains := seq(|ts|, k requires 0 <= k < |ts| => Weight(net.arcs, ts[k].id, p));
    if ts != [] {
      var rest := ts[1..];
      NeedsAre(net, p, rest);
      assert needs == [needs[0]] + seq(|rest|, k requires 0 <= k < |rest| => Weight(net.arcs, p, rest[k].id));
      assert gains == [gains[0]] + seq(|rest|, k requires 0 <= k < |rest| => Weight(net.arcs, rest[k].id, p));
      SeqSumIsAdditive([needs[0]], needs[1..], needs[0]);
      SeqSumIsAdditive([gains[0]], gains[1..], gains[0]);
    }
  }

  lemma PlacesAre(net: PetriNet)
    ensures (set p | p in PlaceIds(net.places)) == set place | place in net.places :: place.id
    ensures InitialMarking(net.places).Keys == set place | place in net.places :: place.id
  {
  }

  /** Consumed are the weights of all arcs from the places to the transitions fired. */
  lemma ConsumedIs(net: PetriNet, trace: seq<string>)
    ensures
      var ts := Fired(net, trace);
      ReplayOf(net, trace).consumed == SetSum(set place | place in net.places :: place.id,
        p => SeqSum(seq(|ts|, k requires 0 <= k < |ts| => Weight(net.arcs, p, ts[k].id))))
  {
    hide Weight, Needs, PlaceIds, InitialMarking;
    var m, ts, list := InitialMarking(net.places), Fired(net, trace), PlaceIds(net.places);
    PlacesAre(net);
    forall p ensures Needs(net, p, ts) == SeqSum(seq(|ts|, k requires 0 <= k < |ts| => Weight(net.arcs, p, ts[k].id))) {
      NeedsAre(net, p, ts);
    }
    TotalIsSum(list, NeedsMap(net, m, ts), p => SeqSum(seq(|ts|, k requires 0 <= k < |ts| => Weight(net.arcs, p, ts[k].id))));
  }

  /** Produced are the weights of all arcs from the transitions fired to the places. */
  lemma ProducedIs(net: PetriNet, trace: seq<string>)
    ensures
      var ts := Fired(net, trace);
      ReplayOf(net, trace).produced == SetSum(set place | place in net.places :: place.id,
        p => SeqSum(seq(|ts|, k requires 0 <= k < |ts| => Weight(net.arcs, ts[k].id, p))))
  {
    hide Weight, Gains, PlaceIds, InitialMarking;
    var m, ts, list := InitialMarking(net.places), Fired(net, trace), PlaceIds(net.places);
    PlacesAre(net);
    forall p ensures Gains(net, p, ts) == SeqSum(seq(|ts|, k requires 0 <= k < |ts| => Weight(net.arcs, ts[k].id, p))) {
      NeedsAre(net, p, ts);
    }
    TotalIsSum(list, GainsMap(net, m, ts), p => SeqSum(seq(|ts|, k requires 0 <= k < |ts| => Weight(net.arcs, ts[k].id, p))));
  }

  /** What remains is, over all entries of the place list, how far the tokens are from those that the entry ends with. */
  lemma {:induction false} ResidualIs(places: seq<Place>, m: Marking)
    requires forall place | place in places :: place.id in m
    ensures Residual(places, m) == SeqSum(seq(|places|, i requires 0 <= i < |places| =>
      if m[places[i].id] <= places[i].finalTokens then places[i].finalTokens - m[places[i].id]
      else m[places[i].id] - places[i].finalTokens))
  {
    var all := seq(|places|, i requires 0 <= i < |places| =>
      if m[places[i].id] <= places[i].finalTokens then places[i].finalTokens - m[places[i].id]
      else m[places[i].id] - places[i].finalTokens);
    if places != [] {
      var init := places[..|places| - 1];
      ResidualIs(init, m);
      assert all[..|all| - 1] == seq(|init|, i requires 0 <= i < |init| =>
        if m[init[i].id] <= init[i].finalTokens then init[i].finalTokens - m[init[i].id]
        else m[init[i].id] - init[i].finalTokens);
    }
  }

  /** Log moves are the events whose activity no transition has for a label. */
  lemma {:induction false} LogMovesAre(net: PetriNet, trace: seq<string>)
    ensures ReplayOf(net, trace).logMoves == SeqSum(seq(|trace|, i requires 0 <= i < |trace| =>
      if exists t :: t in net.transitions && t.name == Some(trace[i]) then 0 else 1))
  {
    var all := seq(|trace|, i requires 0 <= i < |trace| =>
      if exists t :: t in net.transitions && t.name == Some(trace[i]) then 0 else 1);
    if trace != [] {
      var rest := trace[1..];
      LogMovesAre(net, rest);
      var others := seq(|rest|, i requires 0 <= i < |rest| =>
        if exists t :: t in net.transitions && t.name == Some(rest[i]) then 0 else 1);
      assert all == [all[0]] + others;
      SeqSumIsAdditive([all[0]], others, all[0]);
    }
  }
}
