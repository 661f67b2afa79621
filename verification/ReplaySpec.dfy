/** Token replay described place by place: what each place lacks, gives and gets over a whole trace. */
module ReplaySpec {
  import opened Basics
  import opened PetriNets

  datatype Replay = Replay(missing: nat, remaining: nat, consumed: nat, produced: nat, logMoves: nat)

  // ---------- which transitions a trace fires ----------

  function FirstNamed(transitions: seq<Transition>, activity: string): (first: Option<Transition>)
    ensures first.None? ==> forall i | 0 <= i < |transitions| :: transitions[i].name != Some(activity)
    ensures first.Some? ==>
      exists i :: 0 <= i < |transitions| && transitions[i] == first.value && transitions[i].name == Some(activity)
                  && forall j | 0 <= j < i :: transitions[j].name != Some(activity)
  {
    if transitions == [] then None
    else if transitions[0].name == Some(activity) then Some(transitions[0])
    else FirstNamed(transitions[1..], activity)
  }

  function Fired(net: PetriNet, trace: seq<string>): (ts: seq<Transition>)
    ensures |ts| <= |trace|
  {
    if trace == [] then []
    else
      match FirstNamed(net.transitions, trace[0])
      case None => Fired(net, trace[1..])
      case Some(t) => [t] + Fired(net, trace[1..])
  }

  lemma {:induction false} FiredAll(net: PetriNet, trace: seq<string>)
    ensures |Fired(net, trace)| == |trace| <==> forall a | a in trace :: FirstNamed(net.transitions, a).Some?
  {
    if trace != [] {
      FiredAll(net, trace[1..]);
      assert trace[0] in trace && forall a | a in trace[1..] :: a in trace;
      assert forall a | a in trace :: a == trace[0] || a in trace[1..];
    }
  }

  // ---------- one place ----------

  /** The tokens of place `p` after a firing whose shortfall, if any, is made up first. */
  function Level(net: PetriNet, p: Id, level: nat, t: Transition): nat {
    Max(level, Need(net, p, t)) - Need(net, p, t) + Gain(net, p, t)
  }

  function FinalLevel(net: PetriNet, p: Id, level: nat, ts: seq<Transition>): nat
    decreases ts
  {
    if ts == [] then level else FinalLevel(net, p, Level(net, p, level, ts[0]), ts[1..])
  }

  function Deficit(net: PetriNet, p: Id, level: nat, t: Transition): nat {
    Max(0, Need(net, p, t) - level)
  }

  /** All tokens that have to be made up at place `p`. */
  function Injected(net: PetriNet, p: Id, level: nat, ts: seq<Transition>): nat
    decreases ts
  {
    if ts == [] then 0
    else Deficit(net, p, level, ts[0]) + Injected(net, p, Level(net, p, level, ts[0]), ts[1..])
  }

  function Needs(net: PetriNet, p: Id, ts: seq<Transition>): nat {
    if ts == [] then 0 else Need(net, p, ts[0]) + Needs(net, p, ts[1..])
  }

  function Gains(net: PetriNet, p: Id, ts: seq<Transition>): nat {
    if ts == [] then 0 else Gain(net, p, ts[0]) + Gains(net, p, ts[1..])
  }

  // ---------- all places ----------

  function Levels(net: PetriNet, m: Marking, t: Transition): Marking {
    map p | p in m :: Level(net, p, m[p], t)
  }

  function Deficits(net: PetriNet, m: Marking, t: Transition): Marking {
    map p | p in m :: Deficit(net, p, m[p], t)
  }

  function NeedMap(net: PetriNet, m: Marking, t: Transition): Marking {
    map p | p in m :: Need(net, p, t)
  }

  function GainMap(net: PetriNet, m: Marking, t: Transition): Marking {
    map p | p in m :: Gain(net, p, t)
  }

  function FinalLevels(net: PetriNet, m: Marking, ts: seq<Transition>): Marking {
    map p | p in m :: FinalLevel(net, p, m[p], ts)
  }

  function InjectedMap(net: PetriNet, m: Marking, ts: seq<Transition>): Marking {
    map p | p in m :: Injected(net, p, m[p], ts)
  }

  function NeedsMap(net: PetriNet, m: Marking, ts: seq<Transition>): Marking {
    map p | p in m :: Needs(net, p, ts)
  }

  function GainsMap(net: PetriNet, m: Marking, ts: seq<Transition>): Marking {
    map p | p in m :: Gains(net, p, ts)
  }

  /** The distance of the marking from the one that the places should end with, place by place. */
  function Residual(places: seq<Place>, m: Marking): nat
    requires forall place | place in places :: place.id in m
  {
    if places == [] then 0
    else
      var last := places[|places| - 1];
      Residual(places[..|places| - 1], m) + AbsDiff(m[last.id], last.finalTokens)
  }

  /** The counters of a replay. */
  function ReplayOf(net: PetriNet, trace: seq<string>): Replay {
    var ids, m, ts := PlaceIds(net.places), InitialMarking(net.places), Fired(net, trace);
    Replay(
      Total(ids, InjectedMap(net, m, ts)),
      Residual(net.places, FinalLevels(net, m, ts)),
      Total(ids, NeedsMap(net, m, ts)),
      Total(ids, GainsMap(net, m, ts)),
      |trace| - |ts|)
  }

  // ---------- least top-up ----------

  /** The firing sequence, seen from place `p` alone, never asks for more tokens than are there. */
  predicate Survives(net: PetriNet, p: Id, level: nat, ts: seq<Transition>)
    decreases ts
  {
    ts == [] || (level >= Need(net, p, ts[0])
                 && Survives(net, p, level - Need(net, p, ts[0]) + Gain(net, p, ts[0]), ts[1..]))
  }

  /** The fewest tokens with which the firing sequence survives at `p`. */
  function LeastLevel(net: PetriNet, p: Id, ts: seq<Transition>): nat {
    if ts == [] then 0
    else Max(Need(net, p, ts[0]), LeastLevel(net, p, ts[1..]) + Need(net, p, ts[0]) - Gain(net, p, ts[0]))
  }

  lemma {:induction false} SurvivesFromLeastLevel(net: PetriNet, p: Id, level: nat, ts: seq<Transition>)
    ensures Survives(net, p, level, ts) <==> level >= LeastLevel(net, p, ts)
    decreases ts
  {
    if ts != [] && level >= Need(net, p, ts[0]) {
      SurvivesFromLeastLevel(net, p, level - Need(net, p, ts[0]) + Gain(net, p, ts[0]), ts[1..]);
    }
  }

  lemma {:induction false} InjectedIsShortfall(net: PetriNet, p: Id, level: nat, ts: seq<Transition>)
    ensures Injected(net, p, level, ts) == Max(0, LeastLevel(net, p, ts) - level)
    decreases ts
  {
    if ts != [] {
      InjectedIsShortfall(net, p, Level(net, p, level, ts[0]), ts[1..]);
    }
  }

  /** Exactly the extra tokens that replay injects, or more, let the sequence survive at `p`. */
  lemma LeastTopUp(net: PetriNet, p: Id, level: nat, extra: nat, ts: seq<Transition>)
    ensures Survives(net, p, level + extra, ts) <==> extra >= Injected(net, p, level, ts)
  {
    SurvivesFromLeastLevel(net, p, level + extra, ts);
    InjectedIsShortfall(net, p, level, ts);
  }

  /** Tokens at one place are neither created nor lost. */
  lemma {:induction false} PlaceBalance(net: PetriNet, p: Id, level: nat, ts: seq<Transition>)
    ensures FinalLevel(net, p, level, ts) + Needs(net, p, ts) == level + Injected(net, p, level, ts) + Gains(net, p, ts)
    ensures Injected(net, p, level, ts) <= Needs(net, p, ts)
    decreases ts
  {
    if ts != [] {
      PlaceBalance(net, p, Level(net, p, level, ts[0]), ts[1..]);
    }
  }

  // ---------- the whole net ----------

  lemma {:induction false} FiresPlaceByPlace(net: PetriNet, m: Marking, ts: seq<Transition>)
    ensures Fires(net, m, ts) <==> forall p | p in m :: Survives(net, p, m[p], ts)
  {
    if ts != [] && Enabled(net, m, ts[0]) {
      var next := Fire(net, m, ts[0]);
      FiresPlaceByPlace(net, next, ts[1..]);
      forall p | p in m ensures Survives(net, p, m[p], ts) <==> Survives(net, p, next[p], ts[1..]) {
      }
    }
  }

  lemma {:induction false} ReachedPlaceByPlace(net: PetriNet, m: Marking, ts: seq<Transition>)
    requires Fires(net, m, ts)
    ensures Reached(net, m, ts) == FinalLevels(net, m, ts)
  {
    hide Weight, Need, Gain;
    if ts != [] {
      var next := Fire(net, m, ts[0]);
      ReachedPlaceByPlace(net, next, ts[1..]);
      forall p | p in m ensures FinalLevel(net, p, m[p], ts) == FinalLevel(net, p, next[p], ts[1..]) {
        assert m[p] >= Need(net, p, ts[0]);
      }
    }
  }

  ghost function Plus(a: Marking, b: Marking): Marking {
    map p | p in a && p in b :: a[p] + b[p]
  }

  lemma LevelsAgree(net: PetriNet, p: Id, level: nat, ts: seq<Transition>)
    ensures FinalLevel(net, p, level + Injected(net, p, level, ts), ts) == FinalLevel(net, p, level, ts)
  {
    LeastTopUp(net, p, level, Injected(net, p, level, ts), ts);
    PlaceBalance(net, p, level, ts);
    PlaceBalance(net, p, level + Injected(net, p, level, ts), ts);
    LeastTopUp(net, p, level + Injected(net, p, level, ts), 0, ts);
  }

  /** Adding the injected tokens to the marking beforehand makes the sequence fire, and ends where the replay ends. */
  lemma InjectionSuffices(net: PetriNet, m: Marking, ts: seq<Transition>)
    ensures Fires(net, Plus(m, InjectedMap(net, m, ts)), ts)
    ensures Reached(net, Plus(m, InjectedMap(net, m, ts)), ts) == FinalLevels(net, m, ts)
  {
    hide Fires, Reached, Weight, FinalLevel, Injected, Survives;
    var full := Plus(m, InjectedMap(net, m, ts));
    forall p | p in full ensures Survives(net, p, full[p], ts) {
      LeastTopUp(net, p, m[p], Injected(net, p, m[p], ts), ts);
    }
    FiresPlaceByPlace(net, full, ts);
    ReachedPlaceByPlace(net, full, ts);
    forall p | p in m ensures FinalLevel(net, p, full[p], ts) == FinalLevel(net, p, m[p], ts) {
      LevelsAgree(net, p, m[p], ts);
    }
  }

  /** `missing` is the smallest total addition to the initial marking that makes the trace's transitions fire. */
  lemma MissingIsLeast(net: PetriNet, trace: seq<string>, m: Marking, extra: Marking)
    requires m.Keys == set place | place in net.places :: place.id
    requires forall i | 0 <= i < |net.places| && (forall j | i < j < |net.places| :: net.places[j].id != net.places[i].id) ::
      m[net.places[i].id] == net.places[i].initialTokens
    requires extra.Keys == m.Keys && Fires(net, Plus(m, extra), Fired(net, trace))
    ensures ReplayOf(net, trace).missing <= Total(PlaceIds(net.places), extra)
  {
    hide Fires, Fired, InitialMarking, Weight, Total, Injected, Survives, PlaceIds;
    StartsAt(net.places, m);
    IdsAreKeys(net);
    var ids, ts := PlaceIds(net.places), Fired(net, trace);
    FiresPlaceByPlace(net, Plus(m, extra), ts);
    forall p | p in ids ensures Injected(net, p, m[p], ts) <= extra[p] {
      assert Plus(m, extra)[p] == m[p] + extra[p];
      LeastTopUp(net, p, m[p], extra[p], ts);
    }
    TotalMonotone(ids, InjectedMap(net, m, ts), extra);
  }

  /** As many tokens as are missing can be added to make the transitions fire. */
  lemma MissingSuffices(net: PetriNet, trace: seq<string>, m: Marking) returns (extra: Marking)
    requires m.Keys == set place | place in net.places :: place.id
    requires forall i | 0 <= i < |net.places| && (forall j | i < j < |net.places| :: net.places[j].id != net.places[i].id) ::
      m[net.places[i].id] == net.places[i].initialTokens
    ensures extra.Keys == m.Keys && Fires(net, Plus(m, extra), Fired(net, trace))
    ensures forall p :: p in PlaceIds(net.places) <==> p in m
    ensures Total(PlaceIds(net.places), extra) == ReplayOf(net, trace).missing
  {
    StartsAt(net.places, m);
    IdsAreKeys(net);
    extra := InjectedMap(net, m, Fired(net, trace));
    InjectionSuffices(net, m, Fired(net, trace));
  }

  lemma IdsAreKeys(net: PetriNet)
    ensures forall p :: p in PlaceIds(net.places) <==> p in InitialMarking(net.places)
  {
  }

  /** Nothing is missing exactly when the transitions fire from `m`. */
  lemma NothingMissingIff(net: PetriNet, ids: seq<Id>, m: Marking, ts: seq<Transition>)
    requires forall p :: p in ids <==> p in m
    ensures Total(ids, InjectedMap(net, m, ts)) == 0 <==> Fires(net, m, ts)
  {
    hide Fires, Weight;
    TotalZero(ids, InjectedMap(net, m, ts));
    FiresPlaceByPlace(net, m, ts);
    forall p | p in m ensures Survives(net, p, m[p], ts) <==> Injected(net, p, m[p], ts) == 0 {
      LeastTopUp(net, p, m[p], 0, ts);
    }
  }

  lemma {:induction false} NothingRemainsIff(places: seq<Place>, m: Marking)
    requires forall place | place in places :: place.id in m
    ensures Residual(places, m) == 0 <==> IsFinal(places, m)
  {
    if places != [] {
      var init, last := places[..|places| - 1], places[|places| - 1];
      NothingRemainsIff(init, m);
      assert places == init + [last];
    }
  }

  /** A spotless replay is exactly a trace of known activities that fires from the initial to the final marking. */
  lemma SpotlessIff(net: PetriNet, trace: seq<string>, m: Marking)
    requires m.Keys == set place | place in net.places :: place.id
    requires forall i | 0 <= i < |net.places| && (forall j | i < j < |net.places| :: net.places[j].id != net.places[i].id) ::
      m[net.places[i].id] == net.places[i].initialTokens
    ensures
      var r, ts := ReplayOf(net, trace), Fired(net, trace);
      (r.logMoves == r.missing == r.remaining == 0) <==>
      (forall a | a in trace :: FirstNamed(net.transitions, a).Some?)
      && Fires(net, m, ts) && IsFinal(net.places, Reached(net, m, ts))
  {
    hide Fires, Reached, Fired, Weight, IsFinal;
    StartsAt(net.places, m);
    var ids, ts := PlaceIds(net.places), Fired(net, trace);
    IdsAreKeys(net);
    FiredAll(net, trace);
    NothingMissingIff(net, ids, m, ts);
    NothingRemainsIff(net.places, FinalLevels(net, m, ts));
    if Fires(net, m, ts) {
      ReachedPlaceByPlace(net, m, ts);
    }
  }

  lemma ReplayBounds(net: PetriNet, trace: seq<string>)
    ensures ReplayOf(net, trace).missing <= ReplayOf(net, trace).consumed
    ensures ReplayOf(net, trace).logMoves <= |trace|
  {
    var ids, m, ts := PlaceIds(net.places), InitialMarking(net.places), Fired(net, trace);
    forall p | p in m ensures Injected(net, p, m[p], ts) <= Needs(net, p, ts) {
      PlaceBalance(net, p, m[p], ts);
    }
    TotalMonotone(ids, InjectedMap(net, m, ts), NeedsMap(net, m, ts));
  }

  /** Conservation over a whole trace; consumption covers all that was made up. */
  lemma ReplayBalance(net: PetriNet, trace: seq<string>, m: Marking)
    requires m.Keys == set place | place in net.places :: place.id
    requires forall i | 0 <= i < |net.places| && (forall j | i < j < |net.places| :: net.places[j].id != net.places[i].id) ::
      m[net.places[i].id] == net.places[i].initialTokens
    ensures forall p :: p in PlaceIds(net.places) <==> p in m
    ensures
      var ids, r := PlaceIds(net.places), ReplayOf(net, trace);
      Total(ids, FinalLevels(net, m, Fired(net, trace))) + r.consumed == Total(ids, m) + r.missing + r.produced
    ensures ReplayOf(net, trace).missing <= ReplayOf(net, trace).consumed
    ensures ReplayOf(net, trace).logMoves <= |trace|
  {
    StartsAt(net.places, m);
    IdsAreKeys(net);
    ReplayBounds(net, trace);
    var ids, ts := PlaceIds(net.places), Fired(net, trace);
    forall p | p in m
      ensures FinalLevel(net, p, m[p], ts) + Needs(net, p, ts) == m[p] + Injected(net, p, m[p], ts) + Gains(net, p, ts)
    {
      PlaceBalance(net, p, m[p], ts);
    }
    var out := Plus(FinalLevels(net, m, ts), NeedsMap(net, m, ts));
    var sum := Plus(m, InjectedMap(net, m, ts));
    TotalAdd(ids, FinalLevels(net, m, ts), NeedsMap(net, m, ts), out);
    TotalAdd(ids, m, InjectedMap(net, m, ts), sum);
    TotalAdd(ids, sum, GainsMap(net, m, ts), out);
  }

  // ---------- when the subtraction of consumed tokens is safe ----------

  /**
   * Top-up looks at one arc at a time, so it raises a place to the heaviest of its arcs; all of them then take their
   * tokens. Whatever the place held, this has to be enough.
   */
  ghost predicate SafeAt(net: PetriNet, m: Marking, t: Transition) {
    forall p | p in m :: Need(net, p, t) <= Max(m[p], Peak(net.arcs, p, t.id))
  }

  /** No firing of the sequence takes more tokens from a place than it holds after the top-up. */
  ghost predicate Safe(net: PetriNet, m: Marking, ts: seq<Transition>) {
    ts == [] || (SafeAt(net, m, ts[0]) && Safe(net, Levels(net, m, ts[0]), ts[1..]))
  }

  ghost predicate SafeTrace(net: PetriNet, trace: seq<string>) {
    Safe(net, InitialMarking(net.places), Fired(net, trace))
  }

  /** Of the arcs from a place to a transition at most one takes tokens. */
  ghost predicate OneArcAtMost(arcs: seq<Arc>, source: Id, target: Id) {
    forall i, j | 0 <= i < j < |arcs| && Joins(arcs[i], source, target) && Joins(arcs[j], source, target) ::
      arcs[i].weight == 0 || arcs[j].weight == 0
  }

  predicate Joins(a: Arc, source: Id, target: Id) {
    a.source == source && a.target == target
  }

  lemma {:induction false} PeakZero(arcs: seq<Arc>, p: Id, t: Id)
    ensures Peak(arcs, p, t) <= Weight(arcs, p, t)
    ensures Weight(arcs, p, t) == 0 <==> forall i | 0 <= i < |arcs| && Joins(arcs[i], p, t) :: arcs[i].weight == 0
    ensures Weight(arcs, p, t) > 0 ==> Peak(arcs, p, t) > 0
  {
    if arcs != [] {
      PeakZero(arcs[..|arcs| - 1], p, t);
    }
  }

  lemma OneArcAtMostSplits(arcs: seq<Arc>, p: Id, t: Id)
    requires arcs != []
    ensures
      var init, last := arcs[..|arcs| - 1], arcs[|arcs| - 1];
      OneArcAtMost(arcs, p, t) <==> OneArcAtMost(init, p, t) && (Joins(last, p, t) && last.weight > 0 ==> Weight(init, p, t) == 0)
  {
    hide Weight;
    var init, k := arcs[..|arcs| - 1], |arcs| - 1;
    PeakZero(init, p, t);
    assert forall i | 0 <= i < k :: init[i] == arcs[i];
  }

  lemma {:induction false} PeakIsAllIff(arcs: seq<Arc>, p: Id, t: Id)
    ensures Peak(arcs, p, t) == Weight(arcs, p, t) <==> OneArcAtMost(arcs, p, t)
  {
    if arcs != [] {
      hide OneArcAtMost;
      var init := arcs[..|arcs| - 1];
      PeakIsAllIff(init, p, t);
      PeakZero(init, p, t);
      OneArcAtMostSplits(arcs, p, t);
    }
  }

  /** The transition is the first with its label, so that some event fires it. */
  ghost predicate Named(net: PetriNet, t: Transition) {
    exists a :: FirstNamed(net.transitions, a) == Some(t)
  }

  ghost predicate SafeNet(net: PetriNet) {
    forall t, p | Named(net, t) && p in PlaceIds(net.places) :: OneArcAtMost(net.arcs, p, t.id)
  }

  lemma {:induction false} FiredAreNamed(net: PetriNet, trace: seq<string>)
    ensures forall t | t in Fired(net, trace) :: Named(net, t)
  {
    if trace != [] {
      FiredAreNamed(net, trace[1..]);
    }
  }

  lemma {:induction false} SafeNetIsSafe(net: PetriNet, m: Marking, ts: seq<Transition>)
    requires SafeNet(net) && forall t | t in ts :: Named(net, t)
    requires forall p | p in m :: p in PlaceIds(net.places)
    ensures Safe(net, m, ts)
  {
    hide OneArcAtMost, PlaceIds, Named;
    if ts != [] {
      forall p | p in m ensures Need(net, p, ts[0]) <= Max(m[p], Peak(net.arcs, p, ts[0].id)) {
        PeakIsAllIff(net.arcs, p, ts[0].id);
      }
      SafeNetIsSafe(net, Levels(net, m, ts[0]), ts[1..]);
    }
  }

  /**
   * The subtraction is safe for all initial tokens and all traces exactly when no place has two arcs that both take
   * tokens to one transition that an event can fire.
   */
  lemma SafeForAllTokensIff(net: PetriNet)
    ensures (forall m: Marking, trace | m.Keys == InitialMarking(net.places).Keys :: Safe(net, m, Fired(net, trace)))
            <==> SafeNet(net)
  {
    hide OneArcAtMost, PlaceIds, InitialMarking, Fired;
    IdsAreKeys(net);
    if SafeNet(net) {
      forall m: Marking, trace | m.Keys == InitialMarking(net.places).Keys ensures Safe(net, m, Fired(net, trace)) {
        FiredAreNamed(net, trace);
        SafeNetIsSafe(net, m, Fired(net, trace));
      }
    } else {
      var t, p :| Named(net, t) && p in PlaceIds(net.places) && !OneArcAtMost(net.arcs, p, t.id);
      var a :| FirstNamed(net.transitions, a) == Some(t);
      var m: Marking := map q | q in InitialMarking(net.places) :: 0;
      FiredByOne(net, a);
      PeakIsAllIff(net.arcs, p, t.id);
      PeakZero(net.arcs, p, t.id);
      assert p in m && m[p] == 0 && !SafeAt(net, m, t);
      assert Fired(net, [a])[0] == t && !Safe(net, m, Fired(net, [a]));
    }
  }

  lemma FiredByOne(net: PetriNet, a: string)
    requires FirstNamed(net.transitions, a).Some?
    ensures Fired(net, [a]) == [FirstNamed(net.transitions, a).value]
  {
    assert [a][1..] == [];
  }

  /** A transition without a label is never fired; two arcs into it do no harm. */
  const SILENT: PetriNet :=
    PetriNet([Place("p", 0, 0)], [Transition("t", None)], [Arc("p", "t", 1), Arc("p", "t", 2)])

  lemma SilentArcsAreSafe()
    ensures SafeNet(SILENT) && !OneArcAtMost(SILENT.arcs, "p", "t")
  {
    forall a ensures FirstNamed(SILENT.transitions, a) == None {
      assert FirstNamed(SILENT.transitions[1..], a) == None;
    }
    assert Joins(SILENT.arcs[0], "p", "t") && Joins(SILENT.arcs[1], "p", "t");
  }

  /** An empty place with two arcs to the transition "t". */
  const TWO_ARCS: PetriNet :=
    PetriNet([Place("p", 0, 0)], [Transition("t", Some("a"))], [Arc("p", "t", 1), Arc("p", "t", 2)])

  /** One event is enough: the place is raised to two tokens, of which three are taken. */
  lemma TwoArcsAreUnsafe()
    ensures !SafeTrace(TWO_ARCS, ["a"])
  {
    var net, t, first := TWO_ARCS, Transition("t", Some("a")), [Arc("p", "t", 1)];
    assert Fired(net, ["a"]) == [t];
    assert net.arcs[..1] == first && first[..0] == [];
    assert Weight([], "p", "t") == Peak([], "p", "t") == 0;
    assert Weight(first, "p", "t") == 1 && Peak(first, "p", "t") == 1;
    assert Weight(net.arcs, "p", "t") == 3 && Peak(net.arcs, "p", "t") == 2;
    assert net.places[..0] == [] && InitialMarking(net.places) == map["p" := 0];
    assert !SafeAt(net, InitialMarking(net.places), t);
  }
}
