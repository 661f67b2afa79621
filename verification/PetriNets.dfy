/** Place/transition nets, their standard firing rule, and totals over their places. */
module PetriNets {
  import opened Basics

  type Id = string

  datatype Place = Place(id: Id, initialTokens: nat, finalTokens: nat)

  datatype Transition = Transition(id: Id, name: Option<string>)

  datatype Arc = Arc(source: Id, target: Id, weight: nat)

  datatype PetriNet = PetriNet(places: seq<Place>, transitions: seq<Transition>, arcs: seq<Arc>)

  type Marking = map<Id, nat>

  function AbsDiff(a: nat, b: nat): (d: nat)
    ensures if a <= b then a + d == b else b + d == a
  {
    if a <= b then b - a else a - b
  }

  ghost predicate Distinct(ids: seq<Id>) {
    forall i, j | 0 <= i < j < |ids| :: ids[i] != ids[j]
  }

  /** Every place id once. */
  function PlaceIds(places: seq<Place>): (ids: seq<Id>)
    ensures Distinct(ids) && forall p :: p in ids <==> exists i :: 0 <= i < |places| && places[i].id == p
  {
    if places == [] then []
    else
      var ids, last := PlaceIds(places[..|places| - 1]), places[|places| - 1].id;
      if last in ids then ids else ids + [last]
  }

  /** A later place with the same id replaces an earlier one. */
  function InitialMarking(places: seq<Place>): (m: Marking)
    ensures m.Keys == set place | place in places :: place.id
  {
    if places == [] then map[]
    else var last := places[|places| - 1]; InitialMarking(places[..|places| - 1])[last.id := last.initialTokens]
  }

  /** The tokens of the last entry for each place are all that a marking needs to be the initial one. */
  lemma {:induction false} StartsAt(places: seq<Place>, m: Marking)
    requires m.Keys == set place | place in places :: place.id
    requires forall i | 0 <= i < |places| && (forall j | i < j < |places| :: places[j].id != places[i].id) ::
      m[places[i].id] == places[i].initialTokens
    ensures m == InitialMarking(places)
  {
    var start := InitialMarking(places);
    forall p | p in m ensures m[p] == start[p] {
      var i := LastEntry(places, p);
      InitialTokensOf(places, i);
    }
  }

  lemma {:induction false} LastEntry(places: seq<Place>, p: Id) returns (i: nat)
    requires exists place :: place in places && place.id == p
    ensures i < |places| && places[i].id == p && forall j | i < j < |places| :: places[j].id != p
  {
    i := |places| - 1;
    if places[i].id != p {
      var place :| place in places && place.id == p;
      assert place in places[..i];
      i := LastEntry(places[..i], p);
    }
  }

  /** The initial marking holds, at every place, the tokens of the last entry for it. */
  lemma {:induction false} InitialTokensOf(places: seq<Place>, i: nat)
    requires i < |places| && forall j | i < j < |places| :: places[j].id != places[i].id
    ensures places[i].id in InitialMarking(places) && InitialMarking(places)[places[i].id] == places[i].initialTokens
  {
    if i < |places| - 1 {
      InitialTokensOf(places[..|places| - 1], i);
    }
  }

  /** Every place holds the tokens it should end with. */
  ghost predicate IsFinal(places: seq<Place>, m: Marking) {
    forall place | place in places :: place.id in m && m[place.id] == place.finalTokens
  }

  // ---------- arc weights ----------

  /** The tokens that one firing moves from `source` to `target`. */
  function Weight(arcs: seq<Arc>, source: Id, target: Id): nat {
    if arcs == [] then 0
    else
      var last := arcs[|arcs| - 1];
      Weight(arcs[..|arcs| - 1], source, target) + if last.source == source && last.target == target then last.weight else 0
  }

  /** The heaviest of the arcs from `source` to `target`. */
  function Peak(arcs: seq<Arc>, source: Id, target: Id): nat {
    if arcs == [] then 0
    else
      var init, last := Peak(arcs[..|arcs| - 1], source, target), arcs[|arcs| - 1];
      if last.source == source && last.target == target then Max(init, last.weight) else init
  }

  /** A weight is the sum of the weights of all arcs with these ends. */
  lemma {:induction false} WeightIs(arcs: seq<Arc>, source: Id, target: Id)
    ensures Weight(arcs, source, target) ==
            SeqSum(seq(|arcs|, i requires 0 <= i < |arcs| =>
              if arcs[i].source == source && arcs[i].target == target then arcs[i].weight else 0))
  {
    var all := seq(|arcs|, i requires 0 <= i < |arcs| =>
      if arcs[i].source == source && arcs[i].target == target then arcs[i].weight else 0);
    if arcs != [] {
      var init := arcs[..|arcs| - 1];
      WeightIs(init, source, target);
      assert all[..|all| - 1] == seq(|init|, i requires 0 <= i < |init| =>
        if init[i].source == source && init[i].target == target then init[i].weight else 0);
    }
  }

  function Need(net: PetriNet, p: Id, t: Transition): nat {
    Weight(net.arcs, p, t.id)
  }

  function Gain(net: PetriNet, p: Id, t: Transition): nat {
    Weight(net.arcs, t.id, p)
  }

  // ---------- the standard firing rule ----------

  ghost predicate Enabled(net: PetriNet, m: Marking, t: Transition) {
    forall p | p in m :: m[p] >= Need(net, p, t)
  }

  ghost function Fire(net: PetriNet, m: Marking, t: Transition): Marking
    requires Enabled(net, m, t)
  {
    map p | p in m :: m[p] - Need(net, p, t) + Gain(net, p, t)
  }

  /** `ts` is a firing sequence from `m`. */
  ghost predicate Fires(net: PetriNet, m: Marking, ts: seq<Transition>) {
    ts == [] || (Enabled(net, m, ts[0]) && Fires(net, Fire(net, m, ts[0]), ts[1..]))
  }

  ghost function Reached(net: PetriNet, m: Marking, ts: seq<Transition>): Marking
    requires Fires(net, m, ts)
  {
    if ts == [] then m else Reached(net, Fire(net, m, ts[0]), ts[1..])
  }

  // ---------- totals over places ----------

  function Total(ids: seq<Id>, m: Marking): nat
    requires forall p | p in ids :: p in m
  {
    if ids == [] then 0 else m[ids[0]] + Total(ids[1..], m)
  }

  lemma {:induction false} TotalUpdate(ids: seq<Id>, m: Marking, p: Id, n: nat)
    requires Distinct(ids) && forall q | q in ids :: q in m
    requires p in m
    ensures Total(ids, m[p := n]) == Total(ids, m) + (if p in ids then n - m[p] else 0)
  {
    if ids != [] {
      assert Distinct(ids[1..]);
      TotalUpdate(ids[1..], m, p, n);
      assert ids[0] !in ids[1..];
    }
  }

  lemma {:induction false} TotalAdd(ids: seq<Id>, a: Marking, b: Marking, c: Marking)
    requires forall p | p in ids :: p in a && p in b && p in c && a[p] + b[p] == c[p]
    ensures Total(ids, a) + Total(ids, b) == Total(ids, c)
  {
    if ids != [] {
      TotalAdd(ids[1..], a, b, c);
    }
  }

  lemma {:induction false} TotalMonotone(ids: seq<Id>, a: Marking, b: Marking)
    requires forall p | p in ids :: p in a && p in b && a[p] <= b[p]
    ensures Total(ids, a) <= Total(ids, b)
  {
    if ids != [] {
      TotalMonotone(ids[1..], a, b);
    }
  }

  lemma {:induction false} TotalZero(ids: seq<Id>, m: Marking)
    requires forall p | p in ids :: p in m
    ensures Total(ids, m) == 0 <==> forall p | p in ids :: m[p] == 0
  {
    if ids != [] {
      TotalZero(ids[1..], m);
      assert forall p | p in ids :: p == ids[0] || p in ids[1..];
    }
  }
}
