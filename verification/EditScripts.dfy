/** Edit distance as what it is for: the fewest single edits that lead from one sequence to the other. */
module EditScripts {
  import opened Basics
  import opened EditDistance

  /** `u` in `x` has become `v` in `y`; the rest is the same. */
  predicate EditAt(x: seq<Activity>, y: seq<Activity>, p: seq<Activity>, u: seq<Activity>, v: seq<Activity>, s: seq<Activity>) {
    |u| <= 1 && |v| <= 1 && x == p + u + s && y == p + v + s
  }

  /** At most one activity is inserted, deleted or replaced. */
  ghost predicate OneEdit(x: seq<Activity>, y: seq<Activity>) {
    exists p, u, v, s :: EditAt(x, y, p, u, v, s)
  }

  ghost predicate EditPath(path: seq<seq<Activity>>) {
    forall i | 0 <= i < |path| - 1 :: OneEdit(path[i], path[i + 1])
  }

  // ---------- one edit moves the distance by one at most ----------

  ghost predicate Near(x: seq<Activity>, y: seq<Activity>) {
    forall z :: Lev(x, z) <= Lev(y, z) + 1
  }

  lemma LevFronts(x: seq<Activity>, a: Activity, y: seq<Activity>)
    ensures y == [] ==> Lev(x + [a], y) == |x| + 1 && Lev(x, y) == |x|
    ensures y != [] ==>
              Lev(x + [a], y) == Min(Min(Lev(x, y), Lev(x + [a], Front(y))) + 1, Lev(x, Front(y)) + Mismatch(a, Last(y)))
    ensures y != [] ==> Lev(x, y) <= Lev(x, Front(y)) + 1
  {
    hide Lev;
    assert Front(x + [a]) == x && Last(x + [a]) == a;
    LevOfNothing(x + [a], y);
    LevOfNothing(x, y);
    if y != [] {
      LevUnfolds(x + [a], y);
      assert y == Front(y) + [Last(y)];
      LevAppend(x, a, Front(y), Last(y));
    }
  }

  lemma {:induction false} DropLast(x: seq<Activity>, a: Activity, z: seq<Activity>)
    ensures Lev(x, z) <= Lev(x + [a], z) + 1 && Lev(x + [a], z) <= Lev(x, z) + 1
  {
    hide Lev;
    LevFronts(x, a, z);
    LevAppend(x, a, z, a);
    if z != [] {
      DropLast(x, a, Front(z));
    }
  }

  lemma {:induction false} ReplaceLast(x: seq<Activity>, a: Activity, b: Activity, z: seq<Activity>)
    ensures Lev(x + [a], z) <= Lev(x + [b], z) + 1
  {
    hide Lev;
    LevFronts(x, a, z);
    LevFronts(x, b, z);
    if z != [] {
      ReplaceLast(x, a, b, Front(z));
    }
  }

  lemma {:induction false} AppendStaysNear(x: seq<Activity>, y: seq<Activity>, c: Activity, z: seq<Activity>)
    requires Near(x, y)
    ensures Lev(x + [c], z) <= Lev(y + [c], z) + 1
  {
    hide Lev;
    LevFronts(x, c, z);
    LevFronts(y, c, z);
    assert Lev(x, z) <= Lev(y, z) + 1;
    if z != [] {
      assert Lev(x, Front(z)) <= Lev(y, Front(z)) + 1;
      AppendStaysNear(x, y, c, Front(z));
    }
  }

  lemma {:induction false} TailStaysNear(x: seq<Activity>, y: seq<Activity>, tail: seq<Activity>)
    requires Near(x, y)
    ensures Near(x + tail, y + tail)
  {
    hide Lev;
    if tail == [] {
      assert x + tail == x && y + tail == y;
    } else {
      TailStaysNear(x, y, Front(tail));
      assert x + tail == (x + Front(tail)) + [Last(tail)] && y + tail == (y + Front(tail)) + [Last(tail)];
      forall z ensures Lev(x + tail, z) <= Lev(y + tail, z) + 1 {
        AppendStaysNear(x + Front(tail), y + Front(tail), Last(tail), z);
      }
    }
  }

  lemma PieceIsNear(p: seq<Activity>, u: seq<Activity>, v: seq<Activity>)
    requires |u| <= 1 && |v| <= 1
    ensures Near(p + u, p + v)
  {
    hide Lev;
    assert p + [] == p;
    forall z ensures Lev(p + u, z) <= Lev(p + v, z) + 1 {
      if u != [] && v != [] {
        assert u == [u[0]] && v == [v[0]];
        ReplaceLast(p, u[0], v[0], z);
      } else if u != [] {
        assert u == [u[0]];
        DropLast(p, u[0], z);
      } else if v != [] {
        assert v == [v[0]];
        DropLast(p, v[0], z);
      }
    }
  }

  lemma OneEditIsNear(x: seq<Activity>, y: seq<Activity>)
    requires OneEdit(x, y)
    ensures Near(x, y)
  {
    hide Near;
    var p, u, v, s :| EditAt(x, y, p, u, v, s);
    PieceIsNear(p, u, v);
    TailStaysNear(p + u, p + v, s);
  }

  lemma {:induction false} PathIsNoShorter(path: seq<seq<Activity>>)
    requires path != [] && EditPath(path)
    ensures Lev(path[0], path[|path| - 1]) <= |path| - 1
  {
    hide Lev, OneEdit;
    var y := path[|path| - 1];
    if |path| == 1 {
      LevZero(y, y);
    } else {
      var rest := path[1..];
      forall i | 0 <= i < |rest| - 1 ensures OneEdit(rest[i], rest[i + 1]) {
        assert OneEdit(path[i + 1], path[i + 1 + 1]);
      }
      PathIsNoShorter(rest);
      assert OneEdit(path[0], path[0 + 1]);
      OneEditIsNear(path[0], path[1]);
    }
  }

  // ---------- the distance is reached ----------

  ghost predicate Leads(path: seq<seq<Activity>>, x: seq<Activity>, y: seq<Activity>, edits: nat) {
    |path| == edits + 1 && path[0] == x && path[edits] == y && EditPath(path)
  }

  lemma EditAtEnd(x: seq<Activity>, a: Activity, b: Activity)
    ensures OneEdit(x, x + [a]) && OneEdit(x + [a], x) && OneEdit(x + [a], x + [b])
  {
    assert EditAt(x, x + [a], x, [], [a], []) && EditAt(x + [a], x, x, [a], [], []);
    assert EditAt(x + [a], x + [b], x, [a], [b], []);
  }

  lemma EditInFront(x: seq<Activity>, y: seq<Activity>, c: Activity)
    requires OneEdit(x, y)
    ensures OneEdit(x + [c], y + [c])
  {
    var p, u, v, s :| EditAt(x, y, p, u, v, s);
    assert p + u + s + [c] == p + u + (s + [c]) && p + v + s + [c] == p + v + (s + [c]);
    assert EditAt(x + [c], y + [c], p, u, v, s + [c]);
  }

  lemma PathBefore(w: seq<Activity>, path: seq<seq<Activity>>, x: seq<Activity>, y: seq<Activity>, edits: nat)
    requires Leads(path, x, y, edits) && OneEdit(w, x)
    ensures Leads([w] + path, w, y, edits + 1)
  {
    hide OneEdit;
    var all := [w] + path;
    forall i | 0 <= i < |all| - 1 ensures OneEdit(all[i], all[i + 1]) {
      if i > 0 {
        assert OneEdit(path[i - 1], path[i - 1 + 1]);
      }
    }
  }

  lemma PathBehind(path: seq<seq<Activity>>, x: seq<Activity>, y: seq<Activity>, edits: nat, z: seq<Activity>)
    requires Leads(path, x, y, edits) && OneEdit(y, z)
    ensures Leads(path + [z], x, z, edits + 1)
  {
    hide OneEdit;
    var all := path + [z];
    forall i | 0 <= i < |all| - 1 ensures OneEdit(all[i], all[i + 1]) {
      if i < |path| - 1 {
        assert OneEdit(path[i], path[i + 1]);
      }
    }
  }

  lemma PathInFront(path: seq<seq<Activity>>, x: seq<Activity>, y: seq<Activity>, edits: nat, c: Activity)
    returns (longer: seq<seq<Activity>>)
    requires Leads(path, x, y, edits)
    ensures Leads(longer, x + [c], y + [c], edits)
  {
    hide OneEdit;
    longer := seq(|path|, i requires 0 <= i < |path| => path[i] + [c]);
    forall i | 0 <= i < |longer| - 1 ensures OneEdit(longer[i], longer[i + 1]) {
      assert OneEdit(path[i], path[i + 1]);
      EditInFront(path[i], path[i + 1], c);
    }
  }

  lemma {:induction false} DistanceHasPath(x: seq<Activity>, y: seq<Activity>) returns (path: seq<seq<Activity>>)
    ensures Leads(path, x, y, Lev(x, y))
    decreases |x| + |y|
  {
    hide Lev, OneEdit, EditPath;
    LevOfNothing(x, y);
    if x == [] && y == [] {
      path := [x];
      SinglePath(x);
    } else if y == [] || (x != [] && Lev(x, y) == Lev(Front(x), y) + 1) {
      LevOfNothing(Front(x), y);
      path := DistanceHasPath(Front(x), y);
      assert x == Front(x) + [Last(x)];
      EditAtEnd(Front(x), Last(x), Last(x));
      PathBefore(x, path, Front(x), y, Lev(Front(x), y));
      path := [x] + path;
    } else if x == [] || Lev(x, y) == Lev(x, Front(y)) + 1 {
      LevOfNothing(x, Front(y));
      path := DistanceHasPath(x, Front(y));
      assert y == Front(y) + [Last(y)];
      EditAtEnd(Front(y), Last(y), Last(y));
      PathBehind(path, x, Front(y), Lev(x, Front(y)), y);
      path := path + [y];
    } else {
      LevUnfolds(x, y);
      path := PairedPath(x, y);
    }
  }

  lemma {:induction false} PairedPath(x: seq<Activity>, y: seq<Activity>) returns (path: seq<seq<Activity>>)
    requires x != [] && y != []
    ensures Leads(path, x, y, Lev(Front(x), Front(y)) + Mismatch(Last(x), Last(y)))
    decreases |x| + |y|, 0
  {
    hide Lev, OneEdit, EditPath;
    var k := Lev(Front(x), Front(y));
    path := DistanceHasPath(Front(x), Front(y));
    path := PathInFront(path, Front(x), Front(y), k, Last(x));
    assert x == Front(x) + [Last(x)] && y == Front(y) + [Last(y)];
    if Last(x) != Last(y) {
      EditAtEnd(Front(y), Last(x), Last(y));
      PathBehind(path, x, Front(y) + [Last(x)], k, y);
      path := path + [y];
    }
  }

  lemma SinglePath(x: seq<Activity>)
    ensures Leads([x], x, x, 0)
  {
  }

  /** Some sequence of as many single edits as the distance leads from one to the other, and no shorter one does. */
  lemma DistanceIsFewestEdits(x: seq<Activity>, y: seq<Activity>)
    ensures exists path: seq<seq<Activity>> ::
      |path| == Lev(x, y) + 1 && path[0] == x && path[|path| - 1] == y
      && forall i | 0 <= i < |path| - 1 :: OneEdit(path[i], path[i + 1])
    ensures forall path: seq<seq<Activity>> |
      path != [] && path[0] == x && path[|path| - 1] == y && (forall i | 0 <= i < |path| - 1 :: OneEdit(path[i], path[i + 1])) ::
      Lev(x, y) <= |path| - 1
  {
    hide Lev, OneEdit;
    var path := DistanceHasPath(x, y);
    forall path: seq<seq<Activity>> |
      path != [] && path[0] == x && path[|path| - 1] == y && (forall i | 0 <= i < |path| - 1 :: OneEdit(path[i], path[i + 1]))
      ensures Lev(x, y) <= |path| - 1
    {
      PathIsNoShorter(path);
    }
  }
}
