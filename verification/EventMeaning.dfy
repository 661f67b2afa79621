/** Which streams of event rows are accepted, and what their summaries count, said of the rows and events one by one. */
module EventMeaning {
  import opened Basics
  import opened EventLog
  import opened EventCounts
  import opened EventSummary

  // ---------- which streams are accepted ----------

  /** Numbered on from the row before, when that is of the same case in the same window, and from one otherwise. */
  predicate InOrder(before: Option<EventRow>, row: EventRow) {
    row.ordinal ==
    if before.Some? && before.value.window == row.window && before.value.caseId == row.caseId
    then before.value.ordinal + 1 else 1
  }

  function Before(before: Option<EventRow>, rows: seq<EventRow>, i: nat): Option<EventRow>
    requires i < |rows|
  {
    if i == 0 then before else Some(rows[i - 1])
  }

  ghost predicate Continues(open: Option<Case>, w: int, before: Option<EventRow>) {
    if open.Some? then
      before.Some? && before.value.window == w && before.value.caseId == open.value.id
      && before.value.ordinal == |open.value.events|
    else before.Some? ==> before.value.window != w
  }

  /** A window is read as far as its rows go, if they are in order. */
  lemma {:induction false} ReadWindowIff(rows: seq<EventRow>, w: int, open: Option<Case>, before: Option<EventRow>)
    returns (k: nat)
    requires Continues(open, w, before)
    ensures k <= |rows| && (forall i | 0 <= i < k :: rows[i].window == w) && (k < |rows| ==> rows[k].window != w)
    ensures ReadWindow(rows, w, open).Some? <==> forall i | 0 <= i < k :: InOrder(Before(before, rows, i), rows[i])
    ensures ReadWindow(rows, w, open).Some? ==> ReadWindow(rows, w, open).value.rest == rows[k..]
  {
    if rows == [] || rows[0].window != w {
      k := 0;
    } else {
      var row, event := rows[0], Event(rows[0].activity, rows[0].timestamp);
      var next := if open.Some? && open.value.id == row.caseId then Case(row.caseId, open.value.events + [event])
                  else Case(row.caseId, [event]);
      if row.ordinal == NextOrdinal(open, row.caseId) {
        k := ReadWindowIff(rows[1..], w, Some(next), Some(row));
        k := k + 1;
        assert forall i | 0 < i < k :: rows[i] == rows[1..][i - 1] && Before(before, rows, i) == Before(Some(row), rows[1..], i - 1);
        assert rows[1..][k - 1..] == rows[k..];
        assert InOrder(Before(before, rows, 0), rows[0]);
      } else {
        k := WindowEnd(rows, w);
        assert !InOrder(Before(before, rows, 0), rows[0]);
      }
    }
  }

  lemma {:induction false} WindowEnd(rows: seq<EventRow>, w: int) returns (k: nat)
    requires rows != [] && rows[0].window == w
    ensures 0 < k <= |rows| && (forall i | 0 <= i < k :: rows[i].window == w) && (k < |rows| ==> rows[k].window != w)
  {
    k := 1;
    if |rows| > 1 && rows[1].window == w {
      k := WindowEnd(rows[1..], w);
      k := k + 1;
      assert forall i | 1 <= i < k :: rows[i] == rows[1..][i - 1];
    }
  }

  ghost predicate Stream(rows: seq<EventRow>, before: Option<EventRow>, from: int, to: int) {
    && (forall i | 0 <= i < |rows| :: from <= rows[i].window <= to)
    && (forall i | 0 < i < |rows| :: rows[i - 1].window <= rows[i].window)
    && (forall i | 0 <= i < |rows| :: InOrder(Before(before, rows, i), rows[i]))
  }

  function LastBefore(before: Option<EventRow>, rows: seq<EventRow>, k: nat): Option<EventRow>
    requires k <= |rows|
  {
    if k == 0 then before else Some(rows[k - 1])
  }

  lemma {:induction false} ReadLogIff(rows: seq<EventRow>, w: int, windows: nat, before: Option<EventRow>)
    requires before.Some? ==> before.value.window < w
    ensures ReadLog(rows, w, windows).Log? <==> Stream(rows, before, w, w + windows - 1)
    decreases windows
  {
    hide ReadWindow, Stream, InOrder;
    if windows == 0 {
      NoWindows(rows, before, w);
    } else {
      var k := ReadWindowIff(rows, w, None, before);
      var last := LastBefore(before, rows, k);
      ReadLogIff(rows[k..], w + 1, windows - 1, last);
      if Stream(rows, before, w, w + windows - 1) {
        StreamFalls(rows, before, w, w + windows - 1, k);
      }
      if (forall i | 0 <= i < k :: InOrder(Before(before, rows, i), rows[i])) && Stream(rows[k..], last, w + 1, w + windows - 1) {
        StreamJoins(rows, before, w, w + windows - 1, k);
      }
    }
  }

  lemma NoWindows(rows: seq<EventRow>, before: Option<EventRow>, w: int)
    ensures Stream(rows, before, w, w - 1) <==> rows == []
  {
    if rows != [] {
      assert !(w <= rows[0].window <= w - 1);
    }
  }

  lemma Shifted(rows: seq<EventRow>, before: Option<EventRow>, k: nat)
    requires k <= |rows|
    ensures forall i | 0 <= i < |rows[k..]| ::
              rows[k..][i] == rows[k + i] && Before(LastBefore(before, rows, k), rows[k..], i) == Before(before, rows, k + i)
  {
  }

  lemma {:induction false} Rising(rows: seq<EventRow>, k: nat, i: nat)
    requires k <= i < |rows| && forall j | 0 < j < |rows| :: rows[j - 1].window <= rows[j].window
    ensures rows[k].window <= rows[i].window
  {
    if k < i {
      Rising(rows, k, i - 1);
      assert rows[i - 1].window <= rows[i].window;
    }
  }

  lemma StreamFalls(rows: seq<EventRow>, before: Option<EventRow>, w: int, to: int, k: nat)
    requires k <= |rows| && (k < |rows| ==> rows[k].window != w) && Stream(rows, before, w, to)
    ensures forall i | 0 <= i < k :: InOrder(Before(before, rows, i), rows[i])
    ensures Stream(rows[k..], LastBefore(before, rows, k), w + 1, to)
  {
    hide InOrder, Before, LastBefore;
    Shifted(rows, before, k);
    var rest := rows[k..];
    forall i | 0 <= i < |rest| ensures w + 1 <= rest[i].window <= to {
      Rising(rows, k, k + i);
    }
    forall i | 0 < i < |rest| ensures rest[i - 1].window <= rest[i].window {
      assert rows[k + i - 1].window <= rows[k + i].window;
    }
  }

  lemma StreamJoins(rows: seq<EventRow>, before: Option<EventRow>, w: int, to: int, k: nat)
    requires k <= |rows| && (forall i | 0 <= i < k :: rows[i].window == w) && w <= to
    requires forall i | 0 <= i < k :: InOrder(Before(before, rows, i), rows[i])
    requires Stream(rows[k..], LastBefore(before, rows, k), w + 1, to)
    ensures Stream(rows, before, w, to)
  {
    hide InOrder, Before, LastBefore;
    Shifted(rows, before, k);
    var rest := rows[k..];
    forall i | 0 <= i < |rows| ensures w <= rows[i].window <= to && InOrder(Before(before, rows, i), rows[i]) {
      if i >= k {
        assert rest[i - k] == rows[i];
      }
    }
    forall i | 0 < i < |rows| ensures rows[i - 1].window <= rows[i].window {
      if i > k {
        assert rest[i - k - 1].window <= rest[i - k].window;
      } else if i == k {
        assert rest[0] == rows[i];
      }
    }
  }

  /**
   * A stream is accepted exactly when its windows are among those asked for and come in order, and the rows of a case
   * in a window stand together, numbered from one.
   */
  lemma AcceptedIff(rows: seq<EventRow>, windows: nat)
    ensures ReadLog(rows, 1, windows).Log? <==>
      && (forall i | 0 <= i < |rows| :: 1 <= rows[i].window <= windows)
      && (forall i | 0 < i < |rows| :: rows[i - 1].window <= rows[i].window)
      && (forall i | 0 <= i < |rows| ::
            rows[i].ordinal ==
            if i > 0 && rows[i - 1].window == rows[i].window && rows[i - 1].caseId == rows[i].caseId
            then rows[i - 1].ordinal + 1 else 1)
  {
    hide ReadLog;
    ReadLogIff(rows, 1, windows, None);
    forall i | 0 <= i < |rows|
      ensures InOrder(Before(None, rows, i), rows[i]) <==>
              rows[i].ordinal ==
              if i > 0 && rows[i - 1].window == rows[i].window && rows[i - 1].caseId == rows[i].caseId
              then rows[i - 1].ordinal + 1 else 1
    {
    }
  }

  // ---------- why a stream is refused ----------

  lemma {:induction false} FirstOutOfOrder(rows: seq<EventRow>, before: Option<EventRow>, k: nat) returns (i: nat)
    requires k <= |rows| && !forall i | 0 <= i < k :: InOrder(Before(before, rows, i), rows[i])
    ensures i < k && !InOrder(Before(before, rows, i), rows[i])
    ensures forall j | 0 <= j < i :: InOrder(Before(before, rows, j), rows[j])
  {
    hide InOrder, Before;
    if forall i | 0 <= i < k - 1 :: InOrder(Before(before, rows, i), rows[i]) {
      i := k - 1;
    } else {
      i := FirstOutOfOrder(rows, before, k - 1);
    }
  }

  /** The row numbered `k` is the first that does not continue the stream, and this is what is wrong with it. */
  ghost predicate Offends(rows: seq<EventRow>, before: Option<EventRow>, w: int, to: int, k: nat, error: LogError) {
    && k < |rows| && Stream(rows[..k], before, w, to)
    && match error
       case NotOrdered =>
         && w <= rows[k].window <= to && (k > 0 ==> rows[k - 1].window <= rows[k].window)
         && !InOrder(Before(before, rows, k), rows[k])
       case UnexpectedWindow(x) =>
         x == rows[k].window && (!(w <= x <= to) || (k > 0 && x < rows[k - 1].window))
       case BadWindowCount => false
  }

  lemma {:induction false} ReadLogFails(rows: seq<EventRow>, w: int, windows: nat, before: Option<EventRow>) returns (k: nat)
    requires ReadLog(rows, w, windows).Failed? && (before.Some? ==> before.value.window < w)
    ensures Offends(rows, before, w, w + windows - 1, k, ReadLog(rows, w, windows).error)
    decreases windows
  {
    hide ReadWindow, InOrder, Offends;
    if windows == 0 {
      k := 0;
      NothingExpected(rows, before, w);
    } else {
      var n := ReadWindowIff(rows, w, None, before);
      if ReadWindow(rows, w, None).None? {
        k := FirstOutOfOrder(rows, before, n);
        OffendsInWindow(rows, before, w, w + windows - 1, n, k);
      } else {
        var last := LastBefore(before, rows, n);
        k := ReadLogFails(rows[n..], w + 1, windows - 1, last);
        OffendsLater(rows, before, w, w + windows - 1, n, k, ReadLog(rows[n..], w + 1, windows - 1).error);
        k := n + k;
      }
    }
  }

  lemma NothingExpected(rows: seq<EventRow>, before: Option<EventRow>, w: int)
    requires rows != []
    ensures Offends(rows, before, w, w - 1, 0, UnexpectedWindow(rows[0].window))
  {
  }

  lemma OffendsInWindow(rows: seq<EventRow>, before: Option<EventRow>, w: int, to: int, n: nat, k: nat)
    requires k < n <= |rows| && w <= to && forall i | 0 <= i < n :: rows[i].window == w
    requires !InOrder(Before(before, rows, k), rows[k]) && forall i | 0 <= i < k :: InOrder(Before(before, rows, i), rows[i])
    ensures Offends(rows, before, w, to, k, NotOrdered)
  {
    hide InOrder;
    assert forall i | 0 <= i < k :: rows[..k][i] == rows[i] && Before(before, rows[..k], i) == Before(before, rows, i);
  }

  lemma OffendsLater(rows: seq<EventRow>, before: Option<EventRow>, w: int, to: int, n: nat, k: nat, error: LogError)
    requires n <= |rows| && w <= to && (forall i | 0 <= i < n :: rows[i].window == w) && (n < |rows| ==> rows[n].window != w)
    requires forall i | 0 <= i < n :: InOrder(Before(before, rows, i), rows[i])
    requires Offends(rows[n..], LastBefore(before, rows, n), w + 1, to, k, error)
    ensures Offends(rows, before, w, to, n + k, error)
  {
    hide InOrder;
    var front := rows[..n + k];
    assert front[n..] == rows[n..][..k] && rows[n..][k] == rows[n + k];
    assert LastBefore(before, front, n) == LastBefore(before, rows, n);
    forall i | 0 <= i < n ensures InOrder(Before(before, front, i), front[i]) {
      assert Before(before, front, i) == Before(before, rows, i) && front[i] == rows[i];
    }
    StreamJoins(front, before, w, to, n);
    Shifted(rows, before, n);
    if k > 0 {
      assert rows[n..][k - 1] == rows[n + k - 1] && rows[n..][..k][k - 1] == rows[n..][k - 1];
      assert w + 1 <= rows[n + k - 1].window;
    }
  }

  /**
   * The first row that does not continue the stream decides the error: out of order when its window is still to come,
   * and otherwise unexpected, with its window.
   */
  lemma RefusedBecause(rows: seq<EventRow>, windows: nat) returns (k: nat)
    requires ReadLog(rows, 1, windows).Failed?
    ensures k < |rows| && ReadLog(rows[..k], 1, windows).Log? && ReadLog(rows[..k + 1], 1, windows).Failed?
    ensures ReadLog(rows, 1, windows).error ==
            if 1 <= rows[k].window <= windows && (k > 0 ==> rows[k - 1].window <= rows[k].window) then NotOrdered
            else UnexpectedWindow(rows[k].window)
  {
    hide ReadLog, InOrder;
    k := ReadLogFails(rows, 1, windows, None);
    ReadLogIff(rows[..k], 1, windows, None);
    ReadLogIff(rows[..k + 1], 1, windows, None);
    assert rows[..k + 1][k] == rows[k] && (k > 0 ==> rows[..k + 1][k - 1] == rows[k - 1]);
    assert Before(None, rows[..k + 1], k) == Before(None, rows, k);
  }

  // ---------- what is counted in one case ----------

  /** The activities of the case, in order. */
  predicate Takes(c: Case, path: seq<string>) {
    |c.events| == |path| && forall i | 0 <= i < |path| :: c.events[i].activity == path[i]
  }

  predicate Visits(c: Case, a: string) {
    exists i :: 0 <= i < |c.events| && c.events[i].activity == a
  }

  /** One for each event with the activity. */
  function HitsOf(c: Case, a: string): seq<int> {
    seq(|c.events|, i requires 0 <= i < |c.events| => if c.events[i].activity == a then 1 else 0)
  }

  function Gaps(c: Case): nat {
    if c.events == [] then 0 else |c.events| - 1
  }

  /** One for each event of `a` that one of `b` directly follows. */
  function StepsOf(c: Case, a: string, b: string): seq<int> {
    seq(Gaps(c), i requires 0 <= i < Gaps(c) =>
      if c.events[i].activity == a && c.events[i + 1].activity == b then 1 else 0)
  }

  /** The time that passes on each such step. */
  function TimesOf(c: Case, a: string, b: string): seq<int> {
    seq(Gaps(c), i requires 0 <= i < Gaps(c) =>
      if c.events[i].activity == a && c.events[i + 1].activity == b
      then c.events[i + 1].timestamp - c.events[i].timestamp else 0)
  }

  lemma TakesPath(c: Case, path: seq<string>)
    ensures Takes(c, path) <==> Path(c) == path
  {
  }

  lemma VisitsIs(c: Case, a: string)
    ensures Visits(c, a) <==> a in Path(c)
  {
    if a in Path(c) {
      var i :| 0 <= i < |Path(c)| && Path(c)[i] == a;
      assert c.events[i].activity == a;
    }
    if i :| 0 <= i < |c.events| && c.events[i].activity == a {
      assert Path(c)[i] == a;
    }
  }

  lemma {:induction false} HitsAre(c: Case, a: string, n: nat)
    requires n <= |c.events|
    ensures Occurrences(Path(c)[..n], a) == SeqSum(HitsOf(c, a)[..n])
    ensures n == |c.events| ==> Occurrences(Path(c), a) == SeqSum(HitsOf(c, a))
  {
    if n > 0 {
      HitsAre(c, a, n - 1);
      assert Path(c)[..n][..n - 1] == Path(c)[..n - 1] && HitsOf(c, a)[..n][..n - 1] == HitsOf(c, a)[..n - 1];
    }
    assert Path(c)[..|c.events|] == Path(c) && HitsOf(c, a)[..|c.events|] == HitsOf(c, a);
  }

  lemma {:induction false} StepsAre(c: Case, a: string, b: string, n: nat)
    requires n <= Gaps(c)
    ensures Steps(Path(c), n, a, b) == SeqSum(StepsOf(c, a, b)[..n])
    ensures StepTime(Path(c), Times(c), n, a, b) == SeqSum(TimesOf(c, a, b)[..n])
    ensures StepCount(Path(c)) == Gaps(c)
    ensures n == Gaps(c) ==> StepsOf(c, a, b)[..n] == StepsOf(c, a, b) && TimesOf(c, a, b)[..n] == TimesOf(c, a, b)
  {
    if n > 0 {
      StepsAre(c, a, b, n - 1);
      assert StepsOf(c, a, b)[..n][..n - 1] == StepsOf(c, a, b)[..n - 1];
      assert TimesOf(c, a, b)[..n][..n - 1] == TimesOf(c, a, b)[..n - 1];
    }
  }

  // ---------- what is counted in all cases ----------

  lemma {:induction false} EventsAre(cases: seq<Case>)
    ensures EventCount(cases) == SeqSum(seq(|cases|, k requires 0 <= k < |cases| => |cases[k].events|))
  {
    if cases != [] {
      var init, all := cases[..|cases| - 1], seq(|cases|, k requires 0 <= k < |cases| => |cases[k].events|);
      EventsAre(init);
      assert all[..|all| - 1] == seq(|init|, k requires 0 <= k < |init| => |init[k].events|);
    }
  }

  lemma {:induction false} VariantsAre(cases: seq<Case>, path: seq<string>)
    ensures VariantCount(cases, path) == SeqSum(seq(|cases|, k requires 0 <= k < |cases| => if Takes(cases[k], path) then 1 else 0))
  {
    if cases != [] {
      var init, all := cases[..|cases| - 1], seq(|cases|, k requires 0 <= k < |cases| => if Takes(cases[k], path) then 1 else 0);
      VariantsAre(init, path);
      assert all[..|all| - 1] == seq(|init|, k requires 0 <= k < |init| => if Takes(init[k], path) then 1 else 0);
      TakesPath(Last(cases), path);
    }
  }

  lemma {:induction false} EdgesAre(cases: seq<Case>, a: string, b: string)
    ensures EdgeCount(cases, a, b) == SeqSum(seq(|cases|, k requires 0 <= k < |cases| => SeqSum(StepsOf(cases[k], a, b))))
  {
    if cases != [] {
      var init, all := cases[..|cases| - 1], seq(|cases|, k requires 0 <= k < |cases| => SeqSum(StepsOf(cases[k], a, b)));
      EdgesAre(init, a, b);
      assert all[..|all| - 1] == seq(|init|, k requires 0 <= k < |init| => SeqSum(StepsOf(init[k], a, b)));
      StepsAre(Last(cases), a, b, StepCount(Path(Last(cases))));
    }
  }

  lemma {:induction false} TimesAre(cases: seq<Case>, a: string, b: string)
    ensures EdgeTime(cases, a, b) == SeqSum(seq(|cases|, k requires 0 <= k < |cases| => SeqSum(TimesOf(cases[k], a, b))))
  {
    if cases != [] {
      var init, all := cases[..|cases| - 1], seq(|cases|, k requires 0 <= k < |cases| => SeqSum(TimesOf(cases[k], a, b)));
      TimesAre(init, a, b);
      assert all[..|all| - 1] == seq(|init|, k requires 0 <= k < |init| => SeqSum(TimesOf(init[k], a, b)));
      StepsAre(Last(cases), a, b, StepCount(Path(Last(cases))));
    }
  }

  lemma {:induction false} CasesAre(cases: seq<Case>, a: string)
    ensures CasesWith(cases, a) == SeqSum(seq(|cases|, k requires 0 <= k < |cases| => if Visits(cases[k], a) then 1 else 0))
  {
    if cases != [] {
      var init, all := cases[..|cases| - 1], seq(|cases|, k requires 0 <= k < |cases| => if Visits(cases[k], a) then 1 else 0);
      CasesAre(init, a);
      assert all[..|all| - 1] == seq(|init|, k requires 0 <= k < |init| => if Visits(init[k], a) then 1 else 0);
      VisitsIs(Last(cases), a);
    }
  }

  lemma {:induction false} OccurrencesAre(cases: seq<Case>, a: string)
    ensures TotalOccurrences(cases, a) == SeqSum(seq(|cases|, k requires 0 <= k < |cases| => SeqSum(HitsOf(cases[k], a))))
  {
    if cases != [] {
      var init, all := cases[..|cases| - 1], seq(|cases|, k requires 0 <= k < |cases| => SeqSum(HitsOf(cases[k], a)));
      OccurrencesAre(init, a);
      assert all[..|all| - 1] == seq(|init|, k requires 0 <= k < |init| => SeqSum(HitsOf(init[k], a)));
      HitsAre(Last(cases), a, |Last(cases).events|);
    }
  }

  lemma {:induction false} StartsAre(cases: seq<Case>, a: string)
    ensures Starts(cases, a) == SeqSum(seq(|cases|, k requires 0 <= k < |cases| => if cases[k].events != [] && cases[k].events[0].activity == a then 1 else 0))
  {
    if cases != [] {
      var init, all := cases[..|cases| - 1], seq(|cases|, k requires 0 <= k < |cases| => if cases[k].events != [] && cases[k].events[0].activity == a then 1 else 0);
      StartsAre(init, a);
      assert all[..|all| - 1] == seq(|init|, k requires 0 <= k < |init| => if init[k].events != [] && init[k].events[0].activity == a then 1 else 0);
    }
  }

  lemma {:induction false} EndsAre(cases: seq<Case>, a: string)
    ensures Ends(cases, a) == SeqSum(seq(|cases|, k requires 0 <= k < |cases| => if cases[k].events != [] && cases[k].events[|cases[k].events| - 1].activity == a then 1 else 0))
  {
    if cases != [] {
      var init, all := cases[..|cases| - 1], seq(|cases|, k requires 0 <= k < |cases| => if cases[k].events != [] && cases[k].events[|cases[k].events| - 1].activity == a then 1 else 0);
      EndsAre(init, a);
      assert all[..|all| - 1] == seq(|init|, k requires 0 <= k < |init| => if init[k].events != [] && init[k].events[|init[k].events| - 1].activity == a then 1 else 0);
    }
  }

  /** Every number in a summary is the sum, over the cases and where need be over their events, of what it counts. */
  lemma SummaryIs(s: Summary, cases: seq<Case>)
    requires Summarizes(s, cases)
    ensures s.caseCount == |cases| && s.eventCount == SeqSum(seq(|cases|, k requires 0 <= k < |cases| => |cases[k].events|))
    ensures forall path :: Variant(s.variants, path) == SeqSum(seq(|cases|, k requires 0 <= k < |cases| => if Takes(cases[k], path) then 1 else 0))
    ensures forall a, b ::
      && Edge(s.dfg, a, b).frequency == SeqSum(seq(|cases|, k requires 0 <= k < |cases| => SeqSum(StepsOf(cases[k], a, b))))
      && Edge(s.dfg, a, b).duration == SeqSum(seq(|cases|, k requires 0 <= k < |cases| => SeqSum(TimesOf(cases[k], a, b))))
    ensures forall a ::
      var t := Activity(s.activities, a);
      && t.cases == SeqSum(seq(|cases|, k requires 0 <= k < |cases| => if Visits(cases[k], a) then 1 else 0))
      && t.occurrences == SeqSum(seq(|cases|, k requires 0 <= k < |cases| => SeqSum(HitsOf(cases[k], a))))
      && t.starts == SeqSum(seq(|cases|, k requires 0 <= k < |cases| => if cases[k].events != [] && cases[k].events[0].activity == a then 1 else 0))
      && t.ends == SeqSum(seq(|cases|, k requires 0 <= k < |cases| => if cases[k].events != [] && cases[k].events[|cases[k].events| - 1].activity == a then 1 else 0))
  {
    hide SeqSum, EventCount, VariantCount, EdgeCount, EdgeTime, CasesWith, TotalOccurrences, Starts, Ends;
    EventsAre(cases);
    forall path ensures Variant(s.variants, path) == SeqSum(seq(|cases|, k requires 0 <= k < |cases| => if Takes(cases[k], path) then 1 else 0)) {
      VariantsAre(cases, path);
    }
    forall a, b
      ensures Edge(s.dfg, a, b).frequency == SeqSum(seq(|cases|, k requires 0 <= k < |cases| => SeqSum(StepsOf(cases[k], a, b))))
      ensures Edge(s.dfg, a, b).duration == SeqSum(seq(|cases|, k requires 0 <= k < |cases| => SeqSum(TimesOf(cases[k], a, b))))
    {
      EdgesAre(cases, a, b);
      TimesAre(cases, a, b);
    }
    forall a
      ensures
        var t := Activity(s.activities, a);
        && t.cases == SeqSum(seq(|cases|, k requires 0 <= k < |cases| => if Visits(cases[k], a) then 1 else 0))
        && t.occurrences == SeqSum(seq(|cases|, k requires 0 <= k < |cases| => SeqSum(HitsOf(cases[k], a))))
        && t.starts == SeqSum(seq(|cases|, k requires 0 <= k < |cases| => if cases[k].events != [] && cases[k].events[0].activity == a then 1 else 0))
        && t.ends == SeqSum(seq(|cases|, k requires 0 <= k < |cases| => if cases[k].events != [] && cases[k].events[|cases[k].events| - 1].activity == a then 1 else 0))
    {
      CasesAre(cases, a);
      OccurrencesAre(cases, a);
      StartsAre(cases, a);
      EndsAre(cases, a);
    }
  }
}
