/** The balances between the counts, read off the maps of a summary. */
module EventBalances {
  import opened SetSums
  import opened EventLog
  import opened EventCounts
  import opened EventSummary

  lemma {:induction false} PresentOccurs(cases: seq<Case>, c: Case, a: string)
    requires c in cases && a in Path(c)
    ensures TotalOccurrences(cases, a) > 0
  {
    if c == Last(cases) {
      OccursIff(Path(c), a);
    } else {
      PresentOccurs(cases[..|cases| - 1], c, a);
    }
  }

  /** The activities listed are enough to sum over. */
  lemma ListedCover(s: Summary, cases: seq<Case>)
    requires ActivitiesOf(s.activities, cases)
    ensures Covers(s.activities.Keys, cases)
  {
    forall c, a | c in cases && a in Path(c) ensures a in s.activities.Keys {
      PresentOccurs(cases, c, a);
    }
  }

  /** The occurrences of an activity, as a start or along the listed edges into it, and as an end or along those out of it. */
  lemma SummaryFlow(s: Summary, cases: seq<Case>, a: string)
    requires Summarizes(s, cases)
    ensures
      var names, t := s.activities.Keys, Activity(s.activities, a);
      && t.occurrences == t.starts + SetSum(names, x => Edge(s.dfg, x, a).frequency)
      && t.occurrences == t.ends + SetSum(names, x => Edge(s.dfg, a, x).frequency)
  {
    var names := s.activities.Keys;
    ListedCover(s, cases);
    FlowBalance(names, cases, a);
    SetSumSame(names, x => EdgeCount(cases, x, a), x => Edge(s.dfg, x, a).frequency);
    SetSumSame(names, x => EdgeCount(cases, a, x), x => Edge(s.dfg, a, x).frequency);
  }

  /** All listed edges together have one step for every event but the first of each case. */
  lemma SummaryEdges(s: Summary, cases: seq<Case>)
    requires Summarizes(s, cases) && forall c | c in cases :: c.events != []
    ensures
      var names := s.activities.Keys;
      SetSum(names, b => SetSum(names, a => Edge(s.dfg, a, b).frequency)) + s.caseCount == s.eventCount
  {
    var names := s.activities.Keys;
    ListedCover(s, cases);
    EdgeTotal(names, cases);
    forall b | b in names ensures SetSum(names, a => EdgeCount(cases, a, b)) == SetSum(names, a => Edge(s.dfg, a, b).frequency) {
      SetSumSame(names, a => EdgeCount(cases, a, b), a => Edge(s.dfg, a, b).frequency);
    }
    SetSumSame(names, b => SetSum(names, a => EdgeCount(cases, a, b)),
               b => SetSum(names, a => Edge(s.dfg, a, b).frequency));
  }

  /** All listed edges together take the time from the first to the last event of every case. */
  lemma SummaryTime(s: Summary, cases: seq<Case>)
    requires Summarizes(s, cases)
    ensures
      var names := s.activities.Keys;
      SetSum(names, b => SetSum(names, a => Edge(s.dfg, a, b).duration)) == CaseTime(cases)
  {
    var names := s.activities.Keys;
    ListedCover(s, cases);
    EdgeTimeTotal(names, cases);
    forall b | b in names ensures SetSum(names, a => EdgeTime(cases, a, b)) == SetSum(names, a => Edge(s.dfg, a, b).duration) {
      SetSumSame(names, a => EdgeTime(cases, a, b), a => Edge(s.dfg, a, b).duration);
    }
    SetSumSame(names, b => SetSum(names, a => EdgeTime(cases, a, b)),
               b => SetSum(names, a => Edge(s.dfg, a, b).duration));
  }
}
