/** What a compiled plan selects and counts, said of the rows of the database alone. */
module DynamicQueryAnswer {
  import opened Basics
  import opened SetSums
  import opened DynamicQuery
  import opened DynamicQueryMeaning

  /** Two keys name columns, in which empty texts count for nothing; every other key is looked up among the attributes. */
  predicate AttributeIs(e: EventRow, key: string, value: string) {
    if key == "actor" || key == "updated_by" then e.updatedBy == Some(value) && value != ""
    else if key == "context" then e.context == Some(value) && value != ""
    else key in e.attributes && e.attributes[key] == value
  }

  /** An event of the case within the dates carries the value. */
  ghost predicate Carried(q: Request, db: Database, c: int, f: AttributeFilter) {
    exists e :: e in db.events && e.caseId == c && q.fromDate <= e.timestamp && e.timestamp <= q.toDate && AttributeIs(e, f.key, f.value)
  }

  /** Two events of the case with none between them. */
  ghost predicate Neighbours(log: set<LogRow>, r: LogRow, s: LogRow) {
    && r in log && s in log && r.caseId == s.caseId && r.ordinal < s.ordinal
    && forall u | u in log && u.caseId == r.caseId :: u.ordinal <= r.ordinal || s.ordinal <= u.ordinal
  }

  /** Somewhere in the case the source is directly followed by the target, within the time. */
  ghost predicate Taken(db: Database, c: int, f: EdgeFilter) {
    exists r, s ::
      && Neighbours(db.log, r, s) && r.caseId == c && r.activity == f.source && s.activity == f.target
      && f.minTime <= s.timestamp - r.timestamp && (f.maxTime.Some? ==> s.timestamp - r.timestamp <= f.maxTime.value)
  }

  lemma CarriedIs(q: Request, db: Database, c: int, f: AttributeFilter)
    ensures Carried(q, db, c, f) <==> HasAttribute(q, db, c, f)
  {
    forall e ensures AttributeIs(e, f.key, f.value) <==> AttributeOf(e, f.key) == Some(f.value) {
    }
  }

  lemma NeighboursAre(log: set<LogRow>, r: LogRow, s: LogRow)
    requires r in log
    ensures Neighbours(log, r, s) <==> Follows(log, r, s)
  {
  }

  lemma TakenIs(db: Database, c: int, f: EdgeFilter)
    ensures Taken(db, c, f) <==> HasStep(db, c, f)
  {
    hide Neighbours, Follows;
    if Taken(db, c, f) {
      var r, s :|
        && Neighbours(db.log, r, s) && r.caseId == c && r.activity == f.source && s.activity == f.target
        && f.minTime <= s.timestamp - r.timestamp && (f.maxTime.Some? ==> s.timestamp - r.timestamp <= f.maxTime.value);
      FirstIsThere(db.log, r, s);
      NeighboursAre(db.log, r, s);
      assert StepFits(r, s, f);
    }
    if HasStep(db, c, f) {
      var r, s :| r in db.log && r.caseId == c && Follows(db.log, r, s) && StepFits(r, s, f);
      NeighboursAre(db.log, r, s);
    }
  }

  lemma FirstIsThere(log: set<LogRow>, r: LogRow, s: LogRow)
    requires Neighbours(log, r, s)
    ensures r in log
  {
  }

  /**
   * A case is selected exactly when it lies within the dates, has one of the statuses asked for and all included
   * activities, no excluded one, a time between the bounds, and for every included attribute, related type and step
   * one that is there, for none of the excluded ones.
   */
  lemma SelectedIff(q: Request, db: Database, t: Tables, c: int)
    requires forall r, s | r in db.log && s in db.log && r.caseId == s.caseId && r.ordinal == s.ordinal :: r == s
    requires EvaluateAll(q, db, Some(NO_TABLES), Plan(q.filter)) == Some(t)
    ensures Selected in t.sets
    ensures c in t.sets[Selected] <==>
      && c in db.cases
      && q.fromDate <= db.cases[c].start && db.cases[c].end <= q.toDate
      && (q.filter.statuses == [] || db.cases[c].status in q.filter.statuses)
      && (forall a | a in q.filter.includedActivities :: a in db.cases[c].activities)
      && (forall a | a in q.filter.excludedActivities :: a !in db.cases[c].activities)
      && (q.filter.minCaseTime.Some? ==>
            && q.filter.maxCaseTime.Some?
            && q.filter.minCaseTime.value <= db.cases[c].execution <= q.filter.maxCaseTime.value)
      && (forall f | f in q.filter.includedAttributes :: Carried(q, db, c, f))
      && (forall f | f in q.filter.excludedAttributes :: !Carried(q, db, c, f))
      && (forall x | x in q.filter.includedTypes :: (c, x) in db.links)
      && (forall x | x in q.filter.excludedTypes :: (c, x) !in db.links)
      && (forall f | f in q.filter.includedEdges :: Taken(db, c, f))
      && (forall f | f in q.filter.excludedEdges :: !Taken(db, c, f))
  {
    hide EvaluateAll, Plan, HasAttribute, HasStep, Carried, Taken;
    var u := PlanSelectsWhatIsAsked(q, db);
    forall f ensures Carried(q, db, c, f) <==> HasAttribute(q, db, c, f) {
      CarriedIs(q, db, c, f);
    }
    forall f ensures Taken(db, c, f) <==> HasStep(db, c, f) {
      TakenIs(db, c, f);
    }
  }

  // ---------- the graph ----------

  function Elapsed(step: (LogRow, LogRow)): int {
    step.1.timestamp - step.0.timestamp
  }

  /** The steps of the selected cases from one activity to the other. */
  ghost function StepsBetween(db: Database, selected: set<int>, a: string, b: string): set<(LogRow, LogRow)> {
    set r, s | r in db.log && s in db.log && r.caseId in selected && Neighbours(db.log, r, s) && r.activity == a && s.activity == b
      :: (r, s)
  }

  ghost function WithTargets(rows: set<(LogRow, Option<LogRow>)>): set<(LogRow, LogRow)> {
    set e | e in rows && e.1.Some? :: (e.0, e.1.value)
  }

  lemma {:induction false} OneStepEach(rows: set<(LogRow, Option<LogRow>)>)
    requires forall e | e in rows :: e.1.Some?
    ensures |WithTargets(rows)| == |rows| && SetSum(WithTargets(rows), Elapsed) == SetSum(rows, StepTime)
    decreases |rows|
  {
    if rows == {} {
      assert WithTargets(rows) == {};
    } else {
      var e :| e in rows;
      var step := (e.0, e.1.value);
      OneStepEach(rows - {e});
      assert WithTargets(rows) == WithTargets(rows - {e}) + {step};
      assert step !in WithTargets(rows - {e});
      SetSumRemove(rows, StepTime, e);
      SetSumRemove(WithTargets(rows), Elapsed, step);
      assert WithTargets(rows) - {step} == WithTargets(rows - {e});
    }
  }

  lemma StepsAreRows(db: Database, selected: set<int>, a: string, b: string)
    requires UniqueOrdinals(db.log)
    ensures WithTargets(GraphRows(LeadEdges(db.log), selected, a, b)) == StepsBetween(db, selected, a, b)
  {
    hide Neighbours, Follows, UniqueOrdinals;
    var rows, steps := GraphRows(LeadEdges(db.log), selected, a, b), StepsBetween(db, selected, a, b);
    forall r, s ensures (r, s) in WithTargets(rows) <==> (r, s) in steps {
      if (r, s) in WithTargets(rows) {
        var e :| e in rows && e.1.Some? && (e.0, e.1.value) == (r, s);
        assert e == (r, Some(s)) && Lead(db.log, r) == Some(s) && Follows(db.log, r, s);
        NeighboursAre(db.log, r, s);
        SecondIsThere(db.log, r, s);
      }
      if (r, s) in steps {
        NeighboursAre(db.log, r, s);
        LeadIs(db.log, r, s);
        assert (r, Lead(db.log, r)) in LeadEdges(db.log);
        assert (r, Some(s)) in rows && (r, Some(s)).1.Some?;
      }
    }
  }

  lemma SecondIsThere(log: set<LogRow>, r: LogRow, s: LogRow)
    requires Follows(log, r, s)
    ensures s in log
  {
  }

  /** An edge of the graph counts the steps of the selected cases in the log, and adds up the time they take. */
  lemma GraphIs(q: Request, db: Database, t: Tables, a: string, b: string)
    requires forall r, s | r in db.log && s in db.log && r.caseId == s.caseId && r.ordinal == s.ordinal :: r == s
    requires q.filter.includedEdges != [] || q.filter.excludedEdges != []
    requires EvaluateAll(q, db, Some(NO_TABLES), Plan(q.filter)) == Some(t)
    ensures Selected in t.sets && t.lifecycleEdges.Some?
    ensures
      var steps := StepsBetween(db, t.sets[Selected], a, b);
      GraphEdgeOf(t.lifecycleEdges.value, t.sets[Selected], a, b) == GraphEdge(|steps|, SetSum(steps, Elapsed))
  {
    hide EvaluateAll, Plan, LeadEdges, LogOf, StepsBetween, Sifted, GraphRows, WithTargets;
    GraphIsOfWholeLog(q, db, t, a, b);
    var u := PlanSelectsWhatIsAsked(q, db);
    var rows := GraphRows(LeadEdges(db.log), t.sets[Selected], a, b);
    StepsAreRows(db, t.sets[Selected], a, b);
    RowsHaveTargets(LeadEdges(db.log), t.sets[Selected], a, b);
    OneStepEach(rows);
  }

  lemma RowsHaveTargets(edges: set<(LogRow, Option<LogRow>)>, selected: set<int>, a: string, b: string)
    ensures forall e | e in GraphRows(edges, selected, a, b) :: e.1.Some?
  {
  }
}
