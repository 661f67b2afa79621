/** The compiled plans select exactly what their filters ask for. */
module DynamicQueryMeaning {
  import opened Basics
  import opened SetSums
  import opened DynamicQuery

  lemma {:induction false} EvaluateConcat(q: Request, db: Database, t: Option<Tables>, a: seq<Cte>, b: seq<Cte>)
    ensures EvaluateAll(q, db, t, a + b) == EvaluateAll(q, db, EvaluateAll(q, db, t, a), b)
    decreases |a|
  {
    hide Evaluate;
    if a == [] {
      assert a + b == b;
    } else if t.Some? {
      assert (a + b)[1..] == a[1..] + b;
      EvaluateConcat(q, db, Evaluate(q, db, t.value, a[0]), a[1..], b);
    }
  }

  lemma EvaluateWhen(q: Request, db: Database, t: Tables, b: bool, cte: Cte)
    ensures EvaluateAll(q, db, Some(t), When(b, cte)) == if b then Evaluate(q, db, t, cte) else Some(t)
  {
    hide Evaluate;
    if b {
      assert [cte][1..] == [];
    }
  }

  // ---------- what each table holds ----------

  ghost function EventRows(q: Request, db: Database, base: set<int>): set<EventRow> {
    set e | e in db.events && q.fromDate <= e.timestamp <= q.toDate && e.caseId in base
  }

  lemma AttributeWitness(q: Request, db: Database, base: set<int>, f: AttributeFilter, c: int)
    ensures (exists e :: e in EventsOf(EventRows(q, db, base), c) && AttributeTest(e, f) == Yes)
            <==> c in base && HasAttribute(q, db, c, f)
  {
    hide AttributeOf;
    if c in base && HasAttribute(q, db, c, f) {
      var e :| e in db.events && e.caseId == c && q.fromDate <= e.timestamp <= q.toDate && AttributeOf(e, f.key) == Some(f.value);
      assert e in EventsOf(EventRows(q, db, base), c) && AttributeTest(e, f) == Yes;
    }
    if e :| e in EventsOf(EventRows(q, db, base), c) && AttributeTest(e, f) == Yes {
      assert e in db.events && AttributeOf(e, f.key) == Some(f.value);
    }
  }

  lemma GroupedByAttributes(q: Request, db: Database, base: set<int>, filters: seq<AttributeFilter>, c: int)
    requires filters != []
    ensures
      var rows := EventRows(q, db, base);
      (exists e :: e in rows && e.caseId == c && Having(EventsOf(rows, c), filters, AttributeTest) == Yes)
      <==> c in base && forall f | f in filters :: HasAttribute(q, db, c, f)
  {
    hide Having, EventRows, AttributeTest, HasAttribute;
    var rows := EventRows(q, db, base);
    HavingIff(EventsOf(rows, c), filters, AttributeTest);
    forall f | f in filters
      ensures (exists e :: e in EventsOf(rows, c) && AttributeTest(e, f) == Yes) <==> c in base && HasAttribute(q, db, c, f)
    {
      AttributeWitness(q, db, base, f, c);
    }
    if c in base && forall f | f in filters :: HasAttribute(q, db, c, f) {
      forall i | 0 <= i < |filters| ensures exists r :: r in EventsOf(rows, c) && AttributeTest(r, filters[i]) == Yes {
        assert filters[i] in filters;
      }
      var e :| e in EventsOf(rows, c) && AttributeTest(e, filters[0]) == Yes;
      assert e in rows && e.caseId == c;
    }
    if e :| e in rows && e.caseId == c && Having(EventsOf(rows, c), filters, AttributeTest) == Yes {
      forall f | f in filters ensures c in base && HasAttribute(q, db, c, f) {
        var i :| 0 <= i < |filters| && filters[i] == f;
        assert exists r :: r in EventsOf(rows, c) && AttributeTest(r, filters[i]) == Yes;
      }
      assert filters[0] in filters;
    }
  }

  lemma WithSomeAttribute(q: Request, db: Database, base: set<int>, filters: seq<AttributeFilter>, c: int)
    ensures
      (exists e :: e in EventRows(q, db, base) && e.caseId == c && AnyOf(e, filters, AttributeTest) == Yes)
      <==> c in base && exists f :: f in filters && HasAttribute(q, db, c, f)
  {
    hide AnyOf;
    var rows := EventRows(q, db, base);
    if e :| e in rows && e.caseId == c && AnyOf(e, filters, AttributeTest) == Yes {
      AnyOfIff(e, filters, AttributeTest);
      var i :| 0 <= i < |filters| && AttributeTest(e, filters[i]) == Yes;
      assert filters[i] in filters && HasAttribute(q, db, c, filters[i]);
    }
    if f :| c in base && f in filters && HasAttribute(q, db, c, f) {
      var e :| e in db.events && e.caseId == c && q.fromDate <= e.timestamp <= q.toDate && AttributeOf(e, f.key) == Some(f.value);
      var i :| 0 <= i < |filters| && filters[i] == f;
      AnyOfIff(e, filters, AttributeTest);
      assert AttributeTest(e, filters[i]) == Yes && e in rows;
    }
  }

  /** Counting distinct types among the wanted ones finds the cases that have them all. */
  lemma GroupedByTypes(links: set<(int, string)>, base: set<int>, types: seq<string>, c: int)
    requires types != []
    ensures
      var rows := set l | l in links && l.0 in base && l.1 in types;
      (exists l :: l in rows && l.0 == c && |TypesOf(rows, c)| == |Names(types)|)
      <==> c in base && forall t | t in types :: (c, t) in links
  {
    var rows := set l | l in links && l.0 in base && l.1 in types;
    assert TypesOf(rows, c) <= Names(types);
    if |TypesOf(rows, c)| == |Names(types)| {
      SubsetOfSameSize(TypesOf(rows, c), Names(types));
      forall t | t in types && c in base ensures (c, t) in links {
        assert t in TypesOf(rows, c);
        var l :| l in rows && l.0 == c && l.1 == t;
        assert l == (c, t);
      }
    }
    if c in base && forall t | t in types :: (c, t) in links {
      forall t | t in Names(types) ensures t in TypesOf(rows, c) {
        assert (c, t) in rows && (c, t).0 == c;
      }
      assert TypesOf(rows, c) == Names(types);
      assert types[0] in types && (c, types[0]) in rows && (c, types[0]).0 == c;
    }
  }

  lemma {:induction false} InChain(t: Tables, s: set<int>, names: seq<Name>, c: int)
    requires forall n | n in names :: n in t.sets
    ensures c in Intersected(t, s, names) <==> c in s && forall n | n in names :: c in t.sets[n]
    ensures c in Excepted(t, s, names) <==> c in s && forall n | n in names :: c !in t.sets[n]
    decreases |names|
  {
    if names != [] {
      InChain(t, s * t.sets[names[0]], names[1..], c);
      InChain(t, s - t.sets[names[0]], names[1..], c);
      assert forall n | n in names :: n == names[0] || n in names[1..];
    }
  }

  // ---------- lifecycles of preselected cases ----------

  ghost function LogOf(log: set<LogRow>, cases: set<int>): set<LogRow> {
    set r | r in log && r.caseId in cases
  }

  /** Leaving out whole cases changes no successor. */
  lemma PrunedFollows(log: set<LogRow>, cases: set<int>, r: LogRow, s: LogRow)
    requires r.caseId in cases
    ensures Follows(LogOf(log, cases), r, s) <==> Follows(log, r, s)
  {
  }

  lemma LeadIs(log: set<LogRow>, r: LogRow, s: LogRow)
    requires UniqueOrdinals(log) && Follows(log, r, s)
    ensures Lead(log, r) == Some(s)
  {
  }

  lemma PrunedLead(log: set<LogRow>, cases: set<int>, r: LogRow)
    requires UniqueOrdinals(log) && r in log && r.caseId in cases
    ensures Lead(LogOf(log, cases), r) == Lead(log, r)
  {
    hide Follows, UniqueOrdinals;
    if s :| Follows(log, r, s) {
      PrunedFollows(log, cases, r, s);
      LeadIs(log, r, s);
      PrunedUnique(log, cases);
      LeadIs(LogOf(log, cases), r, s);
    } else {
      forall s ensures !Follows(LogOf(log, cases), r, s) {
        PrunedFollows(log, cases, r, s);
      }
    }
  }

  lemma PrunedUnique(log: set<LogRow>, cases: set<int>)
    requires UniqueOrdinals(log)
    ensures UniqueOrdinals(LogOf(log, cases))
  {
  }

  /** Pairing the events of the preselected cases only gives the same edges for them as pairing all events. */
  lemma PruningKeepsEdges(log: set<LogRow>, preselected: set<int>, e: (LogRow, Option<LogRow>))
    requires UniqueOrdinals(log) && e.0.caseId in preselected
    ensures e in LeadEdges(LogOf(log, preselected)) <==> e in LeadEdges(log)
  {
    hide Lead;
    var pruned := LogOf(log, preselected);
    if e.0 in log {
      PrunedLead(log, preselected, e.0);
      assert e in LeadEdges(log) <==> e == (e.0, Lead(log, e.0));
      assert e in LeadEdges(pruned) <==> e == (e.0, Lead(pruned, e.0));
    }
  }

  /** The rows of the graph query: edges of selected cases that have a target, grouped by their activities. */
  ghost function GraphRows(edges: set<(LogRow, Option<LogRow>)>, selected: set<int>, a: string, b: string)
    : set<(LogRow, Option<LogRow>)>
  {
    set e | e in edges && e.0.caseId in selected && e.1.Some? && e.0.activity == a && e.1.value.activity == b
  }

  function StepTime(e: (LogRow, Option<LogRow>)): int {
    if e.1.Some? then e.1.value.timestamp - e.0.timestamp else 0
  }

  /** One edge of the graph: how often it is taken, and how long that takes in all. */
  datatype GraphEdge = GraphEdge(frequency: nat, duration: int)

  ghost function GraphEdgeOf(edges: set<(LogRow, Option<LogRow>)>, selected: set<int>, a: string, b: string): GraphEdge {
    var rows := GraphRows(edges, selected, a, b);
    GraphEdge(|rows|, SetSum(rows, StepTime))
  }

  lemma PruningKeepsGraph(log: set<LogRow>, preselected: set<int>, selected: set<int>, a: string, b: string)
    requires UniqueOrdinals(log) && selected <= preselected
    ensures GraphEdgeOf(LeadEdges(LogOf(log, preselected)), selected, a, b) == GraphEdgeOf(LeadEdges(log), selected, a, b)
  {
    hide LeadEdges, LogOf, UniqueOrdinals;
    var pruned, all := LeadEdges(LogOf(log, preselected)), LeadEdges(log);
    forall e: (LogRow, Option<LogRow>) | e.0.caseId in selected ensures e in pruned <==> e in all {
      PruningKeepsEdges(log, preselected, e);
    }
    assert GraphRows(pruned, selected, a, b) == GraphRows(all, selected, a, b);
  }

  ghost function TargetEdges(db: Database, cases: set<int>): set<(LogRow, Option<LogRow>)> {
    set e | e in LeadEdges(LogOf(db.log, cases)) && e.1.Some?
  }

  lemma EdgeWitness(db: Database, cases: set<int>, f: EdgeFilter, c: int)
    requires UniqueOrdinals(db.log)
    ensures (exists e :: e in TargetEdges(db, cases) && e.0.caseId == c && EdgeTest(e, f) == Yes)
            <==> c in cases && HasStep(db, c, f)
  {
    hide Follows, UniqueOrdinals, StepFits;
    var log := LogOf(db.log, cases);
    PrunedUnique(db.log, cases);
    if e :| e in TargetEdges(db, cases) && e.0.caseId == c && EdgeTest(e, f) == Yes {
      assert Follows(log, e.0, e.1.value);
      PrunedFollows(db.log, cases, e.0, e.1.value);
      assert StepFits(e.0, e.1.value, f) && e.0 in db.log;
    }
    if c in cases && HasStep(db, c, f) {
      var r, s :| r in db.log && r.caseId == c && Follows(db.log, r, s) && StepFits(r, s, f);
      PrunedFollows(db.log, cases, r, s);
      LeadIs(log, r, s);
      assert r in log && (r, Lead(log, r)) in LeadEdges(log);
      var e := (r, Some(s));
      assert e in TargetEdges(db, cases) && e.0.caseId == c && EdgeTest(e, f) == Yes;
    }
  }

  lemma GroupedByEdges(db: Database, cases: set<int>, filters: seq<EdgeFilter>, c: int)
    requires UniqueOrdinals(db.log) && filters != []
    ensures
      var rows := TargetEdges(db, cases);
      (exists e :: e in rows && e.0.caseId == c && Having(EdgesOf(rows, c), filters, EdgeTest) == Yes)
      <==> c in cases && forall f | f in filters :: HasStep(db, c, f)
  {
    hide Having, TargetEdges, EdgeTest, HasStep, UniqueOrdinals;
    var rows := TargetEdges(db, cases);
    HavingIff(EdgesOf(rows, c), filters, EdgeTest);
    forall f | f in filters
      ensures (exists e :: e in EdgesOf(rows, c) && EdgeTest(e, f) == Yes) <==> c in cases && HasStep(db, c, f)
    {
      EdgeWitness(db, cases, f, c);
      if e :| e in rows && e.0.caseId == c && EdgeTest(e, f) == Yes {
        assert e in EdgesOf(rows, c);
      }
    }
    if c in cases && forall f | f in filters :: HasStep(db, c, f) {
      forall i | 0 <= i < |filters| ensures exists r :: r in EdgesOf(rows, c) && EdgeTest(r, filters[i]) == Yes {
        assert filters[i] in filters;
      }
      var e :| e in EdgesOf(rows, c) && EdgeTest(e, filters[0]) == Yes;
      assert e in rows && e.0.caseId == c;
    }
    if e :| e in rows && e.0.caseId == c && Having(EdgesOf(rows, c), filters, EdgeTest) == Yes {
      forall f | f in filters ensures c in cases && HasStep(db, c, f) {
        var i :| 0 <= i < |filters| && filters[i] == f;
        assert exists r :: r in EdgesOf(rows, c) && EdgeTest(r, filters[i]) == Yes;
      }
      assert filters[0] in filters;
    }
  }

  lemma WithSomeEdge(db: Database, cases: set<int>, filters: seq<EdgeFilter>, c: int)
    requires UniqueOrdinals(db.log)
    ensures
      (exists e :: e in TargetEdges(db, cases) && e.0.caseId == c && AnyOf(e, filters, EdgeTest) == Yes)
      <==> c in cases && exists f :: f in filters && HasStep(db, c, f)
  {
    hide AnyOf, TargetEdges, EdgeTest, HasStep, UniqueOrdinals;
    var rows := TargetEdges(db, cases);
    if e :| e in rows && e.0.caseId == c && AnyOf(e, filters, EdgeTest) == Yes {
      AnyOfIff(e, filters, EdgeTest);
      var i :| 0 <= i < |filters| && EdgeTest(e, filters[i]) == Yes;
      EdgeWitness(db, cases, filters[i], c);
      assert filters[i] in filters;
    }
    if f :| c in cases && f in filters && HasStep(db, c, f) {
      EdgeWitness(db, cases, f, c);
      var e :| e in rows && e.0.caseId == c && EdgeTest(e, f) == Yes;
      var i :| 0 <= i < |filters| && filters[i] == f;
      AnyOfIff(e, filters, EdgeTest);
      assert EdgeTest(e, filters[i]) == Yes;
    }
  }

  // ---------- one definition at a time ----------

  lemma DefineAttributeIncluded(q: Request, db: Database, t: Tables, base: set<int>, filters: seq<AttributeFilter>)
    requires filters != [] && t.eventRows == Some(EventRows(q, db, base))
    ensures
      var u := Evaluate(q, db, t, GroupByAttributes(filters));
      u.Some? && u.value == Define(t, AttributeIncluded, u.value.sets[AttributeIncluded])
      && forall c :: c in u.value.sets[AttributeIncluded] <==> c in base && forall f | f in filters :: HasAttribute(q, db, c, f)
  {
    hide HasAttribute, Having, EventRows;
    var u := Evaluate(q, db, t, GroupByAttributes(filters)).value;
    forall c ensures c in u.sets[AttributeIncluded] <==> c in base && forall f | f in filters :: HasAttribute(q, db, c, f) {
      GroupedByAttributes(q, db, base, filters, c);
    }
  }

  lemma DefineAttributeExcluded(q: Request, db: Database, t: Tables, base: set<int>, filters: seq<AttributeFilter>)
    requires t.eventRows == Some(EventRows(q, db, base))
    ensures
      var u := Evaluate(q, db, t, WithAttribute(filters));
      u.Some? && u.value == Define(t, AttributeExcluded, u.value.sets[AttributeExcluded])
      && forall c :: c in u.value.sets[AttributeExcluded] <==> c in base && exists f :: f in filters && HasAttribute(q, db, c, f)
  {
    hide HasAttribute, AnyOf, EventRows;
    var u := Evaluate(q, db, t, WithAttribute(filters)).value;
    forall c
      ensures c in u.sets[AttributeExcluded] <==> c in base && exists f :: f in filters && HasAttribute(q, db, c, f)
    {
      WithSomeAttribute(q, db, base, filters, c);
    }
  }

  lemma DefineRelationIncluded(q: Request, db: Database, t: Tables, base: set<int>, types: seq<string>)
    requires types != [] && t.connected == Some(set l | l in db.links && l.0 in base)
    ensures
      var u := Evaluate(q, db, t, GroupByTypes(types, |Names(types)|));
      u.Some? && u.value == Define(t, RelationIncluded, u.value.sets[RelationIncluded])
      && forall c :: c in u.value.sets[RelationIncluded] <==> c in base && forall t | t in types :: (c, t) in db.links
  {
    hide TypesOf, Names;
    var u := Evaluate(q, db, t, GroupByTypes(types, |Names(types)|)).value;
    assert (set l | l in t.connected.value && l.1 in types) == (set l | l in db.links && l.0 in base && l.1 in types);
    forall c ensures c in u.sets[RelationIncluded] <==> c in base && forall t | t in types :: (c, t) in db.links {
      GroupedByTypes(db.links, base, types, c);
    }
  }

  lemma DefineRelationExcluded(q: Request, db: Database, t: Tables, base: set<int>, types: seq<string>)
    requires t.connected == Some(set l | l in db.links && l.0 in base)
    ensures
      var u := Evaluate(q, db, t, WithType(types));
      u.Some? && u.value == Define(t, RelationExcluded, u.value.sets[RelationExcluded])
      && forall c :: c in u.value.sets[RelationExcluded] <==> c in base && exists t :: t in types && (c, t) in db.links
  {
    var u := Evaluate(q, db, t, WithType(types)).value;
    forall c ensures c in u.sets[RelationExcluded] <==> c in base && exists t :: t in types && (c, t) in db.links {
      if c in u.sets[RelationExcluded] {
        var l :| l in t.connected.value && l.1 in types && l.0 == c;
        assert l == (c, l.1);
      }
      if x :| c in base && x in types && (c, x) in db.links {
        assert (c, x) in t.connected.value && (c, x).0 == c && (c, x).1 in types;
      }
    }
  }

  lemma DefineEdgeIncluded(q: Request, db: Database, t: Tables, cases: set<int>, filters: seq<EdgeFilter>)
    requires filters != [] && UniqueOrdinals(db.log) && t.lifecycleEdges == Some(LeadEdges(LogOf(db.log, cases)))
    ensures
      var u := Evaluate(q, db, t, GroupByEdges(filters));
      u.Some? && u.value == Define(t, EdgeIncluded, u.value.sets[EdgeIncluded])
      && forall c :: c in u.value.sets[EdgeIncluded] <==> c in cases && forall f | f in filters :: HasStep(db, c, f)
  {
    hide HasStep, Having, LeadEdges, LogOf, UniqueOrdinals;
    var u := Evaluate(q, db, t, GroupByEdges(filters)).value;
    assert (set e | e in t.lifecycleEdges.value && e.1.Some?) == TargetEdges(db, cases);
    forall c ensures c in u.sets[EdgeIncluded] <==> c in cases && forall f | f in filters :: HasStep(db, c, f) {
      GroupedByEdges(db, cases, filters, c);
    }
  }

  lemma DefineEdgeExcluded(q: Request, db: Database, t: Tables, cases: set<int>, filters: seq<EdgeFilter>)
    requires UniqueOrdinals(db.log) && t.lifecycleEdges == Some(LeadEdges(LogOf(db.log, cases)))
    ensures
      var u := Evaluate(q, db, t, WithEdge(filters));
      u.Some? && u.value == Define(t, EdgeExcluded, u.value.sets[EdgeExcluded])
      && forall c :: c in u.value.sets[EdgeExcluded] <==> c in cases && exists f :: f in filters && HasStep(db, c, f)
  {
    hide HasStep, AnyOf, LeadEdges, LogOf, UniqueOrdinals;
    var u := Evaluate(q, db, t, WithEdge(filters)).value;
    forall c
      ensures c in u.sets[EdgeExcluded] <==> c in cases && exists f :: f in filters && HasStep(db, c, f)
    {
      WithSomeEdge(db, cases, filters, c);
      assert c in u.sets[EdgeExcluded] <==>
        exists e :: e in TargetEdges(db, cases) && e.0.caseId == c && AnyOf(e, filters, EdgeTest) == Yes;
    }
  }

  // ---------- stage by stage ----------

  /** What the tables of the first stage say about the cases. */
  ghost predicate AttributesTold(q: Request, db: Database, t: Tables) {
    && Base in t.sets && t.sets[Base] == BaseCases(q, db)
    && (q.filter.includedAttributes != [] ==> AttributeIncluded in t.sets && forall c :: c in t.sets[AttributeIncluded] <==>
          c in BaseCases(q, db) && forall f | f in q.filter.includedAttributes :: HasAttribute(q, db, c, f))
    && (q.filter.excludedAttributes != [] ==> AttributeExcluded in t.sets && forall c :: c in t.sets[AttributeExcluded] <==>
          c in BaseCases(q, db) && exists f :: f in q.filter.excludedAttributes && HasAttribute(q, db, c, f))
  }

  ghost predicate RelationsTold(q: Request, db: Database, t: Tables) {
    && (q.filter.includedTypes != [] ==> RelationIncluded in t.sets && forall c :: c in t.sets[RelationIncluded] <==>
          c in BaseCases(q, db) && forall x | x in q.filter.includedTypes :: (c, x) in db.links)
    && (q.filter.excludedTypes != [] ==> RelationExcluded in t.sets && forall c :: c in t.sets[RelationExcluded] <==>
          c in BaseCases(q, db) && exists x :: x in q.filter.excludedTypes && (c, x) in db.links)
  }

  ghost predicate EdgesTold(q: Request, db: Database, t: Tables, cases: set<int>) {
    && Preselected in t.sets && t.sets[Preselected] == cases
    && (q.filter.includedEdges != [] ==> EdgeIncluded in t.sets && forall c :: c in t.sets[EdgeIncluded] <==>
          c in cases && forall f | f in q.filter.includedEdges :: HasStep(db, c, f))
    && (q.filter.excludedEdges != [] ==> EdgeExcluded in t.sets && forall c :: c in t.sets[EdgeExcluded] <==>
          c in cases && exists f :: f in q.filter.excludedEdges && HasStep(db, c, f))
  }

  lemma Three(q: Request, db: Database, t: Tables, a: bool, x: Cte, b: bool, y: Cte, c: bool, z: Cte)
    ensures
      var first := if a then Evaluate(q, db, t, x) else Some(t);
      var second := if b && first.Some? then Evaluate(q, db, first.value, y) else first;
      var third := if c && second.Some? then Evaluate(q, db, second.value, z) else second;
      EvaluateAll(q, db, Some(t), When(a, x) + When(b, y) + When(c, z)) == third
  {
    hide Evaluate, When;
    var first := if a then Evaluate(q, db, t, x) else Some(t);
    var second := if b && first.Some? then Evaluate(q, db, first.value, y) else first;
    EvaluateConcat(q, db, Some(t), When(a, x) + When(b, y), When(c, z));
    EvaluateConcat(q, db, Some(t), When(a, x), When(b, y));
    EvaluateWhen(q, db, t, a, x);
    if first.Some? {
      EvaluateWhen(q, db, first.value, b, y);
      if second.Some? {
        EvaluateWhen(q, db, second.value, c, z);
      }
    }
  }

  lemma RunAttributes(q: Request, db: Database, t: Tables) returns (u: Tables)
    requires t == Define(NO_TABLES, Base, BaseCases(q, db))
    ensures EvaluateAll(q, db, Some(t), AttributeStage(q.filter)) == Some(u) && AttributesTold(q, db, u)
  {
    hide HasAttribute, BaseCases, EvaluateAll, When;
    var inc, exc, base := q.filter.includedAttributes, q.filter.excludedAttributes, BaseCases(q, db);
    Three(q, db, t, inc != [] || exc != [], SelectEventRows, inc != [], GroupByAttributes(inc), exc != [], WithAttribute(exc));
    u := t;
    if inc != [] || exc != [] {
      u := t.(eventRows := Some(EventRows(q, db, base)));
      assert Evaluate(q, db, t, SelectEventRows) == Some(u);
    }
    if inc != [] {
      DefineAttributeIncluded(q, db, u, base, inc);
      u := Evaluate(q, db, u, GroupByAttributes(inc)).value;
    }
    if exc != [] {
      DefineAttributeExcluded(q, db, u, base, exc);
      u := Evaluate(q, db, u, WithAttribute(exc)).value;
    }
  }

  lemma RunRelations(q: Request, db: Database, t: Tables) returns (u: Tables)
    requires AttributesTold(q, db, t)
    ensures EvaluateAll(q, db, Some(t), RelationStage(q.filter)) == Some(u)
    ensures AttributesTold(q, db, u) && RelationsTold(q, db, u)
  {
    hide HasAttribute, BaseCases, EvaluateAll, When;
    var inc, exc, base := q.filter.includedTypes, q.filter.excludedTypes, BaseCases(q, db);
    Three(q, db, t, inc != [] || exc != [], SelectConnected, inc != [], GroupByTypes(inc, |Names(inc)|),
          exc != [], WithType(exc));
    u := t;
    if inc != [] || exc != [] {
      u := t.(connected := Some(set l | l in db.links && l.0 in base));
      assert Evaluate(q, db, t, SelectConnected) == Some(u);
    }
    if inc != [] {
      DefineRelationIncluded(q, db, u, base, inc);
      u := Evaluate(q, db, u, GroupByTypes(inc, |Names(inc)|)).value;
    }
    if exc != [] {
      DefineRelationExcluded(q, db, u, base, exc);
      u := Evaluate(q, db, u, WithType(exc)).value;
    }
  }

  /** The cases that meet the filters of the first stage. */
  ghost function FirstAsked(q: Request, db: Database): set<int> {
    set c | c in BaseCases(q, db) && AttributesMet(q, db, c) && RelationsMet(q, db, c)
  }

  lemma FirstIncludedTold(q: Request, db: Database, t: Tables, c: int)
    requires AttributesTold(q, db, t) && RelationsTold(q, db, t) && c in BaseCases(q, db)
    ensures forall n | n in FirstIncluded(q.filter) :: n in t.sets
    ensures (forall n | n in FirstIncluded(q.filter) :: c in t.sets[n])
            <==> (forall f | f in q.filter.includedAttributes :: HasAttribute(q, db, c, f))
                 && (forall x | x in q.filter.includedTypes :: (c, x) in db.links)
  {
    hide HasAttribute, BaseCases;
    var f, names := q.filter, FirstIncluded(q.filter);
    assert AttributeIncluded in names <==> f.includedAttributes != [];
    assert RelationIncluded in names <==> f.includedTypes != [];
  }

  lemma FirstExcludedTold(q: Request, db: Database, t: Tables, c: int)
    requires AttributesTold(q, db, t) && RelationsTold(q, db, t) && c in BaseCases(q, db)
    ensures forall n | n in FirstExcluded(q.filter) :: n in t.sets
    ensures (forall n | n in FirstExcluded(q.filter) :: c !in t.sets[n])
            <==> (forall f | f in q.filter.excludedAttributes :: !HasAttribute(q, db, c, f))
                 && (forall x | x in q.filter.excludedTypes :: (c, x) !in db.links)
  {
    hide HasAttribute, BaseCases;
    var f, names := q.filter, FirstExcluded(q.filter);
    assert AttributeExcluded in names <==> f.excludedAttributes != [];
    assert RelationExcluded in names <==> f.excludedTypes != [];
  }

  lemma RunFirstChain(q: Request, db: Database, t: Tables, name: Name)
    requires AttributesTold(q, db, t) && RelationsTold(q, db, t)
    ensures Evaluate(q, db, t, SelectChain(name, Base, FirstIncluded(q.filter), FirstExcluded(q.filter)))
            == Some(Define(t, name, FirstAsked(q, db)))
  {
    hide HasAttribute, BaseCases, RelationsTold;
    var base, inc, exc := BaseCases(q, db), FirstIncluded(q.filter), FirstExcluded(q.filter);
    FirstTablesThere(q, db, t);
    var inner := Intersected(t, base, inc);
    forall c ensures c in Excepted(t, inner, exc) <==> c in FirstAsked(q, db) {
      InChain(t, base, inc, c);
      InChain(t, inner, exc, c);
      if c in base {
        FirstIncludedTold(q, db, t, c);
        FirstExcludedTold(q, db, t, c);
      }
    }
    assert Excepted(t, inner, exc) == FirstAsked(q, db);
  }

  lemma FirstTablesThere(q: Request, db: Database, t: Tables)
    requires AttributesTold(q, db, t) && RelationsTold(q, db, t)
    ensures forall n | n in FirstIncluded(q.filter) + FirstExcluded(q.filter) :: n in t.sets
  {
    hide HasAttribute, BaseCases;
  }

  lemma RunEdges(q: Request, db: Database, t: Tables, cases: set<int>) returns (u: Tables)
    requires UniqueOrdinals(db.log) && Preselected in t.sets && t.sets[Preselected] == cases
    ensures EvaluateAll(q, db, Some(t), EdgeStage(q.filter)) == Some(u) && EdgesTold(q, db, u, cases)
    ensures u.lifecycleEdges == Some(LeadEdges(LogOf(db.log, cases)))
  {
    hide HasStep, EvaluateAll, When, LeadEdges, UniqueOrdinals;
    var inc, exc := q.filter.includedEdges, q.filter.excludedEdges;
    var v := t.(lifecycleEvents := Some(LogOf(db.log, cases)));
    assert Evaluate(q, db, t, JoinLifecycleEvents) == Some(v);
    u := v.(lifecycleEdges := Some(LeadEdges(LogOf(db.log, cases))));
    EvaluateConcat(q, db, Some(t), [JoinLifecycleEvents, LeadLifecycleEdges],
                   When(inc != [], GroupByEdges(inc)) + When(exc != [], WithEdge(exc)));
    TwoDefinitions(q, db, t, JoinLifecycleEvents, LeadLifecycleEdges);
    Three(q, db, u, false, LeadLifecycleEdges, inc != [], GroupByEdges(inc), exc != [], WithEdge(exc));
    NothingWhenFalse(LeadLifecycleEdges, When(inc != [], GroupByEdges(inc)));
    assert EdgeStage(q.filter) == [JoinLifecycleEvents, LeadLifecycleEdges]
                                  + (When(inc != [], GroupByEdges(inc)) + When(exc != [], WithEdge(exc)));
    if inc != [] {
      DefineEdgeIncluded(q, db, u, cases, inc);
      u := Evaluate(q, db, u, GroupByEdges(inc)).value;
    }
    if exc != [] {
      DefineEdgeExcluded(q, db, u, cases, exc);
      u := Evaluate(q, db, u, WithEdge(exc)).value;
    }
  }

  lemma NothingWhenFalse(x: Cte, more: seq<Cte>)
    ensures When(false, x) + more == more
  {
  }

  lemma TwoDefinitions(q: Request, db: Database, t: Tables, x: Cte, y: Cte)
    requires Evaluate(q, db, t, x).Some?
    ensures EvaluateAll(q, db, Some(t), [x, y]) == Evaluate(q, db, Evaluate(q, db, t, x).value, y)
  {
    hide Evaluate, EvaluateAll;
    EvaluateConcat(q, db, Some(t), [x], [y]);
    assert [x] + [y] == [x, y];
    OneDefinition(q, db, t, x);
    OneDefinition(q, db, Evaluate(q, db, t, x).value, y);
  }

  lemma OneDefinition(q: Request, db: Database, t: Tables, x: Cte)
    ensures EvaluateAll(q, db, Some(t), [x]) == Evaluate(q, db, t, x)
  {
    hide Evaluate;
    assert [x][1..] == [];
  }

  lemma RunSecondChain(q: Request, db: Database, t: Tables)
    requires EdgesTold(q, db, t, FirstAsked(q, db))
    ensures Evaluate(q, db, t, SelectChain(Selected, Preselected, When(q.filter.includedEdges != [], EdgeIncluded),
                                           When(q.filter.excludedEdges != [], EdgeExcluded)))
            == Some(Define(t, Selected, Sifted(q, db)))
  {
    hide HasStep, BaseCases, AttributesMet, RelationsMet;
    var f, first := q.filter, FirstAsked(q, db);
    var inc, exc := When(f.includedEdges != [], EdgeIncluded), When(f.excludedEdges != [], EdgeExcluded);
    var inner := Intersected(t, first, inc);
    forall c ensures c in Excepted(t, inner, exc) <==> c in Sifted(q, db) {
      InChain(t, first, inc, c);
      InChain(t, inner, exc, c);
      assert EdgeIncluded in inc <==> f.includedEdges != [];
      assert EdgeExcluded in exc <==> f.excludedEdges != [];
    }
    assert Excepted(t, inner, exc) == Sifted(q, db);
  }

  lemma NoEdgeFilters(q: Request, db: Database)
    requires !HasEdgeFilters(q.filter)
    ensures FirstAsked(q, db) == Sifted(q, db)
  {
    hide HasStep, BaseCases, AttributesMet, RelationsMet;
  }

  /**
   * Every plan evaluates without referring to a missing table, and selects exactly the cases that the filter asks
   * for when its case time bounds come in a pair. With edge filters, the lifecycle edges it leaves for the graph query
   * are those of the preselected cases.
   */
  lemma PlanSelectsWhatIsAsked(q: Request, db: Database) returns (t: Tables)
    requires UniqueOrdinals(db.log)
    ensures EvaluateAll(q, db, Some(NO_TABLES), Plan(q.filter)) == Some(t)
    ensures Selected in t.sets && t.sets[Selected] == Sifted(q, db)
    ensures PairedBounds(q.filter) ==> t.sets[Selected] == Asked(q, db)
    ensures HasEdgeFilters(q.filter) ==> t.lifecycleEdges == Some(LeadEdges(LogOf(db.log, FirstAsked(q, db))))
  {
    hide EvaluateAll, AttributeStage, RelationStage, EdgeStage, FirstAsked, Sifted, AttributesTold, RelationsTold, EdgesTold,
      Asked, PairedBounds, BaseCases, UniqueOrdinals, When, LeadEdges, LogOf;
    var f := q.filter;
    t := Define(NO_TABLES, Base, BaseCases(q, db));
    OneDefinition(q, db, NO_TABLES, SelectBase);
    EvaluateConcat(q, db, Some(NO_TABLES), [SelectBase] + AttributeStage(f) + RelationStage(f), SelectionStage(f));
    EvaluateConcat(q, db, Some(NO_TABLES), [SelectBase] + AttributeStage(f), RelationStage(f));
    EvaluateConcat(q, db, Some(NO_TABLES), [SelectBase], AttributeStage(f));
    t := RunAttributes(q, db, t);
    t := RunRelations(q, db, t);
    if HasEdgeFilters(f) {
      var chain := SelectChain(Preselected, Base, FirstIncluded(f), FirstExcluded(f));
      var last := SelectChain(Selected, Preselected, When(f.includedEdges != [], EdgeIncluded),
                              When(f.excludedEdges != [], EdgeExcluded));
      EvaluateConcat(q, db, Some(t), [chain] + EdgeStage(f), [last]);
      EvaluateConcat(q, db, Some(t), [chain], EdgeStage(f));
      OneDefinition(q, db, t, chain);
      RunFirstChain(q, db, t, Preselected);
      t := Define(t, Preselected, FirstAsked(q, db));
      t := RunEdges(q, db, t, FirstAsked(q, db));
      OneDefinition(q, db, t, last);
      RunSecondChain(q, db, t);
      t := Define(t, Selected, Sifted(q, db));
    } else {
      OneDefinition(q, db, t, SelectChain(Selected, Base, FirstIncluded(f), FirstExcluded(f)));
      RunFirstChain(q, db, t, Selected);
      NoEdgeFilters(q, db);
      t := Define(t, Selected, Sifted(q, db));
    }
    if PairedBounds(f) {
      SiftedIsAsked(q, db);
    }
  }

  lemma SiftedIsAsked(q: Request, db: Database)
    requires PairedBounds(q.filter)
    ensures Sifted(q, db) == Asked(q, db)
  {
    hide AttributesMet, RelationsMet, StepsMet, InBase, CaseMet;
    RangeIsIntervalIff(q.filter.minCaseTime, q.filter.maxCaseTime);
    forall c | c in db.cases ensures InBase(q, db.cases[c]) <==> CaseMet(q, db.cases[c]) {
      BaseMeansCase(q, db.cases[c]);
    }
  }

  /** The graph counted over the pruned edges is the graph of the selected cases over the whole log. */
  lemma GraphIsOfWholeLog(q: Request, db: Database, t: Tables, a: string, b: string)
    requires UniqueOrdinals(db.log) && HasEdgeFilters(q.filter)
    requires EvaluateAll(q, db, Some(NO_TABLES), Plan(q.filter)) == Some(t)
    ensures Selected in t.sets && t.lifecycleEdges.Some?
    ensures GraphEdgeOf(t.lifecycleEdges.value, t.sets[Selected], a, b) == GraphEdgeOf(LeadEdges(db.log), Sifted(q, db), a, b)
  {
    hide EvaluateAll, Plan, AttributesMet, RelationsMet, StepsMet, BaseCases, UniqueOrdinals, GraphEdgeOf, LeadEdges, LogOf;
    var u := PlanSelectsWhatIsAsked(q, db);
    PruningKeepsGraph(db.log, FirstAsked(q, db), Sifted(q, db), a, b);
  }
}
