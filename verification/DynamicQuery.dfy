/** The dynamic filter compiler: its plans of common table expressions, what they evaluate to, and what the filter asks. */
module DynamicQuery {
  import opened Basics

  // ---------- requests ----------

  datatype AttributeFilter = AttributeFilter(key: string, value: string)

  /** `maxTime` of `None` is the infinite default. */
  datatype EdgeFilter = EdgeFilter(source: string, target: string, minTime: int, maxTime: Option<int>)

  datatype Filter = Filter(
    statuses: seq<string>,
    includedActivities: seq<string>,
    excludedActivities: seq<string>,
    minCaseTime: Option<int>,
    maxCaseTime: Option<int>,
    includedAttributes: seq<AttributeFilter>,
    excludedAttributes: seq<AttributeFilter>,
    includedTypes: seq<string>,
    excludedTypes: seq<string>,
    includedEdges: seq<EdgeFilter>,
    excludedEdges: seq<EdgeFilter>)

  datatype Request = Request(fromDate: int, toDate: int, filter: Filter)

  // ---------- database contents ----------

  datatype CaseRow = CaseRow(status: string, activities: set<string>, start: int, end: int, execution: int)

  datatype EventRow = EventRow(
    caseId: int, timestamp: int, context: Option<string>, updatedBy: Option<string>, attributes: map<string, string>)

  datatype LogRow = LogRow(caseId: int, activity: string, timestamp: int, ordinal: int)

  /** `links` pairs a case with the object types one hop away from it. */
  datatype Database = Database(cases: map<int, CaseRow>, events: set<EventRow>, links: set<(int, string)>, log: set<LogRow>)

  ghost predicate UniqueOrdinals(log: set<LogRow>) {
    forall r, s | r in log && s in log && r.caseId == s.caseId && r.ordinal == s.ordinal :: r == s
  }

  // ---------- three-valued logic ----------

  datatype Tri = Yes | No | Null

  function And(p: Tri, q: Tri): Tri {
    if p == No || q == No then No else if p == Null || q == Null then Null else Yes
  }

  function Or(p: Tri, q: Tri): Tri {
    if p == Yes || q == Yes then Yes else if p == Null || q == Null then Null else No
  }

  function Equal(x: Option<string>, v: string): Tri {
    if x == None then Null else if x.value == v then Yes else No
  }

  function NullIfEmpty(x: Option<string>): Option<string> {
    if x == Some("") then None else x
  }

  function Test(b: bool): Tri {
    if b then Yes else No
  }

  /** The selected attribute of an event row: two columns by name, the rest from the attribute map. */
  function AttributeOf(e: EventRow, key: string): Option<string> {
    if key == "actor" || key == "updated_by" then NullIfEmpty(e.updatedBy)
    else if key == "context" then NullIfEmpty(e.context)
    else if key in e.attributes then Some(e.attributes[key]) else None
  }

  function AttributeTest(e: EventRow, f: AttributeFilter): Tri {
    Equal(AttributeOf(e, f.key), f.value)
  }

  /** `bool_or` skips nulls and is null when nothing else is there. */
  ghost function BoolOr<R(!new)>(group: set<R>, test: R -> Tri): Tri {
    if exists r :: r in group && test(r) == Yes then Yes
    else if exists r :: r in group && test(r) == No then No
    else Null
  }

  ghost function Having<R(!new), F>(group: set<R>, filters: seq<F>, test: (R, F) -> Tri): Tri {
    if filters == [] then Yes
    else And(BoolOr(group, r => test(r, filters[0])), Having(group, filters[1..], test))
  }

  function AnyOf<R, F>(r: R, filters: seq<F>, test: (R, F) -> Tri): Tri {
    if filters == [] then No else Or(test(r, filters[0]), AnyOf(r, filters[1..], test))
  }

  lemma {:induction false} HavingIff<R(!new), F(!new)>(group: set<R>, filters: seq<F>, test: (R, F) -> Tri)
    ensures Having(group, filters, test) == Yes <==>
            forall i | 0 <= i < |filters| :: exists r :: r in group && test(r, filters[i]) == Yes
  {
    if filters != [] {
      HavingIff(group, filters[1..], test);
      var first := BoolOr(group, r => test(r, filters[0]));
      assert first == Yes <==> exists r :: r in group && test(r, filters[0]) == Yes;
      assert forall i | 1 <= i < |filters| :: filters[i] == filters[1..][i - 1];
    }
  }

  lemma {:induction false} AnyOfIff<R(!new), F(!new)>(r: R, filters: seq<F>, test: (R, F) -> Tri)
    ensures AnyOf(r, filters, test) == Yes <==> exists i :: 0 <= i < |filters| && test(r, filters[i]) == Yes
  {
    if filters != [] {
      AnyOfIff(r, filters[1..], test);
      assert forall i | 1 <= i < |filters| :: filters[i] == filters[1..][i - 1];
      if AnyOf(r, filters[1..], test) == Yes {
        var i :| 0 <= i < |filters| - 1 && test(r, filters[1..][i]) == Yes;
        assert test(r, filters[i + 1]) == Yes;
      }
    }
  }

  // ---------- what the filter asks ----------

  /** `%(min)s IS NULL OR time BETWEEN min AND max`, a missing bound being null. */
  predicate SqlRange(min: Option<int>, max: Option<int>, time: int) {
    min.None? || (max.Some? && min.value <= time <= max.value)
  }

  /** Between the bounds that are given. */
  predicate Within(min: Option<int>, max: Option<int>, time: int) {
    (min.Some? ==> min.value <= time) && (max.Some? ==> time <= max.value)
  }

  /** The condition means its interval exactly when both bounds are given or neither. */
  lemma RangeIsIntervalIff(min: Option<int>, max: Option<int>)
    ensures (forall time :: SqlRange(min, max, time) <==> Within(min, max, time)) <==> (min.Some? <==> max.Some?)
  {
    if min.None? && max.Some? {
      assert SqlRange(min, max, max.value + 1) && !Within(min, max, max.value + 1);
    }
    if min.Some? && max.None? {
      assert !SqlRange(min, max, min.value) && Within(min, max, min.value);
    }
  }

  predicate InBase(q: Request, row: CaseRow) {
    && row.start >= q.fromDate && row.end <= q.toDate
    && (q.filter.statuses == [] || row.status in q.filter.statuses)
    && (forall a | a in q.filter.includedActivities :: a in row.activities)
    && (forall a | a in q.filter.excludedActivities :: a !in row.activities)
    && SqlRange(q.filter.minCaseTime, q.filter.maxCaseTime, row.execution)
  }

  /** What is asked of the case itself: within the dates, one of the statuses, all these activities, none of those. */
  predicate CaseMet(q: Request, row: CaseRow) {
    && q.fromDate <= row.start && row.end <= q.toDate
    && (q.filter.statuses != [] ==> row.status in q.filter.statuses)
    && Names(q.filter.includedActivities) <= row.activities
    && Names(q.filter.excludedActivities) !! row.activities
    && Within(q.filter.minCaseTime, q.filter.maxCaseTime, row.execution)
  }

  predicate PairedBounds(f: Filter) {
    f.minCaseTime.Some? <==> f.maxCaseTime.Some?
  }

  lemma BaseMeansCase(q: Request, row: CaseRow)
    ensures SqlRange(q.filter.minCaseTime, q.filter.maxCaseTime, row.execution)
            == Within(q.filter.minCaseTime, q.filter.maxCaseTime, row.execution)
            ==> (InBase(q, row) <==> CaseMet(q, row))
  {
    var f := q.filter;
    assert Names(f.includedActivities) <= row.activities <==> forall a | a in f.includedActivities :: a in row.activities;
    assert Names(f.excludedActivities) !! row.activities <==> forall a | a in f.excludedActivities :: a !in row.activities;
  }

  /**
   * For dates in order, the base table means what is asked of every case exactly when the bounds on case time come in
   * a pair, or when no case can qualify because an activity is both included and excluded.
   */
  lemma BaseMeansCaseIff(q: Request)
    requires q.fromDate <= q.toDate
    ensures (forall row: CaseRow | row.start <= row.end :: InBase(q, row) <==> CaseMet(q, row))
            <==> PairedBounds(q.filter) || !(Names(q.filter.includedActivities) !! Names(q.filter.excludedActivities))
  {
    var f := q.filter;
    forall row: CaseRow | PairedBounds(f) ensures InBase(q, row) <==> CaseMet(q, row) {
      RangeIsIntervalIff(f.minCaseTime, f.maxCaseTime);
      BaseMeansCase(q, row);
    }
    if !PairedBounds(f) && Names(f.includedActivities) !! Names(f.excludedActivities) {
      var time := if f.minCaseTime.Some? then f.minCaseTime.value else f.maxCaseTime.value + 1;
      var row := CaseRow(if f.statuses == [] then "" else f.statuses[0], Names(f.includedActivities), q.fromDate, q.toDate, time);
      assert row.start <= row.end && InBase(q, row) != CaseMet(q, row);
    }
    if a :| a in Names(f.includedActivities) && a in Names(f.excludedActivities) {
      forall row: CaseRow ensures !InBase(q, row) && !CaseMet(q, row) {
        assert a in f.includedActivities && a in f.excludedActivities;
      }
    }
  }

  ghost function BaseCases(q: Request, db: Database): set<int> {
    set c | c in db.cases && InBase(q, db.cases[c])
  }

  ghost predicate HasAttribute(q: Request, db: Database, c: int, f: AttributeFilter) {
    exists e :: e in db.events && e.caseId == c && q.fromDate <= e.timestamp <= q.toDate && AttributeOf(e, f.key) == Some(f.value)
  }

  ghost predicate AttributesMet(q: Request, db: Database, c: int) {
    && (forall f | f in q.filter.includedAttributes :: HasAttribute(q, db, c, f))
    && (forall f | f in q.filter.excludedAttributes :: !HasAttribute(q, db, c, f))
  }

  ghost predicate RelationsMet(q: Request, db: Database, c: int) {
    && (forall t | t in q.filter.includedTypes :: (c, t) in db.links)
    && (forall t | t in q.filter.excludedTypes :: (c, t) !in db.links)
  }

  /** `s` is the event of its case that directly follows `r`. */
  ghost predicate Follows(log: set<LogRow>, r: LogRow, s: LogRow) {
    && s in log && s.caseId == r.caseId && s.ordinal > r.ordinal
    && forall u | u in log && u.caseId == r.caseId && u.ordinal > r.ordinal :: u.ordinal >= s.ordinal
  }

  predicate StepFits(r: LogRow, s: LogRow, f: EdgeFilter) {
    && r.activity == f.source && s.activity == f.target
    && f.minTime <= s.timestamp - r.timestamp && (f.maxTime.Some? ==> s.timestamp - r.timestamp <= f.maxTime.value)
  }

  ghost predicate HasStep(db: Database, c: int, f: EdgeFilter) {
    exists r, s :: r in db.log && r.caseId == c && Follows(db.log, r, s) && StepFits(r, s, f)
  }

  ghost predicate StepsMet(q: Request, db: Database, c: int) {
    && (forall f | f in q.filter.includedEdges :: HasStep(db, c, f))
    && (forall f | f in q.filter.excludedEdges :: !HasStep(db, c, f))
  }

  /** Every included predicate has a witness, no excluded one has. */
  ghost function Asked(q: Request, db: Database): set<int> {
    set c | c in db.cases && CaseMet(q, db.cases[c]) && AttributesMet(q, db, c) && RelationsMet(q, db, c) && StepsMet(q, db, c)
  }

  /** The same with the base table's own reading of the bounds on case time. */
  ghost function Sifted(q: Request, db: Database): set<int> {
    set c | c in BaseCases(q, db) && AttributesMet(q, db, c) && RelationsMet(q, db, c) && StepsMet(q, db, c)
  }

  // ---------- plans ----------

  datatype Name =
    | Base | AttributeIncluded | AttributeExcluded | RelationIncluded | RelationExcluded
    | Preselected | EdgeIncluded | EdgeExcluded | Selected

  /** `SelectChain` is a select with INTERSECTs and then EXCEPTs. */
  datatype Cte =
    | SelectBase
    | SelectEventRows
    | GroupByAttributes(included: seq<AttributeFilter>)
    | WithAttribute(excluded: seq<AttributeFilter>)
    | SelectConnected
    | GroupByTypes(types: seq<string>, distinct: nat)
    | WithType(types: seq<string>)
    | SelectChain(name: Name, first: Name, intersect: seq<Name>, except: seq<Name>)
    | JoinLifecycleEvents
    | LeadLifecycleEdges
    | GroupByEdges(includedEdges: seq<EdgeFilter>)
    | WithEdge(excludedEdges: seq<EdgeFilter>)

  /** The tables defined so far. */
  datatype Tables = Tables(
    sets: map<Name, set<int>>,
    eventRows: Option<set<EventRow>>,
    connected: Option<set<(int, string)>>,
    lifecycleEvents: Option<set<LogRow>>,
    lifecycleEdges: Option<set<(LogRow, Option<LogRow>)>>)

  const NO_TABLES := Tables(map[], None, None, None, None)

  ghost function Lead(log: set<LogRow>, r: LogRow): Option<LogRow> {
    if exists s :: Follows(log, r, s) then var s :| Follows(log, r, s); Some(s) else None
  }

  ghost function LeadEdges(log: set<LogRow>): set<(LogRow, Option<LogRow>)> {
    set r | r in log :: (r, Lead(log, r))
  }

  function EdgeTest(e: (LogRow, Option<LogRow>), f: EdgeFilter): Tri {
    if e.1.None? then Null else Test(StepFits(e.0, e.1.value, f))
  }

  ghost function Intersected(tables: Tables, s: set<int>, names: seq<Name>): set<int>
    requires forall n | n in names :: n in tables.sets
  {
    if names == [] then s else Intersected(tables, s * tables.sets[names[0]], names[1..])
  }

  ghost function Excepted(tables: Tables, s: set<int>, names: seq<Name>): set<int>
    requires forall n | n in names :: n in tables.sets
  {
    if names == [] then s else Excepted(tables, s - tables.sets[names[0]], names[1..])
  }

  ghost function Define(tables: Tables, name: Name, s: set<int>): Tables {
    tables.(sets := tables.sets[name := s])
  }

  /** The rows of one case: what GROUP BY hands to HAVING. */
  function EventsOf(rows: set<EventRow>, c: int): set<EventRow> {
    set e | e in rows && e.caseId == c
  }

  function EdgesOf(rows: set<(LogRow, Option<LogRow>)>, c: int): set<(LogRow, Option<LogRow>)> {
    set e | e in rows && e.0.caseId == c
  }

  function TypesOf(rows: set<(int, string)>, c: int): set<string> {
    set l | l in rows && l.0 == c :: l.1
  }

  function Names(types: seq<string>): set<string> {
    set t | t in types
  }

  /** The tables after one more definition, or nothing when it refers to a table that is not there. */
  ghost function Evaluate(q: Request, db: Database, tables: Tables, cte: Cte): Option<Tables> {
    match cte
    case SelectBase => Some(Define(tables, Base, BaseCases(q, db)))
    case SelectEventRows =>
      if Base !in tables.sets then None
      else
        Some(tables.(eventRows :=
          Some(set e | e in db.events && q.fromDate <= e.timestamp <= q.toDate && e.caseId in tables.sets[Base])))
    case GroupByAttributes(filters) =>
      if tables.eventRows.None? then None
      else
        var rows := tables.eventRows.value;
        Some(Define(tables, AttributeIncluded,
          set e | e in rows && Having(EventsOf(rows, e.caseId), filters, AttributeTest) == Yes :: e.caseId))
    case WithAttribute(filters) =>
      if tables.eventRows.None? then None
      else
        Some(Define(tables, AttributeExcluded,
          set e | e in tables.eventRows.value && AnyOf(e, filters, AttributeTest) == Yes :: e.caseId))
    case SelectConnected =>
      if Base !in tables.sets then None
      else Some(tables.(connected := Some(set l | l in db.links && l.0 in tables.sets[Base])))
    case GroupByTypes(types, distinct) =>
      if tables.connected.None? then None
      else
        var rows := set l | l in tables.connected.value && l.1 in types;
        Some(Define(tables, RelationIncluded,
          set l | l in rows && |TypesOf(rows, l.0)| == distinct :: l.0))
    case WithType(types) =>
      if tables.connected.None? then None
      else Some(Define(tables, RelationExcluded, set l | l in tables.connected.value && l.1 in types :: l.0))
    case SelectChain(name, first, intersect, except) =>
      if first !in tables.sets || exists n :: n in intersect + except && n !in tables.sets then None
      else
        assert forall n :: n in intersect || n in except ==> n in intersect + except;
        Some(Define(tables, name, Excepted(tables, Intersected(tables, tables.sets[first], intersect), except)))
    case JoinLifecycleEvents =>
      if Preselected !in tables.sets then None
      else Some(tables.(lifecycleEvents := Some(set r | r in db.log && r.caseId in tables.sets[Preselected])))
    case LeadLifecycleEdges =>
      if tables.lifecycleEvents.None? then None
      else Some(tables.(lifecycleEdges := Some(LeadEdges(tables.lifecycleEvents.value))))
    case GroupByEdges(filters) =>
      if tables.lifecycleEdges.None? then None
      else
        var rows := set e | e in tables.lifecycleEdges.value && e.1.Some?;
        Some(Define(tables, EdgeIncluded,
          set e | e in rows && Having(EdgesOf(rows, e.0.caseId), filters, EdgeTest) == Yes :: e.0.caseId))
    case WithEdge(filters) =>
      if tables.lifecycleEdges.None? then None
      else
        Some(Define(tables, EdgeExcluded,
          set e | e in tables.lifecycleEdges.value && e.1.Some? && AnyOf(e, filters, EdgeTest) == Yes :: e.0.caseId))
  }

  ghost function EvaluateAll(q: Request, db: Database, tables: Option<Tables>, plan: seq<Cte>): Option<Tables>
    decreases |plan|
  {
    if plan == [] || tables.None? then tables
    else EvaluateAll(q, db, Evaluate(q, db, tables.value, plan[0]), plan[1..])
  }

  // ---------- the compiler ----------

  function When<T>(b: bool, x: T): seq<T> {
    if b then [x] else []
  }

  function AttributeStage(f: Filter): seq<Cte> {
    When(f.includedAttributes != [] || f.excludedAttributes != [], SelectEventRows)
    + When(f.includedAttributes != [], GroupByAttributes(f.includedAttributes))
    + When(f.excludedAttributes != [], WithAttribute(f.excludedAttributes))
  }

  function RelationStage(f: Filter): seq<Cte> {
    When(f.includedTypes != [] || f.excludedTypes != [], SelectConnected)
    + When(f.includedTypes != [], GroupByTypes(f.includedTypes, |Names(f.includedTypes)|))
    + When(f.excludedTypes != [], WithType(f.excludedTypes))
  }

  function FirstIncluded(f: Filter): seq<Name> {
    When(f.includedAttributes != [], AttributeIncluded) + When(f.includedTypes != [], RelationIncluded)
  }

  function FirstExcluded(f: Filter): seq<Name> {
    When(f.excludedAttributes != [], AttributeExcluded) + When(f.excludedTypes != [], RelationExcluded)
  }

  predicate HasEdgeFilters(f: Filter) {
    f.includedEdges != [] || f.excludedEdges != []
  }

  function EdgeStage(f: Filter): seq<Cte> {
    [JoinLifecycleEvents, LeadLifecycleEdges]
    + When(f.includedEdges != [], GroupByEdges(f.includedEdges))
    + When(f.excludedEdges != [], WithEdge(f.excludedEdges))
  }

  function SelectionStage(f: Filter): seq<Cte> {
    if !HasEdgeFilters(f) then [SelectChain(Selected, Base, FirstIncluded(f), FirstExcluded(f))]
    else
      [SelectChain(Preselected, Base, FirstIncluded(f), FirstExcluded(f))]
      + EdgeStage(f)
      + [SelectChain(Selected, Preselected,
                     When(f.includedEdges != [], EdgeIncluded), When(f.excludedEdges != [], EdgeExcluded))]
  }

  function Plan(f: Filter): seq<Cte> {
    [SelectBase] + AttributeStage(f) + RelationStage(f) + SelectionStage(f)
  }

  datatype Strategy = NativeEventStream | CompactBucketScan

  /** Appends the tables on event attributes. */
  method CompileAttributes(f: Filter, ctes: seq<Cte>) returns (ctes': seq<Cte>, included: seq<Name>, excluded: seq<Name>)
    ensures ctes' == ctes + AttributeStage(f)
    ensures included == When(f.includedAttributes != [], AttributeIncluded)
    ensures excluded == When(f.excludedAttributes != [], AttributeExcluded)
  {
    ctes', included, excluded := ctes, [], [];
    if f.includedAttributes != [] || f.excludedAttributes != [] {
      ctes' := ctes' + [SelectEventRows];
    }
    if f.includedAttributes != [] {
      ctes' := ctes' + [GroupByAttributes(f.includedAttributes)];
      included := included + [AttributeIncluded];
    }
    if f.excludedAttributes != [] {
      ctes' := ctes' + [WithAttribute(f.excludedAttributes)];
      excluded := excluded + [AttributeExcluded];
    }
    assert ctes' == ctes + AttributeStage(f);
  }

  /** Appends the tables on related object types. */
  method CompileRelations(f: Filter, ctes: seq<Cte>, included: seq<Name>, excluded: seq<Name>)
    returns (ctes': seq<Cte>, included': seq<Name>, excluded': seq<Name>)
    ensures ctes' == ctes + RelationStage(f)
    ensures included' == included + When(f.includedTypes != [], RelationIncluded)
    ensures excluded' == excluded + When(f.excludedTypes != [], RelationExcluded)
  {
    ctes', included', excluded' := ctes, included, excluded;
    if f.includedTypes != [] || f.excludedTypes != [] {
      ctes' := ctes' + [SelectConnected];
    }
    if f.includedTypes != [] {
      ctes' := ctes' + [GroupByTypes(f.includedTypes, |Names(f.includedTypes)|)];
      included' := included' + [RelationIncluded];
    }
    if f.excludedTypes != [] {
      ctes' := ctes' + [WithType(f.excludedTypes)];
      excluded' := excluded' + [RelationExcluded];
    }
    assert ctes' == ctes + RelationStage(f);
  }

  /** Appends the tables on lifecycle edges, of the cases preselected by then. */
  method CompileEdges(f: Filter, ctes: seq<Cte>) returns (ctes': seq<Cte>, included: seq<Name>, excluded: seq<Name>)
    ensures ctes' == ctes + EdgeStage(f)
    ensures included == When(f.includedEdges != [], EdgeIncluded)
    ensures excluded == When(f.excludedEdges != [], EdgeExcluded)
  {
    ctes', included, excluded := ctes + [JoinLifecycleEvents, LeadLifecycleEdges], [], [];
    if f.includedEdges != [] {
      ctes' := ctes' + [GroupByEdges(f.includedEdges)];
      included := included + [EdgeIncluded];
    }
    if f.excludedEdges != [] {
      ctes' := ctes' + [WithEdge(f.excludedEdges)];
      excluded := excluded + [EdgeExcluded];
    }
    assert ctes' == ctes + EdgeStage(f);
  }

  method Compile(q: Request) returns (ctes: seq<Cte>, strategy: Strategy)
    ensures ctes == Plan(q.filter)
    ensures strategy == if HasEdgeFilters(q.filter) then NativeEventStream else CompactBucketScan
  {
    hide AttributeStage, RelationStage, EdgeStage, When;
    var f := q.filter;
    ctes := [SelectBase];
    var included, excluded;
    ctes, included, excluded := CompileAttributes(f, ctes);
    ctes, included, excluded := CompileRelations(f, ctes, included, excluded);
    ghost var first := ctes;
    if f.includedEdges != [] || f.excludedEdges != [] {
      ghost var chain := SelectChain(Preselected, Base, included, excluded);
      ctes := ctes + [SelectChain(Preselected, Base, included, excluded)];
      ctes, included, excluded := CompileEdges(f, ctes);
      ctes := ctes + [SelectChain(Selected, Preselected, included, excluded)];
      Regroup(first, [chain], EdgeStage(f), [SelectChain(Selected, Preselected, included, excluded)]);
      strategy := NativeEventStream;
    } else {
      ctes := ctes + [SelectChain(Selected, Base, included, excluded)];
      strategy := CompactBucketScan;
    }
  }

  lemma Regroup<T>(a: seq<T>, b: seq<T>, c: seq<T>, d: seq<T>)
    ensures ((a + b) + c) + d == a + (b + c + d)
  {
  }
}
