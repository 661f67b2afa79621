/** The event-row stream as a flattened log: windows of cases of events. */
module EventLog {
  import opened Basics

  datatype EventRow = EventRow(window: int, caseId: int, activity: string, timestamp: int, ordinal: int)

  datatype Event = Event(activity: string, timestamp: int)

  datatype Case = Case(id: int, events: seq<Event>)

  // ---------- flattening ----------

  /** The rows of a case: its events numbered from one. */
  function RowsOfCase(w: int, c: Case): (rows: seq<EventRow>)
    ensures |rows| == |c.events|
  {
    seq(|c.events|, i requires 0 <= i < |c.events| =>
      EventRow(w, c.id, c.events[i].activity, c.events[i].timestamp, i + 1))
  }

  function RowsOfWindow(w: int, cases: seq<Case>): seq<EventRow> {
    if cases == [] then [] else RowsOfCase(w, cases[0]) + RowsOfWindow(w, cases[1..])
  }

  /** Windows are numbered in order, starting with `w`. */
  function RowsOfLog(w: int, log: seq<seq<Case>>): seq<EventRow>
    decreases |log|
  {
    if log == [] then [] else RowsOfWindow(w, log[0]) + RowsOfLog(w + 1, log[1..])
  }

  /** Cases have events, and neighbours are different cases: the cases are maximal runs. */
  ghost predicate Runs(cases: seq<Case>) {
    && (forall i | 0 <= i < |cases| :: cases[i].events != [])
    && (forall i | 0 <= i < |cases| - 1 :: cases[i].id != cases[i + 1].id)
  }

  ghost predicate WellFormedLog(log: seq<seq<Case>>) {
    forall i | 0 <= i < |log| :: Runs(log[i])
  }

  // ---------- reading a stream ----------

  /** `None` stands for a stream that is not ordered by case and ordinal. */
  datatype Reading = Reading(cases: seq<Case>, rest: seq<EventRow>)

  function NextOrdinal(open: Option<Case>, caseId: int): int {
    if open.Some? && open.value.id == caseId then |open.value.events| + 1 else 1
  }

  /** Reads the rows of window `w` behind an open case. */
  function ReadWindow(rows: seq<EventRow>, w: int, open: Option<Case>): (r: Option<Reading>)
    ensures r.Some? ==> |r.value.rest| <= |rows|
  {
    if rows == [] || rows[0].window != w then
      Some(Reading(if open.Some? then [open.value] else [], rows))
    else
      var row := rows[0];
      var event := Event(row.activity, row.timestamp);
      if row.ordinal != NextOrdinal(open, row.caseId) then None
      else if open.Some? && open.value.id == row.caseId then
        ReadWindow(rows[1..], w, Some(Case(row.caseId, open.value.events + [event])))
      else
        match ReadWindow(rows[1..], w, Some(Case(row.caseId, [event])))
        case None => None
        case Some(reading) =>
          Some(Reading((if open.Some? then [open.value] else []) + reading.cases, reading.rest))
  }

  datatype LogError = BadWindowCount | NotOrdered | UnexpectedWindow(window: int)

  datatype LogResult<+T> = Log(windows: seq<T>) | Failed(error: LogError)

  /** Reads `windows` windows numbered from `w`; nothing may be left over. */
  function ReadLog(rows: seq<EventRow>, w: int, windows: nat): LogResult<seq<Case>>
    decreases windows
  {
    if windows == 0 then (if rows == [] then Log([]) else Failed(UnexpectedWindow(rows[0].window)))
    else
      match ReadWindow(rows, w, None)
      case None => Failed(NotOrdered)
      case Some(reading) =>
        match ReadLog(reading.rest, w + 1, windows - 1)
        case Failed(error) => Failed(error)
        case Log(others) => Log([reading.cases] + others)
  }

  // ---------- reading is the inverse of flattening ----------

  ghost predicate Opens(open: Option<Case>, cases: seq<Case>) {
    open.Some? ==> open.value.events != [] && cases != [] && cases[0].id == open.value.id && open.value.events <= cases[0].events
  }

  function OpenRows(w: int, open: Option<Case>): seq<EventRow> {
    if open.Some? then RowsOfCase(w, open.value) else []
  }

  lemma RowsOfCaseGrow(w: int, c: Case, row: EventRow)
    requires row.window == w && row.caseId == c.id && row.ordinal == |c.events| + 1
    ensures RowsOfCase(w, Case(c.id, c.events + [Event(row.activity, row.timestamp)])) == RowsOfCase(w, c) + [row]
  {
  }

  lemma RowsOfNewCase(w: int, row: EventRow)
    requires row.window == w && row.ordinal == 1
    ensures RowsOfCase(w, Case(row.caseId, [Event(row.activity, row.timestamp)])) == [row]
  {
  }

  lemma RunsGrow(open: Option<Case>, cases: seq<Case>)
    requires Runs(cases) && cases != [] && (open.Some? ==> open.value.events != [] && open.value.id != cases[0].id)
    ensures Runs((if open.Some? then [open.value] else []) + cases)
  {
    var all := (if open.Some? then [open.value] else []) + cases;
    forall i | 0 <= i < |all| - 1 ensures all[i].id != all[i + 1].id {
      if open.Some? && i > 0 {
        assert cases[i - 1].id != cases[i].id;
      }
    }
  }

  /** What was read, flattened, is what the stream held. */
  lemma {:induction false} ReadWindowSound(rows: seq<EventRow>, w: int, open: Option<Case>)
    requires open.Some? ==> open.value.events != []
    requires ReadWindow(rows, w, open).Some?
    ensures
      var r := ReadWindow(rows, w, open).value;
      && Runs(r.cases) && Opens(open, r.cases)
      && OpenRows(w, open) + rows == RowsOfWindow(w, r.cases) + r.rest
      && (r.rest != [] ==> r.rest[0].window != w)
  {
    hide RowsOfCase, Runs;
    if rows == [] || rows[0].window != w {
      OneRun(w, open);
    } else {
      var row := rows[0];
      var event := Event(row.activity, row.timestamp);
      assert rows == [row] + rows[1..];
      if open.Some? && open.value.id == row.caseId {
        ReadWindowSound(rows[1..], w, Some(Case(row.caseId, open.value.events + [event])));
        RowsOfCaseGrow(w, open.value, row);
        assert OpenRows(w, open) + rows == OpenRows(w, open) + [row] + rows[1..];
      } else {
        var begun := Case(row.caseId, [event]);
        ReadWindowSound(rows[1..], w, Some(begun));
        RowsOfNewCase(w, row);
        var later := ReadWindow(rows[1..], w, Some(begun)).value;
        RunsGrow(open, later.cases);
        FlattenOpen(w, open, later.cases, later.rest);
      }
    }
  }

  lemma OneRun(w: int, open: Option<Case>)
    requires open.Some? ==> open.value.events != []
    ensures
      var cases := if open.Some? then [open.value] else [];
      Runs(cases) && RowsOfWindow(w, cases) == OpenRows(w, open)
  {
    if open.Some? {
      assert [open.value][1..] == [];
      assert RowsOfCase(w, open.value) + [] == RowsOfCase(w, open.value);
    }
  }

  lemma FlattenOpen(w: int, open: Option<Case>, cases: seq<Case>, rest: seq<EventRow>)
    ensures OpenRows(w, open) + (RowsOfWindow(w, cases) + rest)
            == RowsOfWindow(w, (if open.Some? then [open.value] else []) + cases) + rest
  {
    hide RowsOfCase;
    if open.Some? {
      assert ([open.value] + cases)[1..] == cases;
    } else {
      assert [] + cases == cases;
    }
  }

  lemma ContinueCase(w: int, c: Case, seen: nat, tail: seq<EventRow>)
    requires 0 < seen < |c.events|
    ensures ReadWindow(RowsOfCase(w, c)[seen..] + tail, w, Some(Case(c.id, c.events[..seen]))) ==
            ReadWindow(RowsOfCase(w, c)[seen + 1..] + tail, w, Some(Case(c.id, c.events[..seen + 1])))
  {
    var rows := RowsOfCase(w, c)[seen..] + tail;
    assert rows[1..] == RowsOfCase(w, c)[seen + 1..] + tail;
    assert c.events[..seen + 1] == c.events[..seen] + [c.events[seen]];
  }

  lemma {:induction false} BeginCase(w: int, open: Option<Case>, c: Case, tail: seq<EventRow>)
    requires c.events != [] && (open.Some? ==> open.value.id != c.id)
    requires ReadWindow(RowsOfCase(w, c)[1..] + tail, w, Some(Case(c.id, c.events[..1]))).Some?
    ensures
      var r := ReadWindow(RowsOfCase(w, c)[1..] + tail, w, Some(Case(c.id, c.events[..1]))).value;
      ReadWindow(RowsOfCase(w, c) + tail, w, open) ==
      Some(Reading((if open.Some? then [open.value] else []) + r.cases, r.rest))
  {
    var rows := RowsOfCase(w, c) + tail;
    assert rows[1..] == RowsOfCase(w, c)[1..] + tail;
    assert c.events[..1] == [c.events[0]];
  }

  /** Reading the rest of an open case: `seen` of its events have been read. */
  lemma {:induction false} ReadCaseBack(w: int, c: Case, seen: nat, cases: seq<Case>, rest: seq<EventRow>)
    requires 0 < seen <= |c.events| && Runs([c] + cases) && (rest != [] ==> rest[0].window != w)
    ensures ReadWindow(RowsOfCase(w, c)[seen..] + (RowsOfWindow(w, cases) + rest), w, Some(Case(c.id, c.events[..seen])))
            == Some(Reading([c] + cases, rest))
    decreases |cases|, |c.events| - seen
  {
    hide ReadWindow, RowsOfCase;
    if seen < |c.events| {
      ContinueCase(w, c, seen, RowsOfWindow(w, cases) + rest);
      ReadCaseBack(w, c, seen + 1, cases, rest);
    } else {
      var open := Case(c.id, c.events[..seen]);
      assert open == c && RowsOfCase(w, c)[seen..] + (RowsOfWindow(w, cases) + rest) == RowsOfWindow(w, cases) + rest;
      if cases == [] {
        assert RowsOfWindow(w, cases) + rest == rest && [c] + cases == [c];
        CloseCase(w, c, rest);
      } else {
        var d, tail := cases[0], RowsOfWindow(w, cases[1..]) + rest;
        assert ([c] + cases)[1] == d && ([c] + cases)[0] == c;
        RunsTail(c, cases);
        assert RowsOfWindow(w, cases) + rest == RowsOfCase(w, d) + tail && [d] + cases[1..] == cases;
        ReadCaseBack(w, d, 1, cases[1..], rest);
        BeginCase(w, Some(c), d, tail);
      }
    }
  }

  lemma CloseCase(w: int, c: Case, rest: seq<EventRow>)
    requires rest != [] ==> rest[0].window != w
    ensures ReadWindow(rest, w, Some(c)) == Some(Reading([c], rest))
  {
  }

  lemma RunsTail(c: Case, cases: seq<Case>)
    requires Runs([c] + cases)
    ensures Runs(cases)
  {
    forall i | 0 <= i < |cases| - 1 ensures cases[i].id != cases[i + 1].id {
      assert ([c] + cases)[i + 1].id != ([c] + cases)[i + 2].id;
    }
    forall i | 0 <= i < |cases| ensures cases[i].events != [] {
      assert ([c] + cases)[i + 1].events != [];
    }
  }

  lemma {:induction false} ReadWindowBack(w: int, cases: seq<Case>, rest: seq<EventRow>)
    requires Runs(cases) && (rest != [] ==> rest[0].window != w)
    ensures ReadWindow(RowsOfWindow(w, cases) + rest, w, None) == Some(Reading(cases, rest))
  {
    hide RowsOfCase;
    if cases == [] {
      assert RowsOfWindow(w, cases) + rest == rest;
    } else {
      var c, tail := cases[0], RowsOfWindow(w, cases[1..]) + rest;
      assert RowsOfWindow(w, cases) + rest == RowsOfCase(w, c) + tail && [c] + cases[1..] == cases;
      ReadCaseBack(w, c, 1, cases[1..], rest);
      BeginCase(w, None, c, tail);
      assert [] + cases == cases;
    }
  }

  lemma {:induction false} LaterWindows(w: int, log: seq<seq<Case>>)
    ensures RowsOfLog(w, log) != [] ==> RowsOfLog(w, log)[0].window >= w
    decreases |log|
  {
    if log != [] {
      LaterWindows(w + 1, log[1..]);
      WindowNumber(w, log[0]);
    }
  }

  lemma {:induction false} WindowNumber(w: int, cases: seq<Case>)
    ensures forall r | r in RowsOfWindow(w, cases) :: r.window == w
  {
    if cases != [] {
      WindowNumber(w, cases[1..]);
    }
  }

  lemma {:induction false} ReadLogBack(w: int, log: seq<seq<Case>>)
    requires WellFormedLog(log)
    ensures ReadLog(RowsOfLog(w, log), w, |log|) == Log(log)
    decreases |log|
  {
    hide ReadWindow, RowsOfWindow, Runs;
    if log != [] {
      LaterWindows(w + 1, log[1..]);
      ReadWindowBack(w, log[0], RowsOfLog(w + 1, log[1..]));
      ReadLogBack(w + 1, log[1..]);
      assert [log[0]] + log[1..] == log;
    }
  }

  lemma {:induction false} ReadLogSound(rows: seq<EventRow>, w: int, windows: nat)
    requires ReadLog(rows, w, windows).Log?
    ensures
      var log := ReadLog(rows, w, windows).windows;
      |log| == windows && WellFormedLog(log) && RowsOfLog(w, log) == rows
    decreases windows
  {
    if windows > 0 {
      ReadWindowSound(rows, w, None);
      var r := ReadWindow(rows, w, None).value;
      ReadLogSound(r.rest, w + 1, windows - 1);
      var others := ReadLog(r.rest, w + 1, windows - 1).windows;
      assert ([r.cases] + others)[1..] == others;
      assert [] + rows == rows;
    }
  }

  /** A stream is accepted exactly when it is some log written out, and then that log is what is read. */
  lemma AcceptedIffFlattened(rows: seq<EventRow>, windows: nat, log: seq<seq<Case>>)
    ensures ReadLog(rows, 1, windows) == Log(log) <==> |log| == windows && WellFormedLog(log) && RowsOfLog(1, log) == rows
  {
    if ReadLog(rows, 1, windows).Log? {
      ReadLogSound(rows, 1, windows);
    }
    if |log| == windows && WellFormedLog(log) && RowsOfLog(1, log) == rows {
      ReadLogBack(1, log);
    }
  }
}
