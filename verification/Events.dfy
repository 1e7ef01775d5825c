/**
 The durable event log: append-only ids, per-process sequence numbers, retention
 watermarks per workspace, and reading a page after a cursor.
 */
module Events {
  import opened Common

  datatype Status =
    | Queued | Running
    | Passed | Failed | TimedOut | Cancelled | ResourceExhausted | Interrupted | Lost | RecoveryRequired
  {
    predicate Terminal() {
      !Queued? && !Running?
    }
  }

  datatype Payload =
    | Json(text: string)
    | Started(tool: string, pid: int, recovered: bool)
    | Exited(status: Status, exitCode: Option<int>, reason: Option<string>)

  datatype Event = Event(id: nat, workspace: string, process: Option<string>, kind: string, sequence: Option<nat>,
                         createdAt: int, payload: Payload)

  /**
   `events` is the table, `lastId` its auto-increment counter, `watermarks` the
   retention state; `history` is every event ever appended.
   */
  datatype Log = Log(events: seq<Event>, lastId: nat, watermarks: map<string, nat>, history: seq<Event>)

  const EMPTY: Log := Log([], 0, map[], [])

  function Watermark(marks: map<string, nat>, ws: string): nat {
    if ws in marks then marks[ws] else 0
  }

  // ------------------------------------------------------------------- append

  function MaxSequence(events: seq<Event>, process: string): nat {
    if events == [] then 0
    else
      var last := events[|events| - 1];
      var m := MaxSequence(events[..|events| - 1], process);
      if last.process == Some(process) && last.sequence.Some? && last.sequence.value > m then last.sequence.value else m
  }

  datatype Draft = Draft(workspace: string, process: Option<string>, kind: string, payload: Payload)

  function NewEvent(log: Log, d: Draft, now: int): Event {
    Event(log.lastId + 1, d.workspace, d.process, d.kind,
          if d.process.Some? then Some(MaxSequence(log.events, d.process.value) + 1) else None, now, d.payload)
  }

  function Append(log: Log, d: Draft, now: int): Log {
    var e := NewEvent(log, d, now);
    Log(log.events + [e], e.id, log.watermarks, log.history + [e])
  }

  // ----------------------------------------------------------------- retention

  function Filter(events: seq<Event>, keep: Event -> bool): seq<Event> {
    if events == [] then []
    else
      var front, last := Filter(events[..|events| - 1], keep), events[|events| - 1];
      if keep(last) then front + [last] else front
  }

  function Of(events: seq<Event>, ws: string): seq<Event> {
    Filter(events, (e: Event) => e.workspace == ws)
  }

  /** The newest id of a workspace beyond its newest `keep` events. */
  function CountCut(events: seq<Event>, ws: string, keep: nat): nat {
    var mine := Of(events, ws);
    if |mine| > keep then mine[|mine| - 1 - keep].id else 0
  }

  /** The greatest id of a workspace created before the cutoff. */
  function TimeCut(events: seq<Event>, ws: string, cutoff: int): nat {
    if events == [] then 0
    else
      var last := events[|events| - 1];
      var m := TimeCut(events[..|events| - 1], ws, cutoff);
      if last.workspace == ws && last.createdAt < cutoff && last.id > m then last.id else m
  }

  function Cut(events: seq<Event>, ws: string, keep: nat, cutoff: int): nat {
    var a := CountCut(events, ws, keep);
    var b := TimeCut(events, ws, cutoff);
    if a >= b then a else b
  }

  /** The events above the watermark of their workspace. */
  function Retained(events: seq<Event>, marks: map<string, nat>): seq<Event> {
    Filter(events, (e: Event) => e.id > Watermark(marks, e.workspace))
  }

  function Workspaces(events: seq<Event>): set<string> {
    set e | e in events :: e.workspace
  }

  /** The watermarks after a cleanup: raised to the cut of each workspace that has events. */
  function RaisedMarks(log: Log, keep: nat, cutoff: int): map<string, nat> {
    map ws | ws in log.watermarks.Keys + Workspaces(log.events)
             && (ws in log.watermarks || Cut(log.events, ws, keep, cutoff) > 0)
          :: var cut := if ws in Workspaces(log.events) then Cut(log.events, ws, keep, cutoff) else 0;
             if cut > Watermark(log.watermarks, ws) then cut else Watermark(log.watermarks, ws)
  }

  function Cleanup(log: Log, keep: nat, cutoff: int): Log {
    var marks := RaisedMarks(log, keep, cutoff);
    log.(events := Retained(log.events, marks), watermarks := marks)
  }

  // ------------------------------------------------------------------- reading

  /** A fixed filter; an empty list of kinds means every kind. */
  datatype Query = Query(workspace: string, process: Option<string>, kinds: seq<string>)

  predicate Matches(q: Query, e: Event) {
    && e.workspace == q.workspace
    && (q.process.Some? ==> e.process == q.process)
    && (q.kinds != [] ==> e.kind in q.kinds)
  }

  /** The matching events with lo < id <= hi, in order. */
  function Select(events: seq<Event>, q: Query, lo: nat, hi: nat): seq<Event> {
    Filter(events, (e: Event) => Matches(q, e) && lo < e.id <= hi)
  }

  datatype Page = Page(events: seq<Event>, cursor: nat, hasMore: bool) | CursorExpired(recovery: nat)

  function PageLimit(limit: int, maxPageSize: nat): (r: nat)
    ensures r >= 1
  {
    var capped := if limit < maxPageSize then limit else maxPageSize;
    if capped < 1 then 1 else capped
  }

  /** One page after an id, without waiting. */
  function ListAfter(log: Log, q: Query, after: nat, limit: int, maxPageSize: nat): Page {
    if after < Watermark(log.watermarks, q.workspace) then CursorExpired(Watermark(log.watermarks, q.workspace))
    else
      var pageLimit := PageLimit(limit, maxPageSize);
      var found := Select(log.events, q, after, log.lastId);
      var selected := if |found| > pageLimit then found[..pageLimit] else found;
      Page(selected, if selected == [] then after else selected[|selected| - 1].id, |found| > pageLimit)
  }

  /** The greatest retained id of a workspace: where a reader without a cursor starts. */
  function Tail(log: Log, ws: string): nat {
    var mine := Of(log.events, ws);
    if mine == [] then 0 else mine[|mine| - 1].id
  }

  // ------------------------------------------------------------------- filters

  ghost predicate Ascending(events: seq<Event>) {
    forall i, j :: 0 <= i < j < |events| ==> events[i].id < events[j].id
  }

  lemma {:induction false} FilterMembers(events: seq<Event>, keep: Event -> bool)
    ensures forall e :: e in Filter(events, keep) <==> e in events && keep(e)
  {
    if events != [] {
      FilterMembers(events[..|events| - 1], keep);
      assert events == events[..|events| - 1] + [events[|events| - 1]];
    }
  }

  lemma {:induction false} FilterAscending(events: seq<Event>, keep: Event -> bool)
    requires Ascending(events)
    ensures Ascending(Filter(events, keep))
  {
    if events != [] {
      var front, last := events[..|events| - 1], events[|events| - 1];
      FilterAscending(front, keep);
      FilterMembers(front, keep);
      forall e | e in Filter(front, keep) ensures e.id < last.id {
        var i :| 0 <= i < |front| && front[i] == e;
      }
    }
  }

  /** Two filters that agree on the events at hand select the same. */
  lemma {:induction false} FilterSame(events: seq<Event>, keep: Event -> bool, other: Event -> bool)
    requires forall e :: e in events ==> keep(e) == other(e)
    ensures Filter(events, keep) == Filter(events, other)
  {
    if events != [] {
      assert events[|events| - 1] in events;
      FilterSame(events[..|events| - 1], keep, other);
    }
  }

  lemma {:induction false} FilterTwice(events: seq<Event>, first: Event -> bool, second: Event -> bool)
    ensures Filter(Filter(events, first), second) == Filter(events, (e: Event) => first(e) && second(e))
  {
    if events != [] {
      var front, last := events[..|events| - 1], events[|events| - 1];
      FilterTwice(front, first, second);
      if first(last) {
        assert (Filter(front, first) + [last])[..|Filter(front, first)|] == Filter(front, first);
      }
    }
  }

  lemma {:induction false} FilterNone(events: seq<Event>, keep: Event -> bool)
    requires forall e :: e in events ==> !keep(e)
    ensures Filter(events, keep) == []
  {
    if events != [] {
      assert events[|events| - 1] in events;
      FilterNone(events[..|events| - 1], keep);
    }
  }

  lemma {:induction false} FilterShrinks(events: seq<Event>, keep: Event -> bool)
    ensures |Filter(events, keep)| <= |events|
  {
    if events != [] { FilterShrinks(events[..|events| - 1], keep); }
  }

  // ----------------------------------------------------------------- invariant

  ghost predicate LogInv(log: Log) {
    && Ascending(log.history)
    && (forall e :: e in log.history ==> 1 <= e.id <= log.lastId)
    && log.events == Retained(log.history, log.watermarks)
    && (forall ws :: Watermark(log.watermarks, ws) <= log.lastId)
  }

  lemma RetainedMembers(events: seq<Event>, marks: map<string, nat>)
    ensures forall e :: e in Retained(events, marks) <==> e in events && e.id > Watermark(marks, e.workspace)
    ensures Ascending(events) ==> Ascending(Retained(events, marks))
  {
    var keep := (e: Event) => e.id > Watermark(marks, e.workspace);
    FilterMembers(events, keep);
    if Ascending(events) { FilterAscending(events, keep); }
  }

  /** Filtering twice with rising watermarks is filtering once. */
  lemma RetainedTwice(events: seq<Event>, low: map<string, nat>, high: map<string, nat>)
    requires forall ws :: Watermark(low, ws) <= Watermark(high, ws)
    ensures Retained(Retained(events, low), high) == Retained(events, high)
  {
    var first := (e: Event) => e.id > Watermark(low, e.workspace);
    var second := (e: Event) => e.id > Watermark(high, e.workspace);
    FilterTwice(events, first, second);
    FilterSame(events, (e: Event) => first(e) && second(e), second);
  }

  lemma AppendKeepsInv(log: Log, d: Draft, now: int)
    requires LogInv(log)
    ensures LogInv(Append(log, d, now))
  {
    hide NewEvent;
    var r := Append(log, d, now);
    var e := NewEvent(log, d, now);
    NewEventId(log, d, now);
    assert (log.history + [e])[..|log.history|] == log.history;
    assert r.events == Retained(r.history, r.watermarks);
    assert Ascending(r.history) by {
      forall i | 0 <= i < |log.history| ensures log.history[i].id < e.id {
        assert log.history[i] in log.history;
      }
    }
  }

  lemma NewEventId(log: Log, d: Draft, now: int)
    ensures NewEvent(log, d, now).id == log.lastId + 1
    ensures NewEvent(log, d, now).workspace == d.workspace
  {}

  lemma OfMembers(events: seq<Event>, ws: string)
    ensures forall e :: e in Of(events, ws) <==> e in events && e.workspace == ws
    ensures Ascending(events) ==> Ascending(Of(events, ws))
  {
    var keep := (e: Event) => e.workspace == ws;
    FilterMembers(events, keep);
    if Ascending(events) { FilterAscending(events, keep); }
  }

  lemma {:induction false} TimeCutBounds(events: seq<Event>, ws: string, cutoff: int)
    ensures forall e :: e in events && e.workspace == ws && e.createdAt < cutoff ==> e.id <= TimeCut(events, ws, cutoff)
    ensures TimeCut(events, ws, cutoff) > 0 ==>
              exists e :: e in events && e.workspace == ws && e.createdAt < cutoff
                  && e.id == TimeCut(events, ws, cutoff)
  {
    if events != [] {
      TimeCutBounds(events[..|events| - 1], ws, cutoff);
      assert events == events[..|events| - 1] + [events[|events| - 1]];
    }
  }

  /** A cut that is not zero is the id of an event of that workspace. */
  lemma CutIsAnId(events: seq<Event>, ws: string, keep: nat, cutoff: int)
    requires Cut(events, ws, keep, cutoff) > 0
    ensures exists e :: e in events && e.workspace == ws && e.id == Cut(events, ws, keep, cutoff)
  {
    TimeCutBounds(events, ws, cutoff);
    OfMembers(events, ws);
    var mine := Of(events, ws);
    if |mine| > keep { assert mine[|mine| - 1 - keep] in mine; }
  }

  lemma MarksRise(log: Log, keep: nat, cutoff: int)
    requires LogInv(log)
    ensures forall ws :: Watermark(log.watermarks, ws) <= Watermark(RaisedMarks(log, keep, cutoff), ws) <= log.lastId
  {
    hide Cut, Retained;
    assert forall e :: e in log.events ==> e.id <= log.lastId by {
      RetainedMembers(log.history, log.watermarks);
    }
    var marks := RaisedMarks(log, keep, cutoff);
    forall ws ensures Watermark(log.watermarks, ws) <= Watermark(marks, ws) <= log.lastId {
      if Cut(log.events, ws, keep, cutoff) > 0 {
        CutIsAnId(log.events, ws, keep, cutoff);
      }
    }
  }

  lemma CleanupKeepsInv(log: Log, keep: nat, cutoff: int)
    requires LogInv(log)
    ensures LogInv(Cleanup(log, keep, cutoff))
  {
    hide RaisedMarks, Retained;
    MarksRise(log, keep, cutoff);
    RetainedTwice(log.history, log.watermarks, RaisedMarks(log, keep, cutoff));
  }

  // ---------------------------------------------------------------- selections

  lemma SelectMembers(events: seq<Event>, q: Query, lo: nat, hi: nat)
    ensures forall e :: e in Select(events, q, lo, hi) <==> e in events && Matches(q, e) && lo < e.id <= hi
    ensures Ascending(events) ==> Ascending(Select(events, q, lo, hi))
  {
    var keep := (e: Event) => Matches(q, e) && lo < e.id <= hi;
    FilterMembers(events, keep);
    if Ascending(events) { FilterAscending(events, keep); }
  }

  lemma EmptyRange(events: seq<Event>, q: Query, lo: nat, hi: nat)
    requires forall e :: e in events && Matches(q, e) ==> !(lo < e.id <= hi)
    ensures Select(events, q, lo, hi) == []
  {
    FilterNone(events, (e: Event) => Matches(q, e) && lo < e.id <= hi);
  }

  lemma EmptySelection(events: seq<Event>, q: Query, lo: nat, hi: nat)
    ensures Select(events, q, lo, hi) == [] <==> forall e :: e in events && Matches(q, e) ==> !(lo < e.id <= hi)
  {
    hide Select;
    SelectMembers(events, q, lo, hi);
    if Select(events, q, lo, hi) != [] {
      assert Select(events, q, lo, hi)[0] in Select(events, q, lo, hi);
    }
  }

  lemma SelectStep(events: seq<Event>, q: Query, lo: nat, hi: nat)
    requires events != []
    ensures var front, last := events[..|events| - 1], events[|events| - 1];
            Select(events, q, lo, hi) ==
            Select(front, q, lo, hi) + (if Matches(q, last) && lo < last.id <= hi then [last] else [])
  {}

  lemma Below(events: seq<Event>)
    requires Ascending(events) && events != []
    ensures Ascending(events[..|events| - 1])
    ensures forall e :: e in events[..|events| - 1] ==> e.id < events[|events| - 1].id
  {
    var front := events[..|events| - 1];
    forall e | e in front ensures e.id < events[|events| - 1].id {
      var i :| 0 <= i < |front| && front[i] == e;
    }
  }

  /** A range splits at any id. */
  lemma {:induction false} SelectSplits(events: seq<Event>, q: Query, lo: nat, mid: nat, hi: nat)
    requires Ascending(events) && lo <= mid <= hi
    ensures Select(events, q, lo, mid) + Select(events, q, mid, hi) == Select(events, q, lo, hi)
  {
    if events == [] {
    } else {
      hide Select;
      var front, last := events[..|events| - 1], events[|events| - 1];
      Below(events);
      SelectSplits(front, q, lo, mid, hi);
      SelectStep(events, q, lo, mid);
      SelectStep(events, q, mid, hi);
      SelectStep(events, q, lo, hi);
      if last.id <= mid { EmptyRange(front, q, mid, hi); }
    }
  }

  /** The first k of a selection are the selection up to the id of the k-th. */
  lemma {:induction false} TakeSelect(events: seq<Event>, q: Query, lo: nat, hi: nat, k: nat)
    requires Ascending(events) && 0 < k <= |Select(events, q, lo, hi)|
    ensures var found := Select(events, q, lo, hi);
            found[..k] == Select(events, q, lo, found[k - 1].id) && lo < found[k - 1].id <= hi
  {
    hide Ascending, Filter, Matches, Select;
    var found := Select(events, q, lo, hi);
    var at := found[k - 1].id;
    SelectMembers(events, q, lo, hi);
    assert found[k - 1] in found;
    SelectSplits(events, q, lo, at, hi);
    var head, rest := Select(events, q, lo, at), Select(events, q, at, hi);
    SelectMembers(events, q, lo, at);
    SelectMembers(events, q, at, hi);
    AscendingAt(found, head, rest, k - 1, at);
  }

  /** Where an ascending sequence is split at the id of its k-th member, the left part ends there. */
  lemma AscendingAt(found: seq<Event>, head: seq<Event>, rest: seq<Event>, k: nat, at: nat)
    requires k < |found| && found == head + rest && Ascending(found) && found[k].id == at
    requires forall e :: e in head ==> e.id <= at
    requires forall e :: e in rest ==> e.id > at
    ensures |head| == k + 1 && head == found[..k + 1]
  {
    forall i | 0 <= i < |head| ensures found[i].id <= at {
      assert found[i] == head[i] && head[i] in head;
    }
    forall i | |head| <= i < |found| ensures found[i].id > at {
      assert found[i] == rest[i - |head|] && rest[i - |head|] in rest;
    }
    if |head| > 0 { assert found[|head| - 1].id <= at; }
  }

  /** From the watermark on, the table holds the whole history of a workspace. */
  lemma NothingMissing(history: seq<Event>, marks: map<string, nat>, q: Query, lo: nat, hi: nat)
    requires Watermark(marks, q.workspace) <= lo
    ensures Select(Retained(history, marks), q, lo, hi) == Select(history, q, lo, hi)
  {
    var kept := (e: Event) => e.id > Watermark(marks, e.workspace);
    var wanted := (e: Event) => Matches(q, e) && lo < e.id <= hi;
    FilterTwice(history, kept, wanted);
    FilterSame(history, (e: Event) => kept(e) && wanted(e), wanted);
  }

  /** A page is the next stretch of history, without gap or repetition. */
  lemma PageIsNextStretch(log: Log, q: Query, after: nat, limit: int, maxPageSize: nat)
    requires LogInv(log)
    ensures var r := ListAfter(log, q, after, limit, maxPageSize);
            && (r.CursorExpired? <==> after < Watermark(log.watermarks, q.workspace))
            && (r.CursorExpired? ==> r.recovery == Watermark(log.watermarks, q.workspace))
            && (r.Page? ==>
                  && after <= r.cursor
                  && (r.cursor == after || r.cursor <= log.lastId)
                  && r.events == Select(log.history, q, after, r.cursor)
                  && |r.events| <= PageLimit(limit, maxPageSize)
                  && (r.hasMore <==> Select(log.history, q, r.cursor, log.lastId) != [])
                  && (r.hasMore ==> r.events != [])
                  && (r.events == [] <==> Select(log.history, q, after, log.lastId) == []))
  {
    hide Filter, Select, Retained, Matches;
    if after >= Watermark(log.watermarks, q.workspace) {
      NothingMissing(log.history, log.watermarks, q, after, log.lastId);
      var found := Select(log.history, q, after, log.lastId);
      var pageLimit := PageLimit(limit, maxPageSize);
      var k := if |found| > pageLimit then pageLimit else |found|;
      if k > 0 {
        TakeSelect(log.history, q, after, log.lastId, k);
        SelectSplits(log.history, q, after, found[k - 1].id, log.lastId);
        assert found[..k] == Select(log.history, q, after, found[k - 1].id);
        assert found[..k] + found[k..] == found;
      } else {
        EmptyRange(log.history, q, after, after);
      }
    }
  }

  /** The events of a workspace beyond an id that a filter asks for, of everything ever appended. */
  ghost function Wanted(history: seq<Event>, q: Query, after: nat): set<Event> {
    set e | e in history && e.id > after
            && e.workspace == q.workspace
            && (q.process == None || e.process == q.process)
            && (q.kinds == [] || e.kind in q.kinds)
  }

  /**
   A page holds, in the order of their ids, the first events beyond the cursor that
   have the asked workspace, the asked process if one is given, and a kind of the
   list if it is not empty: as many as there are, but at most the limit, which is
   taken between one and the largest page; it says whether there are more, and its
   cursor is that of its last event.
   */
  lemma PageIsWhatWasAsked(log: Log, q: Query, after: nat, limit: int, maxPageSize: nat)
    requires LogInv(log)
    ensures var r, wanted := ListAfter(log, q, after, limit, maxPageSize), Wanted(log.history, q, after);
            r.Page? ==>
              var most := if limit < 1 || maxPageSize < 1 then 1 else if limit < maxPageSize then limit
                          else maxPageSize;
              && (forall e :: e in r.events <==> e in wanted && e.id <= r.cursor)
              && (forall i, j :: 0 <= i < j < |r.events| ==> r.events[i].id < r.events[j].id)
              && |r.events| == (if |wanted| < most then |wanted| else most)
              && (r.hasMore <==> |wanted| > most)
              && r.cursor == if r.events == [] then after else r.events[|r.events| - 1].id
  {
    hide Filter, Select, Retained, Matches;
    var r := ListAfter(log, q, after, limit, maxPageSize);
    if r.Page? {
      PageIsNextStretch(log, q, after, limit, maxPageSize);
      NothingMissing(log.history, log.watermarks, q, after, log.lastId);
      SelectedAsAsked(log, q, after);
      SelectMembers(log.history, q, after, r.cursor);
      MatchesAsAsked(log.history, q, after);
    }
  }

  lemma MatchesAsAsked(history: seq<Event>, q: Query, after: nat)
    ensures forall e :: e in Wanted(history, q, after) <==> e in history && Matches(q, e) && e.id > after
  {
  }

  lemma SelectedAsAsked(log: Log, q: Query, after: nat)
    requires LogInv(log)
    ensures |Select(log.history, q, after, log.lastId)| == |Wanted(log.history, q, after)|
  {
    hide Select, Matches;
    var found := Select(log.history, q, after, log.lastId);
    SelectMembers(log.history, q, after, log.lastId);
    MatchesAsAsked(log.history, q, after);
    assert Wanted(log.history, q, after) == set e | e in found;
    AscendingIsDistinct(found);
  }

  lemma {:induction false} AscendingIsDistinct(events: seq<Event>)
    requires Ascending(events)
    ensures |set e | e in events| == |events|
  {
    if events != [] {
      var front, last := events[..|events| - 1], events[|events| - 1];
      Below(events);
      AscendingIsDistinct(front);
      assert (set e | e in events) == (set e | e in front) + {last};
    }
  }

  /** What an append stores: the draft as given, under the next id and the next number of its process. */
  lemma AppendedAsDrafted(log: Log, d: Draft, now: int)
    requires LogInv(log)
    ensures var r := Append(log, d, now);
            && r.history[..|log.history|] == log.history && |r.history| == |log.history| + 1
            && r.events[..|log.events|] == log.events && |r.events| == |log.events| + 1
            && r.watermarks == log.watermarks
            && var e := r.history[|log.history|];
               && r.events[|log.events|] == e && r.lastId == e.id
               && e.workspace == d.workspace && e.process == d.process && e.kind == d.kind
               && e.payload == d.payload && e.createdAt == now
               && (forall x :: x in log.history ==> x.id < e.id)
               && (e.sequence.Some? <==> d.process.Some?)
               && (d.process.Some? ==>
                     && (forall x :: x in log.events && x.process == d.process && x.sequence.Some? ==>
                           x.sequence.value < e.sequence.value)
                     && (e.sequence.value == 1 || exists x :: x in log.events && x.process == d.process
                                                       && x.sequence == Some(e.sequence.value - 1)))
  {
    hide Retained;
    if d.process.Some? { MaxSequenceIsGreatest(log.events, d.process.value); }
  }

  lemma {:induction false} MaxSequenceIsGreatest(events: seq<Event>, process: string)
    ensures var m := MaxSequence(events, process);
            && (forall e :: e in events && e.process == Some(process) && e.sequence.Some? ==> e.sequence.value <= m)
            && (m == 0 || exists e :: e in events && e.process == Some(process) && e.sequence == Some(m))
  {
    if events != [] {
      MaxSequenceIsGreatest(events[..|events| - 1], process);
      assert events == events[..|events| - 1] + [events[|events| - 1]];
    }
  }
}
