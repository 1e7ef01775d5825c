/**
 The event store object: the table and its counters changed in place by each
 transaction, proved against Events.dfy and ProcessTable.dfy.
 */
module EventStore {
  import opened Common
  import opened Events
  import EventRuns
  import opened ProcessTable
  import Cursors

  const EVENT_TYPES: set<string> :=
    {"tool.queued", "tool.started", "process.output", "process.exited", "artifact.created", "check.completed",
     "change_set.begun", "change_set.staged", "change_set.validated", "change_set.validation_failed",
     "change_set.committed", "change_set.rolled_back", "change_set.recovery_required"}

  const TAG: string := "evt1_"

  datatype Error =
    | UnknownEventType | WorkspaceRequired | ProcessEmpty | PayloadTooLarge | SensitiveKey
    | InvalidCursor | CursorIsExpired(recovery: string) | InvalidRetention

  datatype Result<T> = Ok(value: T) | Err(error: Error)

  datatype ReadPage = ReadPage(events: seq<Event>, cursor: string, hasMore: bool)

  class EventStore {
    const maxPayloadBytes: nat
    const maxPageSize: nat
    var events: seq<Event>
    var lastId: nat
    var watermarks: map<string, nat>
    var rows: map<string, Row>
    var generation: nat
    ghost var history: seq<Event>

    ghost function Contents(): Table
      reads this
    {
      Table(Log(events, lastId, watermarks, history), rows)
    }

    ghost predicate Valid()
      reads this
    {
      LogInv(Contents().log)
    }

    constructor (maxPayloadBytes: nat, maxPageSize: nat)
      requires maxPayloadBytes >= 1 && maxPageSize >= 1
      ensures Valid() && Contents() == Table(EMPTY, map[]) && generation == 0
      ensures this.maxPayloadBytes == maxPayloadBytes && this.maxPageSize == maxPageSize
    {
      this.maxPayloadBytes, this.maxPageSize := maxPayloadBytes, maxPageSize;
      events, lastId, watermarks, rows, generation, history := [], 0, map[], map[], 0, [];
      new;
      EventRuns.EmptyInv();
    }

    /** Number the event within its process, give it the next id, and store it. */
    method Insert(d: Draft, now: int) returns (e: Event)
      requires Valid()
      modifies this
      ensures Valid() && e == NewEvent(old(Contents().log), d, now)
      ensures Contents() == old(Contents()).(log := Events.Append(old(Contents().log), d, now))
              && generation == old(generation)
    {
      hide LogInv;
      AppendKeepsInv(Contents().log, d, now);
      var sequence := None;
      if d.process.Some? {
        var m := MaxSequence(events, d.process.value);
        sequence := Some(m + 1);
      }
      lastId := lastId + 1;
      e := Event(lastId, d.workspace, d.process, d.kind, sequence, now, d.payload);
      events := events + [e];
      history := history + [e];
    }

    /** Append one event; a draft that the store refuses changes nothing. */
    method Append(d: Draft, encodedBytes: nat, sensitive: bool, now: int) returns (r: Result<Event>)
      requires Valid()
      modifies this
      ensures Valid()
      ensures r.Err? <==> (d.kind !in EVENT_TYPES || d.workspace == "" || d.process == Some("") || sensitive
                           || encodedBytes > maxPayloadBytes)
      ensures r.Err? ==> Contents() == old(Contents()) && generation == old(generation)
      ensures r.Ok? ==> r.value == NewEvent(old(Contents().log), d, now) && generation == old(generation) + 1
                        && Contents() == old(Contents()).(log := Events.Append(old(Contents().log), d, now))
    {
      if d.kind !in EVENT_TYPES { return Err(UnknownEventType); }
      if d.workspace == "" { return Err(WorkspaceRequired); }
      if d.process == Some("") { return Err(ProcessEmpty); }
      if sensitive { return Err(SensitiveKey); }
      if encodedBytes > maxPayloadBytes { return Err(PayloadTooLarge); }
      var e := Insert(d, now);
      generation := generation + 1;
      r := Ok(e);
    }

    /** End a process: its row and its terminal event in one transaction. */
    method TransitionProcess(p: string, ending: Ending, now: int) returns (r: Transition)
      requires Valid()
      modifies this
      ensures Valid() && Contents() == Finish(old(Contents()), p, ending, now)
      ensures r.NotATerminalStatus? <==> !ending.status.Terminal()
      ensures r.UnknownProcess? <==> ending.status.Terminal() && p !in old(rows)
      ensures r.AlreadyTerminal? <==> ending.status.Terminal() && p in old(rows) && old(rows)[p].status.Terminal()
      ensures r.AlreadyTerminal? ==> r.status == old(rows)[p].status && r.last == LastExit(old(events), p)
      ensures r.Appended? ==> r.event == NewEvent(old(Contents().log), ExitDraft(old(Contents()), p, ending), now)
      ensures generation == old(generation) + (if r.Appended? then 1 else 0)
    {
      hide LogInv;
      if !ending.status.Terminal() { return NotATerminalStatus; }
      if p !in rows { return UnknownProcess; }
      var existing := rows[p];
      if existing.status.Terminal() {
        var last := LastExit(events, p);
        return AlreadyTerminal(last, existing.status);
      }
      rows := rows[p := EndedRow(existing, ending)];
      var e := Insert(Draft(existing.workspace, Some(p), EXITED,
                            Exited(ending.status, ending.exitCode, ending.Reason())), now);
      generation := generation + 1;
      r := Appended(e);
    }

    /** Mark a process running and append the event in one transaction. */
    method StartProcess(p: string, pid: int, tool: string, recovered: bool, now: int) returns (found: bool)
      requires Valid()
      modifies this
      ensures Valid() && found == (p in old(rows))
      ensures Contents() == Start(old(Contents()), p, pid, tool, recovered, now)
      ensures generation == old(generation) + (if found then 1 else 0)
    {
      hide LogInv;
      if p !in rows { return false; }
      var row := rows[p];
      rows := rows[p := row.(status := Running, pid := Some(pid))];
      var e := Insert(Draft(row.workspace, Some(p), "tool.started", Started(tool, pid, recovered)), now);
      generation := generation + 1;
      found := true;
    }

    /** One page after a cursor: a text cursor, the start of the log, or the present tail. */
    method ListAfter(cursor: Option<string>, q: Query, limit: int, fromBeginning: bool) returns (r: Result<ReadPage>)
      requires Valid()
      ensures (r.Err? && r.error.UnknownEventType?) <==> exists k :: k in q.kinds && k !in EVENT_TYPES
      ensures (r.Err? && r.error.InvalidCursor?) <==>
              (forall k :: k in q.kinds ==> k in EVENT_TYPES) && cursor.Some? && !Cursors.WellFormed(TAG, cursor.value)
      ensures (forall k :: k in q.kinds ==> k in EVENT_TYPES)
              && (cursor.Some? ==> Cursors.WellFormed(TAG, cursor.value)) ==>
                var after := if cursor.Some? then Cursors.Decode(TAG, cursor.value).value
                             else if fromBeginning then 0 else Tail(Contents().log, q.workspace);
                var page := Events.ListAfter(Contents().log, q, after, limit, maxPageSize);
                r == if page.CursorExpired? then Err(CursorIsExpired(Cursors.Encode(TAG, page.recovery)))
                     else Ok(ReadPage(page.events, Cursors.Encode(TAG, page.cursor), page.hasMore))
    {
      hide LogInv, Select, Cursors.WellFormed, Cursors.ParseHex;
      if exists k :: k in q.kinds && k !in EVENT_TYPES { return Err(UnknownEventType); }
      var pageLimit := PageLimit(limit, maxPageSize);
      var after := 0;
      if cursor.Some? {
        var id := Cursors.Decode(TAG, cursor.value);
        if id.None? { return Err(InvalidCursor); }
        after := id.value;
      } else if !fromBeginning {
        var mine := Of(events, q.workspace);
        after := if mine == [] then 0 else mine[|mine| - 1].id;
      }
      var expiredThrough := Watermark(watermarks, q.workspace);
      if after < expiredThrough { return Err(CursorIsExpired(Cursors.Encode(TAG, expiredThrough))); }
      var found := Select(events, q, after, lastId);
      var hasMore := |found| > pageLimit;
      var selected := if hasMore then found[..pageLimit] else found;
      var observed := if selected == [] then after else selected[|selected| - 1].id;
      r := Ok(ReadPage(selected, Cursors.Encode(TAG, observed), hasMore));
    }

    /** The workspaces that have events, each once. */
    method DistinctWorkspaces() returns (r: seq<string>)
      ensures Lists(r, events)
    {
      r := [];
      for i := 0 to |events|
        invariant forall ws :: ws in r <==> ws in Workspaces(events[..i])
        invariant forall i, j :: 0 <= i < j < |r| ==> r[i] != r[j]
      {
        assert events[..i + 1] == events[..i] + [events[i]];
        if events[i].workspace !in r {
          r := r + [events[i].workspace];
        }
      }
      assert events[..|events|] == events;
    }

    /** Remove the expired events of one workspace and raise its watermark. */
    method CleanWorkspace(ws: string, keep: nat, cutoff: int) returns (deleted: int)
      modifies this
      ensures rows == old(rows) && lastId == old(lastId) && history == old(history) && generation == old(generation)
      ensures deleted == |old(events)| - |events|
      ensures var cut := Cut(old(events), ws, keep, cutoff);
              && events == (if cut > 0 then Above(old(events), ws, cut) else old(events))
              && watermarks == (if cut > 0 then RaisedMark(old(watermarks), ws, cut) else old(watermarks))
    {
      hide Cut, Above;
      var expiredThrough := Cut(events, ws, keep, cutoff);
      if expiredThrough == 0 { return 0; }
      var left := Above(events, ws, expiredThrough);
      deleted := |events| - |left|;
      events := left;
      var before := Watermark(watermarks, ws);
      watermarks := watermarks[ws := if expiredThrough > before then expiredThrough else before];
    }

    /** Remove what is too old or too much, workspace by workspace, and raise the watermarks. */
    method Cleanup(retentionDays: int, keep: int, cutoff: int) returns (r: Result<nat>)
      requires Valid()
      modifies this
      ensures Valid()
      ensures r.Err? <==> retentionDays < 0 || keep < 1
      ensures r.Err? ==> Contents() == old(Contents()) && generation == old(generation)
      ensures r.Ok? ==> Contents() == old(Contents()).(log := Events.Cleanup(old(Contents().log), keep, cutoff))
                        && r.value == |old(events)| - |events|
                        && generation == old(generation) + (if r.value > 0 then 1 else 0)
    {
      hide LogInv, Cut, Events.Cleanup, Above, PartKept, PartMarks, RaisedMark, Lists;
      if retentionDays < 0 || keep < 1 { return Err(InvalidRetention); }
      ghost var before := Contents().log;
      CleanupKeepsInv(before, keep, cutoff);
      PositiveIds(before);
      var deleted := 0;
      var workspaces := DistinctWorkspaces();
      PartStart(before, keep, cutoff);
      for i := 0 to |workspaces|
        invariant rows == old(rows) && lastId == old(lastId) && history == old(history) && generation == old(generation)
        invariant events == PartKept(before, workspaces[..i], keep, cutoff)
        invariant watermarks == PartMarks(before, workspaces[..i], keep, cutoff)
        invariant deleted == |before.events| - |events|
      {
        PartSameCut(before, workspaces[..i], workspaces[i], keep, cutoff);
        PartStep(before, workspaces, i, keep, cutoff);
        var removed := CleanWorkspace(workspaces[i], keep, cutoff);
        deleted := deleted + removed;
      }
      assert workspaces[..|workspaces|] == workspaces;
      PartEnd(before, workspaces, keep, cutoff);
      FewerLeft(before, workspaces, keep, cutoff);
      if deleted > 0 {
        generation := generation + 1;
      }
      r := Ok(deleted);
    }
  }

  // -------------------------------------------------- cleanup, part of the way

  ghost predicate Lists(workspaces: seq<string>, events: seq<Event>) {
    && (forall ws :: ws in workspaces <==> ws in Workspaces(events))
    && (forall i, j :: 0 <= i < j < |workspaces| ==> workspaces[i] != workspaces[j])
  }

  /** The events other than those of a workspace up to an id. */
  function Above(events: seq<Event>, ws: string, line: nat): seq<Event> {
    Filter(events, (e: Event) => e.workspace != ws || e.id > line)
  }

  /** The events left when the listed workspaces are done. */
  ghost function PartKept(log: Log, done: seq<string>, keep: nat, cutoff: int): seq<Event> {
    Filter(log.events, (e: Event) => e.workspace !in done || e.id > Cut(log.events, e.workspace, keep, cutoff))
  }

  ghost function PartMarks(log: Log, done: seq<string>, keep: nat, cutoff: int): map<string, nat> {
    map ws | ws in log.watermarks.Keys + Workspaces(log.events)
             && (ws in log.watermarks || (ws in done && Cut(log.events, ws, keep, cutoff) > 0))
          :: var cut := if ws in done then Cut(log.events, ws, keep, cutoff) else 0;
             if cut > Watermark(log.watermarks, ws) then cut else Watermark(log.watermarks, ws)
  }

  lemma {:induction false} FilterAll(events: seq<Event>, keep: Event -> bool)
    requires forall e :: e in events ==> keep(e)
    ensures Filter(events, keep) == events
  {
    if events != [] {
      assert events[|events| - 1] in events;
      FilterAll(events[..|events| - 1], keep);
    }
  }

  lemma PartStart(log: Log, keep: nat, cutoff: int)
    ensures PartKept(log, [], keep, cutoff) == log.events
    ensures PartMarks(log, [], keep, cutoff) == log.watermarks
  {
    hide Cut;
    FilterAll(log.events, (e: Event) => e.workspace !in [] || e.id > Cut(log.events, e.workspace, keep, cutoff));
  }

  lemma {:induction false} TimeCutOfOwn(events: seq<Event>, ws: string, cutoff: int)
    ensures TimeCut(events, ws, cutoff) == TimeCut(Of(events, ws), ws, cutoff)
  {
    if events != [] {
      var front, last := events[..|events| - 1], events[|events| - 1];
      TimeCutOfOwn(front, ws, cutoff);
      if last.workspace == ws {
        assert Of(events, ws) == Of(front, ws) + [last];
        assert (Of(front, ws) + [last])[..|Of(front, ws)|] == Of(front, ws);
      } else {
        assert Of(events, ws) == Of(front, ws);
      }
    }
  }

  /** A workspace not yet done has lost nothing, so its cut is still the one of the start. */
  lemma PartSameCut(log: Log, done: seq<string>, ws: string, keep: nat, cutoff: int)
    ensures ws !in done ==>
              Cut(PartKept(log, done, keep, cutoff), ws, keep, cutoff) == Cut(log.events, ws, keep, cutoff)
  {
    if ws !in done {
      var kept := (e: Event) => e.workspace !in done || e.id > Cut(log.events, e.workspace, keep, cutoff);
      var mine := (e: Event) => e.workspace == ws;
      FilterTwice(log.events, kept, mine);
      FilterSame(log.events, (e: Event) => kept(e) && mine(e), mine);
      assert Of(PartKept(log, done, keep, cutoff), ws) == Of(log.events, ws);
      TimeCutOfOwn(PartKept(log, done, keep, cutoff), ws, cutoff);
      TimeCutOfOwn(log.events, ws, cutoff);
    }
  }

  ghost function RaisedMark(marks: map<string, nat>, ws: string, cut: nat): map<string, nat> {
    marks[ws := if cut > Watermark(marks, ws) then cut else Watermark(marks, ws)]
  }

  lemma PartStep(log: Log, workspaces: seq<string>, i: nat, keep: nat, cutoff: int)
    requires i < |workspaces| && Lists(workspaces, log.events)
    requires forall e :: e in log.events ==> e.id >= 1
    ensures workspaces[i] !in workspaces[..i]
    ensures var ws, done, next := workspaces[i], workspaces[..i], workspaces[..i + 1];
            var cut := Cut(log.events, ws, keep, cutoff);
            && PartKept(log, next, keep, cutoff) ==
               (if cut > 0 then Above(PartKept(log, done, keep, cutoff), ws, cut)
                else PartKept(log, done, keep, cutoff))
            && PartMarks(log, next, keep, cutoff) ==
               (if cut > 0 then RaisedMark(PartMarks(log, done, keep, cutoff), ws, cut)
                else PartMarks(log, done, keep, cutoff))
  {
    hide Cut, PartKept, PartMarks, Above, RaisedMark;
    assert workspaces[..i + 1] == workspaces[..i] + [workspaces[i]];
    assert workspaces[i] in workspaces;
    PartKeptStep(log, workspaces[..i], workspaces[i], keep, cutoff);
    PartMarksStep(log, workspaces[..i], workspaces[i], keep, cutoff);
  }

  lemma PartKeptStep(log: Log, done: seq<string>, ws: string, keep: nat, cutoff: int)
    requires ws !in done
    requires forall e :: e in log.events ==> e.id >= 1
    ensures var cut := Cut(log.events, ws, keep, cutoff);
            PartKept(log, done + [ws], keep, cutoff) ==
            (if cut > 0 then Above(PartKept(log, done, keep, cutoff), ws, cut) else PartKept(log, done, keep, cutoff))
  {
    hide Cut, Filter;
    var next, cut := done + [ws], Cut(log.events, ws, keep, cutoff);
    var kept := (e: Event) => e.workspace !in done || e.id > Cut(log.events, e.workspace, keep, cutoff);
    var after := (e: Event) => e.workspace !in next || e.id > Cut(log.events, e.workspace, keep, cutoff);
    if cut > 0 {
      var above := (e: Event) => e.workspace != ws || e.id > cut;
      FilterTwice(log.events, kept, above);
      FilterSame(log.events, (e: Event) => kept(e) && above(e), after);
    } else {
      FilterSame(log.events, kept, after);
    }
  }

  lemma PartMarksStep(log: Log, done: seq<string>, ws: string, keep: nat, cutoff: int)
    requires ws !in done && ws in Workspaces(log.events)
    ensures var cut := Cut(log.events, ws, keep, cutoff);
            PartMarks(log, done + [ws], keep, cutoff) ==
            (if cut > 0 then RaisedMark(PartMarks(log, done, keep, cutoff), ws, cut)
             else PartMarks(log, done, keep, cutoff))
  {
    hide Cut;
  }

  lemma PositiveIds(log: Log)
    requires LogInv(log)
    ensures forall e :: e in log.events ==> e.id >= 1
  {
    hide Retained;
    RetainedMembers(log.history, log.watermarks);
  }

  lemma PartEnd(log: Log, workspaces: seq<string>, keep: nat, cutoff: int)
    requires LogInv(log) && Lists(workspaces, log.events)
    ensures PartKept(log, workspaces, keep, cutoff) == Events.Cleanup(log, keep, cutoff).events
    ensures PartMarks(log, workspaces, keep, cutoff) == Events.Cleanup(log, keep, cutoff).watermarks
    ensures var r := Events.Cleanup(log, keep, cutoff); r == log.(events := r.events, watermarks := r.watermarks)
  {
    hide Cut;
    var marks := RaisedMarks(log, keep, cutoff);
    RetainedMembers(log.history, log.watermarks);
    assert PartMarks(log, workspaces, keep, cutoff) == marks;
    forall e | e in log.events
      ensures (e.workspace !in workspaces || e.id > Cut(log.events, e.workspace, keep, cutoff)) ==
              (e.id > Watermark(marks, e.workspace))
    {
      assert e.workspace in Workspaces(log.events);
    }
    FilterSame(log.events,
               (e: Event) => e.workspace !in workspaces || e.id > Cut(log.events, e.workspace, keep, cutoff),
               (e: Event) => e.id > Watermark(marks, e.workspace));
  }

  lemma FewerLeft(log: Log, done: seq<string>, keep: nat, cutoff: int)
    ensures |PartKept(log, done, keep, cutoff)| <= |log.events|
  {
    hide Cut;
    FilterShrinks(log.events, (e: Event) => e.workspace !in done || e.id > Cut(log.events, e.workspace, keep, cutoff));
  }
}
