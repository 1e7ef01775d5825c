/**
 The process rows beside the event log, and the transactions that change a row
 and append its event together.
 */
module ProcessTable {
  import opened Common
  import opened Events

  datatype Row = Row(workspace: string, tool: string, status: Status, pid: Option<int>, identity: Option<string>,
                     exitCode: Option<int>, recovery: Option<string>, heartbeat: Option<int>, outputOffset: Option<nat>)

  /** A write of the runtime columns: the recovery note, the time, and the output seen so far if it is given. */
  datatype Touch = Touch(note: string, at: int, offset: Option<nat>)

  function Touched(row: Row, t: Touch): Row {
    row.(recovery := Some(t.note), heartbeat := Some(t.at),
         outputOffset := if t.offset.Some? then t.offset else row.outputOffset)
  }

  datatype Table = Table(log: Log, rows: map<string, Row>)

  const EXITED: string := "process.exited"

  datatype Transition =
    | Appended(event: Event)
    | AlreadyTerminal(last: Option<Event>, status: Status)
    | NotATerminalStatus
    | UnknownProcess

  /** What a transition to a terminal status writes. */
  datatype Ending = Ending(status: Status, exitCode: Option<int>, reason: Option<string>, recovery: Option<string>) {
    function Reason(): Option<string> {
      if reason.Some? && reason.value != "" then reason else recovery
    }
  }

  function EndedRow(row: Row, e: Ending): Row {
    row.(status := e.status,
         exitCode := if e.exitCode.Some? then e.exitCode else row.exitCode,
         recovery := if e.recovery.Some? then e.recovery else row.recovery)
  }

  function ExitDraft(t: Table, p: string, e: Ending): Draft
    requires p in t.rows
  {
    Draft(t.rows[p].workspace, Some(p), EXITED, Exited(e.status, e.exitCode, e.Reason()))
  }

  /** The row and its event change together, once: a terminal row is left alone. */
  function Finish(t: Table, p: string, e: Ending, now: int): Table {
    if !e.status.Terminal() || p !in t.rows || t.rows[p].status.Terminal() then t
    else Table(Append(t.log, ExitDraft(t, p, e), now), t.rows[p := EndedRow(t.rows[p], e)])
  }

  /** The row alone, when the event store is disabled or refused: the update is unconditional. */
  function FinishUnlogged(t: Table, p: string, e: Ending): Table {
    if p !in t.rows then t else t.(rows := t.rows[p := EndedRow(t.rows[p], e)])
  }

  /** The manager's way to end a process: through the log, or without it. */
  function Record(t: Table, p: string, e: Ending, logged: bool, now: int): Table {
    if logged then Finish(t, p, e, now) else FinishUnlogged(t, p, e)
  }

  function StartDraft(t: Table, p: string, pid: int, tool: string, recovered: bool): Draft
    requires p in t.rows
  {
    Draft(t.rows[p].workspace, Some(p), "tool.started", Started(tool, pid, recovered))
  }

  function Start(t: Table, p: string, pid: int, tool: string, recovered: bool, now: int): Table {
    if p !in t.rows then t
    else
      Table(Append(t.log, StartDraft(t, p, pid, tool, recovered), now),
            t.rows[p := t.rows[p].(status := Running, pid := Some(pid))])
  }

  function StartUnlogged(t: Table, p: string, pid: int): Table {
    if p !in t.rows then t else t.(rows := t.rows[p := t.rows[p].(status := Running, pid := Some(pid))])
  }

  // -------------------------------------------------------------- exit events

  predicate IsExit(e: Event, p: string) {
    e.kind == EXITED && e.process == Some(p)
  }

  /** The terminal events of a process. */
  function Exits(events: seq<Event>, p: string): seq<Event> {
    Filter(events, (e: Event) => IsExit(e, p))
  }

  /** The newest terminal event of a process. */
  function LastExit(events: seq<Event>, p: string): Option<Event> {
    var mine := Exits(events, p);
    if mine == [] then None else Some(mine[|mine| - 1])
  }

  /** The newest terminal event is the one with the greatest id; there is none only if there is no terminal event. */
  lemma LastExitIsNewest(events: seq<Event>, p: string)
    requires Ascending(events)
    ensures var last := LastExit(events, p);
            && (last == None <==> forall e :: e in events ==> !(e.kind == "process.exited" && e.process == Some(p)))
            && (last != None ==>
                  && last.value in events && last.value.kind == "process.exited" && last.value.process == Some(p)
                  && forall e :: e in events && e.kind == "process.exited" && e.process == Some(p) ==>
                       e.id <= last.value.id)
  {
    hide Filter;
    var mine := Exits(events, p);
    FilterMembers(events, (e: Event) => IsExit(e, p));
    FilterAscending(events, (e: Event) => IsExit(e, p));
    if mine == [] {
      assert forall e :: e in events && IsExit(e, p) ==> e in mine;
    } else {
      assert mine[|mine| - 1] in mine;
      forall e | e in events && IsExit(e, p) ensures e.id <= mine[|mine| - 1].id {
        assert e in mine;
        var i :| 0 <= i < |mine| && mine[i] == e;
      }
    }
  }

  lemma AppendedExits(log: Log, d: Draft, now: int, p: string)
    ensures Exits(Append(log, d, now).history, p) ==
            Exits(log.history, p) + (if d.kind == EXITED && d.process == Some(p) then [NewEvent(log, d, now)] else [])
  {
    var e := NewEvent(log, d, now);
    assert (log.history + [e])[..|log.history|] == log.history;
  }

  /** The row says how its process ended: status, and exit code and note as far as they are given; the rest stays. */
  ghost predicate EndsAs(was: Row, row: Row, e: Ending) {
    && row.status == e.status
    && row.exitCode == (if e.exitCode == None then was.exitCode else e.exitCode)
    && row.recovery == (if e.recovery == None then was.recovery else e.recovery)
    && row == was.(status := row.status, exitCode := row.exitCode, recovery := row.recovery)
  }

  /** The terminal event of a process: its status, exit code, and the reason or else the note. */
  ghost predicate TellsEnd(x: Event, workspace: string, p: string, e: Ending, now: int) {
    && x.kind == "process.exited" && x.process == Some(p) && x.workspace == workspace && x.createdAt == now
    && x.payload == Exited(e.status, e.exitCode,
                           if e.reason == None || e.reason == Some("") then e.recovery else e.reason)
  }

  /**
   A transition adds one terminal event, to the process that ended and saying how,
   exactly when it changes the row, and the row then says the same.
   */
  lemma FinishedExits(t: Table, p: string, e: Ending, now: int, q: string)
    ensures var r := Finish(t, p, e, now);
            var ends := p in t.rows && !t.rows[p].status.Terminal() && e.status.Terminal();
            && (!ends ==> r == t)
            && (ends ==>
                  && r.rows == t.rows[p := r.rows[p]] && EndsAs(t.rows[p], r.rows[p], e)
                  && |r.log.history| == |t.log.history| + 1 && r.log.history[..|t.log.history|] == t.log.history
                  && TellsEnd(r.log.history[|t.log.history|], t.rows[p].workspace, p, e, now))
            && Exits(r.log.history, q) ==
               Exits(t.log.history, q) + (if ends && q == p then [r.log.history[|t.log.history|]] else [])
  {
    hide Exits;
    if p in t.rows && !t.rows[p].status.Terminal() && e.status.Terminal() {
      AppendedExits(t.log, ExitDraft(t, p, e), now, q);
    }
  }

  /** Ending a process that has not ended, with its event or without. */
  lemma RecordTells(t: Table, p: string, e: Ending, logged: bool, now: int)
    requires p in t.rows && !t.rows[p].status.Terminal() && e.status.Terminal()
    ensures var r, n := Record(t, p, e, logged, now), |t.log.history|;
            && r.rows == t.rows[p := r.rows[p]] && EndsAs(t.rows[p], r.rows[p], e)
            && (!logged ==> r.log == t.log)
            && (logged ==> |r.log.history| == n + 1 && r.log.history[..n] == t.log.history
                           && TellsEnd(r.log.history[n], t.rows[p].workspace, p, e, now))
  {
    hide Finish, TellsEnd;
    FinishedExits(t, p, e, now, p);
  }

  /** What a start stores. */
  lemma StartTells(t: Table, p: string, pid: int, tool: string, recovered: bool, now: int)
    requires p in t.rows
    ensures var r, n := Start(t, p, pid, tool, recovered, now), |t.log.history|;
            && r.rows == t.rows[p := t.rows[p].(status := Running, pid := Some(pid))]
            && |r.log.history| == n + 1 && r.log.history[..n] == t.log.history
            && var x := r.log.history[n];
               && x.kind == "tool.started" && x.process == Some(p) && x.workspace == t.rows[p].workspace
               && x.createdAt == now && x.payload == Started(tool, pid, recovered)
  {
  }
}
