/**
 Long polling: readers that park on one condition shared by the log's writers.
 Each step is what happens while the notifier's lock is held once, except the
 first, unlocked look of a call.
 */
module LongPoll {
  import opened Common
  import opened Events
  import opened EventRuns

  datatype Settings = Settings(maxPageSize: nat, maxWait: int, maxWaiters: nat)

  datatype Stage = Entering | Parked(notified: bool)

  datatype Call = Call(q: Query, cursor: nat, limit: int, deadline: int, stage: Stage)

  datatype Outcome =
    | Returned(events: seq<Event>, cursor: nat, timedOut: bool, shutdown: bool)
    | Expired(recovery: nat)
    | LimitReached

  /** `waiters` is the notifier's counter; `calls` are the calls under way, `done` those that came back. */
  datatype State = State(log: Log, shuttingDown: bool, waiters: int, calls: map<nat, Call>, done: map<nat, Outcome>)

  const START: State := State(EMPTY, false, 0, map[], map[])

  datatype Step =
    | Begin(id: nat, q: Query, cursor: Option<nat>, fromBeginning: bool, limit: int, timeout: int, now: int)
    | Enter(id: nat, now: int)
    | Resume(id: nat, now: int)
    | Add(draft: Draft, now: int)
    | Clean(keep: nat, cutoff: int)
    | Shutdown
    | Construct

  function Clamp(timeout: int, most: int): int {
    var t := if timeout < most then timeout else most;
    if t < 0 then 0 else t
  }

  function StartAt(log: Log, q: Query, cursor: Option<nat>, fromBeginning: bool): nat {
    if cursor.Some? then cursor.value else if fromBeginning then 0 else Tail(log, q.workspace)
  }

  function Finish(s: State, id: nat, o: Outcome): State {
    s.(calls := s.calls - {id}, done := s.done[id := o])
  }

  /** Leaving the lock for good gives the slot back. */
  function Leave(s: State, id: nat, o: Outcome): State {
    Finish(s, id, o).(waiters := s.waiters - 1)
  }

  function NotifyAll(calls: map<nat, Call>): map<nat, Call> {
    map id | id in calls :: if calls[id].stage.Parked? then calls[id].(stage := Parked(true)) else calls[id]
  }

  /** One turn of the loop of a waiter that holds the lock and counts among the waiters. */
  function Look(cfg: Settings, s: State, id: nat, now: int): State
    requires id in s.calls
  {
    var c := s.calls[id];
    match ListAfter(s.log, c.q, c.cursor, c.limit, cfg.maxPageSize)
    case CursorExpired(recovery) => Leave(s, id, Expired(recovery))
    case Page(events, cursor, hasMore) =>
      if events != [] || hasMore then Leave(s, id, Returned(events, cursor, false, false))
      else if s.shuttingDown then Leave(s, id, Returned([], cursor, false, true))
      else if c.deadline <= now then Leave(s, id, Returned([], cursor, true, false))
      else s.(calls := s.calls[id := c.(stage := Parked(false))])
  }

  function Deleted(log: Log, keep: nat, cutoff: int): int {
    |log.events| - |Cleanup(log, keep, cutoff).events|
  }

  function Next(cfg: Settings, s: State, step: Step): State {
    match step
    case Begin(id, q, cursor, fromBeginning, limit, timeout, now) =>
      if id in s.calls || id in s.done then s
      else
        var wait := Clamp(timeout, cfg.maxWait);
        (match ListAfter(s.log, q, StartAt(s.log, q, cursor, fromBeginning), limit, cfg.maxPageSize)
         case CursorExpired(recovery) => s.(done := s.done[id := Expired(recovery)])
         case Page(events, at, hasMore) =>
           if events != [] || hasMore || wait == 0 then s.(done := s.done[id := Returned(events, at, false, false)])
           else s.(calls := s.calls[id := Call(q, at, limit, now + wait, Entering)]))
    case Enter(id, now) =>
      if id !in s.calls || !s.calls[id].stage.Entering? then s
      else if s.waiters >= cfg.maxWaiters then Finish(s, id, LimitReached)
      else Look(cfg, s.(waiters := s.waiters + 1), id, now)
    case Resume(id, now) =>
      if id !in s.calls || !s.calls[id].stage.Parked? then s else Look(cfg, s, id, now)
    case Add(d, now) => s.(log := Append(s.log, d, now), calls := NotifyAll(s.calls))
    case Clean(keep, cutoff) =>
      s.(log := Cleanup(s.log, keep, cutoff),
         calls := if Deleted(s.log, keep, cutoff) != 0 then NotifyAll(s.calls) else s.calls)
    case Shutdown => s.(shuttingDown := true, calls := NotifyAll(s.calls))
    case Construct => s.(shuttingDown := false)
  }

  function Run(cfg: Settings, steps: seq<Step>): State {
    if steps == [] then START else Next(cfg, Run(cfg, steps[..|steps| - 1]), steps[|steps| - 1])
  }

  // ----------------------------------------------------------------- invariant

  ghost function ParkedIds(calls: map<nat, Call>): set<nat> {
    set id | id in calls && calls[id].stage.Parked?
  }

  /** Nothing to return, and no reason to raise. */
  ghost predicate Quiet(log: Log, c: Call) {
    && Watermark(log.watermarks, c.q.workspace) <= c.cursor
    && forall e :: e in log.history && Matches(c.q, e) ==> e.id <= c.cursor
  }

  ghost predicate SlotsOk(cfg: Settings, waiters: int, calls: map<nat, Call>) {
    waiters == |ParkedIds(calls)| && waiters <= cfg.maxWaiters
  }

  ghost predicate NoneLost(log: Log, shuttingDown: bool, calls: map<nat, Call>) {
    forall id :: id in calls && calls[id].stage == Parked(false) ==> Quiet(log, calls[id]) && !shuttingDown
  }

  ghost predicate Inv(cfg: Settings, s: State) {
    && LogInv(s.log)
    && SlotsOk(cfg, s.waiters, s.calls)
    && NoneLost(s.log, s.shuttingDown, s.calls)
    && s.calls.Keys !! s.done.Keys
  }

  /** A page is empty exactly when the reader is quiet. */
  lemma EmptyMeansQuiet(log: Log, c: Call, maxPageSize: nat)
    requires LogInv(log)
    ensures var r := ListAfter(log, c.q, c.cursor, c.limit, maxPageSize);
            (r.Page? && r.events == [] && !r.hasMore) <==> Quiet(log, c)
  {
    hide Select, ListAfter, Matches;
    PageIsNextStretch(log, c.q, c.cursor, c.limit, maxPageSize);
    EmptySelection(log.history, c.q, c.cursor, log.lastId);
  }

  lemma NotifyAllParked(calls: map<nat, Call>)
    ensures ParkedIds(NotifyAll(calls)) == ParkedIds(calls)
    ensures NotifyAll(calls).Keys == calls.Keys
    ensures forall id :: id in NotifyAll(calls) ==> NotifyAll(calls)[id].stage != Parked(false)
  {
  }

  lemma LeaveSlots(calls: map<nat, Call>, id: nat)
    ensures ParkedIds(calls - {id}) == ParkedIds(calls) - {id}
  {
  }

  lemma ParkSlots(calls: map<nat, Call>, id: nat, c: Call)
    requires c.stage.Parked?
    ensures ParkedIds(calls[id := c]) == ParkedIds(calls) + {id}
  {
  }

  /** A waiter's turn, counted among the waiters, keeps the invariant. */
  lemma LookKeepsInv(cfg: Settings, s: State, id: nat, now: int)
    requires id in s.calls
    requires LogInv(s.log) && NoneLost(s.log, s.shuttingDown, s.calls) && s.calls.Keys !! s.done.Keys
    requires s.waiters == |ParkedIds(s.calls) + {id}| <= cfg.maxWaiters
    ensures Inv(cfg, Look(cfg, s, id, now))
  {
    hide LogInv, ListAfter, Quiet, ParkedIds;
    var c := s.calls[id];
    EmptyMeansQuiet(s.log, c, cfg.maxPageSize);
    EmptyMeansQuietAt(s.log, c, c.(stage := Parked(false)));
    LeaveSlots(s.calls, id);
    ParkSlots(s.calls, id, c.(stage := Parked(false)));
    assert ParkedIds(s.calls) + {id} == (ParkedIds(s.calls) - {id}) + {id};
  }

  lemma EmptyMeansQuietAt(log: Log, c: Call, d: Call)
    requires c.q == d.q && c.cursor == d.cursor
    ensures Quiet(log, c) <==> Quiet(log, d)
  {
  }

  /** A cleanup that deletes nothing changes no watermark: nobody needs waking. */
  lemma QuietCleanup(log: Log, keep: nat, cutoff: int)
    requires LogInv(log) && Deleted(log, keep, cutoff) == 0
    ensures forall ws :: Watermark(Cleanup(log, keep, cutoff).watermarks, ws) == Watermark(log.watermarks, ws)
  {
    hide Cut;
    var marks := RaisedMarks(log, keep, cutoff);
    var kept := (e: Event) => e.id > Watermark(marks, e.workspace);
    MarksRise(log, keep, cutoff);
    forall ws ensures Watermark(marks, ws) == Watermark(log.watermarks, ws) {
      if Watermark(marks, ws) != Watermark(log.watermarks, ws) {
        CutIsAnId(log.events, ws, keep, cutoff);
        var e :| e in log.events && e.workspace == ws && e.id == Watermark(marks, ws);
        FilterDrops(log.events, kept, e);
        assert false;
      }
    }
  }

  lemma {:induction false} FilterDrops(events: seq<Event>, keep: Event -> bool, e: Event)
    requires e in events && !keep(e)
    ensures |Filter(events, keep)| < |events|
  {
    var front, last := events[..|events| - 1], events[|events| - 1];
    if last == e {
      FilterShrinks(front, keep);
    } else {
      FilterDrops(front, keep, e);
    }
  }

  lemma NextKeepsInv(cfg: Settings, s: State, step: Step)
    requires Inv(cfg, s)
    ensures Inv(cfg, Next(cfg, s, step))
  {
    hide Inv, Next;
    match step
    case Begin(_, _, _, _, _, _, _) => BeginKeepsInv(cfg, s, step);
    case Enter(id, now) => EnterKeepsInv(cfg, s, id, now);
    case Resume(id, now) => ResumeKeepsInv(cfg, s, id, now);
    case Add(d, now) => AddKeepsInv(cfg, s, d, now);
    case Clean(keep, cutoff) => CleanKeepsInv(cfg, s, keep, cutoff);
    case Shutdown => FlagKeepsInv(cfg, s, step);
    case Construct => FlagKeepsInv(cfg, s, step);
  }

  lemma BeginKeepsInv(cfg: Settings, s: State, step: Step)
    requires Inv(cfg, s) && step.Begin?
    ensures Inv(cfg, Next(cfg, s, step))
  {
    hide LogInv, ListAfter, Quiet, ParkedIds, StartAt, Look;
    BeginSlots(s.calls, Next(cfg, s, step).calls);
  }

  lemma EnterKeepsInv(cfg: Settings, s: State, id: nat, now: int)
    requires Inv(cfg, s)
    ensures Inv(cfg, Next(cfg, s, Enter(id, now)))
  {
    hide LogInv, ListAfter, Quiet, ParkedIds, Look;
    if id in s.calls && s.calls[id].stage.Entering? {
      EnteringIsNotParked(s.calls, id);
      if s.waiters >= cfg.maxWaiters {
        LeaveSlots(s.calls, id);
      } else {
        LookKeepsInv(cfg, s.(waiters := s.waiters + 1), id, now);
      }
    }
  }

  lemma ResumeKeepsInv(cfg: Settings, s: State, id: nat, now: int)
    requires Inv(cfg, s)
    ensures Inv(cfg, Next(cfg, s, Resume(id, now)))
  {
    hide LogInv, ListAfter, Quiet, ParkedIds, Look;
    if id in s.calls && s.calls[id].stage.Parked? {
      ParkedIsParked(s.calls, id);
      LookKeepsInv(cfg, s, id, now);
    }
  }

  lemma AddKeepsInv(cfg: Settings, s: State, d: Draft, now: int)
    requires Inv(cfg, s)
    ensures Inv(cfg, Next(cfg, s, Step.Add(d, now)))
  {
    hide LogInv, Append, Quiet, ParkedIds, NotifyAll;
    AppendKeepsInv(s.log, d, now);
    NotifyAllParked(s.calls);
  }

  lemma CleanKeepsInv(cfg: Settings, s: State, keep: nat, cutoff: int)
    requires Inv(cfg, s)
    ensures Inv(cfg, Next(cfg, s, Step.Clean(keep, cutoff)))
  {
    hide LogInv, Cleanup, Quiet, ParkedIds, NotifyAll, Deleted;
    CleanupKeepsInv(s.log, keep, cutoff);
    NotifyAllParked(s.calls);
    if Deleted(s.log, keep, cutoff) == 0 { QuietStays(s.log, keep, cutoff); }
  }

  lemma FlagKeepsInv(cfg: Settings, s: State, step: Step)
    requires Inv(cfg, s) && (step.Shutdown? || step.Construct?)
    ensures Inv(cfg, Next(cfg, s, step))
  {
    hide LogInv, Quiet, ParkedIds, NotifyAll;
    NotifyAllParked(s.calls);
  }

  lemma QuietStays(log: Log, keep: nat, cutoff: int)
    requires LogInv(log) && Deleted(log, keep, cutoff) == 0
    ensures forall c: Call :: Quiet(log, c) ==> Quiet(Cleanup(log, keep, cutoff), c)
  {
    hide RaisedMarks, Retained, Matches;
    QuietCleanup(log, keep, cutoff);
    forall c: Call | Quiet(log, c) ensures Quiet(Cleanup(log, keep, cutoff), c) {}
  }

  lemma BeginSlots(calls: map<nat, Call>, after: map<nat, Call>)
    requires forall id :: id in calls ==> id in after && after[id] == calls[id]
    requires forall id :: id in after && id !in calls ==> after[id].stage.Entering?
    ensures ParkedIds(after) == ParkedIds(calls)
  {
  }

  lemma EnteringIsNotParked(calls: map<nat, Call>, id: nat)
    requires id in calls && calls[id].stage.Entering?
    ensures ParkedIds(calls) - {id} == ParkedIds(calls) && |ParkedIds(calls) + {id}| == |ParkedIds(calls)| + 1
  {
  }

  lemma ParkedIsParked(calls: map<nat, Call>, id: nat)
    requires id in calls && calls[id].stage.Parked?
    ensures ParkedIds(calls) + {id} == ParkedIds(calls)
  {
  }

  lemma {:induction false} RunKeepsInv(cfg: Settings, steps: seq<Step>)
    ensures Inv(cfg, Run(cfg, steps))
  {
    if steps == [] {
      EmptyInv();
      assert ParkedIds(START.calls) == {};
    } else {
      hide Inv, Next;
      RunKeepsInv(cfg, steps[..|steps| - 1]);
      NextKeepsInv(cfg, Run(cfg, steps[..|steps| - 1]), steps[|steps| - 1]);
    }
  }

  // ------------------------------------------------------------------ theorems

  /**
   No lost wakeup: in every reachable state a waiter that is parked and has not
   been notified has no matching event beyond its cursor, an unexpired cursor,
   and no shutdown to see.
   */
  lemma NoLostWakeup(cfg: Settings, steps: seq<Step>, id: nat)
    ensures var s := Run(cfg, steps);
            id in s.calls && s.calls[id].stage == Parked(false) ==>
              && !s.shuttingDown
              && s.calls[id].cursor >= Watermark(s.log.watermarks, s.calls[id].q.workspace)
              && forall e :: e in s.log.history && e.id > s.calls[id].cursor ==>
                   var q := s.calls[id].q;
                   || e.workspace != q.workspace
                   || (q.process.Some? && e.process != q.process)
                   || (q.kinds != [] && e.kind !in q.kinds)
  {
    RunKeepsInv(cfg, steps);
  }

  /**
   The notifier's counter is exactly the number of parked calls and never above
   the limit: every way out of the loop, and every refusal, gives its slot back.
   */
  lemma SlotsAreCounted(cfg: Settings, steps: seq<Step>)
    ensures var s := Run(cfg, steps);
            && s.waiters == |set id | id in s.calls && s.calls[id].stage.Parked?|
            && 0 <= s.waiters <= cfg.maxWaiters
            && s.calls.Keys !! s.done.Keys
  {
    RunKeepsInv(cfg, steps);
    var s := Run(cfg, steps);
    assert ParkedIds(s.calls) == set id | id in s.calls && s.calls[id].stage.Parked?;
  }

  /**
   The way out of a turn of call c, or that it parks: what there is to read decides
   first, then a shutdown, then the deadline.
   */
  ghost predicate TurnTaken(cfg: Settings, s: State, c: Call, id: nat, now: int, r: State) {
    var wanted := Wanted(s.log.history, c.q, c.cursor);
    var expired := c.cursor < Watermark(s.log.watermarks, c.q.workspace);
    var parks := wanted == {} && !expired && !s.shuttingDown && now < c.deadline;
    && (parks ==> r.calls == s.calls[id := c.(stage := Parked(false))] && r.done == s.done)
    && (!parks ==> r.calls == s.calls - {id} && id in r.done && r.done == s.done[id := r.done[id]])
    && (expired ==> r.done[id] == Expired(Watermark(s.log.watermarks, c.q.workspace)))
    && (!expired && wanted != {} ==>
          r.done[id].Returned? && !r.done[id].timedOut && !r.done[id].shutdown
          && FirstOf(wanted, c.limit, cfg.maxPageSize, r.done[id].events, r.done[id].cursor))
    && (!parks && !expired && wanted == {} ==> r.done[id] == Returned([], c.cursor, !s.shuttingDown, s.shuttingDown))
    && r.log == s.log && r.shuttingDown == s.shuttingDown
  }

  /** The events are the first of those wanted, in order, as many as the limit allows, and the cursor is at the last. */
  ghost predicate FirstOf(wanted: set<Event>, limit: int, maxPageSize: nat, events: seq<Event>, cursor: nat) {
    var most := if limit < 1 || maxPageSize < 1 then 1 else if limit < maxPageSize then limit else maxPageSize;
    && (forall e :: e in events <==> e in wanted && e.id <= cursor)
    && (forall i, j :: 0 <= i < j < |events| ==> events[i].id < events[j].id)
    && |events| == (if |wanted| < most then |wanted| else most)
    && events != [] && cursor == events[|events| - 1].id
  }

  /**
   A turn of a waiter, in every reachable state: the one of a call that has just been
   counted in, if there is a slot for it, and each later one.  It parks exactly when
   nothing is wanted or expired, no shutdown is seen and time is left.
   */
  lemma TurnIsRight(cfg: Settings, steps: seq<Step>, id: nat, now: int)
    ensures var s := Run(cfg, steps);
            id in s.calls ==>
              var c := s.calls[id];
              var resumed, entered := Run(cfg, steps + [Resume(id, now)]), Run(cfg, steps + [Enter(id, now)]);
              && (c.stage.Parked? ==>
                    TurnTaken(cfg, s, c, id, now, resumed)
                    && resumed.waiters == s.waiters - (if id in resumed.calls then 0 else 1))
              && (c.stage.Entering? && s.waiters < cfg.maxWaiters ==>
                    TurnTaken(cfg, s, c, id, now, entered)
                    && entered.waiters == s.waiters + (if id in entered.calls then 1 else 0))
              && (c.stage.Entering? && s.waiters >= cfg.maxWaiters ==>
                    entered == s.(calls := s.calls - {id}, done := s.done[id := LimitReached]))
  {
    hide Inv, LogInv, Look, TurnTaken;
    var s := Run(cfg, steps);
    RunAdds(cfg, steps, Resume(id, now));
    RunAdds(cfg, steps, Enter(id, now));
    hide Run;
    RunKeepsInv(cfg, steps);
    LogOf(cfg, s);
    if id in s.calls {
      LookIsRight(cfg, s, id, now);
      LookIsRight(cfg, s.(waiters := s.waiters + 1), id, now);
      LookApart(cfg, s, s.(waiters := s.waiters + 1), id, now);
    }
  }

  /** How a call that starts at an id begins: answered at once, or on its way to wait. */
  ghost predicate CallBegun(cfg: Settings, s: State, id: nat, q: Query, at: nat, limit: int, timeout: int, now: int,
                            r: State) {
    var wait := if timeout < 0 || cfg.maxWait < 0 then 0 else if timeout < cfg.maxWait then timeout else cfg.maxWait;
    var wanted := Wanted(s.log.history, q, at);
    var expired := at < Watermark(s.log.watermarks, q.workspace);
    if wanted == {} && !expired && wait > 0
    then r == s.(calls := s.calls[id := Call(q, at, limit, now + wait, Entering)])
    else
      && id in r.done && r == s.(done := s.done[id := r.done[id]])
      && (expired ==> r.done[id] == Expired(Watermark(s.log.watermarks, q.workspace)))
      && (!expired ==> r.done[id].Returned? && !r.done[id].timedOut && !r.done[id].shutdown)
      && (!expired && wanted == {} ==> r.done[id].events == [] && r.done[id].cursor == at)
      && (!expired && wanted != {} ==>
          FirstOf(wanted, limit, cfg.maxPageSize, r.done[id].events, r.done[id].cursor))
  }

  /**
   How a call begins: at the cursor it gives, at the start of the log, or at the newest
   retained event of its workspace.  It is answered at once if something is wanted or
   expired or it has no time to wait; otherwise it goes on to wait until its timeout,
   held to the longest wait allowed, has passed.
   */
  lemma BeginIsRight(cfg: Settings, steps: seq<Step>, id: nat, q: Query, cursor: Option<nat>, fromBeginning: bool,
                     limit: int, timeout: int, now: int) returns (at: nat)
    requires id !in Run(cfg, steps).calls && id !in Run(cfg, steps).done
    ensures cursor.Some? ==> at == cursor.value
    ensures cursor.None? && fromBeginning ==> at == 0
    ensures cursor.None? && !fromBeginning ==> NewestOf(Run(cfg, steps).log.events, q.workspace, at)
    ensures CallBegun(cfg, Run(cfg, steps), id, q, at, limit, timeout, now,
                      Run(cfg, steps + [Begin(id, q, cursor, fromBeginning, limit, timeout, now)]))
  {
    hide Inv, LogInv, ListAfter, CallBegun, Next, Tail, NewestOf;
    var s, step := Run(cfg, steps), Begin(id, q, cursor, fromBeginning, limit, timeout, now);
    RunAdds(cfg, steps, step);
    RunKeepsInv(cfg, steps);
    LogOf(cfg, s);
    at := StartAt(s.log, q, cursor, fromBeginning);
    TailIsNewest(s.log, q.workspace);
    BegunRight(cfg, s, step);
  }

  lemma BegunRight(cfg: Settings, s: State, step: Step)
    requires LogInv(s.log) && step.Begin? && step.id !in s.calls && step.id !in s.done
    ensures CallBegun(cfg, s, step.id, step.q, StartAt(s.log, step.q, step.cursor, step.fromBeginning), step.limit,
                      step.timeout, step.now, Next(cfg, s, step))
  {
    hide LogInv, ListAfter, Wanted, FirstOf, StartAt, Look, Cleanup, Append;
    PageAnswers(s.log, step.q, StartAt(s.log, step.q, step.cursor, step.fromBeginning), step.limit, cfg.maxPageSize);
  }

  /** A page, in terms of what is wanted. */
  lemma PageAnswers(log: Log, q: Query, after: nat, limit: int, maxPageSize: nat)
    requires LogInv(log)
    ensures var r, wanted := ListAfter(log, q, after, limit, maxPageSize), Wanted(log.history, q, after);
            && (r.CursorExpired? <==> after < Watermark(log.watermarks, q.workspace))
            && (r.CursorExpired? ==> r.recovery == Watermark(log.watermarks, q.workspace))
            && (r.Page? ==>
                  && (r.events != [] <==> wanted != {}) && (r.hasMore ==> r.events != [])
                  && (wanted == {} ==> r.events == [] && r.cursor == after)
                  && (wanted != {} ==> FirstOf(wanted, limit, maxPageSize, r.events, r.cursor)))
  {
    hide LogInv, ListAfter, Wanted, Select;
    PageIsNextStretch(log, q, after, limit, maxPageSize);
    PageIsWhatWasAsked(log, q, after, limit, maxPageSize);
  }

  /** The greatest id of a workspace among these events, zero if it has none. */
  ghost predicate NewestOf(events: seq<Event>, ws: string, id: nat) {
    && (forall e :: e in events && e.workspace == ws ==> e.id <= id)
    && (id == 0 || exists e :: e in events && e.workspace == ws && e.id == id)
  }

  lemma TailIsNewest(log: Log, ws: string)
    requires LogInv(log)
    ensures NewestOf(log.events, ws, Tail(log, ws))
  {
    hide Filter, Of, Retained;
    RetainedMembers(log.history, log.watermarks);
    OfMembers(log.events, ws);
    var mine := Of(log.events, ws);
    if mine != [] { assert mine[|mine| - 1] in mine; }
    forall e | e in log.events && e.workspace == ws ensures e.id <= Tail(log, ws) {
      assert e in mine;
      var i :| 0 <= i < |mine| && mine[i] == e;
    }
  }

  lemma LogOf(cfg: Settings, s: State)
    requires Inv(cfg, s)
    ensures LogInv(s.log)
  {
  }

  lemma LookIsRight(cfg: Settings, s: State, id: nat, now: int)
    requires LogInv(s.log) && id in s.calls
    ensures var r := Look(cfg, s, id, now);
            TurnTaken(cfg, s, s.calls[id], id, now, r)
            && r.waiters == s.waiters - (if id in r.calls then 0 else 1)
  {
    hide LogInv, ListAfter, Wanted, FirstOf;
    var c := s.calls[id];
    PageAnswers(s.log, c.q, c.cursor, c.limit, cfg.maxPageSize);
  }

  /** The slot count plays no part in a turn. */
  lemma LookApart(cfg: Settings, s: State, t: State, id: nat, now: int)
    requires t == s.(waiters := t.waiters) && id in s.calls
    ensures TurnTaken(cfg, s, s.calls[id], id, now, Look(cfg, t, id, now)) <==>
            TurnTaken(cfg, t, t.calls[id], id, now, Look(cfg, t, id, now))
  {
    hide Look, FirstOf;
  }

  /**
   A shutdown is seen by waiters exactly until a store is next constructed on the
   same database: construction takes the flag back for every store that shares it.
   */
  lemma {:induction false} ShutdownHolds(cfg: Settings, steps: seq<Step>)
    ensures Run(cfg, steps).shuttingDown <==>
            exists i :: 0 <= i < |steps| && steps[i] == Shutdown && NoneConstructed(steps, i)
  {
    hide NoneConstructed, Next;
    if steps != [] {
      var front, last := steps[..|steps| - 1], steps[|steps| - 1];
      ShutdownHolds(cfg, front);
      FlagStep(cfg, Run(cfg, front), last);
      LastStep(steps);
      if last == Shutdown { assert steps[|steps| - 1] == Shutdown; }
      forall i | 0 <= i < |front| ensures front[i] == steps[i] {
      }
    }
  }

  /** No store is constructed after step i. */
  ghost predicate NoneConstructed(steps: seq<Step>, i: int) {
    forall j :: i < j < |steps| && 0 <= j ==> steps[j] != Construct
  }

  lemma FlagStep(cfg: Settings, s: State, step: Step)
    ensures Next(cfg, s, step).shuttingDown ==
            if step.Shutdown? then true else if step.Construct? then false else s.shuttingDown
  {
    hide ListAfter, Append, Cleanup, Deleted;
  }

  lemma LastStep(steps: seq<Step>)
    requires steps != []
    ensures NoneConstructed(steps, |steps| - 1)
    ensures forall i :: 0 <= i < |steps| - 1 ==>
              (NoneConstructed(steps, i) <==>
               NoneConstructed(steps[..|steps| - 1], i) && steps[|steps| - 1] != Construct)
  {
    var front := steps[..|steps| - 1];
    forall i | 0 <= i < |steps| - 1
      ensures NoneConstructed(steps, i) <==> NoneConstructed(front, i) && steps[|steps| - 1] != Construct
    {
      assert forall j :: 0 <= j < |front| ==> front[j] == steps[j];
    }
  }

  /** A waiter woken by a shutdown parks again when a store is constructed before it has run. */
  lemma ShutdownForgotten()
    ensures var cfg := Settings(500, 25, 32);
            var s := Run(cfg, [Begin(0, Everything("w"), None, false, 100, 25, 0), Enter(0, 0), Shutdown, Construct,
                               Resume(0, 1)]);
            0 in s.calls && s.calls[0].stage == Parked(false)
  {
    var cfg := Settings(500, 25, 32);
    var c := Call(Everything("w"), 0, 100, 25, Entering);
    var begin, enter, resume := Begin(0, Everything("w"), None, false, 100, 25, 0), Enter(0, 0), Resume(0, 1);
    var u1: seq<Step> := [] + [begin];
    var u4 := u1 + [enter] + [Shutdown] + [Construct];
    RunAdds(cfg, [], begin);
    RunAdds(cfg, u1, enter);
    RunAdds(cfg, u1 + [enter], Shutdown);
    RunAdds(cfg, u1 + [enter] + [Shutdown], Construct);
    RunAdds(cfg, u4, resume);
    assert u4 + [resume] == [begin, enter, Shutdown, Construct, resume];
    hide Run, Next;
    WakesInVain(cfg, c);
  }

  /** Call, park, wake by shutdown, construction, turn: the states in between. */
  lemma WakesInVain(cfg: Settings, c: Call)
    requires cfg == Settings(500, 25, 32) && c == Call(Everything("w"), 0, 100, 25, Entering)
    ensures var s1 := Next(cfg, START, Begin(0, Everything("w"), None, false, 100, 25, 0));
            var s2 := Next(cfg, s1, Enter(0, 0));
            var s4 := Next(cfg, Next(cfg, s2, Shutdown), Construct);
            var s5 := Next(cfg, s4, Resume(0, 1));
            0 in s5.calls && s5.calls[0].stage == Parked(false)
  {
    NothingToRead(500);
    hide ListAfter, Tail;
    var s1 := State(EMPTY, false, 0, map[0 := c], map[]);
    assert Next(cfg, START, Begin(0, Everything("w"), None, false, 100, 25, 0)) == s1;
    var s2 := State(EMPTY, false, 1, map[0 := c.(stage := Parked(false))], map[]);
    assert Next(cfg, s1, Enter(0, 0)) == s2;
    var s4 := State(EMPTY, false, 1, map[0 := c.(stage := Parked(true))], map[]);
    assert NotifyAll(s2.calls) == s4.calls;
    assert Next(cfg, Next(cfg, s2, Shutdown), Construct) == s4;
  }

  lemma RunAdds(cfg: Settings, steps: seq<Step>, step: Step)
    ensures Run(cfg, steps + [step]) == Next(cfg, Run(cfg, steps), step)
  {
    assert (steps + [step])[..|steps|] == steps;
  }

  lemma NothingToRead(maxPageSize: nat)
    ensures ListAfter(EMPTY, Everything("w"), 0, 100, maxPageSize) == Page([], 0, false) && Tail(EMPTY, "w") == 0
  {
  }
}
