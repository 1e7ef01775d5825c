/**
 The life of managed processes as an interleaving of threads: callers that spawn,
 finishers that race to end a process (watchdog, poller, cancel, shutdown), the
 scheduler, and crashes of the service followed by recovery.  Each step is what
 one thread does under one lock or in one transaction.
 */
module Lifecycle {
  import opened Common
  import opened Events
  import opened ProcessTable
  import PS = ProcessScheduler
  import Runs = SchedulerRuns
  import Sets = SchedulerSets
  import Admission = SchedulerAdmission
  import Idle = SchedulerIdle

  /** How far a spawning caller has come, with its number in the scheduler. */
  datatype SpawnStage =
    | Inserted               // the row exists
    | Waiting(number: nat)   // inside the scheduler
    | GaveUp                 // left the scheduler by timeout
    | Leased(number: nat)
    | Doomed(number: nat)    // the row is failed, the lease not yet back
    | Launched(number: nat)  // the row is running, the handle not yet published

  datatype Spawn = Spawn(workspace: string, stage: SpawnStage)

  /** A running-process object: its completion flag and its lease field. */
  datatype Handle = Handle(finalized: bool, lease: Option<nat>, number: nat)

  datatype FinishStage = Claimed | Recorded | Popped | Taken(lease: Option<nat>) | Done

  /** A thread whose claim succeeded, with what it will record. */
  datatype Finisher = Finisher(process: string, ending: Ending, stage: FinishStage)

  /**
   `finishers` lists every successful claim since the service started, `releases`
   every lease given back, `noted` the processes whose end went through the log.
   */
  datatype State = State(
    table: Table,
    noted: set<string>,
    sched: PS.State,
    spawns: map<string, Spawn>,
    handles: map<string, Handle>,
    running: set<string>,
    finishers: seq<Finisher>,
    releases: seq<nat>)

  const START: State := State(Table(EMPTY, map[]), {}, PS.EMPTY, map[], map[], {}, [], [])

  datatype Step =
    | Insert(p: string, ws: string, tool: string)
    | Refuse(p: string, e: Ending, logged: bool, now: int)
    | Arrive(p: string, key: Option<PS.ConcurrencyKey>, priority: int)
    | WakeUp
    | Admit(p: string)
    | TimeOut(p: string)
    | FailLaunch(p: string, e: Ending, logged: bool, now: int)
    | ReleaseFailed(p: string)
    | Launch(p: string, pid: int, logged: bool, now: int)
    | Publish(p: string)
    | Claim(p: string, e: Ending)
    | Write(i: nat, logged: bool, now: int)
    | Pop(i: nat)
    | Take(i: nat)
    | Give(i: nat)
    | Emit(draft: Draft, now: int)
    | Clean(keep: nat, cutoff: int)
    | Beat(p: string, touch: Touch)
    | Crash
    | Recover(p: string, e: Ending, logged: bool, now: int)
    | Adopt(p: string, key: Option<PS.ConcurrencyKey>)

  // --------------------------------------------------------------------- steps
  //
  // A beat is any write of the runtime columns by a thread that holds the handle: the
  // watchdog's heartbeat, the interrupt note of a shutdown, the note of an adoption.
  // It is guarded by no claim and by no status.

  /** Record the end of a process, through the log or without it. */
  function End(s: State, p: string, e: Ending, logged: bool, now: int): State {
    s.(table := Record(s.table, p, e, logged, now), noted := if logged then s.noted + {p} else s.noted)
  }

  function SetStage(s: State, i: nat, stage: FinishStage): State
    requires i < |s.finishers|
  {
    s.(finishers := s.finishers[i := s.finishers[i].(stage := stage)])
  }

  /** Give a lease back to the scheduler. */
  ghost function GiveBack(q: PS.QueuePolicy, s: State, number: nat): State {
    s.(sched := Runs.Next(q, s.sched, Runs.Release(number)), releases := s.releases + [number])
  }

  predicate At(s: State, p: string, stage: SpawnStage) {
    p in s.spawns && s.spawns[p].stage == stage
  }

  function Move(s: State, p: string, stage: SpawnStage): State
    requires p in s.spawns
  {
    s.(spawns := s.spawns[p := s.spawns[p].(stage := stage)])
  }

  predicate FinisherAt(s: State, i: nat, stage: FinishStage) {
    i < |s.finishers| && s.finishers[i].stage == stage
  }

  ghost function NextSpawn(q: PS.QueuePolicy, s: State, step: Step): State {
    match step
    case Insert(p, ws, tool) =>
      if p in s.table.rows then s
      else s.(table := s.table.(rows := s.table.rows[p := Row(ws, tool, Queued, None, None, None, None, None, None)]),
              spawns := s.spawns[p := Spawn(ws, Inserted)])
    case Refuse(p, e, logged, now) =>
      if (At(s, p, Inserted) || At(s, p, GaveUp)) && e.status.Terminal()
      then End(s.(spawns := s.spawns - {p}), p, e, logged, now) else s
    case Arrive(p, key, priority) =>
      if !At(s, p, Inserted) then s
      else Move(s, p, Waiting(|s.sched.callers| + 1))
           .(sched := Runs.Next(q, s.sched, Runs.Acquire(s.spawns[p].workspace, key, priority)))
    case WakeUp => s.(sched := Runs.Next(q, s.sched, Runs.Wake))
    case Admit(p) =>
      if p in s.spawns && s.spawns[p].stage.Waiting? && s.spawns[p].stage.number in s.sched.active
      then Move(s, p, Leased(s.spawns[p].stage.number)) else s
    case TimeOut(p) =>
      if p in s.spawns && s.spawns[p].stage.Waiting? && s.spawns[p].stage.number !in s.sched.active
      then Move(s, p, GaveUp)
           .(sched := Runs.Next(q, s.sched, Runs.Expire(s.spawns[p].workspace, s.spawns[p].stage.number))) else s
    case FailLaunch(p, e, logged, now) =>
      if p in s.spawns && s.spawns[p].stage.Leased? && e.status.Terminal()
      then End(Move(s, p, Doomed(s.spawns[p].stage.number)), p, e, logged, now) else s
    case ReleaseFailed(p) =>
      if p in s.spawns && s.spawns[p].stage.Doomed?
      then GiveBack(q, s.(spawns := s.spawns - {p}), s.spawns[p].stage.number) else s
    case Launch(p, pid, logged, now) =>
      if p in s.spawns && s.spawns[p].stage.Leased? && p in s.table.rows
      then Move(s, p, Launched(s.spawns[p].stage.number))
           .(table := if logged then Start(s.table, p, pid, s.table.rows[p].tool, false, now)
                      else StartUnlogged(s.table, p, pid)) else s
    case Publish(p) =>
      if p in s.spawns && s.spawns[p].stage.Launched?
      then s.(spawns := s.spawns - {p}, running := s.running + {p},
              handles := s.handles[p := Handle(false, Some(s.spawns[p].stage.number), s.spawns[p].stage.number)]) else s
    case _ => s
  }

  /** What a finisher does, one lock at a time. */
  ghost function NextFinish(q: PS.QueuePolicy, s: State, step: Step): State {
    match step
    case Claim(p, e) =>
      if p in s.handles && !s.handles[p].finalized && e.status.Terminal()
      then s.(handles := s.handles[p := s.handles[p].(finalized := true)],
              finishers := s.finishers + [Finisher(p, e, Claimed)]) else s
    case Write(i, logged, now) =>
      if FinisherAt(s, i, Claimed)
          then SetStage(End(s, s.finishers[i].process, s.finishers[i].ending, logged, now), i, Recorded) else s
    case Pop(i) =>
      if FinisherAt(s, i, Recorded) then SetStage(s.(running := s.running - {s.finishers[i].process}), i, Popped) else s
    case Take(i) =>
      if FinisherAt(s, i, Popped) && s.finishers[i].process in s.handles
      then var p := s.finishers[i].process;
           SetStage(s.(handles := s.handles[p := s.handles[p].(lease := None)]), i, Taken(s.handles[p].lease)) else s
    case Give(i) =>
      if i < |s.finishers| && s.finishers[i].stage.Taken?
      then var lease := s.finishers[i].stage.lease;
           SetStage(if lease.Some? then GiveBack(q, s, lease.value) else s, i, Done) else s
    case _ => s
  }

  ghost function NextOther(q: PS.QueuePolicy, s: State, step: Step): State {
    match step
    case Emit(d, now) => if d.kind == EXITED then s else s.(table := s.table.(log := Append(s.table.log, d, now)))
    case Clean(keep, cutoff) => s.(table := s.table.(log := Cleanup(s.table.log, keep, cutoff)))
    case Beat(p, touch) =>
      if p in s.table.rows && (p in s.handles || (p in s.spawns && s.spawns[p].stage.Launched?))
      then s.(table := s.table.(rows := s.table.rows[p := Touched(s.table.rows[p], touch)])) else s
    case Crash => State(s.table, s.noted, PS.EMPTY, map[], map[], {}, [], [])
    case Recover(p, e, logged, now) =>
      if p in s.table.rows && !s.table.rows[p].status.Terminal() && p !in s.spawns && p !in s.handles
          && e.status.Terminal()
      then End(s, p, e, logged, now) else s
    case Adopt(p, key) =>
      if p in s.table.rows && s.table.rows[p].status == Running && p !in s.spawns && p !in s.handles
      then
        var ws, n := s.table.rows[p].workspace, |s.sched.callers| + 1;
        var arrived := Runs.Next(q, s.sched, Runs.Acquire(ws, key, 100));
        if n in arrived.active
        then s.(sched := arrived, running := s.running + {p}, handles := s.handles[p := Handle(false, Some(n), n)])
        else s.(sched := Runs.Next(q, arrived, Runs.Expire(ws, n)))
      else s
    case _ => s
  }

  ghost function Next(q: PS.QueuePolicy, s: State, step: Step): State {
    if step.Claim? || step.Write? || step.Pop? || step.Take? || step.Give? then NextFinish(q, s, step)
    else if step.Emit? || step.Clean? || step.Beat? || step.Crash? || step.Recover? || step.Adopt?
        then NextOther(q, s, step)
    else NextSpawn(q, s, step)
  }

  ghost function Run(q: PS.QueuePolicy, steps: seq<Step>): State {
    if steps == [] then START else Next(q, Run(q, steps[..|steps| - 1]), steps[|steps| - 1])
  }

  // ----------------------------------------------------------------- invariant

  function Number(stage: SpawnStage): Option<nat> {
    if stage.Inserted? || stage.GaveUp? then None else Some(stage.number)
  }

  /** Who answers for a number inside the scheduler. */
  datatype Holder = OfSpawn(p: string) | OfProcess(p: string) | OfFinisher(i: nat)

  function LeaseOf(spawns: map<string, Spawn>, handles: map<string, Handle>, finishers: seq<Finisher>,
                   h: Holder): Option<nat> {
    match h
    case OfSpawn(p) => if p in spawns then Number(spawns[p].stage) else None
    case OfProcess(p) => if p in handles then handles[p].lease else None
    case OfFinisher(i) => if i < |finishers| && finishers[i].stage.Taken? then finishers[i].stage.lease else None
  }

  ghost predicate StillWaiting(spawns: map<string, Spawn>, h: Holder) {
    h.OfSpawn? && h.p in spawns && spawns[h.p].stage.Waiting?
  }

  /** Every number inside the scheduler has exactly one holder, and only a waiting caller's may be without a slot. */
  ghost predicate HeldOk(inside: set<nat>, active: set<nat>, spawns: map<string, Spawn>, handles: map<string, Handle>,
                         finishers: seq<Finisher>) {
    && (forall n :: n in inside ==> exists h :: LeaseOf(spawns, handles, finishers, h) == Some(n))
    && (forall h :: LeaseOf(spawns, handles, finishers, h).Some? ==>
        LeaseOf(spawns, handles, finishers, h).value in inside)
    && (forall h :: LeaseOf(spawns, handles, finishers, h).Some? && !StillWaiting(spawns, h) ==>
          LeaseOf(spawns, handles, finishers, h).value in active)
    && (forall h, g ::
          LeaseOf(spawns, handles, finishers, h).Some?
              && LeaseOf(spawns, handles, finishers, h) == LeaseOf(spawns, handles, finishers, g) ==>
            h == g)
  }

  ghost predicate SpawnsOk(rows: map<string, Row>, callers: seq<PS.Request>, spawns: map<string, Spawn>,
                           handles: map<string, Handle>) {
    forall p :: p in spawns ==>
      && p in rows && p !in handles && rows[p].workspace == spawns[p].workspace
      && RowAt(spawns[p].stage, rows[p])
      && (spawns[p].stage.Waiting? ==>
            && 1 <= spawns[p].stage.number <= |callers|
            && callers[spawns[p].stage.number - 1].workspace == spawns[p].workspace)
  }

  ghost predicate HandlesOk(rows: map<string, Row>, handles: map<string, Handle>, running: set<string>,
                            finishers: seq<Finisher>) {
    && (forall p :: p in running ==> p in handles)
    && (forall p :: p in handles ==> p in rows)
    && (forall p :: p in handles && !handles[p].finalized ==>
          && p in rows && rows[p].status == Running && p in running
          && handles[p].lease == Some(handles[p].number)
          && forall i :: 0 <= i < |finishers| ==> finishers[i].process != p)
    && (forall p :: p in handles && handles[p].finalized ==>
          exists i :: 0 <= i < |finishers| && finishers[i].process == p)
  }

  ghost predicate FinisherOk(rows: map<string, Row>, handles: map<string, Handle>, running: set<string>,
                             releases: seq<nat>, f: Finisher) {
    var p := f.process;
    && p in handles && handles[p].finalized && p in rows && f.ending.status.Terminal()
    && rows[p].status == (if f.stage.Claimed? then Running else f.ending.status)
    && (p in running <==> f.stage.Claimed? || f.stage.Recorded?)
    && handles[p].lease == (if f.stage.Taken? || f.stage.Done? then None else Some(handles[p].number))
    && (f.stage.Taken? ==> f.stage.lease == Some(handles[p].number))
    && (f.stage.Done? ==> handles[p].number in releases)
  }

  ghost predicate FinishersOk(rows: map<string, Row>, handles: map<string, Handle>, running: set<string>,
                              releases: seq<nat>, finishers: seq<Finisher>) {
    && (forall i :: 0 <= i < |finishers| ==> FinisherOk(rows, handles, running, releases, finishers[i]))
    && (forall i, j :: 0 <= i < j < |finishers| ==> finishers[i].process != finishers[j].process)
  }

  /**
   A process has a terminal event exactly when its row is terminal and its end went
   through the log; then just one.
   */
  ghost predicate ExitsOk(rows: map<string, Row>, history: seq<Event>, noted: set<string>) {
    forall p ::
      && (p in noted ==> p in rows && rows[p].status.Terminal())
      && (p !in noted ==> Exits(history, p) == [])
      && (p in noted ==> |Exits(history, p)| == 1 && Exits(history, p)[0].payload.Exited?
                         && Exits(history, p)[0].payload.status == rows[p].status)
  }

  ghost predicate ReleasesOk(inside: set<nat>, issued: nat, releases: seq<nat>) {
    && (forall i :: 0 <= i < |releases| ==> releases[i] !in inside && releases[i] <= issued)
    && (forall i, j :: 0 <= i < j < |releases| ==> releases[i] != releases[j])
  }

  ghost predicate SchedOk(q: PS.QueuePolicy, sched: PS.State) {
    PS.Inv(q, sched) && PS.Saturated(q, sched)
  }

  ghost predicate Inv(q: PS.QueuePolicy, s: State) {
    && SchedOk(q, s.sched)
    && HeldOk(Sets.Inside(s.sched), s.sched.active.Keys, s.spawns, s.handles, s.finishers)
    && SpawnsOk(s.table.rows, s.sched.callers, s.spawns, s.handles)
    && HandlesOk(s.table.rows, s.handles, s.running, s.finishers)
    && FinishersOk(s.table.rows, s.handles, s.running, s.releases, s.finishers)
    && ExitsOk(s.table.rows, s.table.log.history, s.noted)
    && ReleasesOk(Sets.Inside(s.sched), |s.sched.callers|, s.releases)
  }

  // ------------------------------------------------------ the parts, step by step

  /** Moving a number from one holder to another, or letting a waiting caller see its admission. */
  lemma HeldMoves(inside: set<nat>, active: set<nat>,
                  spawns: map<string, Spawn>, handles: map<string, Handle>, finishers: seq<Finisher>,
                  spawns2: map<string, Spawn>, handles2: map<string, Handle>, finishers2: seq<Finisher>,
                  a: Holder, b: Holder)
    requires HeldOk(inside, active, spawns, handles, finishers)
    requires LeaseOf(spawns2, handles2, finishers2, b) == LeaseOf(spawns, handles, finishers, a)
    requires a != b ==>
               LeaseOf(spawns2, handles2, finishers2, a) == None && LeaseOf(spawns, handles, finishers, b) == None
    requires forall h :: h != a && h != b ==>
               LeaseOf(spawns2, handles2, finishers2, h) == LeaseOf(spawns, handles, finishers, h)
               && (StillWaiting(spawns, h) <==> StillWaiting(spawns2, h))
    requires LeaseOf(spawns, handles, finishers, a).Some? ==> LeaseOf(spawns, handles, finishers, a).value in active
    ensures HeldOk(inside, active, spawns2, handles2, finishers2)
  {
    hide LeaseOf, StillWaiting;
    forall n | n in inside ensures exists h :: LeaseOf(spawns2, handles2, finishers2, h) == Some(n) {
      var h :| LeaseOf(spawns, handles, finishers, h) == Some(n);
      if h == a { assert LeaseOf(spawns2, handles2, finishers2, b) == Some(n); }
      else { assert LeaseOf(spawns2, handles2, finishers2, h) == Some(n); }
    }
  }

  /** The scheduler moved callers from waiting to active. */
  lemma HeldGrants(inside: set<nat>, active: set<nat>, active2: set<nat>, spawns: map<string, Spawn>,
                   handles: map<string, Handle>, finishers: seq<Finisher>)
    requires HeldOk(inside, active, spawns, handles, finishers) && active <= active2
    ensures HeldOk(inside, active2, spawns, handles, finishers)
  {
    hide LeaseOf, StillWaiting;
  }

  /** A new number enters the scheduler, held by h. */
  lemma HeldEnters(inside: set<nat>, active: set<nat>, active2: set<nat>, n: nat,
                   spawns: map<string, Spawn>, handles: map<string, Handle>, finishers: seq<Finisher>,
                   spawns2: map<string, Spawn>, handles2: map<string, Handle>, a: Holder)
    requires HeldOk(inside, active, spawns, handles, finishers) && active <= active2 && n !in inside
    requires LeaseOf(spawns, handles, finishers, a) == None && LeaseOf(spawns2, handles2, finishers, a) == Some(n)
    requires StillWaiting(spawns2, a) || n in active2
    requires forall h :: h != a ==>
               LeaseOf(spawns2, handles2, finishers, h) == LeaseOf(spawns, handles, finishers, h)
               && (StillWaiting(spawns, h) <==> StillWaiting(spawns2, h))
    ensures HeldOk(inside + {n}, active2, spawns2, handles2, finishers)
  {
    hide LeaseOf, StillWaiting;
    forall m | m in inside + {n} ensures exists h :: LeaseOf(spawns2, handles2, finishers, h) == Some(m) {
      if m == n { assert LeaseOf(spawns2, handles2, finishers, a) == Some(n); }
      else {
        var h :| LeaseOf(spawns, handles, finishers, h) == Some(m);
        assert LeaseOf(spawns2, handles2, finishers, h) == Some(m);
      }
    }
  }

  /** A number leaves the scheduler together with its holder. */
  lemma HeldLeaves(inside: set<nat>, active: set<nat>, active2: set<nat>, n: nat,
                   spawns: map<string, Spawn>, handles: map<string, Handle>, finishers: seq<Finisher>,
                   spawns2: map<string, Spawn>, finishers2: seq<Finisher>, a: Holder)
    requires HeldOk(inside, active, spawns, handles, finishers) && active - {n} <= active2
    requires LeaseOf(spawns, handles, finishers, a) == Some(n) && LeaseOf(spawns2, handles, finishers2, a) == None
    requires forall h :: h != a ==>
               LeaseOf(spawns2, handles, finishers2, h) == LeaseOf(spawns, handles, finishers, h)
               && (StillWaiting(spawns, h) <==> StillWaiting(spawns2, h))
    ensures HeldOk(inside - {n}, active2, spawns2, handles, finishers2)
  {
    hide LeaseOf, StillWaiting;
    forall m | m in inside - {n} ensures exists h :: LeaseOf(spawns2, handles, finishers2, h) == Some(m) {
      var h :| LeaseOf(spawns, handles, finishers, h) == Some(m);
      assert LeaseOf(spawns2, handles, finishers2, h) == Some(m);
    }
  }

  lemma OneRowExits(rows: map<string, Row>, history: seq<Event>, noted: set<string>, p: string, row: Row)
    requires ExitsOk(rows, history, noted) && (p in rows ==> !rows[p].status.Terminal())
    ensures ExitsOk(rows[p := row], history, noted)
  {
    hide Exits;
  }

  lemma SameExits(rows: map<string, Row>, history: seq<Event>, history2: seq<Event>, noted: set<string>)
    requires ExitsOk(rows, history, noted)
    requires forall p :: Exits(history2, p) == Exits(history, p)
    ensures ExitsOk(rows, history2, noted)
  {
    hide Exits;
  }

  /** The row and the log after the end of a process that had not ended. */
  lemma EndKeepsExits(s: State, p: string, e: Ending, logged: bool, now: int)
    requires ExitsOk(s.table.rows, s.table.log.history, s.noted)
    requires p in s.table.rows && !s.table.rows[p].status.Terminal() && e.status.Terminal()
    ensures var r := End(s, p, e, logged, now);
            && ExitsOk(r.table.rows, r.table.log.history, r.noted)
            && r.table.rows == s.table.rows[p := EndedRow(s.table.rows[p], e)]
  {
    hide Exits, NewEvent, Append;
    var r := End(s, p, e, logged, now);
    if logged {
      FinishedExits(s.table, p, e, now, p);
      forall x ensures Exits(r.table.log.history, x) == Exits(s.table.log.history, x) +
                         (if x == p then [r.table.log.history[|s.table.log.history|]] else []) {
        FinishedExits(s.table, p, e, now, x);
      }
    } else {
      OneRowExits(s.table.rows, s.table.log.history, s.noted, p, EndedRow(s.table.rows[p], e));
    }
  }

  lemma StartKeepsExits(t: Table, noted: set<string>, p: string, pid: int, logged: bool, now: int)
    requires ExitsOk(t.rows, t.log.history, noted)
    requires p in t.rows && !t.rows[p].status.Terminal()
    ensures var r := if logged then Start(t, p, pid, t.rows[p].tool, false, now) else StartUnlogged(t, p, pid);
            && ExitsOk(r.rows, r.log.history, noted)
            && r.rows == t.rows[p := t.rows[p].(status := Running, pid := Some(pid))]
  {
    hide Exits, NewEvent, Append;
    OneRowExits(t.rows, t.log.history, noted, p, t.rows[p].(status := Running, pid := Some(pid)));
    if logged {
      forall x ensures Exits(Append(t.log, StartDraft(t, p, pid, t.rows[p].tool, false), now).history, x) ==
          Exits(t.log.history, x) {
        AppendedExits(t.log, StartDraft(t, p, pid, t.rows[p].tool, false), now, x);
      }
    }
  }

  // -------------------------------------------------------------- spawning steps

  lemma InsertKeepsInv(q: PS.QueuePolicy, s: State, p: string, ws: string, tool: string)
    requires Inv(q, s)
    ensures Inv(q, NextSpawn(q, s, Insert(p, ws, tool)))
  {
    hide SchedOk, ExitsOk, ReleasesOk, SpawnsOk, HandlesOk, FinishersOk, HeldOk, Sets.Inside;
    if p !in s.table.rows {
      var r := NextSpawn(q, s, Insert(p, ws, tool));
      RowsFirst(s.table.rows, s.sched.callers, s.spawns, s.handles, s.running, s.finishers, p);
      OneRowExits(s.table.rows, s.table.log.history, s.noted, p, r.table.rows[p]);
      HeldSpawnKept(s, p, r.spawns);
      NewSpawn(s.table.rows, s.sched.callers, s.spawns, s.handles, p, r.table.rows[p]);
      HandlesElsewhere(s.table.rows, s.handles, s.running, s.finishers, p, r.table.rows[p]);
      FinishersElsewhere(s.table.rows, r.table.rows, s.handles, s.running, s.releases, s.finishers, p);
    }
  }

  /** Nobody works on a process before its row exists. */
  lemma RowsFirst(rows: map<string, Row>, callers: seq<PS.Request>, spawns: map<string, Spawn>,
                  handles: map<string, Handle>, running: set<string>, finishers: seq<Finisher>, p: string)
    requires SpawnsOk(rows, callers, spawns, handles) && HandlesOk(rows, handles, running, finishers) && p !in rows
    ensures p !in spawns && p !in handles
  {
  }

  lemma NewSpawn(rows: map<string, Row>, callers: seq<PS.Request>, spawns: map<string, Spawn>,
                 handles: map<string, Handle>, p: string, row: Row)
    requires SpawnsOk(rows, callers, spawns, handles) && p !in rows && p !in handles && row.status == Queued
    ensures SpawnsOk(rows[p := row], callers, spawns[p := Spawn(row.workspace, Inserted)], handles)
  {
  }

  /** A spawning caller outside the scheduler changes nothing about who holds what. */
  lemma HeldSpawnKept(s: State, p: string, spawns2: map<string, Spawn>)
    requires HeldOk(Sets.Inside(s.sched), s.sched.active.Keys, s.spawns, s.handles, s.finishers)
    requires p in s.spawns ==> Number(s.spawns[p].stage) == None
    requires p in spawns2 ==> Number(spawns2[p].stage) == None
    requires forall x :: x != p ==> (x in spawns2 <==> x in s.spawns) && (x in spawns2 ==> spawns2[x] == s.spawns[x])
    ensures HeldOk(Sets.Inside(s.sched), s.sched.active.Keys, spawns2, s.handles, s.finishers)
  {
    hide Sets.Inside;
    HeldMoves(Sets.Inside(s.sched), s.sched.active.Keys, s.spawns, s.handles, s.finishers, spawns2, s.handles,
              s.finishers,
              OfSpawn(p), OfSpawn(p));
  }

  /** A row without a handle concerns no finisher. */
  lemma FinishersElsewhere(rows: map<string, Row>, rows2: map<string, Row>, handles: map<string, Handle>,
                           running: set<string>,
                           releases: seq<nat>, finishers: seq<Finisher>, p: string)
    requires FinishersOk(rows, handles, running, releases, finishers) && p !in handles
    requires forall x :: x in rows && x != p ==> x in rows2 && rows2[x] == rows[x]
    ensures FinishersOk(rows2, handles, running, releases, finishers)
  {
    forall i | 0 <= i < |finishers| ensures FinisherOk(rows2, handles, running, releases, finishers[i]) {
      assert FinisherOk(rows, handles, running, releases, finishers[i]);
    }
  }

  lemma HandlesElsewhere(rows: map<string, Row>, handles: map<string, Handle>, running: set<string>,
                         finishers: seq<Finisher>, p: string, row: Row)
    requires HandlesOk(rows, handles, running, finishers) && p !in handles
    ensures HandlesOk(rows[p := row], handles, running, finishers)
  {
  }

  /** What a caller at this stage expects of its row. */
  predicate RowAt(stage: SpawnStage, row: Row) {
    match stage
    case Launched(_) => row.status == Running
    case Doomed(_) => row.status.Terminal()
    case _ => row.status == Queued
  }

  lemma SpawnMoves(rows: map<string, Row>, callers: seq<PS.Request>, spawns: map<string, Spawn>,
                   handles: map<string, Handle>, p: string, stage: SpawnStage, row: Row)
    requires SpawnsOk(rows, callers, spawns, handles) && p in spawns
    requires row.workspace == rows[p].workspace && RowAt(stage, row) && !stage.Waiting?
    ensures SpawnsOk(rows[p := row], callers, spawns[p := spawns[p].(stage := stage)], handles)
  {
  }

  lemma SpawnEnds(rows: map<string, Row>, callers: seq<PS.Request>, spawns: map<string, Spawn>,
                  handles: map<string, Handle>, p: string, row: Row)
    requires SpawnsOk(rows, callers, spawns, handles) && p in spawns
    ensures SpawnsOk(rows[p := row], callers, spawns - {p}, handles)
  {
  }

  lemma SpawnRow(rows: map<string, Row>, callers: seq<PS.Request>, spawns: map<string, Spawn>,
                 handles: map<string, Handle>, p: string)
    requires SpawnsOk(rows, callers, spawns, handles) && p in spawns
    ensures p in rows && p !in handles && rows[p].workspace == spawns[p].workspace && RowAt(spawns[p].stage, rows[p])
  {
  }

  lemma RefuseKeepsInv(q: PS.QueuePolicy, s: State, p: string, e: Ending, logged: bool, now: int)
    requires Inv(q, s)
    ensures Inv(q, NextSpawn(q, s, Refuse(p, e, logged, now)))
  {
    hide SchedOk, ExitsOk, ReleasesOk, SpawnsOk, HandlesOk, FinishersOk, HeldOk, Sets.Inside, Record;
    if (At(s, p, Inserted) || At(s, p, GaveUp)) && e.status.Terminal() {
      var r := NextSpawn(q, s, Refuse(p, e, logged, now));
      SpawnRow(s.table.rows, s.sched.callers, s.spawns, s.handles, p);
      EndKeepsExits(s, p, e, logged, now);
      HeldSpawnKept(s, p, r.spawns);
      SpawnEnds(s.table.rows, s.sched.callers, s.spawns, s.handles, p, r.table.rows[p]);
      HandlesElsewhere(s.table.rows, s.handles, s.running, s.finishers, p, r.table.rows[p]);
      FinishersElsewhere(s.table.rows, r.table.rows, s.handles, s.running, s.releases, s.finishers, p);
    }
  }

  lemma ArriveKeepsInv(q: PS.QueuePolicy, s: State, p: string, key: Option<PS.ConcurrencyKey>, priority: int)
    requires Inv(q, s)
    ensures Inv(q, NextSpawn(q, s, Arrive(p, key, priority)))
  {
    hide ExitsOk, FinishersOk, HandlesOk, PS.Inv, PS.Saturated, Runs.Next, Sets.Inside;
    if At(s, p, Inserted) {
      var r := NextSpawn(q, s, Arrive(p, key, priority));
      var ws, n := s.spawns[p].workspace, |s.sched.callers| + 1;
      Runs.NextKeepsInv(q, s.sched, Runs.Acquire(ws, key, priority));
      Sets.InsideSeparate(q, s.sched);
      Sets.AcquireInside(q, s.sched, ws, key, priority);
      HeldEnters(Sets.Inside(s.sched), s.sched.active.Keys, r.sched.active.Keys, n, s.spawns, s.handles, s.finishers,
          r.spawns, r.handles, OfSpawn(p));
    }
  }

  lemma WakeUpKeepsInv(q: PS.QueuePolicy, s: State)
    requires Inv(q, s)
    ensures Inv(q, NextSpawn(q, s, WakeUp))
  {
    hide ExitsOk, FinishersOk, HandlesOk, HeldOk, PS.Inv, PS.Saturated, Runs.Next, Sets.Inside;
    Runs.NextKeepsInv(q, s.sched, Runs.Wake);
    Sets.WakeInside(q, s.sched);
    var r := NextSpawn(q, s, WakeUp);
    HeldGrants(Sets.Inside(s.sched), s.sched.active.Keys, r.sched.active.Keys, s.spawns, s.handles, s.finishers);
  }

  lemma AdmitKeepsInv(q: PS.QueuePolicy, s: State, p: string)
    requires Inv(q, s)
    ensures Inv(q, NextSpawn(q, s, Admit(p)))
  {
    hide SchedOk, ExitsOk, ReleasesOk, FinishersOk, HandlesOk, HeldOk, Sets.Inside;
    if p in s.spawns && s.spawns[p].stage.Waiting? && s.spawns[p].stage.number in s.sched.active {
      var r := NextSpawn(q, s, Admit(p));
      HeldMoves(Sets.Inside(s.sched), s.sched.active.Keys, s.spawns, s.handles, s.finishers, r.spawns, r.handles,
          r.finishers, OfSpawn(p), OfSpawn(p));
    }
  }

  lemma TimeOutKeepsInv(q: PS.QueuePolicy, s: State, p: string)
    requires Inv(q, s)
    ensures Inv(q, NextSpawn(q, s, TimeOut(p)))
  {
    hide ExitsOk, FinishersOk, HandlesOk, HeldOk, PS.Inv, PS.Saturated, Runs.Next, Sets.Inside;
    if p in s.spawns && s.spawns[p].stage.Waiting? && s.spawns[p].stage.number !in s.sched.active {
      var r := NextSpawn(q, s, TimeOut(p));
      var ws, n := s.spawns[p].workspace, s.spawns[p].stage.number;
      HeldInside(s, OfSpawn(p));
      WaitingInside(s.sched, n);
      Runs.NextKeepsInv(q, s.sched, Runs.Expire(ws, n));
      Sets.ExpireInside(q, s.sched, ws, n);
      HeldLeaves(Sets.Inside(s.sched), s.sched.active.Keys, r.sched.active.Keys, n, s.spawns, s.handles, s.finishers,
          r.spawns, r.finishers, OfSpawn(p));
    }
  }

  lemma WaitingInside(sched: PS.State, n: nat)
    requires n in Sets.Inside(sched) && n !in sched.active
    ensures n in Runs.Waiting(sched.queues)
  {
  }

  lemma FailLaunchKeepsInv(q: PS.QueuePolicy, s: State, p: string, e: Ending, logged: bool, now: int)
    requires Inv(q, s)
    ensures Inv(q, NextSpawn(q, s, FailLaunch(p, e, logged, now)))
  {
    hide SchedOk, ExitsOk, ReleasesOk, SpawnsOk, HandlesOk, FinishersOk, HeldOk, Sets.Inside, Record;
    if p in s.spawns && s.spawns[p].stage.Leased? && e.status.Terminal() {
      var r := NextSpawn(q, s, FailLaunch(p, e, logged, now));
      SpawnRow(s.table.rows, s.sched.callers, s.spawns, s.handles, p);
      EndKeepsExits(s, p, e, logged, now);
      HeldStageKept(s, p, r.spawns);
      SpawnMoves(s.table.rows, s.sched.callers, s.spawns, s.handles, p, r.spawns[p].stage, r.table.rows[p]);
      HandlesElsewhere(s.table.rows, s.handles, s.running, s.finishers, p, r.table.rows[p]);
      FinishersElsewhere(s.table.rows, r.table.rows, s.handles, s.running, s.releases, s.finishers, p);
    }
  }

  /** A caller that keeps its lease keeps its place among the holders. */
  lemma HeldStageKept(s: State, p: string, spawns2: map<string, Spawn>)
    requires HeldOk(Sets.Inside(s.sched), s.sched.active.Keys, s.spawns, s.handles, s.finishers)
    requires p in s.spawns && s.spawns[p].stage.Leased?
    requires spawns2.Keys == s.spawns.Keys && Number(spawns2[p].stage) == Number(s.spawns[p].stage)
             && !spawns2[p].stage.Waiting?
    requires forall x :: x in s.spawns && x != p ==> spawns2[x] == s.spawns[x]
    ensures HeldOk(Sets.Inside(s.sched), s.sched.active.Keys, spawns2, s.handles, s.finishers)
  {
    hide HeldOk, Sets.Inside;
    HeldInside(s, OfSpawn(p));
    HeldMoves(Sets.Inside(s.sched), s.sched.active.Keys, s.spawns, s.handles, s.finishers, spawns2, s.handles,
        s.finishers, OfSpawn(p), OfSpawn(p));
  }

  /** Who has been admitted holds an active lease. */
  lemma HeldInside(s: State, h: Holder)
    requires HeldOk(Sets.Inside(s.sched), s.sched.active.Keys, s.spawns, s.handles, s.finishers)
    ensures var l := LeaseOf(s.spawns, s.handles, s.finishers, h);
            l.Some? ==> l.value in Sets.Inside(s.sched) && (!StillWaiting(s.spawns, h) ==> l.value in s.sched.active)
  {
    hide Sets.Inside;
  }

  lemma ReleaseFailedKeepsInv(q: PS.QueuePolicy, s: State, p: string)
    requires Inv(q, s)
    ensures Inv(q, NextSpawn(q, s, ReleaseFailed(p)))
  {
    hide ExitsOk, HandlesOk, FinisherOk, HeldOk, PS.Inv, PS.Saturated, Runs.Next, Sets.Inside;
    if p in s.spawns && s.spawns[p].stage.Doomed? {
      var r := NextSpawn(q, s, ReleaseFailed(p));
      var n := s.spawns[p].stage.number;
      HeldInside(s, OfSpawn(p));
      Runs.NextKeepsInv(q, s.sched, Runs.Release(n));
      Sets.ReleaseInside(q, s.sched, n);
      Sets.InsideSeparate(q, s.sched);
      ActiveInside(s.sched);
      HeldLeaves(Sets.Inside(s.sched), s.sched.active.Keys, r.sched.active.Keys, n, s.spawns, s.handles, s.finishers,
          r.spawns, r.finishers, OfSpawn(p));
      FinishersMoreReleases(s.table.rows, s.handles, s.running, s.releases, n, s.finishers);
    }
  }

  lemma ActiveInside(sched: PS.State)
    ensures sched.active.Keys <= Sets.Inside(sched)
  {
  }

  lemma FinishersMoreReleases(rows: map<string, Row>, handles: map<string, Handle>, running: set<string>,
                              releases: seq<nat>, n: nat, finishers: seq<Finisher>)
    requires FinishersOk(rows, handles, running, releases, finishers)
    ensures FinishersOk(rows, handles, running, releases + [n], finishers)
  {
    forall i | 0 <= i < |finishers| ensures FinisherOk(rows, handles, running, releases + [n], finishers[i]) {
      assert FinisherOk(rows, handles, running, releases, finishers[i]);
    }
  }

  lemma LaunchKeepsInv(q: PS.QueuePolicy, s: State, p: string, pid: int, logged: bool, now: int)
    requires Inv(q, s)
    ensures Inv(q, NextSpawn(q, s, Launch(p, pid, logged, now)))
  {
    hide SchedOk, ExitsOk, ReleasesOk, SpawnsOk, HandlesOk, FinishersOk, HeldOk, Sets.Inside, Start, StartUnlogged;
    if p in s.spawns && s.spawns[p].stage.Leased? && p in s.table.rows {
      var r := NextSpawn(q, s, Launch(p, pid, logged, now));
      SpawnRow(s.table.rows, s.sched.callers, s.spawns, s.handles, p);
      StartKeepsExits(s.table, s.noted, p, pid, logged, now);
      HeldStageKept(s, p, r.spawns);
      SpawnMoves(s.table.rows, s.sched.callers, s.spawns, s.handles, p, r.spawns[p].stage, r.table.rows[p]);
      HandlesElsewhere(s.table.rows, s.handles, s.running, s.finishers, p, r.table.rows[p]);
      FinishersElsewhere(s.table.rows, r.table.rows, s.handles, s.running, s.releases, s.finishers, p);
    }
  }

  lemma PublishKeepsInv(q: PS.QueuePolicy, s: State, p: string)
    requires Inv(q, s)
    ensures Inv(q, NextSpawn(q, s, Publish(p)))
  {
    hide SchedOk, ExitsOk, ReleasesOk, SpawnsOk, HandlesOk, FinishersOk, HeldOk, Sets.Inside;
    if p in s.spawns && s.spawns[p].stage.Launched? {
      var r := NextSpawn(q, s, Publish(p));
      SpawnRow(s.table.rows, s.sched.callers, s.spawns, s.handles, p);
      HeldInside(s, OfSpawn(p));
      HeldMoves(Sets.Inside(s.sched), s.sched.active.Keys, s.spawns, s.handles, s.finishers, r.spawns, r.handles,
          r.finishers, OfSpawn(p), OfProcess(p));
      NewHandleElsewhere(s.table.rows, s.handles, s.running, s.releases, s.finishers, p, r.handles[p]);
      HandlePublished(s.table.rows, s.sched.callers, s.spawns, s.handles, s.running, s.finishers, p, r.handles[p]);
    }
  }

  lemma HandlePublished(rows: map<string, Row>, callers: seq<PS.Request>, spawns: map<string, Spawn>,
                        handles: map<string, Handle>, running: set<string>, finishers: seq<Finisher>,
                        p: string, handle: Handle)
    requires SpawnsOk(rows, callers, spawns, handles) && HandlesOk(rows, handles, running, finishers)
    requires p in rows && rows[p].status == Running && p !in handles
    requires !handle.finalized && handle.lease == Some(handle.number)
    requires forall i :: 0 <= i < |finishers| ==> finishers[i].process != p
    ensures SpawnsOk(rows, callers, spawns - {p}, handles[p := handle])
    ensures HandlesOk(rows, handles[p := handle], running + {p}, finishers)
  {
  }

  lemma NewHandleElsewhere(rows: map<string, Row>, handles: map<string, Handle>, running: set<string>,
                           releases: seq<nat>, finishers: seq<Finisher>, p: string, handle: Handle)
    requires FinishersOk(rows, handles, running, releases, finishers) && p !in handles
    ensures FinishersOk(rows, handles[p := handle], running + {p}, releases, finishers)
    ensures forall i :: 0 <= i < |finishers| ==> finishers[i].process != p
  {
    forall i | 0 <= i < |finishers|
        ensures FinisherOk(rows, handles[p := handle], running + {p}, releases, finishers[i])
        && finishers[i].process != p {
      assert FinisherOk(rows, handles, running, releases, finishers[i]);
    }
  }

  // ------------------------------------------------------------- finishing steps

  /** A change confined to the process of finisher i. */
  lemma FinisherMoves(rows: map<string, Row>, handles: map<string, Handle>, running: set<string>, releases: seq<nat>,
                      finishers: seq<Finisher>,
                      rows2: map<string, Row>, handles2: map<string, Handle>, running2: set<string>,
                      releases2: seq<nat>,
                      i: nat, f: Finisher)
    requires FinishersOk(rows, handles, running, releases, finishers)
    requires i < |finishers| && f.process == finishers[i].process
    requires FinisherOk(rows2, handles2, running2, releases2, f)
    requires forall x :: x != f.process && x in rows ==> x in rows2 && rows2[x] == rows[x]
    requires forall x :: x != f.process && x in handles ==> x in handles2 && handles2[x] == handles[x]
    requires forall x :: x != f.process ==> (x in running2 <==> x in running)
    requires forall n :: n in releases ==> n in releases2
    ensures FinishersOk(rows2, handles2, running2, releases2, finishers[i := f])
  {
    forall j | 0 <= j < |finishers| && j != i ensures FinisherOk(rows2, handles2, running2, releases2, finishers[j]) {
      assert FinisherOk(rows, handles, running, releases, finishers[j]);
      assert finishers[j].process != f.process;
    }
  }

  lemma HandleMoves(rows: map<string, Row>, handles: map<string, Handle>, running: set<string>,
                    finishers: seq<Finisher>,
                    rows2: map<string, Row>, handles2: map<string, Handle>, running2: set<string>, i: nat, f: Finisher)
    requires HandlesOk(rows, handles, running, finishers)
    requires i < |finishers| && f.process == finishers[i].process
    requires f.process in handles && handles[f.process].finalized && handles2.Keys == handles.Keys
             && handles2[f.process].finalized
    requires forall x :: x != f.process && x in rows ==> x in rows2 && rows2[x] == rows[x]
    requires f.process in rows2
    requires forall x :: x != f.process && x in handles ==> handles2[x] == handles[x]
    requires forall x :: x != f.process ==> (x in running2 <==> x in running)
    ensures HandlesOk(rows2, handles2, running2, finishers[i := f])
  {
    var after := finishers[i := f];
    assert after[i].process == finishers[i].process;
    forall x | x in handles2 && handles2[x].finalized ensures exists j :: 0 <= j < |after| && after[j].process == x {
      assert handles[x].finalized;
      var j :| 0 <= j < |finishers| && finishers[j].process == x;
      assert after[j].process == x;
    }
  }

  lemma SpawnsElsewhere(rows: map<string, Row>, callers: seq<PS.Request>, spawns: map<string, Spawn>,
                        handles: map<string, Handle>, rows2: map<string, Row>, handles2: map<string, Handle>, p: string)
    requires SpawnsOk(rows, callers, spawns, handles) && p in handles && handles2.Keys == handles.Keys
    requires forall x :: x != p && x in rows ==> x in rows2 && rows2[x] == rows[x]
    ensures SpawnsOk(rows2, callers, spawns, handles2)
  {
  }

  lemma FinisherAtHand(s: State, i: nat)
    requires FinishersOk(s.table.rows, s.handles, s.running, s.releases, s.finishers) && i < |s.finishers|
    ensures FinisherOk(s.table.rows, s.handles, s.running, s.releases, s.finishers[i])
  {
  }

  /** The parts of the invariant that a finisher's step must restore, given that it touches only its own process. */
  lemma FinisherStep(q: PS.QueuePolicy, s: State, r: State, i: nat, stage: FinishStage)
    requires Inv(q, s) && i < |s.finishers| && r.spawns == s.spawns
    requires r.finishers == s.finishers[i := s.finishers[i].(stage := stage)]
    requires FinisherOk(r.table.rows, r.handles, r.running, r.releases, s.finishers[i].(stage := stage))
    requires forall x :: x != s.finishers[i].process && x in s.table.rows ==>
             x in r.table.rows && r.table.rows[x] == s.table.rows[x]
    requires r.handles.Keys == s.handles.Keys && forall x :: x != s.finishers[i].process && x in s.handles ==>
             r.handles[x] == s.handles[x]
    requires forall x :: x != s.finishers[i].process ==> (x in r.running <==> x in s.running)
    requires forall n :: n in s.releases ==> n in r.releases
    requires r.sched.callers == s.sched.callers
    ensures SpawnsOk(r.table.rows, r.sched.callers, r.spawns, r.handles)
    ensures HandlesOk(r.table.rows, r.handles, r.running, r.finishers)
    ensures FinishersOk(r.table.rows, r.handles, r.running, r.releases, r.finishers)
  {
    hide SchedOk, ExitsOk, ReleasesOk, HeldOk, Sets.Inside, SpawnsOk, HandlesOk, FinishersOk, FinisherOk;
    var f := s.finishers[i].(stage := stage);
    FinisherAtHand(s, i);
    FinisherFacts(s.table.rows, s.handles, s.running, s.releases, s.finishers[i]);
    FinisherFacts(r.table.rows, r.handles, r.running, r.releases, f);
    FinisherMoves(s.table.rows, s.handles, s.running, s.releases, s.finishers, r.table.rows, r.handles, r.running,
        r.releases, i, f);
    HandleMoves(s.table.rows, s.handles, s.running, s.finishers, r.table.rows, r.handles, r.running, i, f);
    SpawnsElsewhere(s.table.rows, s.sched.callers, s.spawns, s.handles, r.table.rows, r.handles, f.process);
  }

  lemma FinisherFacts(rows: map<string, Row>, handles: map<string, Handle>, running: set<string>, releases: seq<nat>,
                      f: Finisher)
    requires FinisherOk(rows, handles, running, releases, f)
    ensures f.process in handles && handles[f.process].finalized && f.process in rows
  {
  }

  lemma ClaimKeepsInv(q: PS.QueuePolicy, s: State, p: string, e: Ending)
    requires Inv(q, s)
    ensures Inv(q, NextFinish(q, s, Claim(p, e)))
  {
    if p in s.handles && !s.handles[p].finalized && e.status.Terminal() {
      var r := NextFinish(q, s, Claim(p, e));
      hide SchedOk, ExitsOk, ReleasesOk, HeldOk, Sets.Inside;
      ClaimKeepsHandles(s.table.rows, s.handles, s.running, s.releases, s.finishers, p, e);
      ClaimKeepsHeld(s, p, e);
      SpawnsElsewhere(s.table.rows, s.sched.callers, s.spawns, s.handles, s.table.rows, r.handles, p);
    }
  }

  lemma ClaimKeepsHeld(s: State, p: string, e: Ending)
    requires HeldOk(Sets.Inside(s.sched), s.sched.active.Keys, s.spawns, s.handles, s.finishers) && p in s.handles
    ensures HeldOk(Sets.Inside(s.sched), s.sched.active.Keys, s.spawns,
                   s.handles[p := s.handles[p].(finalized := true)], s.finishers + [Finisher(p, e, Claimed)])
  {
    hide HeldOk, Sets.Inside;
    HeldInside(s, OfProcess(p));
    HeldMoves(Sets.Inside(s.sched), s.sched.active.Keys, s.spawns, s.handles, s.finishers,
              s.spawns, s.handles[p := s.handles[p].(finalized := true)], s.finishers
                  + [Finisher(p, e, Claimed)], OfProcess(p), OfProcess(p));
  }

  lemma ClaimKeepsHandles(rows: map<string, Row>, handles: map<string, Handle>, running: set<string>,
                          releases: seq<nat>, finishers: seq<Finisher>, p: string, e: Ending)
    requires HandlesOk(rows, handles, running, finishers) && FinishersOk(rows, handles, running, releases, finishers)
    requires p in handles && !handles[p].finalized && e.status.Terminal()
    ensures var handles2, finishers2 :=
            handles[p := handles[p].(finalized := true)], finishers + [Finisher(p, e, Claimed)];
            HandlesOk(rows, handles2, running, finishers2) && FinishersOk(rows, handles2, running, releases, finishers2)
  {
    var handles2 := handles[p := handles[p].(finalized := true)];
    LiveHandle(rows, handles, running, finishers, p);
    assert FinisherOk(rows, handles2, running, releases, Finisher(p, e, Claimed));
    hide FinisherOk, HandlesOk;
    ClaimListed(rows, handles, running, finishers, p, e);
    forall j | 0 <= j < |finishers| ensures FinisherOk(rows, handles2, running, releases, finishers[j]) {
      OtherFinisherKept(rows, handles, handles2, running, releases, finishers[j], p);
    }
  }

  lemma LiveHandle(rows: map<string, Row>, handles: map<string, Handle>, running: set<string>,
                   finishers: seq<Finisher>, p: string)
    requires HandlesOk(rows, handles, running, finishers) && p in handles && !handles[p].finalized
    ensures p in rows && rows[p].status == Running && p in running && handles[p].lease == Some(handles[p].number)
    ensures forall i :: 0 <= i < |finishers| ==> finishers[i].process != p
  {
  }

  lemma OtherFinisherKept(rows: map<string, Row>, handles: map<string, Handle>, handles2: map<string, Handle>,
                          running: set<string>, releases: seq<nat>, f: Finisher, p: string)
    requires FinisherOk(rows, handles, running, releases, f) && f.process != p && p in handles
    requires handles2 == handles[p := handles[p].(finalized := true)]
    ensures FinisherOk(rows, handles2, running, releases, f)
  {
  }

  lemma ClaimListed(rows: map<string, Row>, handles: map<string, Handle>, running: set<string>,
                    finishers: seq<Finisher>, p: string, e: Ending)
    requires HandlesOk(rows, handles, running, finishers) && p in handles && !handles[p].finalized
    ensures HandlesOk(rows, handles[p := handles[p].(finalized := true)], running,
                      finishers + [Finisher(p, e, Claimed)])
  {
    var handles2, finishers2 := handles[p := handles[p].(finalized := true)], finishers + [Finisher(p, e, Claimed)];
    assert finishers2[|finishers|].process == p;
    forall x | x in handles2 && handles2[x].finalized
        ensures exists j :: 0 <= j < |finishers2| && finishers2[j].process == x {
      if x != p {
        var j :| 0 <= j < |finishers| && finishers[j].process == x;
        assert finishers2[j].process == x;
      }
    }
  }

  lemma WriteKeepsInv(q: PS.QueuePolicy, s: State, i: nat, logged: bool, now: int)
    requires Inv(q, s)
    ensures Inv(q, NextFinish(q, s, Write(i, logged, now)))
  {
    hide SchedOk, ExitsOk, ReleasesOk, HeldOk, SpawnsOk, HandlesOk, FinishersOk, Sets.Inside, Record;
    if FinisherAt(s, i, Claimed) {
      var f := s.finishers[i];
      FinisherAtHand(s, i);
      EndKeepsExits(s, f.process, f.ending, logged, now);
      FinisherStep(q, s, NextFinish(q, s, Write(i, logged, now)), i, Recorded);
      HeldFinisherKept(s, i, Recorded);
    }
  }

  lemma HeldFinisherKept(s: State, i: nat, stage: FinishStage)
    requires HeldOk(Sets.Inside(s.sched), s.sched.active.Keys, s.spawns, s.handles, s.finishers)
    requires i < |s.finishers| && !s.finishers[i].stage.Taken? && !stage.Taken?
    ensures HeldOk(Sets.Inside(s.sched), s.sched.active.Keys, s.spawns, s.handles,
                   s.finishers[i := s.finishers[i].(stage := stage)])
  {
    hide HeldOk, Sets.Inside;
    HeldMoves(Sets.Inside(s.sched), s.sched.active.Keys, s.spawns, s.handles, s.finishers,
              s.spawns, s.handles, s.finishers[i := s.finishers[i].(stage := stage)], OfFinisher(i), OfFinisher(i));
  }

  lemma PopKeepsInv(q: PS.QueuePolicy, s: State, i: nat)
    requires Inv(q, s)
    ensures Inv(q, NextFinish(q, s, Pop(i)))
  {
    hide SchedOk, ExitsOk, ReleasesOk, HeldOk, SpawnsOk, HandlesOk, FinishersOk, Sets.Inside;
    if FinisherAt(s, i, Recorded) {
      FinisherAtHand(s, i);
      FinisherStep(q, s, NextFinish(q, s, Pop(i)), i, Popped);
      HeldFinisherKept(s, i, Popped);
    }
  }

  lemma TakeKeepsInv(q: PS.QueuePolicy, s: State, i: nat)
    requires Inv(q, s)
    ensures Inv(q, NextFinish(q, s, Take(i)))
  {
    hide SchedOk, ExitsOk, ReleasesOk, HeldOk, SpawnsOk, HandlesOk, FinishersOk, Sets.Inside;
    if FinisherAt(s, i, Popped) && s.finishers[i].process in s.handles {
      var p, r := s.finishers[i].process, NextFinish(q, s, Take(i));
      FinisherAtHand(s, i);
      FinisherStep(q, s, r, i, Taken(s.handles[p].lease));
      HeldInside(s, OfProcess(p));
      HeldMoves(Sets.Inside(s.sched), s.sched.active.Keys, s.spawns, s.handles, s.finishers, r.spawns, r.handles,
          r.finishers, OfProcess(p), OfFinisher(i));
    }
  }

  lemma GiveKeepsInv(q: PS.QueuePolicy, s: State, i: nat)
    requires Inv(q, s)
    ensures Inv(q, NextFinish(q, s, Give(i)))
  {
    hide ExitsOk, HeldOk, SpawnsOk, HandlesOk, FinishersOk, PS.Inv, PS.Saturated, Runs.Next, Sets.Inside;
    if i < |s.finishers| && s.finishers[i].stage.Taken? {
      var r := NextFinish(q, s, Give(i));
      FinisherAtHand(s, i);
      var n := s.finishers[i].stage.lease.value;
      HeldInside(s, OfFinisher(i));
      Runs.NextKeepsInv(q, s.sched, Runs.Release(n));
      Sets.ReleaseInside(q, s.sched, n);
      Sets.InsideSeparate(q, s.sched);
      ActiveInside(s.sched);
      HeldLeaves(Sets.Inside(s.sched), s.sched.active.Keys, r.sched.active.Keys, n, s.spawns, s.handles, s.finishers,
          r.spawns, r.finishers, OfFinisher(i));
      FinisherStep(q, s, r, i, Done);
    }
  }

  // --------------------------------------------------------------- other steps

  lemma EmitKeepsInv(q: PS.QueuePolicy, s: State, d: Draft, now: int)
    requires Inv(q, s)
    ensures Inv(q, NextOther(q, s, Emit(d, now)))
  {
    hide SchedOk, ExitsOk, ReleasesOk, HeldOk, SpawnsOk, HandlesOk, FinishersOk, Append, Exits;
    if d.kind != EXITED {
      forall x ensures Exits(Append(s.table.log, d, now).history, x) == Exits(s.table.log.history, x) {
        AppendedExits(s.table.log, d, now, x);
      }
      SameExits(s.table.rows, s.table.log.history, Append(s.table.log, d, now).history, s.noted);
    }
  }

  lemma SameStatusExits(rows: map<string, Row>, history: seq<Event>, noted: set<string>, p: string, row: Row)
    requires ExitsOk(rows, history, noted) && p in rows && row.status == rows[p].status
    ensures ExitsOk(rows[p := row], history, noted)
  {
    hide Exits;
  }

  lemma SameStatusFinishers(rows: map<string, Row>, handles: map<string, Handle>, running: set<string>,
                            releases: seq<nat>, finishers: seq<Finisher>, p: string, row: Row)
    requires FinishersOk(rows, handles, running, releases, finishers) && p in rows && row.status == rows[p].status
    ensures FinishersOk(rows[p := row], handles, running, releases, finishers)
  {
    forall i | 0 <= i < |finishers| ensures FinisherOk(rows[p := row], handles, running, releases, finishers[i]) {
      assert FinisherOk(rows, handles, running, releases, finishers[i]);
    }
  }

  lemma SameStatusOthers(rows: map<string, Row>, callers: seq<PS.Request>, spawns: map<string, Spawn>,
                         handles: map<string, Handle>, running: set<string>, finishers: seq<Finisher>,
                         p: string, row: Row)
    requires SpawnsOk(rows, callers, spawns, handles) && HandlesOk(rows, handles, running, finishers)
    requires p in rows && row.status == rows[p].status && row.workspace == rows[p].workspace
    ensures SpawnsOk(rows[p := row], callers, spawns, handles) && HandlesOk(rows[p := row], handles, running, finishers)
  {
  }

  lemma BeatKeepsInv(q: PS.QueuePolicy, s: State, p: string, touch: Touch)
    requires Inv(q, s)
    ensures Inv(q, NextOther(q, s, Beat(p, touch)))
  {
    hide SchedOk, ExitsOk, ReleasesOk, HeldOk, SpawnsOk, HandlesOk, FinishersOk, Sets.Inside;
    if p in s.table.rows {
      var row := Touched(s.table.rows[p], touch);
      SameStatusExits(s.table.rows, s.table.log.history, s.noted, p, row);
      SameStatusFinishers(s.table.rows, s.handles, s.running, s.releases, s.finishers, p, row);
      SameStatusOthers(s.table.rows, s.sched.callers, s.spawns, s.handles, s.running, s.finishers, p, row);
    }
  }

  lemma CrashKeepsInv(q: PS.QueuePolicy, s: State)
    requires Inv(q, s)
    ensures Inv(q, NextOther(q, s, Crash))
  {
    hide ExitsOk, SchedOk, Sets.Inside;
    SchedStart(q, s.sched);
    NothingInside();
  }

  lemma SchedStart(q: PS.QueuePolicy, sched: PS.State)
    requires SchedOk(q, sched)
    ensures SchedOk(q, PS.EMPTY)
  {
    SchedEmpty(q);
  }

  lemma SchedEmpty(q: PS.QueuePolicy)
    requires q.Valid()
    ensures SchedOk(q, PS.EMPTY)
  {
    hide PS.Inv, PS.Saturated, Runs.Next;
    Runs.RunKeepsInv(q, []);
  }

  lemma NothingInside()
    ensures Sets.Inside(PS.EMPTY) == {} && PS.EMPTY.callers == []
  {
  }

  lemma RecoverKeepsInv(q: PS.QueuePolicy, s: State, p: string, e: Ending, logged: bool, now: int)
    requires Inv(q, s)
    ensures Inv(q, NextOther(q, s, Recover(p, e, logged, now)))
  {
    hide SchedOk, ExitsOk, ReleasesOk, HeldOk, HandlesOk, FinishersOk, Sets.Inside, Record;
    if p in s.table.rows && !s.table.rows[p].status.Terminal() && p !in s.spawns && p !in s.handles
        && e.status.Terminal() {
      var r := NextOther(q, s, Recover(p, e, logged, now));
      EndKeepsExits(s, p, e, logged, now);
      HandlesElsewhere(s.table.rows, s.handles, s.running, s.finishers, p, r.table.rows[p]);
      FinishersElsewhere(s.table.rows, r.table.rows, s.handles, s.running, s.releases, s.finishers, p);
    }
  }

  lemma AdoptKeepsInv(q: PS.QueuePolicy, s: State, p: string, key: Option<PS.ConcurrencyKey>)
    requires Inv(q, s)
    ensures Inv(q, NextOther(q, s, Adopt(p, key)))
  {
    hide ExitsOk, HeldOk, SpawnsOk, HandlesOk, FinishersOk, PS.Inv, PS.Saturated, Runs.Next, Sets.Inside;
    if p in s.table.rows && s.table.rows[p].status == Running && p !in s.spawns && p !in s.handles {
      var ws, n := s.table.rows[p].workspace, |s.sched.callers| + 1;
      var arrived := Runs.Next(q, s.sched, Runs.Acquire(ws, key, 100));
      Runs.NextKeepsInv(q, s.sched, Runs.Acquire(ws, key, 100));
      Sets.InsideSeparate(q, s.sched);
      Sets.AcquireInside(q, s.sched, ws, key, 100);
      var r := NextOther(q, s, Adopt(p, key));
      if n in arrived.active {
        HeldEnters(Sets.Inside(s.sched), s.sched.active.Keys, r.sched.active.Keys, n, s.spawns, s.handles, s.finishers,
            r.spawns, r.handles, OfProcess(p));
        NewHandleElsewhere(s.table.rows, s.handles, s.running, s.releases, s.finishers, p, r.handles[p]);
        AdoptedHandle(s.table.rows, s.sched.callers, r.sched.callers, s.spawns, s.handles, s.running, s.finishers, p,
                      n);
      } else {
        WaitingInside(arrived, n);
        Sets.ExpireInside(q, arrived, ws, n);
        Runs.NextKeepsInv(q, arrived, Runs.Expire(ws, n));
        HeldGrants(Sets.Inside(s.sched), s.sched.active.Keys, r.sched.active.Keys, s.spawns, s.handles, s.finishers);
        assert Sets.Inside(r.sched) == Sets.Inside(s.sched);
        LaterCallers(s.table.rows, s.sched.callers, r.sched.callers, s.spawns, s.handles);
      }
    }
  }

  lemma LaterCallers(rows: map<string, Row>, callers: seq<PS.Request>, callers2: seq<PS.Request>,
                     spawns: map<string, Spawn>, handles: map<string, Handle>)
    requires SpawnsOk(rows, callers, spawns, handles) && callers <= callers2
    ensures SpawnsOk(rows, callers2, spawns, handles)
  {
  }

  lemma AdoptedHandle(rows: map<string, Row>, callers: seq<PS.Request>, callers2: seq<PS.Request>,
                      spawns: map<string, Spawn>, handles: map<string, Handle>,
                      running: set<string>, finishers: seq<Finisher>, p: string, n: nat)
    requires SpawnsOk(rows, callers, spawns, handles) && callers <= callers2
             && HandlesOk(rows, handles, running, finishers)
    requires p in rows && rows[p].status == Running && p !in handles && p !in spawns
    requires forall i :: 0 <= i < |finishers| ==> finishers[i].process != p
    ensures SpawnsOk(rows, callers2, spawns, handles[p := Handle(false, Some(n), n)])
    ensures HandlesOk(rows, handles[p := Handle(false, Some(n), n)], running + {p}, finishers)
  {
  }

  lemma NextKeepsInv(q: PS.QueuePolicy, s: State, step: Step)
    requires Inv(q, s)
    ensures Inv(q, Next(q, s, step))
  {
    hide Inv, NextSpawn, NextFinish;
    match step
    case Insert(p, ws, tool) => InsertKeepsInv(q, s, p, ws, tool);
    case Refuse(p, e, logged, now) => RefuseKeepsInv(q, s, p, e, logged, now);
    case Arrive(p, key, priority) => ArriveKeepsInv(q, s, p, key, priority);
    case WakeUp => WakeUpKeepsInv(q, s);
    case Admit(p) => AdmitKeepsInv(q, s, p);
    case TimeOut(p) => TimeOutKeepsInv(q, s, p);
    case FailLaunch(p, e, logged, now) => FailLaunchKeepsInv(q, s, p, e, logged, now);
    case ReleaseFailed(p) => ReleaseFailedKeepsInv(q, s, p);
    case Launch(p, pid, logged, now) => LaunchKeepsInv(q, s, p, pid, logged, now);
    case Publish(p) => PublishKeepsInv(q, s, p);
    case Claim(p, e) => ClaimKeepsInv(q, s, p, e);
    case Write(i, logged, now) => WriteKeepsInv(q, s, i, logged, now);
    case Pop(i) => PopKeepsInv(q, s, i);
    case Take(i) => TakeKeepsInv(q, s, i);
    case Give(i) => GiveKeepsInv(q, s, i);
    case Emit(d, now) => EmitKeepsInv(q, s, d, now);
    case Clean(keep, cutoff) => CleanKeepsInv(q, s, keep, cutoff);
    case Beat(p, touch) => BeatKeepsInv(q, s, p, touch);
    case Crash => CrashKeepsInv(q, s);
    case Recover(p, e, logged, now) => RecoverKeepsInv(q, s, p, e, logged, now);
    case Adopt(p, key) => AdoptKeepsInv(q, s, p, key);
  }

  lemma CleanKeepsInv(q: PS.QueuePolicy, s: State, keep: nat, cutoff: int)
    requires Inv(q, s)
    ensures Inv(q, NextOther(q, s, Clean(keep, cutoff)))
  {
    hide SchedOk, ExitsOk, ReleasesOk, HeldOk, SpawnsOk, HandlesOk, FinishersOk, RaisedMarks, Retained;
  }

  lemma {:induction false} RunKeepsInv(q: PS.QueuePolicy, steps: seq<Step>)
    requires q.Valid()
    ensures Inv(q, Run(q, steps))
  {
    if steps == [] {
      StartInv(q);
    } else {
      hide Inv, Next;
      RunKeepsInv(q, steps[..|steps| - 1]);
      NextKeepsInv(q, Run(q, steps[..|steps| - 1]), steps[|steps| - 1]);
    }
  }

  lemma StartInv(q: PS.QueuePolicy)
    requires q.Valid()
    ensures Inv(q, START)
  {
    hide SchedOk, Sets.Inside;
    SchedEmpty(q);
    NothingInside();
  }

  // ------------------------------------------------------------------ theorems

  /**
   Exactly one end: in every run, over any interleaving of finishers, failed
   spawns, crashes and recoveries, a process whose row is terminal has exactly one
   terminal event, carrying the row's status, when its end went through the log,
   and none otherwise; a process that has not ended has none.
   */
  lemma ExactlyOneExit(q: PS.QueuePolicy, steps: seq<Step>, p: string)
    requires q.Valid()
    ensures var s := Run(q, steps);
            var exits := Exits(s.table.log.history, p);
            && (p in s.noted ==> p in s.table.rows && s.table.rows[p].status.Terminal()
                                 && |exits| == 1 && exits[0].payload.Exited?
                                     && exits[0].payload.status == s.table.rows[p].status)
            && (p !in s.noted ==> exits == [])
  {
    RunKeepsInv(q, steps);
  }

  /**
   Each process is claimed at most once per life of the service; a finisher that
   has recorded finds its own status in the row for good, and one that is done
   has given the process's lease back, once.
   */
  lemma OneClaimOneRelease(q: PS.QueuePolicy, steps: seq<Step>)
    requires q.Valid()
    ensures var s := Run(q, steps);
            && (forall i, j :: 0 <= i < j < |s.finishers| ==> s.finishers[i].process != s.finishers[j].process)
            && (forall i :: 0 <= i < |s.finishers| ==>
                  var f := s.finishers[i];
                  && f.process in s.handles && s.handles[f.process].finalized && f.process in s.table.rows
                  && (!f.stage.Claimed? ==> s.table.rows[f.process].status == f.ending.status)
                  && (f.stage.Done? ==> s.handles[f.process].number in s.releases && f.process !in s.running))
            && (forall i, j :: 0 <= i < j < |s.releases| ==> s.releases[i] != s.releases[j])
            && (forall n :: n in s.releases ==> n !in s.sched.active)
  {
    RunKeepsInv(q, steps);
    var s := Run(q, steps);
    hide SchedOk, HeldOk, SpawnsOk, HandlesOk, ExitsOk;
    ActiveInside(s.sched);
    forall i | 0 <= i < |s.finishers|
        ensures FinisherOk(s.table.rows, s.handles, s.running, s.releases, s.finishers[i]) {
    }
  }

  /** Nobody is in the middle of starting or ending a process. */
  ghost predicate Quiescent(s: State) {
    s.spawns == map[] && forall i :: 0 <= i < |s.finishers| ==> s.finishers[i].stage.Done?
  }

  /**
   With no spawn or finisher in flight, the active leases are in one-to-one
   correspondence with the running table, whose rows are all running; nobody is
   queued, and every process that was claimed has left the table.
   */
  lemma LeasesAreTheLiveProcesses(q: PS.QueuePolicy, steps: seq<Step>)
    requires q.Valid()
    ensures var s := Run(q, steps);
            Quiescent(s) ==>
              && s.sched.active.Keys == (set p | p in s.running && p in s.handles :: s.handles[p].number)
              && s.running <= s.handles.Keys
              && (forall p :: p in s.handles ==> (p in s.running <==> !s.handles[p].finalized))
              && (forall p, r :: p in s.running && r in s.running && p != r ==>
                  s.handles[p].number != s.handles[r].number)
              && (forall p :: p in s.running ==> p in s.table.rows && s.table.rows[p].status == Running)
              && Runs.Waiting(s.sched.queues) == {}
  {
    RunKeepsInv(q, steps);
    var s := Run(q, steps);
    if Quiescent(s) {
      hide ExitsOk, ReleasesOk, Sets.Inside;
      Sets.InsideSeparate(q, s.sched);
      InsideParts(s.sched);
      hide SchedOk;
      QuietHandles(s.table.rows, s.handles, s.running, s.releases, s.finishers);
      hide HandlesOk, FinishersOk;
      QuietLeases(Sets.Inside(s.sched), s.sched.active.Keys, s.spawns, s.handles, s.running, s.finishers);
    }
  }

  lemma InsideParts(sched: PS.State)
    ensures Sets.Inside(sched) == Runs.Waiting(sched.queues) + sched.active.Keys
  {
    hide Runs.Waiting;
  }

  lemma QuietHandles(rows: map<string, Row>, handles: map<string, Handle>, running: set<string>, releases: seq<nat>,
                     finishers: seq<Finisher>)
    requires HandlesOk(rows, handles, running, finishers) && FinishersOk(rows, handles, running, releases, finishers)
    requires forall i :: 0 <= i < |finishers| ==> finishers[i].stage.Done?
    ensures running <= handles.Keys
    ensures forall p :: p in handles ==> (p in running <==> !handles[p].finalized)
    ensures forall p :: p in handles ==>
            handles[p].lease == if handles[p].finalized then None else Some(handles[p].number)
    ensures forall p :: p in running ==> p in rows && rows[p].status == Running
  {
    forall p | p in handles && handles[p].finalized ensures p !in running && handles[p].lease == None {
      var i :| 0 <= i < |finishers| && finishers[i].process == p;
      assert FinisherOk(rows, handles, running, releases, finishers[i]);
    }
  }

  lemma QuietLeases(inside: set<nat>, active: set<nat>, spawns: map<string, Spawn>, handles: map<string, Handle>,
                    running: set<string>, finishers: seq<Finisher>)
    requires HeldOk(inside, active, spawns, handles, finishers) && active <= inside
    requires spawns == map[] && forall i :: 0 <= i < |finishers| ==> finishers[i].stage.Done?
    requires running <= handles.Keys && forall p :: p in handles ==> (p in running <==> !handles[p].finalized)
    requires forall p :: p in handles ==>
             handles[p].lease == if handles[p].finalized then None else Some(handles[p].number)
    ensures inside == active == (set p | p in running && p in handles :: handles[p].number)
    ensures forall p, r :: p in running && r in running && p != r ==> handles[p].number != handles[r].number
  {
    forall p | p in running ensures LeaseOf(spawns, handles, finishers, OfProcess(p)) == Some(handles[p].number) {
    }
    forall n | n in inside ensures n in active && exists p :: p in running && p in handles && handles[p].number == n {
      var h :| LeaseOf(spawns, handles, finishers, h) == Some(n);
      assert h.OfProcess? && h.p in running;
    }
    forall p, r | p in running && r in running && p != r ensures handles[p].number != handles[r].number {
      assert OfProcess(p) != OfProcess(r);
    }
  }

  // ------------------------------------------------------- what a step may write

  /** The process that a step ends in this state, how, whether through the log, and when. */
  datatype Ended = Ended(p: string, ending: Ending, logged: bool, now: int)

  function EndOf(s: State, step: Step): Option<Ended> {
    match step
    case Refuse(p, e, logged, now) =>
      if (At(s, p, Inserted) || At(s, p, GaveUp)) && e.status.Terminal() then Some(Ended(p, e, logged, now)) else None
    case FailLaunch(p, e, logged, now) =>
      if p in s.spawns && s.spawns[p].stage.Leased? && e.status.Terminal() then Some(Ended(p, e, logged, now)) else None
    case Write(i, logged, now) =>
      if i < |s.finishers| && s.finishers[i].stage == Claimed
      then Some(Ended(s.finishers[i].process, s.finishers[i].ending, logged, now)) else None
    case Recover(p, e, logged, now) =>
      if p in s.table.rows && p !in s.spawns && p !in s.handles && !s.table.rows[p].status.Terminal()
         && e.status.Terminal()
      then Some(Ended(p, e, logged, now)) else None
    case _ => None
  }

  predicate Launches(s: State, step: Step) {
    step.Launch? && step.p in s.spawns && s.spawns[step.p].stage.Leased?
  }

  /** The step writes the runtime columns of a process. */
  predicate Touches(s: State, step: Step) {
    && step.Beat? && step.p in s.table.rows
    && (step.p in s.handles || (step.p in s.spawns && s.spawns[step.p].stage.Launched?))
  }

  /** Rows and log after a step. */
  function TableAfter(s: State, step: Step): Table {
    var t, end := s.table, EndOf(s, step);
    if end.Some? then Record(t, end.value.p, end.value.ending, end.value.logged, end.value.now)
    else if Launches(s, step) && step.p in t.rows then
      if step.logged then Start(t, step.p, step.pid, t.rows[step.p].tool, false, step.now)
      else StartUnlogged(t, step.p, step.pid)
    else if Touches(s, step) then t.(rows := t.rows[step.p := Touched(t.rows[step.p], step.touch)])
    else if step.Insert? && step.p !in t.rows then
      t.(rows := t.rows[step.p := Row(step.ws, step.tool, Queued, None, None, None, None, None, None)])
    else if step.Emit? && step.draft.kind != EXITED then t.(log := Append(t.log, step.draft, step.now))
    else if step.Clean? then t.(log := Cleanup(t.log, step.keep, step.cutoff))
    else t
  }

  lemma NextTable(q: PS.QueuePolicy, s: State, step: Step)
    ensures Next(q, s, step).table == TableAfter(s, step)
  {
    hide NextSpawn, NextFinish, NextOther, TableAfter;
    if step.Claim? || step.Write? || step.Pop? || step.Take? || step.Give? {
      FinishTable(q, s, step);
    } else if step.Emit? || step.Clean? || step.Beat? || step.Crash? || step.Recover? || step.Adopt? {
      OtherTable(q, s, step);
    } else {
      SpawnTable(q, s, step);
    }
  }

  lemma FinishTable(q: PS.QueuePolicy, s: State, step: Step)
    requires step.Claim? || step.Write? || step.Pop? || step.Take? || step.Give?
    ensures NextFinish(q, s, step).table == TableAfter(s, step)
  {
    hide Runs.Next, Record;
  }

  lemma OtherTable(q: PS.QueuePolicy, s: State, step: Step)
    requires step.Emit? || step.Clean? || step.Beat? || step.Crash? || step.Recover? || step.Adopt?
    ensures NextOther(q, s, step).table == TableAfter(s, step)
  {
    hide Runs.Next, Record, Append, Cleanup, Touched;
  }

  lemma SpawnTable(q: PS.QueuePolicy, s: State, step: Step)
    requires step.Insert? || step.Refuse? || step.Arrive? || step.WakeUp? || step.Admit? || step.TimeOut?
             || step.FailLaunch? || step.ReleaseFailed? || step.Launch? || step.Publish?
    ensures NextSpawn(q, s, step).table == TableAfter(s, step)
  {
    hide Runs.Next, Record, Start, StartUnlogged;
  }

  /** Whoever is ended has a row that is not terminal, and is ended with a terminal status. */
  lemma EndsTheLiving(q: PS.QueuePolicy, s: State, step: Step)
    requires Inv(q, s)
    ensures ForTheLiving(s, step)
  {
    hide SchedOk, HeldOk, ExitsOk, ReleasesOk, SpawnsOk, HandlesOk, FinishersOk;
    if (step.Refuse? || step.FailLaunch? || step.Launch? || step.Beat?) && step.p in s.spawns {
      SpawnRow(s.table.rows, s.sched.callers, s.spawns, s.handles, step.p);
    } else if step.Write? && FinisherAt(s, step.i, Claimed) {
      FinisherAtHand(s, step.i);
    }
  }

  /** Every way in which one step may treat the row of a process. */
  ghost predicate RowTreated(s: State, step: Step, rows: map<string, Row>, p: string) {
    p in rows
    && if p !in s.table.rows then
         step.Insert? && step.p == p
         && rows[p] == Row(step.ws, step.tool, Queued, None, None, None, None, None, None)
       else
         var was, end := s.table.rows[p], EndOf(s, step);
         if end.Some? && end.value.p == p then
           !was.status.Terminal() && end.value.ending.status.Terminal() && EndsAs(was, rows[p], end.value.ending)
         else if Launches(s, step) && step.p == p then
           was.status == Queued && rows[p] == was.(status := Running, pid := Some(step.pid))
         else if Touches(s, step) && step.p == p then
           && (p in s.handles || was.status == Running)
           && rows[p].recovery == Some(step.touch.note) && rows[p].heartbeat == Some(step.touch.at)
           && rows[p].outputOffset == (if step.touch.offset == None then was.outputOffset else step.touch.offset)
           && SameButRuntime(was, rows[p])
         else rows[p] == was
  }

  lemma TreatRow(q: PS.QueuePolicy, s: State, step: Step, p: string)
    requires Inv(q, s) && p in s.table.rows.Keys + Next(q, s, step).table.rows.Keys
    ensures RowTreated(s, step, Next(q, s, step).table.rows, p)
  {
    hide Inv, Next, EndOf, Launches, Touches, TableAfter, RowTreated;
    NextTable(q, s, step);
    EndsTheLiving(q, s, step);
    TableTreatsRow(s, step, p);
  }

  /** What the invariant says of a step that writes a row. */
  ghost predicate ForTheLiving(s: State, step: Step) {
    var end, rows := EndOf(s, step), s.table.rows;
    && (end.Some? ==> end.value.p in rows && !rows[end.value.p].status.Terminal() && end.value.ending.status.Terminal())
    && (Launches(s, step) ==> step.p in rows && rows[step.p].status == Queued)
    && (Touches(s, step) && step.p !in s.handles ==> step.p in rows && rows[step.p].status == Running)
  }

  lemma TableTreatsRow(s: State, step: Step, p: string)
    requires ForTheLiving(s, step) && p in s.table.rows.Keys + TableAfter(s, step).rows.Keys
    ensures RowTreated(s, step, TableAfter(s, step).rows, p)
  {
    hide EndOf, Launches, Touches, Record, Start, EndsAs, Cleanup, Append;
    LaunchesOnly(s, step);
    var t, end := s.table, EndOf(s, step);
    if end.Some? {
      RecordTells(t, end.value.p, end.value.ending, end.value.logged, end.value.now);
    } else if Launches(s, step) {
      StartTells(t, step.p, step.pid, t.rows[step.p].tool, false, step.now);
    }
  }

  /** A step does one of these things only. */
  lemma LaunchesOnly(s: State, step: Step)
    ensures Launches(s, step) ==> step.Launch? && !Touches(s, step) && EndOf(s, step) == None
    ensures Touches(s, step) ==> step.Beat? && step.p in s.table.rows && EndOf(s, step) == None
    ensures EndOf(s, step).Some? ==> !step.Insert? && !step.Emit? && !step.Clean?
  {
  }

  /**
   The status machine of process rows, over every reachable state: a row begins queued
   with what its caller gave, turns running with its pid at a launch, and ends, once,
   exactly as the finisher, failed spawn or recovery says; a runtime write sets the
   three runtime columns; nothing else touches a row.
   */
  lemma RowsAreTreatedSo(q: PS.QueuePolicy, steps: seq<Step>, step: Step, p: string)
    requires q.Valid() && p in Run(q, steps).table.rows.Keys + Run(q, steps + [step]).table.rows.Keys
    ensures RowTreated(Run(q, steps), step, Run(q, steps + [step]).table.rows, p)
  {
    hide Inv, Next, RowTreated;
    RunKeepsInv(q, steps);
    RunStep(q, steps, step);
    TreatRow(q, Run(q, steps), step, p);
  }

  /** What the log gained: nothing, or one event. */
  ghost predicate LogTreated(s: State, step: Step, after: seq<Event>) {
    var before, end, rows := s.table.log.history, EndOf(s, step), s.table.rows;
    var ends := end.Some? && end.value.logged;
    var launches := Launches(s, step) && step.logged;
    var emits := step.Emit? && step.draft.kind != "process.exited";
    && (!ends && !launches && !emits ==> after == before)
    && (ends || launches || emits ==> |after| == |before| + 1 && after[..|before|] == before)
    && (ends ==>
          && end.value.p in rows
          && TellsEnd(after[|before|], rows[end.value.p].workspace, end.value.p, end.value.ending, end.value.now))
    && (launches ==>
          && step.p in rows
          && var x := after[|before|];
             && x.kind == "tool.started" && x.process == Some(step.p) && x.workspace == rows[step.p].workspace
             && x.createdAt == step.now && x.payload == Started(rows[step.p].tool, step.pid, false))
    && (emits ==>
          var x := after[|before|];
          && x.kind == step.draft.kind && x.process == step.draft.process && x.workspace == step.draft.workspace
          && x.createdAt == step.now && x.payload == step.draft.payload)
  }

  lemma TreatLog(q: PS.QueuePolicy, s: State, step: Step)
    requires Inv(q, s)
    ensures LogTreated(s, step, Next(q, s, step).table.log.history)
  {
    hide Inv, Next, EndOf, Launches, Touches, TableAfter, LogTreated;
    NextTable(q, s, step);
    EndsTheLiving(q, s, step);
    TableTreatsLog(s, step);
  }

  lemma TableTreatsLog(s: State, step: Step)
    requires ForTheLiving(s, step)
    ensures LogTreated(s, step, TableAfter(s, step).log.history)
  {
    hide EndOf, Launches, Touches, Record, Start, TellsEnd, RaisedMarks, Retained;
    LaunchesOnly(s, step);
    var t, end := s.table, EndOf(s, step);
    if end.Some? {
      RecordTells(t, end.value.p, end.value.ending, end.value.logged, end.value.now);
    } else if Launches(s, step) {
      StartTells(t, step.p, step.pid, t.rows[step.p].tool, false, step.now);
    }
  }

  /**
   What the log learns, over every reachable state: an end that goes through it leaves
   one terminal event that says how, a launch one event with tool and pid, and nothing
   else appends on its own.
   */
  lemma LogIsTreatedSo(q: PS.QueuePolicy, steps: seq<Step>, step: Step)
    requires q.Valid()
    ensures LogTreated(Run(q, steps), step, Run(q, steps + [step]).table.log.history)
  {
    hide Inv, Next, LogTreated;
    RunKeepsInv(q, steps);
    RunStep(q, steps, step);
    TreatLog(q, Run(q, steps), step);
  }

  /** What a step asks of the scheduler: the spawned or adopted process's workspace, with the given key and priority. */
  function AskOf(s: State, step: Step): seq<PS.Request> {
    match step
    case Arrive(p, key, priority) =>
      if At(s, p, Inserted) then [PS.Request(s.spawns[p].workspace, key, priority)] else []
    case Adopt(p, key) =>
      if p in s.table.rows && s.table.rows[p].status == Running && p !in s.spawns && p !in s.handles
      then [PS.Request(s.table.rows[p].workspace, key, 100)] else []
    case _ => []
  }

  /**
   The scheduler is asked for exactly what a spawning caller or an adoption wants, with
   its key and priority, in the workspace of its row; no other step asks for anything.
   */
  lemma AsksAreTreatedSo(q: PS.QueuePolicy, steps: seq<Step>, step: Step)
    requires q.Valid() && step != Crash
    ensures var s, r := Run(q, steps), Run(q, steps + [step]);
            && r.sched.callers == s.sched.callers + AskOf(s, step)
            && (step.Arrive? && At(s, step.p, Inserted) ==>
                  && step.p in s.table.rows && s.table.rows[step.p].workspace == s.spawns[step.p].workspace
                  && At(r, step.p, Waiting(|r.sched.callers|)))
  {
    hide Inv, Next;
    RunKeepsInv(q, steps);
    RunStep(q, steps, step);
    NextAsks(q, Run(q, steps), step);
  }

  lemma NextAsks(q: PS.QueuePolicy, s: State, step: Step)
    requires Inv(q, s) && step != Crash
    ensures var r := Next(q, s, step);
            && r.sched.callers == s.sched.callers + AskOf(s, step)
            && (step.Arrive? && At(s, step.p, Inserted) ==>
                  && step.p in s.table.rows && s.table.rows[step.p].workspace == s.spawns[step.p].workspace
                  && At(r, step.p, Waiting(|r.sched.callers|)))
  {
    hide SchedOk, HeldOk, ExitsOk, ReleasesOk, SpawnsOk, HandlesOk, FinishersOk;
    hide NextSpawn, NextFinish, NextOther, AskOf;
    if step.Claim? || step.Write? || step.Pop? || step.Take? || step.Give? {
      FinishAsks(q, s, step);
    } else if step.Emit? || step.Clean? || step.Beat? || step.Recover? || step.Adopt? {
      OtherAsks(q, s, step);
    } else {
      SpawnAsks(q, s, step);
      if step.Arrive? && step.p in s.spawns {
        SpawnRow(s.table.rows, s.sched.callers, s.spawns, s.handles, step.p);
      }
    }
  }

  lemma FinishAsks(q: PS.QueuePolicy, s: State, step: Step)
    requires step.Claim? || step.Write? || step.Pop? || step.Take? || step.Give?
    ensures NextFinish(q, s, step).sched.callers == s.sched.callers + AskOf(s, step)
  {
    hide Runs.Next, Record;
    if step.Give? && step.i < |s.finishers| && s.finishers[step.i].stage.Taken?
        && s.finishers[step.i].stage.lease.Some? {
      Admission.NextCallers(q, s.sched, Runs.Release(s.finishers[step.i].stage.lease.value));
    }
  }

  lemma OtherAsks(q: PS.QueuePolicy, s: State, step: Step)
    requires step.Emit? || step.Clean? || step.Beat? || step.Recover? || step.Adopt?
    ensures NextOther(q, s, step).sched.callers == s.sched.callers + AskOf(s, step)
  {
    hide Runs.Next, Record, Append, Cleanup;
    if step.Adopt? && step.p in s.table.rows {
      var ws, n := s.table.rows[step.p].workspace, |s.sched.callers| + 1;
      Admission.NextCallers(q, s.sched, Runs.Acquire(ws, step.key, 100));
      Admission.NextCallers(q, Runs.Next(q, s.sched, Runs.Acquire(ws, step.key, 100)), Runs.Expire(ws, n));
    }
  }

  lemma SpawnAsks(q: PS.QueuePolicy, s: State, step: Step)
    requires step.Insert? || step.Refuse? || step.Arrive? || step.WakeUp? || step.Admit? || step.TimeOut?
             || step.FailLaunch? || step.ReleaseFailed? || step.Launch? || step.Publish?
    ensures var r := NextSpawn(q, s, step);
            && r.sched.callers == s.sched.callers + AskOf(s, step)
            && (step.Arrive? && At(s, step.p, Inserted) ==> At(r, step.p, Waiting(|r.sched.callers|)))
  {
    hide Runs.Next, Record, Start, StartUnlogged;
    match step
    case Arrive(p, key, priority) =>
      if p in s.spawns { Admission.NextCallers(q, s.sched, Runs.Acquire(s.spawns[p].workspace, key, priority)); }
    case WakeUp => Admission.NextCallers(q, s.sched, Runs.Wake);
    case TimeOut(p) =>
      if p in s.spawns && s.spawns[p].stage.Waiting? {
        Admission.NextCallers(q, s.sched, Runs.Expire(s.spawns[p].workspace, s.spawns[p].stage.number));
      }
    case ReleaseFailed(p) =>
      if p in s.spawns && s.spawns[p].stage.Doomed? {
        Admission.NextCallers(q, s.sched, Runs.Release(s.spawns[p].stage.number));
      }
    case _ =>
  }

  /** Rows stay, and of those that are terminal nothing changes but the runtime columns, and those only by a beat. */
  ghost predicate RowsKept(before: map<string, Row>, after: map<string, Row>, step: Step,
                           handles: map<string, Handle>) {
    forall p :: p in before ==>
      && p in after
      && (before[p].status.Terminal() ==>
            after[p] == if step.Beat? && step.p == p && p in handles then Touched(before[p], step.touch) else before[p])
  }

  lemma NextKeepsRows(q: PS.QueuePolicy, s: State, step: Step)
    requires Inv(q, s)
    ensures RowsKept(s.table.rows, Next(q, s, step).table.rows, step, s.handles)
  {
    hide Inv, Next, EndOf, Launches;
    forall p | p in s.table.rows ensures RowTreated(s, step, Next(q, s, step).table.rows, p) {
      TreatRow(q, s, step, p);
    }
  }

  /** The two rows differ at most in the runtime columns. */
  predicate SameButRuntime(a: Row, b: Row) {
    b == a.(recovery := b.recovery, heartbeat := b.heartbeat, outputOffset := b.outputOffset)
  }

  /**
   A terminal row keeps its status, exit code and every other column but the runtime
   ones whatever happens next, and no row disappears.  A step changes a terminal row
   exactly if it is a write of the runtime columns of that process, by a thread that
   still holds its handle, with other values.
   */
  lemma TerminalIsFinal(q: PS.QueuePolicy, steps: seq<Step>, step: Step, p: string)
    requires q.Valid()
    ensures var s, r := Run(q, steps), Run(q, steps + [step]);
            p in s.table.rows ==>
              && p in r.table.rows
              && (s.table.rows[p].status.Terminal() ==>
                    && SameButRuntime(s.table.rows[p], r.table.rows[p])
                    && (r.table.rows[p] != s.table.rows[p] <==>
                        step.Beat? && step.p == p && p in s.handles
                        && Touched(s.table.rows[p], step.touch) != s.table.rows[p]))
  {
    hide Inv, Next;
    RunKeepsInv(q, steps);
    assert (steps + [step])[..|steps|] == steps;
    NextKeepsRows(q, Run(q, steps), step);
  }

  /** A terminal row after more steps: written by each beat of a holder of its handle, and by nothing else. */
  ghost function RowAfter(q: PS.QueuePolicy, steps: seq<Step>, more: seq<Step>, p: string, row: Row): Row {
    if more == [] then row
    else
      var front, last := more[..|more| - 1], more[|more| - 1];
      var before := RowAfter(q, steps, front, p, row);
      if last.Beat? && last.p == p && p in Run(q, steps + front).handles then Touched(before, last.touch) else before
  }

  /** Exactly what a terminal row is after any further steps. */
  lemma {:induction false} TerminalRowAfter(q: PS.QueuePolicy, steps: seq<Step>, more: seq<Step>, p: string)
    requires q.Valid()
    requires p in Run(q, steps).table.rows && Run(q, steps).table.rows[p].status.Terminal()
    ensures var row, after := Run(q, steps).table.rows[p], Run(q, steps + more).table.rows;
            p in after && after[p] == RowAfter(q, steps, more, p, row) && SameButRuntime(row, after[p])
  {
    hide Next, Inv;
    if more == [] {
      assert steps + more == steps;
    } else {
      var front, last := more[..|more| - 1], more[|more| - 1];
      TerminalRowAfter(q, steps, front, p);
      assert (steps + more)[..|steps + more| - 1] == steps + front;
      RunKeepsInv(q, steps + front);
      NextKeepsRows(q, Run(q, steps + front), last);
    }
  }

  lemma RunStep(q: PS.QueuePolicy, steps: seq<Step>, step: Step)
    ensures Run(q, steps + [step]) == Next(q, Run(q, steps), step)
  {
    assert (steps + [step])[..|steps|] == steps;
  }

  /** With nobody else about, the first caller is admitted at once. */
  lemma FirstArrivalAdmitted(q: PS.QueuePolicy, ws: string)
    requires q.Valid()
    ensures 1 in Runs.Next(q, PS.EMPTY, Runs.Acquire(ws, Idle.WriteKey(ws), 100)).active
  {
    SchedEmpty(q);
    hide PS.Inv, PS.GrantAll, PS.GiveUp, PS.Enqueue;
    Idle.AdmissionWhenIdle(q, PS.EMPTY, ws);
  }

  const HEARTBEAT: Touch := Touch("monitoring", 2, Some(0))

  const CANCELLED: Ending := Ending(Cancelled, None, Some("cancelled_by_caller"), None)

  /** A process up to its publication, and up to the moment a cancel has written its row. */
  function UntilPublished(p: string, ws: string): seq<Step> {
    [] + [Insert(p, ws, "run_pwsh")] + [Arrive(p, Idle.WriteKey(ws), 100)] + [Admit(p)] + [Launch(p, 1, false, 0)]
        + [Publish(p)]
  }

  function UntilCancelled(p: string, ws: string): seq<Step> {
    UntilPublished(p, ws) + [Claim(p, CANCELLED)] + [Write(0, true, 0)]
  }

  /** Only this process, at a stage of its spawning. */
  ghost predicate Spawning(s: State, p: string, ws: string, stage: SpawnStage, row: Row) {
    && s.spawns == map[p := Spawn(ws, stage)] && s.handles == map[] && s.finishers == []
    && s.table.rows == map[p := row]
  }

  function FirstRow(ws: string, status: Status): Row {
    Row(ws, "run_pwsh", status, if status == Queued then None else Some(1), None, None, None, None, None)
  }

  lemma InsertingStep(q: PS.QueuePolicy, p: string, ws: string)
    ensures var r := Next(q, START, Insert(p, ws, "run_pwsh"));
            Spawning(r, p, ws, Inserted, FirstRow(ws, Queued)) && r.sched == PS.EMPTY
  {
    hide Runs.Next, NextFinish, NextOther;
  }

  lemma AdmittingStep(q: PS.QueuePolicy, s: State, p: string, ws: string)
    requires Spawning(s, p, ws, Waiting(1), FirstRow(ws, Queued)) && 1 in s.sched.active
    ensures Spawning(Next(q, s, Admit(p)), p, ws, Leased(1), FirstRow(ws, Queued))
  {
    hide Runs.Next, NextFinish, NextOther;
  }

  lemma LaunchingStep(q: PS.QueuePolicy, s: State, p: string, ws: string)
    requires Spawning(s, p, ws, Leased(1), FirstRow(ws, Queued))
    ensures Spawning(Next(q, s, Launch(p, 1, false, 0)), p, ws, Launched(1), FirstRow(ws, Running))
  {
    hide Runs.Next, NextFinish, NextOther;
  }

  lemma ArrivingStep(q: PS.QueuePolicy, s: State, p: string, ws: string)
    requires q.Valid() && Spawning(s, p, ws, Inserted, FirstRow(ws, Queued)) && s.sched == PS.EMPTY
    ensures var r := Next(q, s, Arrive(p, Idle.WriteKey(ws), 100));
            Spawning(r, p, ws, Waiting(1), FirstRow(ws, Queued)) && 1 in r.sched.active
  {
    hide Runs.Next, NextFinish, NextOther;
    FirstArrivalAdmitted(q, ws);
  }

  lemma PublishingStep(q: PS.QueuePolicy, s: State, p: string, ws: string)
    requires Spawning(s, p, ws, Launched(1), FirstRow(ws, Running))
    ensures var r := Next(q, s, Publish(p));
            r.handles == map[p := Handle(false, Some(1), 1)] && r.finishers == []
                && r.table.rows == map[p := FirstRow(ws, Running)]
  {
    hide Runs.Next, NextFinish, NextOther;
  }

  lemma PublishedRun(q: PS.QueuePolicy, p: string, ws: string)
    requires q.Valid()
    ensures var s := Run(q, UntilPublished(p, ws));
            s.handles == map[p := Handle(false, Some(1), 1)] && s.finishers == []
                && s.table.rows == map[p := FirstRow(ws, Running)]
  {
    hide Next, Spawning, FirstRow, Idle.WriteKey;
    var u1: seq<Step> := [] + [Insert(p, ws, "run_pwsh")];
    var u2 := u1 + [Arrive(p, Idle.WriteKey(ws), 100)];
    var u3 := u2 + [Admit(p)];
    var u4 := u3 + [Launch(p, 1, false, 0)];
    RunStep(q, [], Insert(p, ws, "run_pwsh"));
    RunStep(q, u1, Arrive(p, Idle.WriteKey(ws), 100));
    RunStep(q, u2, Admit(p));
    RunStep(q, u3, Launch(p, 1, false, 0));
    RunStep(q, u4, Publish(p));
    InsertingStep(q, p, ws);
    ArrivingStep(q, Run(q, u1), p, ws);
    AdmittingStep(q, Run(q, u2), p, ws);
    LaunchingStep(q, Run(q, u3), p, ws);
    PublishingStep(q, Run(q, u4), p, ws);
  }

  lemma CancellingSteps(q: PS.QueuePolicy, s: State, p: string, row: Row)
    ensures p in s.handles && !s.handles[p].finalized && s.finishers == [] ==>
              var r := Next(q, s, Claim(p, CANCELLED));
              r.table == s.table && r.handles.Keys == s.handles.Keys && r.finishers == [Finisher(p, CANCELLED, Claimed)]
    ensures s.finishers == [Finisher(p, CANCELLED, Claimed)] && s.table.rows == map[p := row]
            && !row.status.Terminal() ==>
              var r := Next(q, s, Write(0, true, 0));
              r.handles == s.handles && r.table.rows == map[p := row.(status := Cancelled)]
    ensures p in s.handles && s.table.rows == map[p := row] ==>
              Next(q, s, Beat(p, HEARTBEAT)).table.rows == map[p := Touched(row, HEARTBEAT)]
  {
    hide Runs.Next, NextSpawn, Append;
  }

  /**
   The watchdog was between its look at the child and its heartbeat: it overwrites
   the runtime columns of a cancelled process.
   */
  lemma HeartbeatAfterTheEnd(q: PS.QueuePolicy, p: string, ws: string)
    requires q.Valid()
    ensures var s, r := Run(q, UntilCancelled(p, ws)), Run(q, UntilCancelled(p, ws) + [Beat(p, HEARTBEAT)]);
            && p in s.table.rows && s.table.rows[p].status == Cancelled && s.table.rows[p].recovery == None
            && p in r.table.rows && r.table.rows[p] == Touched(s.table.rows[p], HEARTBEAT)
  {
    hide Next;
    PublishedRun(q, p, ws);
    var u := UntilPublished(p, ws);
    RunStep(q, u, Claim(p, CANCELLED));
    RunStep(q, u + [Claim(p, CANCELLED)], Write(0, true, 0));
    RunStep(q, UntilCancelled(p, ws), Beat(p, HEARTBEAT));
    hide Run, UntilPublished;
    var row := FirstRow(ws, Running);
    CancellingSteps(q, Run(q, u), p, row);
    CancellingSteps(q, Run(q, u + [Claim(p, CANCELLED)]), p, row);
    CancellingSteps(q, Run(q, UntilCancelled(p, ws)), p, row.(status := Cancelled));
  }

  // -------------------------------------------------- when the log never refuses

  /** If this step ends a process, the event store takes it. */
  predicate Logs(step: Step) {
    match step
    case Refuse(_, _, logged, _) => logged
    case FailLaunch(_, _, logged, _) => logged
    case Write(_, logged, _) => logged
    case Recover(_, _, logged, _) => logged
    case _ => true
  }

  ghost predicate EndsNoted(s: State) {
    forall p :: p in s.table.rows && s.table.rows[p].status.Terminal() ==> p in s.noted
  }

  lemma NextKeepsNoted(q: PS.QueuePolicy, s: State, step: Step)
    requires EndsNoted(s) && Logs(step)
    ensures EndsNoted(Next(q, s, step))
  {
    hide Runs.Next, Append, Cleanup;
  }

  lemma {:induction false} RunKeepsNoted(q: PS.QueuePolicy, steps: seq<Step>)
    requires forall i :: 0 <= i < |steps| ==> Logs(steps[i])
    ensures EndsNoted(Run(q, steps))
  {
    hide Next, EndsNoted, Logs;
    if steps == [] {
      NoneEnded();
    } else {
      RunKeepsNoted(q, steps[..|steps| - 1]);
      NextKeepsNoted(q, Run(q, steps[..|steps| - 1]), steps[|steps| - 1]);
    }
  }

  lemma NoneEnded()
    ensures EndsNoted(START)
  {
  }

  /**
   In a run in which the event store never refuses an end, a process has ended
   exactly if it has one terminal event.
   */
  lemma EndedMeansOneExit(q: PS.QueuePolicy, steps: seq<Step>, p: string)
    requires q.Valid() && forall i :: 0 <= i < |steps| ==> Logs(steps[i])
    ensures var s := Run(q, steps);
            (p in s.table.rows && s.table.rows[p].status.Terminal()) <==> |Exits(s.table.log.history, p)| == 1
  {
    hide Run, Exits, Logs;
    RunKeepsNoted(q, steps);
    ExactlyOneExit(q, steps, p);
  }

  // ------------------------------------------------------------ finishers get done

  /** The steps of finisher i, one after the other; those behind it already do nothing. */
  ghost function RunOut(q: PS.QueuePolicy, s: State, i: nat, logged: bool, now: int): State {
    Next(q, Next(q, Next(q, Next(q, s, Write(i, logged, now)), Pop(i)), Take(i)), Give(i))
  }

  /** The stage a finisher has reached after its own next step. */
  lemma StageAfter(q: PS.QueuePolicy, s: State, i: nat, step: Step)
    requires i < |s.finishers| && (s.finishers[i].process in s.handles)
    requires (step.Write? && step.i == i) || step == Pop(i) || step == Take(i) || step == Give(i)
    ensures var r := Next(q, s, step);
            && |r.finishers| == |s.finishers| && r.handles.Keys == s.handles.Keys
            && r.finishers[i].process == s.finishers[i].process
            && (match s.finishers[i].stage
                case Claimed => r.finishers[i].stage == if step.Write? then Recorded else Claimed
                case Recorded => r.finishers[i].stage == if step.Pop? then Popped else Recorded
                case Popped => if step.Take? then r.finishers[i].stage.Taken? else r.finishers[i].stage.Popped?
                case Taken(_) => if step.Give? then r.finishers[i].stage.Done? else r.finishers[i].stage.Taken?
                case Done => r.finishers[i].stage.Done?)
  {
    hide Runs.Next, Record;
  }

  /**
   No finisher is ever stuck: from any reachable state and any stage it has
   reached, its own remaining steps complete it, with nobody else's help.
   */
  lemma FinisherCompletes(q: PS.QueuePolicy, steps: seq<Step>, i: nat, logged: bool, now: int)
    requires q.Valid()
    ensures var s := Run(q, steps);
            i < |s.finishers| ==>
              var r := RunOut(q, s, i, logged, now);
              && |r.finishers| == |s.finishers| && r.finishers[i].stage.Done?
              && r.finishers[i].process == s.finishers[i].process
  {
    RunKeepsInv(q, steps);
    var s := Run(q, steps);
    hide Inv, Run, Next;
    if i < |s.finishers| {
      FinisherKnown(q, s, i);
      var a := Next(q, s, Write(i, logged, now));
      var b := Next(q, a, Pop(i));
      StageAfter(q, s, i, Write(i, logged, now));
      StageAfter(q, a, i, Pop(i));
      StageAfter(q, b, i, Take(i));
      StageAfter(q, Next(q, b, Take(i)), i, Give(i));
    }
  }

  lemma FinisherKnown(q: PS.QueuePolicy, s: State, i: nat)
    requires Inv(q, s) && i < |s.finishers|
    ensures s.finishers[i].process in s.handles
  {
    hide SchedOk, HeldOk, ExitsOk, SpawnsOk, ReleasesOk, HandlesOk;
    FinisherAtHand(s, i);
  }

  /** What the last finisher of the list does at each of its stages. */
  lemma LastFinisherSteps(q: PS.QueuePolicy, s: State, before: seq<Finisher>, p: string, e: Ending, stage: FinishStage,
                          logged: bool, now: int)
    requires s.finishers == before + [Finisher(p, e, stage)] && p in s.handles
    ensures var i, list := |before|, (x: FinishStage) => before + [Finisher(p, e, x)];
            && (stage.Claimed? ==>
                  Next(q, s, Write(i, logged, now)) == End(s, p, e, logged, now).(finishers := list(Recorded)))
            && (stage.Recorded? ==> Next(q, s, Pop(i)) == s.(running := s.running - {p}, finishers := list(Popped)))
            && (stage.Popped? ==>
                  Next(q, s, Take(i)) == s.(handles := s.handles[p := s.handles[p].(lease := None)],
                                            finishers := list(Taken(s.handles[p].lease))))
            && (stage.Taken? && stage.lease.Some? ==>
                Next(q, s, Give(i)) == GiveBack(q, s, stage.lease.value).(finishers := list(Done)))
  {
    hide Runs.Next, Record;
    var i := |before|;
    forall x: FinishStage ensures s.finishers[i := Finisher(p, e, x)] == before + [Finisher(p, e, x)] {
    }
  }

  lemma WriteAndPop(q: PS.QueuePolicy, s: State, before: seq<Finisher>, p: string, e: Ending, logged: bool, now: int)
    requires s.finishers == before + [Finisher(p, e, Claimed)] && p in s.handles
    ensures Next(q, Next(q, s, Write(|before|, logged, now)), Pop(|before|)) ==
            End(s, p, e, logged, now).(running := s.running - {p}, finishers := before + [Finisher(p, e, Popped)])
  {
    hide Next, Record;
    LastFinisherSteps(q, s, before, p, e, Claimed, logged, now);
    LastFinisherSteps(q, Next(q, s, Write(|before|, logged, now)), before, p, e, Recorded, logged, now);
  }

  lemma TakeAndGive(q: PS.QueuePolicy, s: State, before: seq<Finisher>, p: string, e: Ending, n: nat)
    requires s.finishers == before + [Finisher(p, e, Popped)] && p in s.handles && s.handles[p].lease == Some(n)
    ensures Next(q, Next(q, s, Take(|before|)), Give(|before|)) ==
            GiveBack(q, s, n).(handles := s.handles[p := s.handles[p].(lease := None)],
                               finishers := before + [Finisher(p, e, Done)])
  {
    hide Next, Runs.Next;
    LastFinisherSteps(q, s, before, p, e, Popped, false, 0);
    LastFinisherSteps(q, Next(q, s, Take(|before|)), before, p, e, Taken(Some(n)), false, 0);
  }

  lemma ClaimStep(q: PS.QueuePolicy, s: State, p: string, e: Ending)
    requires p in s.handles && !s.handles[p].finalized && e.status.Terminal()
    ensures Next(q, s, Claim(p, e)) ==
            s.(handles := s.handles[p := s.handles[p].(finalized := true)],
               finishers := s.finishers + [Finisher(p, e, Claimed)])
  {
    hide NextSpawn, NextOther;
  }

  /**
   A claim on a live process followed by the claimer's steps, undisturbed: the end
   is recorded, the process leaves the table and its own lease goes back, once.
   */
  lemma UninterruptedFinish(q: PS.QueuePolicy, steps: seq<Step>, p: string, e: Ending, logged: bool, now: int)
    requires q.Valid() && e.status.Terminal()
    ensures var s := Run(q, steps);
            p in s.handles && !s.handles[p].finalized ==>
              var r := RunOut(q, Next(q, s, Claim(p, e)), |s.finishers|, logged, now);
              && r.table == Record(s.table, p, e, logged, now)
              && r.running == s.running - {p}
              && r.sched == Runs.Next(q, s.sched, Runs.Release(s.handles[p].number))
              && r.releases == s.releases + [s.handles[p].number]
              && r.handles == s.handles[p := Handle(true, None, s.handles[p].number)]
              && r.finishers == s.finishers + [Finisher(p, e, Done)]
  {
    hide Inv, Run, Record, Runs.Next, Next;
    RunKeepsInv(q, steps);
    var s := Run(q, steps);
    if p in s.handles && !s.handles[p].finalized {
      LiveLease(q, s, p);
      ClaimStep(q, s, p, e);
      var claimed := Next(q, s, Claim(p, e));
      WriteAndPop(q, claimed, s.finishers, p, e, logged, now);
      var popped := Next(q, Next(q, claimed, Write(|s.finishers|, logged, now)), Pop(|s.finishers|));
      TakeAndGive(q, popped, s.finishers, p, e, s.handles[p].number);
    }
  }

  lemma LiveLease(q: PS.QueuePolicy, s: State, p: string)
    requires Inv(q, s) && p in s.handles && !s.handles[p].finalized
    ensures s.handles[p].lease == Some(s.handles[p].number)
  {
    hide SchedOk, HeldOk, ExitsOk, SpawnsOk, ReleasesOk, FinishersOk;
  }
}
