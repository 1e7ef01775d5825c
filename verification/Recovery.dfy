/**
 Start-up recovery of process records: every record left queued or running gets
 a disposition, and processes that are verifiably still the same are taken back
 under the scheduler's rules.
 */
module Recovery {
  import opened Common
  import opened Events
  import opened ProcessTable
  import Cursors
  import PS = ProcessScheduler
  import Runs = SchedulerRuns
  import Sets = SchedulerSets
  import opened SchedulerIdle

  /** What the operating system and the event store answered for one record. */
  datatype Probe = Probe(alive: bool, identity: Option<string>, aliveAgain: bool, identityAgain: Option<string>,
                         logged: bool, now: int, outputSize: nat)

  datatype Disposition = Adopted(touch: Touch) | Ended(status: Status, reason: string)

  /** The manager: the table, the scheduler, and the lease of each process in the running table. */
  datatype State = State(table: Table, sched: PS.State, running: map<string, nat>)

  /** "pr-" and eight hexadecimal digits; the pattern's end also accepts one final newline. */
  predicate IsProcessId(p: string) {
    && (|p| == 11 || (|p| == 12 && p[11] == '\n'))
    && p[..3] == "pr-"
    && forall i :: 3 <= i < 11 ==> Cursors.IsHex(p[i])
  }

  function Pid(row: Row): int {
    if row.pid.Some? then row.pid.value else 0
  }

  predicate HasIdentity(row: Row) {
    row.identity.Some? && row.identity.value != ""
  }

  /** The verdict reached without the manager's help; none means: try to adopt. */
  function Assess(row: Row, probe: Probe): Option<(Status, string)> {
    if row.status == Queued then Some((Interrupted, "queued_without_process"))
    else if Pid(row) <= 0 then Some((RecoveryRequired, "missing_pid"))
    else if !probe.alive then Some((Interrupted, "process_not_found"))
    else if !HasIdentity(row) || probe.identity.None? then Some((RecoveryRequired, "identity_unavailable"))
    else if row.identity != probe.identity then Some((Lost, "pid_identity_mismatch"))
    else None
  }

  /** The manager's own second look. */
  predicate Adoptable(p: string, row: Row, probe: Probe) {
    && IsProcessId(p) && !Blank(row.workspace)
    && Pid(row) > 0 && HasIdentity(row) && probe.aliveAgain && probe.identityAgain == row.identity
  }

  function Failure(status: Status, reason: string): Ending {
    Ending(status, Some(-1), Some(reason), Some(reason))
  }

  function StartedDraft(p: string, row: Row): Draft {
    Draft(row.workspace, Some(p), "tool.started",
          Started(if row.tool != "" then row.tool else "recovered_process", Pid(row), true))
  }

  /** The note that recovery leaves on a process it took back. */
  function Noted(probe: Probe): Touch {
    Touch("recovered", probe.now, Some(probe.outputSize))
  }

  /** Taking a process back: a lease without waiting, a place in the running table, an event. */
  ghost function Adopt(q: PS.QueuePolicy, s: State, p: string, row: Row, probe: Probe): (State, bool) {
    if !Adoptable(p, row, probe) then (s, false)
    else
      var (sched, admitted) := PS.Admission(q, s.sched, row.workspace, WriteKey(row.workspace), 100);
      var number := |s.sched.callers| + 1;
      if !admitted then (s.(sched := sched), false)
      else if p in s.running then (s.(sched := Runs.Next(q, sched, Runs.Release(number))), true)
      else
        (State(if probe.logged then s.table.(log := Append(s.table.log, StartedDraft(p, row), probe.now)) else s.table,
               sched, s.running[p := number]), true)
  }

  ghost function RecoverOne(q: PS.QueuePolicy, s: State, p: string, row: Row, probe: Probe): (State, Disposition) {
    var verdict := Assess(row, probe);
    if verdict.Some? then
      (s.(table := Record(s.table, p, Failure(verdict.value.0, verdict.value.1), probe.logged, probe.now)),
       Ended(verdict.value.0, verdict.value.1))
    else
      var (r, adopted) := Adopt(q, s, p, row, probe);
      if adopted then
        var was := r.table.rows;
        var rows := if p in was then was[p := Touched(was[p], Noted(probe))] else was;
        (r.(table := r.table.(rows := rows)), Adopted(Noted(probe)))
      else
        (r.(table := Record(r.table, p, Failure(RecoveryRequired, "monitor_adoption_failed"), probe.logged, probe.now)),
         Ended(RecoveryRequired, "monitor_adoption_failed"))
  }

  /** A record as it was when the incomplete ones were listed. */
  datatype Listed = Listed(id: string, row: Row)

  /** The first k records of the list. */
  ghost function RecoverUpTo(q: PS.QueuePolicy, s: State, records: seq<Listed>, probes: seq<Probe>, k: nat)
    : (State, seq<Disposition>)
    requires k <= |records| == |probes|
  {
    if k == 0 then (s, [])
    else
      var (before, done) := RecoverUpTo(q, s, records, probes, k - 1);
      var (after, d) := RecoverOne(q, before, records[k - 1].id, records[k - 1].row, probes[k - 1]);
      (after, done + [d])
  }

  /** The list holds every row that is queued or running, once. */
  ghost predicate Lists(records: seq<Listed>, rows: map<string, Row>) {
    && (forall i :: 0 <= i < |records| ==>
          records[i].id in rows && rows[records[i].id] == records[i].row && !records[i].row.status.Terminal())
    && (forall p :: p in rows && !rows[p].status.Terminal() ==> exists i :: 0 <= i < |records| && records[i].id == p)
    && (forall i, j :: 0 <= i < j < |records| ==> records[i].id != records[j].id)
  }

  /** A manager that has just started, facing the records an earlier service left. */
  ghost predicate FreshStart(q: PS.QueuePolicy, s: State, records: seq<Listed>) {
    Lists(records, s.table.rows) && s.running == map[] && Idle(q, s.sched) && s.sched.active == map[]
  }

  // ------------------------------------------------------------- record by record

  /** Everything that has to hold for a process to be taken back. */
  ghost predicate Survivor(q: PS.QueuePolicy, sched: PS.State, p: string, row: Row, probe: Probe) {
    Assess(row, probe) == None && Adoptable(p, row, probe) && Room(q, sched, row.workspace)
  }

  /** One record: adopted exactly when it survives, otherwise ended; nothing else in the table moves. */
  lemma RecoverOneIsRight(q: PS.QueuePolicy, s: State, p: string, probe: Probe)
    requires Idle(q, s.sched) && p in s.table.rows && !s.table.rows[p].status.Terminal() && p !in s.running
    ensures var row := s.table.rows[p];
            var (t, d) := RecoverOne(q, s, p, row, probe);
            && Idle(q, t.sched)
            && (d.Adopted? <==> Survivor(q, s.sched, p, row, probe))
            && (d.Adopted? ==>
                  && t.running == s.running[p := |s.sched.callers| + 1]
                  && t.sched.active == s.sched.active[|s.sched.callers| + 1 :=
                                                      PS.Lease(row.workspace, WriteKey(row.workspace))]
                  && t.table.rows == s.table.rows[p := Touched(row, d.touch)])
            && (d.Ended? ==>
                  && d.status.Terminal() && t.running == s.running && t.sched.active == s.sched.active
                  && t.table.rows == s.table.rows[p := EndedRow(row, Failure(d.status, d.reason))])
  {
    hide Idle, PS.Admission, Append;
    if Assess(s.table.rows[p], probe) == None && Adoptable(p, s.table.rows[p], probe) {
      AdmissionWhenIdle(q, s.sched, s.table.rows[p].workspace);
    }
  }

  /** One record gets at most one terminal event: when it is ended and the log takes it. */
  lemma RecoverOneExits(q: PS.QueuePolicy, s: State, p: string, probe: Probe, x: string)
    requires p in s.table.rows && !s.table.rows[p].status.Terminal() && p !in s.running
    ensures var (t, d) := RecoverOne(q, s, p, s.table.rows[p], probe);
            var before, after := Exits(s.table.log.history, x), Exits(t.table.log.history, x);
            if x == p && d.Ended? && probe.logged
            then |after| == |before| + 1 && after[..|before|] == before
                 && after[|before|].payload == Exited(d.status, Some(-1), Some(d.reason))
            else after == before
  {
    hide PS.Admission, Append, NewEvent, Exits;
    var row := s.table.rows[p];
    var verdict := Assess(row, probe);
    var (r, adopted) := Adopt(q, s, p, row, probe);
    AppendedExits(s.table.log, StartedDraft(p, row), probe.now, x);
    var status := if verdict.Some? then verdict.value.0 else RecoveryRequired;
    var reason := if verdict.Some? then verdict.value.1 else "monitor_adoption_failed";
    FinishedExits(s.table, p, Failure(status, reason), probe.now, x);
  }

  // -------------------------------------------------------------------- the whole list

  function Survivors(done: seq<Disposition>): nat {
    if done == [] then 0 else Survivors(done[..|done| - 1]) + (if done[|done| - 1].Adopted? then 1 else 0)
  }

  function Outcome(row: Row, d: Disposition): Row {
    match d
    case Adopted(touch) => Touched(row, touch)
    case Ended(status, reason) => EndedRow(row, Failure(status, reason))
  }

  /** The rows after the first |done| records. */
  ghost predicate RowsSettled(rows0: map<string, Row>, rows: map<string, Row>, records: seq<Listed>,
                              done: seq<Disposition>) {
    && |done| <= |records|
    && rows.Keys == rows0.Keys
    && (forall p :: p in rows0 && (forall i :: 0 <= i < |done| ==> records[i].id != p) ==> rows[p] == rows0[p])
    && (forall i :: 0 <= i < |done| ==>
          records[i].id in rows && rows[records[i].id] == Outcome(records[i].row, done[i])
          && (done[i].Ended? ==> done[i].status.Terminal()))
  }

  /** Every adopted process runs under an active lease of its workspace. */
  ghost predicate AdoptedHeld(running: map<string, nat>, active: map<nat, PS.Lease>, records: seq<Listed>,
                              done: seq<Disposition>) {
    && |done| <= |records|
    && (forall i :: 0 <= i < |done| && done[i].Adopted? ==>
          && records[i].id in running && running[records[i].id] in active
          && active[running[records[i].id]].workspace == records[i].row.workspace)
  }

  /** Whoever runs was adopted. */
  ghost predicate RunnersAdopted(running: map<string, nat>, records: seq<Listed>, done: seq<Disposition>) {
    && |done| <= |records|
    && (forall p :: p in running ==> exists i :: 0 <= i < |done| && records[i].id == p && done[i].Adopted?)
  }

  ghost predicate LeasesRun(running: map<string, nat>, active: map<nat, PS.Lease>) {
    forall l :: l in active ==> exists p :: p in running && running[p] == l
  }

  /** The running table and the leases after the first |done| records. */
  ghost predicate RunSettled(running: map<string, nat>, active: map<nat, PS.Lease>, records: seq<Listed>,
                             done: seq<Disposition>) {
    && AdoptedHeld(running, active, records, done)
    && RunnersAdopted(running, records, done)
    && LeasesRun(running, active)
    && |active| == |running| == Survivors(done)
  }

  lemma RowsStep(rows0: map<string, Row>, rows: map<string, Row>, records: seq<Listed>, done: seq<Disposition>,
                 d: Disposition)
    requires Lists(records, rows0) && |done| < |records| && RowsSettled(rows0, rows, records, done)
    requires d.Ended? ==> d.status.Terminal()
    ensures var r := records[|done|];
            r.id in rows && rows[r.id] == r.row
            && RowsSettled(rows0, rows[r.id := Outcome(r.row, d)], records, done + [d])
  {
    var k := |done|;
    var r, done2 := records[k], done + [d];
    assert forall i :: 0 <= i < k ==> done2[i] == done[i] && records[i].id != r.id;
    forall p | p in rows0 && (forall i :: 0 <= i < |done2| ==> records[i].id != p)
        ensures p != r.id && rows[p] == rows0[p] {
      assert records[k].id != p;
    }
  }

  lemma SurvivorsStep(done: seq<Disposition>, d: Disposition)
    ensures Survivors(done + [d]) == Survivors(done) + (if d.Adopted? then 1 else 0)
  {
    assert (done + [d])[..|done|] == done;
  }

  lemma RunStepEnded(running: map<string, nat>, active: map<nat, PS.Lease>, records: seq<Listed>,
                     done: seq<Disposition>, d: Disposition)
    requires |done| < |records| && RunSettled(running, active, records, done) && d.Ended?
    ensures RunSettled(running, active, records, done + [d])
  {
    hide Survivors, LeasesRun;
    SurvivorsStep(done, d);
    MoreRunners(running, running, records, done, d);
  }

  lemma MoreRunners(running: map<string, nat>, running2: map<string, nat>, records: seq<Listed>,
                    done: seq<Disposition>, d: Disposition)
    requires |done| < |records| && RunnersAdopted(running, records, done)
    requires forall x :: x in running2 ==> x in running || (d.Adopted? && x == records[|done|].id)
    ensures RunnersAdopted(running2, records, done + [d])
  {
    var done2 := done + [d];
    assert done2[|done|] == d;
    forall x | x in running2 ensures exists i :: 0 <= i < |done2| && records[i].id == x && done2[i].Adopted? {
      if x in running {
        var i :| 0 <= i < |done| && records[i].id == x && done[i].Adopted?;
        assert done2[i].Adopted?;
      }
    }
  }

  lemma MoreLeases(running: map<string, nat>, active: map<nat, PS.Lease>, p: string, n: nat, lease: PS.Lease)
    requires LeasesRun(running, active) && p !in running
    ensures LeasesRun(running[p := n], active[n := lease])
  {
    var running2, active2 := running[p := n], active[n := lease];
    forall l | l in active2 ensures exists x :: x in running2 && running2[x] == l {
      if l == n {
        assert running2[p] == l;
      } else {
        var x :| x in running && running[x] == l;
        assert running2[x] == l;
      }
    }
  }

  lemma NotRunning(running: map<string, nat>, records: seq<Listed>, done: seq<Disposition>)
    requires |done| < |records| && RunnersAdopted(running, records, done)
    requires forall i :: 0 <= i < |done| ==> records[i].id != records[|done|].id
    ensures records[|done|].id !in running
  {
  }

  lemma RunStepAdopted(running: map<string, nat>, active: map<nat, PS.Lease>, d: Disposition, records: seq<Listed>,
                       done: seq<Disposition>, n: nat)
    requires |done| < |records| && RunSettled(running, active, records, done) && n !in active && d.Adopted?
    requires forall i :: 0 <= i < |done| ==> records[i].id != records[|done|].id
    ensures var r := records[|done|];
            RunSettled(running[r.id := n], active[n := PS.Lease(r.row.workspace, WriteKey(r.row.workspace))], records,
                       done + [d])
  {
    hide Survivors, LeasesRun, RunnersAdopted;
    var r := records[|done|];
    SurvivorsStep(done, d);
    NotRunning(running, records, done);
    MoreRunners(running, running[r.id := n], records, done, d);
    MoreLeases(running, active, r.id, n, PS.Lease(r.row.workspace, WriteKey(r.row.workspace)));
  }

  /** The state after some records, as the rest of recovery needs it. */
  ghost predicate Settled(q: PS.QueuePolicy, s: State, t: State, records: seq<Listed>, done: seq<Disposition>) {
    && RowsSettled(s.table.rows, t.table.rows, records, done)
    && RunSettled(t.running, t.sched.active, records, done)
    && Idle(q, t.sched)
  }

  lemma FreshLease(q: PS.QueuePolicy, sched: PS.State)
    requires Idle(q, sched)
    ensures |sched.callers| + 1 !in sched.active
  {
    hide PS.Inv;
    IdleParts(q, sched);
    Sets.InsideSeparate(q, sched);
    LeasesInside(sched);
  }

  lemma LeasesInside(sched: PS.State)
    ensures forall l :: l in sched.active ==> l in Sets.Inside(sched)
  {
    hide Runs.Waiting;
  }

  /** What the next record meets: its row as listed, nobody running under its id. */
  lemma NextRecord(q: PS.QueuePolicy, s: State, t: State, records: seq<Listed>, done: seq<Disposition>)
    requires Lists(records, s.table.rows) && Settled(q, s, t, records, done) && |done| < |records|
    ensures var r := records[|done|];
            r.id in t.table.rows && t.table.rows[r.id] == r.row && !r.row.status.Terminal() && r.id !in t.running
  {
    hide Idle, Survivors;
    RowsStep(s.table.rows, t.table.rows, records, done, Adopted(Touch("recovered", 0, None)));
    DistinctIds(records, s.table.rows, |done|);
  }

  lemma SettleStep(q: PS.QueuePolicy, s: State, t: State, records: seq<Listed>, done: seq<Disposition>, probe: Probe)
    requires Lists(records, s.table.rows) && Settled(q, s, t, records, done) && |done| < |records|
    ensures var r := records[|done|];
            var (u, d) := RecoverOne(q, t, r.id, r.row, probe);
            && Settled(q, s, u, records, done + [d])
            && (d.Adopted? <==> Survivor(q, t.sched, r.id, r.row, probe))
  {
    hide Idle, RecoverOne, Survivor, RowsSettled, RunSettled, Lists, WriteKey;
    NextRecord(q, s, t, records, done);
    DistinctIds(records, s.table.rows, |done|);
    var r := records[|done|];
    RecoverOneIsRight(q, t, r.id, probe);
    FreshLease(q, t.sched);
    var (u, d) := RecoverOne(q, t, r.id, r.row, probe);
    RowsStep(s.table.rows, t.table.rows, records, done, d);
    if d.Adopted? {
      RunStepAdopted(t.running, t.sched.active, d, records, done, |t.sched.callers| + 1);
    } else {
      RunStepEnded(t.running, t.sched.active, records, done, d);
    }
  }

  lemma DistinctIds(records: seq<Listed>, rows: map<string, Row>, k: nat)
    requires Lists(records, rows) && k < |records|
    ensures forall i :: 0 <= i < k ==> records[i].id != records[k].id
  {
  }

  lemma SettledStart(q: PS.QueuePolicy, s: State, records: seq<Listed>)
    requires FreshStart(q, s, records)
    ensures Settled(q, s, s, records, [])
  {
  }

  lemma StartLists(q: PS.QueuePolicy, s: State, records: seq<Listed>)
    requires FreshStart(q, s, records)
    ensures Lists(records, s.table.rows)
  {
  }

  lemma {:induction false} Settles(q: PS.QueuePolicy, s: State, records: seq<Listed>, probes: seq<Probe>, k: nat)
    requires k <= |records| == |probes| && FreshStart(q, s, records)
    ensures var (t, done) := RecoverUpTo(q, s, records, probes, k);
            |done| == k && Settled(q, s, t, records, done)
  {
    hide FreshStart, RecoverOne, Settled, Lists;
    if k == 0 {
      SettledStart(q, s, records);
    } else {
      Settles(q, s, records, probes, k - 1);
      StartLists(q, s, records);
      var (before, done) := RecoverUpTo(q, s, records, probes, k - 1);
      SettleStep(q, s, before, records, done, probes[k - 1]);
    }
  }

  /**
   Recovery is total: a manager that has just started and runs over the records
   left queued or running leaves each of them either ended or in the running
   table with an active lease of its workspace; every other row is untouched,
   there are as many leases as adopted processes, the quotas hold, nobody waits.
   */
  lemma RecoveryIsTotal(q: PS.QueuePolicy, s: State, records: seq<Listed>, probes: seq<Probe>)
    requires |records| == |probes| && FreshStart(q, s, records)
    ensures var (t, done) := RecoverUpTo(q, s, records, probes, |records|);
            && |done| == |records| && t.table.rows.Keys == s.table.rows.Keys
            && (forall p :: p in t.table.rows && !t.table.rows[p].status.Terminal() ==>
                  p in t.running && t.running[p] in t.sched.active
                      && t.sched.active[t.running[p]].workspace == t.table.rows[p].workspace)
            && (forall p :: p in s.table.rows && s.table.rows[p].status.Terminal() ==>
                t.table.rows[p] == s.table.rows[p])
            && |t.sched.active| == |t.running| == Survivors(done)
            && |t.sched.active| <= q.globalLimit
                && (forall ws :: |PS.LeasesOf(t.sched.active, ws)| <= q.perWorkspaceLimit)
            && t.sched.queues == map[]
  {
    hide RecoverUpTo, Idle, Lists, RowsSettled, RunSettled, Survivors;
    Settles(q, s, records, probes, |records|);
    var (t, done) := RecoverUpTo(q, s, records, probes, |records|);
    IdleQuotas(q, t.sched);
    AllSettled(s.table.rows, t.table.rows, t.running, t.sched.active, records, done);
  }

  lemma IdleQuotas(q: PS.QueuePolicy, sched: PS.State)
    requires Idle(q, sched)
    ensures PS.QuotasOk(q, sched.active) && sched.queues == map[]
  {
  }

  lemma AllSettled(rows0: map<string, Row>, rows: map<string, Row>, running: map<string, nat>,
                   active: map<nat, PS.Lease>,
                   records: seq<Listed>, done: seq<Disposition>)
    requires Lists(records, rows0) && |done| == |records|
    requires RowsSettled(rows0, rows, records, done) && RunSettled(running, active, records, done)
    ensures forall p :: p in rows && !rows[p].status.Terminal() ==>
              p in running && running[p] in active && active[running[p]].workspace == rows[p].workspace
    ensures rows.Keys == rows0.Keys && forall p :: p in rows0 && rows0[p].status.Terminal() ==> rows[p] == rows0[p]
    ensures |active| == |running| == Survivors(done)
  {
    hide Survivors, LeasesRun, RunnersAdopted;
    forall p | p in rows0 && rows0[p].status.Terminal() ensures rows[p] == rows0[p] {
      assert forall i :: 0 <= i < |done| ==> records[i].id != p;
    }
    forall p | p in rows && !rows[p].status.Terminal()
      ensures p in running && running[p] in active && active[running[p]].workspace == rows[p].workspace
    {
      var i :| 0 <= i < |records| && records[i].id == p;
      assert done[i].Adopted?;
    }
  }

  /**
   Who is taken back: exactly the records that are verifiably the same process
   both times it is looked at, as long as the machine has room and no earlier
   record of the same workspace was taken back; a second living process of a
   workspace is given up, whatever the per-workspace limit.
   */
  lemma AdoptionIsExact(q: PS.QueuePolicy, s: State, records: seq<Listed>, probes: seq<Probe>, i: nat)
    requires i < |records| == |probes| && FreshStart(q, s, records)
    ensures var (before, done) := RecoverUpTo(q, s, records, probes, i);
            var (t, after) := RecoverUpTo(q, s, records, probes, i + 1);
            && |done| == i && |after| == i + 1 && after[..i] == done
            && (after[i].Adopted? <==>
                  && Assess(records[i].row, probes[i]) == None && Adoptable(records[i].id, records[i].row, probes[i])
                  && Survivors(done) < q.globalLimit
                  && forall j :: 0 <= j < i && done[j].Adopted? ==>
                      records[j].row.workspace != records[i].row.workspace)
  {
    Settles(q, s, records, probes, i);
    var (before, done) := RecoverUpTo(q, s, records, probes, i);
    hide Idle, RecoverOne, RunSettled, RowsSettled, Lists;
    SettleStep(q, s, before, records, done, probes[i]);
    RoomMeans(q, before, records, done, records[i].row.workspace);
  }

  lemma RoomMeans(q: PS.QueuePolicy, t: State, records: seq<Listed>, done: seq<Disposition>, ws: string)
    requires RunSettled(t.running, t.sched.active, records, done)
    ensures Room(q, t.sched, ws) <==>
            Survivors(done) < q.globalLimit && forall j :: 0 <= j < |done| && done[j].Adopted? ==>
                records[j].row.workspace != ws
  {
    hide Survivors;
    if forall j :: 0 <= j < |done| && done[j].Adopted? ==> records[j].row.workspace != ws {
      forall l | l in t.sched.active ensures t.sched.active[l].workspace != ws {
        var p :| p in t.running && t.running[p] == l;
        var j :| 0 <= j < |done| && records[j].id == p && done[j].Adopted?;
      }
    }
  }

  /**
   The terminal events of one process after some records: one more, with the
   disposition, exactly when it was ended and logged.
   */
  ghost predicate ExitsSettled(before: seq<Event>, after: seq<Event>, records: seq<Listed>, probes: seq<Probe>,
                               done: seq<Disposition>, x: string) {
    && |done| <= |records| == |probes|
    && (forall i :: 0 <= i < |done| && records[i].id == x && done[i].Ended? && probes[i].logged ==>
          && |after| == |before| + 1 && after[..|before|] == before
          && after[|before|].payload == Exited(done[i].status, Some(-1), Some(done[i].reason)))
    && ((forall i :: 0 <= i < |done| && records[i].id == x ==> done[i].Adopted? || !probes[i].logged) ==>
        after == before)
  }

  lemma ExitsStep(before: seq<Event>, middle: seq<Event>, after: seq<Event>, records: seq<Listed>, probes: seq<Probe>,
                  done: seq<Disposition>, d: Disposition, x: string)
    requires ExitsSettled(before, middle, records, probes, done, x) && |done| < |records|
    requires forall i :: 0 <= i < |done| ==> records[i].id != records[|done|].id
    requires var k := |done|;
             if x == records[k].id && d.Ended? && probes[k].logged
             then |after| == |middle| + 1 && after[..|middle|] == middle
                 && after[|middle|].payload == Exited(d.status, Some(-1), Some(d.reason))
             else after == middle
    ensures ExitsSettled(before, after, records, probes, done + [d], x)
  {
    var k, done2 := |done|, done + [d];
    assert done2[k] == d && forall i :: 0 <= i < k ==> done2[i] == done[i];
    if forall i :: 0 <= i < k + 1 && records[i].id == x ==> done2[i].Adopted? || !probes[i].logged {
      assert forall i :: 0 <= i < k && records[i].id == x ==> done[i].Adopted? || !probes[i].logged;
    }
  }

  lemma {:induction false} ExitsPerRecord(q: PS.QueuePolicy, s: State, records: seq<Listed>, probes: seq<Probe>,
                                        k: nat, x: string)
    requires k <= |records| == |probes| && FreshStart(q, s, records)
    ensures var (t, done) := RecoverUpTo(q, s, records, probes, k);
            |done| == k && ExitsSettled(Exits(s.table.log.history, x), Exits(t.table.log.history, x), records, probes,
                                        done, x)
  {
    hide Idle, RecoverOne, Exits, RunSettled, RowsSettled, Lists;
    if k > 0 {
      ExitsPerRecord(q, s, records, probes, k - 1, x);
      Settles(q, s, records, probes, k - 1);
      var (before, done) := RecoverUpTo(q, s, records, probes, k - 1);
      NextRecord(q, s, before, records, done);
      DistinctIds(records, s.table.rows, k - 1);
      var (t, d) := RecoverOne(q, before, records[k - 1].id, records[k - 1].row, probes[k - 1]);
      RecoverOneExits(q, before, records[k - 1].id, probes[k - 1], x);
      ExitsStep(Exits(s.table.log.history, x), Exits(before.table.log.history, x), Exits(t.table.log.history, x),
          records, probes, done, d, x);
    }
  }
}
