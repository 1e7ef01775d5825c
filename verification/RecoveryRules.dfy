/**
 Which disposition start-up recovery gives to which record: the rule in terms of the
 row and of what the operating system answered, for the whole list, its rows and its
 counters.
 */
module RecoveryRules {
  import opened Common
  import opened Events
  import opened ProcessTable
  import Cursors
  import PS = ProcessScheduler
  import Runs = SchedulerRuns
  import Sets = SchedulerSets
  import opened SchedulerIdle
  import opened Recovery
  import opened ProcessManager

  // --------------------------------------------------------- five kinds of running records

  ghost predicate HasPid(row: Row) {
    row.status == Running && row.pid.Some? && row.pid.value > 0
  }

  ghost predicate Gone(row: Row, probe: Probe) {
    HasPid(row) && !probe.alive
  }

  /** Alive, but one of the two identities is not known. */
  ghost predicate Unverifiable(row: Row, probe: Probe) {
    HasPid(row) && probe.alive && (row.identity == None || row.identity == Some("") || probe.identity == None)
  }

  /** The pid now belongs to another process. */
  ghost predicate Replaced(row: Row, probe: Probe) {
    HasPid(row) && probe.alive && !Unverifiable(row, probe) && row.identity != probe.identity
  }

  ghost predicate SameProcess(row: Row, probe: Probe) {
    HasPid(row) && probe.alive && !Unverifiable(row, probe) && row.identity == probe.identity
  }

  /** An id as the program issues it: "pr-", eight lower-case hexadecimal digits, and perhaps a newline. */
  ghost predicate Issued(p: string) {
    exists digits: string ::
      && |digits| == 8 && (forall i :: 0 <= i < 8 ==> digits[i] in "0123456789abcdef")
      && (p == "pr-" + digits || p == "pr-" + digits + "\n")
  }

  /** What the manager itself looks at again before it takes a process back. */
  ghost predicate SecondLook(p: string, row: Row, probe: Probe) {
    Issued(p) && !Blank(row.workspace) && probe.aliveAgain && probe.identityAgain == row.identity
  }

  /** The records among the first k that were taken back. */
  ghost function TakenBack(done: seq<Disposition>, k: nat): set<nat>
    requires k <= |done|
  {
    set j: nat | j < k && done[j].Adopted?
  }

  /** Room for record i: fewer were taken back before it than the machine holds, and none of its workspace. */
  ghost predicate RoomFor(q: PS.QueuePolicy, records: seq<Listed>, done: seq<Disposition>, i: nat)
    requires i < |records| && i <= |done|
  {
    && |TakenBack(done, i)| < q.globalLimit
    && forall j :: j in TakenBack(done, i) ==> j < |records| && records[j].row.workspace != records[i].row.workspace
  }

  /** The rule: which disposition record i gets, given those before it. */
  ghost predicate Ruled(q: PS.QueuePolicy, records: seq<Listed>, probes: seq<Probe>, done: seq<Disposition>, i: nat)
    requires i < |records| == |probes| && i < |done|
  {
    var p, row, probe, d := records[i].id, records[i].row, probes[i], done[i];
    var back := SameProcess(row, probe) && SecondLook(p, row, probe) && RoomFor(q, records, done, i);
    && (row.status == Queued || row.status == Running)
    && (d == Ended(Interrupted, "queued_without_process") <==> row.status == Queued)
    && (d == Ended(RecoveryRequired, "missing_pid") <==> row.status == Running && !HasPid(row))
    && (d == Ended(Interrupted, "process_not_found") <==> Gone(row, probe))
    && (d == Ended(RecoveryRequired, "identity_unavailable") <==> Unverifiable(row, probe))
    && (d == Ended(Lost, "pid_identity_mismatch") <==> Replaced(row, probe))
    && (d == Ended(RecoveryRequired, "monitor_adoption_failed") <==> SameProcess(row, probe) && !back)
    && (d == Adopted(Touch("recovered", probe.now, Some(probe.outputSize))) <==> back)
  }

  lemma IssuedIds(p: string)
    ensures IsProcessId(p) <==> Issued(p)
  {
    if IsProcessId(p) {
      var digits := p[3..11];
      forall i | 0 <= i < 8 ensures digits[i] in "0123456789abcdef" {
        Cursors.HexChars(p[3 + i]);
      }
      assert p == "pr-" + digits || p == "pr-" + digits + "\n" by {
        assert p == p[..3] + p[3..11] + p[11..];
        if |p| == 12 { assert p[11..] == [p[11]]; }
      }
    }
    if Issued(p) {
      var digits: string :| && |digits| == 8 && (forall i :: 0 <= i < 8 ==> digits[i] in "0123456789abcdef")
                            && (p == "pr-" + digits || p == "pr-" + digits + "\n");
      forall i | 3 <= i < 11 ensures Cursors.IsHex(p[i]) {
        assert p[i] == digits[i - 3];
        Cursors.HexChars(p[i]);
      }
      assert p[..3] == "pr-";
    }
  }

  lemma TakenBackStep(done: seq<Disposition>, d: Disposition)
    ensures TakenBack(done + [d], |done| + 1) ==
            TakenBack(done + [d], |done|) + (if d.Adopted? then {|done|} else {})
    ensures forall k: nat :: k <= |done| ==> TakenBack(done + [d], k) == TakenBack(done, k)
  {
  }

  lemma {:induction false} TakenBackCount(done: seq<Disposition>)
    ensures |TakenBack(done, |done|)| == Survivors(done)
  {
    if done == [] {
      assert TakenBack(done, 0) == {};
    } else {
      var front, last := done[..|done| - 1], done[|done| - 1];
      assert done == front + [last];
      TakenBackCount(front);
      TakenBackStep(front, last);
    }
  }

  /** One record, in terms of whether the manager takes it back. */
  lemma RecordRule(q: PS.QueuePolicy, s: State, p: string, row: Row, probe: Probe)
    requires Idle(q, s.sched) && p !in s.running
    requires p in s.table.rows && s.table.rows[p] == row && !row.status.Terminal()
    ensures var d := RecoverOne(q, s, p, row, probe).1;
            var back := SameProcess(row, probe) && SecondLook(p, row, probe) && Room(q, s.sched, row.workspace);
            d == if row.status == Queued then Ended(Interrupted, "queued_without_process")
                 else if !HasPid(row) then Ended(RecoveryRequired, "missing_pid")
                 else if Gone(row, probe) then Ended(Interrupted, "process_not_found")
                 else if Unverifiable(row, probe) then Ended(RecoveryRequired, "identity_unavailable")
                 else if Replaced(row, probe) then Ended(Lost, "pid_identity_mismatch")
                 else if back then Adopted(Touch("recovered", probe.now, Some(probe.outputSize)))
                 else Ended(RecoveryRequired, "monitor_adoption_failed")
  {
    hide Idle, Room, Record, PS.Admission, IsProcessId, Issued, Append;
    IssuedIds(p);
    RecoverOneIsRight(q, s, p, probe);
  }

  lemma {:induction false} EarlierStay(q: PS.QueuePolicy, s: State, records: seq<Listed>, probes: seq<Probe>, i: nat,
                                       k: nat)
    requires i <= k <= |records| == |probes|
    ensures var done := RecoverUpTo(q, s, records, probes, k).1;
            |done| == k && done[..i] == RecoverUpTo(q, s, records, probes, i).1
    decreases k
  {
    hide RecoverOne;
    if i < k {
      EarlierStay(q, s, records, probes, i, k - 1);
    } else if k > 0 {
      EarlierStay(q, s, records, probes, k - 1, k - 1);
    }
  }

  /** Room in the scheduler is room among those taken back before. */
  lemma RoomAmongEarlier(q: PS.QueuePolicy, before: State, records: seq<Listed>, done: seq<Disposition>, i: nat)
    requires i < |records| && i <= |done| && RunSettled(before.running, before.sched.active, records, done[..i])
    ensures Room(q, before.sched, records[i].row.workspace) <==> RoomFor(q, records, done, i)
  {
    hide RunSettled, Survivors;
    RoomMeans(q, before, records, done[..i], records[i].row.workspace);
    TakenBackCount(done[..i]);
    assert TakenBack(done[..i], i) == TakenBack(done, i);
  }

  /**
   For every list of records that a starting service faces and whatever the probes
   answer: interrupted are exactly the queued records and those whose process is gone,
   lost those whose pid belongs to another process, taken back those that are the same
   process on both looks while there is room; every other record requires recovery.
   */
  lemma DispositionIsRuled(q: PS.QueuePolicy, s: State, records: seq<Listed>, probes: seq<Probe>, i: nat)
    requires i < |records| == |probes| && FreshStart(q, s, records)
    ensures var done := RecoverUpTo(q, s, records, probes, |records|).1;
            |done| == |records| && Ruled(q, records, probes, done, i)
  {
    hide FreshStart, Idle, Lists, RecoverUpTo, RowsSettled, RunSettled, RoomFor, SecondLook, Room;
    var done := RecoverUpTo(q, s, records, probes, |records|).1;
    EarlierStay(q, s, records, probes, i, |records|);
    EarlierStay(q, s, records, probes, i + 1, |records|);
    Settles(q, s, records, probes, i);
    StartLists(q, s, records);
    var before := RecoverUpTo(q, s, records, probes, i).0;
    NextRecord(q, s, before, records, done[..i]);
    RecordRule(q, before, records[i].id, records[i].row, probes[i]);
    RoomAmongEarlier(q, before, records, done, i);
    OneMore(q, s, records, probes, i);
    assert done[..i + 1][i] == done[i];
    NotTerminal(records[i].row.status);
  }

  lemma NotTerminal(status: Status)
    ensures !status.Terminal() <==> status == Queued || status == Running
  {
  }

  lemma OneMore(q: PS.QueuePolicy, s: State, records: seq<Listed>, probes: seq<Probe>, i: nat)
    requires i < |records| == |probes| && |RecoverUpTo(q, s, records, probes, i).1| == i
    ensures var done := RecoverUpTo(q, s, records, probes, i + 1).1;
            |done| == i + 1
            && done[i] == RecoverOne(q, RecoverUpTo(q, s, records, probes, i).0, records[i].id, records[i].row,
                                     probes[i]).1
  {
    hide RecoverOne;
  }

  /**
   The row of every listed record after the whole list: an ended one carries the status
   of its disposition, exit code -1 and the reason as its note; one taken back keeps
   its status and gets the note, the time and the output seen.
   */
  lemma RowsAreRuled(q: PS.QueuePolicy, s: State, records: seq<Listed>, probes: seq<Probe>, i: nat)
    requires i < |records| == |probes| && FreshStart(q, s, records)
    ensures var (t, done) := RecoverUpTo(q, s, records, probes, |records|);
            && |done| == |records| && records[i].id in t.table.rows
            && var was, row, d := records[i].row, t.table.rows[records[i].id], done[i];
               && (d.Ended? ==> row == was.(status := d.status, exitCode := Some(-1), recovery := Some(d.reason)))
               && (d.Adopted? ==> row == was.(recovery := Some("recovered"), heartbeat := Some(probes[i].now),
                                              outputOffset := Some(probes[i].outputSize)))
  {
    hide FreshStart, Idle, RecoverUpTo, RunSettled, Ruled;
    Settles(q, s, records, probes, |records|);
    DispositionIsRuled(q, s, records, probes, i);
    var done := RecoverUpTo(q, s, records, probes, |records|).1;
    RuledTouch(q, records, probes, done, i);
  }

  lemma RuledTouch(q: PS.QueuePolicy, records: seq<Listed>, probes: seq<Probe>, done: seq<Disposition>, i: nat)
    requires i < |records| == |probes| && i < |done| && Ruled(q, records, probes, done, i)
    ensures done[i].Adopted? ==> done[i].touch == Touch("recovered", probes[i].now, Some(probes[i].outputSize))
  {
    hide RoomFor, SecondLook;
  }

  ghost function EndedAs(done: seq<Disposition>, status: Status): set<nat> {
    set j: nat | j < |done| && done[j].Ended? && done[j].status == status
  }

  lemma EndedStep(done: seq<Disposition>, d: Disposition, status: Status)
    ensures EndedAs(done + [d], status) ==
            EndedAs(done, status) + (if d.Ended? && d.status == status then {|done|} else {})
  {
  }

  lemma {:induction false} EndedCount(done: seq<Disposition>, status: Status)
    ensures |EndedAs(done, status)| == CountEnded(done, status)
  {
    if done == [] {
      assert EndedAs(done, status) == {};
    } else {
      var front, last := done[..|done| - 1], done[|done| - 1];
      assert done == front + [last];
      EndedCount(front, status);
      EndedStep(front, last, status);
      hide EndedAs;
    }
  }

  /** The four counters, in terms of the records and the probes. */
  lemma CountersAreRuled(q: PS.QueuePolicy, s: State, records: seq<Listed>, probes: seq<Probe>, summary: Summary)
    requires |records| == |probes| && FreshStart(q, s, records)
    requires Tallies(summary, records, RecoverUpTo(q, s, records, probes, |records|).1)
    ensures var done, n := RecoverUpTo(q, s, records, probes, |records|).1, |records|;
            && |done| == n
            && summary.interrupted ==
               |set i: nat | i < n && (records[i].row.status == Queued || Gone(records[i].row, probes[i]))|
            && summary.lost == |set i: nat | i < n && Replaced(records[i].row, probes[i])|
            && summary.recovered ==
               |set i: nat | i < n && SameProcess(records[i].row, probes[i])
                             && SecondLook(records[i].id, records[i].row, probes[i]) && RoomFor(q, records, done, i)|
            && summary.interrupted + summary.lost + summary.recovered + summary.recoveryRequired == n
  {
    hide RecoverUpTo, FreshStart, Ruled, CountEnded, Survivors, RoomFor, SecondLook, Gone, Replaced, SameProcess;
    var done, n := RecoverUpTo(q, s, records, probes, |records|).1, |records|;
    EarlierStay(q, s, records, probes, 0, n);
    EndedCount(done, Interrupted);
    EndedCount(done, Lost);
    TakenBackCount(done);
    forall i: nat | i < n
      ensures done[i].Ended? && done[i].status == Interrupted <==>
              records[i].row.status == Queued || Gone(records[i].row, probes[i])
      ensures done[i].Ended? && done[i].status == Lost <==> Replaced(records[i].row, probes[i])
      ensures done[i].Adopted? <==> (&& SameProcess(records[i].row, probes[i])
                                     && SecondLook(records[i].id, records[i].row, probes[i])
                                     && RoomFor(q, records, done, i))
    {
      DispositionIsRuled(q, s, records, probes, i);
      RuledKinds(q, records, probes, done, i);
    }
    assert (set i: nat | i < n && (records[i].row.status == Queued || Gone(records[i].row, probes[i]))) ==
           EndedAs(done, Interrupted);
    assert (set i: nat | i < n && Replaced(records[i].row, probes[i])) ==
           EndedAs(done, Lost);
    assert (set i: nat | i < n && SameProcess(records[i].row, probes[i])
                         && SecondLook(records[i].id, records[i].row, probes[i]) && RoomFor(q, records, done, i)) ==
           TakenBack(done, n);
  }

  lemma RuledKinds(q: PS.QueuePolicy, records: seq<Listed>, probes: seq<Probe>, done: seq<Disposition>, i: nat)
    requires i < |records| == |probes| && i < |done| && Ruled(q, records, probes, done, i)
    ensures done[i].Ended? && done[i].status == Interrupted <==>
            records[i].row.status == Queued || Gone(records[i].row, probes[i])
    ensures done[i].Ended? && done[i].status == Lost <==> Replaced(records[i].row, probes[i])
    ensures done[i].Adopted? <==> (&& SameProcess(records[i].row, probes[i])
                                   && SecondLook(records[i].id, records[i].row, probes[i])
                                   && RoomFor(q, records, done, i))
  {
    hide RoomFor, SecondLook;
  }

  /**
   Taking a process back leaves one event that says so, with its tool and pid, if the
   log takes it, and none otherwise.
   */
  lemma TakenBackEvent(q: PS.QueuePolicy, s: State, p: string, probe: Probe)
    requires Idle(q, s.sched) && p in s.table.rows && !s.table.rows[p].status.Terminal() && p !in s.running
    ensures var row, before := s.table.rows[p], s.table.log.history;
            var (t, d) := RecoverOne(q, s, p, row, probe);
            var after := t.table.log.history;
            d.Adopted? ==>
              && (!probe.logged ==> after == before)
              && (probe.logged ==>
                    && |after| == |before| + 1 && after[..|before|] == before && row.pid.Some?
                    && var x := after[|before|];
                       && x.kind == "tool.started" && x.process == Some(p) && x.workspace == row.workspace
                       && x.createdAt == probe.now
                       && x.payload == Started(if row.tool == "" then "recovered_process" else row.tool,
                                               row.pid.value, true))
  {
    hide Idle, Record, PS.Admission, IsProcessId;
    RecoverOneIsRight(q, s, p, probe);
  }

  /**
   A process that is in the running table already is not taken back twice: a lease
   that was granted is given back, and table, rows and log stay as they are.
   */
  lemma AlreadyRunning(q: PS.QueuePolicy, s: State, p: string, row: Row, probe: Probe)
    requires PS.Inv(q, s.sched) && p in s.running
    ensures var (t, adopted) := Adopt(q, s, p, row, probe);
            var looked := SecondLook(p, row, probe) && row.pid.Some? && row.pid.value > 0
                          && row.identity != None && row.identity != Some("");
            && t.running == s.running && t.table == s.table && Sets.Inside(t.sched) == Sets.Inside(s.sched)
            && (adopted <==> looked && PS.Admission(q, s.sched, row.workspace, WriteKey(row.workspace), 100).1)
  {
    hide PS.Inv, PS.Admission, Sets.Inside, Runs.Next, IsProcessId, Issued;
    IssuedIds(p);
    Sets.AdmissionInside(q, s.sched, row.workspace, WriteKey(row.workspace), 100);
    var (sched, admitted) := PS.Admission(q, s.sched, row.workspace, WriteKey(row.workspace), 100);
    if admitted { Sets.ReleaseInside(q, sched, |s.sched.callers| + 1); }
  }

  /** Every process taken back holds the right to write in its workspace. */
  lemma TakenBackLeases(q: PS.QueuePolicy, s: State, records: seq<Listed>, probes: seq<Probe>, i: nat)
    requires i < |records| == |probes| && FreshStart(q, s, records)
    ensures var (t, done) := RecoverUpTo(q, s, records, probes, |records|);
            && |done| == |records|
            && (done[i].Adopted? ==>
                  && records[i].id in t.running && t.running[records[i].id] in t.sched.active
                  && t.sched.active[t.running[records[i].id]] ==
                     PS.Lease(records[i].row.workspace,
                              Some(PS.ConcurrencyKey("workspace", records[i].row.workspace, PS.Write))))
  {
    hide FreshStart, PS.Inv, RecoverUpTo, RowsSettled, RunnersAdopted, LeasesRun, Survivors;
    Settles(q, s, records, probes, |records|);
    var (t, done) := RecoverUpTo(q, s, records, probes, |records|);
    if done[i].Adopted? {
      var lease := t.sched.active[t.running[records[i].id]];
      assert lease == PS.Lease(lease.workspace, lease.key);
    }
  }
}
