/**
 The manager's objects: the running-process handle that finishers race for, and
 the manager's own routines, each proved against the value models.
 */
module ProcessManager {
  import opened Common
  import opened Events
  import opened ProcessTable
  import PS = ProcessScheduler
  import Runs = SchedulerRuns
  import SchedulerClass
  import opened SchedulerIdle
  import EventStore
  import opened Recovery

  class RunningProcess {
    const process: string
    const number: nat
    var finalized: bool
    var lease: Option<nat>

    constructor (process: string, number: nat)
      ensures this.process == process && this.number == number
      ensures !finalized && lease == Some(number)
    {
      this.process, this.number, finalized, lease := process, number, false, Some(number);
    }

    /** The first caller, and only the first, owns the end of the process. */
    method ClaimCompletion() returns (won: bool)
      modifies this
      ensures finalized && lease == old(lease)
      ensures won <==> !old(finalized)
    {
      if finalized { return false; }
      finalized := true;
      won := true;
    }

    /** Take the lease out of the handle; a second call finds none. */
    method TakeLease() returns (taken: Option<nat>)
      modifies this
      ensures taken == old(lease) && lease == None && finalized == old(finalized)
    {
      taken := lease;
      lease := None;
    }
  }

  /** The four counters, in the order the records were met. */
  datatype Summary = Summary(recovered: nat, interrupted: nat, lost: nat, recoveryRequired: nat,
                             records: seq<(string, Disposition)>)

  function CountEnded(done: seq<Disposition>, status: Status): nat {
    if done == [] then 0
    else
      var last := done[|done| - 1];
      CountEnded(done[..|done| - 1], status) + (if last.Ended? && last.status == status then 1 else 0)
  }

  /** The summary after one more record. */
  function Counted(s: Summary, p: string, d: Disposition): Summary {
    var listed := s.(records := s.records + [(p, d)]);
    match d
    case Adopted(_) => listed.(recovered := s.recovered + 1)
    case Ended(status, _) =>
      if status == Interrupted then listed.(interrupted := s.interrupted + 1)
      else if status == Lost then listed.(lost := s.lost + 1)
      else listed.(recoveryRequired := s.recoveryRequired + 1)
  }

  predicate OneOfFour(d: Disposition) {
    d.Adopted? || d.status == Interrupted || d.status == Lost || d.status == RecoveryRequired
  }

  /** Each counter is the number of records with its disposition, and together they count every record. */
  ghost predicate Tallies(s: Summary, records: seq<Listed>, done: seq<Disposition>) {
    && |s.records| == |done| <= |records|
    && (forall i :: 0 <= i < |done| ==> s.records[i] == (records[i].id, done[i]))
    && s.recovered == Survivors(done) && s.interrupted == CountEnded(done, Interrupted)
    && s.lost == CountEnded(done, Lost) && s.recoveryRequired == CountEnded(done, RecoveryRequired)
    && s.recovered + s.interrupted + s.lost + s.recoveryRequired == |done|
  }

  lemma TallyStep(s: Summary, records: seq<Listed>, done: seq<Disposition>, d: Disposition)
    requires |done| < |records| && Tallies(s, records, done) && OneOfFour(d)
    ensures Tallies(Counted(s, records[|done|].id, d), records, done + [d])
  {
    hide CountEnded, Survivors;
    CountStep(done, d, Interrupted);
    CountStep(done, d, Lost);
    CountStep(done, d, RecoveryRequired);
  }

  lemma CountStep(done: seq<Disposition>, d: Disposition, status: Status)
    ensures CountEnded(done + [d], status) ==
            CountEnded(done, status) + (if d.Ended? && d.status == status then 1 else 0)
    ensures Survivors(done + [d]) == Survivors(done) + (if d.Adopted? then 1 else 0)
  {
    assert (done + [d])[..|done|] == done;
  }

  /** The manager after the undisturbed end of one process. */
  ghost function Finished(q: PS.QueuePolicy, m: State, p: string, lease: nat, ending: Ending, logged: bool,
                          now: int): State {
    State(Record(m.table, p, ending, logged, now), Runs.Next(q, m.sched, Runs.Release(lease)), m.running - {p})
  }

  class ProcessManager {
    const scheduler: SchedulerClass.Scheduler
    const store: EventStore.EventStore
    var running: map<string, RunningProcess>

    ghost predicate Valid()
      reads this, scheduler, store
    {
      scheduler.Valid() && store.Valid()
    }

    ghost function Abstract(): State
      reads this, scheduler, store
    {
      State(store.Contents(), scheduler.Abstract(), map p | p in running :: running[p].number)
    }

    constructor (scheduler: SchedulerClass.Scheduler, store: EventStore.EventStore)
      ensures this.scheduler == scheduler && this.store == store && running == map[]
    {
      this.scheduler, this.store, running := scheduler, store, map[];
    }

    /** End a process in the table: through the event store, or in the row alone when that is off or fails. */
    method RecordEnd(p: string, ending: Ending, logged: bool, now: int)
      requires Valid() && ending.status.Terminal()
      modifies store
      ensures Valid() && Abstract() == old(Abstract()).(table := Record(old(store.Contents()), p, ending, logged, now))
    {
      hide LogInv, PS.Inv;
      if logged {
        var _ := store.TransitionProcess(p, ending, now);
      } else if p in store.rows {
        store.rows := store.rows[p := EndedRow(store.rows[p], ending)];
      }
    }

    /**
     The uninterrupted body that the watchdog, the poller, cancel and shutdown
     share: only the caller that wins the claim writes the row, drops the table
     entry and gives the lease back.
     */
    method FinishProcess(rp: RunningProcess, ending: Ending, logged: bool, now: int) returns (won: bool)
      requires Valid() && ending.status.Terminal()
      modifies this, store, scheduler, rp
      ensures Valid() && rp.finalized && (won <==> !old(rp.finalized))
      ensures !won ==> Abstract() == old(Abstract()) && rp.lease == old(rp.lease)
      ensures won ==> rp.lease == None
      ensures won && old(rp.lease).Some? ==>
                Abstract() == Finished(scheduler.policy, old(Abstract()), rp.process, old(rp.lease).value, ending,
                                       logged, now)
      ensures won && old(rp.lease).None? ==>
                Abstract() == old(Abstract()).(table := Record(old(store.Contents()), rp.process, ending, logged, now),
                                               running := old(Abstract()).running - {rp.process})
    {
      hide LogInv, PS.Inv, PS.GrantAll;
      won := rp.ClaimCompletion();
      if !won { return; }
      RecordEnd(rp.process, ending, logged, now);
      running := running - {rp.process};
      var lease := rp.TakeLease();
      if lease.Some? {
        scheduler.Release(lease.value);
      }
    }

    /** Take back a process whose identity survived the restart, if the scheduler admits it at once. */
    method AdoptRecoveredProcess(p: string, row: Row, probe: Probe) returns (adopted: bool)
      requires Valid()
      modifies this, store, scheduler
      ensures Valid() && (Abstract(), adopted) == Adopt(scheduler.policy, old(Abstract()), p, row, probe)
      ensures adopted && p !in old(running) ==>
                p in running && fresh(running[p]) && running[p].process == p && !running[p].finalized
                    && running[p].lease == Some(running[p].number)
    {
      hide LogInv, PS.Inv, PS.Admission, PS.GrantAll;
      if !IsProcessId(p) || row.workspace == "" || Pid(row) <= 0 || !HasIdentity(row) || !probe.aliveAgain
          || probe.identityAgain != row.identity {
        assert row.workspace == "" ==> Blank(row.workspace);
        return false;
      }
      var admission := scheduler.TryAcquire(row.workspace, WriteKey(row.workspace), 100, 0);
      if admission.Refused? { return false; }
      if p in running {
        scheduler.Release(admission.lease);
        return true;
      }
      var rp := new RunningProcess(p, admission.lease);
      running := running[p := rp];
      assert Abstract().running == old(Abstract()).running[p := admission.lease];
      if probe.logged {
        var _ := store.Insert(StartedDraft(p, row), probe.now);
      }
      adopted := true;
    }

    /** The disposition of one record. */
    method RecoverRecord(r: Listed, probe: Probe) returns (d: Disposition)
      requires Valid()
      modifies this, store, scheduler
      ensures Valid() && (Abstract(), d) == RecoverOne(scheduler.policy, old(Abstract()), r.id, r.row, probe)
    {
      hide LogInv, PS.Inv, PS.Admission, Adopt, Record;
      var verdict := Assess(r.row, probe);
      if verdict.Some? {
        d := Ended(verdict.value.0, verdict.value.1);
        RecordEnd(r.id, Failure(d.status, d.reason), probe.logged, probe.now);
        return;
      }
      var adopted := AdoptRecoveredProcess(r.id, r.row, probe);
      if adopted {
        d := Adopted(Noted(probe));
        if r.id in store.rows {
          store.rows := store.rows[r.id := Touched(store.rows[r.id], Noted(probe))];
        }
      } else {
        d := Ended(RecoveryRequired, "monitor_adoption_failed");
        RecordEnd(r.id, Failure(d.status, d.reason), probe.logged, probe.now);
      }
    }

    /** Reconcile every listed record; the four counters add up to the number of records. */
    method RecoverProcesses(records: seq<Listed>, probes: seq<Probe>) returns (summary: Summary,
                            ghost done: seq<Disposition>)
      requires Valid() && |records| == |probes|
      modifies this, store, scheduler
      ensures Valid() && (Abstract(), done) ==
              RecoverUpTo(scheduler.policy, old(Abstract()), records, probes, |records|)
      ensures |done| == |records| && Tallies(summary, records, done)
    {
      hide LogInv, PS.Inv, RecoverOne, Tallies;
      summary, done := Summary(0, 0, 0, 0, []), [];
      TallyNone(records);
      for i := 0 to |records|
        invariant Valid() && |done| == i && Tallies(summary, records, done)
        invariant (Abstract(), done) == RecoverUpTo(scheduler.policy, old(Abstract()), records, probes, i)
      {
        DispositionIsOneOfFour(scheduler.policy, Abstract(), records[i].id, records[i].row, probes[i]);
        var d := RecoverRecord(records[i], probes[i]);
        TallyStep(summary, records, done, d);
        summary := Counted(summary, records[i].id, d);
        done := done + [d];
      }
    }
  }

  lemma TallyNone(records: seq<Listed>)
    ensures Tallies(Summary(0, 0, 0, 0, []), records, [])
  {
  }

  lemma DispositionIsOneOfFour(q: PS.QueuePolicy, s: State, p: string, row: Row, probe: Probe)
    ensures OneOfFour(RecoverOne(q, s, p, row, probe).1)
  {
    hide Adopt, Record;
  }
}
