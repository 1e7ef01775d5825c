/**
 The manager's routines are runs of the interleaving model: an undisturbed end is
 the claimer's steps, and recovery after a crash is a sequence of the recovery
 steps, so what holds of every interleaving holds of them.
 */
module Simulation {
  import opened Common
  import opened Events
  import opened ProcessTable
  import PS = ProcessScheduler
  import Runs = SchedulerRuns
  import Sets = SchedulerSets
  import opened SchedulerIdle
  import L = Lifecycle
  import R = Recovery
  import PM = ProcessManager

  /** The manager's state as the interleaving model sees it. */
  ghost predicate Same(l: L.State, m: R.State) {
    && l.table == m.table && l.sched == m.sched
    && m.running == Numbers(l.handles, l.running)
  }

  // ------------------------------------------------------------------ ending a process

  /** What the manager's shared finisher body does is the claim followed by the claimer's own steps. */
  lemma FinishIsARun(q: PS.QueuePolicy, steps: seq<L.Step>, m: R.State, p: string, e: Ending, logged: bool, now: int)
    requires q.Valid() && e.status.Terminal() && Same(L.Run(q, steps), m)
    requires var s := L.Run(q, steps); p in s.handles && !s.handles[p].finalized
    ensures var s := L.Run(q, steps);
            && p in m.running && m.running[p] == s.handles[p].number
            && Same(L.RunOut(q, L.Next(q, s, L.Claim(p, e)), |s.finishers|, logged, now),
                    PM.Finished(q, m, p, s.handles[p].number, e, logged, now))
  {
    hide L.Run, L.RunOut, L.Next, L.Inv, Record, Runs.Next;
    var s := L.Run(q, steps);
    L.RunKeepsInv(q, steps);
    LiveIsRunning(q, s, p);
    L.UninterruptedFinish(q, steps, p, e, logged, now);
    OneLess(s.handles, s.running, p);
  }

  function Numbers(handles: map<string, L.Handle>, running: set<string>): map<string, nat> {
    map x | x in running && x in handles :: handles[x].number
  }

  lemma OneLess(handles: map<string, L.Handle>, running: set<string>, p: string)
    requires p in handles
    ensures Numbers(handles[p := L.Handle(true, None, handles[p].number)], running - {p}) ==
            Numbers(handles, running) - {p}
  {
  }

  lemma OneMore(handles: map<string, L.Handle>, running: set<string>, p: string, n: nat)
    ensures Numbers(handles[p := L.Handle(false, Some(n), n)], running + {p}) == Numbers(handles, running)[p := n]
  {
  }

  lemma LiveIsRunning(q: PS.QueuePolicy, s: L.State, p: string)
    requires L.Inv(q, s) && p in s.handles && !s.handles[p].finalized
    ensures p in s.running
  {
    hide L.SchedOk, L.HeldOk, L.SpawnsOk, L.FinishersOk, L.ExitsOk, L.ReleasesOk;
  }

  // --------------------------------------------------------------- recovering a record

  /** Nobody but recovery is at work, and nobody knows this process. */
  ghost predicate Unknown(l: L.State, p: string, row: Row) {
    && p in l.table.rows && l.table.rows[p] == row && !row.status.Terminal()
    && p !in l.spawns && p !in l.handles && p !in l.running
  }

  ghost function RunOn(q: PS.QueuePolicy, l: L.State, steps: seq<L.Step>): L.State
    decreases |steps|
  {
    if steps == [] then l else RunOn(q, L.Next(q, l, steps[0]), steps[1..])
  }

  lemma {:induction false} RunOnAdds(q: PS.QueuePolicy, l: L.State, a: seq<L.Step>, b: seq<L.Step>)
    ensures RunOn(q, l, a + b) == RunOn(q, RunOn(q, l, a), b)
    decreases |a|
  {
    hide L.Next;
    if a == [] {
      assert a + b == b;
    } else {
      RunOnAdds(q, L.Next(q, l, a[0]), a[1..], b);
      assert (a + b)[1..] == a[1..] + b && (a + b)[0] == a[0];
    }
  }

  lemma {:induction false} RunGoesOn(q: PS.QueuePolicy, a: seq<L.Step>, b: seq<L.Step>)
    ensures L.Run(q, a + b) == RunOn(q, L.Run(q, a), b)
    decreases |b|
  {
    hide L.Next;
    if b == [] {
      assert a + b == a;
    } else {
      L.RunStep(q, a, b[0]);
      RunGoesOn(q, a + [b[0]], b[1..]);
      assert a + b == (a + [b[0]]) + b[1..];
    }
  }

  lemma OneStep(q: PS.QueuePolicy, l: L.State, step: L.Step)
    ensures RunOn(q, l, [step]) == L.Next(q, l, step)
  {
    hide L.Next;
    assert [step][1..] == [];
  }

  lemma RecoverStep(q: PS.QueuePolicy, l: L.State, m: R.State, p: string, row: Row, e: Ending, logged: bool, now: int)
    requires Same(l, m) && Unknown(l, p, row) && e.status.Terminal()
    ensures var r := L.Next(q, l, L.Recover(p, e, logged, now));
            && Same(r, m.(table := Record(m.table, p, e, logged, now)))
            && r.spawns == l.spawns && r.handles == l.handles && r.running == l.running
  {
    hide Record, L.NextSpawn, L.NextFinish;
  }

  lemma AdoptStep(q: PS.QueuePolicy, l: L.State, m: R.State, p: string, row: Row)
    requires Same(l, m) && Unknown(l, p, row) && row.status == Running && PS.Inv(q, l.sched)
    ensures var r := L.Next(q, l, L.Adopt(p, WriteKey(row.workspace)));
            var (sched, admitted) := PS.Admission(q, m.sched, row.workspace, WriteKey(row.workspace), 100);
            var n := |m.sched.callers| + 1;
            && r.spawns == l.spawns && r.table == l.table
            && (admitted ==>
                  && Same(r, R.State(m.table, sched, m.running[p := n]))
                  && r.handles == l.handles[p := L.Handle(false, Some(n), n)])
            && (!admitted ==> Same(r, m.(sched := sched)) && Unknown(r, p, row) && r.handles == l.handles)
            && r.running <= l.running + {p}
  {
    hide L.Next, PS.Admission, PS.Inv, WriteKey, Numbers, PS.GrantAll, PS.GiveUp;
    var ws, n := row.workspace, |m.sched.callers| + 1;
    AdoptShape(q, l, p, row, WriteKey(ws));
    Sets.AdmissionShape(q, m.sched, ws, WriteKey(ws), 100);
    OneMore(l.handles, l.running, p, n);
  }

  lemma AdoptShape(q: PS.QueuePolicy, l: L.State, p: string, row: Row, key: Option<PS.ConcurrencyKey>)
    requires Unknown(l, p, row) && row.status == Running
    ensures var n := |l.sched.callers| + 1;
            var arrived := PS.GrantAll(q, PS.Enqueue(l.sched, row.workspace, key, 100));
            L.Next(q, l, L.Adopt(p, key)) ==
            if n in arrived.active
            then l.(sched := arrived, running := l.running + {p},
                    handles := l.handles[p := L.Handle(false, Some(n), n)])
            else l.(sched := PS.GrantAll(q, PS.GiveUp(arrived, row.workspace, n)))
  {
    hide L.NextSpawn, L.NextFinish, PS.GrantAll, PS.GiveUp, PS.Enqueue;
  }

  /** The event and the note that follow an adoption. */
  lemma AfterAdoption(q: PS.QueuePolicy, l: L.State, m: R.State, p: string, row: Row, touch: Touch, logged: bool,
                      now: int)
    requires Same(l, m) && p in l.table.rows && p in l.handles
    ensures var emitted := if logged then L.Next(q, l, L.Emit(R.StartedDraft(p, row), now)) else l;
            var r := L.Next(q, emitted, L.Beat(p, touch));
            var log := if logged then Append(m.table.log, R.StartedDraft(p, row), now) else m.table.log;
            && Same(r, m.(table := Table(log, m.table.rows[p := Touched(m.table.rows[p], touch)])))
            && r.spawns == l.spawns && r.handles == l.handles && r.running == l.running
  {
    hide L.NextSpawn, L.NextFinish, Append;
  }

  /** What recovery does with one record is a run of the interleaving model. */
  lemma RecordIsARun(q: PS.QueuePolicy, l: L.State, m: R.State, p: string, row: Row, probe: R.Probe)
      returns (steps: seq<L.Step>)
    requires Same(l, m) && Unknown(l, p, row) && PS.Inv(q, l.sched)
    ensures var r := RunOn(q, l, steps);
            && Same(r, R.RecoverOne(q, m, p, row, probe).0)
            && r.spawns == l.spawns && r.handles.Keys <= l.handles.Keys + {p} && r.running <= l.running + {p}
  {
    hide L.Next, Record, PS.Admission, WriteKey, Append, RunOn;
    var verdict := R.Assess(row, probe);
    var failed := R.Failure(RecoveryRequired, "monitor_adoption_failed");
    if verdict.Some? {
      var e := R.Failure(verdict.value.0, verdict.value.1);
      RecoverStep(q, l, m, p, row, e, probe.logged, probe.now);
      steps := [L.Recover(p, e, probe.logged, probe.now)];
      OneStep(q, l, steps[0]);
    } else if !R.Adoptable(p, row, probe) {
      RecoverStep(q, l, m, p, row, failed, probe.logged, probe.now);
      steps := [L.Recover(p, failed, probe.logged, probe.now)];
      OneStep(q, l, steps[0]);
    } else {
      AdoptStep(q, l, m, p, row);
      var adopt := L.Adopt(p, WriteKey(row.workspace));
      var (sched, admitted) := PS.Admission(q, m.sched, row.workspace, WriteKey(row.workspace), 100);
      var a := L.Next(q, l, adopt);
      OneStep(q, l, adopt);
      if !admitted {
        RecoverStep(q, a, m.(sched := sched), p, row, failed, probe.logged, probe.now);
        steps := [adopt] + [L.Recover(p, failed, probe.logged, probe.now)];
        RunOnAdds(q, l, [adopt], [L.Recover(p, failed, probe.logged, probe.now)]);
        OneStep(q, a, L.Recover(p, failed, probe.logged, probe.now));
      } else {
        var adopted := R.State(m.table, sched, m.running[p := |m.sched.callers| + 1]);
        AfterAdoption(q, a, adopted, p, row, R.Noted(probe), probe.logged, probe.now);
        var emit, beat := L.Emit(R.StartedDraft(p, row), probe.now), L.Beat(p, R.Noted(probe));
        if probe.logged {
          steps := ([adopt] + [emit]) + [beat];
          RunOnAdds(q, l, [adopt] + [emit], [beat]);
          RunOnAdds(q, l, [adopt], [emit]);
          OneStep(q, a, emit);
          OneStep(q, L.Next(q, a, emit), beat);
        } else {
          steps := [adopt] + [beat];
          RunOnAdds(q, l, [adopt], [beat]);
          OneStep(q, a, beat);
        }
        NotInTable(l, m, p);
      }
    }
  }

  lemma NotInTable(l: L.State, m: R.State, p: string)
    requires Same(l, m) && p !in l.running
    ensures p !in m.running
  {
  }

  // ------------------------------------------------------------ recovering the whole list

  /** A service that has just crashed with these rows, and the manager that starts on them. */
  lemma JustCrashed(q: PS.QueuePolicy, before: seq<L.Step>, records: seq<R.Listed>)
    requires q.Valid() && R.Lists(records, L.Run(q, before).table.rows)
    ensures var l := L.Run(q, before + [L.Crash]);
            var m := R.State(l.table, PS.EMPTY, map[]);
            && Same(l, m) && R.FreshStart(q, m, records) && l.spawns == map[] && l.handles == map[] && l.running == {}
            && l.table == L.Run(q, before).table
  {
    L.SchedEmpty(q);
    hide L.Run, L.NextSpawn, L.NextFinish, PS.Inv, R.Lists;
    L.RunStep(q, before, L.Crash);
  }

  lemma UnknownStill(q: PS.QueuePolicy, s: R.State, l: L.State, t: R.State, records: seq<R.Listed>,
                     done: seq<R.Disposition>)
    requires R.Lists(records, s.table.rows) && R.Settled(q, s, t, records, done) && |done| < |records| && Same(l, t)
    requires l.spawns == map[]
    requires forall p :: p in l.handles || p in l.running ==> exists i :: 0 <= i < |done| && records[i].id == p
    ensures Unknown(l, records[|done|].id, records[|done|].row) && PS.Inv(q, l.sched)
  {
    R.NextRecord(q, s, t, records, done);
    R.DistinctIds(records, s.table.rows, |done|);
    hide R.Lists, R.RowsSettled, R.RunSettled, PS.Inv;
  }

  /**
   Recovery after any crash is a run of the interleaving model: there are steps that
   lead from the crashed service to exactly the state that recovering the first k
   records leaves, so every theorem about all runs holds of it.
   */
  lemma {:induction false} RecoveryIsARun(q: PS.QueuePolicy, before: seq<L.Step>, records: seq<R.Listed>,
                                          probes: seq<R.Probe>,
                                          k: nat) returns (steps: seq<L.Step>)
    requires q.Valid() && R.Lists(records, L.Run(q, before).table.rows) && k <= |records| == |probes|
    ensures var m := R.State(L.Run(q, before).table, PS.EMPTY, map[]);
            var l := L.Run(q, before + [L.Crash] + steps);
            && Same(l, R.RecoverUpTo(q, m, records, probes, k).0) && l.spawns == map[]
            && forall p :: p in l.handles || p in l.running ==> exists i :: 0 <= i < k && records[i].id == p
    decreases k
  {
    hide L.Run, L.Next, R.Lists, R.FreshStart, R.RecoverOne, R.Settled, Same, Unknown, PS.Inv, RunOn;
    var start := L.Run(q, before + [L.Crash]);
    var m := R.State(L.Run(q, before).table, PS.EMPTY, map[]);
    JustCrashed(q, before, records);
    if k == 0 {
      steps := [];
      assert before + [L.Crash] + steps == before + [L.Crash];
    } else {
      var front := RecoveryIsARun(q, before, records, probes, k - 1);
      var here := before + [L.Crash] + front;
      var (t, done) := R.RecoverUpTo(q, m, records, probes, k - 1);
      R.Settles(q, m, records, probes, k - 1);
      R.StartLists(q, m, records);
      UnknownStill(q, m, L.Run(q, here), t, records, done);
      var more := RecordIsARun(q, L.Run(q, here), t, records[k - 1].id, records[k - 1].row, probes[k - 1]);
      RunGoesOn(q, here, more);
      steps := front + more;
      assert before + [L.Crash] + steps == here + more;
    }
  }

  /** What holds of every run holds of recovery: still at most one terminal event for each process. */
  lemma RecoveredExits(q: PS.QueuePolicy, before: seq<L.Step>, records: seq<R.Listed>, probes: seq<R.Probe>, p: string)
    requires q.Valid() && R.Lists(records, L.Run(q, before).table.rows) && |records| == |probes|
    ensures var m := R.State(L.Run(q, before).table, PS.EMPTY, map[]);
            var t := R.RecoverUpTo(q, m, records, probes, |records|).0.table;
            var exits := Exits(t.log.history, p);
            && |exits| <= 1
            && (|exits| == 1 ==> p in t.rows && exits[0].payload.Exited? && exits[0].payload.status == t.rows[p].status)
  {
    var steps := RecoveryIsARun(q, before, records, probes, |records|);
    hide L.Run, R.Lists, R.RecoverUpTo, Exits;
    L.ExactlyOneExit(q, before + [L.Crash] + steps, p);
  }
}
