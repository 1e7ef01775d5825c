/**
 The scheduler while nobody waits: when a caller that asks for the write key of its
 workspace is admitted at once, and that it leaves no trace otherwise.
 */
module SchedulerIdle {
  import opened Common
  import PS = ProcessScheduler

  function WriteKey(ws: string): Option<PS.ConcurrencyKey> {
    Some(PS.ConcurrencyKey("workspace", ws, PS.Write))
  }

  /** Nobody waits, the counters are right and every active lease holds the write key of its workspace. */
  ghost predicate Idle(q: PS.QueuePolicy, sched: PS.State) {
    && PS.Inv(q, sched)
    && sched.queues == map[] && sched.order == []
    && forall l :: l in sched.active ==> sched.active[l].key == WriteKey(sched.active[l].workspace)
  }

  /** Room on the machine, and no process of the workspace is running. */
  ghost predicate Room(q: PS.QueuePolicy, sched: PS.State, ws: string) {
    |sched.active| < q.globalLimit && forall l :: l in sched.active ==> sched.active[l].workspace != ws
  }

  lemma IdleParts(q: PS.QueuePolicy, sched: PS.State)
    requires Idle(q, sched)
    ensures PS.OrderOk(sched.order, sched.queues) && sched.order == [] && q.Valid()
            && PS.CountsOk(sched.active, sched.counts)
    ensures PS.Inv(q, sched)
    ensures PS.Accounted(sched.queues, sched.granted, sched.timedOut, |sched.callers|)
    ensures PS.Fifo(sched.queues, sched.granted, sched.callers)
  {
  }

  lemma ArrivalReady(q: PS.QueuePolicy, sched: PS.State, ws: string)
    requires sched.queues == map[] && sched.order == [] && q.Valid() && PS.CountsOk(sched.active, sched.counts)
    requires forall l :: l in sched.active ==> sched.active[l].key == WriteKey(sched.active[l].workspace)
    ensures var t := PS.Enqueue(sched, ws, WriteKey(ws), 100);
            PS.Ready(q, t, ws) <==> forall l :: l in sched.active ==> sched.active[l].workspace != ws
  {
    var t := PS.Enqueue(sched, ws, WriteKey(ws), 100);
    if forall l :: l in sched.active ==> sched.active[l].workspace != ws {
      assert PS.LeasesOf(sched.active, ws) == {};
      assert PS.CountOf(sched.counts, ws) == 0;
    }
  }

  /**
   With nobody else waiting, a caller is admitted exactly when there is room for it,
   and otherwise leaves no trace.
   */
  lemma AdmissionWhenIdle(q: PS.QueuePolicy, sched: PS.State, ws: string)
    requires Idle(q, sched)
    ensures var (t, admitted) := PS.Admission(q, sched, ws, WriteKey(ws), 100);
            && (admitted <==> Room(q, sched, ws))
            && Idle(q, t) && t.callers == sched.callers + [PS.Request(ws, WriteKey(ws), 100)]
            && t.active == if admitted then sched.active[|sched.callers| + 1 := PS.Lease(ws, WriteKey(ws))]
                else sched.active
  {
    hide PS.Inv, PS.GrantUpTo, PS.GiveUp;
    IdleParts(q, sched);
    var n := |sched.callers| + 1;
    var t := PS.Enqueue(sched, ws, WriteKey(ws), 100);
    ArrivalReady(q, sched, ws);
    PS.EnqueueKeepsInv(q, sched, ws, WriteKey(ws), 100);
    AloneInLine(sched, ws);
    if Room(q, sched, ws) {
      GrantsTheOne(q, t, ws, n);
    } else {
      NoGrant(q, t, ws);
      NotGranted(sched, n);
      Withdrawn(q, sched, t, ws, n);
    }
  }

  lemma AloneInLine(sched: PS.State, ws: string)
    requires sched.queues == map[] && sched.order == []
    ensures var t := PS.Enqueue(sched, ws, WriteKey(ws), 100);
            t.order == [ws] && t.queues == map[ws := [PS.Waiter(ws, WriteKey(ws), 100, |sched.callers| + 1)]]
  {
    assert PS.QueueOf(sched.queues, ws) == [];
    var t, w := PS.Enqueue(sched, ws, WriteKey(ws), 100), PS.Waiter(ws, WriteKey(ws), 100, |sched.callers| + 1);
    assert t.queues.Keys == {ws} && t.queues[ws] == [w];
  }

  lemma NotGranted(sched: PS.State, n: nat)
    requires PS.Fifo(sched.queues, sched.granted, sched.callers) && n > |sched.callers|
    ensures !PS.HasNumber(sched.granted, n)
  {
    forall i | 0 <= i < |sched.granted| ensures sched.granted[i].sequence != n {
      assert PS.Genuine(sched.granted[i], sched.callers);
    }
  }

  lemma NoGrant(q: PS.QueuePolicy, t: PS.State, ws: string)
    requires t.order == [ws] && (|t.active| >= q.globalLimit || !PS.Ready(q, t, ws))
    ensures PS.GrantAll(q, t) == t
  {
    forall i: nat ensures PS.IsPick(q, t, i) ==> |t.active| >= q.globalLimit {
      if i == 0 { assert t.order[i] == ws; }
    }
  }

  lemma GrantsTheOne(q: PS.QueuePolicy, t: PS.State, ws: string, n: nat)
    requires t.order == [ws] && |t.active| < q.globalLimit && PS.Ready(q, t, ws)
    requires t.queues == map[ws := [PS.Waiter(ws, WriteKey(ws), 100, n)]] && PS.Inv(q, t)
    requires forall l :: l in t.active ==> t.active[l].key == WriteKey(t.active[l].workspace)
    ensures var r := PS.GrantAll(q, t);
            && r.active == t.active[n := PS.Lease(ws, WriteKey(ws))] && r.callers == t.callers
            && PS.HasNumber(r.granted, n) && Idle(q, r)
  {
    hide PS.Inv, PS.IsPick, PS.GrantAt;
    PickTheOne(q, t, ws);
    GrantAtTheOne(t, ws, n);
    var one := PS.GrantAt(t, 0);
    GrantNobody(q, one, q.globalLimit - |t.active| - 1);
    PS.GrantAllKeepsInv(q, t);
  }

  lemma PickTheOne(q: PS.QueuePolicy, t: PS.State, ws: string)
    requires t.order == [ws] && |t.active| < q.globalLimit && PS.Ready(q, t, ws)
    ensures PS.Grantable(q, t) && PS.GrantOne(q, t) == PS.GrantAt(t, 0)
  {
    assert PS.Top(q, t, t.order[0]);
    assert PS.IsPick(q, t, 0);
    var i: nat :| PS.IsPick(q, t, i) && PS.GrantOne(q, t) == PS.GrantAt(t, i);
    PS.PickUnique(q, t, i, 0);
  }

  lemma GrantAtTheOne(t: PS.State, ws: string, n: nat)
    requires t.order == [ws] && t.queues == map[ws := [PS.Waiter(ws, WriteKey(ws), 100, n)]]
    ensures var one := PS.GrantAt(t, 0);
            && one.order == [] && one.queues == map[] && one.callers == t.callers
            && one.active == t.active[n := PS.Lease(ws, WriteKey(ws))]
            && PS.HasNumber(one.granted, n)
  {
    var one := PS.GrantAt(t, 0);
    assert PS.Turned(t, 0).order == [ws];
    assert PS.Without([ws], ws) == [];
    assert one.granted[|t.granted|].sequence == n;
  }

  lemma GrantNobody(q: PS.QueuePolicy, t: PS.State, n: int)
    requires t.order == []
    ensures PS.GrantUpTo(q, t, n) == t
  {
    forall i: nat ensures !PS.IsPick(q, t, i) {
    }
  }

  /** The caller that was not admitted leaves the queue it alone was in. */
  lemma Withdrawn(q: PS.QueuePolicy, sched: PS.State, t: PS.State, ws: string, n: nat)
    requires Idle(q, sched) && n == |sched.callers| + 1
    requires t == PS.Enqueue(sched, ws, WriteKey(ws), 100) && PS.Inv(q, t)
    ensures var r := PS.GrantAll(q, PS.GiveUp(t, ws, n));
            Idle(q, r) && r.active == sched.active && r.callers == t.callers
  {
    hide PS.Inv, PS.GiveUp, PS.Enqueue;
    IdleParts(q, sched);
    AloneInLine(sched, ws);
    AloneGivesUp(t, ws, n);
    var r := PS.GiveUp(t, ws, n);
    PS.GiveUpKeepsInv(q, t, ws, n);
    GrantNobody(q, r, q.globalLimit - |r.active|);
    ArrivalActive(sched, ws);
  }

  lemma ArrivalActive(sched: PS.State, ws: string)
    ensures PS.Enqueue(sched, ws, WriteKey(ws), 100).active == sched.active
  {
  }

  lemma AloneGivesUp(t: PS.State, ws: string, n: nat)
    requires t.order == [ws] && t.queues == map[ws := [PS.Waiter(ws, WriteKey(ws), 100, n)]]
    ensures var r := PS.GiveUp(t, ws, n);
            r.order == [] && r.queues == map[] && r.active == t.active && r.callers == t.callers
  {
    var w := PS.Waiter(ws, WriteKey(ws), 100, n);
    assert t.queues[ws][0].sequence == n;
    assert PS.HasNumber(t.queues[ws], n);
    assert PS.Drop([w], n) == [];
    assert PS.Without([ws], ws) == [];
  }
}
