/**
 What one step of the scheduler does to the set of numbers inside it, waiting or
 admitted: the view its callers need.
 */
module SchedulerSets {
  import opened Common
  import opened ProcessScheduler
  import opened SchedulerRuns

  /** The callers that wait or hold a lease. */
  ghost function Inside(s: State): set<nat> {
    Waiting(s.queues) + s.active.Keys
  }

  /** Admissions moved some callers from waiting to active, and nothing else. */
  ghost predicate OnlyGrants(s: State, t: State) {
    && t.callers == s.callers
    && s.active.Keys <= t.active.Keys
    && Inside(t) == Inside(s)
  }

  /** Nobody waits and runs, and only numbers that were issued are inside. */
  lemma InsideSeparate(p: QueuePolicy, s: State)
    requires Inv(p, s)
    ensures Waiting(s.queues) !! s.active.Keys
    ensures forall n :: n in Inside(s) ==> 1 <= n <= |s.callers|
  {
    hide Inv, Accounted, QueuesOk, Fifo, LeasesBacked, Waiting, Numbers;
    InvParts(p, s);
    WaitingIssued(s.queues, s.callers);
    ActiveIssued(s.active, s.granted, s.queues, s.callers);
    WaitingApart(p, s);
  }

  lemma WaitingApart(p: QueuePolicy, s: State)
    requires Inv(p, s)
    ensures Waiting(s.queues) !! s.active.Keys
  {
    hide Inv, Waiting, Numbers;
    Conserved(p, s);
  }

  lemma WaitingIssued(queues: Queues, callers: seq<Request>)
    requires QueuesOk(queues, callers)
    ensures forall n :: n in Waiting(queues) ==> 1 <= n <= |callers|
  {
    hide QueuesOk, HasNumber;
    WaitingIsInQueue(queues);
    forall n | n in Waiting(queues) ensures 1 <= n <= |callers| {
      var ws :| ws in queues && HasNumber(queues[ws], n);
      QueueOfNumber(queues, callers, ws, n);
    }
  }

  lemma ActiveIssued(active: map<nat, Lease>, granted: seq<Waiter>, queues: Queues, callers: seq<Request>)
    requires LeasesBacked(active, granted) && Fifo(queues, granted, callers)
    ensures forall l :: l in active ==> 1 <= l <= |callers|
  {
    forall l | l in active ensures 1 <= l <= |callers| {
      var i :| 0 <= i < |granted| && granted[i].sequence == l;
      assert Genuine(granted[i], callers);
    }
  }

  lemma GrantOneOnlyGrants(p: QueuePolicy, s: State)
    requires Inv(p, s) && Grantable(p, s)
    ensures OnlyGrants(s, GrantOne(p, s))
  {
    var i: nat :| IsPick(p, s, i) && GrantOne(p, s) == GrantAt(s, i);
    InvParts(p, s);
    InvOrderOk(p, s);
    hide Inv;
    GrantAtOnlyGrants(s, i);
  }

  lemma GrantAtOnlyGrants(s: State, i: nat)
    requires QueuesOk(s.queues, s.callers) && OrderOk(s.order, s.queues) && i < |s.order|
    ensures OnlyGrants(s, GrantAt(s, i))
  {
    var t := GrantAt(s, i);
    GrantKeepsQueues(s, i);
    var n := s.queues[s.order[i]][0].sequence;
    hide QueuesOk, OrderOk, InQueue, SetQueue;
    WaitingIsInQueue(s.queues);
    WaitingIsInQueue(t.queues);
    assert Waiting(t.queues) == Waiting(s.queues) - {n};
    assert n in Waiting(s.queues);
    assert t.active.Keys == s.active.Keys + {n};
    SetQueueCallers(Turned(s, i), s.order[i], s.queues[s.order[i]][1..]);
  }

  lemma SetQueueCallers(s: State, ws: string, queue: seq<Waiter>)
    ensures SetQueue(s, ws, queue).callers == s.callers
  {}

  lemma {:induction false} GrantAllOnlyGrants(p: QueuePolicy, s: State)
    requires Inv(p, s)
    ensures OnlyGrants(s, GrantAll(p, s))
    decreases p.globalLimit - |s.active|
  {
    hide Inv, Grantable, GrantOne, Inside;
    if Grantable(p, s) {
      RoomWhenGrantable(p, s);
      GrantOneKeepsInv(p, s);
      GrantOneOnlyGrants(p, s);
      GrantAllOnlyGrants(p, GrantOne(p, s));
    }
  }

  lemma AcquireInside(p: QueuePolicy, s: State, ws: string, key: Option<ConcurrencyKey>, priority: int)
    requires Inv(p, s)
    ensures var t, n := Next(p, s, Acquire(ws, key, priority)), |s.callers| + 1;
            && t.callers == s.callers + [Request(ws, key, priority)]
            && Inside(t) == Inside(s) + {n} && s.active.Keys <= t.active.Keys
  {
    hide Inv, Inside, GrantAll;
    var mid := Enqueue(s, ws, key, priority);
    EnqueueKeepsInv(p, s, ws, key, priority);
    GrantAllOnlyGrants(p, mid);
    EnqueueInside(s, ws, key, priority);
  }

  lemma EnqueueInside(s: State, ws: string, key: Option<ConcurrencyKey>, priority: int)
    ensures Inside(Enqueue(s, ws, key, priority)) == Inside(s) + {|s.callers| + 1}
  {
    var t := Enqueue(s, ws, key, priority);
    var w := Waiter(ws, key, priority, |s.callers| + 1);
    EnqueueNumbers(s.queues, ws, w);
    WaitingIsInQueue(s.queues);
    WaitingIsInQueue(t.queues);
    hide InQueue;
    assert t.queues == s.queues[ws := QueueOf(s.queues, ws) + [w]];
    assert Waiting(t.queues) == Waiting(s.queues) + {w.sequence};
  }

  lemma ExpireInside(p: QueuePolicy, s: State, ws: string, n: nat)
    requires Inv(p, s) && n in Waiting(s.queues) && s.callers[n - 1].workspace == ws
    ensures var t := Next(p, s, Expire(ws, n));
            && t.callers == s.callers
            && Inside(t) == Inside(s) - {n} && s.active.Keys <= t.active.Keys
  {
    InsideSeparate(p, s);
    GiveUpInside(p, s, ws, n);
    GiveUpKeepsInv(p, s, ws, n);
    hide Inv, Inside, GrantAll;
    GrantAllOnlyGrants(p, GiveUp(s, ws, n));
  }

  lemma GiveUpInside(p: QueuePolicy, s: State, ws: string, n: nat)
    requires Inv(p, s) && n in Waiting(s.queues) && s.callers[n - 1].workspace == ws
    ensures var t := GiveUp(s, ws, n);
            && t.callers == s.callers && t.active == s.active
            && Inside(t) == Inside(s) - {n}
  {
    InvParts(p, s);
    InvOrderOk(p, s);
    InsideSeparate(p, s);
    hide Inv;
    GiveUpWaiting(s, ws, n);
  }

  lemma GiveUpWaiting(s: State, ws: string, n: nat)
    requires QueuesOk(s.queues, s.callers) && OrderOk(s.order, s.queues)
    requires n in Waiting(s.queues) && 1 <= n <= |s.callers| && s.callers[n - 1].workspace == ws
    ensures var t := GiveUp(s, ws, n);
            t.callers == s.callers && t.active == s.active && Waiting(t.queues) == Waiting(s.queues) - {n}
  {
    var t := GiveUp(s, ws, n);
    assert ws in s.queues && HasNumber(s.queues[ws], n) by {
      hide QueuesOk, OrderOk, HasNumber;
      WaitingIsInQueue(s.queues);
      var vs :| vs in s.queues && HasNumber(s.queues[vs], n);
      QueueOfNumber(s.queues, s.callers, vs, n);
    }
    assert QueueOk(s.queues[ws], ws, s.callers);
    DropRemoves(s.queues[ws], n);
    SetQueueKeeps(s, ws, Drop(s.queues[ws], n), n);
    hide QueuesOk, OrderOk, InQueue, HasNumber;
    WaitingIsInQueue(s.queues);
    WaitingIsInQueue(t.queues);
  }

  lemma WakeInside(p: QueuePolicy, s: State)
    requires Inv(p, s)
    ensures OnlyGrants(s, Next(p, s, Wake))
  {
    GrantAllOnlyGrants(p, s);
  }

  lemma ReleaseInside(p: QueuePolicy, s: State, lease: nat)
    requires Inv(p, s) && lease in s.active
    ensures var t := Next(p, s, Release(lease));
            && t.callers == s.callers
            && Inside(t) == Inside(s) - {lease} && s.active.Keys - {lease} <= t.active.Keys
  {
    hide Inv, GrantAll, Inside, Free, Waiting;
    InsideSeparate(p, s);
    FreeKeepsInv(p, s, lease);
    GrantAllOnlyGrants(p, Free(s, lease));
    FreeInside(s, lease);
  }

  lemma FreeInside(s: State, lease: nat)
    requires lease in s.active && lease !in Waiting(s.queues)
    ensures Free(s, lease).callers == s.callers && Free(s, lease).active.Keys == s.active.Keys - {lease}
    ensures Inside(Free(s, lease)) == Inside(s) - {lease}
  {
    hide Waiting;
  }

  // ------------------------------------------------------------- admission at once

  /** Admission by arrival shows in the granted list exactly if it shows among the active leases. */
  lemma AdmittedIsActive(p: QueuePolicy, s: State, ws: string, key: Option<ConcurrencyKey>, priority: int)
    requires Inv(p, s)
    ensures var t, n := GrantAll(p, Enqueue(s, ws, key, priority)), |s.callers| + 1;
            HasNumber(t.granted, n) <==> n in t.active
  {
    hide Inv, GrantAll, Enqueue, HasNumber, Waiting, Numbers;
    var mid, n := Enqueue(s, ws, key, priority), |s.callers| + 1;
    var t := GrantAll(p, mid);
    EnqueueKeepsInv(p, s, ws, key, priority);
    GrantAllKeepsInv(p, mid);
    GrantAllOnlyGrants(p, mid);
    EnqueueInside(s, ws, key, priority);
    Conserved(p, t);
    NumberedIsGranted(t.granted, n);
    InsideSplit(t);
  }

  lemma NumberedIsGranted(granted: seq<Waiter>, n: nat)
    ensures HasNumber(granted, n) <==> n in Numbers(granted)
  {
  }

  lemma InsideSplit(t: State)
    ensures forall n :: n in Inside(t) <==> n in Waiting(t.queues) || n in t.active
  {
    hide Waiting;
  }

  lemma AdmissionShape(p: QueuePolicy, s: State, ws: string, key: Option<ConcurrencyKey>, priority: int)
    requires Inv(p, s)
    ensures var n, arrived := |s.callers| + 1, GrantAll(p, Enqueue(s, ws, key, priority));
            Admission(p, s, ws, key, priority) ==
            if n in arrived.active then (arrived, true) else (GrantAll(p, GiveUp(arrived, ws, n)), false)
  {
    hide Inv, GrantAll, GiveUp, Enqueue, HasNumber;
    AdmittedIsActive(p, s, ws, key, priority);
  }

  /**
   Asking for admission without waiting: the caller is inside afterwards, with a lease,
   exactly if it was admitted, and otherwise left no trace among those inside.
   */
  lemma AdmissionInside(p: QueuePolicy, s: State, ws: string, key: Option<ConcurrencyKey>, priority: int)
    requires Inv(p, s)
    ensures var (t, admitted) := Admission(p, s, ws, key, priority);
            var n := |s.callers| + 1;
            && Inv(p, t) && t.callers == s.callers + [Request(ws, key, priority)] && n !in Inside(s)
            && Inside(t) == Inside(s) + (if admitted then {n} else {}) && (admitted <==> n in t.active)
            && s.active.Keys <= t.active.Keys
  {
    hide Inv, GrantAll, Enqueue, Inside;
    var n, arrived := |s.callers| + 1, Next(p, s, Acquire(ws, key, priority));
    AdmissionShape(p, s, ws, key, priority);
    AcquireInside(p, s, ws, key, priority);
    InsideSeparate(p, s);
    EnqueueKeepsInv(p, s, ws, key, priority);
    GrantAllKeepsInv(p, Enqueue(s, ws, key, priority));
    if n !in arrived.active {
      InsideSplit(arrived);
      ExpireInside(p, arrived, ws, n);
      GiveUpKeepsInv(p, arrived, ws, n);
      GrantAllKeepsInv(p, GiveUp(arrived, ws, n));
      NotInside(p, Next(p, arrived, Expire(ws, n)), n);
    }
  }

  lemma NotInside(p: QueuePolicy, s: State, n: nat)
    ensures n !in Inside(s) ==> n !in s.active
  {
  }
}
