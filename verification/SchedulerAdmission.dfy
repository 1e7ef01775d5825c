/**
 The scheduler in terms of what its callers asked for: which keys exclude each
 other, when a waiting caller may start, and who is admitted first.
 */
module SchedulerAdmission {
  import opened Common
  import opened ProcessScheduler
  import opened SchedulerRuns

  /** The calls of a run, in order; call number n is the entry at n - 1. */
  function Calls(steps: seq<Step>): seq<Request> {
    if steps == [] then []
    else
      (if steps[0].Acquire? then [Request(steps[0].ws, steps[0].key, steps[0].priority)] else []) + Calls(steps[1..])
  }

  lemma {:induction false} GrantKeepsCallers(p: QueuePolicy, s: State, n: int)
    ensures GrantUpTo(p, s, n).callers == s.callers
    decreases n
  {
    hide Grantable, GrantOne;
    if n > 0 && Grantable(p, s) {
      OneKeepsCallers(p, s);
      GrantKeepsCallers(p, GrantOne(p, s), n - 1);
    }
  }

  lemma OneKeepsCallers(p: QueuePolicy, s: State)
    requires Grantable(p, s)
    ensures GrantOne(p, s).callers == s.callers
  {
    var i: nat :| IsPick(p, s, i) && GrantOne(p, s) == GrantAt(s, i);
  }

  lemma GrantAllKeepsCallers(p: QueuePolicy, s: State)
    ensures GrantAll(p, s).callers == s.callers
  {
    GrantKeepsCallers(p, s, p.globalLimit - |s.active|);
  }

  lemma FirstCallers(s: State, ws: string, n: nat)
    ensures GiveUp(s, ws, n).callers == s.callers && Free(s, n).callers == s.callers
  {
  }

  lemma NextCallers(p: QueuePolicy, s: State, step: Step)
    ensures Next(p, s, step).callers ==
            s.callers + (if step.Acquire? then [Request(step.ws, step.key, step.priority)] else [])
  {
    hide GrantAll, GiveUp, Free;
    match step
    case Acquire(ws, key, priority) => GrantAllKeepsCallers(p, Enqueue(s, ws, key, priority));
    case Wake => GrantAllKeepsCallers(p, s);
    case Expire(ws, n) =>
      FirstCallers(s, ws, n);
      GrantAllKeepsCallers(p, GiveUp(s, ws, n));
    case Release(lease) =>
      FirstCallers(s, "", lease);
      GrantAllKeepsCallers(p, Free(s, lease));
  }

  lemma {:induction false} RunFromCallers(p: QueuePolicy, s: State, steps: seq<Step>)
    ensures RunFrom(p, s, steps).callers == s.callers + Calls(steps)
    decreases |steps|
  {
    hide Next;
    if steps != [] {
      NextCallers(p, s, steps[0]);
      RunFromCallers(p, Next(p, s, steps[0]), steps[1..]);
    }
  }

  lemma RunCallers(p: QueuePolicy, steps: seq<Step>)
    ensures Run(p, steps).callers == Calls(steps)
  {
    hide RunFrom, Calls;
    RunFromCallers(p, EMPTY, steps);
    assert EMPTY.callers + Calls(steps) == Calls(steps);
  }

  /** Each lease is for the workspace and the key that the call with its number asked for. */
  ghost predicate LeasesAsAsked(active: map<nat, Lease>, calls: seq<Request>) {
    forall l :: l in active ==>
      1 <= l <= |calls| && active[l] == Lease(calls[l - 1].workspace, calls[l - 1].key)
  }

  /** Each waiter has the workspace, key and priority that the call with its number asked for. */
  ghost predicate WaitersAsAsked(queues: Queues, calls: seq<Request>) {
    forall ws, i :: ws in queues && 0 <= i < |queues[ws]| ==>
      var w := queues[ws][i];
      1 <= w.sequence <= |calls| && calls[w.sequence - 1] == Request(ws, w.key, w.priority)
  }

  /** Waiters and leases carry what the calls with their numbers asked for. */
  lemma AsAsked(p: QueuePolicy, steps: seq<Step>)
    requires p.Valid()
    ensures LeasesAsAsked(Run(p, steps).active, Calls(steps)) && WaitersAsAsked(Run(p, steps).queues, Calls(steps))
  {
    hide *;
    RunCallers(p, steps);
    RunKeepsInv(p, steps);
    var s := Run(p, steps);
    InvParts(p, s);
    LeasesAsked(s);
    WaitersAsked(s);
  }

  lemma WaitersAsked(s: State)
    requires QueuesOk(s.queues, s.callers)
    ensures WaitersAsAsked(s.queues, s.callers)
  {
    forall ws, i | ws in s.queues && 0 <= i < |s.queues[ws]|
      ensures Genuine(s.queues[ws][i], s.callers) && s.queues[ws][i].workspace == ws
    {
      assert QueueOk(s.queues[ws], ws, s.callers);
    }
  }

  lemma LeasesAsked(s: State)
    requires Fifo(s.queues, s.granted, s.callers) && LeasesBacked(s.active, s.granted)
    ensures LeasesAsAsked(s.active, s.callers)
  {
    forall l | l in s.active
      ensures 1 <= l <= |s.callers| && s.active[l] == Lease(s.callers[l - 1].workspace, s.callers[l - 1].key)
    {
      var i :| 0 <= i < |s.granted| && s.granted[i].sequence == l
               && s.active[l] == Lease(s.granted[i].workspace, s.granted[i].key);
      assert Genuine(s.granted[i], s.callers);
    }
  }

  /**
   Key exclusion: in every reachable state two callers that run at the same time
   and asked for the same resource in the same scope both asked to read it only.
   */
  lemma KeysAreExclusive(p: QueuePolicy, steps: seq<Step>, l: nat, m: nat)
    requires p.Valid() && l in Run(p, steps).active && m in Run(p, steps).active && l != m
    ensures var calls := Calls(steps);
            && 1 <= l <= |calls| && 1 <= m <= |calls|
            && var a, b := calls[l - 1].key, calls[m - 1].key;
               a.Some? && b.Some? && a.value.scope == b.value.scope && a.value.resource == b.value.resource ==>
                 a.value.mode == Read && b.value.mode == Read
  {
    AsAsked(p, steps);
    KeysHold(p, steps);
  }

  lemma KeysHold(p: QueuePolicy, steps: seq<Step>)
    requires p.Valid()
    ensures KeysOk(Run(p, steps).active)
  {
    RunKeepsInv(p, steps);
  }

  /**
   When the caller at the head of a queue may start: its workspace is below its
   limit, and no active lease with a key of the same scope and resource writes, or
   stands beside a wish to write.
   */
  lemma HeadMayStart(p: QueuePolicy, s: State, ws: string)
    requires Inv(p, s) && ws in s.queues
    ensures s.queues[ws] != []
    ensures var key := s.queues[ws][0].key;
            Ready(p, s, ws) <==>
            && |set l | l in s.active && s.active[l].workspace == ws| < p.perWorkspaceLimit
            && forall l :: (&& l in s.active && key.Some? && s.active[l].key.Some?
                            && s.active[l].key.value.scope == key.value.scope
                            && s.active[l].key.value.resource == key.value.resource) ==>
                             key.value.mode == Read && s.active[l].key.value.mode == Read
  {
    assert QueueOk(s.queues[ws], ws, s.callers);
    assert LeasesOf(s.active, ws) == set l | l in s.active && s.active[l].workspace == ws;
    assert CountOf(s.counts, ws) == |LeasesOf(s.active, ws)|;
    hide QueuesOk, Fifo, Accounted, LeasesBacked, QuotasOk, KeysOk, OrderOk, CountsOk, LeasesOf;
  }

  /**
   Nobody waits in vain: in every reachable state the first caller of a waiting
   workspace is kept back by the global limit, by the limit of its workspace, or by
   an active lease on the resource it asked for, one of the two being to write.
   */
  lemma NobodyWaitsInVain(p: QueuePolicy, steps: seq<Step>, ws: string)
    requires p.Valid() && ws in Run(p, steps).queues
    ensures var s, calls := Run(p, steps), Calls(steps);
            && s.queues[ws] != [] && 1 <= s.queues[ws][0].sequence <= |calls|
            && var call := calls[s.queues[ws][0].sequence - 1];
               && call.workspace == ws
               && (|| |s.active| == p.globalLimit
                   || |set l | l in s.active && s.active[l].workspace == ws| == p.perWorkspaceLimit
                   || exists l :: && l in s.active && call.key.Some? && s.active[l].key.Some?
                                  && s.active[l].key.value.scope == call.key.value.scope
                                  && s.active[l].key.value.resource == call.key.value.resource
                                  && (call.key.value.mode == Write || s.active[l].key.value.mode == Write))
  {
    hide Inv, Ready, Run, Calls, Saturated;
    RunKeepsInv(p, steps);
    NobodyReady(p, Run(p, steps), ws);
    AsAsked(p, steps);
    var s := Run(p, steps);
    HeadMayStart(p, s, ws);
    WithinLimits(p, s, ws);
  }

  lemma NobodyReady(p: QueuePolicy, s: State, ws: string)
    requires Saturated(p, s)
    ensures |s.active| >= p.globalLimit || !Ready(p, s, ws)
  {
    hide Ready;
  }

  lemma WithinLimits(p: QueuePolicy, s: State, ws: string)
    requires Inv(p, s)
    ensures |s.active| <= p.globalLimit
    ensures |set l | l in s.active && s.active[l].workspace == ws| <= p.perWorkspaceLimit
  {
    assert LeasesOf(s.active, ws) == set l | l in s.active && s.active[l].workspace == ws;
  }

  /** Some waiter is admitted exactly if there is room and some head may start. */
  lemma SomebodyIsAdmitted(p: QueuePolicy, s: State)
    requires Inv(p, s)
    ensures Grantable(p, s) <==> |s.active| < p.globalLimit && exists ws :: Ready(p, s, ws)
  {
    hide LineInv, LeaseInv, Ready;
    InvOrderOk(p, s);
    if Grantable(p, s) {
      var i: nat :| IsPick(p, s, i);
      assert Ready(p, s, s.order[i]);
    } else {
      NoPickMeansNoneReady(p, s);
    }
  }

  /**
   Who is admitted: a head that may start, of the highest priority among those, and
   of the workspace that comes first in the order among those.  It gets its own key,
   its number leaves the queue, everybody else stays where he is, and the order is
   turned just past the workspace.
   */
  lemma FirstOfTheHighest(p: QueuePolicy, s: State) returns (i: nat)
    requires Inv(p, s) && Grantable(p, s)
    ensures i < |s.order| && Ready(p, s, s.order[i])
    ensures var ws, r := s.order[i], GrantOne(p, s);
            var w := s.queues[ws][0];
            && (forall j :: 0 <= j < |s.order| && Ready(p, s, s.order[j]) ==>
                  && s.queues[s.order[j]][0].priority <= w.priority
                  && (j < i ==> s.queues[s.order[j]][0].priority < w.priority))
            && r.granted == s.granted + [w] && w.sequence !in s.active
            && r.active == s.active[w.sequence := Lease(ws, w.key)]
            && (forall vs :: QueueOf(r.queues, vs) == if vs == ws then s.queues[ws][1..] else QueueOf(s.queues, vs))
            && r.order == s.order[i + 1..] + s.order[..i] + (if |s.queues[ws]| > 1 then [ws] else [])
            && r.callers == s.callers && r.timedOut == s.timedOut
  {
    i :| IsPick(p, s, i) && GrantOne(p, s) == GrantAt(s, i);
    hide GrantOne, GrantAt, Inv;
    InvOrderOk(p, s);
    PickIsHighest(p, s, i);
    NotYetActive(p, s, i);
    hide IsPick, Ready, Top;
    GrantedHead(s, i);
  }

  lemma GrantedHead(s: State, i: nat)
    requires OrderOk(s.order, s.queues) && i < |s.order| && s.queues[s.order[i]] != []
    ensures var ws, r := s.order[i], GrantAt(s, i);
            var w := s.queues[ws][0];
            && r.granted == s.granted + [w] && r.active == s.active[w.sequence := Lease(ws, w.key)]
            && (forall vs :: QueueOf(r.queues, vs) == if vs == ws then s.queues[ws][1..] else QueueOf(s.queues, vs))
            && r.order == s.order[i + 1..] + s.order[..i] + (if |s.queues[ws]| > 1 then [ws] else [])
            && r.callers == s.callers && r.timedOut == s.timedOut
  {
    TurnedWithout(s.order, i, s.queues);
    hide Without, OrderOk;
  }

  lemma PickIsHighest(p: QueuePolicy, s: State, i: nat)
    requires IsPick(p, s, i)
    ensures Ready(p, s, s.order[i])
    ensures forall j :: 0 <= j < |s.order| && Ready(p, s, s.order[j]) ==>
              && s.queues[s.order[j]][0].priority <= s.queues[s.order[i]][0].priority
              && (j < i ==> s.queues[s.order[j]][0].priority < s.queues[s.order[i]][0].priority)
  {
    hide Eligible;
  }

  lemma NotYetActive(p: QueuePolicy, s: State, i: nat)
    requires Inv(p, s) && i < |s.order| && s.order[i] in s.queues
    ensures s.queues[s.order[i]] != [] && s.queues[s.order[i]][0].sequence !in s.active
  {
    var ws := s.order[i];
    assert QueueOk(s.queues[ws], ws, s.callers);
    hide Inv;
    InvParts(p, s);
    WaitingApartAt(p, s, ws);
  }

  lemma WaitingApartAt(p: QueuePolicy, s: State, ws: string)
    requires Inv(p, s) && ws in s.queues && s.queues[ws] != []
    ensures s.queues[ws][0].sequence !in s.active
  {
    hide Inv, Waiting, Numbers;
    Conserved(p, s);
    HeadWaits(s.queues, ws);
  }

  lemma HeadWaits(queues: Queues, ws: string)
    requires ws in queues && queues[ws] != []
    ensures queues[ws][0].sequence in Waiting(queues)
  {
  }

  lemma TurnedWithout(order: seq<string>, i: nat, queues: Queues)
    requires OrderOk(order, queues) && i < |order|
    ensures Without(order[i + 1..] + order[..i + 1], order[i]) == order[i + 1..] + order[..i]
    ensures order[i + 1..] + order[..i + 1] == order[i + 1..] + order[..i] + [order[i]]
  {
    var front := order[i + 1..] + order[..i];
    assert order[i + 1..] + order[..i + 1] == front + [order[i]];
    forall j | 0 <= j < |front| ensures front[j] != order[i] {
    }
    WithoutLast(front, order[i]);
  }

  lemma {:induction false} WithoutLast(front: seq<string>, ws: string)
    requires ws !in front
    ensures Without(front + [ws], ws) == front
  {
    if front != [] {
      assert (front + [ws])[1..] == front[1..] + [ws];
      WithoutLast(front[1..], ws);
    }
  }
}
