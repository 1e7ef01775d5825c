/**
 The scheduler object: the fields the program keeps, changed in place by the
 critical sections, each proved against the specification in Scheduler.dfy.
 */
module SchedulerClass {
  import opened Common
  import opened ProcessScheduler

  datatype AcquireError = BlankWorkspace | NegativeTimeout | QueueTimeout

  datatype AcquireResult = Got(lease: nat) | Refused(error: AcquireError)

  /** Dropping from a queue looks at its waiters one by one. */
  lemma DropAt(queue: seq<Waiter>, i: nat, number: nat)
    requires i < |queue|
    ensures Drop(queue[i..], number) ==
            if queue[i].sequence == number then queue[i + 1..] else [queue[i]] + Drop(queue[i + 1..], number)
  {
    assert queue[i..][1..] == queue[i + 1..];
  }

  lemma RotateOnce(order: seq<string>, turns: nat)
    requires turns < |order|
    ensures var r := order[turns..] + order[..turns];
            r[0] == order[turns] && r[1..] + [r[0]] == order[turns + 1..] + order[..turns + 1]
  {
  }

  class Scheduler {
    const policy: QueuePolicy
    var queues: Queues
    var workspaceOrder: seq<string>
    var active: map<nat, Lease>
    var activeByWorkspace: map<string, nat>
    var sequence: nat
    ghost var callers: seq<Request>
    var granted: seq<Waiter>       // the waiter objects whose granted flag was set
    ghost var timedOut: set<nat>

    ghost function Abstract(): State
      reads this
    {
      State(queues, workspaceOrder, active, activeByWorkspace, callers, granted, timedOut)
    }

    ghost predicate Valid()
      reads this
    {
      Inv(policy, Abstract()) && sequence == |callers|
    }

    constructor (policy: QueuePolicy)
      requires policy.Valid()
      ensures Valid() && this.policy == policy && Abstract() == EMPTY
    {
      this.policy := policy;
      queues, workspaceOrder, active, activeByWorkspace, sequence := map[], [], map[], map[], 0;
      callers, granted, timedOut := [], [], {};
      new;
      forall ws ensures LeasesOf(active, ws) == {} {
      }
    }

    predicate HeadEligible(ws: string)
      reads this
      ensures HeadEligible(ws) <==> Ready(policy, Abstract(), ws)
    {
      && ws in queues && queues[ws] != []
      && var w := queues[ws][0];
         && CountOf(activeByWorkspace, w.workspace) < policy.perWorkspaceLimit
         && forall l :: l in active ==> !KeysClash(w.key, active[l].key)
    }

    /** The workspaces, in order, whose head may start now. */
    method EligibleWorkspaces() returns (eligible: seq<string>)
      ensures forall ws :: ws in eligible <==> ws in workspaceOrder && Ready(policy, Abstract(), ws)
    {
      eligible := [];
      var i := 0;
      while i < |workspaceOrder|
        invariant 0 <= i <= |workspaceOrder|
        invariant forall ws :: ws in eligible <==> ws in workspaceOrder[..i] && Ready(policy, Abstract(), ws)
      {
        assert workspaceOrder[..i + 1] == workspaceOrder[..i] + [workspaceOrder[i]];
        if HeadEligible(workspaceOrder[i]) {
          eligible := eligible + [workspaceOrder[i]];
        }
        i := i + 1;
      }
      assert workspaceOrder[..i] == workspaceOrder;
    }

    /** The highest priority among the heads of the given workspaces. */
    method HighestPriority(eligible: seq<string>) returns (highest: int)
      requires eligible != []
      requires forall ws :: ws in eligible ==> ws in queues && queues[ws] != []
      ensures exists ws :: ws in eligible && queues[ws][0].priority == highest
      ensures forall ws :: ws in eligible ==> queues[ws][0].priority <= highest
    {
      highest := queues[eligible[0]][0].priority;
      var i := 1;
      while i < |eligible|
        invariant 1 <= i <= |eligible|
        invariant exists ws :: ws in eligible && queues[ws][0].priority == highest
        invariant forall k :: 0 <= k < i ==> queues[eligible[k]][0].priority <= highest
      {
        if highest < queues[eligible[i]][0].priority {
          highest := queues[eligible[i]][0].priority;
        }
        i := i + 1;
      }
    }

    /** Among the ready workspaces, those of the highest priority are the ones at the top. */
    lemma TopAreHighest(s: State, eligible: seq<string>, highest: int, targets: set<string>)
      requires forall ws :: ws in eligible <==> ws in s.order && Ready(policy, s, ws)
      requires exists ws ::
                 ws in eligible && ws in s.queues && s.queues[ws] != [] && s.queues[ws][0].priority == highest
      requires forall ws :: ws in eligible ==>
                 ws in s.queues && s.queues[ws] != [] && s.queues[ws][0].priority <= highest
      requires forall ws :: ws in targets <==>
                 ws in eligible && ws in s.queues && s.queues[ws] != [] && s.queues[ws][0].priority == highest
      ensures forall ws :: ws in targets <==> ws in s.order && Top(policy, s, ws)
      ensures exists i :: 0 <= i < |s.order| && s.order[i] in targets
    {
      var best :| best in eligible && best in s.queues && s.queues[best] != [] && s.queues[best][0].priority == highest;
      hide Eligible;
      assert best in targets;
    }

    /** Rotate the order one place at a time until one of the targets has passed. */
    method RotateTo(targets: set<string>) returns (ws: string, ghost i: nat)
      requires exists k :: 0 <= k < |workspaceOrder| && workspaceOrder[k] in targets
      modifies this`workspaceOrder
      ensures i < |old(workspaceOrder)| && ws == old(workspaceOrder)[i] && ws in targets
      ensures forall j :: 0 <= j < i ==> old(workspaceOrder)[j] !in targets
      ensures workspaceOrder == old(workspaceOrder)[i + 1..] + old(workspaceOrder)[..i + 1]
    {
      ghost var order := workspaceOrder;
      var turns := 0;
      while turns < |workspaceOrder|
        invariant 0 <= turns <= |order| == |workspaceOrder|
        invariant workspaceOrder == order[turns..] + order[..turns]
        invariant forall j :: 0 <= j < turns ==> order[j] !in targets
        decreases |order| - turns
      {
        RotateOnce(order, turns);
        ws := workspaceOrder[0];
        workspaceOrder := workspaceOrder[1..] + [ws];
        turns := turns + 1;
        if ws in targets {
          i := turns - 1;
          return;
        }
      }
      assert false;
    }

    /**
     The workspace whose head is admitted next.  The order is rotated one place at
     a time until it is found, and left alone when nobody may start.
     */
    method NextCandidate() returns (candidate: Option<string>, ghost i: nat)
      requires OrderOk(workspaceOrder, queues)
      modifies this`workspaceOrder
      ensures candidate.None? ==>
                workspaceOrder == old(workspaceOrder) && forall ws :: !Ready(policy, old(Abstract()), ws)
      ensures candidate.Some? ==>
                && IsPick(policy, old(Abstract()), i)
                && candidate.value == old(workspaceOrder)[i]
                && Abstract() == Turned(old(Abstract()), i)
    {
      hide Eligible;
      ghost var start := Abstract();
      var eligible := EligibleWorkspaces();
      i := 0;
      if eligible == [] {
        return None, 0;
      }
      var highest := HighestPriority(eligible);
      var targets := set ws | ws in eligible && queues[ws][0].priority == highest;
      TopAreHighest(start, eligible, highest, targets);
      hide Top;
      var ws;
      ws, i := RotateTo(targets);
      candidate := Some(ws);
    }

    method RemoveWorkspaceFromOrder(ws: string)
      modifies this`workspaceOrder
      ensures workspaceOrder == Without(old(workspaceOrder), ws)
    {
      var i := 0;
      while i < |workspaceOrder| && workspaceOrder[i] != ws
        invariant 0 <= i <= |workspaceOrder|
        invariant workspaceOrder[..i] + Without(workspaceOrder[i..], ws) == Without(workspaceOrder, ws)
      {
        assert Without(workspaceOrder[i..], ws) == [workspaceOrder[i]] + Without(workspaceOrder[i + 1..], ws)
          by { assert workspaceOrder[i..][1..] == workspaceOrder[i + 1..]; }
        i := i + 1;
      }
      if i < |workspaceOrder| {
        assert workspaceOrder[i..][1..] == workspaceOrder[i + 1..];
        workspaceOrder := workspaceOrder[..i] + workspaceOrder[i + 1..];
      } else {
        assert workspaceOrder[i..] == [];
      }
    }

    /** Take the head of the queue of ws out and hand it a lease. */
    method AdmitHead(ws: string)
      requires ws in queues && queues[ws] != []
      modifies this`workspaceOrder, this`queues, this`active, this`activeByWorkspace, this`granted
      ensures var s := old(Abstract()); var w := s.queues[ws][0];
              Abstract() == SetQueue(s, ws, s.queues[ws][1..])
                              .(active := s.active[w.sequence := Lease(ws, w.key)],
                                counts := s.counts[ws := CountOf(s.counts, ws) + 1],
                                granted := s.granted + [w])
    {
      var waiter := queues[ws][0];
      if |queues[ws]| == 1 {
        queues := queues - {ws};
        RemoveWorkspaceFromOrder(ws);
      } else {
        queues := queues[ws := queues[ws][1..]];
      }
      active := active[waiter.sequence := Lease(ws, waiter.key)];
      activeByWorkspace := activeByWorkspace[ws := CountOf(activeByWorkspace, ws) + 1];
      granted := granted + [waiter];
    }

    /** Admit heads while there is room and one may start. */
    method GrantWaiters()
      requires Inv(policy, Abstract())
      modifies this`workspaceOrder, this`queues, this`active, this`activeByWorkspace, this`granted
      ensures Inv(policy, Abstract()) && Abstract() == GrantAll(policy, old(Abstract()))
    {
      hide Inv, IsPick, Ready, SetQueue, GrantAll, GrantAt, OrderOk;
      while |active| < policy.globalLimit
        invariant Inv(policy, Abstract())
        invariant GrantAll(policy, Abstract()) == GrantAll(policy, old(Abstract()))
        decreases policy.globalLimit - |active|
      {
        ghost var before := Abstract();
        InvOrderOk(policy, before);
        var candidate, i := NextCandidate();
        if candidate.None? {
          NothingToGrant(before);
          return;
        }
        PickHasHead(before, i);
        AdmitHead(candidate.value);
        AdmittedHead(before, i);
        GrantStep(before, i);
      }
      FullGrantsNothing(Abstract());
    }

    lemma PickHasHead(s: State, i: nat)
      requires IsPick(policy, s, i)
      ensures i < |s.order| && s.order[i] in s.queues && s.queues[s.order[i]] != []
    {
    }

    /** Rotating past position i and admitting the head found there. */
    lemma AdmittedHead(s: State, i: nat)
      requires i < |s.order| && s.order[i] in s.queues && s.queues[s.order[i]] != []
      ensures var t, ws := Turned(s, i), s.order[i];
              GrantAt(s, i) == SetQueue(t, ws, t.queues[ws][1..])
                                 .(active := t.active[t.queues[ws][0].sequence := Lease(ws, t.queues[ws][0].key)],
                                   counts := t.counts[ws := CountOf(t.counts, ws) + 1],
                                   granted := t.granted + [t.queues[ws][0]])
    {
      hide SetQueue;
    }

    lemma NothingToGrant(s: State)
      requires forall ws :: !Ready(policy, s, ws)
      ensures GrantAll(policy, s) == s
    {
      hide Ready;
    }

    lemma FullGrantsNothing(s: State)
      requires |s.active| >= policy.globalLimit
      ensures GrantAll(policy, s) == s
    {
    }

    lemma GrantStep(before: State, i: nat)
      requires Inv(policy, before) && |before.active| < policy.globalLimit && IsPick(policy, before, i)
      ensures var after := GrantAt(before, i);
              && Inv(policy, after) && |after.active| == |before.active| + 1
              && GrantAll(policy, after) == GrantAll(policy, before)
    {
      hide LineInv, LeaseInv, Grantable, GrantOne, GrantAt;
      GrantKeepsInv(policy, before, i);
      GrantOneIsGrantAt(before, i);
    }

    lemma GrantOneIsGrantAt(s: State, i: nat)
      requires IsPick(policy, s, i) && |s.active| < policy.globalLimit
      ensures Grantable(policy, s) && GrantOne(policy, s) == GrantAt(s, i)
    {
      var j: nat :| IsPick(policy, s, j) && GrantOne(policy, s) == GrantAt(s, j);
      PickUnique(policy, s, i, j);
    }

    /** The caller joins the queue of its workspace; what may start is admitted at once. */
    method Arrive(ws: string, key: Option<ConcurrencyKey>, priority: int) returns (number: nat)
      requires Valid()
      modifies this
      ensures Valid() && Abstract() == GrantAll(policy, Enqueue(old(Abstract()), ws, key, priority))
      ensures number == |callers| == |old(callers)| + 1
    {
      hide Inv, GrantAll;
      ghost var before := Abstract();
      EnqueueKeepsInv(policy, before, ws, key, priority);
      InvOrderOk(policy, before);
      sequence := sequence + 1;
      number := sequence;
      var waiter := Waiter(ws, key, priority, sequence);
      if ws !in queues {
        workspaceOrder := workspaceOrder + [ws];
      }
      queues := queues[ws := QueueOf(queues, ws) + [waiter]];
      callers := callers + [Request(ws, key, priority)];
      assert Abstract() == Enqueue(before, ws, key, priority);
      GrantWaiters();
    }

    /** A caller that was notified looks again. */
    method Wake()
      requires Valid()
      modifies this
      ensures Valid() && Abstract() == GrantAll(policy, old(Abstract()))
    {
      hide Inv, GrantAll;
      GrantWaiters();
    }

    /** The caller's deadline passed before it was admitted: it leaves its queue. */
    method Expire(ws: string, number: nat)
      requires Valid()
      modifies this
      ensures Valid() && Abstract() == GrantAll(policy, GiveUp(old(Abstract()), ws, number))
    {
      hide Inv, GrantAll;
      ghost var before := Abstract();
      GiveUpKeepsInv(policy, before, ws, number);
      RemoveWaiter(ws, number);
      GrantWaiters();
    }

    /** Position of the first waiter with this number, or the length of the queue. */
    method IndexOf(queue: seq<Waiter>, number: nat) returns (i: nat)
      ensures i <= |queue| && (i < |queue| <==> HasNumber(queue, number))
      ensures i < |queue| ==> queue[..i] + queue[i + 1..] == Drop(queue, number)
    {
      hide Drop;
      i := 0;
      assert queue[0..] == queue;
      while i < |queue| && queue[i].sequence != number
        invariant 0 <= i <= |queue|
        invariant queue[..i] + Drop(queue[i..], number) == Drop(queue, number)
        invariant forall k :: 0 <= k < i ==> queue[k].sequence != number
      {
        DropAt(queue, i, number);
        ghost var rest := Drop(queue[i + 1..], number);
        assert queue[..i] + ([queue[i]] + rest) == queue[..i + 1] + rest;
        i := i + 1;
      }
      if i < |queue| { DropAt(queue, i, number); }
    }

    method RemoveWaiter(ws: string, number: nat)
      modifies this
      ensures Abstract() == GiveUp(old(Abstract()), ws, number)
      ensures sequence == old(sequence)
    {
      if ws !in queues {
        return;
      }
      var queue := queues[ws];
      var i := IndexOf(queue, number);
      if i == |queue| {
        return;
      }
      hide HasNumber, Drop;
      queue := queue[..i] + queue[i + 1..];
      if queue == [] {
        queues := queues - {ws};
        RemoveWorkspaceFromOrder(ws);
      } else {
        queues := queues[ws := queue];
      }
      timedOut := timedOut + {number};
    }

    /** Give a lease back; a second release of the same lease changes nothing. */
    method Release(lease: nat)
      requires Valid()
      modifies this
      ensures Valid() && Abstract() == if lease in old(active) then GrantAll(policy, Free(old(Abstract()), lease))
                                       else old(Abstract())
    {
      hide Inv, GrantAll;
      ghost var before := Abstract();
      FreeKeepsInv(policy, before, lease);
      if lease !in active {
        return;
      }
      var ws := active[lease].workspace;
      active := active - {lease};
      var current := CountOf(activeByWorkspace, ws);
      if current <= 1 {
        activeByWorkspace := activeByWorkspace - {ws};
      } else {
        activeByWorkspace := activeByWorkspace[ws := current - 1];
      }
      GrantWaiters();
    }

    /**
     Admission with a timeout of zero: the caller is admitted at once or leaves.
     It is admitted exactly when its number is granted by the arrival itself.
     */
    method TryAcquire(ws: string, key: Option<ConcurrencyKey>, priority: int, timeout: int) returns (r: AcquireResult)
      requires Valid() && timeout <= 0
      modifies this
      ensures Valid()
      ensures Blank(ws) ==> r == Refused(BlankWorkspace) && Abstract() == old(Abstract())
      ensures !Blank(ws) && timeout < 0 ==> r == Refused(NegativeTimeout) && Abstract() == old(Abstract())
      ensures !Blank(ws) && timeout == 0 ==>
                && Abstract() == Admission(policy, old(Abstract()), ws, key, priority).0
                && r == if Admission(policy, old(Abstract()), ws, key, priority).1
                        then Got(|old(callers)| + 1) else Refused(QueueTimeout)
    {
      hide Inv, GrantAll;
      if Blank(ws) {
        return Refused(BlankWorkspace);
      }
      if timeout < 0 {
        return Refused(NegativeTimeout);
      }
      var number := Arrive(ws, key, priority);
      if exists i :: 0 <= i < |granted| && granted[i].sequence == number {
        r := Got(number);
      } else {
        Expire(ws, number);
        r := Refused(QueueTimeout);
      }
    }
  }
}
