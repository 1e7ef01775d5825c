/**
 What holds in every run of the scheduler: safety, work conservation, draining,
 conservation of waiters, and the bound on how often a waiter is overtaken.
 */
module SchedulerRuns {
  import opened Common
  import opened ProcessScheduler

  // -------------------------------------------------------------------- runs

  /** One critical section entered from outside. */
  datatype Step =
    | Acquire(ws: string, key: Option<ConcurrencyKey>, priority: int)
    | Wake
    | Expire(ws: string, number: nat)
    | Release(lease: nat)

  ghost function Next(p: QueuePolicy, s: State, step: Step): State {
    match step
    case Acquire(ws, key, priority) => GrantAll(p, Enqueue(s, ws, key, priority))
    case Wake => GrantAll(p, s)
    case Expire(ws, n) => GrantAll(p, GiveUp(s, ws, n))
    case Release(lease) => if lease in s.active then GrantAll(p, Free(s, lease)) else s
  }

  ghost function RunFrom(p: QueuePolicy, s: State, steps: seq<Step>): State
    decreases |steps|
  {
    if steps == [] then s else RunFrom(p, Next(p, s, steps[0]), steps[1..])
  }

  /** The state after a run from the empty scheduler. */
  ghost function Run(p: QueuePolicy, steps: seq<Step>): State {
    RunFrom(p, EMPTY, steps)
  }

  lemma NextKeepsInv(p: QueuePolicy, s: State, step: Step)
    requires Inv(p, s) && Saturated(p, s)
    ensures Inv(p, Next(p, s, step)) && Saturated(p, Next(p, s, step))
  {
    hide Inv;
    match step
    case Acquire(ws, key, priority) =>
      EnqueueKeepsInv(p, s, ws, key, priority);
      GrantAllKeepsInv(p, Enqueue(s, ws, key, priority));
    case Wake =>
      GrantAllKeepsInv(p, s);
    case Expire(ws, n) =>
      GiveUpKeepsInv(p, s, ws, n);
      GrantAllKeepsInv(p, GiveUp(s, ws, n));
    case Release(lease) =>
      FreeKeepsInv(p, s, lease);
      if lease in s.active {
        GrantAllKeepsInv(p, Free(s, lease));
      }
  }

  lemma {:induction false} RunFromKeepsInv(p: QueuePolicy, s: State, steps: seq<Step>)
    requires Inv(p, s) && Saturated(p, s)
    ensures Inv(p, RunFrom(p, s, steps)) && Saturated(p, RunFrom(p, s, steps))
    decreases |steps|
  {
    hide Inv, Saturated;
    if steps != [] {
      NextKeepsInv(p, s, steps[0]);
      RunFromKeepsInv(p, Next(p, s, steps[0]), steps[1..]);
    }
  }

  /** Every reachable state meets the invariant, and whenever the lock is free nothing more could be admitted. */
  lemma RunKeepsInv(p: QueuePolicy, steps: seq<Step>)
    requires p.Valid()
    ensures Inv(p, Run(p, steps)) && Saturated(p, Run(p, steps))
  {
    forall ws ensures LeasesOf(EMPTY.active, ws) == {} {
    }
    RunFromKeepsInv(p, EMPTY, steps);
  }

  /** Limits, key exclusion and the counters, spelled out for every reachable state. */
  lemma ReachableStatesAreSafe(p: QueuePolicy, steps: seq<Step>)
    requires p.Valid()
    ensures var s := Run(p, steps);
            && |s.active| <= p.globalLimit
            && (forall ws :: |LeasesOf(s.active, ws)| <= p.perWorkspaceLimit)
            && (forall l, m :: l in s.active && m in s.active && l != m ==>
                  var a, b := s.active[l].key, s.active[m].key;
                  a.Some? && b.Some? && a.value.scope == b.value.scope && a.value.resource == b.value.resource ==>
                    a.value.mode == Read && b.value.mode == Read)
            && (forall ws :: ws in s.counts <==> LeasesOf(s.active, ws) != {})
            && (forall ws :: ws in s.counts ==> s.counts[ws] == |LeasesOf(s.active, ws)|)
            && NoDuplicates(s.order) && (forall ws :: ws in s.order <==> ws in s.queues && s.queues[ws] != [])
  {
    RunKeepsInv(p, steps);
    var s := Run(p, steps);
    forall l, m | l in s.active && m in s.active && l != m ensures !KeysClash(s.active[l].key, s.active[m].key) {
    }
    forall ws
      ensures ws in s.counts <==> LeasesOf(s.active, ws) != {}
      ensures ws in s.counts ==> s.counts[ws] == |LeasesOf(s.active, ws)|
    {
      assert CountOf(s.counts, ws) == |LeasesOf(s.active, ws)|;
    }
    forall ws | ws in s.queues ensures s.queues[ws] != [] {
      assert QueueOk(s.queues[ws], ws, s.callers);
    }
  }

  // ------------------------------------------------- work conservation and drain

  function Waiting(queues: Queues): set<nat> {
    set ws, i | ws in queues && 0 <= i < |queues[ws]| :: queues[ws][i].sequence
  }

  lemma WaitingIsInQueue(queues: Queues)
    ensures forall n :: n in Waiting(queues) <==> InQueue(queues, n)
  {
    forall n ensures n in Waiting(queues) <==> InQueue(queues, n) {
      if InQueue(queues, n) {
        var ws :| ws in queues && HasNumber(queues[ws], n);
        var i :| 0 <= i < |queues[ws]| && queues[ws][i].sequence == n;
      }
      if n in Waiting(queues) {
        var ws, i :| ws in queues && 0 <= i < |queues[ws]| && queues[ws][i].sequence == n;
        assert HasNumber(queues[ws], n);
      }
    }
  }

  /** Callers that wait or run. */
  function Load(s: State): nat {
    |Waiting(s.queues)| + |s.active|
  }

  /** Nobody waits while nothing runs. */
  lemma QueuedMeansActive(p: QueuePolicy, s: State)
    requires Inv(p, s) && Saturated(p, s) && s.queues != map[]
    ensures s.active != map[]
  {
    var ws :| ws in s.queues;
    assert QueueOk(s.queues[ws], ws, s.callers);
    if s.active == map[] {
      assert LeasesOf(s.active, ws) == {};
      assert Ready(p, s, ws);
      assert false;
    }
  }

  lemma GrantOneKeepsLoad(p: QueuePolicy, s: State)
    requires Inv(p, s) && Grantable(p, s)
    ensures Load(GrantOne(p, s)) == Load(s)
  {
    GrantOneKeepsInv(p, s);
    var i: nat :| IsPick(p, s, i) && GrantOne(p, s) == GrantAt(s, i);
    assert LineInv(s);
    hide LeaseInv;
    GrantTakesOneWaiting(s, i);
  }

  lemma GrantTakesOneWaiting(s: State, i: nat)
    requires QueuesOk(s.queues, s.callers) && OrderOk(s.order, s.queues) && i < |s.order|
    ensures |Waiting(GrantAt(s, i).queues)| == |Waiting(s.queues)| - 1
  {
    var ws := s.order[i];
    var n := s.queues[ws][0].sequence;
    var after := SetQueue(Turned(s, i), ws, s.queues[ws][1..]).queues;
    GrantKeepsQueues(s, i);
    hide QueuesOk, OrderOk, InQueue;
    WaitingIsInQueue(s.queues);
    WaitingIsInQueue(after);
    assert n in Waiting(s.queues);
    assert Waiting(after) == Waiting(s.queues) - {n};
  }

  lemma {:induction false} GrantAllKeepsLoad(p: QueuePolicy, s: State)
    requires Inv(p, s)
    ensures Load(GrantAll(p, s)) == Load(s)
    decreases p.globalLimit - |s.active|
  {
    hide LineInv, LeaseInv, Grantable, GrantOne, Load;
    if Grantable(p, s) {
      RoomWhenGrantable(p, s);
      GrantOneKeepsInv(p, s);
      GrantOneKeepsLoad(p, s);
      GrantAllKeepsLoad(p, GrantOne(p, s));
    }
  }

  /** Every lease of the list is active when its turn to be released comes. */
  ghost predicate ActiveInTurn(p: QueuePolicy, s: State, leases: seq<nat>)
    decreases |leases|
  {
    leases == [] || (leases[0] in s.active && ActiveInTurn(p, Next(p, s, Release(leases[0])), leases[1..]))
  }

  function AsReleases(leases: seq<nat>): seq<Step> {
    if leases == [] then [] else [Release(leases[0])] + AsReleases(leases[1..])
  }

  lemma {:induction false} Drains(p: QueuePolicy, s: State, leases: seq<nat>)
    requires Inv(p, s) && Saturated(p, s) && ActiveInTurn(p, s, leases)
    ensures var r := RunFrom(p, s, AsReleases(leases));
            && Load(r) == Load(s) - |leases|
            && (Load(r) > 0 ==> r.active != map[])
            && (Load(r) == 0 ==> r.active == map[] && r.queues == map[])
    decreases |leases|
  {
    hide Inv, Saturated, GrantAll;
    if leases == [] {
      if s.queues != map[] {
        QueuedMeansActive(p, s);
      } else {
        assert Waiting(s.queues) == {};
      }
    } else {
      FreeKeepsInv(p, s, leases[0]);
      GrantAllKeepsLoad(p, Free(s, leases[0]));
      NextKeepsInv(p, s, Release(leases[0]));
      assert AsReleases(leases)[1..] == AsReleases(leases[1..]);
      Drains(p, Next(p, s, Release(leases[0])), leases[1..]);
    }
  }

  /**
   From any reachable state, with no arrivals, each release takes exactly one off
   the load, something is active as long as any load is left, and once as many
   leases were released as there was load nothing waits and nothing runs -
   whatever order is taken.
   */
  lemma AnyReleaseOrderDrains(p: QueuePolicy, steps: seq<Step>, leases: seq<nat>)
    requires p.Valid() && ActiveInTurn(p, Run(p, steps), leases)
    ensures var s := Run(p, steps); var r := RunFrom(p, s, AsReleases(leases));
            && Load(r) == Load(s) - |leases|
            && (Load(r) > 0 ==> r.active != map[])
            && (Load(r) == 0 ==> r.active == map[] && r.queues == map[])
  {
    RunKeepsInv(p, steps);
    hide Inv, Saturated;
    Drains(p, Run(p, steps), leases);
  }

  // ------------------------------------------------------ conservation of waiters

  function Numbers(granted: seq<Waiter>): set<nat> {
    set i | 0 <= i < |granted| :: granted[i].sequence
  }

  function UpTo(n: nat): (r: set<nat>)
    ensures |r| == n && forall m :: m in r <==> 1 <= m <= n
  {
    if n == 0 then {} else UpTo(n - 1) + {n}
  }

  lemma {:induction false} DistinctNumbers(granted: seq<Waiter>)
    requires forall i, j :: 0 <= i < j < |granted| ==> granted[i].sequence != granted[j].sequence
    ensures |Numbers(granted)| == |granted|
  {
    if granted != [] {
      var k := |granted| - 1;
      var front := granted[..k];
      DistinctNumbers(front);
      assert Numbers(granted) == Numbers(front) + {granted[k].sequence};
      assert granted[k].sequence !in Numbers(front);
    }
  }

  lemma AdmittedOnce(granted: seq<Waiter>, callers: seq<Request>)
    requires Fifo(map[], granted, callers)
    ensures |Numbers(granted)| == |granted|
    ensures forall n :: n in Numbers(granted) <==> HasNumber(granted, n)
    ensures forall n :: n in Numbers(granted) ==> 1 <= n <= |callers|
  {
    forall i, j | 0 <= i < j < |granted| ensures granted[i].sequence != granted[j].sequence {
      assert Genuine(granted[i], callers) && Genuine(granted[j], callers);
    }
    DistinctNumbers(granted);
    forall n | n in Numbers(granted) ensures 1 <= n <= |callers| {
      var i :| 0 <= i < |granted| && granted[i].sequence == n;
      assert Genuine(granted[i], callers);
    }
  }

  lemma WaitingSeparate(s: State)
    requires QueuesOk(s.queues, s.callers) && Fifo(s.queues, s.granted, s.callers)
    ensures forall n :: n in Waiting(s.queues) ==> 1 <= n <= |s.callers| && !HasNumber(s.granted, n)
    ensures forall n :: n in Waiting(s.queues) <==> InQueue(s.queues, n)
  {
    WaitingIsInQueue(s.queues);
    forall n | n in Waiting(s.queues) ensures 1 <= n <= |s.callers| && !HasNumber(s.granted, n) {
      var ws :| ws in s.queues && HasNumber(s.queues[ws], n);
      WaitingIsNotAdmitted(s, ws, n);
    }
  }

  /** The numbers issued are exactly those waiting, admitted and given up, each in one place. */
  lemma WaitersAreConserved(p: QueuePolicy, steps: seq<Step>)
    requires p.Valid()
    ensures var s := Run(p, steps);
            && |s.callers| == |Waiting(s.queues)| + |s.granted| + |s.timedOut|
            && Waiting(s.queues) !! Numbers(s.granted) !! s.timedOut
            && (forall l :: l in s.active ==> l in Numbers(s.granted) && l !in s.timedOut)
            && (forall i, j :: 0 <= i < j < |s.granted| && s.granted[i].workspace == s.granted[j].workspace ==>
                  s.granted[i].sequence < s.granted[j].sequence)
  {
    hide Inv, Saturated;
    RunKeepsInv(p, steps);
    Conserved(p, Run(p, steps));
  }

  lemma InvParts(p: QueuePolicy, s: State)
    requires Inv(p, s)
    ensures QueuesOk(s.queues, s.callers) && Fifo(s.queues, s.granted, s.callers)
    ensures LeasesBacked(s.active, s.granted) && Accounted(s.queues, s.granted, s.timedOut, |s.callers|)
  {
  }

  lemma Conserved(p: QueuePolicy, s: State)
    requires Inv(p, s)
    ensures |s.callers| == |Waiting(s.queues)| + |s.granted| + |s.timedOut|
    ensures Waiting(s.queues) !! Numbers(s.granted) !! s.timedOut
    ensures forall l :: l in s.active ==> l in Numbers(s.granted) && l !in s.timedOut
    ensures forall i, j :: 0 <= i < j < |s.granted| && s.granted[i].workspace == s.granted[j].workspace ==>
              s.granted[i].sequence < s.granted[j].sequence
  {
    hide Inv;
    InvParts(p, s);
    hide QueuesOk, Accounted;
    WaitingSeparate(s);
    AdmittedOnce(s.granted, s.callers);
    LeasesAdmitted(s.active, s.granted);
    Partition(Waiting(s.queues), Numbers(s.granted), s.timedOut, s);
  }

  lemma LeasesAdmitted(active: map<nat, Lease>, granted: seq<Waiter>)
    requires LeasesBacked(active, granted)
    ensures forall l :: l in active ==> l in Numbers(granted)
  {
    forall l | l in active ensures l in Numbers(granted) {
      var i :| 0 <= i < |granted| && granted[i].sequence == l;
    }
  }

  lemma Partition(waiting: set<nat>, admitted: set<nat>, timedOut: set<nat>, s: State)
    requires Accounted(s.queues, s.granted, timedOut, |s.callers|)
    requires forall n :: n in waiting <==> InQueue(s.queues, n)
    requires forall n :: n in admitted <==> HasNumber(s.granted, n)
    requires forall n :: n in waiting + admitted ==> 1 <= n <= |s.callers|
    requires waiting !! admitted
    ensures waiting !! admitted !! timedOut
    ensures |waiting| + |admitted| + |timedOut| == |s.callers|
  {
    hide InQueue, HasNumber;
    assert waiting + admitted + timedOut == UpTo(|s.callers|);
    assert |waiting + admitted| == |waiting| + |admitted|;
  }

  // ------------------------------------------------------------- bounded bypass

  /** The elementary changes every critical section is made of. */
  datatype Micro =
    | Arrive(ws: string, key: Option<ConcurrencyKey>, priority: int)
    | Leave(ws: string, number: nat)
    | Finish(lease: nat)
    | Grant

  ghost function MicroNext(p: QueuePolicy, s: State, m: Micro): State {
    match m
    case Arrive(ws, key, priority) => Enqueue(s, ws, key, priority)
    case Leave(ws, n) => GiveUp(s, ws, n)
    case Finish(lease) => Free(s, lease)
    case Grant => if Grantable(p, s) then GrantOne(p, s) else s
  }

  ghost function MicroRun(p: QueuePolicy, s: State, ms: seq<Micro>): State
    decreases |ms|
  {
    if ms == [] then s else MicroRun(p, MicroNext(p, s, ms[0]), ms[1..])
  }

  lemma {:induction false} GrantUpToIsMicro(p: QueuePolicy, s: State, n: int) returns (ms: seq<Micro>)
    ensures MicroRun(p, s, ms) == GrantUpTo(p, s, n) && forall m :: m in ms ==> m == Grant
    decreases n
  {
    hide Grantable, GrantOne;
    if n > 0 && Grantable(p, s) {
      var rest := GrantUpToIsMicro(p, GrantOne(p, s), n - 1);
      ms := [Grant] + rest;
      assert ms[1..] == rest;
    } else {
      ms := [];
    }
  }

  lemma OneThenGrants(p: QueuePolicy, s: State, m: Micro) returns (ms: seq<Micro>)
    ensures MicroRun(p, s, ms) == GrantAll(p, MicroNext(p, s, m))
    ensures forall k :: k in ms ==> k == Grant || k == m
  {
    hide MicroNext, GrantUpTo;
    var mid := MicroNext(p, s, m);
    var rest := GrantUpToIsMicro(p, mid, p.globalLimit - |mid.active|);
    ms := [m] + rest;
    assert ms[1..] == rest;
  }

  /** Each critical section is a run of elementary changes. */
  lemma StepIsMicro(p: QueuePolicy, s: State, step: Step) returns (ms: seq<Micro>)
    ensures MicroRun(p, s, ms) == Next(p, s, step)
    ensures forall m :: m in ms ==> m == Grant || m == FirstOf(step)
  {
    hide MicroRun, Enqueue, GiveUp, Grantable, GrantOne, GrantUpTo;
    if step.Wake? {
      ms := GrantUpToIsMicro(p, s, p.globalLimit - |s.active|);
    } else if step.Release? && step.lease !in s.active {
      ms := [];
      NoSteps(p, s);
    } else {
      ms := OneThenGrants(p, s, FirstOf(step));
    }
  }

  lemma NoSteps(p: QueuePolicy, s: State)
    ensures MicroRun(p, s, []) == s
  {
  }

  function FirstOf(step: Step): Micro {
    match step
    case Acquire(ws, key, priority) => Arrive(ws, key, priority)
    case Wake => Grant
    case Expire(ws, n) => Leave(ws, n)
    case Release(lease) => Finish(lease)
  }

  ghost predicate IsHead(s: State, w: Waiter) {
    w.workspace in s.queues && s.queues[w.workspace] != [] && s.queues[w.workspace][0] == w
  }

  ghost predicate OrderedAt(s: State, ws: string, i: nat) {
    i < |s.order| && s.order[i] == ws
  }

  /** Until w is admitted it is at the top whenever somebody is about to be admitted, and does not give up. */
  ghost predicate KeepsTop(p: QueuePolicy, s: State, ms: seq<Micro>, w: Waiter)
    decreases |ms|
  {
    || ms == []
    || !IsHead(s, w)
    || (&& (ms[0].Grant? && Grantable(p, s) ==> Top(p, s, w.workspace))
        && ms[0] != Leave(w.workspace, w.sequence)
        && KeepsTop(p, MicroNext(p, s, ms[0]), ms[1..], w))
  }

  lemma {:induction false} WithoutMovesForward(order: seq<string>, v: string, ws: string, i: nat)
    requires i < |order| && order[i] == ws && v != ws
    ensures exists k :: 0 <= k <= i && k < |Without(order, v)| && Without(order, v)[k] == ws
  {
    if order[0] == v {
      assert Without(order, v)[i - 1] == ws;
    } else if i == 0 {
      assert Without(order, v)[0] == ws;
    } else {
      WithoutMovesForward(order[1..], v, ws, i - 1);
      var k :| 0 <= k <= i - 1 && k < |Without(order[1..], v)| && Without(order[1..], v)[k] == ws;
      assert Without(order, v)[k + 1] == ws;
    }
  }

  /** Arrivals, departures of others and releases never move a waiting head backwards. */
  lemma OthersKeepPlace(p: QueuePolicy, s: State, m: Micro, w: Waiter, i: nat) returns (k: nat)
    requires IsHead(s, w) && OrderedAt(s, w.workspace, i)
    requires !m.Grant? && m != Leave(w.workspace, w.sequence)
    ensures IsHead(MicroNext(p, s, m), w) && OrderedAt(MicroNext(p, s, m), w.workspace, k) && k <= i
    ensures MicroNext(p, s, m).granted == s.granted
  {
    k := i;
    if m.Leave? {
      k := LeavingKeepsPlace(s, m.ws, m.number, w, i);
    }
  }

  lemma LeavingKeepsPlace(s: State, ws: string, n: nat, w: Waiter, i: nat) returns (k: nat)
    requires IsHead(s, w) && OrderedAt(s, w.workspace, i) && !(ws == w.workspace && n == w.sequence)
    ensures IsHead(GiveUp(s, ws, n), w) && OrderedAt(GiveUp(s, ws, n), w.workspace, k) && k <= i
    ensures GiveUp(s, ws, n).granted == s.granted
  {
    k := i;
    if HasNumber(QueueOf(s.queues, ws), n) {
      var rest := Drop(s.queues[ws], n);
      if ws == w.workspace {
        assert rest[0] == w;
      } else if rest == [] {
        WithoutMovesForward(s.order, ws, w.workspace, i);
        k :| 0 <= k <= i && k < |Without(s.order, ws)| && Without(s.order, ws)[k] == w.workspace;
      }
    }
  }

  /** A grant goes to w itself or brings it strictly forward. */
  lemma GrantMovesForward(p: QueuePolicy, s: State, w: Waiter, i: nat) returns (k: int)
    requires Grantable(p, s) && IsHead(s, w) && OrderedAt(s, w.workspace, i)
    requires Top(p, s, w.workspace)
    ensures var r := GrantOne(p, s);
            if r.granted == s.granted + [w] then true
            else |r.granted| == |s.granted| + 1 && IsHead(r, w) && 0 <= k < i && OrderedAt(r, w.workspace, k)
  {
    var j: nat :| IsPick(p, s, j) && GrantOne(p, s) == GrantAt(s, j);
    assert j <= i && s.order[j] in s.queues && s.queues[s.order[j]] != [];
    hide Top, IsPick, Grantable, GrantOne;
    k := i - j - 1;
    if s.order[j] != w.workspace {
      k := GrantAheadMovesForward(s, w, i, j);
    } else {
      assert GrantAt(s, j).granted == s.granted + [w];
    }
  }

  lemma GrantAheadMovesForward(s: State, w: Waiter, i: nat, j: nat) returns (k: nat)
    requires j < i < |s.order| && s.order[i] == w.workspace && IsHead(s, w)
    requires s.order[j] != w.workspace && s.order[j] in s.queues && s.queues[s.order[j]] != []
    ensures var r := GrantAt(s, j);
            |r.granted| == |s.granted| + 1 && IsHead(r, w) && k < i && OrderedAt(r, w.workspace, k)
  {
    var ws := s.order[j];
    var turned := Turned(s, j).order;
    k := i - j - 1;
    assert turned[k] == w.workspace;
    if s.queues[ws][1..] == [] {
      WithoutMovesForward(turned, ws, w.workspace, i - j - 1);
      k :| 0 <= k <= i - j - 1 && k < |Without(turned, ws)| && Without(turned, ws)[k] == w.workspace;
    }
  }

  lemma {:induction false} HistoryOnlyGrows(p: QueuePolicy, s: State, ms: seq<Micro>)
    ensures s.granted <= MicroRun(p, s, ms).granted
    ensures s.timedOut <= MicroRun(p, s, ms).timedOut
    ensures s.callers <= MicroRun(p, s, ms).callers
    decreases |ms|
  {
    if ms != [] {
      HistoryOnlyGrows(p, MicroNext(p, s, ms[0]), ms[1..]);
    }
  }

  /**
   A head at position i of the rotating order that stays eligible and of top
   priority is admitted after at most i grants to others, whatever arrives,
   gives up or finishes meanwhile.
   */
  lemma {:induction false} BoundedBypass(p: QueuePolicy, s: State, ms: seq<Micro>, w: Waiter, i: nat)
    requires IsHead(s, w) && OrderedAt(s, w.workspace, i) && KeepsTop(p, s, ms, w)
    ensures var r := MicroRun(p, s, ms);
            || (IsHead(r, w) && |r.granted| <= |s.granted| + i)
            || (exists k :: |s.granted| <= k <= |s.granted| + i && k < |r.granted| && r.granted[k] == w)
    decreases |ms|
  {
    if ms != [] {
      var mid := MicroNext(p, s, ms[0]);
      if !ms[0].Grant? {
        var k := OthersKeepPlace(p, s, ms[0], w, i);
        BoundedBypass(p, mid, ms[1..], w, k);
      } else if Grantable(p, s) {
        var k := GrantMovesForward(p, s, w, i);
        if mid.granted == s.granted + [w] {
          HistoryOnlyGrows(p, mid, ms[1..]);
          assert MicroRun(p, s, ms).granted[|s.granted|] == w;
        } else {
          BoundedBypass(p, mid, ms[1..], w, k);
        }
      } else {
        BoundedBypass(p, mid, ms[1..], w, i);
      }
    }
  }

  // ---------------------------------------------------- the bound a caller can see

  /**
   At every moment the lock is free and w still waits, it heads its queue and may
   start; whenever a lease comes back it is at the top; and it does not give up.
   */
  ghost predicate OnTop(p: QueuePolicy, s: State, steps: seq<Step>, w: Waiter)
    decreases |steps|
  {
    || steps == []
    || !IsHead(s, w)
    || (&& Ready(p, s, w.workspace)
        && steps[0] != Expire(w.workspace, w.sequence)
        && (Frees(s, steps[0]) ==> Top(p, Free(s, steps[0].lease), w.workspace))
        && OnTop(p, Next(p, s, steps[0]), steps[1..], w))
  }

  /** The step gives back a lease that is active. */
  predicate Frees(s: State, step: Step) {
    step.Release? && step.lease in s.active
  }

  /** How many leases come back in a run. */
  ghost function Freed(p: QueuePolicy, s: State, steps: seq<Step>): nat
    decreases |steps|
  {
    if steps == [] then 0 else (if Frees(s, steps[0]) then 1 else 0) + Freed(p, Next(p, s, steps[0]), steps[1..])
  }

  /** With the lock free and somebody eligible waiting, the machine is full. */
  lemma EligibleMeansFull(p: QueuePolicy, s: State, ws: string)
    requires Inv(p, s) && Saturated(p, s) && Ready(p, s, ws)
    ensures |s.active| == p.globalLimit
  {
  }

  lemma FullGrantsNobody(p: QueuePolicy, s: State)
    requires |s.active| >= p.globalLimit
    ensures GrantAll(p, s) == s
  {
  }

  /** A critical section that frees nothing admits nobody while the machine is full, and w keeps its place. */
  lemma QuietStep(p: QueuePolicy, s: State, step: Step, w: Waiter, i: nat) returns (k: nat)
    requires |s.active| == p.globalLimit && IsHead(s, w) && OrderedAt(s, w.workspace, i)
    requires !Frees(s, step) && step != Expire(w.workspace, w.sequence)
    ensures var r := Next(p, s, step);
            r.granted == s.granted && IsHead(r, w) && OrderedAt(r, w.workspace, k) && k <= i
  {
    hide GrantAll, IsHead, OrderedAt, GiveUp, Enqueue;
    k := i;
    if step.Wake? || step.Release? {
      FullGrantsNobody(p, s);
    } else {
      k := OthersKeepPlace(p, s, FirstOf(step), w, i);
      SameActive(p, s, step);
      FullGrantsNobody(p, MicroNext(p, s, FirstOf(step)));
    }
  }

  lemma SameActive(p: QueuePolicy, s: State, step: Step)
    requires step.Acquire? || step.Expire?
    ensures MicroNext(p, s, FirstOf(step)).active == s.active
  {
  }

  /** A release on a full machine admits exactly one caller: w, or one that brings w strictly forward. */
  lemma FreeingStep(p: QueuePolicy, s: State, lease: nat, w: Waiter, i: nat) returns (k: int)
    requires Inv(p, s) && |s.active| == p.globalLimit && lease in s.active
    requires IsHead(s, w) && OrderedAt(s, w.workspace, i) && Top(p, Free(s, lease), w.workspace)
    ensures var r := Next(p, s, Release(lease));
            && |r.granted| == |s.granted| + 1 && s.granted <= r.granted
            && (r.granted[|s.granted|] == w || (0 <= k < i && IsHead(r, w) && OrderedAt(r, w.workspace, k)))
  {
    hide Inv, Free, GrantOne, GrantAll, Top, OrderOk, Grantable;
    var mid := Free(s, lease);
    FreedSlot(s, lease);
    FreeKeepsInv(p, s, lease);
    InvOrderOk(p, mid);
    TopIsGrantable(p, mid, w.workspace);
    k := GrantMovesForward(p, mid, w, i);
    OneGrant(p, mid);
    GrantGrows(p, mid);
  }

  lemma FreedSlot(s: State, lease: nat)
    requires lease in s.active
    ensures var r := Free(s, lease);
            r.queues == s.queues && r.order == s.order && r.granted == s.granted && |r.active| == |s.active| - 1
  {
    LeasesOfRemove(s.active, lease, s.active[lease].workspace);
  }

  lemma TopIsGrantable(p: QueuePolicy, s: State, ws: string)
    requires OrderOk(s.order, s.queues) && |s.active| < p.globalLimit && Top(p, s, ws)
    ensures Grantable(p, s)
  {
    ReadyMeansPick(p, s, ws);
  }

  lemma OneGrant(p: QueuePolicy, s: State)
    requires Grantable(p, s) && |s.active| == p.globalLimit - 1
    ensures GrantAll(p, s) == GrantOne(p, s)
  {
    hide GrantOne, Grantable;
    assert GrantUpTo(p, GrantOne(p, s), 0) == GrantOne(p, s);
  }

  lemma GrantGrows(p: QueuePolicy, s: State)
    requires Grantable(p, s)
    ensures |GrantOne(p, s).granted| == |s.granted| + 1 && s.granted <= GrantOne(p, s).granted
  {
    var i: nat :| IsPick(p, s, i) && GrantOne(p, s) == GrantAt(s, i);
    SetQueueGranted(Turned(s, i), s.order[i], s.queues[s.order[i]][1..]);
  }

  lemma SetQueueGranted(s: State, ws: string, queue: seq<Waiter>)
    ensures SetQueue(s, ws, queue).granted == s.granted
  {
  }

  /** The admissions up to number hi, from number lo on, include w. */
  ghost predicate AdmittedWithin(granted: seq<Waiter>, lo: nat, hi: nat, w: Waiter) {
    exists k :: lo <= k <= hi && k < |granted| && granted[k] == w
  }

  /**
   The same bound over whole critical sections: from any reachable state, while w
   stays on top each lease that comes back admits exactly one caller, and at most i
   of them are others; so w is admitted at the latest when the lease number i + 1
   comes back, whatever arrives, gives up or wakes meanwhile.
   */
  lemma {:induction false} BypassInSteps(p: QueuePolicy, s: State, steps: seq<Step>, w: Waiter, i: nat)
    requires Inv(p, s) && Saturated(p, s)
    requires IsHead(s, w) && OrderedAt(s, w.workspace, i) && OnTop(p, s, steps, w)
    ensures var r := RunFrom(p, s, steps);
            || (IsHead(r, w) && |r.granted| == |s.granted| + Freed(p, s, steps) && Freed(p, s, steps) <= i)
            || AdmittedWithin(r.granted, |s.granted|, |s.granted| + i, w)
    decreases |steps|
  {
    hide Inv, Saturated, IsHead, OrderedAt, Next, Top, Ready, AdmittedWithin;
    if steps != [] {
      var mid := Next(p, s, steps[0]);
      EligibleMeansFull(p, s, w.workspace);
      NextKeepsInv(p, s, steps[0]);
      if !Frees(s, steps[0]) {
        var k := QuietStep(p, s, steps[0], w, i);
        BypassInSteps(p, mid, steps[1..], w, k);
        WithinMore(|s.granted|, |s.granted| + k, |s.granted|, |s.granted| + i, w);
      } else {
        var k := FreeingStep(p, s, steps[0].lease, w, i);
        if mid.granted[|s.granted|] == w {
          LaterHistory(p, mid, steps[1..]);
          WithinAt(RunFrom(p, s, steps).granted, |s.granted|, |s.granted| + i, w);
        } else {
          BypassInSteps(p, mid, steps[1..], w, k);
          WithinMore(|mid.granted|, |mid.granted| + k, |s.granted|, |s.granted| + i, w);
        }
      }
    }
  }

  lemma WithinAt(granted: seq<Waiter>, at: nat, hi: nat, w: Waiter)
    requires at < |granted| && at <= hi && granted[at] == w
    ensures AdmittedWithin(granted, at, hi, w)
  {
  }

  lemma WithinMore(lo: nat, hi: nat, lo2: nat, hi2: nat, w: Waiter)
    requires lo2 <= lo && hi <= hi2
    ensures forall granted :: AdmittedWithin(granted, lo, hi, w) ==> AdmittedWithin(granted, lo2, hi2, w)
  {
  }

  /** Hence: after i + 1 leases have come back, a head at position i that stayed on top has been admitted. */
  lemma AdmittedInTime(p: QueuePolicy, before: seq<Step>, steps: seq<Step>, w: Waiter, i: nat)
    requires p.Valid() && IsHead(Run(p, before), w) && OrderedAt(Run(p, before), w.workspace, i)
    requires OnTop(p, Run(p, before), steps, w) && Freed(p, Run(p, before), steps) > i
    ensures w in RunFrom(p, Run(p, before), steps).granted
  {
    hide Inv, Saturated, IsHead, OrderedAt, OnTop, Freed, RunFrom;
    RunKeepsInv(p, before);
    BypassInSteps(p, Run(p, before), steps, w, i);
  }

  lemma {:induction false} LaterHistory(p: QueuePolicy, s: State, steps: seq<Step>)
    ensures s.granted <= RunFrom(p, s, steps).granted
    ensures s.timedOut <= RunFrom(p, s, steps).timedOut
    decreases |steps|
  {
    if steps != [] {
      var ms := StepIsMicro(p, s, steps[0]);
      HistoryOnlyGrows(p, s, ms);
      LaterHistory(p, Next(p, s, steps[0]), steps[1..]);
    }
  }

  lemma {:induction false} RunSplits(p: QueuePolicy, s: State, steps: seq<Step>, more: seq<Step>)
    ensures RunFrom(p, s, steps + more) == RunFrom(p, RunFrom(p, s, steps), more)
    decreases |steps|
  {
    if steps == [] {
      assert steps + more == more;
    } else {
      assert (steps + more)[1..] == steps[1..] + more;
      RunSplits(p, Next(p, s, steps[0]), steps[1..], more);
    }
  }

  /** A caller that gave up never holds a lease later, and one that was admitted never gives up. */
  lemma GivingUpIsFinal(p: QueuePolicy, steps: seq<Step>, more: seq<Step>, n: nat)
    requires p.Valid()
    ensures var s := Run(p, steps); var r := RunFrom(p, s, more);
            && (n in s.timedOut ==> !HasNumber(r.granted, n) && n !in r.active)
            && (HasNumber(s.granted, n) ==> n !in r.timedOut)
  {
    var s := Run(p, steps);
    var r := RunFrom(p, s, more);
    RunSplits(p, EMPTY, steps, more);
    RunKeepsInv(p, steps + more);
    LaterHistory(p, s, more);
    AccountedApart(r, n);
    if HasNumber(s.granted, n) {
      var i :| 0 <= i < |s.granted| && s.granted[i].sequence == n;
      assert r.granted[i].sequence == n;
    }
  }

  lemma AccountedApart(s: State, n: nat)
    requires Accounted(s.queues, s.granted, s.timedOut, |s.callers|) && LeasesBacked(s.active, s.granted)
    ensures n in s.timedOut ==> !HasNumber(s.granted, n) && n !in s.active
  {
    if n in s.active {
      var i :| 0 <= i < |s.granted| && s.granted[i].sequence == n;
      assert HasNumber(s.granted, n);
    }
  }
}
