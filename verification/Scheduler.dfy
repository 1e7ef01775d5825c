/**
 Admission control for managed subprocesses: quotas, reader/writer keys, FIFO
 queues inside a workspace and a rotating order across workspaces.

 The value type `State` and the functions on it specify what each critical
 section does; the class in SchedulerClass.dfy carries the same fields and
 changes them in place.  A lease id is a random token in the program; here it is
 the sequence number of the waiter it was issued to, the one property used being
 that tokens never repeat.
 */
module ProcessScheduler {
  import opened Common

  datatype AccessMode = Read | Write

  datatype ConcurrencyKey = ConcurrencyKey(scope: string, resource: string, mode: AccessMode) {
    /** Two keys of the same resource clash unless both only read. */
    predicate ConflictsWith(other: ConcurrencyKey) {
      scope == other.scope && resource == other.resource && (mode.Write? || other.mode.Write?)
    }
  }

  datatype QueuePolicy = QueuePolicy(globalLimit: int, perWorkspaceLimit: int) {
    /** What the constructor of the policy accepts. */
    predicate Valid() {
      1 <= perWorkspaceLimit <= globalLimit
    }
  }

  datatype Waiter = Waiter(workspace: string, key: Option<ConcurrencyKey>, priority: int, sequence: nat)

  /** What one acquire call asks for. */
  datatype Request = Request(workspace: string, key: Option<ConcurrencyKey>, priority: int)

  function Asked(w: Waiter): Request {
    Request(w.workspace, w.key, w.priority)
  }

  datatype Lease = Lease(workspace: string, key: Option<ConcurrencyKey>)

  type Queues = map<string, seq<Waiter>>

  /**
   `callers` is the history of acquire calls: caller number n asked for
   callers[n - 1], so the last number issued is |callers|.  `granted` lists the
   waiters admitted so far, in that order; `timedOut` the numbers that gave up.
   */
  datatype State = State(
    queues: Queues,
    order: seq<string>,
    active: map<nat, Lease>,
    counts: map<string, nat>,
    callers: seq<Request>,
    granted: seq<Waiter>,
    timedOut: set<nat>)

  const EMPTY: State := State(map[], [], map[], map[], [], [], {})

  // ---------------------------------------------------------------- invariant

  function LeasesOf(active: map<nat, Lease>, ws: string): set<nat> {
    set l | l in active && active[l].workspace == ws
  }

  function CountOf(counts: map<string, nat>, ws: string): nat {
    if ws in counts then counts[ws] else 0
  }

  ghost predicate NoDuplicates(order: seq<string>) {
    forall i, j :: 0 <= i < j < |order| ==> order[i] != order[j]
  }

  ghost predicate Ascending(queue: seq<Waiter>) {
    forall i, j :: 0 <= i < j < |queue| ==> queue[i].sequence < queue[j].sequence
  }

  /** The waiter carries the number of a call, and what that call asked for. */
  ghost predicate Genuine(w: Waiter, callers: seq<Request>) {
    1 <= w.sequence <= |callers| && callers[w.sequence - 1] == Asked(w)
  }

  /** A queue is never empty and lists waiters of its workspace in the order they arrived. */
  ghost predicate QueueOk(queue: seq<Waiter>, ws: string, callers: seq<Request>) {
    && queue != []
    && Ascending(queue)
    && forall i :: 0 <= i < |queue| ==> queue[i].workspace == ws && Genuine(queue[i], callers)
  }

  ghost predicate QueuesOk(queues: Queues, callers: seq<Request>) {
    forall ws :: ws in queues ==> QueueOk(queues[ws], ws, callers)
  }

  /** The rotating order is a duplicate-free list of exactly the workspaces that wait. */
  ghost predicate OrderOk(order: seq<string>, queues: Queues) {
    NoDuplicates(order) && forall ws :: ws in order <==> ws in queues
  }

  /** The per-workspace counters are the true numbers, with no zero entries. */
  ghost predicate CountsOk(active: map<nat, Lease>, counts: map<string, nat>) {
    forall ws :: CountOf(counts, ws) == |LeasesOf(active, ws)| && (ws in counts ==> counts[ws] > 0)
  }

  ghost predicate QuotasOk(p: QueuePolicy, active: map<nat, Lease>) {
    && |active| <= p.globalLimit
    && forall ws :: |LeasesOf(active, ws)| <= p.perWorkspaceLimit
  }

  predicate KeysClash(a: Option<ConcurrencyKey>, b: Option<ConcurrencyKey>) {
    a.Some? && b.Some? && a.value.ConflictsWith(b.value)
  }

  ghost predicate KeysOk(active: map<nat, Lease>) {
    forall l, m :: l in active && m in active && l != m ==> !KeysClash(active[l].key, active[m].key)
  }

  ghost predicate HasNumber(queue: seq<Waiter>, n: nat) {
    exists i :: 0 <= i < |queue| && queue[i].sequence == n
  }

  ghost predicate InQueue(queues: Queues, n: nat) {
    exists ws :: ws in queues && HasNumber(queues[ws], n)
  }

  /** Inside one workspace grants happen in the order of arrival. */
  ghost predicate Fifo(queues: Queues, granted: seq<Waiter>, callers: seq<Request>) {
    && (forall i :: 0 <= i < |granted| ==> Genuine(granted[i], callers))
    && (forall i, j :: 0 <= i < j < |granted| && granted[i].workspace == granted[j].workspace ==>
          granted[i].sequence < granted[j].sequence)
    && (forall i :: 0 <= i < |granted| && granted[i].workspace in queues ==>
          forall j :: 0 <= j < |queues[granted[i].workspace]| ==>
            granted[i].sequence < queues[granted[i].workspace][j].sequence)
  }

  /** The numbers issued split into those that wait, those that were admitted and those that gave up. */
  ghost predicate Accounted(queues: Queues, granted: seq<Waiter>, timedOut: set<nat>, issued: nat) {
    && (forall n :: n in timedOut ==> 1 <= n <= issued && !InQueue(queues, n) && !HasNumber(granted, n))
    && (forall n :: 1 <= n <= issued ==> InQueue(queues, n) || HasNumber(granted, n) || n in timedOut)
  }

  /** An active lease was issued to a waiter that was admitted, with that waiter's key. */
  ghost predicate LeasesBacked(active: map<nat, Lease>, granted: seq<Waiter>) {
    forall l :: l in active ==>
      exists i :: 0 <= i < |granted| && granted[i].sequence == l
                  && active[l] == Lease(granted[i].workspace, granted[i].key)
  }

  ghost predicate LineInv(s: State) {
    && QueuesOk(s.queues, s.callers)
    && OrderOk(s.order, s.queues)
    && Fifo(s.queues, s.granted, s.callers)
    && Accounted(s.queues, s.granted, s.timedOut, |s.callers|)
  }

  ghost predicate LeaseInv(p: QueuePolicy, s: State) {
    && CountsOk(s.active, s.counts)
    && QuotasOk(p, s.active)
    && KeysOk(s.active)
    && LeasesBacked(s.active, s.granted)
  }

  ghost predicate Inv(p: QueuePolicy, s: State) {
    p.Valid() && LineInv(s) && LeaseInv(p, s)
  }

  // ------------------------------------------------------------ specification

  predicate Eligible(p: QueuePolicy, s: State, w: Waiter) {
    && CountOf(s.counts, w.workspace) < p.perWorkspaceLimit
    && forall l :: l in s.active ==> !KeysClash(w.key, s.active[l].key)
  }

  /** The workspace waits and the head of its queue may start now. */
  predicate Ready(p: QueuePolicy, s: State, ws: string) {
    ws in s.queues && s.queues[ws] != [] && Eligible(p, s, s.queues[ws][0])
  }

  /** Ready, and no ready workspace has a head of higher priority. */
  predicate Top(p: QueuePolicy, s: State, ws: string) {
    && Ready(p, s, ws)
    && forall vs :: vs in s.order && Ready(p, s, vs) ==> s.queues[vs][0].priority <= s.queues[ws][0].priority
  }

  /** Position i of the rotating order is the first one at the top. */
  predicate IsPick(p: QueuePolicy, s: State, i: nat) {
    i < |s.order| && Top(p, s, s.order[i]) && forall j :: 0 <= j < i ==> !Top(p, s, s.order[j])
  }

  ghost predicate Grantable(p: QueuePolicy, s: State) {
    |s.active| < p.globalLimit && exists i: nat :: IsPick(p, s, i)
  }

  /** With the lock free: the machine is full, or nobody at the head of a queue may start. */
  ghost predicate Saturated(p: QueuePolicy, s: State) {
    |s.active| >= p.globalLimit || forall ws :: !Ready(p, s, ws)
  }

  /** The order without its first occurrence of ws. */
  function Without(order: seq<string>, ws: string): (r: seq<string>) {
    if order == [] then []
    else if order[0] == ws then order[1..]
    else [order[0]] + Without(order[1..], ws)
  }

  /** The waiters of a queue other than the first with number n. */
  function Drop(queue: seq<Waiter>, n: nat): (r: seq<Waiter>) {
    if queue == [] then []
    else if queue[0].sequence == n then queue[1..]
    else [queue[0]] + Drop(queue[1..], n)
  }

  function SetQueue(s: State, ws: string, queue: seq<Waiter>): State {
    if queue == [] then s.(queues := s.queues - {ws}, order := Without(s.order, ws))
    else s.(queues := s.queues[ws := queue])
  }

  /** The order rotated past position i. */
  function Turned(s: State, i: nat): State
    requires i < |s.order|
  {
    s.(order := s.order[i + 1..] + s.order[..i + 1])
  }

  /** Rotate the order past position i and admit the head of that workspace. */
  function GrantAt(s: State, i: nat): State
    requires i < |s.order| && s.order[i] in s.queues && s.queues[s.order[i]] != []
  {
    var ws := s.order[i];
    var w := s.queues[ws][0];
    SetQueue(Turned(s, i), ws, s.queues[ws][1..])
      .(active := s.active[w.sequence := Lease(ws, w.key)],
        counts := s.counts[ws := CountOf(s.counts, ws) + 1],
        granted := s.granted + [w])
  }

  ghost function GrantOne(p: QueuePolicy, s: State): State
    requires Grantable(p, s)
  {
    var i: nat :| IsPick(p, s, i);
    GrantAt(s, i)
  }

  /** Admit heads one at a time, at most n of them, until nothing more can start. */
  ghost function GrantUpTo(p: QueuePolicy, s: State, n: int): State
    decreases n
  {
    if n <= 0 || !Grantable(p, s) then s else GrantUpTo(p, GrantOne(p, s), n - 1)
  }

  /** Admit until the machine is full or nothing more can start. */
  ghost function GrantAll(p: QueuePolicy, s: State): State {
    GrantUpTo(p, s, p.globalLimit - |s.active|)
  }

  function QueueOf(queues: Queues, ws: string): seq<Waiter> {
    if ws in queues then queues[ws] else []
  }

  function Enqueue(s: State, ws: string, key: Option<ConcurrencyKey>, priority: int): State {
    var w := Waiter(ws, key, priority, |s.callers| + 1);
    s.(callers := s.callers + [Request(ws, key, priority)],
       order := if ws in s.queues then s.order else s.order + [ws],
       queues := s.queues[ws := QueueOf(s.queues, ws) + [w]])
  }

  /** The caller holding number n of workspace ws gives up. */
  ghost function GiveUp(s: State, ws: string, n: nat): State {
    if HasNumber(QueueOf(s.queues, ws), n) then
      SetQueue(s, ws, Drop(s.queues[ws], n)).(timedOut := s.timedOut + {n})
    else s
  }

  function Free(s: State, lease: nat): State {
    if lease !in s.active then s
    else
      var ws := s.active[lease].workspace;
      s.(active := s.active - {lease},
         counts := if CountOf(s.counts, ws) <= 1 then s.counts - {ws}
                   else s.counts[ws := s.counts[ws] - 1])
  }

  /** One acquire call with a timeout of zero: the state it leaves, and whether it was admitted. */
  ghost function Admission(p: QueuePolicy, s: State, ws: string, key: Option<ConcurrencyKey>, priority: int)
    : (State, bool)
  {
    var arrived := GrantAll(p, Enqueue(s, ws, key, priority));
    var number := |s.callers| + 1;
    if HasNumber(arrived.granted, number) then (arrived, true)
    else (GrantAll(p, GiveUp(arrived, ws, number)), false)
  }

  // ------------------------------------------------------- facts about the parts

  lemma LeasesOfAdd(active: map<nat, Lease>, l: nat, lease: Lease, ws: string)
    requires l !in active
    ensures |active[l := lease]| == |active| + 1
    ensures |LeasesOf(active[l := lease], ws)| == |LeasesOf(active, ws)| + (if ws == lease.workspace then 1 else 0)
  {
    assert LeasesOf(active[l := lease], ws) == LeasesOf(active, ws) + (if ws == lease.workspace then {l} else {});
  }

  lemma LeasesOfRemove(active: map<nat, Lease>, l: nat, ws: string)
    requires l in active
    ensures |active - {l}| == |active| - 1
    ensures |LeasesOf(active - {l}, ws)| == |LeasesOf(active, ws)| - (if ws == active[l].workspace then 1 else 0)
  {
    var before := active - {l};
    assert active == before[l := active[l]];
    LeasesOfAdd(before, l, active[l], ws);
  }

  lemma {:induction false} WithoutMembers(order: seq<string>, ws: string)
    ensures forall v :: v in Without(order, ws) ==> v in order
    ensures forall v :: v in order && v != ws ==> v in Without(order, ws)
  {
    if order != [] {
      WithoutMembers(order[1..], ws);
      assert order == [order[0]] + order[1..];
    }
  }

  lemma TailNoDuplicates(order: seq<string>)
    requires NoDuplicates(order) && order != []
    ensures NoDuplicates(order[1..]) && order[0] !in order[1..]
  {
  }

  lemma HeadNoDuplicates(head: string, rest: seq<string>)
    requires NoDuplicates(rest) && head !in rest
    ensures NoDuplicates([head] + rest)
  {
    var r := [head] + rest;
    forall i, j | 0 <= i < j < |r| ensures r[i] != r[j] {
      assert r[j] == rest[j - 1] && rest[j - 1] in rest;
    }
  }

  /** Deque removal takes out the one occurrence and keeps the rest in order. */
  lemma {:induction false} WithoutRemoves(order: seq<string>, ws: string)
    requires NoDuplicates(order)
    ensures NoDuplicates(Without(order, ws))
    ensures forall v :: v in Without(order, ws) <==> v in order && v != ws
  {
    hide NoDuplicates;
    WithoutMembers(order, ws);
    if order != [] {
      TailNoDuplicates(order);
      WithoutRemoves(order[1..], ws);
      if order[0] != ws { HeadNoDuplicates(order[0], Without(order[1..], ws)); }
    }
  }

  /** Removing number n from a queue takes out that waiter and keeps the others in order. */
  lemma DropRemoves(queue: seq<Waiter>, n: nat)
    requires Ascending(queue)
    ensures forall w :: w in Drop(queue, n) <==> w in queue && w.sequence != n
    ensures Ascending(Drop(queue, n))
    ensures forall m :: HasNumber(Drop(queue, n), m) <==> HasNumber(queue, m) && m != n
  {
    hide Drop, Ascending;
    DropMembers(queue, n);
    DropAscending(queue, n);
    HasNumberIsMembership(Drop(queue, n));
    HasNumberIsMembership(queue);
  }

  lemma {:induction false} DropMembers(queue: seq<Waiter>, n: nat)
    requires Ascending(queue)
    ensures forall w :: w in Drop(queue, n) <==> w in queue && w.sequence != n
  {
    if queue != [] {
      assert queue == [queue[0]] + queue[1..];
      if queue[0].sequence != n { DropMembers(queue[1..], n); }
    }
  }

  lemma {:induction false} DropAscending(queue: seq<Waiter>, n: nat)
    requires Ascending(queue)
    ensures Ascending(Drop(queue, n))
  {
    if queue != [] && queue[0].sequence != n {
      var rest := Drop(queue[1..], n);
      DropAscending(queue[1..], n);
      DropMembers(queue[1..], n);
      forall j | 0 <= j < |rest| ensures queue[0].sequence < rest[j].sequence {
        assert rest[j] in rest;
      }
    }
  }

  lemma HasNumberIsMembership(queue: seq<Waiter>)
    ensures forall m :: HasNumber(queue, m) <==> exists w :: w in queue && w.sequence == m
  {
    forall m ensures HasNumber(queue, m) <==> exists w :: w in queue && w.sequence == m {
      if w :| w in queue && w.sequence == m {
        var i :| 0 <= i < |queue| && queue[i] == w;
      }
    }
  }

  lemma TailNumbers(queue: seq<Waiter>)
    requires queue != [] && Ascending(queue)
    ensures Ascending(queue[1..])
    ensures forall m :: HasNumber(queue[1..], m) <==> HasNumber(queue, m) && m != queue[0].sequence
  {
    assert Drop(queue, queue[0].sequence) == queue[1..];
    DropRemoves(queue, queue[0].sequence);
  }

  lemma AppendNumbers(queue: seq<Waiter>, w: Waiter)
    ensures forall m :: HasNumber(queue + [w], m) <==> HasNumber(queue, m) || m == w.sequence
  {
    forall m ensures HasNumber(queue + [w], m) <==> HasNumber(queue, m) || m == w.sequence {
      if HasNumber(queue, m) {
        var i :| 0 <= i < |queue| && queue[i].sequence == m;
        assert (queue + [w])[i].sequence == m;
      }
      assert (queue + [w])[|queue|] == w;
    }
  }

  /** A number waits only in the queue of the workspace it was issued for. */
  lemma QueueOfNumber(queues: Queues, callers: seq<Request>, ws: string, n: nat)
    requires QueuesOk(queues, callers) && ws in queues && HasNumber(queues[ws], n)
    ensures 1 <= n <= |callers| && callers[n - 1].workspace == ws
  {
  }

  // --------------------------------------------------------------- who is picked

  lemma PickUnique(p: QueuePolicy, s: State, i: nat, j: nat)
    requires IsPick(p, s, i) && IsPick(p, s, j)
    ensures i == j
  {
  }

  lemma {:induction false} HighestReady(p: QueuePolicy, s: State, ws: string, n: nat) returns (best: string)
    requires Ready(p, s, ws) && ws in s.order && n <= |s.order|
    ensures best in s.order && Ready(p, s, best)
    ensures s.queues[ws][0].priority <= s.queues[best][0].priority
    ensures forall i :: 0 <= i < n && Ready(p, s, s.order[i]) ==>
              s.queues[s.order[i]][0].priority <= s.queues[best][0].priority
  {
    if n == 0 {
      best := ws;
    } else {
      best := HighestReady(p, s, ws, n - 1);
      if Ready(p, s, s.order[n - 1]) && s.queues[best][0].priority < s.queues[s.order[n - 1]][0].priority {
        best := s.order[n - 1];
      }
    }
  }

  lemma {:induction false} FirstTop(p: QueuePolicy, s: State, k: nat) returns (i: nat)
    requires k < |s.order| && Top(p, s, s.order[k])
    ensures IsPick(p, s, i) && i <= k
  {
    if j: nat :| j < k && Top(p, s, s.order[j]) {
      i := FirstTop(p, s, j);
    } else {
      i := k;
    }
  }

  lemma ReadyMeansPick(p: QueuePolicy, s: State, ws: string)
    requires OrderOk(s.order, s.queues) && Ready(p, s, ws)
    ensures exists i: nat :: IsPick(p, s, i)
  {
    var best := HighestReady(p, s, ws, |s.order|);
    var k: nat :| k < |s.order| && s.order[k] == best;
    forall vs | vs in s.order && Ready(p, s, vs)
      ensures s.queues[vs][0].priority <= s.queues[best][0].priority
    {
      var j :| 0 <= j < |s.order| && s.order[j] == vs;
    }
    var i := FirstTop(p, s, k);
  }

  lemma NoPickMeansNoneReady(p: QueuePolicy, s: State)
    requires OrderOk(s.order, s.queues) && !Grantable(p, s)
    ensures Saturated(p, s)
  {
    forall ws | |s.active| < p.globalLimit ensures !Ready(p, s, ws) {
      if Ready(p, s, ws) { ReadyMeansPick(p, s, ws); }
    }
  }

  // ------------------------------------------------- each step keeps the invariant

  lemma RotationKeepsOrder(order: seq<string>, i: nat, queues: Queues)
    requires i < |order| && OrderOk(order, queues)
    ensures OrderOk(order[i + 1..] + order[..i + 1], queues)
  {
    var r := order[i + 1..] + order[..i + 1];
    forall v ensures v in r <==> v in order {
      assert order == order[..i + 1] + order[i + 1..];
    }
  }

  /** A queue that loses waiters leaves queues and order well formed. */
  lemma SetQueueKeepsShape(s: State, ws: string, rest: seq<Waiter>)
    requires QueuesOk(s.queues, s.callers) && OrderOk(s.order, s.queues) && ws in s.queues
    requires Ascending(rest) && forall w :: w in rest ==> w in s.queues[ws]
    ensures var r := SetQueue(s, ws, rest);
            QueuesOk(r.queues, s.callers) && OrderOk(r.order, r.queues)
  {
    assert QueueOk(s.queues[ws], ws, s.callers);
    WithoutRemoves(s.order, ws);
    forall i | 0 <= i < |rest| ensures rest[i].workspace == ws && Genuine(rest[i], s.callers) {
      assert rest[i] in s.queues[ws];
    }
  }

  /** Only the numbers that left the queue stop waiting. */
  lemma SetQueueKeeps(s: State, ws: string, rest: seq<Waiter>, n: nat)
    requires QueuesOk(s.queues, s.callers) && OrderOk(s.order, s.queues) && ws in s.queues
    requires Ascending(rest) && forall w :: w in rest ==> w in s.queues[ws]
    requires HasNumber(s.queues[ws], n)
    requires forall m :: HasNumber(rest, m) <==> HasNumber(s.queues[ws], m) && m != n
    ensures var r := SetQueue(s, ws, rest);
            && QueuesOk(r.queues, s.callers) && OrderOk(r.order, r.queues)
            && forall m :: InQueue(r.queues, m) <==> InQueue(s.queues, m) && m != n
  {
    SetQueueKeepsShape(s, ws, rest);
    forall vs | vs in s.queues && HasNumber(s.queues[vs], n) ensures vs == ws {
      QueueOfNumber(s.queues, s.callers, vs, n);
      QueueOfNumber(s.queues, s.callers, ws, n);
    }
    assert rest == [] ==> forall m :: !HasNumber(rest, m);
    hide QueuesOk, OrderOk, Ascending, QueueOk;
    SetQueueNumbers(s, ws, rest, n);
  }

  lemma SetQueueNumbers(s: State, ws: string, rest: seq<Waiter>, n: nat)
    requires ws in s.queues && forall vs :: vs in s.queues && HasNumber(s.queues[vs], n) ==> vs == ws
    requires forall m :: HasNumber(rest, m) <==> HasNumber(s.queues[ws], m) && m != n
    requires rest == [] ==> forall m :: !HasNumber(rest, m)
    ensures forall m :: InQueue(SetQueue(s, ws, rest).queues, m) <==> InQueue(s.queues, m) && m != n
  {
    hide HasNumber;
    var r := SetQueue(s, ws, rest);
    forall m ensures InQueue(r.queues, m) <==> InQueue(s.queues, m) && m != n {
      if InQueue(r.queues, m) {
        var vs :| vs in r.queues && HasNumber(r.queues[vs], m);
        assert HasNumber(s.queues[vs], m);
      }
      if InQueue(s.queues, m) && m != n {
        var vs :| vs in s.queues && HasNumber(s.queues[vs], m);
        assert vs in r.queues && HasNumber(r.queues[vs], m);
      }
    }
  }

  lemma SetQueueKeepsFifo(s: State, ws: string, rest: seq<Waiter>)
    requires Fifo(s.queues, s.granted, s.callers) && ws in s.queues
    requires forall w :: w in rest ==> w in s.queues[ws]
    ensures Fifo(SetQueue(s, ws, rest).queues, s.granted, s.callers)
  {
    var r := SetQueue(s, ws, rest);
    forall i, j | 0 <= i < |s.granted| && s.granted[i].workspace in r.queues
                  && 0 <= j < |r.queues[s.granted[i].workspace]|
      ensures s.granted[i].sequence < r.queues[s.granted[i].workspace][j].sequence
    {
      var vs := s.granted[i].workspace;
      assert r.queues[vs][j] in s.queues[vs];
    }
  }

  /** Admitting the head of a queue moves one number from the waiting to the admitted. */
  lemma GrantAccounts(queues: Queues, after: Queues, granted: seq<Waiter>, timedOut: set<nat>, w: Waiter, issued: nat)
    requires Accounted(queues, granted, timedOut, issued) && InQueue(queues, w.sequence)
    requires forall m :: InQueue(after, m) <==> InQueue(queues, m) && m != w.sequence
    ensures Accounted(after, granted + [w], timedOut, issued)
  {
    AppendNumbers(granted, w);
  }

  lemma GrantKeepsFifo(queues: Queues, after: Queues, granted: seq<Waiter>, callers: seq<Request>, ws: string)
    requires QueuesOk(queues, callers) && Fifo(queues, granted, callers) && ws in queues
    requires Fifo(after, granted, callers)
    requires ws in after ==> after[ws] == queues[ws][1..]
    ensures Fifo(after, granted + [queues[ws][0]], callers)
  {
    var w := queues[ws][0];
    assert QueueOk(queues[ws], ws, callers);
    var all := granted + [w];
    forall i, j | 0 <= i < j < |all| && all[i].workspace == all[j].workspace
      ensures all[i].sequence < all[j].sequence
    {
      assert all[i] == granted[i];
    }
  }

  lemma GrantKeepsQueues(s: State, i: nat)
    requires QueuesOk(s.queues, s.callers) && OrderOk(s.order, s.queues) && i < |s.order|
    ensures var ws := s.order[i]; var r := SetQueue(Turned(s, i), ws, s.queues[ws][1..]);
            var n := s.queues[ws][0].sequence;
            && QueuesOk(r.queues, s.callers) && OrderOk(r.order, r.queues)
            && InQueue(s.queues, n)
            && (forall m :: InQueue(r.queues, m) <==> InQueue(s.queues, m) && m != n)
  {
    var ws := s.order[i];
    HeadOfLine(s, i);
    RotationKeepsOrder(s.order, i, s.queues);
    TailNumbers(s.queues[ws]);
    hide QueuesOk, OrderOk, HasNumber, Ascending, InQueue, SetQueue;
    SetQueueKeeps(Turned(s, i), ws, s.queues[ws][1..], s.queues[ws][0].sequence);
  }

  lemma HeadOfLine(s: State, i: nat)
    requires QueuesOk(s.queues, s.callers) && OrderOk(s.order, s.queues) && i < |s.order|
    ensures var ws := s.order[i];
            && ws in s.queues && s.queues[ws] != [] && Ascending(s.queues[ws])
            && HasNumber(s.queues[ws], s.queues[ws][0].sequence) && InQueue(s.queues, s.queues[ws][0].sequence)
  {
    var ws := s.order[i];
    assert QueueOk(s.queues[ws], ws, s.callers);
    assert HasNumber(s.queues[ws], s.queues[ws][0].sequence);
  }

  lemma GrantKeepsLine(s: State, i: nat)
    requires LineInv(s) && i < |s.order|
    ensures LineInv(GrantAt(s, i))
  {
    var ws := s.order[i];
    GrantKeepsQueues(s, i);
    SetQueueKeepsFifo(Turned(s, i), ws, s.queues[ws][1..]);
    var after := GrantAt(s, i).queues;
    GrantAccounts(s.queues, after, s.granted, s.timedOut, s.queues[ws][0], |s.callers|);
    GrantKeepsFifo(s.queues, after, s.granted, s.callers, ws);
  }

  lemma NewLease(s: State, w: Waiter, ws: string)
    requires QueuesOk(s.queues, s.callers) && Fifo(s.queues, s.granted, s.callers)
    requires LeasesBacked(s.active, s.granted) && ws in s.queues && w == s.queues[ws][0]
    ensures w.sequence !in s.active
  {
    assert QueueOk(s.queues[ws], ws, s.callers);
    forall i | 0 <= i < |s.granted| ensures s.granted[i].sequence != w.sequence {
      assert Genuine(s.granted[i], s.callers) && Genuine(w, s.callers);
    }
  }

  lemma AddLeaseKeeps(p: QueuePolicy, s: State, w: Waiter)
    requires LeaseInv(p, s) && |s.active| < p.globalLimit && Eligible(p, s, w) && w.sequence !in s.active
    ensures var active := s.active[w.sequence := Lease(w.workspace, w.key)];
            && CountsOk(active, s.counts[w.workspace := CountOf(s.counts, w.workspace) + 1])
            && QuotasOk(p, active) && KeysOk(active) && LeasesBacked(active, s.granted + [w])
            && |active| == |s.active| + 1
  {
    var lease := Lease(w.workspace, w.key);
    AddLeaseBacked(s.active, s.granted, w);
    forall ws
      ensures |LeasesOf(s.active[w.sequence := lease], ws)| ==
              |LeasesOf(s.active, ws)| + (if ws == w.workspace then 1 else 0)
      ensures |s.active[w.sequence := lease]| == |s.active| + 1
    {
      LeasesOfAdd(s.active, w.sequence, lease, ws);
    }
    hide LeasesBacked, LeasesOf;
  }

  lemma AddLeaseBacked(active: map<nat, Lease>, granted: seq<Waiter>, w: Waiter)
    requires LeasesBacked(active, granted)
    ensures LeasesBacked(active[w.sequence := Lease(w.workspace, w.key)], granted + [w])
  {
    var after, all := active[w.sequence := Lease(w.workspace, w.key)], granted + [w];
    forall l | l in after
      ensures exists k :: 0 <= k < |all| && all[k].sequence == l && after[l] == Lease(all[k].workspace, all[k].key)
    {
      if l == w.sequence {
        assert all[|granted|] == w;
      } else {
        var k :| 0 <= k < |granted| && granted[k].sequence == l
                 && active[l] == Lease(granted[k].workspace, granted[k].key);
        assert all[k] == granted[k];
      }
    }
  }

  lemma GrantKeepsInv(p: QueuePolicy, s: State, i: nat)
    requires Inv(p, s) && |s.active| < p.globalLimit && IsPick(p, s, i)
    ensures Inv(p, GrantAt(s, i)) && |GrantAt(s, i).active| == |s.active| + 1
  {
    hide LineInv, LeaseInv, IsPick, GrantAt, CountsOk, QuotasOk, KeysOk, LeasesBacked, Eligible, QueuesOk, Fifo;
    PickedWaiter(p, s, i);
    var w := s.queues[s.order[i]][0];
    GrantKeepsLine(s, i);
    LeaseParts(p, s);
    NewLease(s, w, s.order[i]);
    AddLeaseKeeps(p, s, w);
    GrantedLeases(s, i);
    LeaseWhole(p, GrantAt(s, i));
  }

  lemma LeaseParts(p: QueuePolicy, s: State)
    requires LineInv(s) && LeaseInv(p, s)
    ensures QueuesOk(s.queues, s.callers) && Fifo(s.queues, s.granted, s.callers) && LeasesBacked(s.active, s.granted)
  {
  }

  lemma LeaseWhole(p: QueuePolicy, s: State)
    requires CountsOk(s.active, s.counts) && QuotasOk(p, s.active) && KeysOk(s.active)
    requires LeasesBacked(s.active, s.granted)
    ensures LeaseInv(p, s)
  {
  }

  lemma PickedWaiter(p: QueuePolicy, s: State, i: nat)
    requires Inv(p, s) && IsPick(p, s, i)
    ensures i < |s.order| && s.order[i] in s.queues && s.queues[s.order[i]] != []
    ensures Eligible(p, s, s.queues[s.order[i]][0]) && s.queues[s.order[i]][0].workspace == s.order[i]
  {
    assert QueueOk(s.queues[s.order[i]], s.order[i], s.callers);
  }

  lemma GrantedLeases(s: State, i: nat)
    requires i < |s.order| && s.order[i] in s.queues && s.queues[s.order[i]] != []
    ensures var w, r := s.queues[s.order[i]][0], GrantAt(s, i);
            && r.active == s.active[w.sequence := Lease(s.order[i], w.key)] && r.granted == s.granted + [w]
            && r.counts == s.counts[s.order[i] := CountOf(s.counts, s.order[i]) + 1]
  {
  }

  lemma GrantOneKeepsInv(p: QueuePolicy, s: State)
    requires Inv(p, s) && Grantable(p, s)
    ensures Inv(p, GrantOne(p, s)) && |GrantOne(p, s).active| == |s.active| + 1
  {
    var i: nat :| IsPick(p, s, i) && GrantOne(p, s) == GrantAt(s, i);
    GrantKeepsInv(p, s, i);
  }

  lemma MoreCallers(s: State, call: Request)
    requires QueuesOk(s.queues, s.callers) && Fifo(s.queues, s.granted, s.callers)
    ensures QueuesOk(s.queues, s.callers + [call]) && Fifo(s.queues, s.granted, s.callers + [call])
  {
    forall vs | vs in s.queues ensures QueueOk(s.queues[vs], vs, s.callers + [call]) {
      assert QueueOk(s.queues[vs], vs, s.callers);
    }
  }

  lemma EnqueueKeepsLine(s: State, ws: string, key: Option<ConcurrencyKey>, priority: int)
    requires LineInv(s)
    ensures LineInv(Enqueue(s, ws, key, priority))
  {
    var w := Waiter(ws, key, priority, |s.callers| + 1);
    MoreCallers(s, Asked(w));
    EnqueueNumbers(s.queues, ws, w);
    var after := s.queues[ws := QueueOf(s.queues, ws) + [w]];
    forall m: nat ensures InQueue(after, m) <==> InQueue(s.queues, m) || m == |s.callers| + 1 {
      assert InQueue(after, m) <==> InQueue(s.queues, m) || m == w.sequence;
    }
    EnqueueAccounts(s.queues, after, s.granted, s.timedOut, |s.callers|, s.callers);
    EnqueueKeepsFifo(s.queues, s.granted, s.callers, ws, w);
    LongerQueue(s.queues, s.callers, ws, w);
    hide QueuesOk, Fifo, Accounted, InQueue;
  }

  lemma LongerQueue(queues: Queues, callers: seq<Request>, ws: string, w: Waiter)
    requires QueuesOk(queues, callers) && QueuesOk(queues, callers + [Asked(w)])
    requires w.workspace == ws && w.sequence == |callers| + 1
    ensures QueuesOk(queues[ws := QueueOf(queues, ws) + [w]], callers + [Asked(w)])
  {
    var queue := QueueOf(queues, ws);
    assert QueueOk(queue + [w], ws, callers + [Asked(w)]) by {
      if ws in queues { assert QueueOk(queues[ws], ws, callers); }
    }
    hide QueueOk;
  }

  lemma EnqueueKeepsFifo(queues: Queues, granted: seq<Waiter>, callers: seq<Request>, ws: string, w: Waiter)
    requires Fifo(queues, granted, callers) && Fifo(queues, granted, callers + [Asked(w)])
    requires w.sequence == |callers| + 1
    ensures Fifo(queues[ws := QueueOf(queues, ws) + [w]], granted, callers + [Asked(w)])
  {
  }

  lemma EnqueueAccounts(queues: Queues, after: Queues, granted: seq<Waiter>, timedOut: set<nat>, issued: nat,
                        callers: seq<Request>)
    requires Accounted(queues, granted, timedOut, issued) && Fifo(queues, granted, callers) && |callers| == issued
    requires forall m: nat :: InQueue(after, m) <==> InQueue(queues, m) || m == issued + 1
    ensures Accounted(after, granted, timedOut, issued + 1)
  {
  }

  lemma EnqueueNumbers(queues: Queues, ws: string, w: Waiter)
    ensures forall m :: InQueue(queues[ws := QueueOf(queues, ws) + [w]], m) <==> InQueue(queues, m) || m == w.sequence
  {
    var after := queues[ws := QueueOf(queues, ws) + [w]];
    AppendNumbers(QueueOf(queues, ws), w);
    forall m ensures InQueue(after, m) <==> InQueue(queues, m) || m == w.sequence {
      if InQueue(queues, m) {
        var vs :| vs in queues && HasNumber(queues[vs], m);
        assert HasNumber(after[vs], m);
      }
      assert HasNumber(after[ws], w.sequence);
      if InQueue(after, m) {
        var vs :| vs in after && HasNumber(after[vs], m);
        assert vs != ws ==> HasNumber(queues[vs], m);
      }
    }
  }

  lemma {:induction false} GrantAllKeepsInv(p: QueuePolicy, s: State)
    requires Inv(p, s)
    ensures Inv(p, GrantAll(p, s)) && Saturated(p, GrantAll(p, s))
    decreases p.globalLimit - |s.active|
  {
    hide LineInv, LeaseInv, Saturated, Grantable, GrantOne;
    if Grantable(p, s) {
      RoomWhenGrantable(p, s);
      GrantOneKeepsInv(p, s);
      GrantAllKeepsInv(p, GrantOne(p, s));
    } else {
      InvOrderOk(p, s);
      NoPickMeansNoneReady(p, s);
    }
  }

  lemma RoomWhenGrantable(p: QueuePolicy, s: State)
    requires Grantable(p, s)
    ensures |s.active| < p.globalLimit
  {
  }

  lemma InvOrderOk(p: QueuePolicy, s: State)
    requires Inv(p, s)
    ensures OrderOk(s.order, s.queues)
  {
  }

  lemma EnqueueKeepsInv(p: QueuePolicy, s: State, ws: string, key: Option<ConcurrencyKey>, priority: int)
    requires Inv(p, s)
    ensures Inv(p, Enqueue(s, ws, key, priority))
  {
    EnqueueKeepsLine(s, ws, key, priority);
  }

  lemma GiveUpKeepsInv(p: QueuePolicy, s: State, ws: string, n: nat)
    requires Inv(p, s)
    ensures Inv(p, GiveUp(s, ws, n))
  {
    if HasNumber(QueueOf(s.queues, ws), n) {
      var rest := Drop(s.queues[ws], n);
      assert QueueOk(s.queues[ws], ws, s.callers);
      DropRemoves(s.queues[ws], n);
      SetQueueKeeps(s, ws, rest, n);
      SetQueueKeepsFifo(s, ws, rest);
      WaitingIsNotAdmitted(s, ws, n);
      GiveUpAccounts(s.queues, SetQueue(s, ws, rest).queues, s.granted, s.timedOut, n, |s.callers|);
    }
  }

  lemma WaitingIsNotAdmitted(s: State, ws: string, n: nat)
    requires QueuesOk(s.queues, s.callers) && Fifo(s.queues, s.granted, s.callers)
    requires ws in s.queues && HasNumber(s.queues[ws], n)
    ensures !HasNumber(s.granted, n) && 1 <= n <= |s.callers|
  {
    assert QueueOk(s.queues[ws], ws, s.callers);
    forall i | 0 <= i < |s.granted| ensures s.granted[i].sequence != n {
      assert Genuine(s.granted[i], s.callers);
    }
  }

  lemma GiveUpAccounts(queues: Queues, after: Queues, granted: seq<Waiter>, timedOut: set<nat>, n: nat, issued: nat)
    requires Accounted(queues, granted, timedOut, issued) && 1 <= n <= issued && !HasNumber(granted, n)
    requires forall m :: InQueue(after, m) <==> InQueue(queues, m) && m != n
    ensures Accounted(after, granted, timedOut + {n}, issued)
  {
  }

  lemma RemoveLeaseCounts(active: map<nat, Lease>, counts: map<string, nat>, lease: nat)
    requires CountsOk(active, counts) && lease in active
    ensures var ws := active[lease].workspace;
            ws in counts
            && CountsOk(active - {lease},
                        if counts[ws] <= 1 then counts - {ws} else counts[ws := counts[ws] - 1])
            && |active - {lease}| == |active| - 1
            && forall v :: |LeasesOf(active - {lease}, v)| <= |LeasesOf(active, v)|
  {
    var ws := active[lease].workspace;
    assert lease in LeasesOf(active, ws);
    assert CountOf(counts, ws) == |LeasesOf(active, ws)|;
    forall v
      ensures |LeasesOf(active - {lease}, v)| == |LeasesOf(active, v)| - (if v == ws then 1 else 0)
      ensures |active - {lease}| == |active| - 1
    {
      LeasesOfRemove(active, lease, v);
    }
  }

  lemma FreeKeepsInv(p: QueuePolicy, s: State, lease: nat)
    requires Inv(p, s)
    ensures Inv(p, Free(s, lease))
    ensures lease in s.active ==> |Free(s, lease).active| == |s.active| - 1
  {
    if lease in s.active {
      RemoveLeaseCounts(s.active, s.counts, lease);
      FreeKeepsKeys(s.active, s.granted, lease);
    }
  }

  lemma FreeKeepsKeys(active: map<nat, Lease>, granted: seq<Waiter>, lease: nat)
    requires KeysOk(active) && LeasesBacked(active, granted)
    ensures KeysOk(active - {lease}) && LeasesBacked(active - {lease}, granted)
  {
  }
}
