/**
 The service supervisor's tick over two children, the MCP server and the tunnel
 that depends on it.  Times are real numbers; what clocks, child processes and
 health probes answer comes in as input.
 */
module Supervision {
  import opened Common

  datatype Config = Config(
    initialDelay: real, multiplier: real, maxDelay: real, stableReset: real, startupTimeout: real, tunnelEnabled: bool)
  {
    /** What loading the configuration accepts. */
    predicate Valid() {
      && initialDelay > 0.0 && multiplier > 0.0 && maxDelay >= initialDelay
      && stableReset >= 0.0 && startupTimeout > 0.0
    }
  }

  datatype Phase = Stopped | Starting | Healthy | Backoff | Failed

  datatype Child = Child(
    running: bool, phase: Phase, startedAt: Option<real>, unhealthySince: Option<real>,
    nextStart: real, failures: nat, starts: nat, restarts: nat, lastExit: Option<int>)

  const IDLE: Child := Child(false, Stopped, None, None, 0.0, 0, 0, 0, None)

  datatype Top = TopStarting | StartingMcp | Degraded | WaitingForProxy | StartingTunnel | AllHealthy

  /** One attempt to start a child: the tick's time, the clock just after, and the failures counted before it. */
  datatype Attempt = Attempt(now: real, clock: real, failures: nat)

  /**
   The two children, and the history of their start attempts; `dropped` are the
   tunnel's attempts ended by a lost dependency.
   */
  datatype State = State(mcp: Child, tunnel: Child, top: Top, mcpAttempts: seq<Attempt>, tunnelAttempts: seq<Attempt>,
                         dropped: set<int>)

  const START: State := State(IDLE, IDLE, TopStarting, [], [], {})

  datatype Launch = Launch(ok: bool, clock: real)

  /** What one tick is told: the time, exits seen, how starting goes, and the answers of the probes. */
  datatype Input = Input(
    now: real, mcpExit: Option<int>, tunnelExit: Option<int>, mcpLaunch: Launch, tunnelLaunch: Launch,
    mcpHealthy: bool, proxyReady: bool, doctor: bool, tunnelHealthy: bool,
    mcpStopExit: Option<int>, tunnelStopExit: Option<int>)
  {
    predicate Ordered() {
      now <= mcpLaunch.clock <= tunnelLaunch.clock
    }
  }

  // ------------------------------------------------------------------- backoff

  function Power(b: real, n: nat): real {
    if n == 0 then 1.0 else b * Power(b, n - 1)
  }

  /** The least real number that no longer rounds to a finite double. */
  function FloatLimit(): real {
    Power(2.0, 1024) - Power(2.0, 970)
  }

  /** Raising a float to a power raises an error beyond the range of doubles. */
  predicate Overflows(b: real, n: nat) {
    Power(b, n) >= FloatLimit()
  }

  function Delay(cfg: Config, failures: nat): real
    requires failures >= 1
  {
    var d := cfg.initialDelay * Power(cfg.multiplier, failures - 1);
    if d < cfg.maxDelay then d else cfg.maxDelay
  }

  /** A step of the tick either goes on or dies with an arithmetic error. */
  datatype Outcome<T> = Going(value: T) | Crashed(value: T)

  ghost function Schedule(cfg: Config, c: Child, now: real): Outcome<Child> {
    if Overflows(cfg.multiplier, c.failures) then Crashed(c.(failures := c.failures + 1))
    else Going(c.(failures := c.failures + 1, nextStart := now + Delay(cfg, c.failures + 1), phase := Backoff))
  }

  ghost function Observe(cfg: Config, c: Child, now: real, exit: Option<int>): Outcome<Child> {
    if !c.running || exit.None? then Going(c)
    else Schedule(cfg, c.(running := false, lastExit := exit, unhealthySince := None), now)
  }

  ghost function StartChild(cfg: Config, c: Child, launch: Launch): Outcome<Child> {
    if !launch.ok then Schedule(cfg, c.(phase := Failed), launch.clock)
    else
      Going(c.(running := true, phase := Starting, startedAt := Some(launch.clock),
               unhealthySince := Some(launch.clock),
               starts := c.starts + 1, restarts := if c.starts + 1 > 1 then c.restarts + 1 else c.restarts))
  }

  function StopChild(c: Child, exit: Option<int>): Child {
    if !c.running then c else c.(running := false, phase := Stopped, lastExit := exit, unhealthySince := None)
  }

  function ResetIfStable(cfg: Config, c: Child, now: real): Child {
    if c.startedAt.Some? && now - c.startedAt.value >= cfg.stableReset then c.(failures := 0) else c
  }

  /** A running child's probe: healthy, still within its time, or given up. */
  ghost function Check(cfg: Config, c: Child, now: real, healthy: bool, stopExit: Option<int>): Outcome<Child> {
    if healthy then Going(ResetIfStable(cfg, c.(phase := Healthy, unhealthySince := None), now))
    else
      var since := if c.unhealthySince.Some? then c.unhealthySince.value else now;
      var waiting := c.(phase := Starting, unhealthySince := Some(since));
      if now - since >= cfg.startupTimeout then Schedule(cfg, StopChild(waiting, stopExit), now) else Going(waiting)
  }

  // ---------------------------------------------------------------------- tick

  ghost function WithMcp(s: State, c: Outcome<Child>): Outcome<State> {
    if c.Going? then Going(s.(mcp := c.value)) else Crashed(s.(mcp := c.value))
  }

  ghost function WithTunnel(s: State, c: Outcome<Child>): Outcome<State> {
    if c.Going? then Going(s.(tunnel := c.value)) else Crashed(s.(tunnel := c.value))
  }

  ghost function LaunchMcp(cfg: Config, s: State, i: Input): Outcome<State> {
    if s.mcp.running || i.now < s.mcp.nextStart then Going(s)
    else
      WithMcp(s.(mcpAttempts := s.mcpAttempts + [Attempt(i.now, i.mcpLaunch.clock, s.mcp.failures)]),
              StartChild(cfg, s.mcp, i.mcpLaunch))
  }

  ghost function CheckMcp(cfg: Config, s: State, i: Input): Outcome<State> {
    if !s.mcp.running then Going(s) else WithMcp(s, Check(cfg, s.mcp, i.now, i.mcpHealthy, i.mcpStopExit))
  }

  predicate McpHealthy(s: State, i: Input) {
    s.mcp.running && i.mcpHealthy
  }

  predicate DependenciesReady(s: State, i: Input) {
    McpHealthy(s, i) && i.proxyReady
  }

  ghost function LaunchTunnel(cfg: Config, s: State, i: Input): Outcome<State> {
    if !cfg.tunnelEnabled then Going(s.(tunnel := StopChild(s.tunnel, i.tunnelStopExit).(phase := Stopped)))
    else if !DependenciesReady(s, i) then
      Going(s.(tunnel := StopChild(s.tunnel, i.tunnelStopExit).(phase := Backoff),
               dropped := if s.tunnel.running then s.dropped + {|s.tunnelAttempts| - 1} else s.dropped))
    else if s.tunnel.running || i.now < s.tunnel.nextStart then Going(s)
    else if i.doctor then
      WithTunnel(s.(tunnelAttempts := s.tunnelAttempts + [Attempt(i.now, i.tunnelLaunch.clock, s.tunnel.failures)]),
                 StartChild(cfg, s.tunnel, i.tunnelLaunch))
    else WithTunnel(s, Schedule(cfg, s.tunnel, i.now))
  }

  ghost function CheckTunnel(cfg: Config, s: State, i: Input): Outcome<State> {
    if !s.tunnel.running then Going(s)
        else WithTunnel(s, Check(cfg, s.tunnel, i.now, i.tunnelHealthy, i.tunnelStopExit))
  }

  function TopState(cfg: Config, s: State, i: Input): Top {
    if !McpHealthy(s, i) then (if s.mcp.running then StartingMcp else Degraded)
    else if cfg.tunnelEnabled && !i.proxyReady then WaitingForProxy
    else if cfg.tunnelEnabled && !s.tunnel.phase.Healthy? then StartingTunnel
    else AllHealthy
  }

  /** The part of a tick before the tunnel's turn: exits are observed, then the server is started and probed. */
  ghost function ServerPart(cfg: Config, s: State, i: Input): Outcome<State> {
    var a := WithMcp(s, Observe(cfg, s.mcp, i.now, i.mcpExit));
    if a.Crashed? then a else
    var b := WithTunnel(a.value, Observe(cfg, a.value.tunnel, i.now, i.tunnelExit));
    if b.Crashed? then b else
    var c := LaunchMcp(cfg, b.value, i);
    if c.Crashed? then c else CheckMcp(cfg, c.value, i)
  }

  ghost function Tick(cfg: Config, s: State, i: Input): Outcome<State> {
    var d := ServerPart(cfg, s, i);
    if d.Crashed? then d else
    var e := LaunchTunnel(cfg, d.value, i);
    if e.Crashed? then e else
    var f := CheckTunnel(cfg, e.value, i);
    if f.Crashed? then f else Going(f.value.(top := TopState(cfg, f.value, i)))
  }

  /** A tick in which the tunnel's turn finds its server healthy and the proxy ready. */
  ghost predicate ReadyTick(cfg: Config, s: State, i: Input) {
    ServerPart(cfg, s, i).Going? && DependenciesReady(ServerPart(cfg, s, i).value, i)
  }

  /** Ticks one after the other; the first crash ends the run. */
  ghost function Run(cfg: Config, inputs: seq<Input>): Outcome<State> {
    if inputs == [] then Going(START)
    else
      var before := Run(cfg, inputs[..|inputs| - 1]);
      if before.Crashed? then before else Tick(cfg, before.value, inputs[|inputs| - 1])
  }

  /** The clock never runs backwards, within a tick and from tick to tick. */
  ghost predicate Monotone(inputs: seq<Input>) {
    && (forall k :: 0 <= k < |inputs| ==> inputs[k].Ordered())
    && (forall k :: 0 < k < |inputs| ==> inputs[k - 1].tunnelLaunch.clock <= inputs[k].now)
  }

  // ----------------------------------------------------------------- invariant

  /** The later attempt had a failure to wait for, and waited the delay of the failures counted by then. */
  ghost predicate SpacedPair(cfg: Config, earlier: Attempt, later: Attempt) {
    later.failures >= 1 && later.now >= earlier.clock + Delay(cfg, later.failures)
  }

  ghost predicate Spaced(cfg: Config, attempts: seq<Attempt>, dropped: set<int>) {
    forall k :: 0 < k < |attempts| && k - 1 !in dropped ==> SpacedPair(cfg, attempts[k - 1], attempts[k])
  }

  /** A child that is down may not be started before the delay since its last attempt is over. */
  ghost predicate ChildOk(cfg: Config, c: Child, attempts: seq<Attempt>, dropped: set<int>, time: real) {
    && Spaced(cfg, attempts, dropped)
    && (attempts != [] ==> attempts[|attempts| - 1].clock <= time)
    && (c.running ==> attempts != [] && c.nextStart <= attempts[|attempts| - 1].clock)
    && (!c.running && attempts != [] && |attempts| - 1 !in dropped ==>
          c.failures >= 1 && c.nextStart >= attempts[|attempts| - 1].clock + Delay(cfg, c.failures))
  }

  lemma ScheduleKeeps(cfg: Config, c: Child, now: real, attempts: seq<Attempt>, dropped: set<int>, time: real)
    requires Spaced(cfg, attempts, dropped) && (attempts != [] ==> attempts[|attempts| - 1].clock <= now) && now <= time
    requires !c.running
    ensures ChildOk(cfg, Schedule(cfg, c, now).value, attempts, dropped, time) || Schedule(cfg, c, now).Crashed?
  {
  }

  lemma ObserveKeeps(cfg: Config, c: Child, now: real, exit: Option<int>, attempts: seq<Attempt>, dropped: set<int>,
                     time: real)
    requires ChildOk(cfg, c, attempts, dropped, time) && time <= now
    ensures var r := Observe(cfg, c, now, exit); r.Going? ==> ChildOk(cfg, r.value, attempts, dropped, now)
  {
  }

  lemma StartKeeps(cfg: Config, c: Child, now: real, launch: Launch, attempts: seq<Attempt>, dropped: set<int>,
                   time: real)
    requires ChildOk(cfg, c, attempts, dropped, time) && !c.running && c.nextStart <= now <= launch.clock
    requires |attempts| !in dropped
    ensures var r := StartChild(cfg, c, launch);
            r.Going? ==> ChildOk(cfg, r.value, attempts + [Attempt(now, launch.clock, c.failures)], dropped,
                                 launch.clock)
  {
    hide Overflows, Delay;
  }

  /** Just started children are not given up in the same tick. */
  lemma CheckKeeps(cfg: Config, c: Child, now: real, healthy: bool, stopExit: Option<int>, attempts: seq<Attempt>,
                   dropped: set<int>, time: real)
    requires cfg.Valid() && ChildOk(cfg, c, attempts, dropped, time) && c.running && now <= time
    requires attempts[|attempts| - 1].clock <= now || c.unhealthySince == Some(attempts[|attempts| - 1].clock)
    ensures var r := Check(cfg, c, now, healthy, stopExit); r.Going? ==> ChildOk(cfg, r.value, attempts, dropped, time)
  {
    hide Overflows, Delay;
  }

  ghost predicate Inv(cfg: Config, s: State, time: real) {
    && ChildOk(cfg, s.mcp, s.mcpAttempts, {}, time)
    && ChildOk(cfg, s.tunnel, s.tunnelAttempts, s.dropped, time)
    && (forall k :: k in s.dropped ==> k < |s.tunnelAttempts|)
    && (!cfg.tunnelEnabled ==> s.tunnelAttempts == [])
  }

  lemma LaterTime(cfg: Config, c: Child, attempts: seq<Attempt>, dropped: set<int>, time: real, later: real)
    requires ChildOk(cfg, c, attempts, dropped, time) && time <= later
    ensures ChildOk(cfg, c, attempts, dropped, later)
  {
  }

  /** The first half of a tick: the MCP server. */
  lemma McpKeeps(cfg: Config, s: State, i: Input, time: real)
    requires cfg.Valid() && i.Ordered() && ChildOk(cfg, s.mcp, s.mcpAttempts, {}, time) && time <= i.now
    ensures var a := Observe(cfg, s.mcp, i.now, i.mcpExit);
            a.Going? ==>
              var c := LaunchMcp(cfg, s.(mcp := a.value), i);
              c.Going? ==>
                var d := CheckMcp(cfg, c.value, i);
                d.Going? ==> ChildOk(cfg, d.value.mcp, d.value.mcpAttempts, {}, i.mcpLaunch.clock)
  {
    hide Overflows, Delay, Spaced, ChildOk, Check, Schedule;
    ObserveKeeps(cfg, s.mcp, i.now, i.mcpExit, s.mcpAttempts, {}, time);
    var a := Observe(cfg, s.mcp, i.now, i.mcpExit);
    if a.Going? {
      var b := s.(mcp := a.value);
      LastClock(cfg, a.value, s.mcpAttempts, {}, i.now);
      if !b.mcp.running && i.now >= b.mcp.nextStart {
        StartKeeps(cfg, b.mcp, i.now, i.mcpLaunch, b.mcpAttempts, {}, i.now);
      } else {
        LaterTime(cfg, b.mcp, b.mcpAttempts, {}, i.now, i.mcpLaunch.clock);
      }
      var c := LaunchMcp(cfg, b, i);
      if c.Going? && c.value.mcp.running {
        StartedNow(cfg, b.mcp, i.mcpLaunch);
        LastClock(cfg, c.value.mcp, c.value.mcpAttempts, {}, i.mcpLaunch.clock);
        CheckKeeps(cfg, c.value.mcp, i.now, i.mcpHealthy, i.mcpStopExit, c.value.mcpAttempts, {}, i.mcpLaunch.clock);
      }
    }
  }

  lemma LastClock(cfg: Config, c: Child, attempts: seq<Attempt>, dropped: set<int>, time: real)
    requires ChildOk(cfg, c, attempts, dropped, time)
    ensures attempts != [] ==> attempts[|attempts| - 1].clock <= time
    ensures c.running ==> attempts != []
  {
  }

  lemma StartedNow(cfg: Config, c: Child, launch: Launch)
    ensures var r := StartChild(cfg, c, launch);
            r.Going? && r.value.running && !c.running ==> r.value.unhealthySince == Some(launch.clock)
  {
  }

  lemma DropKeeps(cfg: Config, c: Child, exit: Option<int>, phase: Phase, attempts: seq<Attempt>, dropped: set<int>,
                  time: real)
    requires ChildOk(cfg, c, attempts, dropped, time)
    ensures ChildOk(cfg, StopChild(c, exit).(phase := phase), attempts,
                    if c.running then dropped + {|attempts| - 1} else dropped, time)
  {
    hide Delay;
  }

  /** The second half: the tunnel. */
  lemma TunnelKeeps(cfg: Config, s: State, i: Input, time: real)
    requires cfg.Valid() && i.Ordered() && ChildOk(cfg, s.tunnel, s.tunnelAttempts, s.dropped, time) && time <= i.now
    requires forall k :: k in s.dropped ==> k < |s.tunnelAttempts|
    requires !cfg.tunnelEnabled ==> s.tunnelAttempts == []
    ensures var e := LaunchTunnel(cfg, s, i);
            e.Going? ==>
              var f := CheckTunnel(cfg, e.value, i);
              f.Going? ==>
                && ChildOk(cfg, f.value.tunnel, f.value.tunnelAttempts, f.value.dropped, i.tunnelLaunch.clock)
                && (forall k :: k in f.value.dropped ==> k < |f.value.tunnelAttempts|)
                && (!cfg.tunnelEnabled ==> f.value.tunnelAttempts == [])
  {
    hide Overflows, Delay, Spaced, ChildOk, Check;
    LastClock(cfg, s.tunnel, s.tunnelAttempts, s.dropped, time);
    LaterTime(cfg, s.tunnel, s.tunnelAttempts, s.dropped, time, i.tunnelLaunch.clock);
    if !cfg.tunnelEnabled {
      NeverStarted(cfg, s.tunnel, i.tunnelStopExit, s.dropped, i.tunnelLaunch.clock);
    } else if !DependenciesReady(s, i) {
      DropKeeps(cfg, s.tunnel, i.tunnelStopExit, Backoff, s.tunnelAttempts, s.dropped, i.tunnelLaunch.clock);
    } else if !s.tunnel.running && i.now >= s.tunnel.nextStart {
      if i.doctor {
        StartKeeps(cfg, s.tunnel, i.now, i.tunnelLaunch, s.tunnelAttempts, s.dropped, i.tunnelLaunch.clock);
      } else {
        ChildSpaced(cfg, s.tunnel, s.tunnelAttempts, s.dropped, time);
        ScheduleKeeps(cfg, s.tunnel, i.now, s.tunnelAttempts, s.dropped, i.tunnelLaunch.clock);
      }
    }
    var e := LaunchTunnel(cfg, s, i);
    if e.Going? && e.value.tunnel.running {
      StartedNow(cfg, s.tunnel, i.tunnelLaunch);
      LastClock(cfg, e.value.tunnel, e.value.tunnelAttempts, e.value.dropped, i.tunnelLaunch.clock);
      CheckKeeps(cfg, e.value.tunnel, i.now, i.tunnelHealthy, i.tunnelStopExit, e.value.tunnelAttempts,
          e.value.dropped, i.tunnelLaunch.clock);
    }
  }

  lemma ChildSpaced(cfg: Config, c: Child, attempts: seq<Attempt>, dropped: set<int>, time: real)
    requires ChildOk(cfg, c, attempts, dropped, time)
    ensures Spaced(cfg, attempts, dropped)
  {
  }

  lemma NeverStarted(cfg: Config, c: Child, exit: Option<int>, dropped: set<int>, time: real)
    requires ChildOk(cfg, c, [], dropped, time)
    ensures ChildOk(cfg, StopChild(c, exit).(phase := Stopped), [], dropped, time) && !c.running
  {
    hide Delay;
  }

  /** A tick works on one child at a time. */
  lemma TickParts(cfg: Config, s: State, i: Input)
    ensures var r := Tick(cfg, s, i);
            r.Going? ==>
              var a := Observe(cfg, s.mcp, i.now, i.mcpExit);
              a.Going? &&
              var b := Observe(cfg, s.tunnel, i.now, i.tunnelExit);
              b.Going? &&
              var c := LaunchMcp(cfg, s.(mcp := a.value, tunnel := b.value), i);
              c.Going? &&
              var d := CheckMcp(cfg, c.value, i);
              d.Going? &&
              var e := LaunchTunnel(cfg, d.value, i);
              e.Going? &&
              var f := CheckTunnel(cfg, e.value, i);
              f.Going? && r.value == f.value.(top := r.value.top)
              && d.value.tunnel == b.value && d.value.tunnelAttempts == s.tunnelAttempts && d.value.dropped == s.dropped
              && f.value.mcp == d.value.mcp && f.value.mcpAttempts == d.value.mcpAttempts
  {
    hide Observe, StartChild, Check, Schedule;
  }

  lemma TickKeepsInv(cfg: Config, s: State, i: Input, time: real)
    requires cfg.Valid() && i.Ordered() && Inv(cfg, s, time) && time <= i.now
    ensures var r := Tick(cfg, s, i); r.Going? ==> Inv(cfg, r.value, i.tunnelLaunch.clock)
  {
    hide Observe, StartChild, Check, Schedule, ChildOk, LaunchMcp, LaunchTunnel, CheckMcp, CheckTunnel, Tick;
    var r := Tick(cfg, s, i);
    TickParts(cfg, s, i);
    if r.Going? {
      var b := Observe(cfg, s.tunnel, i.now, i.tunnelExit);
      ObserveKeeps(cfg, s.tunnel, i.now, i.tunnelExit, s.tunnelAttempts, s.dropped, time);
      McpKeeps(cfg, s.(tunnel := b.value), i, time);
      var c := LaunchMcp(cfg, s.(mcp := Observe(cfg, s.mcp, i.now, i.mcpExit).value, tunnel := b.value), i);
      var d := CheckMcp(cfg, c.value, i);
      LaterTime(cfg, d.value.mcp, d.value.mcpAttempts, {}, i.mcpLaunch.clock, i.tunnelLaunch.clock);
      TunnelKeeps(cfg, d.value, i, i.now);
    }
  }

  ghost function EndTime(inputs: seq<Input>): real {
    if inputs == [] then 0.0 else inputs[|inputs| - 1].tunnelLaunch.clock
  }

  lemma {:induction false} RunKeepsInv(cfg: Config, inputs: seq<Input>)
    requires cfg.Valid() && Monotone(inputs) && (inputs != [] ==> inputs[0].now >= 0.0)
    ensures Run(cfg, inputs).Going? ==> Inv(cfg, Run(cfg, inputs).value, EndTime(inputs))
  {
    if inputs == [] {
      assert ChildOk(cfg, IDLE, [], {}, 0.0);
    } else {
      hide Inv, Tick;
      var front, last := inputs[..|inputs| - 1], inputs[|inputs| - 1];
      RunKeepsInv(cfg, front);
      if Run(cfg, front).Going? {
        TickKeepsInv(cfg, Run(cfg, front).value, last, EndTime(front));
      }
    }
  }

  // ------------------------------------------------------------------ theorems

  /**
   Restart spacing: for any clock that does not run backwards, two consecutive
   attempts to start the MCP server are at least the backoff of the failures
   counted by then apart; so are the tunnel's, unless the earlier one was ended
   by a lost dependency.
   */
  lemma AttemptsAreSpaced(cfg: Config, inputs: seq<Input>)
    requires cfg.Valid() && Monotone(inputs) && (inputs != [] ==> inputs[0].now >= 0.0)
    ensures var r := Run(cfg, inputs);
            r.Going? ==>
              && (forall k :: 0 < k < |r.value.mcpAttempts| ==>
                    SpacedPair(cfg, r.value.mcpAttempts[k - 1], r.value.mcpAttempts[k]))
              && (forall k :: 0 < k < |r.value.tunnelAttempts| && k - 1 !in r.value.dropped ==>
                    SpacedPair(cfg, r.value.tunnelAttempts[k - 1], r.value.tunnelAttempts[k]))
  {
    hide Delay, Tick;
    RunKeepsInv(cfg, inputs);
  }

  lemma {:induction false} PowerAtLeastOne(b: real, n: nat)
    requires b >= 1.0
    ensures Power(b, n) >= 1.0
  {
    if n > 0 {
      PowerAtLeastOne(b, n - 1);
      assert b * Power(b, n - 1) >= 1.0 * Power(b, n - 1);
    }
  }

  /**
   No restart comes sooner than the initial delay exactly when the multiplier is not
   below one, which the configuration does not check.
   */
  lemma NeverBelowInitial(cfg: Config)
    requires cfg.Valid()
    ensures (forall k: nat :: k >= 1 ==> Delay(cfg, k) >= cfg.initialDelay) <==> cfg.multiplier >= 1.0
  {
    if cfg.multiplier >= 1.0 {
      forall k: nat | k >= 1 ensures Delay(cfg, k) >= cfg.initialDelay {
        PowerAtLeastOne(cfg.multiplier, k - 1);
        assert cfg.initialDelay * Power(cfg.multiplier, k - 1) >= cfg.initialDelay * 1.0;
      }
    } else {
      assert Power(cfg.multiplier, 1) == cfg.multiplier * Power(cfg.multiplier, 0) == cfg.multiplier;
      assert cfg.initialDelay * cfg.multiplier < cfg.initialDelay * 1.0;
      assert Delay(cfg, 2) < cfg.initialDelay;
    }
  }

  /** After every tick a live tunnel was allowed, its server healthy and the proxy ready in that very tick. */
  lemma LiveTunnelHasItsDependencies(cfg: Config, s: State, i: Input)
    ensures var r := Tick(cfg, s, i);
            r.Going? && r.value.tunnel.running ==>
                cfg.tunnelEnabled && r.value.mcp.running && i.mcpHealthy && i.proxyReady
  {
    hide Observe, StartChild, Schedule, LaunchMcp, CheckMcp;
    TickParts(cfg, s, i);
  }

  /** A live tunnel is stopped, and a stopped one left alone, by a tick whose server or proxy is not ready. */
  lemma NotReadyTick(cfg: Config, s: State, i: Input)
    requires cfg.tunnelEnabled && !ReadyTick(cfg, s, i) && (s.tunnel.running ==> i.tunnelExit.None?)
    ensures var r := Tick(cfg, s, i);
            r.Going? ==>
              && StoppedAs(s, r.value)
              && r.value.dropped == if s.tunnel.running then s.dropped + {|s.tunnelAttempts| - 1} else s.dropped
  {
    hide StartChild, Schedule, Check, LaunchMcp, CheckMcp;
    TickParts(cfg, s, i);
  }

  /** The tunnel is down with the schedule, the failures and the attempts it had in the earlier state. */
  ghost predicate StoppedAs(earlier: State, s: State) {
    && !s.tunnel.running && s.tunnel.nextStart == earlier.tunnel.nextStart
    && s.tunnel.failures == earlier.tunnel.failures && s.tunnelAttempts == earlier.tunnelAttempts
  }

  /** A ready tick whose time has come starts the tunnel, whether its server was up before or started in that tick. */
  lemma ReadyTickStarts(cfg: Config, s: State, i: Input)
    requires cfg.Valid() && cfg.tunnelEnabled && i.Ordered() && ReadyTick(cfg, s, i)
    requires !s.tunnel.running && s.tunnel.nextStart <= i.now && i.doctor && i.tunnelLaunch.ok
    ensures var r := Tick(cfg, s, i);
            && r.Going? && r.value.tunnel.running && r.value.dropped == s.dropped
            && r.value.tunnelAttempts == s.tunnelAttempts + [Attempt(i.now, i.tunnelLaunch.clock, s.tunnel.failures)]
  {
    hide StartChild, Schedule, Check, ServerPart;
    ServerPartOnly(cfg, s, i);
    var d := ServerPart(cfg, s, i).value;
    JustStarted(cfg, d.tunnel, i);
  }

  /** The server's part of a tick leaves a stopped tunnel alone. */
  lemma ServerPartOnly(cfg: Config, s: State, i: Input)
    requires !s.tunnel.running
    ensures var d := ServerPart(cfg, s, i).value;
            d.tunnel == s.tunnel && d.tunnelAttempts == s.tunnelAttempts && d.dropped == s.dropped
  {
    hide StartChild, Schedule, Check;
  }

  /** A child started in a tick passes the check of that tick. */
  lemma JustStarted(cfg: Config, c: Child, i: Input)
    requires cfg.Valid() && i.Ordered() && i.tunnelLaunch.ok
    ensures var r := StartChild(cfg, c, i.tunnelLaunch);
            && r.Going? && r.value.running
            && var f := Check(cfg, r.value, i.now, i.tunnelHealthy, i.tunnelStopExit);
            f.Going? && f.value.running
  {
    hide Schedule;
  }

  lemma RunStep(cfg: Config, inputs: seq<Input>, i: Input)
    ensures var before := Run(cfg, inputs);
            Run(cfg, inputs + [i]) == if before.Crashed? then before else Tick(cfg, before.value, i)
  {
    hide Tick;
    assert (inputs + [i])[..|inputs|] == inputs;
  }

  /** No tick of the gap after these inputs is ready. */
  ghost predicate NeverReady(cfg: Config, inputs: seq<Input>, gap: seq<Input>) {
    forall k :: 0 <= k < |gap| ==> !ReadyTick(cfg, Run(cfg, inputs + gap[..k]).value, gap[k])
  }

  lemma GapFront(cfg: Config, inputs: seq<Input>, front: seq<Input>, last: Input)
    requires NeverReady(cfg, inputs, front + [last]) && Run(cfg, inputs + (front + [last])).Going?
    ensures NeverReady(cfg, inputs, front) && Run(cfg, inputs + front).Going?
    ensures !ReadyTick(cfg, Run(cfg, inputs + front).value, last)
    ensures Run(cfg, inputs + (front + [last])) == Tick(cfg, Run(cfg, inputs + front).value, last)
  {
    hide ReadyTick, Tick, Run;
    var gap := front + [last];
    assert gap[..|front|] == front && gap[|front|] == last;
    assert inputs + gap == inputs + front + [last];
    RunStep(cfg, inputs + front, last);
    forall k | 0 <= k < |front| ensures !ReadyTick(cfg, Run(cfg, inputs + front[..k]).value, front[k]) {
      assert front[..k] == gap[..k] && front[k] == gap[k];
    }
  }

  /** However long the dependency stays away, the schedule and the failures are those of before the loss. */
  lemma {:induction false} GapKeepsSchedule(cfg: Config, inputs: seq<Input>, gap: seq<Input>)
    requires cfg.tunnelEnabled && gap != [] && NeverReady(cfg, inputs, gap) && Run(cfg, inputs + gap).Going?
    requires Run(cfg, inputs).Going? && Run(cfg, inputs).value.tunnel.running && gap[0].tunnelExit.None?
    ensures var s, t := Run(cfg, inputs).value, Run(cfg, inputs + gap).value;
            StoppedAs(s, t) && t.dropped == s.dropped + {|s.tunnelAttempts| - 1}
  {
    hide Run, Tick, ReadyTick, NeverReady;
    var front, last := gap[..|gap| - 1], gap[|gap| - 1];
    assert gap == front + [last];
    GapFront(cfg, inputs, front, last);
    if front == [] {
      assert inputs + front == inputs;
    } else {
      GapKeepsSchedule(cfg, inputs, front);
    }
    NotReadyTick(cfg, Run(cfg, inputs + front).value, last);
  }

  /** A later tick begins after an earlier one is over. */
  lemma {:induction false} TimePasses(inputs: seq<Input>, j: nat, k: nat)
    requires Monotone(inputs) && j < k < |inputs|
    ensures inputs[j].now <= inputs[j].tunnelLaunch.clock <= inputs[k].now
  {
    if j < k - 1 { TimePasses(inputs, j, k - 1); }
  }

  /** The front of a monotone run is monotone, and over when the last tick begins. */
  lemma FrontIsBefore(inputs: seq<Input>, later: seq<Input>, back: Input)
    requires Monotone(inputs + later + [back]) && (inputs + later + [back])[0].now >= 0.0
    ensures Monotone(inputs) && (inputs != [] ==> inputs[0].now >= 0.0)
    ensures back.Ordered() && EndTime(inputs) <= back.now
  {
    var all, n := inputs + later + [back], |inputs|;
    assert inputs == all[..n];
    assert forall k :: 0 <= k < n ==> inputs[k] == all[k];
    assert back == all[|all| - 1];
    var first := if n > 0 then n - 1 else 0;
    if first < |all| - 1 { TimePasses(all, first, |all| - 1); }
  }

  /**
   A lost dependency costs no delay.  In every run, when a tick finds the server or
   the proxy of a running tunnel gone, by whatever cause, and none of the ticks
   after it is ready either, the first ready tick starts the tunnel again, whatever
   the backoff says.  That pair of attempts is spaced exactly when the gap happens
   to be as long as the delay.
   */
  lemma DroppedTunnelRestartsAtOnce(cfg: Config, inputs: seq<Input>, gap: seq<Input>, back: Input)
    requires cfg.Valid() && cfg.tunnelEnabled
    requires Monotone(inputs + gap + [back]) && (inputs + gap + [back])[0].now >= 0.0
    requires Run(cfg, inputs).Going? && Run(cfg, inputs).value.tunnel.running
    requires gap != [] && gap[0].tunnelExit.None? && NeverReady(cfg, inputs, gap) && Run(cfg, inputs + gap).Going?
    requires ReadyTick(cfg, Run(cfg, inputs + gap).value, back) && back.doctor && back.tunnelLaunch.ok
    ensures var s, r := Run(cfg, inputs).value, Run(cfg, inputs + gap + [back]);
            var before, n := s.tunnelAttempts, |s.tunnelAttempts|;
            var again := Attempt(back.now, back.tunnelLaunch.clock, s.tunnel.failures);
            && r.Going? && r.value.tunnel.running && n > 0
            && r.value.tunnelAttempts == before + [again] && r.value.dropped == s.dropped + {n - 1}
            && (SpacedPair(cfg, before[n - 1], again) <==>
                s.tunnel.failures >= 1 && back.now - before[n - 1].clock >= Delay(cfg, s.tunnel.failures))
  {
    hide Run, Tick, Monotone, Inv, EndTime, ReadyTick, NeverReady, Delay;
    FrontIsBefore(inputs, gap, back);
    RunKeepsInv(cfg, inputs);
    StartedByThen(cfg, Run(cfg, inputs).value, EndTime(inputs));
    GapKeepsSchedule(cfg, inputs, gap);
    ReadyTickStarts(cfg, Run(cfg, inputs + gap).value, back);
    RunStep(cfg, inputs + gap, back);
  }

  /** A running tunnel was started, and its next start was due by then. */
  lemma StartedByThen(cfg: Config, s: State, time: real)
    requires Inv(cfg, s, time) && s.tunnel.running
    ensures s.tunnelAttempts != [] && s.tunnel.nextStart <= time
  {
  }

  // ------------------------------------------------------- the backoff's range

  lemma {:induction false} PowerRises(b: real, m: nat, n: nat)
    requires b >= 1.0 && m <= n
    ensures 1.0 <= Power(b, m) <= Power(b, n)
  {
    PowerAtLeastOne(b, m);
    if m < n {
      PowerRises(b, m, n - 1);
      assert b * Power(b, n - 1) >= 1.0 * Power(b, n - 1);
    }
  }

  lemma Scale(x: real, a: real, b: real)
    requires x >= 0.0 && a <= b
    ensures x * a <= x * b
  {
  }

  /** Bernoulli's bound. */
  lemma {:induction false} PowerGrows(b: real, n: nat)
    requires b > 1.0
    ensures Power(b, n) >= 1.0 + n as real * (b - 1.0)
  {
    if n > 0 {
      PowerGrows(b, n - 1);
      BernoulliStep(b, (n - 1) as real, Power(b, n - 1));
      assert n as real == (n - 1) as real + 1.0;
    }
  }

  lemma BernoulliStep(b: real, y: real, p: real)
    requires b > 1.0 && y >= 0.0 && p >= 1.0 + y * (b - 1.0)
    ensures b * p >= 1.0 + (y + 1.0) * (b - 1.0)
  {
    var x := b - 1.0;
    Scale(x, 0.0, y);
    Scale(x, 1.0, p);
    Distribute(x, p);
    Distribute(y, x);
  }

  lemma Distribute(x: real, a: real)
    ensures (1.0 + x) * a == a + x * a
  {
  }

  /** Some multiple of a positive step passes any bound. */
  lemma Archimedes(step: real, bound: real) returns (n: nat)
    requires step > 0.0 && bound >= 0.0
    ensures n as real * step >= bound
  {
    var q := bound / step;
    assert q >= 0.0;
    n := q.Floor + 1;
    Scale(step, q, n as real);
    assert q * step == bound;
  }

  lemma LimitIsLarge()
    ensures FloatLimit() > 1.0
  {
    hide Power;
    PowerTwo(1023);
    PowerRises(2.0, 970, 1023);
    PowerTwo(0);
    PowerRises(2.0, 1, 1023);
    PowerOne(2.0);
  }

  lemma PowerOne(b: real)
    ensures Power(b, 0) == 1.0 && Power(b, 1) == b
  {
    assert Power(b, 1) == b * Power(b, 0);
  }

  lemma PowerTwo(n: nat)
    ensures Power(2.0, n + 1) == 2.0 * Power(2.0, n)
  {
  }

  lemma {:induction false} PowerBelowOne(b: real, n: nat)
    requires 0.0 < b <= 1.0
    ensures 0.0 < Power(b, n) <= 1.0
  {
    if n > 0 {
      PowerBelowOne(b, n - 1);
      assert b * Power(b, n - 1) <= 1.0 * Power(b, n - 1);
    }
  }

  /**
   The uncapped power is computed before the cap is applied: it leaves the range
   of doubles after some number of consecutive failures exactly when the
   multiplier is above one, and the tick then ends with an error instead of a
   delay.
   */
  lemma BackoffEventuallyCrashes(cfg: Config)
    requires cfg.Valid()
    ensures (exists n: nat :: Overflows(cfg.multiplier, n)) <==> cfg.multiplier > 1.0
  {
    hide Power, FloatLimit;
    LimitIsLarge();
    if cfg.multiplier > 1.0 {
      var n := Archimedes(cfg.multiplier - 1.0, FloatLimit());
      PowerGrows(cfg.multiplier, n);
      assert Overflows(cfg.multiplier, n);
    } else {
      forall n: nat ensures !Overflows(cfg.multiplier, n) {
        PowerBelowOne(cfg.multiplier, n);
      }
    }
  }

  /** With the default multiplier it is the 1025th consecutive failure that cannot be scheduled, whatever the cap. */
  lemma DefaultBackoffCrashesAt(cfg: Config, c: Child, now: real)
    requires cfg.Valid() && cfg.multiplier == 2.0
    ensures Schedule(cfg, c, now).Crashed? <==> c.failures >= 1024
  {
    hide Power;
    PowerTwo(1023);
    PowerRises(2.0, 970, 1023);
    if c.failures >= 1024 {
      PowerRises(2.0, 1024, c.failures);
    } else {
      PowerRises(2.0, c.failures, 1023);
      PowerTwo(1022);
      PowerRises(2.0, 970, 1022);
    }
  }
}
