/**
 What one tick of the supervisor does to each of its two children, and how long the
 delays between attempts are.
 */
module SupervisionTicks {
  import opened Common
  import opened Supervision

  // -------------------------------------------------------------------- delays

  lemma {:induction false} PowerPositive(b: real, n: nat)
    requires b > 0.0
    ensures Power(b, n) > 0.0
  {
    if n > 0 {
      PowerPositive(b, n - 1);
      assert b * Power(b, n - 1) > 0.0;
    }
  }

  /** A delay is positive and within the cap. */
  lemma DelayWithinCap(cfg: Config, k: nat)
    requires cfg.Valid() && k >= 1
    ensures 0.0 < Delay(cfg, k) <= cfg.maxDelay
  {
    PowerPositive(cfg.multiplier, k - 1);
    assert cfg.initialDelay * Power(cfg.multiplier, k - 1) > 0.0;
  }

  lemma Times(a: real, x: real, y: real)
    requires a >= 0.0 && x <= y
    ensures a * x <= a * y
  {
  }

  /**
   The first delay is the initial one, and each further failure multiplies the delay,
   up to the cap: the uncapped power never shows.
   */
  lemma DelayGrows(cfg: Config, k: nat)
    requires cfg.Valid() && k >= 1
    ensures Delay(cfg, 1) == cfg.initialDelay
    ensures Delay(cfg, k + 1) == if cfg.multiplier * Delay(cfg, k) < cfg.maxDelay then cfg.multiplier * Delay(cfg, k)
                                 else cfg.maxDelay
  {
    var x, y := Uncapped(cfg, k), Uncapped(cfg, k + 1);
    UncappedGrows(cfg, k);
    if cfg.multiplier < 1.0 { BelowCap(cfg, k - 1); }
    hide Power;
    FirstPower(cfg);
    CapStep(cfg.multiplier, x, y, cfg.maxDelay);
  }

  function Uncapped(cfg: Config, k: nat): real
    requires k >= 1
  {
    cfg.initialDelay * Power(cfg.multiplier, k - 1)
  }

  lemma FirstPower(cfg: Config)
    ensures cfg.initialDelay * Power(cfg.multiplier, 0) == cfg.initialDelay
  {
    assert Power(cfg.multiplier, 0) == 1.0;
  }

  lemma UncappedGrows(cfg: Config, k: nat)
    requires k >= 1
    ensures Uncapped(cfg, k + 1) == cfg.multiplier * Uncapped(cfg, k)
  {
    var m, p := cfg.multiplier, Power(cfg.multiplier, k - 1);
    assert Power(m, k) == m * p;
    hide Power;
    Swapped(cfg.initialDelay, m, p);
  }

  lemma BelowCap(cfg: Config, n: nat)
    requires cfg.Valid() && cfg.multiplier < 1.0
    ensures cfg.initialDelay * Power(cfg.multiplier, n) <= cfg.maxDelay
  {
    hide Power;
    PowerBelowOne(cfg.multiplier, n);
    Times(cfg.initialDelay, Power(cfg.multiplier, n), 1.0);
    assert cfg.initialDelay * 1.0 == cfg.initialDelay;
  }

  lemma Swapped(a: real, m: real, p: real)
    ensures a * (m * p) == m * (a * p)
  {
  }

  /** Capping before multiplying or after makes no difference, unless the cap is passed by shrinking. */
  lemma CapStep(m: real, x: real, y: real, cap: real)
    requires m > 0.0 && cap > 0.0 && y == m * x && (m >= 1.0 || x <= cap)
    ensures var d := if x < cap then x else cap;
            (if y < cap then y else cap) == if m * d < cap then m * d else cap
  {
    if x > cap {
      Times(m, cap, x);
      Times(cap, 1.0, m);
    }
  }

  // ------------------------------------------------------------------ children

  predicate Due(c: Child, now: real) {
    !c.running && c.nextStart <= now
  }

  /**
   What a tick that may start and probe a child makes of it: `refused` says that the
   start was not even tried, `tried` that it was.  Each failure, of whatever kind,
   counts once and moves the next start by the delay of the failures counted then.
   */
  ghost predicate Treated(cfg: Config, was: Child, c: Child, exit: Option<int>, refused: bool, tried: bool,
                          launch: Launch, healthy: bool, stopExit: Option<int>, now: real) {
    var exited := was.running && exit != None;
    var started := tried && launch.ok;
    var up := (was.running && exit == None) || started;
    var since := if started then launch.clock else if was.unhealthySince == None then now else was.unhealthySince.value;
    var givenUp := up && !healthy && now - since >= cfg.startupTimeout;
    var failed := exited || refused || (tried && !launch.ok) || givenUp;
    var startedAt := if started then Some(launch.clock) else was.startedAt;
    var stable := up && healthy && startedAt != None && now - startedAt.value >= cfg.stableReset;
    && (c.running <==> up && !givenUp)
    && (failed ==>
          && c.failures == was.failures + 1 && c.phase == Backoff
          && c.nextStart == (if tried && !launch.ok then launch.clock else now) + Delay(cfg, c.failures))
    && (!failed ==> c.nextStart == was.nextStart && c.failures == if stable then 0 else was.failures)
    && (up && !givenUp ==> c.phase == (if healthy then Healthy else Starting))
    && (up && healthy ==> c.unhealthySince == None)
    && (up && !healthy && !givenUp ==> c.unhealthySince == Some(since))
    && (!up && !failed ==> c.phase == was.phase)
    && c.startedAt == startedAt
    && c.starts == was.starts + (if started then 1 else 0)
    && c.restarts == was.restarts + (if started && was.starts > 0 then 1 else 0)
    && c.lastExit == if exited then exit else if givenUp then stopExit else was.lastExit
  }

  /** The server's turn: it is tried exactly when it is down and its time has come. */
  ghost predicate ServerTreated(cfg: Config, s: State, i: Input, r: State) {
    && Treated(cfg, s.mcp, r.mcp, i.mcpExit, false, Due(s.mcp, i.now), i.mcpLaunch, i.mcpHealthy, i.mcpStopExit, i.now)
    && r.mcpAttempts == s.mcpAttempts + (if Due(s.mcp, i.now)
                                         then [Attempt(i.now, i.mcpLaunch.clock, s.mcp.failures)] else [])
  }

  /** The tunnel's turn: tried when it is down, due, its dependencies are ready and the doctor agrees; else stopped. */
  ghost predicate TunnelTreated(cfg: Config, s: State, i: Input, r: State) {
    var ready := cfg.tunnelEnabled && r.mcp.running && i.mcpHealthy && i.proxyReady;
    var due, live := Due(s.tunnel, i.now), s.tunnel.running && i.tunnelExit == None;
    var exited := s.tunnel.running && i.tunnelExit != None;
    && (ready ==> Treated(cfg, s.tunnel, r.tunnel, i.tunnelExit, due && !i.doctor, due && i.doctor, i.tunnelLaunch,
                          i.tunnelHealthy, i.tunnelStopExit, i.now))
    && r.tunnelAttempts == s.tunnelAttempts + (if ready && due && i.doctor
                                               then [Attempt(i.now, i.tunnelLaunch.clock, s.tunnel.failures)] else [])
    && (!ready ==>
          && !r.tunnel.running && r.tunnel.phase == (if cfg.tunnelEnabled then Backoff else Stopped)
          && r.tunnel.failures == s.tunnel.failures + (if exited then 1 else 0)
          && r.tunnel.nextStart == (if exited then i.now + Delay(cfg, r.tunnel.failures) else s.tunnel.nextStart)
          && r.tunnel.starts == s.tunnel.starts
          && r.tunnel.lastExit == (if exited then i.tunnelExit else if live then i.tunnelStopExit
                                   else s.tunnel.lastExit))
    && r.dropped == s.dropped + (if cfg.tunnelEnabled && !ready && live then {|s.tunnelAttempts| - 1} else {})
  }

  /** The state shown to the outside. */
  ghost predicate TopShown(cfg: Config, i: Input, r: State) {
    var server := r.mcp.running && i.mcpHealthy;
    && (r.top == Degraded <==> !r.mcp.running)
    && (r.top == StartingMcp <==> r.mcp.running && !i.mcpHealthy)
    && (r.top == WaitingForProxy <==> server && cfg.tunnelEnabled && !i.proxyReady)
    && (r.top == StartingTunnel <==> server && cfg.tunnelEnabled && i.proxyReady && r.tunnel.phase != Healthy)
    && (r.top == AllHealthy <==> server && (cfg.tunnelEnabled ==> i.proxyReady && r.tunnel.phase == Healthy))
  }

  /** Observation, launch and probe of one child, one after the other. */
  lemma ChildTreated(cfg: Config, was: Child, exit: Option<int>, refused: bool, tried: bool, launch: Launch,
                     healthy: bool, stopExit: Option<int>, now: real)
    requires cfg.Valid() && now <= launch.clock
    requires tried || refused ==> Due(was, now) && !(tried && refused)
    ensures var a := Observe(cfg, was, now, exit);
            a.Going? ==>
              var b := if refused then Schedule(cfg, a.value, now)
                       else if tried then StartChild(cfg, a.value, launch) else Going(a.value);
              b.Going? ==>
                var d := if b.value.running then Check(cfg, b.value, now, healthy, stopExit) else Going(b.value);
                d.Going? ==> Treated(cfg, was, d.value, exit, refused, tried, launch, healthy, stopExit, now)
  {
    hide Delay, Overflows;
  }

  /** A child whose exit has just been seen is not due in the same tick. */
  lemma ExitedIsNotDue(cfg: Config, c: Child, now: real, exit: Option<int>)
    requires cfg.Valid()
    ensures var a := Observe(cfg, c, now, exit);
            a.Going? ==> (Due(a.value, now) <==> Due(c, now)) && (Due(c, now) ==> a.value == c)
  {
    hide Overflows, Delay;
    DelayWithinCap(cfg, c.failures + 1);
  }

  lemma ServerTurn(cfg: Config, s: State, i: Input)
    requires cfg.Valid() && i.Ordered()
    ensures var d := ServerPart(cfg, s, i);
            var b := Observe(cfg, s.tunnel, i.now, i.tunnelExit);
            d.Going? ==>
              && b.Going? && d.value.tunnel == b.value && ServerTreated(cfg, s, i, d.value)
              && d.value.tunnelAttempts == s.tunnelAttempts && d.value.dropped == s.dropped
  {
    hide Observe, StartChild, Check, Schedule, Treated;
    ExitedIsNotDue(cfg, s.mcp, i.now, i.mcpExit);
    ChildTreated(cfg, s.mcp, i.mcpExit, false, Due(s.mcp, i.now), i.mcpLaunch, i.mcpHealthy, i.mcpStopExit, i.now);
  }

  lemma TunnelTurn(cfg: Config, s: State, i: Input)
    requires cfg.Valid() && i.Ordered() && ServerPart(cfg, s, i).Going?
    ensures var d := ServerPart(cfg, s, i).value;
            var e := LaunchTunnel(cfg, d, i);
            e.Going? ==>
              var f := CheckTunnel(cfg, e.value, i);
              f.Going? ==> f.value.mcp == d.mcp && f.value.mcpAttempts == d.mcpAttempts
                           && TunnelTreated(cfg, s, i, f.value)
  {
    hide ServerPart, Check, StartChild, Schedule, Treated, ServerTreated;
    ServerTurn(cfg, s, i);
    ExitedIsNotDue(cfg, s.tunnel, i.now, i.tunnelExit);
    var due := Due(s.tunnel, i.now);
    ChildTreated(cfg, s.tunnel, i.tunnelExit, due && !i.doctor, due && i.doctor, i.tunnelLaunch, i.tunnelHealthy,
                 i.tunnelStopExit, i.now);
    ScheduleStops(cfg, s.tunnel, i.now, i.tunnelExit);
  }

  lemma ScheduleStops(cfg: Config, c: Child, now: real, exit: Option<int>)
    ensures var a := Observe(cfg, c, now, exit);
            a.Going? && c.running && exit != None ==>
              && !a.value.running && a.value.failures == c.failures + 1 && a.value.lastExit == exit
              && a.value.nextStart == now + Delay(cfg, c.failures + 1) && a.value.starts == c.starts
    ensures !c.running || exit == None ==> Observe(cfg, c, now, exit) == Going(c)
    ensures var b := Schedule(cfg, c, now); b.Going? ==> b.value.running == c.running
  {
    hide Delay, Overflows;
  }

  /**
   A tick that does not die treats both children and the shown state exactly as these
   three say, from whatever state it starts.
   */
  lemma TickIsRight(cfg: Config, s: State, i: Input)
    requires cfg.Valid() && i.Ordered()
    ensures var r := Tick(cfg, s, i);
            r.Going? ==> ServerTreated(cfg, s, i, r.value) && TunnelTreated(cfg, s, i, r.value)
                         && TopShown(cfg, i, r.value)
  {
    hide ServerPart, LaunchTunnel, CheckTunnel, Treated;
    ServerTurn(cfg, s, i);
    if ServerPart(cfg, s, i).Going? { TunnelTurn(cfg, s, i); }
  }
}
