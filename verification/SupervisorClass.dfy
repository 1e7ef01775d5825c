/**
 The supervisor's objects: children whose fields each helper changes in place,
 and the tick over them, proved against Supervision.dfy.
 */
module SupervisorClass {
  import opened Common
  import opened Supervision

  class ChildRuntime {
    var running: bool
    var phase: Phase
    var startedMonotonic: Option<real>
    var unhealthySince: Option<real>
    var nextStartMonotonic: real
    var consecutiveFailures: nat
    var startCount: nat
    var restartCount: nat
    var lastExitCode: Option<int>

    ghost function View(): Child
      reads this
    {
      Child(running, phase, startedMonotonic, unhealthySince, nextStartMonotonic, consecutiveFailures, startCount,
            restartCount, lastExitCode)
    }

    constructor ()
      ensures View() == IDLE
    {
      running, phase, startedMonotonic, unhealthySince := false, Stopped, None, None;
      nextStartMonotonic, consecutiveFailures, startCount, restartCount, lastExitCode := 0.0, 0, 0, 0, None;
    }

    /** Count a failure and set the time of the next start; the delay's power may be out of range. */
    method ScheduleRestart(cfg: Config, now: real) returns (crashed: bool)
      modifies this
      ensures Schedule(cfg, old(View()), now) == if crashed then Crashed(View()) else Going(View())
    {
      consecutiveFailures := consecutiveFailures + 1;
      if Overflows(cfg.multiplier, consecutiveFailures - 1) { return true; }
      var delay := Delay(cfg, consecutiveFailures);
      nextStartMonotonic := now + delay;
      phase := Backoff;
      crashed := false;
    }

    method ObserveExit(cfg: Config, now: real, exit: Option<int>) returns (crashed: bool)
      modifies this
      ensures Observe(cfg, old(View()), now, exit) == if crashed then Crashed(View()) else Going(View())
    {
      if !running || exit.None? { return false; }
      lastExitCode := exit;
      running := false;
      unhealthySince := None;
      crashed := ScheduleRestart(cfg, now);
    }

    method Start(cfg: Config, launch: Launch) returns (crashed: bool)
      modifies this
      ensures StartChild(cfg, old(View()), launch) == if crashed then Crashed(View()) else Going(View())
    {
      if !launch.ok {
        phase := Failed;
        crashed := ScheduleRestart(cfg, launch.clock);
        return;
      }
      running := true;
      startedMonotonic := Some(launch.clock);
      unhealthySince := startedMonotonic;
      startCount := startCount + 1;
      if startCount > 1 {
        restartCount := restartCount + 1;
      }
      phase := Starting;
      crashed := false;
    }

    method Stop(exit: Option<int>)
      modifies this
      ensures View() == StopChild(old(View()), exit)
    {
      if !running { return; }
      phase := Stopped;
      lastExitCode := exit;
      running := false;
      unhealthySince := None;
    }

    method ResetFailuresIfStable(cfg: Config, now: real)
      modifies this
      ensures View() == ResetIfStable(cfg, old(View()), now)
    {
      if startedMonotonic.None? { return; }
      if now - startedMonotonic.value >= cfg.stableReset {
        consecutiveFailures := 0;
      }
    }

    /** What the tick does with a running child's probe. */
    method CheckHealth(cfg: Config, now: real, healthy: bool, stopExit: Option<int>) returns (crashed: bool)
      modifies this
      ensures Check(cfg, old(View()), now, healthy, stopExit) == if crashed then Crashed(View()) else Going(View())
    {
      crashed := false;
      if healthy {
        phase := Healthy;
        unhealthySince := None;
        ResetFailuresIfStable(cfg, now);
      } else {
        phase := Starting;
        if unhealthySince.None? {
          unhealthySince := Some(now);
        }
        if now - unhealthySince.value >= cfg.startupTimeout {
          Stop(stopExit);
          crashed := ScheduleRestart(cfg, now);
        }
      }
    }
  }

  class Supervisor {
    const cfg: Config
    const mcp: ChildRuntime
    const tunnel: ChildRuntime
    var top: Top
    ghost var mcpAttempts: seq<Attempt>
    ghost var tunnelAttempts: seq<Attempt>
    ghost var dropped: set<int>

    ghost function Abstract(): State
      reads this, mcp, tunnel
    {
      State(mcp.View(), tunnel.View(), top, mcpAttempts, tunnelAttempts, dropped)
    }

    constructor (cfg: Config)
      ensures this.cfg == cfg && mcp != tunnel && fresh(mcp) && fresh(tunnel) && Abstract() == START
    {
      this.cfg := cfg;
      var m := new ChildRuntime();
      var t := new ChildRuntime();
      mcp, tunnel, top := m, t, TopStarting;
      mcpAttempts, tunnelAttempts, dropped := [], [], {};
    }

    /** Start the MCP server when it is down and its time has come, then look at its health. */
    method TickMcp(i: Input) returns (crashed: bool)
      requires mcp != tunnel
      modifies this, mcp
      ensures top == old(top) && tunnelAttempts == old(tunnelAttempts) && dropped == old(dropped)
      ensures var c := LaunchMcp(cfg, old(Abstract()), i);
              var d := if c.Crashed? then c else CheckMcp(cfg, c.value, i);
              d == if crashed then Crashed(Abstract()) else Going(Abstract())
    {
      hide Check, StartChild, Schedule;
      crashed := false;
      if !mcp.running && i.now >= mcp.nextStartMonotonic {
        mcpAttempts := mcpAttempts + [Attempt(i.now, i.mcpLaunch.clock, mcp.consecutiveFailures)];
        crashed := mcp.Start(cfg, i.mcpLaunch);
        if crashed { return; }
      }
      if mcp.running {
        crashed := mcp.CheckHealth(cfg, i.now, i.mcpHealthy, i.mcpStopExit);
      }
    }

    /** Start or stop the tunnel as its dependencies allow, then look at its health. */
    method TickTunnel(i: Input) returns (crashed: bool)
      requires mcp != tunnel
      modifies this, tunnel
      ensures top == old(top) && mcpAttempts == old(mcpAttempts)
      ensures var e := LaunchTunnel(cfg, old(Abstract()), i);
              var f := if e.Crashed? then e else CheckTunnel(cfg, e.value, i);
              f == if crashed then Crashed(Abstract()) else Going(Abstract())
    {
      hide Check, StartChild, Schedule, StopChild;
      crashed := false;
      if !cfg.tunnelEnabled {
        tunnel.Stop(i.tunnelStopExit);
        tunnel.phase := Stopped;
      } else if !(mcp.running && i.mcpHealthy && i.proxyReady) {
        if tunnel.running {
          dropped := dropped + {|tunnelAttempts| - 1};
        }
        tunnel.Stop(i.tunnelStopExit);
        tunnel.phase := Backoff;
      } else if !tunnel.running && i.now >= tunnel.nextStartMonotonic {
        if i.doctor {
          tunnelAttempts := tunnelAttempts + [Attempt(i.now, i.tunnelLaunch.clock, tunnel.consecutiveFailures)];
          crashed := tunnel.Start(cfg, i.tunnelLaunch);
        } else {
          crashed := tunnel.ScheduleRestart(cfg, i.now);
        }
        if crashed { return; }
      }
      if tunnel.running {
        crashed := tunnel.CheckHealth(cfg, i.now, i.tunnelHealthy, i.tunnelStopExit);
      }
    }

    /** One monitoring iteration. */
    method Tick(i: Input) returns (crashed: bool)
      requires mcp != tunnel
      modifies this, mcp, tunnel
      ensures Supervision.Tick(cfg, old(Abstract()), i) == if crashed then Crashed(Abstract()) else Going(Abstract())
    {
      hide Observe, LaunchMcp, LaunchTunnel, CheckMcp, CheckTunnel;
      crashed := mcp.ObserveExit(cfg, i.now, i.mcpExit);
      if crashed { return; }
      crashed := tunnel.ObserveExit(cfg, i.now, i.tunnelExit);
      if crashed { return; }
      crashed := TickMcp(i);
      if crashed { return; }
      crashed := TickTunnel(i);
      if crashed { return; }
      if !(mcp.running && i.mcpHealthy) {
        top := if mcp.running then StartingMcp else Degraded;
      } else if cfg.tunnelEnabled && !i.proxyReady {
        top := WaitingForProxy;
      } else if cfg.tunnelEnabled && !tunnel.phase.Healthy? {
        top := StartingTunnel;
      } else {
        top := AllHealthy;
      }
    }
  }
}
