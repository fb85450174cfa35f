/** The server process helpers of src/mcctl/proc.py: the start-up tick machine of `preStart`, and
    the check `attach` and `exec` make before talking to a server's console. What the started
    server does is outside the model: on each tick the model is told whether the watched file
    exists and whether the process has exited. */
module Proc {
  import opened Wrappers
  import Service

  /** What `preStart` observes on one tick. */
  datatype Tick = Tick(watchExists: bool, exited: bool)

  /** A signal `preStart` sends to the server, with the tick it is sent on. */
  datatype Signal = Terminate(at: nat) | Kill(at: nat)

  /** How a run ended: whether the server stopped by itself, the signals sent, the ticks run. */
  datatype Outcome = Outcome(success: bool, signals: seq<Signal>, ticks: nat)

  /** Ticks per second. */
  const Fps: nat := 4

  /** `range(killSec * fps + 1)` has this many ticks (none for a negative `killSec`). */
  function TickCount(killSec: int): nat {
    if killSec * Fps + 1 > 0 then killSec * Fps + 1 else 0
  }

  /** The loop of `preStart` from tick `i` of `n`, with `signaled` the flag so far; `watching`
      says whether a watch file was given, `obs` what each tick shows. */
  function RunFrom(i: nat, n: nat, killAt: int, signaled: bool, watching: bool, obs: nat -> Tick): Outcome
    decreases n - i
  {
    if i >= n then Outcome(false, [], i)
    else if !signaled && watching && obs(i).watchExists then
      var o := RunFrom(i + 1, n, killAt, true, watching, obs);
      o.(signals := [Terminate(i)] + o.signals)
    else if i == killAt then
      var o := RunFrom(i + 1, n, killAt, signaled, watching, obs);
      o.(signals := [Kill(i)] + o.signals)
    else if obs(i).exited then Outcome(true, [], i + 1)
    else RunFrom(i + 1, n, killAt, signaled, watching, obs)
  }

  /** `preStart(jarPath, watchFile, killSec)`: the outcome of its tick loop. */
  function PreStartSpec(killSec: int, watching: bool, obs: nat -> Tick): Outcome {
    RunFrom(0, TickCount(killSec), killSec * Fps, false, watching, obs)
  }

  /** The tick loop itself. */
  method PreStart(killSec: int, watching: bool, obs: nat -> Tick) returns (success: bool, signals: seq<Signal>, ticks: nat)
    ensures Outcome(success, signals, ticks) == PreStartSpec(killSec, watching, obs)
  {
    var n := TickCount(killSec);
    var signaled := false;
    success := false;
    signals := [];
    var i := 0;
    while i < n
      invariant 0 <= i <= n
      invariant var o := RunFrom(i, n, killSec * Fps, signaled, watching, obs);
        PreStartSpec(killSec, watching, obs) == o.(signals := signals + o.signals)
      invariant !success
    {
      if !signaled && watching && obs(i).watchExists {
        signals := signals + [Terminate(i)];
        signaled := true;
      } else if i == killSec * Fps {
        signals := signals + [Kill(i)];
      } else if obs(i).exited {
        success := true;
        ticks := i + 1;
        assert signals + [] == signals;
        return;
      }
      i := i + 1;
    }
    ticks := i;
    assert signals + [] == signals;
  }

  /** The number of `Terminate` signals in `s`. */
  function Terminations(s: seq<Signal>): nat {
    if |s| == 0 then 0 else (if s[0].Terminate? then 1 else 0) + Terminations(s[1..])
  }

  /** The loop never runs more than `killSec * fps + 1` ticks. */
  lemma {:induction false} RunBound(i: nat, n: nat, killAt: int, signaled: bool, watching: bool, obs: nat -> Tick)
    requires i <= n
    ensures i <= RunFrom(i, n, killAt, signaled, watching, obs).ticks <= n
    decreases n - i
  {
    if i < n {
      RunBound(i + 1, n, killAt, true, watching, obs);
      RunBound(i + 1, n, killAt, signaled, watching, obs);
    }
  }

  lemma {:induction false} NoTerminations(s: seq<Signal>)
    requires Terminations(s) == 0
    ensures forall t :: Terminate(t) !in s
  {
    if |s| > 0 {
      NoTerminations(s[1..]);
      forall t ensures Terminate(t) !in s {
        assert s == [s[0]] + s[1..];
      }
    }
  }

  /** At most one terminate is sent, none once the flag is set, and it goes out on the first tick
      the watched file exists. */
  lemma {:induction false} TerminateOnce(i: nat, n: nat, killAt: int, signaled: bool, watching: bool, obs: nat -> Tick)
    ensures var o := RunFrom(i, n, killAt, signaled, watching, obs);
      && Terminations(o.signals) <= (if signaled then 0 else 1)
      && forall t :: Terminate(t) in o.signals ==>
           watching && i <= t && obs(t).watchExists && forall j :: i <= j < t ==> !obs(j).watchExists
    decreases n - i
  {
    if i < n {
      var o := RunFrom(i, n, killAt, signaled, watching, obs);
      if !signaled && watching && obs(i).watchExists {
        var rest := RunFrom(i + 1, n, killAt, true, watching, obs);
        TerminateOnce(i + 1, n, killAt, true, watching, obs);
        NoTerminations(rest.signals);
        assert o.signals == [Terminate(i)] + rest.signals;
        assert o.signals[1..] == rest.signals;
      } else {
        var rest := RunFrom(i + 1, n, killAt, signaled, watching, obs);
        TerminateOnce(i + 1, n, killAt, signaled, watching, obs);
        if signaled {
          NoTerminations(rest.signals);
        }
        if i == killAt {
          assert o.signals == [Kill(i)] + rest.signals;
          assert o.signals[1..] == rest.signals;
        }
      }
    }
  }

  /** A kill goes out only on tick `killSec * fps`, and a killed server is never a success. */
  lemma {:induction false} KillEnds(i: nat, n: nat, killAt: int, signaled: bool, watching: bool, obs: nat -> Tick)
    requires killAt == n - 1
    ensures var o := RunFrom(i, n, killAt, signaled, watching, obs);
      && (forall t :: Kill(t) in o.signals ==> t == killAt)
      && (o.success ==> forall t :: Kill(t) !in o.signals)
    decreases n - i
  {
    if i < n {
      KillEnds(i + 1, n, killAt, true, watching, obs);
      KillEnds(i + 1, n, killAt, signaled, watching, obs);
      if i == killAt {
        assert RunFrom(i + 1, n, killAt, signaled, watching, obs) == Outcome(false, [], i + 1);
        assert RunFrom(i + 1, n, killAt, true, watching, obs) == Outcome(false, [], i + 1);
      }
    }
  }

  /** The kill tick is reached and not taken by the watch branch: a kill is sent on it, unless the
      server stopped earlier by itself. The watch branch does not take it when the flag is already
      set, nothing is watched, the watched file is absent then, or it appeared on an earlier tick
      (a terminate that the server ignored). */
  lemma {:induction false} KillAtLastTick(i: nat, n: nat, killAt: int, signaled: bool, watching: bool, obs: nat -> Tick)
    requires i <= killAt == n - 1
    requires forall j :: i <= j < killAt ==> !obs(j).exited
    requires signaled || !watching || !obs(killAt).watchExists || exists j :: i <= j < killAt && obs(j).watchExists
    ensures Kill(killAt) in RunFrom(i, n, killAt, signaled, watching, obs).signals
    decreases n - i
  {
    var o := RunFrom(i, n, killAt, signaled, watching, obs);
    if i == killAt {
      assert o.signals[0] == Kill(killAt);
    } else if !signaled && watching && obs(i).watchExists {
      KillAtLastTick(i + 1, n, killAt, true, watching, obs);
      assert o.signals[1..] == RunFrom(i + 1, n, killAt, true, watching, obs).signals;
    } else {
      if !signaled && watching && obs(killAt).watchExists {
        var j :| i <= j < killAt && obs(j).watchExists;
        assert i + 1 <= j;
      }
      KillAtLastTick(i + 1, n, killAt, signaled, watching, obs);
      assert o == RunFrom(i + 1, n, killAt, signaled, watching, obs);
    }
  }

  /** Success means an exit was seen on a tick where neither signal branch fired; a run on which
      the process never exits is a failure. */
  lemma {:induction false} SuccessIsExit(i: nat, n: nat, killAt: int, signaled: bool, watching: bool, obs: nat -> Tick)
    ensures var o := RunFrom(i, n, killAt, signaled, watching, obs);
      o.success ==> exists t :: i <= t < n && t != killAt && obs(t).exited && t + 1 == o.ticks
    ensures (forall j :: i <= j < n ==> !obs(j).exited) ==> !RunFrom(i, n, killAt, signaled, watching, obs).success
    decreases n - i
  {
    if i < n {
      SuccessIsExit(i + 1, n, killAt, true, watching, obs);
      SuccessIsExit(i + 1, n, killAt, signaled, watching, obs);
    }
  }

  /** The properties of a whole `preStart` run with `killSec >= 0`: at most `killSec * fps + 1`
      ticks, at most one terminate (on the first tick the watched file exists), kills only on tick
      `killSec * fps` and never on a successful run, and success only after an observed exit. */
  lemma PreStartSummary(killSec: int, watching: bool, obs: nat -> Tick)
    requires killSec >= 0
    ensures var o := PreStartSpec(killSec, watching, obs);
      && o.ticks <= killSec * Fps + 1
      && Terminations(o.signals) <= 1
      && (forall t :: Terminate(t) in o.signals ==> watching && obs(t).watchExists && forall j: nat :: j < t ==> !obs(j).watchExists)
      && (forall t :: Kill(t) in o.signals ==> t == killSec * Fps)
      && (o.success ==> (forall t :: Kill(t) !in o.signals) && exists t :: 0 <= t < killSec * Fps && obs(t).exited)
    ensures (forall j :: 0 <= j < killSec * Fps ==> !obs(j).exited) &&
            (!watching || !obs(killSec * Fps).watchExists || exists j :: 0 <= j < killSec * Fps && obs(j).watchExists) ==>
              Kill(killSec * Fps) in PreStartSpec(killSec, watching, obs).signals
  {
    var n := TickCount(killSec);
    RunBound(0, n, killSec * Fps, false, watching, obs);
    TerminateOnce(0, n, killSec * Fps, false, watching, obs);
    KillEnds(0, n, killSec * Fps, false, watching, obs);
    SuccessIsExit(0, n, killSec * Fps, false, watching, obs);
    if (forall j :: 0 <= j < killSec * Fps ==> !obs(j).exited) &&
       (!watching || !obs(killSec * Fps).watchExists || exists j :: 0 <= j < killSec * Fps && obs(j).watchExists) {
      KillAtLastTick(0, n, killSec * Fps, false, watching, obs);
    }
  }

  /** The server ignores the terminate sent when the watched file appears on tick 1: it is killed
      on the last tick of a one-second run. */
  lemma IgnoredTerminateIsKilled()
    ensures PreStartSpec(1, true, j => Tick(j >= 1, false)).signals == [Terminate(1), Kill(4)]
  {
    var obs: nat -> Tick := j => Tick(j >= 1, false);
    PreStartSummary(1, true, obs);
    KillAtLastTick(0, 5, 4, false, true, obs);
  }

  // ---------------------------------------------------------------------------------------------
  // attach and exec

  /** The check `attach` and `exec` start with: the instance's unit must be active
      (`AssertionError` otherwise). On success `attach` runs `screen -r mc-<instance>`, which is
      returned. */
  method Attach(sys: Service.Systemd, unitPrefix: string, instance: string) returns (r: Result<seq<string>>)
    modifies sys
    ensures r.Ok? <==> unitPrefix + instance in sys.active
    ensures r.Err? ==> r.error == AssertionError
    ensures r.Ok? ==> r.value == ["screen", "-r", "mc-" + instance]
    ensures sys.active == old(sys.active) && sys.enabled == old(sys.enabled)
    ensures sys.commands == old(sys.commands) + [Service.Command("is-active", unitPrefix + instance)]
  {
    var active := Service.IsActive(sys, unitPrefix, instance);
    if !active {
      return Err(AssertionError);
    }
    r := Ok(["screen", "-r", "mc-" + instance]);
  }

  /** The same check at the start of `exec`; what `exec` then does on the console is not modelled. */
  method ExecGuard(sys: Service.Systemd, unitPrefix: string, instance: string) returns (r: Result<()>)
    modifies sys
    ensures r.Ok? <==> unitPrefix + instance in sys.active
    ensures r.Err? ==> r.error == AssertionError
    ensures sys.active == old(sys.active) && sys.enabled == old(sys.enabled)
    ensures sys.commands == old(sys.commands) + [Service.Command("is-active", unitPrefix + instance)]
  {
    var active := Service.IsActive(sys, unitPrefix, instance);
    if !active {
      return Err(AssertionError);
    }
    r := Ok(());
  }
}
