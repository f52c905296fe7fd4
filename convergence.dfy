/**
 * A model of the reactive dispatcher: it may fire any enabled handler, and
 * the upgrade-charm hook may arrive at any point. Nothing here fixes an
 * order, a batching or an iteration cap.
 */
module Convergence {
  import opened Flags
  import opened Handlers
  import opened Registry

  /** One dispatcher step: some enabled handler fires. */
  ghost predicate Step(flags: set<string>, next: set<string>, env: Env)
  {
    exists h: HandlerId :: Enabled(h, flags) && next == Fire(h, flags, env).flags
  }

  /** A run of steps: trace[i + 1] follows from trace[i] under envs[i]. */
  ghost predicate IsExecution(trace: seq<set<string>>, envs: seq<Env>)
  {
    |trace| == |envs| + 1 &&
    forall i :: 0 <= i < |envs| ==> Step(trace[i], trace[i + 1], envs[i])
  }

  /** Provisioned and ready: the repo and the configuration exist, and no stop is requested or done. */
  predicate Ready(flags: set<string>)
  {
    REPO_AVAILABLE in flags && CONFIG_WRITTEN in flags && STOP !in flags && STOPPED !in flags
  }

  /** Distance from installed-and-started, in steps. */
  function Rank(flags: set<string>): (r: nat)
    ensures r <= 3
    ensures r == 0 <==> PACKAGE_INSTALLED in flags && BEACON_STARTED in flags
  {
    if PACKAGE_INSTALLED in flags then
      (if BEACON_STARTED in flags then 0 else 1)
    else
      (if BEACON_STARTED in flags then 3 else 2)
  }

  /** From a ready state, an enabled handler that does its work keeps the state ready and gets strictly closer. */
  lemma ReadyStepDescends(flags: set<string>, env: Env, h: HandlerId)
    requires Ready(flags) && Enabled(h, flags) && Succeeds(InstallPackageId, env)
    ensures Ready(Fire(h, flags, env).flags)
    ensures Rank(Fire(h, flags, env).flags) < Rank(flags)
  {
  }

  /** In a ready state, nothing is enabled exactly when the package is installed and the service started. */
  lemma ReadyQuiescentIff(flags: set<string>)
    requires Ready(flags)
    ensures Quiescent(flags) <==> PACKAGE_INSTALLED in flags && BEACON_STARTED in flags
  {
    if PACKAGE_INSTALLED !in flags {
      assert Enabled(InstallPackageId, flags);
    } else if BEACON_STARTED !in flags {
      assert Enabled(EnableAndStartId, flags);
    }
  }

  /** Idempotence: a ready state that is installed and started admits no further step. */
  lemma GoalIsFixedPoint(flags: set<string>, next: set<string>, env: Env)
    requires Ready(flags) && PACKAGE_INSTALLED in flags && BEACON_STARTED in flags
    ensures !Step(flags, next, env)
  {
    ReadyQuiescentIff(flags);
  }

  /** A ready state short of the goal always has a step, and under a succeeding installer it is a step closer. */
  lemma ReadyHasProgress(flags: set<string>, env: Env)
    requires Ready(flags) && Succeeds(InstallPackageId, env)
    requires !(PACKAGE_INSTALLED in flags && BEACON_STARTED in flags)
    ensures exists h: HandlerId :: Enabled(h, flags) && Rank(Fire(h, flags, env).flags) < Rank(flags)
  {
    ReadyQuiescentIff(flags);
    var h: HandlerId :| Enabled(h, flags);
    ReadyStepDescends(flags, env, h);
  }

  /**
   * Every run from a ready state whose installer calls succeed takes at most
   * Rank(start) <= 3 steps, stays ready, and stops exactly at
   * installed-and-started.
   */
  lemma {:induction false} ExecutionConverges(trace: seq<set<string>>, envs: seq<Env>)
    requires IsExecution(trace, envs) && Ready(trace[0])
    requires forall i :: 0 <= i < |envs| ==> Succeeds(InstallPackageId, envs[i])
    ensures |envs| <= Rank(trace[0]) && Rank(trace[|envs|]) <= Rank(trace[0]) - |envs|
    ensures Ready(trace[|envs|])
    ensures Quiescent(trace[|envs|]) <==> PACKAGE_INSTALLED in trace[|envs|] && BEACON_STARTED in trace[|envs|]
  {
    if |envs| == 0 {
      ReadyQuiescentIff(trace[0]);
    } else {
      assert Step(trace[0], trace[1], envs[0]);
      var h: HandlerId :| Enabled(h, trace[0]) && trace[1] == Fire(h, trace[0], envs[0]).flags;
      ReadyStepDescends(trace[0], envs[0], h);
      assert IsExecution(trace[1..], envs[1..]) by {
        forall i | 0 <= i < |envs[1..]|
          ensures Step(trace[1..][i], trace[1..][i + 1], envs[1..][i])
        {
          assert Step(trace[i + 1], trace[i + 2], envs[i + 1]);
        }
      }
      ExecutionConverges(trace[1..], envs[1..]);
    }
  }

  /** An external event the dispatcher may see: a handler invocation or the upgrade-charm hook. */
  datatype Event = Dispatch(handler: HandlerId, env: Env) | UpgradeCharm

  /**
   * One event: a handler whose guard does not pass is not invoked;
   * upgrade-charm resets the states unconditionally.
   */
  function Apply(flags: set<string>, e: Event): (t: Transition)
    ensures e.Dispatch? && !Enabled(e.handler, flags) ==> t == Transition(flags, [])
    ensures e.Dispatch? && Enabled(e.handler, flags) ==> t == Fire(e.handler, flags, e.env)
    ensures e.UpgradeCharm? ==>
      t.effects == [] && t.flags <= flags && flags - t.flags <= {PACKAGE_INSTALLED, BEACON_STARTED} &&
      PACKAGE_INSTALLED !in t.flags && BEACON_STARTED !in t.flags
  {
    match e
    case Dispatch(h, env) => if Enabled(h, flags) then Fire(h, flags, env) else Transition(flags, [])
    case UpgradeCharm => Transition(ResetStates(flags), [])
  }

  /** Replays events in order, collecting the external calls. */
  function Replay(flags: set<string>, events: seq<Event>): Transition
    decreases |events|
  {
    if events == [] then
      Transition(flags, [])
    else
      var first := Apply(flags, events[0]);
      var rest := Replay(first.flags, events[1..]);
      Transition(rest.flags, first.effects + rest.effects)
  }

  /** The states a replay of handler dispatches passes through, and the facts of the handler calls that fire. */
  ghost function FiredSteps(flags: set<string>, events: seq<Event>): (seq<set<string>>, seq<Env>)
    decreases |events|
  {
    if events == [] then
      ([flags], [])
    else
      var rest := FiredSteps(Apply(flags, events[0]).flags, events[1..]);
      if events[0].Dispatch? && Enabled(events[0].handler, flags) then
        ([flags] + rest.0, [events[0].env] + rest.1)
      else
        rest
  }

  /** A replay of handler dispatches is an execution of the step relation: the calls that fire are its steps. */
  lemma {:induction false} ReplayFollowsExecution(flags: set<string>, events: seq<Event>)
    requires forall i :: 0 <= i < |events| ==> events[i].Dispatch?
    ensures var (trace, envs) := FiredSteps(flags, events);
      IsExecution(trace, envs) && trace[0] == flags && trace[|envs|] == Replay(flags, events).flags
    ensures (forall i :: 0 <= i < |events| ==> Succeeds(InstallPackageId, events[i].env)) ==>
      var envs := FiredSteps(flags, events).1;
      forall j :: 0 <= j < |envs| ==> Succeeds(InstallPackageId, envs[j])
    decreases |events|
  {
    if events != [] {
      var next := Apply(flags, events[0]).flags;
      ReplayFollowsExecution(next, events[1..]);
      var (trace, envs) := FiredSteps(next, events[1..]);
      if forall i :: 0 <= i < |events| ==> Succeeds(InstallPackageId, events[i].env) {
        assert forall i :: 0 <= i < |events[1..]| ==> Succeeds(InstallPackageId, events[1..][i].env) by {
          forall i | 0 <= i < |events[1..]| ensures Succeeds(InstallPackageId, events[1..][i].env) {
            assert events[1..][i] == events[i + 1];
          }
        }
      }
      if events[0].Dispatch? && Enabled(events[0].handler, flags) {
        assert Step(flags, trace[0], events[0].env);
        var fullTrace, fullEnvs := [flags] + trace, [events[0].env] + envs;
        forall i | 0 <= i < |fullEnvs|
          ensures Step(fullTrace[i], fullTrace[i + 1], fullEnvs[i])
        {
          if i > 0 {
            assert Step(trace[i - 1], trace[i], envs[i - 1]);
          }
        }
      }
    }
  }

  /**
   * Any replay of handler dispatches from a ready state, with succeeding
   * installers, fires at most Rank(start) <= 3 handlers, ends ready, and
   * ends with nothing enabled exactly at installed-and-started.
   */
  lemma ReplayConverges(flags: set<string>, events: seq<Event>)
    requires Ready(flags)
    requires forall i :: 0 <= i < |events| ==> events[i].Dispatch? && Succeeds(InstallPackageId, events[i].env)
    ensures |FiredSteps(flags, events).1| <= Rank(flags)
    ensures Ready(Replay(flags, events).flags)
    ensures Quiescent(Replay(flags, events).flags) <==>
      PACKAGE_INSTALLED in Replay(flags, events).flags && BEACON_STARTED in Replay(flags, events).flags
  {
    ReplayFollowsExecution(flags, events);
    var (trace, envs) := FiredSteps(flags, events);
    ExecutionConverges(trace, envs);
  }

  /**
   * Once stopped, the unit stays stopped whatever events follow: no handler
   * runs, no external call is made, and flags are only ever cleared.
   */
  lemma {:induction false} StoppedIsTerminal(flags: set<string>, events: seq<Event>)
    requires STOPPED in flags
    ensures STOPPED in Replay(flags, events).flags
    ensures Replay(flags, events).flags <= flags
    ensures Replay(flags, events).effects == []
    ensures Quiescent(Replay(flags, events).flags)
    decreases |events|
  {
    StoppedBlocksEveryHandler(flags);
    if events != [] {
      var next := if events[0].UpgradeCharm? then ResetStates(flags) else flags;
      ResetStatesTouchesExactlyTwo(flags);
      StoppedIsTerminal(next, events[1..]);
    }
  }

  /** After remove_leftovers has run, nothing the dispatcher or the upgrade hook does provisions the unit again. */
  lemma RemoveLeftoversIsFinal(flags: set<string>, env: Env, events: seq<Event>)
    requires Enabled(RemoveLeftoversId, flags)
    ensures var after := Fire(RemoveLeftoversId, flags, env).flags;
      STOPPED in after && Quiescent(after) &&
      Replay(after, events).effects == [] &&
      PACKAGE_INSTALLED !in Replay(after, events).flags && BEACON_STARTED !in Replay(after, events).flags
  {
    var after := Fire(RemoveLeftoversId, flags, env).flags;
    RemoveLeftoversPost(flags, env);
    StoppedIsTerminal(after, events);
  }
}
