/**
 * The beacon layer as the charm runs it: a unit whose flag store the handlers
 * change in place through set_state and remove_state, and an ordered log of
 * the calls made into the package and service managers.
 */
module Beacon {
  import opened Flags
  import opened Handlers

  class BeaconUnit {
    var flags: set<string>
    var log: seq<Effect>

    constructor (initial: set<string>)
      ensures flags == initial && log == []
    {
      flags := initial;
      log := [];
    }

    /** reactive.set_state */
    method SetState(name: string)
      modifies this
      ensures flags == old(flags) + {name} && log == old(log)
    {
      flags := flags + {name};
    }

    /** reactive.remove_state */
    method RemoveState(name: string)
      modifies this
      ensures flags == old(flags) - {name} && log == old(log)
    {
      flags := flags - {name};
    }

    /** A call into the package or service manager; its semantics are not modelled. */
    method Perform(e: Effect)
      modifies this
      ensures log == old(log) + [e] && flags == old(flags)
    {
      log := log + [e];
    }

    method InstallPackage(env: Env)
      requires Passes(INSTALL_PACKAGE_GUARD, flags)
      modifies this
      ensures flags == old(flags) || flags == old(flags) + {PACKAGE_INSTALLED}
      ensures flags == Handlers.InstallPackage(old(flags), env).flags
      ensures log == old(log) + Handlers.InstallPackage(old(flags), env).effects
    {
      if env.inLxc {
        SetState(PACKAGE_INSTALLED);
        return;
      }
      if env.version.None? || env.version.value == "" {
        return;
      }
      var spver := env.version.value;
      Perform(InstallPackages(map[BEACON_PACKAGE := spver]));
      if env.installErr {
        return;
      }
      if |env.newlyInstalled| > 0 {
        Perform(RecordPackages(BEACON_PACKAGE, env.newlyInstalled));
      }
      SetState(PACKAGE_INSTALLED);
    }

    method EnableAndStart(env: Env)
      requires Passes(ENABLE_AND_START_GUARD, flags)
      modifies this
      ensures flags == old(flags) + {BEACON_STARTED}
      ensures log == old(log) + Handlers.EnableAndStart(old(flags), env).effects
    {
      if env.inLxc {
        SetState(BEACON_STARTED);
        return;
      }
      Perform(ServiceResume(BEACON_SERVICE));
      SetState(BEACON_STARTED);
    }

    method Restart()
      requires Passes(RESTART_GUARD, flags)
      modifies this
      ensures flags == Handlers.Restart(old(flags)).flags && log == old(log)
    {
      RemoveState(BEACON_STARTED);
    }

    method Reinstall()
      requires Passes(REINSTALL_GUARD, flags)
      modifies this
      ensures flags == Handlers.Reinstall(old(flags)).flags && log == old(log)
    {
      RemoveState(PACKAGE_INSTALLED);
    }

    method ResetStates()
      modifies this
      ensures flags == Handlers.ResetStates(old(flags)) && log == old(log)
    {
      RemoveState(PACKAGE_INSTALLED);
      RemoveState(BEACON_STARTED);
    }

    /** The upgrade-charm hook: unguarded, it resets the states. */
    method RemoveStatesOnUpgrade()
      modifies this
      ensures flags == Handlers.ResetStates(old(flags)) && log == old(log)
      ensures STOPPED in flags <==> STOPPED in old(flags)
    {
      ResetStates();
    }

    method RemoveLeftovers(env: Env)
      requires Passes(REMOVE_LEFTOVERS_GUARD, flags)
      modifies this
      ensures flags == Handlers.RemoveLeftovers(old(flags), env).flags
      ensures log == old(log) + Handlers.RemoveLeftovers(old(flags), env).effects
      ensures STOPPED in flags && STOP !in flags
    {
      RemoveState(STOP);
      if !env.inLxc {
        Perform(ServicePause(BEACON_SERVICE));
        Perform(UnrecordPackages(BEACON_PACKAGE));
      }
      SetState(COMMON_STOP);
      ResetStates();
      SetState(STOPPED);
    }
  }
}
