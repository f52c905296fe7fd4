/**
 * What each handler of the beacon layer does to the flag store, and which
 * external effects it asks for, as functions of the flags it starts from and
 * of the facts it consults about the host.
 */
module Handlers {
  import opened Wrappers
  import opened Flags

  /** The package set name and the service name the layer manages. */
  const BEACON_PACKAGE: string := "storpool-beacon"
  const BEACON_SERVICE: string := "storpool_beacon"

  /**
   * The facts a handler consults: whether the unit runs in an LXC container,
   * the `storpool_version` configuration value (absent or present), and what
   * the package installer reports when it is called (an error flag and the
   * list of packages it newly installed).
   */
  datatype Env = Env(inLxc: bool, version: Option<string>, installErr: bool, newlyInstalled: seq<string>)

  /** A call into the package or service manager, recorded in order. */
  datatype Effect =
    | InstallPackages(requested: map<string, string>)
    | RecordPackages(name: string, packages: seq<string>)
    | UnrecordPackages(name: string)
    | ServiceResume(service: string)
    | ServicePause(service: string)

  /** The flags after a handler ran and the effects it performed, in order. */
  datatype Transition = Transition(flags: set<string>, effects: seq<Effect>)

  /** A configured version is usable unless it is missing or empty. */
  predicate HasVersion(v: Option<string>)
  {
    v.Some? && v.value != ""
  }

  const INSTALL_PACKAGE_GUARD: Guard := Guard({REPO_AVAILABLE, CONFIG_WRITTEN}, {PACKAGE_INSTALLED, STOPPED})
  const ENABLE_AND_START_GUARD: Guard := Guard({PACKAGE_INSTALLED}, {BEACON_STARTED, STOPPED})
  const RESTART_GUARD: Guard := Guard({BEACON_STARTED}, {PACKAGE_INSTALLED, STOPPED})
  const REINSTALL_GUARD: Guard := Guard({PACKAGE_INSTALLED}, {CONFIG_WRITTEN, STOPPED})
  const REMOVE_LEFTOVERS_GUARD: Guard := Guard({STOP}, {STOPPED})

  /**
   * install_package: in LXC only the flag is set; without a version nothing
   * happens; otherwise the installer is called, and only when it reports no
   * error are the new packages recorded (if any) and the flag set.
   */
  function InstallPackage(flags: set<string>, env: Env): (t: Transition)
    ensures t.flags == flags || t.flags == flags + {PACKAGE_INSTALLED}
    ensures PACKAGE_INSTALLED in t.flags <==>
      PACKAGE_INSTALLED in flags || env.inLxc || (HasVersion(env.version) && !env.installErr)
    ensures t.effects == [] <==> env.inLxc || !HasVersion(env.version)
    ensures |t.effects| <= 2
  {
    if env.inLxc then
      Transition(flags + {PACKAGE_INSTALLED}, [])
    else if !HasVersion(env.version) then
      Transition(flags, [])
    else
      var install := [InstallPackages(map[BEACON_PACKAGE := env.version.value])];
      if env.installErr then
        Transition(flags, install)
      else
        var record := if |env.newlyInstalled| > 0 then [RecordPackages(BEACON_PACKAGE, env.newlyInstalled)] else [];
        Transition(flags + {PACKAGE_INSTALLED}, install + record)
  }

  /** enable_and_start: resume the service unless in LXC, then set the flag. */
  function EnableAndStart(flags: set<string>, env: Env): (t: Transition)
    ensures BEACON_STARTED in t.flags
    ensures forall f :: f != BEACON_STARTED ==> (f in t.flags <==> f in flags)
    ensures t.effects == [] <==> env.inLxc
  {
    if env.inLxc then
      Transition(flags + {BEACON_STARTED}, [])
    else
      Transition(flags + {BEACON_STARTED}, [ServiceResume(BEACON_SERVICE)])
  }

  /** restart: forget that the service was started. */
  function Restart(flags: set<string>): (t: Transition)
    ensures BEACON_STARTED !in t.flags
    ensures forall f :: f != BEACON_STARTED ==> (f in t.flags <==> f in flags)
    ensures t.effects == []
  {
    Transition(flags - {BEACON_STARTED}, [])
  }

  /** reinstall: forget that the package was installed. */
  function Reinstall(flags: set<string>): (t: Transition)
    ensures PACKAGE_INSTALLED !in t.flags
    ensures forall f :: f != PACKAGE_INSTALLED ==> (f in t.flags <==> f in flags)
    ensures t.effects == []
  {
    Transition(flags - {PACKAGE_INSTALLED}, [])
  }

  /** reset_states: forget both the installation and the start. */
  function ResetStates(flags: set<string>): (r: set<string>)
    ensures r <= flags && flags - r <= {PACKAGE_INSTALLED, BEACON_STARTED}
    ensures PACKAGE_INSTALLED !in r && BEACON_STARTED !in r
  {
    flags - {PACKAGE_INSTALLED} - {BEACON_STARTED}
  }

  /**
   * remove_leftovers: consume the stop request, pause the service and
   * unrecord the packages unless in LXC, tell the common layer to stop,
   * reset the states and set the terminal flag.
   */
  function RemoveLeftovers(flags: set<string>, env: Env): (t: Transition)
    ensures STOPPED in t.flags && COMMON_STOP in t.flags
    ensures STOP !in t.flags && PACKAGE_INSTALLED !in t.flags && BEACON_STARTED !in t.flags
    ensures forall f :: f !in {STOP, PACKAGE_INSTALLED, BEACON_STARTED, COMMON_STOP, STOPPED} ==>
      (f in t.flags <==> f in flags)
    ensures t.effects == [] <==> env.inLxc
  {
    var cleanup := if env.inLxc then [] else [ServicePause(BEACON_SERVICE), UnrecordPackages(BEACON_PACKAGE)];
    Transition(ResetStates(flags - {STOP} + {COMMON_STOP}) + {STOPPED}, cleanup)
  }

  // ---- Properties of single handlers ----

  /** install_package fires exactly when the repo and the config are ready and neither installed nor stopped is set. */
  lemma InstallPackageGuardExact(flags: set<string>)
    ensures Passes(INSTALL_PACKAGE_GUARD, flags) <==>
      REPO_AVAILABLE in flags && CONFIG_WRITTEN in flags && PACKAGE_INSTALLED !in flags && STOPPED !in flags
  {
  }

  /** In LXC, install_package only sets package-installed and calls nothing, after which its own guard fails. */
  lemma InstallPackageInLxc(flags: set<string>, env: Env)
    requires env.inLxc
    ensures InstallPackage(flags, env) == Transition(flags + {PACKAGE_INSTALLED}, [])
    ensures !Passes(INSTALL_PACKAGE_GUARD, InstallPackage(flags, env).flags)
  {
  }

  /**
   * enable_and_start always sets beacon-started and touches no other state,
   * after which its own guard fails; it resumes the service except in LXC.
   */
  lemma EnableAndStartEffects(flags: set<string>, env: Env)
    ensures EnableAndStart(flags, env).flags == flags + {BEACON_STARTED}
    ensures forall f :: f != BEACON_STARTED ==> (f in EnableAndStart(flags, env).flags <==> f in flags)
    ensures !Passes(ENABLE_AND_START_GUARD, EnableAndStart(flags, env).flags)
    ensures EnableAndStart(flags, env).effects == if env.inLxc then [] else [ServiceResume(BEACON_SERVICE)]
  {
  }

  /** Outside LXC, a missing or empty version makes install_package do nothing at all. */
  lemma InstallPackageDeclinesWithoutVersion(flags: set<string>, env: Env)
    requires !env.inLxc && (env.version == None || env.version == Some(""))
    ensures InstallPackage(flags, env) == Transition(flags, [])
  {
  }

  /**
   * An installer error leaves the flags as they were, so the handler stays
   * enabled for a retry; the flags are also what removing package-installed
   * would have left, since the guard already has it absent.
   */
  lemma InstallPackageFailureKeepsState(flags: set<string>, env: Env)
    requires Passes(INSTALL_PACKAGE_GUARD, flags)
    requires !env.inLxc && HasVersion(env.version) && env.installErr
    ensures InstallPackage(flags, env).flags == flags == flags - {PACKAGE_INSTALLED}
    ensures Passes(INSTALL_PACKAGE_GUARD, InstallPackage(flags, env).flags)
    ensures InstallPackage(flags, env).effects == [InstallPackages(map[BEACON_PACKAGE := env.version.value])]
  {
  }

  /** A successful install sets the flag whatever it installed, and records packages only when there are some. */
  lemma InstallPackageSuccess(flags: set<string>, env: Env)
    requires !env.inLxc && HasVersion(env.version) && !env.installErr
    ensures InstallPackage(flags, env).flags == flags + {PACKAGE_INSTALLED}
    ensures InstallPackage(flags, env).effects[0] == InstallPackages(map[BEACON_PACKAGE := env.version.value])
    ensures |InstallPackage(flags, env).effects| == if env.newlyInstalled == [] then 1 else 2
    ensures env.newlyInstalled != [] ==>
      InstallPackage(flags, env).effects[1] == RecordPackages(BEACON_PACKAGE, env.newlyInstalled)
  {
  }

  /** reset_states clears exactly package-installed and beacon-started and keeps every other state. */
  lemma ResetStatesTouchesExactlyTwo(flags: set<string>)
    ensures PACKAGE_INSTALLED !in ResetStates(flags) && BEACON_STARTED !in ResetStates(flags)
    ensures forall f :: f != PACKAGE_INSTALLED && f != BEACON_STARTED ==> (f in ResetStates(flags) <==> f in flags)
    ensures STOPPED in ResetStates(flags) <==> STOPPED in flags
  {
  }

  /** After remove_leftovers the stop request and the provisioning flags are gone, and both stop flags are set. */
  lemma RemoveLeftoversPost(flags: set<string>, env: Env)
    ensures var after := RemoveLeftovers(flags, env).flags;
      STOP !in after && PACKAGE_INSTALLED !in after && BEACON_STARTED !in after &&
      STOPPED in after && COMMON_STOP in after
    ensures RemoveLeftovers(flags, env).effects ==
      if env.inLxc then [] else [ServicePause(BEACON_SERVICE), UnrecordPackages(BEACON_PACKAGE)]
  {
  }
}
