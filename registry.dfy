/**
 * The handler set of the layer as a registry: each guarded handler with its
 * guard and the states it declares it sets and clears when it succeeds.
 */
module Registry {
  import opened Flags
  import opened Handlers

  datatype HandlerId = InstallPackageId | EnableAndStartId | RestartId | ReinstallId | RemoveLeftoversId

  function GuardOf(h: HandlerId): Guard
  {
    match h
    case InstallPackageId => INSTALL_PACKAGE_GUARD
    case EnableAndStartId => ENABLE_AND_START_GUARD
    case RestartId => RESTART_GUARD
    case ReinstallId => REINSTALL_GUARD
    case RemoveLeftoversId => REMOVE_LEFTOVERS_GUARD
  }

  predicate Enabled(h: HandlerId, flags: set<string>)
  {
    Passes(GuardOf(h), flags)
  }

  /** No guarded handler is enabled. */
  predicate Quiescent(flags: set<string>)
  {
    forall h: HandlerId :: !Enabled(h, flags)
  }

  /** The states a handler sets when it does its work. */
  function SetsOnSuccess(h: HandlerId): set<string>
  {
    match h
    case InstallPackageId => {PACKAGE_INSTALLED}
    case EnableAndStartId => {BEACON_STARTED}
    case RestartId => {}
    case ReinstallId => {}
    case RemoveLeftoversId => {COMMON_STOP, STOPPED}
  }

  /** The states a handler clears when it does its work. */
  function ClearsOnSuccess(h: HandlerId): set<string>
  {
    match h
    case InstallPackageId => {}
    case EnableAndStartId => {}
    case RestartId => {BEACON_STARTED}
    case ReinstallId => {PACKAGE_INSTALLED}
    case RemoveLeftoversId => {STOP, PACKAGE_INSTALLED, BEACON_STARTED}
  }

  /**
   * Whether a handler does its work under the given facts. Only
   * install_package can decline (no version) or fail (installer error),
   * and it never does either in LXC.
   */
  predicate Succeeds(h: HandlerId, env: Env)
  {
    h == InstallPackageId ==> env.inLxc || (HasVersion(env.version) && !env.installErr)
  }

  /**
   * Running a handler: on success the flags change by exactly the declared
   * sets, otherwise not at all, and in LXC no external call is made.
   */
  function Fire(h: HandlerId, flags: set<string>, env: Env): (t: Transition)
    ensures Succeeds(h, env) ==> t.flags == flags - ClearsOnSuccess(h) + SetsOnSuccess(h)
    ensures !Succeeds(h, env) ==> t.flags == flags
    ensures env.inLxc ==> t.effects == []
  {
    match h
    case InstallPackageId => Handlers.InstallPackage(flags, env)
    case EnableAndStartId => Handlers.EnableAndStart(flags, env)
    case RestartId => Handlers.Restart(flags)
    case ReinstallId => Handlers.Reinstall(flags)
    case RemoveLeftoversId => Handlers.RemoveLeftovers(flags, env)
  }

  /** No guard asks for a state to be both present and absent. */
  lemma GuardsConsistent(h: HandlerId)
    ensures GuardOf(h).when !! GuardOf(h).whenNot
  {
  }

  /** Every guarded handler is blocked by the stopped flag. */
  lemma StoppedBlocksEveryHandler(flags: set<string>)
    requires STOPPED in flags
    ensures Quiescent(flags)
  {
  }

  /** From an empty flag store no guarded handler is enabled: each guard asks for some state to be present. */
  lemma EmptyStoreIsQuiescent()
    ensures Quiescent({})
  {
  }

  /** restart and reinstall change only their own flag, and only while the other prerequisite is gone. */
  lemma RestartAndReinstallAreNarrow(flags: set<string>, env: Env)
    ensures Enabled(RestartId, flags) ==> PACKAGE_INSTALLED !in flags && BEACON_STARTED in flags
    ensures Enabled(ReinstallId, flags) ==> CONFIG_WRITTEN !in flags && PACKAGE_INSTALLED in flags
    ensures Fire(RestartId, flags, env) == Transition(flags - {BEACON_STARTED}, [])
    ensures Fire(ReinstallId, flags, env) == Transition(flags - {PACKAGE_INSTALLED}, [])
  {
  }

  /** A handler that does its work makes its own guard fail, so it does not fire twice in a row. */
  lemma SuccessDisablesOwnGuard(h: HandlerId, flags: set<string>, env: Env)
    requires Enabled(h, flags) && Succeeds(h, env)
    ensures !Enabled(h, Fire(h, flags, env).flags)
  {
  }

  /** A successful install hands over to enable_and_start unless the service is already marked started. */
  lemma InstallEnablesStart(flags: set<string>, env: Env)
    requires Enabled(InstallPackageId, flags) && Succeeds(InstallPackageId, env)
    ensures Enabled(EnableAndStartId, Fire(InstallPackageId, flags, env).flags) <==> BEACON_STARTED !in flags
  {
  }

  /**
   * A failed install changes nothing and leaves install_package enabled; a
   * later attempt whose installer succeeds then sets package-installed.
   */
  lemma InstallRetryAfterFailure(flags: set<string>, failing: Env, succeeding: Env)
    requires Enabled(InstallPackageId, flags)
    requires !Succeeds(InstallPackageId, failing) && Succeeds(InstallPackageId, succeeding)
    ensures Fire(InstallPackageId, flags, failing).flags == flags
    ensures Enabled(InstallPackageId, Fire(InstallPackageId, flags, failing).flags)
    ensures PACKAGE_INSTALLED in Fire(InstallPackageId, Fire(InstallPackageId, flags, failing).flags, succeeding).flags
  {
  }
}
