# StorPool beacon charm layer — a verified model

The layer `reactive/storpool-beacon.py` is a Juju reactive charm layer that
installs, starts and tears down the `storpool_beacon` service. It is a small
flag-driven state machine. The reactive framework keeps a set of named states
(flags). Each handler carries a guard, read off its `@reactive.when` and
`@reactive.when_not` decorators. The model assumes the framework invokes a
handler only while its guard passes. The handler body then sets or removes states and calls the
package and service managers. The `upgrade-charm` hook is unguarded and
resets two states.

The model has these modules:

- `Flags`: the seven state names the layer uses, the `Guard` datatype and
  `Passes`.
- `Handlers`: the facts a handler consults (`Env`: in LXC or not, the
  `storpool_version` setting, what the installer reports), the external calls
  as an `Effect` datatype, each handler's guard, and each handler body as a
  function from the old flags to the new flags and the calls made, with
  lemmas about each body.
- `Registry`: the five guarded handlers as `HandlerId`, with the states each
  declares it sets and clears on success. `Fire` ties each body to those
  declared sets.
- `Convergence`: a model of the framework's dispatcher. It may fire any
  enabled handler, and the upgrade hook may arrive between them. It holds the
  convergence and terminal-state proofs. Both are stated over one event
  replay, `Replay`, which `Convergence.ReplayFollowsExecution` ties to the
  step relation.
- `Beacon`: class `BeaconUnit`, the imperative model. It has a mutable
  `flags` set and an effect `log`, and one method per handler with the same
  early returns as the source. Each method requires its guard and is proved
  to produce exactly the state its `Handlers` function gives.

The layer has no iteration cap and no check for contradictory guards. Those
would belong to the reactive framework, which is left out.
`Registry.GuardsConsistent` shows that no guard in this layer contradicts
itself. From an empty flag store no handler is enabled
(`Registry.EmptyStoreIsQuiescent`), because
install_package also needs `storpool-repo-add.available` and
`storpool-common.config-written`.

## Model

| member | source | states |
|---|---|---|
| `Handlers.InstallPackage` | reactive/storpool-beacon.py:23-60 | install_package's new flags and calls for each of its four exits (LXC, no version, installer error, success): at most package-installed is added, and it ends present exactly when it was present, the unit is in LXC, or a version is configured and the installer reports no error; calls happen exactly outside LXC with a version, at most two of them |
| `Handlers.EnableAndStart` | reactive/storpool-beacon.py:66-77 | beacon-started ends present, no other state changes, and a call is made exactly outside LXC |
| `Handlers.Restart` | reactive/storpool-beacon.py:83-87 | beacon-started ends absent, no other state changes, no call is made |
| `Handlers.Reinstall` | reactive/storpool-beacon.py:93-97 | package-installed ends absent, no other state changes, no call is made |
| `Handlers.ResetStates` | reactive/storpool-beacon.py:100-106 | the result only loses states, loses none but package-installed and beacon-started, and has both of those absent |
| `Handlers.RemoveLeftovers` | reactive/storpool-beacon.py:120-138 | stopped and storpool-common.stop end present; stop, package-installed and beacon-started end absent; every other state is kept; calls are made exactly outside LXC |
| `Handlers.InstallPackageGuardExact` | reactive/storpool-beacon.py:20-22 | install_package's guard passes exactly when repo-available and config-written are set and package-installed and stopped are clear |
| `Handlers.InstallPackageInLxc` | reactive/storpool-beacon.py:29-32 | in LXC, install_package only adds package-installed and calls nothing, after which its own guard fails |
| `Handlers.InstallPackageDeclinesWithoutVersion` | reactive/storpool-beacon.py:36-39 | outside LXC, with storpool_version missing or empty, the flags are unchanged and nothing is called |
| `Handlers.InstallPackageFailureKeepsState` | reactive/storpool-beacon.py:43-49 | when the installer reports an error, the flags are unchanged, which is also what removing package-installed would give; the guard still passes; the only call made is the install request |
| `Handlers.InstallPackageSuccess` | reactive/storpool-beacon.py:51-59 | on success, package-installed is added whatever was installed; the install call comes first; record_packages follows only for a non-empty list |
| `Handlers.EnableAndStartEffects` | reactive/storpool-beacon.py:66-77 | enable_and_start adds beacon-started and touches no other state, after which its own guard fails; it resumes the storpool_beacon service except in LXC |
| `Handlers.ResetStatesTouchesExactlyTwo` | reactive/storpool-beacon.py:100-106 | reset_states clears package-installed and beacon-started and keeps every other state, stopped included |
| `Handlers.RemoveLeftoversPost` | reactive/storpool-beacon.py:118-138 | after remove_leftovers: stop, package-installed and beacon-started are absent; stopped and storpool-common.stop are present; service pause and unrecord happen only outside LXC |
| `Registry.Fire` | reactive/storpool-beacon.py:23-138 | a handler that does its work changes the flags by exactly its declared set and clear sets; one that declines or fails changes nothing; in LXC no handler calls anything |
| `Registry.GuardsConsistent` | reactive/storpool-beacon.py:20-119 | no handler's guard asks for one state to be both present and absent |
| `Registry.StoppedBlocksEveryHandler` | reactive/storpool-beacon.py:20-119 | while stopped is set, no guarded handler is enabled |
| `Registry.EmptyStoreIsQuiescent` | reactive/storpool-beacon.py:20-119 | from an empty flag store no guarded handler is enabled, since every guard names at least one state that must be present |
| `Registry.RestartAndReinstallAreNarrow` | reactive/storpool-beacon.py:80-97 | restart runs only with package-installed clear and removes only beacon-started; reinstall runs only with config-written clear and removes only package-installed; neither calls anything |
| `Registry.SuccessDisablesOwnGuard` | reactive/storpool-beacon.py:20-138 | every guarded handler that does its work makes its own guard fail afterwards |
| `Registry.InstallEnablesStart` | reactive/storpool-beacon.py:20-65 | after a successful install, enable_and_start is enabled exactly when beacon-started was absent |
| `Registry.InstallRetryAfterFailure` | reactive/storpool-beacon.py:43-59 | a failed install leaves the flags as they were with install_package still enabled, and a later successful attempt sets package-installed |
| `Convergence.Rank` | reactive/storpool-beacon.py:20-87 | proof measure for ExecutionConverges, with no source counterpart: at most 3, and 0 exactly when package-installed and beacon-started are both present |
| `Convergence.ReadyStepDescends` | reactive/storpool-beacon.py:20-97 | from a ready state, every enabled handler under a succeeding installer keeps the state ready and lowers the rank |
| `Convergence.ReadyQuiescentIff` | reactive/storpool-beacon.py:20-97 | in a ready state, no handler is enabled exactly when installed and started both hold |
| `Convergence.GoalIsFixedPoint` | reactive/storpool-beacon.py:20-97 | a ready state with package-installed and beacon-started present admits no dispatcher step, so running the dispatcher again changes nothing |
| `Convergence.ReadyHasProgress` | reactive/storpool-beacon.py:20-77 | a ready state short of installed-and-started always has an enabled handler that lowers the rank |
| `Convergence.ExecutionConverges` | reactive/storpool-beacon.py:20-97 | every run of enabled handlers from a ready state, with succeeding installers, has at most 3 steps, stays ready, and stops exactly at installed-and-started |
| `Convergence.ReplayFollowsExecution` | reactive/storpool-beacon.py:20-97 | replaying handler dispatches, with handlers whose guard fails not invoked, passes through an execution of the step relation that starts at the initial flags and ends at the replay's final flags; the handler calls that fire use the replayed installer facts |
| `Convergence.Apply` | reactive/storpool-beacon.py:109-115 | one event: a dispatch whose guard fails changes nothing and calls nothing, an enabled dispatch runs the handler; the unguarded upgrade-charm hook only clears flags, clears none but package-installed and beacon-started, leaves both absent and calls nothing |
| `Convergence.ReplayConverges` | reactive/storpool-beacon.py:20-97 | any replay of handler dispatches from a ready state with succeeding installers fires at most 3 handlers, ends ready, and ends with nothing enabled exactly at installed-and-started |
| `Convergence.StoppedIsTerminal` | reactive/storpool-beacon.py:109-119 | once stopped, any mix of dispatches and upgrade hooks keeps stopped set, only ever clears flags, calls nothing and enables nothing |
| `Convergence.RemoveLeftoversIsFinal` | reactive/storpool-beacon.py:118-138 | after remove_leftovers, no later event makes any external call or sets package-installed or beacon-started again |
| `Beacon.BeaconUnit.InstallPackage` | reactive/storpool-beacon.py:20-60 | at most package-installed is added; the new flags and the appended calls are exactly those of the install_package body |
| `Beacon.BeaconUnit.EnableAndStart` | reactive/storpool-beacon.py:63-77 | beacon-started is added and nothing else changes; the service is resumed except in LXC |
| `Beacon.BeaconUnit.Restart` | reactive/storpool-beacon.py:80-87 | only beacon-started is removed; the log is unchanged |
| `Beacon.BeaconUnit.Reinstall` | reactive/storpool-beacon.py:90-97 | only package-installed is removed; the log is unchanged |
| `Beacon.BeaconUnit.ResetStates` | reactive/storpool-beacon.py:100-106 | package-installed and beacon-started are removed; the log is unchanged |
| `Beacon.BeaconUnit.RemoveStatesOnUpgrade` | reactive/storpool-beacon.py:109-115 | same as reset_states, so stopped is left as it was |
| `Beacon.BeaconUnit.RemoveLeftovers` | reactive/storpool-beacon.py:118-138 | stop is consumed and stopped is set; the flags and the appended calls are those of the remove_leftovers body |

## Left out

- The reactive dispatcher (decorator registration, hook scheduling, how often handlers are re-evaluated) is a foreign library. `Convergence` replaces it with a nondeterministic step relation. No iteration cap, batching or rejection of contradictory guards is modelled.
- A handler queued in the same dispatch iteration, whose guard an earlier set_state made false, is not modelled.
- `hookenv.status_set`, `rdebug` and `sputils.rdebug` report status and log messages. They do not touch the flags and are left out.
- `sprepo.install_packages`, `record_packages`, `unrecord_packages`, `host.service_resume` and `host.service_pause` are recorded as `Effect` entries without their semantics. What the installer returns is an input (`Env.installErr`, `Env.newlyInstalled`).
- `sputils.check_in_lxc` is an input (`Env.inLxc`), read once per handler call, as each handler calls it once.
- `hookenv.config()` appears only as the optional `storpool_version` string (`Env.version`). A non-string value is not modelled.
- The log message at line 48 says "removing the package-installed state", but the code removes nothing. The guard already has that state absent, so both readings give the same flags (`Handlers.InstallPackageFailureKeepsState`).
