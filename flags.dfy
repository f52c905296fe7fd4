/**
 * The flag store of a reactive charm: a set of state names that are present.
 * A state name not in the set is absent; the charm framework keeps the set
 * between hook invocations.
 */
module Flags {
  const REPO_AVAILABLE: string := "storpool-repo-add.available"
  const CONFIG_WRITTEN: string := "storpool-common.config-written"
  const COMMON_STOP: string := "storpool-common.stop"
  const PACKAGE_INSTALLED: string := "storpool-beacon.package-installed"
  const BEACON_STARTED: string := "storpool-beacon.beacon-started"
  const STOP: string := "storpool-beacon.stop"
  const STOPPED: string := "storpool-beacon.stopped"

  /**
   * The guard of a handler, read off its decorators: every state named by
   * `@when` must be present and every state named by `@when_not` absent.
   */
  datatype Guard = Guard(when: set<string>, whenNot: set<string>)

  predicate Passes(g: Guard, flags: set<string>)
  {
    g.when <= flags && g.whenNot !! flags
  }
}
