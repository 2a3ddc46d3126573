/**
 * The semantic checker. The toy language cannot have semantic errors, so the checker
 * accepts every module and reports nothing.
 */
module Checker {

  import Ast
  import Diagnostics

  /** Whether the module passed, and the diagnostics reported while checking it. */
  datatype Outcome = Outcome(ok: bool, reported: seq<Diagnostics.Diagnostic>)

  /**
   * `check`: succeeds for every module and reports nothing, so no reporter's counts
   * change. It only receives the module, so it cannot change it, and it does not look at
   * the reporter's earlier state.
   */
  function Check(m: Ast.Module): (r: Outcome)
    ensures r.ok
    ensures r.reported == []
  {
    Outcome(true, [])
  }
}
