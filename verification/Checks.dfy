/** Ordered checks: a call is refused for the first one that fails. */
module Checks {
  import opened Wrappers

  /** Refused for `why` if this check fails, and otherwise for what the later ones say. */
  function Unless<R>(fails: bool, why: R, later: Option<R>): Option<R> {
    if fails then Some(why) else later
  }
}
