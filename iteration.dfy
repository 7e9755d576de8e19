/** Visiting the keys of a dict, whose iteration order a map does not have. */
module Iteration {

  /** An arbitrary element of a non-empty set: the next key a loop over a dict visits. */
  method Pick<T>(s: set<T>) returns (x: T)
    requires s != {}
    ensures x in s
  {
    x :| x in s;
  }
}
