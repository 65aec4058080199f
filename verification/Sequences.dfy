/** Sequences with one more element. */
module Sequences {
  function Splice<T>(s: seq<T>, at: nat, x: T): (s': seq<T>)
    requires at <= |s|
    ensures |s'| == |s| + 1
  {
    s[..at] + [x] + s[at..]
  }
}
