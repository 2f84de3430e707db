/** Sequences as lists that lose an element. */
module Sequences {
  function Without<T>(l: seq<T>, k: nat): seq<T>
    requires k < |l|
  {
    l[..k] + l[k + 1..]
  }
}
