/** Positions on a circle of `len` places. */
module Circular {

  /** The place `i` steps after `start`. */
  function Wrap(start: nat, i: nat, len: nat): (r: nat)
    requires start < len && i <= len
    ensures r < len
  {
    if start + i < len then start + i else start + i - len
  }

  function After(p: nat, len: nat): nat
    requires len > 0
  {
    (p + 1) % len
  }

  lemma NextPlace(start: nat, i: nat, len: nat)
    requires start < len && i < len
    ensures After(Wrap(start, i, len), len) == Wrap(start, i + 1, len)
  {
  }
}
