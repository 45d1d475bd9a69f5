/**
 Addresses in a tree: the index of the child to take at each level.
 */
module Addresses {

  type Address = seq<nat>

  /** Document order: a node before what is inside it, earlier children first. */
  predicate Earlier(a: Address, b: Address)
    decreases |a|
  {
    b != [] && (a == [] || a[0] < b[0] || (a[0] == b[0] && Earlier(a[1..], b[1..])))
  }

  /** Order under a common prefix is the order without it. */
  lemma {:induction false} EarlierUnder(prefix: Address, a: Address, b: Address)
    ensures Earlier(prefix + a, prefix + b) <==> Earlier(a, b)
  {
    if prefix == [] {
      assert prefix + a == a && prefix + b == b;
    } else {
      assert (prefix + a)[1..] == prefix[1..] + a && (prefix + b)[1..] == prefix[1..] + b;
      EarlierUnder(prefix[1..], a, b);
    }
  }
}
