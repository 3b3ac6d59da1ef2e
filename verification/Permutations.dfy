/** Lists with the same elements in another order. */
module Permutations {

  lemma Regroup<T>(head: seq<T>, a: seq<T>, b: seq<T>)
    ensures head + (a + b) == (head + a) + b
  {
  }

  /** A permutation of `x` and `rest` is a permutation of `rest` with `x` put in somewhere. */
  lemma TakeOut<T>(x: T, rest: seq<T>, b: seq<T>) returns (left: seq<T>, right: seq<T>)
    requires multiset{x} + multiset(rest) == multiset(b)
    ensures b == left + [x] + right && multiset(rest) == multiset(left + right)
  {
    assert x in multiset{x} + multiset(rest);
    assert x in multiset(b);
    var k :| 0 <= k < |b| && b[k] == x;
    left, right := b[..k], b[k + 1..];
    assert b == left + [x] + right;
    assert multiset(b) == multiset(left) + multiset{x} + multiset(right);
    assert multiset(left + right) == multiset(b) - multiset{x};
    assert multiset(rest) == multiset{x} + multiset(rest) - multiset{x};
  }

  /** Putting the same items in at different places keeps lists permutations of each other. */
  lemma PutIn<T>(a: seq<T>, x: seq<T>, left: seq<T>, right: seq<T>)
    requires multiset(a) == multiset(left + right)
    ensures multiset(a + x) == multiset(left + x + right) && multiset(x + a) == multiset(left + x + right)
  {
  }
}
