/** Two facts about multisets that several proofs need. */
module Multisets {
  lemma Associate<T>(a: multiset<T>, b: multiset<T>, c: multiset<T>)
    ensures a + b + c == a + (b + c)
  {
  }

  /** Taking the same element out of two sequences with the same elements. */
  lemma SameRest<T>(a: seq<T>, x: seq<T>, y: seq<T>)
    requires a != [] && multiset(a) == multiset(x + [a[0]] + y)
    ensures multiset(a[1..]) == multiset(x + y)
  {
    assert a == [a[0]] + a[1..];
    assert multiset(x + [a[0]] + y) == multiset(x + y) + multiset{a[0]};
    assert multiset(a) == multiset(a[1..]) + multiset{a[0]};
    forall e
      ensures multiset(a[1..])[e] == multiset(x + y)[e]
    {
      assert multiset(a)[e] == multiset(a[1..])[e] + multiset{a[0]}[e];
      assert multiset(a)[e] == multiset(x + y)[e] + multiset{a[0]}[e];
    }
  }
}
