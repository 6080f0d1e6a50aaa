/** Stock facts about sequences and multisets, kept apart so that larger proofs
    can call for the one they need. */
module Seqs {

  lemma Assoc<T>(a: seq<T>, b: seq<T>, c: seq<T>)
    ensures a + b + c == a + (b + c)
  {
  }

  lemma Unlast<T>(a: seq<T>)
    requires |a| > 0
    ensures a == a[..|a| - 1] + [a[|a| - 1]]
  {
  }

  lemma Unfirst<T>(a: seq<T>)
    requires |a| > 0
    ensures a == [a[0]] + a[1..]
  {
  }

  lemma Cut<T>(a: seq<T>, i: nat)
    requires i <= |a|
    ensures a == a[..i] + a[i..]
  {
  }

  lemma Unit<T>(a: seq<T>)
    ensures a + [] == a && [] + a == a
  {
  }

  /** Multisets cancel. */
  lemma Cancel<T>(a: multiset<T>, b: multiset<T>, c: multiset<T>)
    requires a + c == b + c
    ensures a == b
  {
    forall x
      ensures a[x] == b[x]
    {
      assert (a + c)[x] == (b + c)[x];
    }
  }

  lemma InMultiset(x: int, a: multiset<int>, b: multiset<int>)
    requires x in a && a <= b
    ensures x in b
  {
    assert a[x] <= b[x];
  }

  lemma Subset(a: set<int>, b: set<int>)
    requires a <= b
    ensures |a| <= |b|
  {
    if a != b {
      assert b == a + (b - a);
    }
  }
}
