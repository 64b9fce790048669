/** Counting facts about finite sets, and about sequences without duplicates. */
module Collections {

  lemma {:induction false} SubsetSize<T>(a: set<T>, b: set<T>)
    requires a <= b
    ensures |a| <= |b|
    ensures |a| == |b| ==> a == b
    decreases a
  {
    if a != {} {
      var x :| x in a;
      SubsetSize(a - {x}, b - {x});
    }
  }

  ghost predicate NoDuplicates<T>(s: seq<T>) {
    forall i, j :: 0 <= i < j < |s| ==> s[i] != s[j]
  }

  lemma {:induction false} CountOnce<T>(s: seq<T>, x: T)
    requires NoDuplicates(s)
    ensures multiset(s)[x] == if x in s then 1 else 0
  {
    if s != [] {
      var front, last := s[..|s| - 1], s[|s| - 1];
      assert s == front + [last];
      CountOnce(front, x);
      assert last !in front;
    }
  }

  lemma SameElementsSameMultiset<T>(s: seq<T>, t: seq<T>)
    requires NoDuplicates(s) && NoDuplicates(t)
    requires forall x :: x in s <==> x in t
    ensures multiset(s) == multiset(t)
  {
    forall x
      ensures multiset(s)[x] == multiset(t)[x]
    {
      CountOnce(s, x);
      CountOnce(t, x);
    }
  }

  // A permutation keeps the elements, and keeps them distinct.
  lemma PermutationKeepsElements<T>(s: seq<T>, t: seq<T>)
    requires multiset(s) == multiset(t)
    ensures |s| == |t|
    ensures forall x :: x in s <==> x in t
    ensures NoDuplicates(s) ==> NoDuplicates(t)
  {
    assert |multiset(s)| == |s| && |multiset(t)| == |t|;
    forall x
      ensures x in s <==> x in t
    {
      assert x in s <==> x in multiset(s);
      assert x in t <==> x in multiset(t);
    }
    if NoDuplicates(s) {
      forall i, j | 0 <= i < j < |t|
        ensures t[i] != t[j]
      {
        CountOnce(s, t[i]);
        assert t == t[..j] + [t[j]] + t[j + 1..];
        assert t[i] in t[..j];
        assert t[i] == t[j] ==> multiset(t)[t[i]] >= 2;
      }
    }
  }
}
