/**
 sort.Slice as the swarm uses it, p2p/swarm.go:228-230 and 361-367: an insertion sort by a
 comparator that decides on a key and may answer ties either way, and differently each time.
 */
module Sorting {

  ghost predicate SortedBy<T>(key: T -> real, s: seq<T>) {
    forall i, j :: 0 <= i < j < |s| ==> key(s[i]) <= key(s[j])
  }

  // On equal keys the answer is a coin toss, so this is not a strict weak order.
  method Less<T>(key: T -> real, x: T, y: T) returns (less: bool)
    ensures key(x) < key(y) ==> less
    ensures less ==> key(x) <= key(y)
  {
    if key(x) == key(y) {
      less := *;
    } else {
      less := key(x) < key(y);
    }
  }

  method SortSlice<T>(a: array<T>, key: T -> real)
    modifies a
    ensures multiset(a[..]) == multiset(old(a[..]))
    ensures SortedBy(key, a[..])
  {
    for i := 0 to a.Length
      invariant multiset(a[..]) == multiset(old(a[..]))
      invariant SortedBy(key, a[..i])
    {
      SinkLast(a, key, i);
    }
    assert a[..] == a[..a.Length];
  }

  // The element at `last` moves left past each neighbour the comparator puts it before.
  method SinkLast<T>(a: array<T>, key: T -> real, last: nat)
    requires last < a.Length && SortedBy(key, a[..last])
    modifies a
    ensures multiset(a[..]) == multiset(old(a[..]))
    ensures SortedBy(key, a[..last + 1])
  {
    var j := last;
    assert forall p :: 0 <= p < last ==> a[p] == a[..last][p];
    while j > 0
      invariant 0 <= j <= last
      invariant Parted(key, a[..], j, last)
      invariant multiset(a[..]) == multiset(old(a[..]))
    {
      var less := Less(key, a[j], a[j - 1]);
      if !less {
        break;
      }
      SwapKeepsParted(key, a[..], j, last);
      ghost var before := a[..];
      a[j], a[j - 1] := a[j - 1], a[j];
      assert a[..] == before[j := before[j - 1]][j - 1 := before[j]];
      j := j - 1;
    }
    PartedIsSorted(key, a[..], j, last);
    assert a[..][..last + 1] == a[..last + 1];
  }

  // s[..last + 1] is sorted but for the element at j, which is below all that follow it.
  ghost predicate Parted<T>(key: T -> real, s: seq<T>, j: nat, last: nat)
    requires j <= last < |s|
  {
    && (forall p, q :: 0 <= p < q <= last && q != j && p != j ==> key(s[p]) <= key(s[q]))
    && (forall q :: j < q <= last ==> key(s[j]) <= key(s[q]))
  }

  lemma PartedIsSorted<T>(key: T -> real, s: seq<T>, j: nat, last: nat)
    requires j <= last < |s| && Parted(key, s, j, last)
    requires j > 0 ==> key(s[j - 1]) <= key(s[j])
    ensures SortedBy(key, s[..last + 1])
  {
    forall p, q | 0 <= p < q <= last
      ensures key(s[p]) <= key(s[q])
    {
      assert q == j && p < j - 1 ==> key(s[p]) <= key(s[j - 1]);
    }
  }

  lemma SwapKeepsParted<T>(key: T -> real, s: seq<T>, j: nat, last: nat)
    requires 0 < j <= last < |s| && Parted(key, s, j, last)
    requires key(s[j]) <= key(s[j - 1])
    ensures Parted(key, s[j := s[j - 1]][j - 1 := s[j]], j - 1, last)
  {
    var t := s[j := s[j - 1]][j - 1 := s[j]];
    forall p, q | 0 <= p < q <= last && q != j - 1 && p != j - 1
      ensures key(t[p]) <= key(t[q])
    {
      assert key(s[if p == j then j - 1 else p]) <= key(s[if q == j then j - 1 else q]);
    }
  }
}
