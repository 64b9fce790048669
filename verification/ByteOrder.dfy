/** Strings in the order of their raw bytes, and the sorted listing of a set of them. */
module ByteOrder {
  predicate Before(a: string, b: string) {
    b != "" && (a == "" || a[0] < b[0] || (a[0] == b[0] && Before(a[1..], b[1..])))
  }

  lemma {:induction false} BeforeTotal(a: string, b: string)
    ensures a == b || Before(a, b) || Before(b, a)
  {
    if a != "" && b != "" && a[0] == b[0] {
      BeforeTotal(a[1..], b[1..]);
      assert a == [a[0]] + a[1..] && b == [b[0]] + b[1..];
    }
  }

  lemma {:induction false} BeforeStrict(a: string)
    ensures !Before(a, a)
  {
    if a != "" {
      BeforeStrict(a[1..]);
    }
  }

  lemma {:induction false} BeforeTransitive(a: string, b: string, c: string)
    requires Before(a, b) && Before(b, c)
    ensures Before(a, c)
  {
    if a != "" && a[0] == b[0] == c[0] {
      BeforeTransitive(a[1..], b[1..], c[1..]);
    }
  }

  /** Strictly increasing. */
  predicate Increasing(keys: seq<string>) {
    forall i, j :: 0 <= i < j < |keys| ==> Before(keys[i], keys[j])
  }

  /** A set has a first string. */
  lemma {:induction false} FirstOf(s: set<string>) returns (first: string)
    requires s != {}
    ensures first in s && forall k :: k in s && k != first ==> Before(first, k)
  {
    first :| first in s;
    if s != {first} {
      var other := FirstOf(s - {first});
      BeforeTotal(first, other);
      if Before(other, first) {
        first := other;
      } else {
        forall k | k in s && k != first
          ensures Before(first, k)
        {
          if k != other {
            BeforeTransitive(first, other, k);
          }
        }
      }
    }
  }

  /** The strings of a set, in increasing order. */
  ghost function Sorted(s: set<string>): seq<string> {
    if s == {} then []
    else
      assert exists first :: first in s && forall k :: k in s && k != first ==> Before(first, k) by {
        var first := FirstOf(s);
      }
      var first :| first in s && forall k :: k in s && k != first ==> Before(first, k);
      [first] + Sorted(s - {first})
  }

  lemma {:induction false} SortedLists(s: set<string>)
    ensures forall k :: k in Sorted(s) <==> k in s
    ensures Increasing(Sorted(s))
  {
    if s != {} {
      var first := Sorted(s)[0];
      assert Sorted(s)[1..] == Sorted(s - {first});
      SortedLists(s - {first});
      assert forall i :: 1 <= i < |Sorted(s)| ==> Sorted(s)[i] == Sorted(s - {first})[i - 1];
    }
  }

  /** There is only one increasing listing of a set. */
  lemma {:induction false} SortedUnique(s: set<string>, keys: seq<string>)
    requires forall k :: k in keys <==> k in s
    requires Increasing(keys)
    ensures keys == Sorted(s)
  {
    SortedLists(s);
    if keys == [] {
      assert forall k :: k !in s;
    } else {
      assert keys[0] in s;
      var first := Sorted(s)[0];
      assert first in keys && keys[0] in Sorted(s);
      BeforeStrict(keys[0]);
      if keys[0] != first {
        BeforeTransitive(keys[0], first, keys[0]);
      }
      forall k | k in s
        ensures k in keys[1..] <==> k != first
      {
        assert k in keys;
      }
      SortedUnique(s - {first}, keys[1..]);
      assert keys == [first] + keys[1..];
    }
  }
}
