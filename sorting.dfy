/**
 * Python's `sorted`, as the three population-level sorts of the genetic
 * algorithm use it (by a key, or by the crowded comparison `__lt__`): a
 * stable sort of a list of population indices under a strict weak order.
 * Modelled as an insertion sort; stability and the strict weak order make
 * the result unique, so any stable sort returns the same list.
 */
module Sorting {
  import opened GraphModel

  /** `less` is asymmetric and negatively transitive, as Python's sort expects of `<`. */
  ghost predicate StrictWeakOrder(less: (nat, nat) -> bool) {
    && (forall x, y :: less(x, y) ==> !less(y, x))
    && (forall x, y, z :: less(x, z) ==> less(x, y) || less(y, z))
  }

  /** No element is less than one before it. */
  ghost predicate Sorted(r: seq<nat>, less: (nat, nat) -> bool) {
    forall a, b | 0 <= a < b < |r| :: !less(r[b], r[a])
  }

  /** Position of the first occurrence of `x` in `s`. */
  function IndexOf(s: seq<nat>, x: nat): (k: nat)
    requires x in s
    ensures k < |s| && s[k] == x && x !in s[..k]
  {
    if s[0] == x then 0 else 1 + IndexOf(s[1..], x)
  }

  /** Equivalent elements (neither less than the other) keep their input order. */
  ghost predicate Stable(s: seq<nat>, r: seq<nat>, less: (nat, nat) -> bool)
    requires forall x | x in r :: x in s
  {
    forall a, b | 0 <= a < b < |r| && !less(r[a], r[b]) :: IndexOf(s, r[a]) < IndexOf(s, r[b])
  }

  /**
   * `sorted(s, key=...)` / `sorted(s)`: a stable sort. Each element is
   * inserted after every element it is not less than.
   */
  method SortBy(s: seq<nat>, less: (nat, nat) -> bool) returns (r: seq<nat>)
    requires NoDup(s) && StrictWeakOrder(less)
    ensures |r| == |s| && multiset(r) == multiset(s) && NoDup(r)
    ensures forall x :: x in r <==> x in s
    ensures Sorted(r, less) && Stable(s, r, less)
  {
    r := [];
    for i := 0 to |s|
      invariant multiset(r) == multiset(s[..i])
      invariant forall x | x in r :: x in s[..i]
      invariant NoDup(r)
      invariant Sorted(r, less)
      invariant Stable(s, r, less)
    {
      var x := s[i];
      var j := |r|;
      while j > 0 && less(x, r[j - 1])
        invariant 0 <= j <= |r|
        invariant forall b | j <= b < |r| :: less(x, r[b])
      {
        j := j - 1;
      }
      InsertSorted(r, x, j, less);
      InsertStable(s, r, i, j, less);
      InsertNoDup(s, r, i, j);
      assert s[..i + 1] == s[..i] + [x];
      assert r == r[..j] + r[j..];
      r := r[..j] + [x] + r[j..];
    }
    assert s[..|s|] == s;
    MembersOfPermutation(r, s);
  }

  /** Inserting an element of `s` not yet inserted keeps the list free of repeats. */
  lemma InsertNoDup(s: seq<nat>, r: seq<nat>, i: nat, j: nat)
    requires NoDup(s) && i < |s| && j <= |r| && NoDup(r)
    requires forall x | x in r :: x in s[..i]
    ensures NoDup(r[..j] + [s[i]] + r[j..])
  {
    assert s[i] !in s[..i];
    var t := r[..j] + [s[i]] + r[j..];
    forall a, b | 0 <= a < b < |t| ensures t[a] != t[b] {
      if a == j {
        assert t[b] in r;
      } else if b == j {
        assert t[a] in r;
      } else {
        var a' := if a < j then a else a - 1;
        var b' := if b < j then b else b - 1;
        assert t[a] == r[a'] && t[b] == r[b'];
      }
    }
  }

  /** Inserting `x` after the elements it is not less than, before those it is less than, keeps the list sorted. */
  lemma InsertSorted(r: seq<nat>, x: nat, j: nat, less: (nat, nat) -> bool)
    requires StrictWeakOrder(less) && Sorted(r, less) && j <= |r|
    requires j > 0 ==> !less(x, r[j - 1])
    requires forall b | j <= b < |r| :: less(x, r[b])
    ensures Sorted(r[..j] + [x] + r[j..], less)
  {
    var t := r[..j] + [x] + r[j..];
    forall a, b | 0 <= a < b < |t| ensures !less(t[b], t[a]) {
      if b < j {
        assert t[a] == r[a] && t[b] == r[b];
      } else if b == j {
        assert t[a] == r[a];
        if a < j - 1 {
          assert !less(r[j - 1], r[a]);
        }
      } else if a == j {
        assert t[b] == r[b - 1];
      } else if a < j {
        assert t[a] == r[a] && t[b] == r[b - 1];
      } else {
        assert t[a] == r[a - 1] && t[b] == r[b - 1];
      }
    }
  }

  /** The element drawn at step `i` sits after every equivalent element already placed. */
  lemma {:induction false} InsertStable(s: seq<nat>, r: seq<nat>, i: nat, j: nat, less: (nat, nat) -> bool)
    requires NoDup(s) && i < |s| && j <= |r|
    requires forall x | x in r :: x in s[..i]
    requires Stable(s, r, less)
    requires forall b | j <= b < |r| :: less(s[i], r[b])
    ensures forall x | x in r[..j] + [s[i]] + r[j..] :: x in s[..i + 1]
    ensures Stable(s, r[..j] + [s[i]] + r[j..], less)
  {
    var x := s[i];
    var t := r[..j] + [x] + r[j..];
    assert s[..i + 1] == s[..i] + [x];
    IndexOfNoDup(s, i);
    forall y | y in r ensures IndexOf(s, y) < i {
      var k := IndexOf(s, y);
      var p :| 0 <= p < i && s[..i][p] == y;
      assert s[p] == y;
    }
    forall y | y in t ensures y in s[..i + 1] {
      if y != x {
        assert y in r by {
          assert t == r[..j] + ([x] + r[j..]);
          assert r == r[..j] + r[j..];
        }
      }
    }
    forall a, b | 0 <= a < b < |t| && !less(t[a], t[b]) ensures IndexOf(s, t[a]) < IndexOf(s, t[b]) {
      if b < j {
        assert t[a] == r[a] && t[b] == r[b];
      } else if b == j {
        assert t[a] == r[a];
      } else if a < j {
        assert t[a] == r[a] && t[b] == r[b - 1];
      } else if a > j {
        assert t[a] == r[a - 1] && t[b] == r[b - 1];
      }
    }
  }

  /** In a list without repeats, the first occurrence of the element at `i` is `i`. */
  lemma IndexOfNoDup(s: seq<nat>, i: nat)
    requires NoDup(s) && i < |s|
    ensures IndexOf(s, s[i]) == i
  {
    var k := IndexOf(s, s[i]);
  }

  lemma MembersOfPermutation(r: seq<nat>, s: seq<nat>)
    requires multiset(r) == multiset(s)
    ensures forall x :: x in r <==> x in s
  {
    forall x ensures x in r <==> x in s {
      assert x in r <==> x in multiset(r);
      assert x in s <==> x in multiset(s);
    }
  }
}
