/**
 * Counting edges supervisor by supervisor: what is needed to compare the
 * degrees of a crossover child with the structure of a parent.
 */
module Counting {
  import opened GraphModel

  /** The edges of `e` at supervisor `sup`. */
  ghost function At(e: set<(Sup, Stu)>, sup: Sup): set<(Sup, Stu)> {
    set p | p in e && p.0 == sup
  }

  /** The edges of `e` at the supervisors of `ks`. */
  ghost function Within(e: set<(Sup, Stu)>, ks: set<Sup>): set<(Sup, Stu)> {
    set p | p in e && p.0 in ks
  }

  /** Each student of `s` paired with its owner. */
  ghost function Owned(owner: map<Stu, Sup>, s: set<Stu>): set<(Sup, Stu)>
    requires s <= owner.Keys
  {
    set stu | stu in s :: (owner[stu], stu)
  }

  /** Taking one supervisor out of `ks` splits its edges off. */
  lemma Split(e: set<(Sup, Stu)>, ks: set<Sup>, k: Sup)
    requires k in ks
    ensures |Within(e, ks)| == |At(e, k)| + |Within(e, ks - {k})|
  {
    assert Within(e, ks) == At(e, k) + Within(e, ks - {k});
    assert At(e, k) !! Within(e, ks - {k});
  }

  /**
   * At most as many edges at every supervisor gives at most as many edges
   * in all, and the same number in all only when every supervisor has the
   * same number.
   */
  lemma {:induction false} CountCompare(e1: set<(Sup, Stu)>, e2: set<(Sup, Stu)>, ks: set<Sup>)
    requires forall k | k in ks :: |At(e1, k)| <= |At(e2, k)|
    ensures |Within(e1, ks)| <= |Within(e2, ks)|
    ensures |Within(e1, ks)| == |Within(e2, ks)| ==> forall k | k in ks :: |At(e1, k)| == |At(e2, k)|
    decreases ks
  {
    if ks == {} {
      assert Within(e1, ks) == {} && Within(e2, ks) == {};
    } else {
      var k :| k in ks;
      CountCompare(e1, e2, ks - {k});
      Split(e1, ks, k);
      Split(e2, ks, k);
    }
  }

  /** Pairing students with their owners loses none of them. */
  lemma {:induction false} OwnedCard(owner: map<Stu, Sup>, s: set<Stu>)
    requires s <= owner.Keys
    ensures |Owned(owner, s)| == |s|
    decreases s
  {
    if s == {} {
      assert Owned(owner, s) == {};
    } else {
      var x :| x in s;
      OwnedCard(owner, s - {x});
      assert Owned(owner, s) == Owned(owner, s - {x}) + {(owner[x], x)};
    }
  }

  /** A supervisor has as many edges as students in its list. */
  lemma DegreeCount(g: Graph, sup: Sup)
    requires sup in g.sups ==> NoDup(g.sups[sup])
    ensures |At(Edges(g), sup)| == Degree(g, sup)
  {
    if sup in g.sups {
      var s := SetOf(g.sups[sup]);
      var owner := map stu | stu in s :: sup;
      forall p | p in At(Edges(g), sup) ensures p in Owned(owner, s) {
        assert p.1 in s && owner[p.1] == sup;
      }
      assert At(Edges(g), sup) == Owned(owner, s);
      OwnedCard(owner, s);
      NoDupCard(g.sups[sup]);
    } else {
      assert At(Edges(g), sup) == {};
    }
  }

  /** When every student has exactly one supervisor there is one edge per student. */
  lemma OneEachCount(g: Graph)
    requires Consistent(g) && forall stu | stu in g.stus :: |g.stus[stu]| == 1
    ensures |Edges(g)| == |g.stus.Keys|
  {
    var owner := map stu | stu in g.stus :: g.stus[stu][0];
    forall p | p in Edges(g) ensures p in Owned(owner, g.stus.Keys) {
      assert p.1 in g.stus && p.0 in g.stus[p.1];
    }
    forall p | p in Owned(owner, g.stus.Keys) ensures p in Edges(g) {
      assert p.0 in g.stus[p.1];
    }
    assert Edges(g) == Owned(owner, g.stus.Keys);
    OwnedCard(owner, g.stus.Keys);
  }

  // ---------------------------------------------------------------------------
  // Sums of quotas

  /** The sum of the values of `m`: the total quota of a supervisor table. */
  ghost function Total(m: map<Sup, int>): int
    decreases |m|
  {
    if m == map[] then 0
    else
      var k :| k in m;
      m[k] + Total(m - {k})
  }

  /** Any supervisor can be taken out of the sum first. */
  lemma {:induction false} TotalRemove(m: map<Sup, int>, k: Sup)
    requires k in m
    ensures Total(m) == m[k] + Total(m - {k})
    decreases |m|
  {
    var j :| j in m && Total(m) == m[j] + Total(m - {j});
    if j != k {
      TotalRemove(m - {j}, k);
      TotalRemove(m - {k}, j);
      assert m - {j} - {k} == m - {k} - {j};
    }
  }

  /**
   * Edges compared with quotas supervisor by supervisor, added up: at least
   * the quota everywhere gives at least the total, and more than the total
   * when one supervisor has more than its quota.
   */
  lemma {:induction false} TotalBelowEdges(m: map<Sup, int>, e: set<(Sup, Stu)>)
    requires forall k | k in m :: m[k] <= |At(e, k)|
    ensures Total(m) <= |Within(e, m.Keys)|
    ensures (exists k | k in m :: m[k] < |At(e, k)|) ==> Total(m) < |Within(e, m.Keys)|
    decreases |m|
  {
    if m == map[] {
      assert Within(e, m.Keys) == {};
    } else {
      var k :| k in m;
      TotalRemove(m, k);
      TotalBelowEdges(m - {k}, e);
      Split(e, m.Keys, k);
      assert (m - {k}).Keys == m.Keys - {k};
    }
  }

  /** At most the quota at every supervisor gives at most the total quota. */
  lemma {:induction false} EdgesBelowTotal(m: map<Sup, int>, e: set<(Sup, Stu)>)
    requires forall k | k in m :: |At(e, k)| <= m[k]
    ensures |Within(e, m.Keys)| <= Total(m)
    decreases |m|
  {
    if m == map[] {
      assert Within(e, m.Keys) == {};
    } else {
      var k :| k in m;
      TotalRemove(m, k);
      EdgesBelowTotal(m - {k}, e);
      Split(e, m.Keys, k);
      assert (m - {k}).Keys == m.Keys - {k};
    }
  }

  /** At least one edge at each supervisor of `ks` gives at least `|ks|` edges; at most one, at most `|ks|`. */
  lemma {:induction false} OneAtEach(e: set<(Sup, Stu)>, ks: set<Sup>)
    ensures (forall k | k in ks :: |At(e, k)| >= 1) ==> |Within(e, ks)| >= |ks|
    ensures (forall k | k in ks :: |At(e, k)| <= 1) ==> |Within(e, ks)| <= |ks|
    decreases ks
  {
    if ks == {} {
      assert Within(e, ks) == {};
    } else {
      var k :| k in ks;
      OneAtEach(e, ks - {k});
      Split(e, ks, k);
    }
  }

  /** A sum of values that are never negative is never negative. */
  lemma {:induction false} TotalNonNegative(m: map<Sup, int>)
    requires forall k | k in m :: m[k] >= 0
    ensures Total(m) >= 0
    decreases |m|
  {
    if m != map[] {
      var k :| k in m;
      TotalRemove(m, k);
      TotalNonNegative(m - {k});
    }
  }

  /** Lowering one value by one lowers the sum by one. */
  lemma TotalLower(m: map<Sup, int>, k: Sup)
    requires k in m
    ensures Total(m[k := m[k] - 1]) == Total(m) - 1
  {
    TotalRemove(m, k);
    TotalRemove(m[k := m[k] - 1], k);
    assert m[k := m[k] - 1] - {k} == m - {k};
  }

  /** A sum whose every value is one more than the matching value of `m2` (zero where `m2` has none). */
  lemma {:induction false} TotalOnePlus(m1: map<Sup, int>, m2: map<Sup, int>)
    requires m2.Keys <= m1.Keys
    requires forall k | k in m1 :: m1[k] == 1 + (if k in m2 then m2[k] else 0)
    ensures Total(m1) == |m1| + Total(m2)
    decreases |m1|
  {
    if m1 == map[] {
      assert m2 == map[];
    } else {
      var k :| k in m1;
      TotalRemove(m1, k);
      if k in m2 {
        TotalRemove(m2, k);
        TotalOnePlus(m1 - {k}, m2 - {k});
      } else {
        assert m2 - {k} == m2;
        TotalOnePlus(m1 - {k}, m2);
      }
    }
  }

  /** In a consistent graph the edges at the supervisor keys are all its edges, one per student when each has one supervisor. */
  lemma StudentsAtKeys(g: Graph, ks: set<Sup>)
    requires Consistent(g) && forall stu | stu in g.stus :: |g.stus[stu]| == 1
    requires g.sups.Keys <= ks
    ensures |Within(Edges(g), ks)| == |g.stus.Keys|
    ensures forall k | k in ks :: |At(Edges(g), k)| == Degree(g, k)
  {
    assert Within(Edges(g), ks) == Edges(g);
    OneEachCount(g);
    forall k | k in ks ensures |At(Edges(g), k)| == Degree(g, k) {
      DegreeCount(g, k);
    }
  }

  /** A complete allocation has between one student per supervisor and the total quota. */
  lemma AllocationBounds(g: Graph, students: set<Stu>, quotas: map<Sup, int>)
    requires Allocation(g, students, quotas)
    ensures |quotas| <= |students| <= Total(quotas)
  {
    StudentsAtKeys(g, quotas.Keys);
    OneAtEach(Edges(g), quotas.Keys);
    EdgesBelowTotal(quotas, Edges(g));
  }
}
