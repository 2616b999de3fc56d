/**
 * The predicates and small computations of pystsup/data/solution.py: Pareto
 * dominance, the crowded comparison, the common-suffix count of two keyword
 * paths, the rank weights, and the structural checks on an allocation.
 * Fitness values are opaque reals (the scoring itself is not modelled).
 */
module Solutions {
  import opened Outcomes
  import opened GraphModel
  import GraphOps

  /** The two objective values of a solution (student and supervisor fitness). */
  datatype Fitness = Fitness(fst: real, fsup: real)

  /** `dominates`: the three conditions of the source, any of which suffices. */
  predicate Dominates(a: Fitness, b: Fitness)
    ensures Dominates(a, b) <==> a.fst >= b.fst && a.fsup >= b.fsup && (a.fst > b.fst || a.fsup > b.fsup)
  {
    || (a.fst > b.fst && a.fsup > b.fsup)
    || (a.fst >= b.fst && a.fsup > b.fsup)
    || (a.fst > b.fst && a.fsup >= b.fsup)
  }

  /**
   * Dominance is Pareto dominance (at least as good in both objectives and
   * strictly better in one), and so a strict partial order.
   */
  lemma DominatesIsPareto(a: Fitness, b: Fitness, c: Fitness)
    ensures Dominates(a, b) <==> a.fst >= b.fst && a.fsup >= b.fsup && (a.fst > b.fst || a.fsup > b.fsup)
    ensures !Dominates(a, a)
    ensures Dominates(a, b) ==> !Dominates(b, a)
    ensures Dominates(a, b) && Dominates(b, c) ==> Dominates(a, c)
  {
  }

  /** A crowding distance: a real or the infinity given to boundary points. */
  datatype Distance = Finite(value: real) | Infinity

  /** Python's `>` on a float that may be infinite: infinity is not greater than itself. */
  predicate Farther(a: Distance, b: Distance) {
    match (a, b)
    case (Infinity, Finite(_)) => true
    case (Finite(x), Finite(y)) => x > y
    case _ => false
  }

  /** Adding a finite gap to a distance (infinity absorbs it). */
  function AddGap(d: Distance, gap: real): (r: Distance)
    ensures r.Infinity? <==> d.Infinity?
    ensures gap > 0.0 ==> Farther(r, d) || d.Infinity?
  {
    match d
    case Infinity => Infinity
    case Finite(x) => Finite(x + gap)
  }

  /** The NSGA-II bookkeeping of a solution: its front index and crowding distance. */
  datatype Standing = Standing(rank: int, distance: Distance)

  /** `__lt__`, the crowded comparison: lower rank wins, then larger distance. */
  predicate CrowdedLess(a: Standing, b: Standing)
    ensures a.rank < b.rank ==> CrowdedLess(a, b)
    ensures a.rank > b.rank ==> !CrowdedLess(a, b)
    ensures a.rank == b.rank ==> (CrowdedLess(a, b) <==> Farther(a.distance, b.distance))
  {
    a.rank < b.rank || (a.rank == b.rank && Farther(a.distance, b.distance))
  }

  /**
   * The crowded comparison is a strict weak order: irreflexive, asymmetric,
   * transitive, and incomparability (same rank, same distance class) is
   * transitive too.
   */
  lemma {:induction false} CrowdedLessIsStrictOrder(a: Standing, b: Standing, c: Standing)
    ensures !CrowdedLess(a, a)
    ensures CrowdedLess(a, b) ==> !CrowdedLess(b, a)
    ensures CrowdedLess(a, b) && CrowdedLess(b, c) ==> CrowdedLess(a, c)
    ensures !CrowdedLess(a, b) && !CrowdedLess(b, a) && !CrowdedLess(b, c) && !CrowdedLess(c, b) ==>
              !CrowdedLess(a, c) && !CrowdedLess(c, a)
  {
    FartherIsStrictWeakOrder(a.distance, b.distance, c.distance);
  }

  lemma FartherIsStrictWeakOrder(x: Distance, y: Distance, z: Distance)
    ensures !Farther(x, x)
    ensures Farther(x, y) && Farther(y, z) ==> Farther(x, z)
    ensures !Farther(x, y) && !Farther(y, x) && !Farther(y, z) && !Farther(z, y) ==> !Farther(x, z) && !Farther(z, x)
  {
  }

  // ---------------------------------------------------------------------------
  // _intersection

  /** The last k entries of a keyword path. */
  function Suffix(s: seq<string>, k: nat): seq<string>
    requires k <= |s|
  {
    s[|s| - k..]
  }

  /**
   * `_intersection`: walks both keyword paths from the end while the
   * entries agree. The count is the length of the longest common suffix.
   */
  method Intersection(kw1: seq<string>, kw2: seq<string>) returns (count: nat)
    ensures count <= |kw1| && count <= |kw2|
    ensures Suffix(kw1, count) == Suffix(kw2, count)
    ensures forall k | count < k <= |kw1| && k <= |kw2| :: Suffix(kw1, k) != Suffix(kw2, k)
  {
    count := 0;
    var i, j := |kw1| - 1, |kw2| - 1;
    while i >= 0 && j >= 0
      invariant i == |kw1| - 1 - count && j == |kw2| - 1 - count
      invariant count <= |kw1| && count <= |kw2|
      invariant Suffix(kw1, count) == Suffix(kw2, count)
      decreases i
    {
      if kw1[i] == kw2[j] {
        SuffixStep(kw1, count);
        SuffixStep(kw2, count);
        count := count + 1;
        i, j := i - 1, j - 1;
      } else {
        LongerSuffixesDiffer(kw1, kw2, count);
        return;
      }
    }
  }

  lemma SuffixStep(s: seq<string>, k: nat)
    requires k < |s|
    ensures Suffix(s, k + 1) == [s[|s| - k - 1]] + Suffix(s, k)
  {
  }

  /** Once the entries just before a common suffix differ, no longer suffix is common. */
  lemma LongerSuffixesDiffer(kw1: seq<string>, kw2: seq<string>, count: nat)
    requires count < |kw1| && count < |kw2|
    requires kw1[|kw1| - count - 1] != kw2[|kw2| - count - 1]
    ensures forall k | count < k <= |kw1| && k <= |kw2| :: Suffix(kw1, k) != Suffix(kw2, k)
  {
    forall k | count < k <= |kw1| && k <= |kw2|
      ensures Suffix(kw1, k) != Suffix(kw2, k)
    {
      var d := k - count - 1;
      assert kw1[|kw1| - k..][d] == kw1[|kw1| - count - 1];
      assert kw2[|kw2| - k..][d] == kw2[|kw2| - count - 1];
    }
  }

  // ---------------------------------------------------------------------------
  // calcRankWeights

  /** c to the power i, with 0 to the power 0 being 1 as in Python. */
  function Pow(c: real, i: nat): real {
    if i == 0 then 1.0 else c * Pow(c, i - 1)
  }

  /** c^0 + c^1 + ... + c^(n-1). */
  function PowSum(c: real, n: nat): real {
    if n == 0 then 0.0 else PowSum(c, n - 1) + Pow(c, n - 1)
  }

  /** The weights of ranks 1..n added up. */
  function WeightTotal(w: map<int, real>, n: nat): real
    requires forall i | 1 <= i <= n :: i in w
  {
    if n == 0 then 0.0 else WeightTotal(w, n - 1) + w[n]
  }

  /**
   * `calcRankWeights`: rank i (1 to n) gets c^(i-1), then every weight is
   * divided by their sum. A non-positive n gives the empty map; a sum of
   * zero (possible only for a negative c) raises ZeroDivisionError.
   */
  method CalcRankWeights(c: real, n: int) returns (r: Result<map<int, real>>)
    ensures r.Err? <==> n > 0 && PowSum(c, n) == 0.0
    ensures r.Err? ==> r.error == ZeroDivisionError
    ensures r.Ok? ==> forall i :: i in r.value <==> 1 <= i <= n
    ensures r.Ok? ==> forall i | 1 <= i <= n :: r.value[i] == Pow(c, i - 1) / PowSum(c, n)
  {
    var weights: map<int, real> := map[];
    var summation := 0.0;
    var count := if n < 0 then 0 else n;
    for i := 0 to count
      invariant forall k :: k in weights <==> 1 <= k <= i
      invariant forall k | 1 <= k <= i :: weights[k] == Pow(c, k - 1)
      invariant summation == PowSum(c, i)
    {
      weights := weights[i + 1 := Pow(c, i)];
      summation := summation + Pow(c, i);
    }
    if count > 0 && summation == 0.0 {
      return Err(ZeroDivisionError);
    }
    for i := 1 to count + 1
      invariant forall k :: k in weights <==> 1 <= k <= count
      invariant forall k | 1 <= k < i :: weights[k] == Pow(c, k - 1) / summation
      invariant forall k | i <= k <= count :: weights[k] == Pow(c, k - 1)
    {
      weights := weights[i := weights[i] / summation];
    }
    r := Ok(weights);
  }

  /** Dividing every term of a sum by the same non-zero total divides the sum. */
  lemma {:induction false} WeightTotalScaled(w: map<int, real>, c: real, n: nat, m: nat, total: real)
    requires total != 0.0 && m <= n
    requires forall i | 1 <= i <= n :: i in w && w[i] == Pow(c, i - 1) / total
    ensures WeightTotal(w, m) == PowSum(c, m) / total
  {
    if m > 0 {
      WeightTotalScaled(w, c, n, m - 1, total);
    }
  }

  /** Whenever there is at least one rank and no division by zero, the weights add up to 1. */
  lemma WeightsSumToOne(w: map<int, real>, c: real, n: nat)
    requires n > 0 && PowSum(c, n) != 0.0
    requires forall i | 1 <= i <= n :: i in w && w[i] == Pow(c, i - 1) / PowSum(c, n)
    ensures WeightTotal(w, n) == 1.0
  {
    var total := PowSum(c, n);
    WeightTotalScaled(w, c, n, n, total);
    DivSelf(total);
  }

  lemma DivSelf(x: real)
    requires x != 0.0
    ensures x / x == 1.0
  {
  }

  /** With c = 1 the sum is n and every rank (i + 1) weighs the same: 1/n. */
  lemma UniformWeights(n: nat)
    requires n > 0
    ensures PowSum(1.0, n) == n as real
    ensures forall i | 0 <= i < n :: Pow(1.0, i) / PowSum(1.0, n) == 1.0 / (n as real)
  {
    PowSumOne(n);
    forall i | 0 <= i < n
      ensures Pow(1.0, i) == 1.0
    {
      PowOne(i);
    }
  }

  lemma {:induction false} PowOne(i: nat)
    ensures Pow(1.0, i) == 1.0
  {
    if i > 0 {
      PowOne(i - 1);
    }
  }

  lemma {:induction false} PowSumOne(n: nat)
    ensures PowSum(1.0, n) == n as real
  {
    if n > 0 {
      PowSumOne(n - 1);
      PowOne(n - 1);
    }
  }

  /** For a positive c the sum is positive, so the weights are defined and each is c times the one before. */
  lemma {:induction false} PositiveWeights(c: real, n: nat, i: nat)
    requires c > 0.0 && 1 <= i < n
    ensures PowSum(c, n) > 0.0
    ensures Pow(c, i) / PowSum(c, n) == c * (Pow(c, i - 1) / PowSum(c, n))
  {
    PowSumPositive(c, n);
  }

  lemma {:induction false} PowSumPositive(c: real, n: nat)
    requires c > 0.0 && n > 0
    ensures PowSum(c, n) > 0.0
  {
    PowPositive(c, n - 1);
    if n > 1 {
      PowSumPositive(c, n - 1);
    }
  }

  lemma {:induction false} PowPositive(c: real, i: nat)
    requires c > 0.0
    ensures Pow(c, i) > 0.0
  {
    if i > 0 {
      PowPositive(c, i - 1);
    }
  }

  // ---------------------------------------------------------------------------
  // isValid

  /**
   * What `isValid` accepts: as many supervisors and students as the tables,
   * every supervisor in the quota table with between 1 and its quota
   * students, and every listed student linked back to it with degree 1.
   */
  ghost predicate Accepted(g: Graph, students: set<Stu>, quotas: map<Sup, int>) {
    && |g.sups| == |quotas| && |g.stus| == |students|
    && (forall sup | sup in g.sups :: sup in quotas && 0 < |g.sups[sup]| <= quotas[sup])
    && (forall sup, stu | sup in g.sups && stu in g.sups[sup] :: stu in g.stus && sup in g.stus[stu] && |g.stus[stu]| == 1)
  }

  /**
   * The lookups `isValid` can fail on: the quota of a supervisor key and the
   * list of a student listed under a supervisor.
   */
  ghost predicate LookupsDefined(g: Graph, quotas: map<Sup, int>) {
    && (forall sup | sup in g.sups :: sup in quotas)
    && (forall sup, stu | sup in g.sups && stu in g.sups[sup] :: stu in g.stus)
  }

  /**
   * `isValid` as written: compares the two counts, then walks the
   * supervisors in dictionary order (`order`) and their students in list
   * order, stopping at the first failed check; a missing quota or student
   * key raises KeyError.
   */
  method IsValid(g: Graph, students: set<Stu>, quotas: map<Sup, int>, order: seq<Sup>) returns (r: Result<bool>)
    requires forall sup :: sup in order <==> sup in g.sups
    ensures r == Ok(true) <==> Accepted(g, students, quotas)
    ensures r.Err? ==> r.error == PyError.KeyError && !LookupsDefined(g, quotas)
    ensures LookupsDefined(g, quotas) ==> r.Ok?
  {
    if |g.sups| != |quotas| || |g.stus| != |students| {
      return Ok(false);
    }
    for k := 0 to |order|
      invariant forall sup | sup in order[..k] :: sup in quotas && 0 < |g.sups[sup]| <= quotas[sup]
      invariant forall sup, stu | sup in order[..k] && stu in g.sups[sup] :: stu in g.stus && sup in g.stus[stu] && |g.stus[stu]| == 1
    {
      var sup := order[k];
      if sup !in quotas {
        return Err(PyError.KeyError);
      }
      var val := |g.sups[sup]|;
      if val > quotas[sup] || val == 0 {
        return Ok(false);
      }
      var listed := g.sups[sup];
      for t := 0 to |listed|
        invariant forall stu | stu in listed[..t] :: stu in g.stus && sup in g.stus[stu] && |g.stus[stu]| == 1
      {
        var stu := listed[t];
        if stu !in g.stus {
          return Err(PyError.KeyError);
        }
        if sup !in g.stus[stu] || |g.stus[stu]| != 1 {
          return Ok(false);
        }
        assert listed[..t + 1] == listed[..t] + [stu];
      }
      assert listed[..|listed|] == listed;
      assert order[..k + 1] == order[..k] + [sup];
    }
    assert order[..|order|] == order;
    r := Ok(true);
  }

  /**
   * What a check of a complete allocation has to accept: the same
   * supervisor and student keys as the tables, each supervisor within 1 and
   * its quota, each student key with exactly one supervisor that lists it.
   */
  ghost predicate Strict(g: Graph, students: set<Stu>, quotas: map<Sup, int>) {
    && Accepted(g, students, quotas)
    && (forall stu | stu in g.stus :: stu in students && |g.stus[stu]| == 1)
  }

  /**
   * `isValid` with the missing student-side loop: additionally every
   * student key must come from the student table and have degree 1.
   */
  method IsValidStrict(g: Graph, students: set<Stu>, quotas: map<Sup, int>, order: seq<Sup>, stuOrder: seq<Stu>)
      returns (r: Result<bool>)
    requires forall sup :: sup in order <==> sup in g.sups
    requires forall stu :: stu in stuOrder <==> stu in g.stus
    ensures r == Ok(true) <==> Strict(g, students, quotas)
    ensures r.Err? ==> r.error == PyError.KeyError && !LookupsDefined(g, quotas)
    ensures LookupsDefined(g, quotas) ==> r.Ok?
  {
    r := IsValid(g, students, quotas, order);
    if r != Ok(true) {
      return;
    }
    for k := 0 to |stuOrder|
      invariant forall stu | stu in stuOrder[..k] :: stu in students && |g.stus[stu]| == 1
    {
      var stu := stuOrder[k];
      if stu !in students || |g.stus[stu]| != 1 {
        return Ok(false);
      }
      assert stuOrder[..k + 1] == stuOrder[..k] + [stu];
    }
    assert stuOrder[..|stuOrder|] == stuOrder;
  }

  /**
   * A graph that leaves student "b" with an empty list (as `removeEdge`
   * leaves it) and allocates only "a": consistent, accepted by `isValid`,
   * and yet not an allocation of both students.
   */
  function UnallocatedStudent(): Graph {
    Graph(map["A" := ["a"]], map["a" := ["A"], "b" := []])
  }

  lemma {:induction false} IsValidAcceptsUnallocatedStudent()
    ensures var g := UnallocatedStudent();
      && Consistent(g)
      && Accepted(g, {"a", "b"}, map["A" := 2])
      && !Allocation(g, {"a", "b"}, map["A" := 2])
  {
    var g := UnallocatedStudent();
    assert |g.stus.Keys| == 2 by {
      assert g.stus.Keys == {"a", "b"};
    }
    assert "b" in g.stus && |g.stus["b"]| != 1;
  }

  /** For a consistent graph the strict check accepts exactly the complete allocations. */
  lemma StrictIsAllocation(g: Graph, students: set<Stu>, quotas: map<Sup, int>)
    requires Consistent(g)
    ensures Strict(g, students, quotas) <==> Allocation(g, students, quotas)
  {
    if Strict(g, students, quotas) {
      SameSizeSubset(g.sups.Keys, quotas.Keys);
      SameSizeSubset(g.stus.Keys, students);
    }
    if Allocation(g, students, quotas) {
      assert |g.sups| == |quotas| by {
        assert g.sups.Keys == quotas.Keys;
      }
      assert |g.stus| == |students| by {
        assert g.stus.Keys == students;
      }
      forall sup, stu | sup in g.sups && stu in g.sups[sup]
        ensures stu in g.stus && sup in g.stus[stu] && |g.stus[stu]| == 1
      {
      }
    }
  }

  /** A subset with as many elements as the whole set is the whole set. */
  lemma SameSizeSubset<T>(a: set<T>, b: set<T>)
    requires a <= b && |a| == |b|
    ensures a == b
  {
    assert |b - a| == |b| - |a|;
  }

  // ---------------------------------------------------------------------------
  // getTransferable

  /** Supervisors with more than one student: a transfer may take one away. */
  function TransferableFrom(g: Graph): set<Sup> {
    set sup | sup in g.sups && |g.sups[sup]| > 1
  }

  /** Supervisors below quota: a transfer may give them one more. */
  function TransferableTo(g: Graph, quotas: map<Sup, int>): set<Sup>
    requires g.sups.Keys <= quotas.Keys
  {
    set sup | sup in g.sups && |g.sups[sup]| < quotas[sup]
  }

  /**
   * `getTransferable`: one pass over the supervisors collecting both sets;
   * a supervisor without a quota raises KeyError.
   */
  method GetTransferable(g: Graph, quotas: map<Sup, int>) returns (r: Result<(set<Sup>, set<Sup>)>)
    ensures r.Ok? <==> g.sups.Keys <= quotas.Keys
    ensures r.Err? ==> r.error == PyError.KeyError
    ensures r.Ok? ==> r.value.0 == TransferableFrom(g) && r.value.1 == TransferableTo(g, quotas)
  {
    var canFrom: set<Sup> := {};
    var canTo: set<Sup> := {};
    var todo := g.sups.Keys;
    while todo != {}
      invariant todo <= g.sups.Keys
      invariant forall sup | sup in g.sups && sup !in todo :: sup in quotas
      invariant canFrom == set sup | sup in g.sups && sup !in todo && |g.sups[sup]| > 1
      invariant canTo == set sup | sup in g.sups && sup !in todo && sup in quotas && |g.sups[sup]| < quotas[sup]
      decreases todo
    {
      var sup :| sup in todo;
      if sup !in quotas {
        return Err(PyError.KeyError);
      }
      if |g.sups[sup]| > 1 {
        canFrom := canFrom + {sup};
      }
      if |g.sups[sup]| < quotas[sup] {
        canTo := canTo + {sup};
      }
      todo := todo - {sup};
    }
    r := Ok((canFrom, canTo));
  }

  /**
   * On a complete allocation, the guard of `transferStudent` is exactly:
   * the source is in the "from" set, the target in the "to" set, and the
   * student is allocated to the source.
   */
  lemma TransferableIsGuard(g: Graph, students: set<Stu>, quotas: map<Sup, int>, stu: Stu, from: Sup, to: Sup)
    requires Allocation(g, students, quotas)
    ensures GraphOps.TransferAllowed(g, quotas, stu, from, to) <==>
      from in TransferableFrom(g) && to in TransferableTo(g, quotas) && from in g.sups && stu in g.sups[from]
  {
  }
}
