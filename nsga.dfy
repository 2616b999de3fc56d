/**
 * The NSGA-II bookkeeping of pystsup/evolutionary/geneticAlgorithm.py
 * besides the non-dominated sort: the crowding distances, the truncation
 * of the combined population to the next generation, `filterPopulation`,
 * the stagnation counter of `start`, and the offspring population of
 * `makeNewPopulation`. A solution is its index in the population, and the
 * per-solution fields (`rank`, `crowdingDistance`) are lists indexed the
 * same way.
 */
module Nsga {
  import opened GraphModel
  import opened Outcomes
  import opened Solutions
  import opened Sorting

  // ---------------------------------------------------------------------------
  // Sort keys

  /** `key=lambda x: x.getFst()`, total over indices so that any two can be compared. */
  function FstKey(fit: seq<Fitness>): nat -> real {
    (a: nat) => if a < |fit| then fit[a].fst else 0.0
  }

  /** `key=lambda x: x.getFsup()`. */
  function FsupKey(fit: seq<Fitness>): nat -> real {
    (a: nat) => if a < |fit| then fit[a].fsup else 0.0
  }

  /** `sorted(..., key=key)` compares by the key alone. */
  function ByKey(key: nat -> real): (nat, nat) -> bool {
    (a: nat, b: nat) => key(a) < key(b)
  }

  lemma ByKeyIsStrictWeakOrder(key: nat -> real)
    ensures StrictWeakOrder(ByKey(key))
  {
  }

  /** `r` is what Python's stable `sorted` makes of the duplicate-free list `s` under `less`. */
  ghost predicate SortedFrom(s: seq<nat>, r: seq<nat>, less: (nat, nat) -> bool) {
    && |r| == |s| && multiset(r) == multiset(s) && NoDup(r)
    && (forall x :: x in r <==> x in s)
    && Sorted(r, less) && Stable(s, r, less)
  }

  // ---------------------------------------------------------------------------
  // Crowding distance

  /** The gap between the neighbours of position k of a sorted front, divided by the objective's span. */
  function Gap(sorted: seq<nat>, k: nat, key: nat -> real, span: real): real
    requires 0 < k < |sorted| - 1 && span != 0.0
  {
    (key(sorted[k + 1]) - key(sorted[k - 1])) / span
  }

  /** `j` is first or last in the sorted front. */
  predicate Boundary(sorted: seq<nat>, j: nat)
    requires j in sorted
  {
    IndexOf(sorted, j) == 0 || IndexOf(sorted, j) == |sorted| - 1
  }

  /**
   * The crowding distance of front member `j`, given the front sorted by
   * each objective: infinite at either end of either order, otherwise the
   * sum of its two normalised neighbour gaps.
   */
  function Crowding(byFst: seq<nat>, byFsup: seq<nat>, j: nat, fit: seq<Fitness>, spanFst: real, spanFsup: real): Distance
    requires j in byFst && j in byFsup
    requires (|byFst| >= 3 ==> spanFst != 0.0) && (|byFsup| >= 3 ==> spanFsup != 0.0)
  {
    if Boundary(byFst, j) || Boundary(byFsup, j) then Infinity
    else Finite(Gap(byFst, IndexOf(byFst, j), FstKey(fit), spanFst) + Gap(byFsup, IndexOf(byFsup, j), FsupKey(fit), spanFsup))
  }

  /**
   * `crowding_distance_assignment`: nothing changes for an empty front;
   * otherwise every member gets its crowding distance, computed from the
   * front sorted by Fst and by Fsup (the ghost outputs), with the spans
   * `maxFst - minFst` and `maxFsup - minFsup`; a front of three or more
   * with an empty span divides by zero.
   */
  method CrowdingDistanceAssignment(fit: seq<Fitness>, front: seq<nat>, dist0: seq<Distance>,
                                    maxFst: real, minFst: real, maxFsup: real, minFsup: real)
      returns (r: Result<seq<Distance>>, ghost byFst: seq<nat>, ghost byFsup: seq<nat>)
    requires NoDup(front) && (forall j | j in front :: j < |fit|) && |dist0| == |fit|
    ensures SortedFrom(front, byFst, ByKey(FstKey(fit))) && SortedFrom(front, byFsup, ByKey(FsupKey(fit)))
    ensures front == [] ==> r == Ok(dist0)
    ensures r.Err? <==> |front| >= 3 && (maxFst == minFst || maxFsup == minFsup)
    ensures r.Err? ==> r.error == ZeroDivisionError
    ensures r.Ok? ==> && |r.value| == |fit|
                      && (forall j | 0 <= j < |fit| && j !in front :: r.value[j] == dist0[j])
                      && (forall j | j in front :: r.value[j] == Crowding(byFst, byFsup, j, fit, maxFst - minFst, maxFsup - minFsup))
  {
    var n := |front|;
    if n == 0 {
      return Ok(dist0), [], [];
    }
    var zeroed := ZeroFront(front, dist0);
    ByKeyIsStrictWeakOrder(FstKey(fit));
    ByKeyIsStrictWeakOrder(FsupKey(fit));
    var sF := SortBy(front, ByKey(FstKey(fit)));
    var sS := SortBy(front, ByKey(FsupKey(fit)));
    byFst, byFsup := sF, sS;
    r := AssignFromOrders(fit, front, sF, sS, dist0, zeroed, maxFst, minFst, maxFsup, minFsup);
  }

  /** The rest of `crowding_distance_assignment`, once the front is zeroed and sorted by both objectives. */
  method AssignFromOrders(fit: seq<Fitness>, front: seq<nat>, sF: seq<nat>, sS: seq<nat>, dist0: seq<Distance>, zeroed: seq<Distance>,
                          maxFst: real, minFst: real, maxFsup: real, minFsup: real)
      returns (r: Result<seq<Distance>>)
    requires |front| > 0 && |sF| == |front| == |sS| && NoDup(sF) && NoDup(sS)
    requires (forall x :: x in sF <==> x in front) && (forall x :: x in sS <==> x in front)
    requires |dist0| == |fit| && (forall j | j in front :: j < |fit|)
    requires |zeroed| == |fit| && forall j | 0 <= j < |fit| :: zeroed[j] == if j in front then Finite(0.0) else dist0[j]
    ensures r.Err? <==> |front| >= 3 && (maxFst == minFst || maxFsup == minFsup)
    ensures r.Err? ==> r.error == ZeroDivisionError
    ensures r.Ok? ==> && |r.value| == |fit|
                      && (forall j | 0 <= j < |fit| && j !in front :: r.value[j] == dist0[j])
                      && (forall j | j in front :: r.value[j] == Crowding(sF, sS, j, fit, maxFst - minFst, maxFsup - minFsup))
  {
    var n := |front|;
    assert sF[0] in sF && sF[n - 1] in sF && sS[0] in sS && sS[n - 1] in sS;
    var ends := zeroed[sF[0] := Infinity][sF[n - 1] := Infinity][sS[0] := Infinity][sS[n - 1] := Infinity];
    if n >= 3 && maxFst == minFst {
      return Err(ZeroDivisionError);
    }
    var withFst := AddGaps(sF, FstKey(fit), maxFst - minFst, ends);
    if n >= 3 && maxFsup == minFsup {
      return Err(ZeroDivisionError);
    }
    var dist := AddGaps(sS, FsupKey(fit), maxFsup - minFsup, withFst);
    CrowdingComplete(fit, front, sF, sS, dist0, zeroed, ends, withFst, dist, maxFst - minFst, maxFsup - minFsup);
    r := Ok(dist);
  }

  /** The first loop: every front member starts from distance 0. */
  method ZeroFront(front: seq<nat>, dist0: seq<Distance>) returns (dist: seq<Distance>)
    requires forall j | j in front :: j < |dist0|
    ensures |dist| == |dist0|
    ensures forall j | 0 <= j < |dist| :: dist[j] == if j in front then Finite(0.0) else dist0[j]
  {
    dist := dist0;
    for t := 0 to |front|
      invariant |dist| == |dist0|
      invariant forall j | 0 <= j < |dist| :: dist[j] == if j in front[..t] then Finite(0.0) else dist0[j]
    {
      assert front[..t + 1] == front[..t] + [front[t]];
      assert front[t] in front;
      dist := dist[front[t] := Finite(0.0)];
    }
    assert front[..|front|] == front;
  }

  /**
   * One of the two gap loops: every member strictly inside the sorted
   * front has its normalised neighbour gap added to its distance; the ends
   * and everything outside the front keep theirs.
   */
  method AddGaps(sorted: seq<nat>, key: nat -> real, span: real, dist: seq<Distance>) returns (r: seq<Distance>)
    requires NoDup(sorted) && (forall j | j in sorted :: j < |dist|) && (|sorted| >= 3 ==> span != 0.0)
    ensures |r| == |dist|
    ensures forall j | 0 <= j < |dist| ::
      r[j] == if j in sorted && !Boundary(sorted, j) then AddGap(dist[j], Gap(sorted, IndexOf(sorted, j), key, span)) else dist[j]
  {
    r := dist;
    var index := 1;
    while index < |sorted| - 1
      invariant 1 <= index && (|sorted| >= 2 ==> index <= |sorted| - 1)
      invariant |r| == |dist|
      invariant forall j | 0 <= j < |dist| ::
        r[j] == if j in sorted && 0 < IndexOf(sorted, j) < index then AddGap(dist[j], Gap(sorted, IndexOf(sorted, j), key, span)) else dist[j]
    {
      assert sorted[index] in sorted;
      IndexOfNoDup(sorted, index);
      r := r[sorted[index] := AddGap(r[sorted[index]], Gap(sorted, index, key, span))];
      index := index + 1;
    }
  }

  /** Zeroing, the four infinities and the two gap passes give every front member its crowding distance. */
  lemma CrowdingComplete(fit: seq<Fitness>, front: seq<nat>, sF: seq<nat>, sS: seq<nat>, dist0: seq<Distance>,
                         zeroed: seq<Distance>, ends: seq<Distance>, withFst: seq<Distance>, dist: seq<Distance>,
                         spanFst: real, spanFsup: real)
    requires |front| > 0 && |sF| == |front| == |sS| && NoDup(sF) && NoDup(sS)
    requires (forall x :: x in sF <==> x in front) && (forall x :: x in sS <==> x in front)
    requires (|front| >= 3 ==> spanFst != 0.0 && spanFsup != 0.0)
    requires |dist0| == |fit| && (forall j | j in front :: j < |fit|)
    requires |zeroed| == |fit| && forall j | 0 <= j < |fit| :: zeroed[j] == if j in front then Finite(0.0) else dist0[j]
    requires |ends| == |fit| && forall j | 0 <= j < |fit| ::
      ends[j] == if j == sF[0] || j == sF[|sF| - 1] || j == sS[0] || j == sS[|sS| - 1] then Infinity else zeroed[j]
    requires |withFst| == |fit| && forall j | 0 <= j < |fit| ::
      withFst[j] == if j in sF && !Boundary(sF, j) then AddGap(ends[j], Gap(sF, IndexOf(sF, j), FstKey(fit), spanFst)) else ends[j]
    requires |dist| == |fit|
    requires forall j | 0 <= j < |fit| ::
      dist[j] == if j in sS && !Boundary(sS, j) then AddGap(withFst[j], Gap(sS, IndexOf(sS, j), FsupKey(fit), spanFsup)) else withFst[j]
    ensures forall j | 0 <= j < |fit| && j !in front :: dist[j] == dist0[j]
    ensures forall j | j in front :: j < |dist| && dist[j] == Crowding(sF, sS, j, fit, spanFst, spanFsup)
  {
    forall j | j in front
      ensures j < |dist| && dist[j] == Crowding(sF, sS, j, fit, spanFst, spanFsup)
    {
      CrowdingAt(fit, sF, sS, j, spanFst, spanFsup, ends[j], withFst[j], dist[j]);
    }
  }

  /**
   * For one member of the front: starting from 0 (infinity at an end of
   * either order) and adding the Fst gap and then the Fsup gap where the
   * member is inside the respective order gives its crowding distance.
   */
  lemma CrowdingAt(fit: seq<Fitness>, sF: seq<nat>, sS: seq<nat>, j: nat, spanFst: real, spanFsup: real,
                   start: Distance, afterFst: Distance, afterFsup: Distance)
    requires NoDup(sF) && NoDup(sS) && j in sF && j in sS
    requires (|sF| >= 3 ==> spanFst != 0.0) && (|sS| >= 3 ==> spanFsup != 0.0)
    requires start == if j == sF[0] || j == sF[|sF| - 1] || j == sS[0] || j == sS[|sS| - 1] then Infinity else Finite(0.0)
    requires afterFst == if !Boundary(sF, j) then AddGap(start, Gap(sF, IndexOf(sF, j), FstKey(fit), spanFst)) else start
    requires afterFsup == if !Boundary(sS, j) then AddGap(afterFst, Gap(sS, IndexOf(sS, j), FsupKey(fit), spanFsup)) else afterFst
    ensures afterFsup == Crowding(sF, sS, j, fit, spanFst, spanFsup)
  {
    BoundaryIff(sF, j);
    BoundaryIff(sS, j);
  }

  /** The ends of a duplicate-free list are its first and last elements. */
  lemma BoundaryIff(sorted: seq<nat>, j: nat)
    requires NoDup(sorted) && j in sorted
    ensures Boundary(sorted, j) <==> j == sorted[0] || j == sorted[|sorted| - 1]
  {
    IndexOfNoDup(sorted, 0);
    IndexOfNoDup(sorted, |sorted| - 1);
  }

  /** Only the ends of a sorted front can be infinite; a member inside both orders has the sum of its gaps. */
  lemma CrowdingEnds(fit: seq<Fitness>, front: seq<nat>, sF: seq<nat>, sS: seq<nat>, spanFst: real, spanFsup: real)
    requires |front| > 0 && SortedFrom(front, sF, ByKey(FstKey(fit))) && SortedFrom(front, sS, ByKey(FsupKey(fit)))
    requires (|front| >= 3 ==> spanFst != 0.0 && spanFsup != 0.0)
    ensures var n := |front|;
      && sF[0] in sS && sF[n - 1] in sS && sS[0] in sF && sS[n - 1] in sF
      && Crowding(sF, sS, sF[0], fit, spanFst, spanFsup) == Infinity
      && Crowding(sF, sS, sF[n - 1], fit, spanFst, spanFsup) == Infinity
      && Crowding(sF, sS, sS[0], fit, spanFst, spanFsup) == Infinity
      && Crowding(sF, sS, sS[n - 1], fit, spanFst, spanFsup) == Infinity
    ensures forall j | j in front :: Crowding(sF, sS, j, fit, spanFst, spanFsup).Infinity? <==>
      j == sF[0] || j == sF[|front| - 1] || j == sS[0] || j == sS[|front| - 1]
  {
    var n := |front|;
    assert sF[0] in sF && sF[n - 1] in sF && sS[0] in sS && sS[n - 1] in sS;
    BoundaryIff(sF, sF[0]);
    BoundaryIff(sF, sF[n - 1]);
    BoundaryIff(sS, sS[0]);
    BoundaryIff(sS, sS[n - 1]);
    forall j | j in front
      ensures Crowding(sF, sS, j, fit, spanFst, spanFsup).Infinity? <==> j == sF[0] || j == sF[n - 1] || j == sS[0] || j == sS[n - 1]
    {
      BoundaryIff(sF, j);
      BoundaryIff(sS, j);
    }
  }

  /** In a list sorted by a key, a member whose key is below every other member's comes first. */
  lemma StrictMinimumFirst(s: seq<nat>, r: seq<nat>, key: nat -> real, j: nat)
    requires SortedFrom(s, r, ByKey(key)) && j in s
    requires forall x | x in s && x != j :: key(j) < key(x)
    ensures IndexOf(r, j) == 0
  {
    assert r[0] in s;
  }

  /** In a list sorted by a key, a member whose key is above every other member's comes last. */
  lemma StrictMaximumLast(s: seq<nat>, r: seq<nat>, key: nat -> real, j: nat)
    requires SortedFrom(s, r, ByKey(key)) && j in s
    requires forall x | x in s && x != j :: key(x) < key(j)
    ensures IndexOf(r, j) == |r| - 1
  {
    assert r[|r| - 1] in s;
  }

  /**
   * A front member with the strictly best or worst value of either
   * objective is kept by the crowded comparison: its distance is infinite.
   */
  lemma UniqueExtremeIsInfinite(fit: seq<Fitness>, front: seq<nat>, sF: seq<nat>, sS: seq<nat>, spanFst: real, spanFsup: real, j: nat)
    requires SortedFrom(front, sF, ByKey(FstKey(fit))) && SortedFrom(front, sS, ByKey(FsupKey(fit)))
    requires (|front| >= 3 ==> spanFst != 0.0 && spanFsup != 0.0)
    requires j in front
    requires || (forall x | x in front && x != j :: FstKey(fit)(j) < FstKey(fit)(x))
             || (forall x | x in front && x != j :: FstKey(fit)(x) < FstKey(fit)(j))
             || (forall x | x in front && x != j :: FsupKey(fit)(j) < FsupKey(fit)(x))
             || (forall x | x in front && x != j :: FsupKey(fit)(x) < FsupKey(fit)(j))
    ensures Crowding(sF, sS, j, fit, spanFst, spanFsup) == Infinity
  {
    if forall x | x in front && x != j :: FstKey(fit)(j) < FstKey(fit)(x) {
      StrictMinimumFirst(front, sF, FstKey(fit), j);
    } else if forall x | x in front && x != j :: FstKey(fit)(x) < FstKey(fit)(j) {
      StrictMaximumLast(front, sF, FstKey(fit), j);
    } else if forall x | x in front && x != j :: FsupKey(fit)(j) < FsupKey(fit)(x) {
      StrictMinimumFirst(front, sS, FsupKey(fit), j);
    } else {
      StrictMaximumLast(front, sS, FsupKey(fit), j);
    }
  }

  /** `0 <= x <= s` and `s > 0` give `0 <= x / s <= 1`. */
  lemma FractionBounds(x: real, s: real)
    requires 0.0 <= x <= s && s > 0.0
    ensures 0.0 <= x / s <= 1.0
  {
    assert x / s * s == x;
  }

  /**
   * Each normalised gap lies in [0, 1] when the spans are the extreme
   * values of the population, so a finite crowding distance lies in [0, 2].
   */
  lemma GapBounded(s: seq<nat>, r: seq<nat>, key: nat -> real, lo: real, hi: real, k: nat)
    requires SortedFrom(s, r, ByKey(key)) && 0 < k < |r| - 1 && lo < hi
    requires forall x | x in s :: lo <= key(x) <= hi
    ensures 0.0 <= Gap(r, k, key, hi - lo) <= 1.0
  {
    assert r[k - 1] in s && r[k + 1] in s;
    assert !ByKey(key)(r[k + 1], r[k - 1]);
    FractionBounds(key(r[k + 1]) - key(r[k - 1]), hi - lo);
  }

  /** A finite crowding distance lies in [0, 2] when every member's objectives lie within the given bounds. */
  lemma CrowdingBounded(fit: seq<Fitness>, front: seq<nat>, sF: seq<nat>, sS: seq<nat>,
                        maxFst: real, minFst: real, maxFsup: real, minFsup: real, j: nat)
    requires SortedFrom(front, sF, ByKey(FstKey(fit))) && SortedFrom(front, sS, ByKey(FsupKey(fit)))
    requires minFst < maxFst && minFsup < maxFsup
    requires forall x | x in front :: minFst <= FstKey(fit)(x) <= maxFst && minFsup <= FsupKey(fit)(x) <= maxFsup
    requires j in front
    ensures var c := Crowding(sF, sS, j, fit, maxFst - minFst, maxFsup - minFsup);
      c.Finite? ==> 0.0 <= c.value <= 2.0
  {
    if !(Boundary(sF, j) || Boundary(sS, j)) {
      GapBounded(front, sF, FstKey(fit), minFst, maxFst, IndexOf(sF, j));
      GapBounded(front, sS, FsupKey(fit), minFsup, maxFsup, IndexOf(sS, j));
    }
  }

  // ---------------------------------------------------------------------------
  // Truncation of the combined population (the body of the generation loop of `start`)

  /** The `rank` and `crowdingDistance` of a solution, as `__lt__` reads them. */
  function StandingOf(rank: seq<int>, dist: seq<Distance>, a: nat): Standing {
    if a < |rank| && a < |dist| then Standing(rank[a], dist[a]) else Standing(0, Infinity)
  }

  /** `sorted(front)`: Python's sort through `Solution.__lt__`. */
  function ByStanding(rank: seq<int>, dist: seq<Distance>): (nat, nat) -> bool {
    (a: nat, b: nat) => CrowdedLess(StandingOf(rank, dist, a), StandingOf(rank, dist, b))
  }

  lemma ByStandingIsStrictWeakOrder(rank: seq<int>, dist: seq<Distance>)
    ensures StrictWeakOrder(ByStanding(rank, dist))
  {
    forall x: nat, y: nat, z: nat
      ensures ByStanding(rank, dist)(x, y) ==> !ByStanding(rank, dist)(y, x)
      ensures ByStanding(rank, dist)(x, z) ==> ByStanding(rank, dist)(x, y) || ByStanding(rank, dist)(y, z)
    {
      var a, b, c := StandingOf(rank, dist, x), StandingOf(rank, dist, y), StandingOf(rank, dist, z);
      CrowdedLessIsStrictOrder(a, b, c);
      CrowdedLessIsStrictOrder(b, a, c);
      CrowdedLessIsStrictOrder(a, c, b);
    }
  }

  /** The fronts `0..m-1`, one after another. */
  function Concat(fronts: seq<seq<nat>>, m: nat): seq<nat>
    requires m <= |fronts|
  {
    if m == 0 then [] else Concat(fronts, m - 1) + fronts[m - 1]
  }

  /**
   * The number of leading fronts the truncation loop takes whole, counting
   * from front `k`: it goes on while the next front still fits into `size`
   * and stops after the last front.
   */
  function WholeFronts(fronts: seq<seq<nat>>, size: nat, k: nat): nat
    requires k <= |fronts|
    decreases |fronts| - k
  {
    if k < |fronts| && |Concat(fronts, k)| + |fronts[k]| <= size then WholeFronts(fronts, size, k + 1) else k
  }

  /** The fronts are pairwise disjoint and each is free of repetitions. */
  ghost predicate Disjoint(fronts: seq<seq<nat>>, n: nat) {
    && (forall k | 0 <= k < |fronts| :: NoDup(fronts[k]) && forall j | j in fronts[k] :: j < n)
    && (forall k1, k2, j | 0 <= k1 < k2 < |fronts| && j in fronts[k1] :: j !in fronts[k2])
  }

  /**
   * The distances after crowding fronts `0..c-1`: each such front was
   * crowded with the orders `byFst[k]` and `byFsup[k]`, and nothing outside
   * them changed.
   */
  ghost predicate CrowdedFronts(fit: seq<Fitness>, fronts: seq<seq<nat>>, c: nat, dist0: seq<Distance>, dist: seq<Distance>,
                                byFst: seq<seq<nat>>, byFsup: seq<seq<nat>>, spanFst: real, spanFsup: real)
    requires c <= |fronts|
  {
    && |dist| == |dist0| == |fit| && |byFst| == c && |byFsup| == c
    && (forall j | 0 <= j < |fit| && j !in Concat(fronts, c) :: dist[j] == dist0[j])
    && (forall k | 0 <= k < c ::
          && SortedFrom(fronts[k], byFst[k], ByKey(FstKey(fit))) && SortedFrom(fronts[k], byFsup[k], ByKey(FsupKey(fit)))
          && (|fronts[k]| >= 3 ==> spanFst != 0.0 && spanFsup != 0.0)
          && forall j | j in fronts[k] :: j < |dist| && dist[j] == Crowding(byFst[k], byFsup[k], j, fit, spanFst, spanFsup))
  }

  /**
   * Building the next generation from the fronts of the combined
   * population: whole fronts in rank order, each crowded, while they fit
   * into `popSize`; then, if places remain, the next front is crowded,
   * sorted by the crowded comparison and its best members fill the
   * population to exactly `popSize`. When every front fits and places
   * still remain, `fronts[frontCount]` is out of range.
   */
  method Truncate(fit: seq<Fitness>, fronts: seq<seq<nat>>, rank: seq<int>, dist0: seq<Distance>, popSize: nat,
                  maxFst: real, minFst: real, maxFsup: real, minFsup: real)
      returns (r: Result<seq<nat>>, dist: seq<Distance>, ghost m: nat, ghost c: nat, ghost lastSorted: seq<nat>,
               ghost byFst: seq<seq<nat>>, ghost byFsup: seq<seq<nat>>)
    requires |rank| == |fit| == |dist0| && Disjoint(fronts, |fit|)
    ensures |fronts| > 0 ==> m == WholeFronts(fronts, popSize, 0)
    ensures |fronts| == 0 ==> r == Err(IndexError)
    ensures r.Err? && r.error != ZeroDivisionError ==> r.error == IndexError && (|fronts| == 0 || (m == |fronts| && |Concat(fronts, m)| != popSize))
    ensures r.Err? && r.error == ZeroDivisionError ==> maxFst == minFst || maxFsup == minFsup
    ensures |fronts| > 0 && maxFst != minFst && maxFsup != minFsup ==> (r.Err? <==> m == |fronts| && |Concat(fronts, m)| != popSize)
    ensures r.Ok? ==> && m <= |fronts| && |r.value| == popSize
                      && c == (if |Concat(fronts, m)| == popSize then m else m + 1) && c <= |fronts|
                      && CrowdedFronts(fit, fronts, c, dist0, dist, byFst, byFsup, maxFst - minFst, maxFsup - minFsup)
                      && (c == m ==> r.value == Concat(fronts, m))
                      && (c == m + 1 ==> && |Concat(fronts, m)| < popSize < |Concat(fronts, m)| + |fronts[m]|
                                         && SortedFrom(fronts[m], lastSorted, ByStanding(rank, dist))
                                         && r.value == Concat(fronts, m) + lastSorted[..popSize - |Concat(fronts, m)|])
  {
    dist, m, c, lastSorted, byFst, byFsup := dist0, 0, 0, [], [], [];
    if |fronts| == 0 {
      return Err(IndexError), dist, m, c, lastSorted, byFst, byFsup;
    }
    var ok, newPopulation, frontCount;
    ok, newPopulation, frontCount, dist, byFst, byFsup := TakeWholeFronts(fit, fronts, dist0, popSize, maxFst, minFst, maxFsup, minFsup);
    m, c := WholeFronts(fronts, popSize, 0), frontCount;
    if !ok {
      return Err(ZeroDivisionError), dist, m, c, lastSorted, byFst, byFsup;
    }
    r, dist, c, lastSorted, byFst, byFsup := CompleteFromFronts(fit, fronts, rank, dist0, popSize, maxFst, minFst, maxFsup, minFsup,
                                                                newPopulation, frontCount, dist, byFst, byFsup);
  }

  /**
   * What follows the whole-front loop: the population is complete, or
   * every front has been taken and it is still short (the IndexError of
   * `fronts[frontCount]`), or the next front completes it.
   */
  method CompleteFromFronts(fit: seq<Fitness>, fronts: seq<seq<nat>>, rank: seq<int>, ghost dist0: seq<Distance>, popSize: nat,
                            maxFst: real, minFst: real, maxFsup: real, minFsup: real,
                            newPopulation: seq<nat>, frontCount: nat, dist: seq<Distance>, ghost byFst: seq<seq<nat>>, ghost byFsup: seq<seq<nat>>)
      returns (r: Result<seq<nat>>, dist': seq<Distance>, ghost c: nat, ghost lastSorted: seq<nat>,
               ghost byFst': seq<seq<nat>>, ghost byFsup': seq<seq<nat>>)
    requires |rank| == |fit| == |dist0| && Disjoint(fronts, |fit|)
    requires frontCount == WholeFronts(fronts, popSize, 0) && frontCount <= |fronts|
    requires newPopulation == Concat(fronts, frontCount) && |newPopulation| <= popSize
    requires CrowdedFronts(fit, fronts, frontCount, dist0, dist, byFst, byFsup, maxFst - minFst, maxFsup - minFsup)
    ensures r.Err? && r.error != ZeroDivisionError ==> r.error == IndexError && frontCount == |fronts| && |newPopulation| != popSize
    ensures r.Err? && r.error == ZeroDivisionError ==> maxFst == minFst || maxFsup == minFsup
    ensures maxFst != minFst && maxFsup != minFsup ==> (r.Err? <==> frontCount == |fronts| && |newPopulation| != popSize)
    ensures r.Ok? ==> && |r.value| == popSize
                      && c == (if |newPopulation| == popSize then frontCount else frontCount + 1) && c <= |fronts|
                      && CrowdedFronts(fit, fronts, c, dist0, dist', byFst', byFsup', maxFst - minFst, maxFsup - minFsup)
                      && (c == frontCount ==> r.value == newPopulation)
                      && (c == frontCount + 1 ==> && |newPopulation| < popSize < |newPopulation| + |fronts[frontCount]|
                                                  && SortedFrom(fronts[frontCount], lastSorted, ByStanding(rank, dist'))
                                                  && r.value == newPopulation + lastSorted[..popSize - |newPopulation|])
  {
    dist', c, lastSorted, byFst', byFsup' := dist, frontCount, [], byFst, byFsup;
    if |newPopulation| == popSize {
      r := Ok(newPopulation);
    } else if frontCount == |fronts| {
      r := Err(IndexError);
    } else {
      WholeFrontsStops(fronts, popSize, 0);
      r, dist', lastSorted, byFst', byFsup' := FillFromNextFront(fit, fronts, rank, dist0, popSize, maxFst, minFst, maxFsup, minFsup,
                                                                 newPopulation, frontCount, dist, byFst, byFsup);
      c := frontCount + 1;
    }
  }

  /**
   * The completion step of the truncation: the front that did not fit is
   * crowded, sorted by the crowded comparison, and its first `needed`
   * members complete the population.
   */
  method FillFromNextFront(fit: seq<Fitness>, fronts: seq<seq<nat>>, rank: seq<int>, ghost dist0: seq<Distance>, popSize: nat,
                           maxFst: real, minFst: real, maxFsup: real, minFsup: real,
                           newPopulation: seq<nat>, frontCount: nat, dist: seq<Distance>, ghost byFst: seq<seq<nat>>, ghost byFsup: seq<seq<nat>>)
      returns (r: Result<seq<nat>>, dist': seq<Distance>, ghost lastSorted: seq<nat>, ghost byFst': seq<seq<nat>>, ghost byFsup': seq<seq<nat>>)
    requires |rank| == |fit| && Disjoint(fronts, |fit|) && frontCount < |fronts|
    requires newPopulation == Concat(fronts, frontCount) && |newPopulation| < popSize < |newPopulation| + |fronts[frontCount]|
    requires CrowdedFronts(fit, fronts, frontCount, dist0, dist, byFst, byFsup, maxFst - minFst, maxFsup - minFsup)
    ensures r.Err? ==> r.error == ZeroDivisionError && (maxFst == minFst || maxFsup == minFsup)
    ensures maxFst != minFst && maxFsup != minFsup ==> r.Ok?
    ensures r.Ok? ==> && |r.value| == popSize
                      && CrowdedFronts(fit, fronts, frontCount + 1, dist0, dist', byFst', byFsup', maxFst - minFst, maxFsup - minFsup)
                      && SortedFrom(fronts[frontCount], lastSorted, ByStanding(rank, dist'))
                      && r.value == newPopulation + lastSorted[..popSize - |newPopulation|]
  {
    var res, sF, sS := CrowdFront(fit, fronts, frontCount, dist0, dist, byFst, byFsup, maxFst, minFst, maxFsup, minFsup);
    if res.Err? {
      return Err(ZeroDivisionError), dist, [], byFst, byFsup;
    }
    dist', byFst', byFsup' := res.value, byFst + [sF], byFsup + [sS];
    ByStandingIsStrictWeakOrder(rank, dist');
    var sorted := SortBy(fronts[frontCount], ByStanding(rank, dist'));
    lastSorted := sorted;
    var needed := popSize - |newPopulation|;
    r := Ok(newPopulation + sorted[..needed]);
  }

  /** Where the inclusion loop stops, the next front (if any) does not fit, and what was taken does. */
  lemma {:induction false} WholeFrontsStops(fronts: seq<seq<nat>>, size: nat, k: nat)
    requires k <= |fronts| && |Concat(fronts, k)| <= size
    ensures var m := WholeFronts(fronts, size, k);
      && k <= m <= |fronts| && |Concat(fronts, m)| <= size
      && (m < |fronts| ==> |Concat(fronts, m)| + |fronts[m]| > size)
    decreases |fronts| - k
  {
    if k < |fronts| && |Concat(fronts, k)| + |fronts[k]| <= size {
      assert Concat(fronts, k + 1) == Concat(fronts, k) + fronts[k];
      WholeFrontsStops(fronts, size, k + 1);
    }
  }

  /**
   * The inclusion loop of the truncation: crowds and appends whole fronts
   * while the next one fits, stopping after the last; `ok` is false when
   * a crowding divides by zero.
   */
  method TakeWholeFronts(fit: seq<Fitness>, fronts: seq<seq<nat>>, dist0: seq<Distance>, popSize: nat,
                         maxFst: real, minFst: real, maxFsup: real, minFsup: real)
      returns (ok: bool, newPopulation: seq<nat>, frontCount: nat, dist: seq<Distance>, ghost byFst: seq<seq<nat>>, ghost byFsup: seq<seq<nat>>)
    requires |fit| == |dist0| && Disjoint(fronts, |fit|) && |fronts| > 0
    ensures !ok ==> maxFst == minFst || maxFsup == minFsup
    ensures ok ==> && frontCount == WholeFronts(fronts, popSize, 0) && frontCount <= |fronts|
                   && newPopulation == Concat(fronts, frontCount) && |newPopulation| <= popSize
                   && CrowdedFronts(fit, fronts, frontCount, dist0, dist, byFst, byFsup, maxFst - minFst, maxFsup - minFsup)
  {
    ghost var m := WholeFronts(fronts, popSize, 0);
    dist, byFst, byFsup := dist0, [], [];
    newPopulation := [];
    frontCount := 0;
    while |newPopulation| + |fronts[frontCount]| <= popSize
      invariant frontCount < |fronts| && |newPopulation| <= popSize
      invariant newPopulation == Concat(fronts, frontCount)
      invariant WholeFronts(fronts, popSize, frontCount) == m
      invariant CrowdedFronts(fit, fronts, frontCount, dist0, dist, byFst, byFsup, maxFst - minFst, maxFsup - minFsup)
      decreases |fronts| - frontCount
    {
      var res, sF, sS := CrowdFront(fit, fronts, frontCount, dist0, dist, byFst, byFsup, maxFst, minFst, maxFsup, minFsup);
      if res.Err? {
        return false, newPopulation, frontCount, dist, byFst, byFsup;
      }
      dist, byFst, byFsup := res.value, byFst + [sF], byFsup + [sS];
      newPopulation := newPopulation + fronts[frontCount];
      frontCount := frontCount + 1;
      if frontCount == |fronts| {
        break;
      }
    }
    ok := true;
  }

  /** `crowding_distance_assignment(fronts[k], ...)` after fronts `0..k-1` were crowded. */
  method CrowdFront(fit: seq<Fitness>, fronts: seq<seq<nat>>, k: nat, ghost dist0: seq<Distance>, dist: seq<Distance>,
                    ghost byFst: seq<seq<nat>>, ghost byFsup: seq<seq<nat>>, maxFst: real, minFst: real, maxFsup: real, minFsup: real)
      returns (r: Result<seq<Distance>>, ghost sF: seq<nat>, ghost sS: seq<nat>)
    requires k < |fronts| && Disjoint(fronts, |fit|)
    requires CrowdedFronts(fit, fronts, k, dist0, dist, byFst, byFsup, maxFst - minFst, maxFsup - minFsup)
    ensures r.Err? ==> r.error == ZeroDivisionError && (maxFst == minFst || maxFsup == minFsup)
    ensures maxFst != minFst && maxFsup != minFsup ==> r.Ok?
    ensures r.Ok? ==> CrowdedFronts(fit, fronts, k + 1, dist0, r.value, byFst + [sF], byFsup + [sS], maxFst - minFst, maxFsup - minFsup)
  {
    r, sF, sS := CrowdingDistanceAssignment(fit, fronts[k], dist, maxFst, minFst, maxFsup, minFsup);
    if r.Ok? {
      CrowdOneMore(fit, fronts, k, dist0, dist, r.value, byFst, byFsup, sF, sS, maxFst - minFst, maxFsup - minFsup);
    }
  }

  /** Crowding front `k` after fronts `0..k-1` extends `CrowdedFronts` by that front. */
  lemma CrowdOneMore(fit: seq<Fitness>, fronts: seq<seq<nat>>, k: nat, dist0: seq<Distance>, dist: seq<Distance>, next: seq<Distance>,
                     byFst: seq<seq<nat>>, byFsup: seq<seq<nat>>, sF: seq<nat>, sS: seq<nat>, spanFst: real, spanFsup: real)
    requires k < |fronts| && Disjoint(fronts, |fit|)
    requires CrowdedFronts(fit, fronts, k, dist0, dist, byFst, byFsup, spanFst, spanFsup)
    requires SortedFrom(fronts[k], sF, ByKey(FstKey(fit))) && SortedFrom(fronts[k], sS, ByKey(FsupKey(fit)))
    requires |fronts[k]| >= 3 ==> spanFst != 0.0 && spanFsup != 0.0
    requires |next| == |fit|
    requires forall j | 0 <= j < |fit| && j !in fronts[k] :: next[j] == dist[j]
    requires forall j | j in fronts[k] :: next[j] == Crowding(sF, sS, j, fit, spanFst, spanFsup)
    ensures CrowdedFronts(fit, fronts, k + 1, dist0, next, byFst + [sF], byFsup + [sS], spanFst, spanFsup)
  {
    forall j | 0 <= j < |fit| && j !in Concat(fronts, k + 1)
      ensures next[j] == dist0[j]
    {
      assert Concat(fronts, k + 1) == Concat(fronts, k) + fronts[k];
    }
    forall i, j | 0 <= i < k && j in fronts[i]
      ensures next[j] == dist[j]
    {
    }
  }

  /** `Concat` only appends: a longer prefix of the fronts is at least as long. */
  lemma {:induction false} ConcatGrows(fronts: seq<seq<nat>>, k: nat, l: nat)
    requires k <= l <= |fronts|
    ensures |Concat(fronts, k)| <= |Concat(fronts, l)|
    decreases l - k
  {
    if k < l {
      ConcatGrows(fronts, k, l - 1);
    }
  }

  /** The inclusion loop takes the longest prefix of the fronts that fits into `size`. */
  lemma {:induction false} WholeFrontsMaximal(fronts: seq<seq<nat>>, size: nat)
    ensures var m := WholeFronts(fronts, size, 0);
      && m <= |fronts| && |Concat(fronts, m)| <= size
      && forall k | m < k <= |fronts| :: |Concat(fronts, k)| > size
  {
    var m := WholeFronts(fronts, size, 0);
    assert Concat(fronts, 0) == [];
    WholeFrontsStops(fronts, size, 0);
    forall k | m < k <= |fronts|
      ensures |Concat(fronts, k)| > size
    {
      PastStop(fronts, size, m, k);
    }
  }

  /** Once the next front overflows, every longer prefix does too. */
  lemma {:induction false} PastStop(fronts: seq<seq<nat>>, size: nat, m: nat, k: nat)
    requires m < k <= |fronts| && |Concat(fronts, m)| + |fronts[m]| > size
    ensures |Concat(fronts, k)| > size
  {
    assert |Concat(fronts, m + 1)| == |Concat(fronts, m)| + |fronts[m]|;
    ConcatGrows(fronts, m + 1, k);
  }

  /**
   * With at least `size` solutions in the fronts, the truncation never
   * runs out of fronts: either the fronts taken whole fill the population
   * exactly, or a front is left over to complete it.
   */
  lemma EnoughSolutionsNoIndexError(fronts: seq<seq<nat>>, size: nat)
    requires |Concat(fronts, |fronts|)| >= size
    ensures var m := WholeFronts(fronts, size, 0);
      m == |fronts| ==> |Concat(fronts, m)| == size
  {
    WholeFrontsStops(fronts, size, 0);
  }

  /** A solution is in the first `m` fronts exactly when one of them lists it. */
  lemma {:induction false} ConcatMembers(fronts: seq<seq<nat>>, m: nat, x: nat)
    requires m <= |fronts|
    ensures x in Concat(fronts, m) <==> exists k | 0 <= k < m :: x in fronts[k]
  {
    if m > 0 {
      ConcatMembers(fronts, m - 1, x);
    }
  }

  /** Disjoint duplicate-free fronts concatenate to a duplicate-free list. */
  lemma {:induction false} ConcatNoDup(fronts: seq<seq<nat>>, n: nat, m: nat)
    requires m <= |fronts| && Disjoint(fronts, n)
    ensures NoDup(Concat(fronts, m))
  {
    if m > 0 {
      ConcatNoDup(fronts, n, m - 1);
      var a, b := Concat(fronts, m - 1), fronts[m - 1];
      forall x | x in a
        ensures x !in b
      {
        ConcatMembers(fronts, m - 1, x);
      }
      NoDupAppend(a, b);
    }
  }

  /** Two duplicate-free lists with no common member concatenate to a duplicate-free list. */
  lemma NoDupAppend(a: seq<nat>, b: seq<nat>)
    requires NoDup(a) && NoDup(b) && forall x | x in a :: x !in b
    ensures NoDup(a + b)
  {
    forall i, j | 0 <= i < j < |a + b|
      ensures (a + b)[i] != (a + b)[j]
    {
      if j >= |a| && i < |a| {
        assert (a + b)[i] in a;
      }
    }
  }

  /**
   * The truncated population repeats no solution: the fronts taken whole
   * and the prefix of the next front are disjoint.
   */
  lemma TruncatedNoDup(fronts: seq<seq<nat>>, n: nat, m: nat, lastSorted: seq<nat>, less: (nat, nat) -> bool, needed: nat)
    requires m < |fronts| && Disjoint(fronts, n) && SortedFrom(fronts[m], lastSorted, less) && needed <= |lastSorted|
    ensures NoDup(Concat(fronts, m) + lastSorted[..needed])
  {
    ConcatNoDup(fronts, n, m);
    forall x | x in Concat(fronts, m)
      ensures x !in lastSorted[..needed]
    {
      ConcatMembers(fronts, m, x);
    }
    forall i, j | 0 <= i < j < needed
      ensures lastSorted[..needed][i] != lastSorted[..needed][j]
    {
    }
    NoDupAppend(Concat(fronts, m), lastSorted[..needed]);
  }

  /**
   * Within the front that is split, every member kept has a crowding
   * distance at least that of every member dropped (the front shares one
   * rank, so the crowded comparison decides by distance alone).
   */
  lemma KeptNotFartherThanDropped(front: seq<nat>, rank: seq<int>, dist: seq<Distance>, frontRank: int,
                                   lastSorted: seq<nat>, needed: nat)
    requires SortedFrom(front, lastSorted, ByStanding(rank, dist)) && needed <= |lastSorted|
    requires forall j | j in front :: j < |rank| && j < |dist| && rank[j] == frontRank
    ensures forall a, b | 0 <= a < needed <= b < |lastSorted| ::
      lastSorted[a] < |dist| && lastSorted[b] < |dist| && !Farther(dist[lastSorted[b]], dist[lastSorted[a]])
  {
    forall a, b | 0 <= a < needed <= b < |lastSorted|
      ensures lastSorted[a] < |dist| && lastSorted[b] < |dist| && !Farther(dist[lastSorted[b]], dist[lastSorted[a]])
    {
      assert lastSorted[a] in front && lastSorted[b] in front;
      assert !ByStanding(rank, dist)(lastSorted[b], lastSorted[a]);
    }
  }

  // ---------------------------------------------------------------------------
  // filterPopulation

  /**
   * The positions among the first `n` whose solution (compared by `key`,
   * as `Solution.__eq__` compares graphs) has not occurred before.
   */
  function Firsts<K(==)>(keys: seq<K>, n: nat): (r: seq<nat>)
    requires n <= |keys|
    ensures forall p | p in r :: p < n
  {
    if n == 0 then []
    else Firsts(keys, n - 1) + (if keys[n - 1] in keys[..n - 1] then [] else [n - 1])
  }

  /** The positions among the first `n` whose solution has occurred before. */
  function Repeats<K(==)>(keys: seq<K>, n: nat): (r: seq<nat>)
    requires n <= |keys|
    ensures forall p | p in r :: p < n
  {
    if n == 0 then []
    else Repeats(keys, n - 1) + (if keys[n - 1] in keys[..n - 1] then [n - 1] else [])
  }

  /** `key=lambda x: x.rank`. */
  function RankKey(rank: seq<int>): nat -> real {
    (a: nat) => if a < |rank| then rank[a] as real else 0.0
  }

  /** Python's `l[:k]`, where a negative `k` counts from the end. */
  function PyPrefix(l: seq<nat>, k: int): (r: seq<nat>)
    ensures r <= l
    ensures 0 <= k ==> |r| == if k < |l| then k else |l|
    ensures k < 0 ==> |r| == if -k < |l| then |l| + k else 0
  {
    if 0 <= k then (if k < |l| then l[..k] else l)
    else if -k < |l| then l[..|l| + k] else []
  }

  /**
   * `filterPopulation`: the first occurrence of every distinct solution in
   * population order, then the repeated ones, sorted stably by rank, as far
   * as `size - len(s)` allows.
   */
  method FilterPopulation<K(==)>(keys: seq<K>, rank: seq<int>, size: int) returns (s: seq<nat>, ghost repeating: seq<nat>)
    requires |rank| == |keys|
    ensures SortedFrom(Repeats(keys, |keys|), repeating, ByKey(RankKey(rank)))
    ensures s == Firsts(keys, |keys|) + PyPrefix(repeating, size - |Firsts(keys, |keys|)|)
  {
    s := [];
    var seen: set<K> := {};
    var rep: seq<nat> := [];
    for i := 0 to |keys|
      invariant s == Firsts(keys, i) && rep == Repeats(keys, i)
      invariant forall k :: k in seen <==> k in keys[..i]
    {
      assert keys[..i + 1] == keys[..i] + [keys[i]];
      if keys[i] !in seen {
        s := s + [i];
        seen := seen + {keys[i]};
      } else {
        rep := rep + [i];
      }
    }
    assert keys[..|keys|] == keys;
    FirstsIncreasing(keys, |keys|);
    IncreasingNoDup(rep);
    ByKeyIsStrictWeakOrder(RankKey(rank));
    rep := SortBy(rep, ByKey(RankKey(rank)));
    repeating := rep;
    var required := size - |s|;
    s := s + PyPrefix(rep, required);
  }

  /** Position of the first occurrence of `x` in `s`. */
  function Position<K(==)>(s: seq<K>, x: K): (k: nat)
    requires x in s
    ensures k < |s| && s[k] == x && x !in s[..k]
  {
    if s[0] == x then 0 else 1 + Position(s[1..], x)
  }

  /** The first occurrences among the first `n` positions are those whose key does not occur before them. */
  lemma {:induction false} FirstsMembers<K>(keys: seq<K>, n: nat)
    requires n <= |keys|
    ensures forall p: nat :: p in Firsts(keys, n) <==> p < n && keys[p] !in keys[..p]
  {
    if n > 0 {
      FirstsMembers(keys, n - 1);
    }
  }

  /** The repeats among the first `n` positions are those whose key occurs before them. */
  lemma {:induction false} RepeatsMembers<K>(keys: seq<K>, n: nat)
    requires n <= |keys|
    ensures forall p: nat :: p in Repeats(keys, n) <==> p < n && keys[p] in keys[..p]
  {
    if n > 0 {
      RepeatsMembers(keys, n - 1);
    }
  }

  /** Every position is either a first occurrence or a repeat. */
  lemma {:induction false} FirstsRepeatsCount<K>(keys: seq<K>, n: nat)
    requires n <= |keys|
    ensures |Firsts(keys, n)| + |Repeats(keys, n)| == n
  {
    if n > 0 {
      FirstsRepeatsCount(keys, n - 1);
    }
  }

  /** Both lists of positions are in population order. */
  lemma {:induction false} FirstsIncreasing<K>(keys: seq<K>, n: nat)
    requires n <= |keys|
    ensures Increasing(Firsts(keys, n)) && Increasing(Repeats(keys, n))
  {
    if n > 0 {
      FirstsIncreasing(keys, n - 1);
      var f, r := Firsts(keys, n - 1), Repeats(keys, n - 1);
      assert forall a | 0 <= a < |f| :: f[a] in f;
      assert forall a | 0 <= a < |r| :: r[a] in r;
    }
  }

  /** An increasing list repeats nothing. */
  lemma IncreasingAt(l: seq<nat>, a: nat, b: nat)
    requires Increasing(l) && a < b < |l|
    ensures l[a] < l[b]
  {
  }

  lemma IncreasingNoDup(l: seq<nat>)
    requires Increasing(l)
    ensures NoDup(l)
  {
  }

  /** The positions of `f` lie within `keys` and hold pairwise different keys. */
  ghost predicate DistinctKeys<K>(keys: seq<K>, f: seq<nat>) {
    && (forall i | 0 <= i < |f| :: f[i] < |keys|)
    && forall a, b | 0 <= a < b < |f| :: keys[f[a]] != keys[f[b]]
  }

  /** `filterPopulation`'s first part keeps at most one solution per key: the keys are pairwise distinct. */
  lemma FirstsDistinct<K>(keys: seq<K>, n: nat)
    requires n <= |keys|
    ensures DistinctKeys(keys, Firsts(keys, n))
  {
    var f := Firsts(keys, n);
    forall a, b | 0 <= a < b < |f| ensures f[a] < |keys| && f[b] < |keys| && keys[f[a]] != keys[f[b]] {
      FirstsIncreasing(keys, n);
      IncreasingAt(f, a, b);
      assert f[a] in f && f[b] in f;
      FirstIsNew(keys, n, f[b]);
      EarlierKeyDiffers(keys, f[a], f[b]);
    }
  }

  /** A first occurrence's key does not occur before it. */
  lemma {:induction false} FirstIsNew<K>(keys: seq<K>, n: nat, p: nat)
    requires n <= |keys| && p in Firsts(keys, n)
    ensures p < n && keys[p] !in keys[..p]
  {
    if p !in Firsts(keys, n - 1) {
      assert p == n - 1;
    } else {
      FirstIsNew(keys, n - 1, p);
    }
  }

  /** A position whose key does not occur before it has a key different from every earlier position's. */
  lemma EarlierKeyDiffers<K>(keys: seq<K>, x: nat, y: nat)
    requires x < y < |keys| && keys[y] !in keys[..y]
    ensures keys[x] != keys[y]
  {
    assert keys[..y][x] == keys[x];
  }

  /** `filterPopulation`'s first part keeps at least one solution per key: the first occurrence of each. */
  lemma FirstsComplete<K>(keys: seq<K>, n: nat)
    requires n <= |keys|
    ensures forall p | 0 <= p < n :: Position(keys, keys[p]) in Firsts(keys, n)
  {
    FirstsMembers(keys, n);
    forall p | 0 <= p < n
      ensures Position(keys, keys[p]) in Firsts(keys, n)
    {
      var q := Position(keys, keys[p]);
      assert q <= p;
    }
  }

  /**
   * When the population is exactly `size` long, as it is in the
   * generation loop, filtering only reorders it: every position appears
   * exactly once.
   */
  lemma FilterIsPermutation<K>(keys: seq<K>, rank: seq<int>, repeating: seq<nat>, s: seq<nat>)
    requires |rank| == |keys|
    requires SortedFrom(Repeats(keys, |keys|), repeating, ByKey(RankKey(rank)))
    requires s == Firsts(keys, |keys|) + PyPrefix(repeating, |keys| - |Firsts(keys, |keys|)|)
    ensures |s| == |keys| && NoDup(s)
    ensures forall p: nat :: p in s <==> p < |keys|
  {
    var n := |keys|;
    FirstsMembers(keys, n);
    RepeatsMembers(keys, n);
    FirstsRepeatsCount(keys, n);
    FirstsIncreasing(keys, n);
    var f := Firsts(keys, n);
    IncreasingNoDup(f);
    assert PyPrefix(repeating, n - |f|) == repeating;
    NoDupAppend(f, repeating);
  }

  /**
   * The filtered population is `size` long whenever there are no more than `size` distinct solutions and
   * at least `size` solutions in all.
   */
  lemma FilterSize<K>(keys: seq<K>, size: int, repeating: seq<nat>, s: seq<nat>)
    requires |repeating| == |Repeats(keys, |keys|)|
    requires s == Firsts(keys, |keys|) + PyPrefix(repeating, size - |Firsts(keys, |keys|)|)
    requires |Firsts(keys, |keys|)| <= size
    ensures |s| == if size < |keys| then size else |keys|
  {
    FirstsRepeatsCount(keys, |keys|);
    var f := Firsts(keys, |keys|);
    assert |s| == |f| + |PyPrefix(repeating, size - |f|)|;
  }

  // ---------------------------------------------------------------------------
  // The stopping rule of `start`

  /** Generations without improvement that `start` tolerates (`while no_impr <= 20`). */
  const Patience: nat := 20

  /**
   * The stagnation state of `start`: `best_hv` (`None` while it is still
   * `float("inf")`), the generation whose first front became `best_front`,
   * and `no_impr`.
   */
  datatype Progress = Progress(bestHv: Option<real>, bestGeneration: Option<nat>, noImprovement: nat)

  /**
   * One generation with hypervolume `hv`: a value no lower than the best
   * so far counts as no improvement; a lower one becomes the best and
   * resets the counter.
   */
  function Track(p: Progress, generation: nat, hv: real): (q: Progress)
    ensures q.noImprovement == 0 <==> p.bestHv.None? || hv < p.bestHv.value
    ensures q.noImprovement != 0 ==> q.noImprovement == p.noImprovement + 1 && q.bestHv == p.bestHv && q.bestGeneration == p.bestGeneration
    ensures q.bestHv.Some? && q.bestHv.value <= hv && (p.bestHv.Some? ==> q.bestHv.value <= p.bestHv.value)
  {
    if p.bestHv.Some? && hv >= p.bestHv.value then p.(noImprovement := p.noImprovement + 1)
    else Progress(Some(hv), Some(generation), 0)
  }

  /** The state after the generations with hypervolumes `hvs[..n]`. */
  function TrackAll(hvs: seq<real>, n: nat): Progress
    requires n <= |hvs|
  {
    if n == 0 then Progress(None, None, 0) else Track(TrackAll(hvs, n - 1), n - 1, hvs[n - 1])
  }

  /** The first generation among the first `n` with the lowest hypervolume. */
  function FirstMin(hvs: seq<real>, n: nat): (k: nat)
    requires 0 < n <= |hvs|
    ensures k < n
    ensures forall i | 0 <= i < n :: hvs[k] <= hvs[i]
    ensures forall i | 0 <= i < k :: hvs[k] < hvs[i]
  {
    if n == 1 then 0
    else
      var k := FirstMin(hvs, n - 1);
      if hvs[n - 1] < hvs[k] then n - 1 else k
  }

  /**
   * After `n > 0` generations, `best_hv` is the lowest hypervolume seen,
   * `best_front` is from the first generation that reached it, and
   * `no_impr` counts the generations since then.
   */
  lemma {:induction false} TrackAllIsFirstMin(hvs: seq<real>, n: nat)
    requires 0 < n <= |hvs|
    ensures TrackAll(hvs, n) == Progress(Some(hvs[FirstMin(hvs, n)]), Some(FirstMin(hvs, n)), n - 1 - FirstMin(hvs, n))
  {
    if n > 1 {
      TrackAllIsFirstMin(hvs, n - 1);
    }
  }

  /**
   * The generation loop of `start`, with the hypervolume of each
   * generation's first front given in `hvs`: it runs while `no_impr` is at
   * most `Patience`, or until the given generations run out.
   */
  method Generations(hvs: seq<real>) returns (generations: nat, p: Progress)
    ensures generations <= |hvs| && p == TrackAll(hvs, generations)
    ensures forall k | 0 <= k < generations :: TrackAll(hvs, k).noImprovement <= Patience
    ensures generations < |hvs| ==> p.noImprovement == Patience + 1
  {
    generations, p := 0, Progress(None, None, 0);
    while p.noImprovement <= Patience && generations < |hvs|
      invariant generations <= |hvs| && p == TrackAll(hvs, generations)
      invariant p.noImprovement <= Patience + 1
      decreases |hvs| - generations
      invariant forall k | 0 <= k < generations :: TrackAll(hvs, k).noImprovement <= Patience
    {
      p := Track(p, generations, hvs[generations]);
      generations := generations + 1;
    }
  }

  /**
   * When the loop stops by stagnation, none of the last `Patience + 1`
   * generations improved on the best hypervolume, which was reached just
   * before them.
   */
  lemma StagnationMeansNoImprovement(hvs: seq<real>, generations: nat)
    requires 0 < generations <= |hvs| && TrackAll(hvs, generations).noImprovement == Patience + 1
    ensures var p := TrackAll(hvs, generations);
      && p.bestHv.Some? && p.bestGeneration == Some(generations - Patience - 2)
      && forall k | generations - Patience - 1 <= k < generations :: hvs[k] >= p.bestHv.value
  {
    TrackAllIsFirstMin(hvs, generations);
  }

  // ---------------------------------------------------------------------------
  // makeNewPopulation

  /** The mutants of `mutation`: one per solution, the `i`-th from the `i`-th solution. */
  function Mutants<S>(population: seq<S>, mutate: (nat, S) -> S): (r: seq<S>)
    ensures |r| == |population| && forall i | 0 <= i < |r| :: r[i] == mutate(i, population[i])
  {
    seq(|population|, i requires 0 <= i < |population| => mutate(i, population[i]))
  }

  /** The children of `crossover`: one per selected pair of parents. */
  function Children<S>(pairs: seq<(S, S)>, cross: (nat, S, S) -> S): (r: seq<S>)
    ensures |r| == |pairs| && forall i | 0 <= i < |r| :: r[i] == cross(i, pairs[i].0, pairs[i].1)
  {
    seq(|pairs|, i requires 0 <= i < |pairs| => cross(i, pairs[i].0, pairs[i].1))
  }

  /** `mutation`: the loop over the population. */
  method Mutation<S>(population: seq<S>, mutate: (nat, S) -> S) returns (r: seq<S>)
    ensures r == Mutants(population, mutate)
  {
    r := [];
    for i := 0 to |population|
      invariant |r| == i && forall j | 0 <= j < i :: r[j] == mutate(j, population[j])
    {
      r := r + [mutate(i, population[i])];
    }
  }

  /** `crossover`: the loop over the selected pairs. */
  method Crossover<S>(pairs: seq<(S, S)>, cross: (nat, S, S) -> S) returns (r: seq<S>)
    ensures r == Children(pairs, cross)
  {
    r := [];
    for i := 0 to |pairs|
      invariant |r| == i && forall j | 0 <= j < i :: r[j] == cross(j, pairs[j].0, pairs[j].1)
    {
      r := r + [cross(i, pairs[i].0, pairs[i].1)];
    }
  }

  /**
   * `makeNewPopulation`: the mutants (when mutation is on) followed by the
   * crossover children of the selected pairs (when crossover is on). The
   * selection runs in either case, so its error is the result's error.
   * The operators are parameters; each call's random draws are selected
   * by the call's position.
   */
  method MakeNewPopulation<S>(population: seq<S>, mutationOn: bool, crossoverOn: bool,
                              mutate: (nat, S) -> S, selected: Result<seq<(S, S)>>, cross: (nat, S, S) -> S)
      returns (r: Result<seq<S>>)
    ensures selected.Err? ==> r == Err(selected.error)
    ensures selected.Ok? ==> r == Ok((if mutationOn then Mutants(population, mutate) else [])
                                     + (if crossoverOn then Children(selected.value, cross) else []))
  {
    var mutated: seq<S> := [];
    if mutationOn {
      mutated := Mutation(population, mutate);
    }
    if selected.Err? {
      return Err(selected.error);
    }
    var children: seq<S> := [];
    if crossoverOn {
      children := Crossover(selected.value, cross);
    }
    r := Ok(mutated + children);
  }

  /**
   * With a selection that pairs `size / 2` parents, the offspring number
   * `|population|` mutants plus `size / 2` children, each part present
   * only when its operator is on.
   */
  lemma OffspringSize<S>(population: seq<S>, size: nat, mutationOn: bool, crossoverOn: bool,
                         mutate: (nat, S) -> S, pairs: seq<(S, S)>, cross: (nat, S, S) -> S)
    requires |pairs| == size / 2
    ensures |(if mutationOn then Mutants(population, mutate) else []) + (if crossoverOn then Children(pairs, cross) else [])|
            == (if mutationOn then |population| else 0) + (if crossoverOn then size / 2 else 0)
  {
  }
}
