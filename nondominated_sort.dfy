/**
 * `fast_non_dominated_sort` of pystsup/evolutionary/geneticAlgorithm.py: the
 * population is a list of fitness pairs, a solution is its index in that
 * list, and the per-solution fields the source sets (`dominationCount`,
 * `dominatedSolutions`, `rank`) are lists indexed the same way.
 *
 * The fronts are specified by layers: layer 0 holds the solutions nobody
 * dominates, and layer k+1 the solutions outside layers 0..k all of whose
 * dominators lie in layers 0..k.
 */
module NondominatedSort {
  import opened GraphModel
  import opened Solutions

  /** The solutions that dominate solution `j`. */
  ghost function Dominators(pop: seq<Fitness>, j: nat): set<nat>
    requires j < |pop|
  {
    set d: nat | d < |pop| && Dominates(pop[d], pop[j])
  }

  /** The dominators of `i` among the first `m` solutions. */
  ghost function DominatorsBelow(pop: seq<Fitness>, i: nat, m: nat): set<nat>
    requires i < |pop| && m <= |pop|
  {
    set d: nat | d < m && Dominates(pop[d], pop[i])
  }

  /** The solutions among the first `m` that `i` dominates, in population order. */
  function DominatedList(pop: seq<Fitness>, i: nat, m: nat): (r: seq<nat>)
    requires i < |pop| && m <= |pop|
    ensures forall x: nat :: x in r <==> x < m && Dominates(pop[i], pop[x])
    ensures NoDup(r)
  {
    if m == 0 then []
    else
      var r := DominatedList(pop, i, m - 1);
      if Dominates(pop[i], pop[m - 1]) then
        assert forall x | x in r :: x < m - 1;
        r + [m - 1]
      else r
  }

  /** The first `m` solutions that no solution dominates, in population order. */
  ghost function NonDominatedBelow(pop: seq<Fitness>, m: nat): (r: seq<nat>)
    requires m <= |pop|
    ensures forall x: nat :: x in r <==> x < m && Dominators(pop, x) == {}
    ensures NoDup(r) && Increasing(r)
  {
    if m == 0 then []
    else
      var r := NonDominatedBelow(pop, m - 1);
      if Dominators(pop, m - 1) == {} then
        assert forall x | x in r :: x < m - 1;
        assert forall a | 0 <= a < |r| :: r[a] in r;
        r + [m - 1]
      else r
  }

  /** The solutions outside `ranked` all of whose dominators are in `ranked`. */
  ghost function Next(pop: seq<Fitness>, ranked: set<nat>): set<nat> {
    set j: nat | j < |pop| && j !in ranked && Dominators(pop, j) <= ranked
  }

  /** The solutions in layers 0..k-1. */
  ghost function Upto(pop: seq<Fitness>, k: nat): set<nat>
  {
    if k == 0 then {} else Upto(pop, k - 1) + Next(pop, Upto(pop, k - 1))
  }

  /** Layer k: outside layers 0..k-1, with every dominator inside them. */
  ghost function Layer(pop: seq<Fitness>, k: nat): set<nat> {
    Next(pop, Upto(pop, k))
  }

  /** Every index of the population. */
  ghost function All(pop: seq<Fitness>): set<nat> {
    Below(|pop|)
  }

  /** The numbers below `n`. */
  ghost function Below(n: nat): (r: set<nat>)
    ensures forall x: nat :: x in r <==> x < n
    ensures |r| == n
  {
    if n == 0 then {} else Below(n - 1) + {n - 1}
  }

  /** The elements of a list. */
  ghost function Members(l: seq<nat>): set<nat> {
    set x | x in l
  }

  /** A list holding the members of a set, each once. */
  ghost predicate Lists(l: seq<nat>, s: set<nat>) {
    NoDup(l) && forall x: nat :: x in l <==> x in s
  }

  /** Closed under dominance: population indices only, holding every dominator of each member. */
  ghost predicate Closed(pop: seq<Fitness>, s: set<nat>) {
    forall x: nat | x in s :: x < |pop| && Dominators(pop, x) <= s
  }

  /** What a member of `layer` dominates lies outside `ranked` and `layer`. */
  ghost predicate Shadowed(pop: seq<Fitness>, ranked: set<nat>, layer: set<nat>) {
    forall s1: nat, s2: nat | s1 in layer && s1 < |pop| && s2 < |pop| && Dominates(pop[s1], pop[s2]) :: s2 !in ranked + layer
  }

  // ---------------------------------------------------------------------------
  // The loop states

  /** After the first loop has handled solutions 0..i-1. */
  ghost predicate FirstInv(pop: seq<Fitness>, i: nat, count: seq<int>, dominated: seq<seq<nat>>, rank: seq<int>, front0: seq<nat>)
    requires i <= |pop|
  {
    && |count| == |pop| && |dominated| == |pop| && |rank| == |pop|
    && (forall a: nat | a < i :: count[a] == |Dominators(pop, a)| && dominated[a] == DominatedList(pop, a, |pop|))
    && (forall a: nat | a < |pop| :: rank[a] == (if a < i && Dominators(pop, a) == {} then 0 else -1))
    && front0 == NonDominatedBelow(pop, i)
  }

  /**
   * Before front i is processed: `ranked` is layers 0..i-1, fronts 0..i
   * list layers 0..i.
   */
  ghost predicate LayersInv(pop: seq<Fitness>, i: nat, ranked: set<nat>, fronts: seq<seq<nat>>) {
    && |fronts| == i + 1
    && ranked == Upto(pop, i)
    && FrontsList(pop, fronts)
  }

  /**
   * The bookkeeping before the front listing `layer` is processed: the
   * counts discount `ranked`, and the solutions of `ranked` and `layer`
   * carry a rank naming a front that lists them.
   */
  ghost predicate CountsInv(pop: seq<Fitness>, ranked: set<nat>, layer: set<nat>, fronts: seq<seq<nat>>,
                            count: seq<int>, dominated: seq<seq<nat>>, rank: seq<int>)
  {
    && |count| == |pop| && |dominated| == |pop| && |rank| == |pop|
    && (forall a: nat | a < |pop| :: dominated[a] == DominatedList(pop, a, |pop|))
    && (forall j: nat | j < |pop| :: count[j] == |Dominators(pop, j) - ranked|)
    && RankInv(pop, ranked + layer, fronts, rank)
  }

  /** Front k lists layer k. */
  ghost predicate FrontsList(pop: seq<Fitness>, fronts: seq<seq<nat>>) {
    forall k | 0 <= k < |fronts| :: Lists(fronts[k], Layer(pop, k))
  }

  /** The members of `ranked` carry the index of a front listing them; the others none (-1). */
  ghost predicate RankInv(pop: seq<Fitness>, ranked: set<nat>, fronts: seq<seq<nat>>, rank: seq<int>) {
    && |rank| == |pop|
    && (forall j: nat | j < |pop| && j in ranked :: 0 <= rank[j] < |fronts| && j in fronts[rank[j]])
    && (forall j: nat | j < |pop| && j !in ranked :: rank[j] == -1)
  }

  /**
   * The new ranks after front i: the solutions of `ranked` keep theirs,
   * those collected in `next` get i+1, the rest none.
   */
  ghost predicate NewRanks(pop: seq<Fitness>, i: nat, ranked: set<nat>, rank0: seq<int>, rank: seq<int>, next: seq<nat>)
    requires |rank0| == |pop|
  {
    |rank| == |pop| && forall j: nat | j < |pop| :: rank[j] == (if j in ranked then rank0[j] else if j in next then i + 1 else -1)
  }

  /**
   * While front i is processed: `done` holds the solutions already
   * discounted; `next` collects, without repeats, the solutions outside
   * `ranked` all of whose dominators are done.
   */
  ghost predicate NextInv(pop: seq<Fitness>, i: nat, ranked: set<nat>, done: set<nat>, count: seq<int>, rank0: seq<int>, rank: seq<int>, next: seq<nat>)
    requires |rank0| == |pop|
  {
    && |count| == |pop|
    && (forall j: nat | j < |pop| :: count[j] == |Dominators(pop, j) - done|)
    && NoDup(next)
    && (forall j: nat :: j in next <==> j < |pop| && j !in ranked && Dominators(pop, j) <= done)
    && NewRanks(pop, i, ranked, rank0, rank, next)
  }

  /**
   * While the solutions dominated by one front member are visited: those
   * still `pending` keep one extra count for it, and are not yet collected.
   */
  ghost predicate PendingInv(pop: seq<Fitness>, i: nat, ranked: set<nat>, done: set<nat>, pending: set<nat>,
                             count: seq<int>, rank0: seq<int>, rank: seq<int>, next: seq<nat>)
    requires |rank0| == |pop|
  {
    && |count| == |pop|
    && (forall j: nat | j < |pop| :: count[j] == |Dominators(pop, j) - done| + (if j in pending then 1 else 0))
    && NoDup(next)
    && (forall j: nat :: j in next <==> j < |pop| && j !in ranked && Dominators(pop, j) <= done && j !in pending)
    && NewRanks(pop, i, ranked, rank0, rank, next)
  }

  // ---------------------------------------------------------------------------
  // The method

  /**
   * `fast_non_dominated_sort`: returns the fronts (lists of population
   * indices, the last one empty) and the rank given to each solution.
   */
  method FastNonDominatedSort(pop: seq<Fitness>) returns (fronts: seq<seq<nat>>, rank: seq<int>)
    ensures |fronts| >= 1 && fronts[|fronts| - 1] == []
    ensures forall k | 0 <= k < |fronts| - 1 :: fronts[k] != []
    ensures FrontsList(pop, fronts)
    ensures Increasing(fronts[0])
    ensures Upto(pop, |fronts|) == All(pop)
    ensures |rank| == |pop| && forall j | 0 <= j < |pop| :: 0 <= rank[j] < |fronts| - 1 && j in fronts[rank[j]]
  {
    var count, dominated, front0;
    count, dominated, rank, front0 := FirstPass(pop);
    fronts := [front0];
    var i := 0;
    ghost var ranked: set<nat> := {};
    while fronts[i] != []
      invariant LayersInv(pop, i, ranked, fronts)
      invariant CountsInv(pop, ranked, Layer(pop, i), fronts, count, dominated, rank)
      invariant forall k | 0 <= k < i :: fronts[k] != []
      invariant Increasing(fronts[0]) && |ranked| <= |pop|
      decreases |pop| - |ranked|
    {
      ghost var layer := Layer(pop, i);
      FrontContext(pop, i, ranked, fronts);
      var next;
      var count', rank' := count, rank;
      count, rank, next := ProcessFront(pop, i, fronts[i], ranked, layer, count, dominated, rank);
      GrowsWithLayer(pop, ranked, layer, fronts[i]);
      LayersStep(pop, i, ranked, fronts, next);
      NonEmptySnoc(fronts, i, next);
      CountsStep(pop, i, ranked, layer, Layer(pop, i + 1), fronts, count', count, dominated, rank', rank, next);
      fronts := fronts + [next];
      ranked := ranked + layer;
      i := i + 1;
    }
    AllRanked(pop, i, ranked, fronts, rank);
  }

  /**
   * The first pass: for every solution, the solutions it dominates and the
   * number dominating it; the undominated ones form front 0 with rank 0.
   */
  method FirstPass(pop: seq<Fitness>) returns (count: seq<int>, dominated: seq<seq<nat>>, rank: seq<int>, front0: seq<nat>)
    ensures LayersInv(pop, 0, {}, [front0]) && CountsInv(pop, {}, Layer(pop, 0), [front0], count, dominated, rank)
    ensures Increasing(front0)
  {
    var n := |pop|;
    count, dominated, rank, front0 := seq(n, _ => 0), seq(n, _ => []), seq(n, _ => -1), [];
    for i := 0 to n
      invariant FirstInv(pop, i, count, dominated, rank, front0)
    {
      count, dominated, rank, front0 := FirstEntry(pop, i, count, dominated, rank, front0);
    }
    FirstDone(pop, count, dominated, rank, front0);
  }

  /** One solution of the first pass: record whom it dominates and its count; undominated, it joins front 0. */
  method FirstEntry(pop: seq<Fitness>, i: nat, count: seq<int>, dominated: seq<seq<nat>>, rank: seq<int>, front0: seq<nat>)
    returns (count1: seq<int>, dominated1: seq<seq<nat>>, rank1: seq<int>, front1: seq<nat>)
    requires i < |pop| && FirstInv(pop, i, count, dominated, rank, front0)
    ensures FirstInv(pop, i + 1, count1, dominated1, rank1, front1)
  {
    var dom, c := DominationOf(pop, i);
    FirstStep(pop, i, count, dominated, rank, front0, dom, c);
    count1, dominated1, rank1, front1 := count[i := c], dominated[i := dom], rank, front0;
    if c == 0 {
      rank1 := rank[i := 0];
      front1 := front0 + [i];
    }
  }

  /** The inner loop of the first pass: who `i` dominates, and how many dominate `i`. */
  method DominationOf(pop: seq<Fitness>, i: nat) returns (dom: seq<nat>, c: int)
    requires i < |pop|
    ensures dom == DominatedList(pop, i, |pop|) && c == |Dominators(pop, i)|
  {
    dom, c := [], 0;
    for j := 0 to |pop|
      invariant dom == DominatedList(pop, i, j) && c == |DominatorsBelow(pop, i, j)|
    {
      DominatorsBelowStep(pop, i, j);
      if Dominates(pop[i], pop[j]) {
        dom := dom + [j];
      } else if Dominates(pop[j], pop[i]) {
        c := c + 1;
      }
    }
    assert DominatorsBelow(pop, i, |pop|) == Dominators(pop, i);
  }

  /**
   * The second pass over front i, which lists `layer`, the solutions
   * outside `ranked0` whose dominators all lie in it: for each member, in
   * order, decrement the count of every solution it dominates; a count
   * reaching zero puts that solution in the next front with rank i+1.
   */
  method ProcessFront(pop: seq<Fitness>, i: nat, front: seq<nat>, ghost ranked0: set<nat>, ghost layer: set<nat>,
                      count0: seq<int>, dominated: seq<seq<nat>>, rank0: seq<int>)
      returns (count: seq<int>, rank: seq<int>, next: seq<nat>)
    requires layer == Next(pop, ranked0) && Shadowed(pop, ranked0, layer) && Lists(front, layer)
    requires |count0| == |pop| && |dominated| == |pop| && |rank0| == |pop|
    requires forall a: nat | a < |pop| :: dominated[a] == DominatedList(pop, a, |pop|)
    requires forall j: nat | j < |pop| :: count0[j] == |Dominators(pop, j) - ranked0|
    requires forall j: nat | j < |pop| && j !in ranked0 + layer :: rank0[j] == -1
    ensures |count| == |pop| && forall j: nat | j < |pop| :: count[j] == |Dominators(pop, j) - (ranked0 + layer)|
    ensures Lists(next, Next(pop, ranked0 + layer))
    ensures NewRanks(pop, i, ranked0 + layer, rank0, rank, next)
  {
    ghost var ranked := ranked0 + layer;
    count, rank, next := count0, rank0, [];
    ghost var done := ranked0;
    NextStart(pop, i, ranked0, layer, count, rank0);
    for t := 0 to |front|
      invariant NextInv(pop, i, ranked, done, count, rank0, rank, next)
      invariant done == ranked0 + Members(front[..t])
    {
      var s1 := front[t];
      PendingStart(pop, i, ranked0, layer, front, t, done, count, rank0, rank, next);
      var list := dominated[s1];
      ListOutside(pop, ranked0, layer, s1, list);
      count, rank, next := VisitDominated(pop, i, ranked, done + {s1}, list, count, rank0, rank, next);
      MembersSnoc(front, t);
      done := done + {s1};
    }
    NextDone(pop, i, ranked0, layer, front, done, count, rank0, rank, next);
  }

  /**
   * The inner loop over the solutions `list` that one front member
   * dominates: decrement each count, collecting those that reach zero.
   */
  method VisitDominated(pop: seq<Fitness>, i: nat, ghost ranked: set<nat>, ghost done: set<nat>, list: seq<nat>,
                        count0: seq<int>, rank0: seq<int>, rank1: seq<int>, next0: seq<nat>)
      returns (count: seq<int>, rank: seq<int>, next: seq<nat>)
    requires NoDup(list) && (forall x | x in list :: x < |pop| && x !in ranked) && |rank0| == |pop|
    requires PendingInv(pop, i, ranked, done, Members(list), count0, rank0, rank1, next0)
    ensures NextInv(pop, i, ranked, done, count, rank0, rank, next)
  {
    count, rank, next := count0, rank1, next0;
    assert list[0..] == list;
    for u := 0 to |list|
      invariant PendingInv(pop, i, ranked, done, Members(list[u..]), count, rank0, rank, next)
    {
      var s2 := list[u];
      assert s2 in list;
      PendingStep(pop, i, ranked, done, list, u, count, rank0, rank, next);
      count := count[s2 := count[s2] - 1];
      if count[s2] == 0 {
        rank := rank[s2 := i + 1];
        next := next + [s2];
      }
    }
    PendingDone(pop, i, ranked, done, list, count, rank0, rank, next);
  }

  // ---------------------------------------------------------------------------
  // Loop lemmas

  /** The solutions a front member dominates: listed once each, outside layers 0..i. */
  lemma ListOutside(pop: seq<Fitness>, ranked0: set<nat>, layer: set<nat>, s1: nat, list: seq<nat>)
    requires Shadowed(pop, ranked0, layer) && s1 in layer && s1 < |pop| && list == DominatedList(pop, s1, |pop|)
    ensures NoDup(list) && forall x | x in list :: x < |pop| && x !in ranked0 + layer
  {
  }

  lemma DominatorsBelowStep(pop: seq<Fitness>, i: nat, j: nat)
    requires i < |pop| && j < |pop|
    ensures |DominatorsBelow(pop, i, j + 1)| ==
      |DominatorsBelow(pop, i, j)| + (if !Dominates(pop[i], pop[j]) && Dominates(pop[j], pop[i]) then 1 else 0)
  {
    if Dominates(pop[j], pop[i]) {
      DominatesIsPareto(pop[j], pop[i], pop[i]);
      assert DominatorsBelow(pop, i, j + 1) == DominatorsBelow(pop, i, j) + {j};
    } else {
      assert DominatorsBelow(pop, i, j + 1) == DominatorsBelow(pop, i, j);
    }
  }

  lemma FirstStep(pop: seq<Fitness>, i: nat, count: seq<int>, dominated: seq<seq<nat>>, rank: seq<int>, front0: seq<nat>,
                  dom: seq<nat>, c: int)
    requires i < |pop| && FirstInv(pop, i, count, dominated, rank, front0)
    requires dom == DominatedList(pop, i, |pop|) && c == |Dominators(pop, i)|
    ensures FirstInv(pop, i + 1, count[i := c], dominated[i := dom], if c == 0 then rank[i := 0] else rank,
                     if c == 0 then front0 + [i] else front0)
  {
    assert c == 0 <==> Dominators(pop, i) == {};
  }

  /** The first pass leaves front 0 = layer 0 and the state the second pass starts from. */
  lemma FirstDone(pop: seq<Fitness>, count: seq<int>, dominated: seq<seq<nat>>, rank: seq<int>, front0: seq<nat>)
    requires FirstInv(pop, |pop|, count, dominated, rank, front0)
    ensures LayersInv(pop, 0, {}, [front0]) && CountsInv(pop, {}, Layer(pop, 0), [front0], count, dominated, rank)
  {
    assert Upto(pop, 0) == {};
    forall j: nat | j < |pop|
      ensures count[j] == |Dominators(pop, j) - {}|
    {
      assert Dominators(pop, j) - {} == Dominators(pop, j);
    }
  }

  /** Before the first member of the front, nothing is discounted or collected beyond `ranked0`. */
  lemma NextStart(pop: seq<Fitness>, i: nat, ranked0: set<nat>, layer: set<nat>, count: seq<int>, rank0: seq<int>)
    requires layer == Next(pop, ranked0) && |count| == |pop| && |rank0| == |pop|
    requires forall j: nat | j < |pop| :: count[j] == |Dominators(pop, j) - ranked0|
    requires forall j: nat | j < |pop| && j !in ranked0 + layer :: rank0[j] == -1
    ensures NextInv(pop, i, ranked0 + layer, ranked0, count, rank0, rank0, [])
  {
    forall j: nat | j < |pop| && j !in ranked0 + layer ensures !(Dominators(pop, j) <= ranked0) {
      assert j !in Next(pop, ranked0);
    }
  }

  /** Entering the visit of the solutions that front member `front[t]` dominates. */
  lemma PendingStart(pop: seq<Fitness>, i: nat, ranked0: set<nat>, layer: set<nat>, front: seq<nat>, t: nat, done: set<nat>,
                     count: seq<int>, rank0: seq<int>, rank: seq<int>, next: seq<nat>)
    requires layer == Next(pop, ranked0) && Lists(front, layer) && t < |front| && |rank0| == |pop|
    requires NextInv(pop, i, ranked0 + layer, done, count, rank0, rank, next)
    requires done == ranked0 + Members(front[..t])
    ensures var s1 := front[t];
      s1 < |pop| && PendingInv(pop, i, ranked0 + layer, done + {s1}, Members(DominatedList(pop, s1, |pop|)), count, rank0, rank, next)
  {
    var s1 := front[t];
    FrontMemberNew(pop, ranked0, layer, front, t, done);
    var pending := Members(DominatedList(pop, s1, |pop|));
    PendingCounts(pop, done, s1, count);
    PendingNext(pop, ranked0 + layer, done, s1, next);
  }

  /** The front member visited next is in the layer and not yet done. */
  lemma FrontMemberNew(pop: seq<Fitness>, ranked0: set<nat>, layer: set<nat>, front: seq<nat>, t: nat, done: set<nat>)
    requires layer == Next(pop, ranked0) && Lists(front, layer) && t < |front|
    requires done == ranked0 + Members(front[..t])
    ensures front[t] in layer && front[t] < |pop| && front[t] !in done
  {
    var s1 := front[t];
    assert s1 in layer;
    forall k | 0 <= k < t ensures front[..t][k] != s1 {
      assert front[k] != front[t];
    }
  }

  /** Each solution `s1` dominates keeps one extra count for it. */
  lemma PendingCounts(pop: seq<Fitness>, done: set<nat>, s1: nat, count: seq<int>)
    requires s1 < |pop| && s1 !in done && |count| == |pop|
    requires forall j: nat | j < |pop| :: count[j] == |Dominators(pop, j) - done|
    ensures var pending := Members(DominatedList(pop, s1, |pop|));
      forall j: nat | j < |pop| :: count[j] == |Dominators(pop, j) - (done + {s1})| + (if j in pending then 1 else 0)
  {
    var pending := Members(DominatedList(pop, s1, |pop|));
    forall j: nat | j < |pop|
      ensures count[j] == |Dominators(pop, j) - (done + {s1})| + (if j in pending then 1 else 0)
    {
      if j in pending {
        RemoveOneMore(Dominators(pop, j), done, s1);
      } else {
        assert Dominators(pop, j) - (done + {s1}) == Dominators(pop, j) - done;
      }
    }
  }

  /** A solution that `s1` dominates is not collected while it is pending. */
  lemma PendingNext(pop: seq<Fitness>, ranked: set<nat>, done: set<nat>, s1: nat, next: seq<nat>)
    requires s1 < |pop| && s1 !in done
    requires forall j: nat :: j in next <==> j < |pop| && j !in ranked && Dominators(pop, j) <= done
    ensures var pending := Members(DominatedList(pop, s1, |pop|));
      forall j: nat :: j in next <==> j < |pop| && j !in ranked && Dominators(pop, j) <= done + {s1} && j !in pending
  {
  }

  /** The members of a longer prefix. */
  lemma MembersSnoc(l: seq<nat>, t: nat)
    requires t < |l|
    ensures Members(l[..t + 1]) == Members(l[..t]) + {l[t]}
  {
    assert l[..t + 1] == l[..t] + [l[t]];
  }

  /** Nothing of `a` is left outside `d` exactly when `a` lies within `d`. */
  lemma NoneLeft(a: set<nat>, d: set<nat>)
    ensures |a - d| == 0 <==> a <= d
  {
    if a <= d {
      assert a - d == {};
    } else {
      var x :| x in a && x !in d;
      assert x in a - d;
    }
  }

  /** Removing from `a` one more element that `a` has and `d` lacks. */
  lemma RemoveOneMore(a: set<nat>, d: set<nat>, s: nat)
    requires s in a && s !in d
    ensures |a - d| == |a - (d + {s})| + 1
  {
    assert a - d == (a - (d + {s})) + {s};
  }

  /** A solution dominated by a member of `Next(pop, ranked0)` lies outside both. */
  lemma DominatedOutside(pop: seq<Fitness>, ranked0: set<nat>, s1: nat, s2: nat)
    requires Closed(pop, ranked0) && s1 in Next(pop, ranked0) && s2 < |pop| && Dominates(pop[s1], pop[s2])
    ensures s2 !in ranked0 + Next(pop, ranked0)
  {
    assert s1 in Dominators(pop, s2);
  }

  /** Everything a member of the layer after a closed set dominates lies outside both. */
  lemma NextShadowed(pop: seq<Fitness>, ranked: set<nat>)
    requires Closed(pop, ranked)
    ensures Shadowed(pop, ranked, Next(pop, ranked))
  {
    forall s1: nat, s2: nat | s1 in Next(pop, ranked) && s1 < |pop| && s2 < |pop| && Dominates(pop[s1], pop[s2])
      ensures s2 !in ranked + Next(pop, ranked)
    {
      DominatedOutside(pop, ranked, s1, s2);
    }
  }

  /** One solution `list[u]` dominated by the front member loses the extra count for it. */
  lemma {:induction false} PendingStep(pop: seq<Fitness>, i: nat, ranked: set<nat>, done: set<nat>, list: seq<nat>, u: nat,
                    count: seq<int>, rank0: seq<int>, rank: seq<int>, next: seq<nat>)
    requires NoDup(list) && u < |list| && list[u] < |pop| && list[u] !in ranked && |rank0| == |pop|
    requires PendingInv(pop, i, ranked, done, Members(list[u..]), count, rank0, rank, next)
    ensures var s2 := list[u];
      var count' := count[s2 := count[s2] - 1];
      PendingInv(pop, i, ranked, done, Members(list[u + 1..]),
                 count', rank0, if count'[s2] == 0 then rank[s2 := i + 1] else rank,
                 if count'[s2] == 0 then next + [s2] else next)
  {
    var s2 := list[u];
    NoneLeft(Dominators(pop, s2), done);
    assert list[u..] == [s2] + list[u + 1..];
    assert s2 !in list[u + 1..] by {
      forall k | u + 1 <= k < |list| ensures list[k] != s2 {
        assert list[u] != list[k];
      }
    }
  }

  /** Leaving the visit: no solution is pending any more. */
  lemma PendingDone(pop: seq<Fitness>, i: nat, ranked: set<nat>, done: set<nat>, list: seq<nat>,
                    count: seq<int>, rank0: seq<int>, rank: seq<int>, next: seq<nat>)
    requires |rank0| == |pop| && PendingInv(pop, i, ranked, done, Members(list[|list|..]), count, rank0, rank, next)
    ensures NextInv(pop, i, ranked, done, count, rank0, rank, next)
  {
    assert Members(list[|list|..]) == {};
  }

  /** After the last member of the front: the collected solutions are the next layer. */
  lemma NextDone(pop: seq<Fitness>, i: nat, ranked0: set<nat>, layer: set<nat>, front: seq<nat>, done: set<nat>,
                 count: seq<int>, rank0: seq<int>, rank: seq<int>, next: seq<nat>)
    requires Lists(front, layer) && |rank0| == |pop|
    requires NextInv(pop, i, ranked0 + layer, done, count, rank0, rank, next)
    requires done == ranked0 + Members(front[..|front|])
    ensures |count| == |pop| && forall j: nat | j < |pop| :: count[j] == |Dominators(pop, j) - (ranked0 + layer)|
    ensures Lists(next, Next(pop, ranked0 + layer))
    ensures NewRanks(pop, i, ranked0 + layer, rank0, rank, next)
  {
    assert front[..|front|] == front;
    assert done == ranked0 + layer;
  }

  /** A non-empty layer enlarges the set of ranked solutions. */
  lemma GrowsWithLayer(pop: seq<Fitness>, ranked: set<nat>, layer: set<nat>, front: seq<nat>)
    requires Closed(pop, ranked) && layer == Next(pop, ranked) && front != [] && Lists(front, layer)
    ensures |ranked| < |ranked + layer| <= |pop|
  {
    var x := front[0];
    assert x in layer && x !in ranked;
    ClosedInPopulation(pop, ranked + layer);
    CardGrow(ranked, layer, x, All(pop));
  }

  /** Front i+1 lists layer i+1 once front i has been processed. */
  lemma LayersStep(pop: seq<Fitness>, i: nat, ranked: set<nat>, fronts: seq<seq<nat>>, next: seq<nat>)
    requires LayersInv(pop, i, ranked, fronts)
    requires Lists(next, Next(pop, ranked + Layer(pop, i)))
    ensures LayersInv(pop, i + 1, ranked + Layer(pop, i), fronts + [next])
    ensures Layer(pop, i + 1) == Next(pop, ranked + Layer(pop, i))
  {
    assert Upto(pop, i + 1) == ranked + Layer(pop, i) by {
      UptoStep(pop, i);
    }
    LayerAfter(pop, i + 1, ranked + Layer(pop, i));
    assert FrontsList(pop, fronts + [next]) by {
      FrontsListSnoc(pop, fronts, next);
    }
  }

  /** The bookkeeping once front i, listing `layer`, has been processed. */
  lemma CountsStep(pop: seq<Fitness>, i: nat, ranked: set<nat>, layer: set<nat>, layer': set<nat>, fronts: seq<seq<nat>>,
                   count0: seq<int>, count: seq<int>, dominated: seq<seq<nat>>, rank0: seq<int>, rank: seq<int>, next: seq<nat>)
    requires |fronts| == i + 1 && CountsInv(pop, ranked, layer, fronts, count0, dominated, rank0)
    requires |count| == |pop| && forall j: nat | j < |pop| :: count[j] == |Dominators(pop, j) - (ranked + layer)|
    requires Lists(next, layer')
    requires NewRanks(pop, i, ranked + layer, rank0, rank, next)
    ensures CountsInv(pop, ranked + layer, layer', fronts + [next], count, dominated, rank)
  {
    RankStep(pop, i, ranked + layer, layer', fronts, rank0, rank, next);
  }

  /** Appending to fronts that are all non-empty. */
  lemma NonEmptySnoc(fronts: seq<seq<nat>>, i: nat, next: seq<nat>)
    requires |fronts| == i + 1 && (forall k | 0 <= k < i :: fronts[k] != []) && fronts[i] != []
    ensures forall k | 0 <= k < i + 1 :: (fronts + [next])[k] != []
    ensures (fronts + [next])[0] == fronts[0]
  {
  }

  /** Appending the list of the next layer. */
  lemma FrontsListSnoc(pop: seq<Fitness>, fronts: seq<seq<nat>>, next: seq<nat>)
    requires FrontsList(pop, fronts) && Lists(next, Layer(pop, |fronts|))
    ensures FrontsList(pop, fronts + [next])
  {
    forall k | 0 <= k <= |fronts| ensures Lists((fronts + [next])[k], Layer(pop, k)) {
      if k < |fronts| {
        assert (fronts + [next])[k] == fronts[k];
      }
    }
  }

  /** Layer k follows the ranked solutions of layers 0..k-1. */
  lemma LayerAfter(pop: seq<Fitness>, k: nat, ranked: set<nat>)
    requires ranked == Upto(pop, k)
    ensures Layer(pop, k) == Next(pop, ranked)
  {
  }

  /** The ranks after a front: old ones kept, the next front's members point at it. */
  lemma RankStep(pop: seq<Fitness>, i: nat, ranked: set<nat>, layer: set<nat>, fronts: seq<seq<nat>>,
                 rank0: seq<int>, rank: seq<int>, next: seq<nat>)
    requires |fronts| == i + 1 && RankInv(pop, ranked, fronts, rank0) && Lists(next, layer)
    requires NewRanks(pop, i, ranked, rank0, rank, next)
    ensures RankInv(pop, ranked + layer, fronts + [next], rank)
  {
    forall j: nat | j < |pop| && j in ranked + layer
      ensures 0 <= rank[j] < |fronts + [next]| && j in (fronts + [next])[rank[j]]
    {
      if j in ranked {
        assert (fronts + [next])[rank0[j]] == fronts[rank0[j]];
      }
    }
  }

  /** What processing front i needs from the layers before it. */
  lemma FrontContext(pop: seq<Fitness>, i: nat, ranked: set<nat>, fronts: seq<seq<nat>>)
    requires LayersInv(pop, i, ranked, fronts)
    ensures Closed(pop, ranked) && Layer(pop, i) == Next(pop, ranked) && Shadowed(pop, ranked, Layer(pop, i))
    ensures Lists(fronts[i], Layer(pop, i))
  {
    UptoClosed(pop, i);
    NextShadowed(pop, ranked);
  }

  /** When the loop stops at an empty front, every solution has a rank. */
  lemma AllRanked(pop: seq<Fitness>, i: nat, ranked: set<nat>, fronts: seq<seq<nat>>, rank: seq<int>)
    requires LayersInv(pop, i, ranked, fronts) && fronts[i] == []
    requires RankInv(pop, ranked + Layer(pop, i), fronts, rank)
    ensures Upto(pop, |fronts|) == All(pop)
    ensures forall j | 0 <= j < |pop| :: 0 <= rank[j] < |fronts| - 1 && j in fronts[rank[j]]
  {
    FrontContext(pop, i, ranked, fronts);
    EmptyListed(fronts[i], Layer(pop, i));
    EmptyNextCoversAll(pop, ranked);
    UptoStep(pop, i);
    RanksFinal(pop, ranked + Layer(pop, i), fronts, rank);
  }

  /** A set listed by the empty list is empty. */
  lemma EmptyListed(l: seq<nat>, s: set<nat>)
    requires l == [] && Lists(l, s)
    ensures s == {}
  {
  }

  /** Once every solution is ranked and the last front is empty, every rank names an earlier front. */
  lemma RanksFinal(pop: seq<Fitness>, ranked: set<nat>, fronts: seq<seq<nat>>, rank: seq<int>)
    requires RankInv(pop, ranked, fronts, rank) && ranked == All(pop) && |fronts| >= 1 && fronts[|fronts| - 1] == []
    ensures forall j | 0 <= j < |pop| :: 0 <= rank[j] < |fronts| - 1 && j in fronts[rank[j]]
  {
    forall j | 0 <= j < |pop| ensures 0 <= rank[j] < |fronts| - 1 && j in fronts[rank[j]] {
      assert j in ranked;
    }
  }

  // ---------------------------------------------------------------------------
  // Sets and layers

  /** A subset is no larger. */
  lemma SubsetCard<T>(a: set<T>, b: set<T>)
    requires a <= b
    ensures |a| <= |b|
  {
    assert b == a + (b - a);
  }

  /** Adding a set with a new element grows the union, which stays within `all`. */
  lemma CardGrow<T>(a: set<T>, l: set<T>, x: T, all: set<T>)
    requires x in l && x !in a && a + l <= all
    ensures |a| < |a + l| <= |all|
  {
    SubsetCard(a + {x}, a + l);
    SubsetCard(a + l, all);
  }

  /** A closed set holds population indices only. */
  lemma ClosedInPopulation(pop: seq<Fitness>, s: set<nat>)
    requires forall x: nat | x in s :: x < |pop|
    ensures s <= All(pop)
  {
  }

  /** Layers 0..i are layers 0..i-1 and layer i. */
  lemma UptoStep(pop: seq<Fitness>, i: nat)
    ensures Upto(pop, i + 1) == Upto(pop, i) + Layer(pop, i)
  {
  }

  /** Layers 0..k-1 are closed under dominance. */
  lemma {:induction false} UptoClosed(pop: seq<Fitness>, k: nat)
    ensures Closed(pop, Upto(pop, k))
  {
    if k > 0 {
      UptoClosed(pop, k - 1);
      NextKeepsClosed(pop, Upto(pop, k - 1));
    }
  }

  /** Adding the next layer to a closed set keeps it closed. */
  lemma NextKeepsClosed(pop: seq<Fitness>, s: set<nat>)
    requires Closed(pop, s)
    ensures Closed(pop, s + Next(pop, s))
  {
    forall x: nat | x in s + Next(pop, s) ensures x < |pop| && Dominators(pop, x) <= s + Next(pop, s) {
      if x in s {
        assert Dominators(pop, x) <= s;
      }
    }
  }

  /** The ranked sets grow with the rank. */
  lemma {:induction false} UptoGrows(pop: seq<Fitness>, k: nat, m: nat)
    requires k <= m
    ensures Upto(pop, k) <= Upto(pop, m)
    decreases m
  {
    if k < m {
      UptoGrows(pop, k, m - 1);
      UptoStep(pop, m - 1);
    }
  }

  /** What a member of layer i dominates lies outside layers 0..i. */
  lemma RankedNotDominatedByLayer(pop: seq<Fitness>, i: nat, s1: nat, s2: nat)
    requires s1 in Layer(pop, i) && s2 < |pop| && Dominates(pop[s1], pop[s2])
    ensures s2 !in Upto(pop, i + 1)
  {
    UptoClosed(pop, i);
    UptoStep(pop, i);
    DominatedOutside(pop, Upto(pop, i), s1, s2);
  }

  /** If nothing follows a closed set, it holds the whole population. */
  lemma EmptyNextCoversAll(pop: seq<Fitness>, ranked: set<nat>)
    requires Closed(pop, ranked)
    ensures Next(pop, ranked) == {} ==> ranked == All(pop)
  {
    var rest := All(pop) - ranked;
    if rest != {} {
      var j := MaxSum(pop, rest);
      forall d | d in Dominators(pop, j) ensures d in ranked {
        DominatesIsPareto(pop[d], pop[j], pop[j]);
        assert d !in rest;
      }
      assert j in Next(pop, ranked);
    } else {
      ClosedInPopulation(pop, ranked);
    }
  }

  /** An empty layer means every solution is ranked. */
  lemma EmptyLayerCoversAll(pop: seq<Fitness>, i: nat)
    ensures Layer(pop, i) == {} ==> Upto(pop, i) == All(pop)
  {
    UptoClosed(pop, i);
    EmptyNextCoversAll(pop, Upto(pop, i));
  }

  /** The sum of the two objectives, which dominance strictly increases. */
  function Sum(f: Fitness): real {
    f.fst + f.fsup
  }

  /** A member of a non-empty set of solutions whose objective sum is largest. */
  lemma {:induction false} MaxSum(pop: seq<Fitness>, s: set<nat>) returns (j: nat)
    requires s != {} && forall x | x in s :: x < |pop|
    ensures j in s && forall d | d in s :: Sum(pop[d]) <= Sum(pop[j])
    decreases |s|
  {
    var x :| x in s;
    if s == {x} {
      j := x;
    } else {
      var k := MaxSum(pop, s - {x});
      j := if Sum(pop[x]) <= Sum(pop[k]) then k else x;
    }
  }

  /** Layer 0 is exactly the solutions nobody dominates (front 0, rank 0). */
  lemma FirstLayerUndominated(pop: seq<Fitness>, j: nat)
    requires j < |pop|
    ensures j in Layer(pop, 0) <==> forall d | 0 <= d < |pop| :: !Dominates(pop[d], pop[j])
  {
    assert Upto(pop, 0) == {};
    if forall d | 0 <= d < |pop| :: !Dominates(pop[d], pop[j]) {
      assert Dominators(pop, j) == {};
    } else {
      var d :| 0 <= d < |pop| && Dominates(pop[d], pop[j]);
      assert d in Dominators(pop, j);
    }
  }

  /** No member of a layer dominates another member of the same layer. */
  lemma LayerIsAntichain(pop: seq<Fitness>, k: nat, a: nat, b: nat)
    requires a in Layer(pop, k) && b in Layer(pop, k)
    ensures a < |pop| && b < |pop| && !Dominates(pop[a], pop[b])
  {
    assert a < |pop| && b < |pop|;
  }

  /** Every member of layer k+1 is dominated by some member of layer k. */
  lemma LayerDominatedByPrevious(pop: seq<Fitness>, k: nat, b: nat)
    requires b in Layer(pop, k + 1)
    ensures b < |pop| && exists a | a in Layer(pop, k) :: Dominates(pop[a], pop[b])
  {
    UptoStep(pop, k);
    assert b < |pop| && b !in Upto(pop, k) && b !in Layer(pop, k);
    var a :| a in Dominators(pop, b) && a !in Upto(pop, k);
    assert a in Layer(pop, k);
  }

  /** A solution lies in at most one layer. */
  lemma LayersDisjoint(pop: seq<Fitness>, k: nat, m: nat, x: nat)
    requires k < m && x in Layer(pop, k)
    ensures x !in Layer(pop, m)
  {
    UptoStep(pop, k);
    UptoGrows(pop, k + 1, m);
    assert x in Upto(pop, m);
  }
}
