/**
 * `uniform` and `kPoint` of `crossover/crossover.py`: build a child that
 * gives every student the supervisor one of the parents gives it, then
 * repair the child's quotas with `fixSolution`. `random.random()` and
 * `random.randint(1, 2)` are the draw oracles (the k-th draw), the sorted
 * `random.sample` of cut points is the parameter `points`, and the
 * dictionary order of the students is the enumeration `order`.
 */
module Recombination {
  import opened Outcomes
  import opened GraphModel
  import opened Bipartite
  import opened Repair
  import opened Counting

  // ---------------------------------------------------------------------------
  // Building a child

  /**
   * What `addEdge(sups[i], stus[i])` for every i, from an empty graph,
   * builds when the students are distinct: each student has exactly the
   * supervisor it was paired with, the supervisor keys are the paired
   * supervisors, and no supervisor list is empty.
   */
  ghost predicate Paired(c: Graph, sups: seq<Sup>, stus: seq<Stu>) {
    && |sups| == |stus| && OneEach(c)
    && (forall stu :: stu in c.stus <==> stu in stus)
    && (forall sup :: sup in c.sups <==> sup in sups)
    && (forall sup | sup in c.sups :: |c.sups[sup]| >= 1)
    && (forall i | 0 <= i < |stus| :: c.stus[stus[i]] == [sups[i]])
  }

  /** `addEdge` of a new student gives it a one-element list and leaves the other students alone. */
  lemma AddNewStudentIndex(g: Graph, sup: Sup, stu: Stu)
    requires stu !in g.stus
    ensures AddEdge(g, sup, stu).stus == g.stus[stu := [sup]]
  {
    assert [] + [sup] == [sup];
  }

  /** `addEdge` of a new student keeps one supervisor per student and no empty supervisor list. */
  lemma AddNewStudent(g: Graph, sup: Sup, stu: Stu)
    requires OneEach(g) && stu !in g.stus && forall s | s in g.sups :: |g.sups[s]| >= 1
    ensures var r := AddEdge(g, sup, stu);
      OneEach(r) && forall s | s in r.sups :: |r.sups[s]| >= 1
  {
    AddEdgeConsistent(g, sup, stu);
    AddEdgeDegrees(g, sup, stu);
    AddNewStudentIndex(g, sup, stu);
    var r := AddEdge(g, sup, stu);
    forall s | s in r.sups ensures |r.sups[s]| >= 1 {
      assert Degree(r, s) == |r.sups[s]|;
      if s != sup {
        assert Degree(g, s) == |g.sups[s]|;
      }
    }
  }

  /** One more `addEdge`, of a student not yet in the graph, pairs one more student. */
  lemma PairedStep(c: Graph, sups: seq<Sup>, stus: seq<Stu>, sup: Sup, stu: Stu)
    requires Paired(c, sups, stus) && stu !in stus
    ensures Paired(AddEdge(c, sup, stu), sups + [sup], stus + [stu])
  {
    AddNewStudent(c, sup, stu);
    AddNewStudentIndex(c, sup, stu);
    var r := AddEdge(c, sup, stu);
    forall i | 0 <= i < |stus| + 1 ensures r.stus[(stus + [stu])[i]] == [(sups + [sup])[i]] {
      if i < |stus| {
        assert (stus + [stu])[i] == stus[i] && (sups + [sup])[i] == sups[i];
      }
    }
  }

  /** `PairedStep` for the next student of a list of distinct students. */
  lemma PairedNext(c: Graph, sups: seq<Sup>, stus: seq<Stu>, i: int, sup: Sup)
    requires NoDup(stus) && 0 <= i < |stus| && Paired(c, sups, stus[..i])
    ensures Paired(AddEdge(c, sup, stus[i]), sups + [sup], stus[..i + 1])
  {
    SnocSlice(stus, i);
    PairedStep(c, sups, stus[..i], sup, stus[i]);
  }

  /** `addEdge(sup, stus[i])` for the next student of a list of distinct students. */
  method AddNext(graph: BipartiteGraph, ghost sups: seq<Sup>, stus: seq<Stu>, i: int, sup: Sup)
    modifies graph
    requires NoDup(stus) && 0 <= i < |stus| && Paired(graph.Value(), sups, stus[..i])
    ensures graph.Value() == AddEdge(old(graph.Value()), sup, stus[i])
    ensures Paired(graph.Value(), sups + [sup], stus[..i + 1])
  {
    PairedNext(graph.Value(), sups, stus, i, sup);
    graph.AddEdge(sup, stus[i]);
  }

  /** `BipartiteGraph()` followed by `addEdge(sups[i], stus[i])` for every i, in order. */
  method BuildGraph(sups: seq<Sup>, stus: seq<Stu>) returns (graph: BipartiteGraph)
    requires |sups| == |stus| && NoDup(stus)
    ensures fresh(graph) && Paired(graph.Value(), sups, stus)
  {
    graph := new BipartiteGraph(map[], map[]);
    for i := 0 to |stus|
      invariant Paired(graph.Value(), sups[..i], stus[..i])
    {
      NextSlice(sups, i);
      AddNext(graph, sups[..i], stus, i, sups[i]);
    }
    assert sups[..|stus|] == sups && stus[..|stus|] == stus;
  }

  /**
   * A consistent graph with the student index of a complete allocation,
   * and no empty supervisor list, is itself that complete allocation.
   */
  lemma SameStudentsAllocation(g: Graph, c: Graph, students: set<Stu>, quotas: map<Sup, int>)
    requires Allocation(g, students, quotas)
    requires Consistent(c) && c.stus == g.stus && forall sup | sup in c.sups :: |c.sups[sup]| >= 1
    ensures Allocation(c, students, quotas)
  {
    SameStudentIndexSameEdges(g, c);
    forall sup | sup in c.sups ensures sup in g.sups {
      assert c.sups[sup][0] in c.sups[sup];
      EdgesMember(c, sup, c.sups[sup][0]);
      EdgesMember(g, sup, c.sups[sup][0]);
    }
    forall sup | sup in g.sups ensures sup in c.sups && |c.sups[sup]| == |g.sups[sup]| {
      assert g.sups[sup][0] in g.sups[sup];
      EdgesMember(c, sup, g.sups[sup][0]);
      EdgesMember(g, sup, g.sups[sup][0]);
      forall stu ensures stu in c.sups[sup] <==> stu in g.sups[sup] {
        EdgesMember(c, sup, stu);
        EdgesMember(g, sup, stu);
      }
      assert (set stu | stu in c.sups[sup]) == (set stu | stu in g.sups[sup]);
      NoDupCard(c.sups[sup]);
      NoDupCard(g.sups[sup]);
    }
  }

  /**
   * `fixSolution` applied to a freshly built child of two complete
   * allocations. The parents show that the students fit the supervisors,
   * so the repair always succeeds.
   */
  method Repaired(child: BipartiteGraph, ghost students: set<Stu>, quotas: map<Sup, int>, ghost g1: Graph)
    returns (r: Result<BipartiteGraph>)
    modifies child
    requires Allocation(g1, students, quotas)
    requires OneEach(child.Value()) && child.edgesStu.Keys == students && child.edges.Keys <= quotas.Keys
    requires forall sup | sup in child.edges :: |child.edges[sup]| >= 1
    ensures r.Err? ==> r.error == PyError.IndexError
    ensures r.Ok?
    ensures r.Ok? ==> r.value == child && Allocation(r.value.Value(), students, quotas)
    ensures Allocation(old(child.Value()), students, quotas) ==> r.Ok? && r.value.Value() == old(child.Value())
    ensures old(child.edgesStu) == g1.stus ==> r.Ok? && r.value.Value() == old(child.Value())
  {
    if child.edgesStu == g1.stus {
      SameStudentsAllocation(g1, child.Value(), students, quotas);
    }
    AllocationBounds(g1, students, quotas);
    var fixed := FixSolution(child, quotas);
    r := if fixed.Ok? then Ok(child) else Err(PyError.IndexError);
  }

  // ---------------------------------------------------------------------------
  // uniform

  /** Both parents give `stu` a supervisor. */
  predicate Drawable(stuEdges1: map<Stu, seq<Sup>>, stuEdges2: map<Stu, seq<Sup>>, stu: Stu) {
    stu in stuEdges1 && stu in stuEdges2 && |stuEdges1[stu]| >= 1 && |stuEdges2[stu]| >= 1
  }

  /** The supervisor a draw gives `stu`: the first parent's below one half, else the second's. */
  function Pick(stuEdges1: map<Stu, seq<Sup>>, stuEdges2: map<Stu, seq<Sup>>, stu: Stu, draw: real): Sup
    requires Drawable(stuEdges1, stuEdges2, stu)
  {
    if draw < 0.5 then stuEdges1[stu][0] else stuEdges2[stu][0]
  }

  /** Each student is paired with its supervisor in one of the two parents. */
  ghost predicate FromParents(sups: seq<Sup>, order: seq<Stu>, g1: Graph, g2: Graph) {
    && |sups| == |order|
    && forall i | 0 <= i < |order| :: order[i] in g1.stus && order[i] in g2.stus &&
        (sups[i] in g1.stus[order[i]] || sups[i] in g2.stus[order[i]])
  }

  /** A supervisor either parent gives a student is in the supervisor table. */
  lemma ParentSupervisor(g1: Graph, g2: Graph, students: set<Stu>, quotas: map<Sup, int>, stu: Stu, sup: Sup)
    requires Allocation(g1, students, quotas) && Allocation(g2, students, quotas)
    requires stu in g1.stus && stu in g2.stus && (sup in g1.stus[stu] || sup in g2.stus[stu])
    ensures sup in quotas
  {
  }

  /** A child paired from two complete allocations is ready for `fixSolution`. */
  lemma ChildShape(g1: Graph, g2: Graph, students: set<Stu>, quotas: map<Sup, int>, order: seq<Stu>, sups: seq<Sup>, c: Graph)
    requires Allocation(g1, students, quotas) && Allocation(g2, students, quotas)
    requires (forall stu :: stu in order <==> stu in students) && FromParents(sups, order, g1, g2)
    requires Paired(c, sups, order)
    ensures c.stus.Keys == students && c.sups.Keys <= quotas.Keys
  {
    forall sup | sup in c.sups ensures sup in quotas {
      var i :| 0 <= i < |sups| && sups[i] == sup;
      ParentSupervisor(g1, g2, students, quotas, order[i], sup);
    }
  }

  /** A child that takes every supervisor from the first parent has that parent's student index. */
  lemma ChildOfOne(g1: Graph, students: set<Stu>, quotas: map<Sup, int>, order: seq<Stu>, sups: seq<Sup>, c: Graph)
    requires Allocation(g1, students, quotas)
    requires (forall stu :: stu in order <==> stu in students) && Paired(c, sups, order)
    requires forall i | 0 <= i < |order| :: order[i] in g1.stus && g1.stus[order[i]] == [sups[i]]
    ensures c.stus == g1.stus
  {
  }

  /** Whichever way the draws fall, each student gets a supervisor of one of its parents. */
  lemma PicksFromParents(g1: Graph, g2: Graph, students: set<Stu>, quotas: map<Sup, int>, order: seq<Stu>, sups: seq<Sup>)
    requires Allocation(g1, students, quotas) && Allocation(g2, students, quotas)
    requires (forall stu :: stu in order <==> stu in students) && |sups| == |order|
    requires forall i | 0 <= i < |order| :: sups[i] == g1.stus[order[i]][0] || sups[i] == g2.stus[order[i]][0]
    ensures FromParents(sups, order, g1, g2)
    ensures g1.stus == g2.stus ==> forall i | 0 <= i < |order| :: g1.stus[order[i]] == [sups[i]]
  {
    forall i | 0 <= i < |order| ensures sups[i] in g1.stus[order[i]] || sups[i] in g2.stus[order[i]] {
      assert g1.stus[order[i]][0] in g1.stus[order[i]] && g2.stus[order[i]][0] in g2.stus[order[i]];
    }
    if g1.stus == g2.stus {
      forall i | 0 <= i < |order| ensures g1.stus[order[i]] == [sups[i]] {
        assert g1.stus[order[i]] == [g1.stus[order[i]][0]];
      }
    }
  }

  lemma PickedNext(stuEdges1: map<Stu, seq<Sup>>, stuEdges2: map<Stu, seq<Sup>>, order: seq<Stu>, random: nat -> real,
                   sups: seq<Sup>, sup: Sup)
    requires |sups| < |order| && forall i | 0 <= i < |order| :: Drawable(stuEdges1, stuEdges2, order[i])
    requires forall j | 0 <= j < |sups| :: sups[j] == Pick(stuEdges1, stuEdges2, order[j], random(j))
    requires sup == Pick(stuEdges1, stuEdges2, order[|sups|], random(|sups|))
    ensures forall j | 0 <= j < |sups| + 1 :: (sups + [sup])[j] == Pick(stuEdges1, stuEdges2, order[j], random(j))
  {
  }

  /** The loop of `uniform`: one draw and one `addEdge` per student. */
  method UniformLoop(stuEdges1: map<Stu, seq<Sup>>, stuEdges2: map<Stu, seq<Sup>>, order: seq<Stu>, random: nat -> real)
    returns (g: BipartiteGraph, ghost sups: seq<Sup>)
    requires NoDup(order) && forall i | 0 <= i < |order| :: Drawable(stuEdges1, stuEdges2, order[i])
    ensures fresh(g) && Paired(g.Value(), sups, order)
    ensures forall i | 0 <= i < |order| :: sups[i] == Pick(stuEdges1, stuEdges2, order[i], random(i))
  {
    g := new BipartiteGraph(map[], map[]);
    sups := [];
    for i := 0 to |order|
      invariant Paired(g.Value(), sups, order[..i])
      invariant forall j | 0 <= j < i :: sups[j] == Pick(stuEdges1, stuEdges2, order[j], random(j))
    {
      var sup;
      if random(i) < 0.5 {
        sup := stuEdges1[order[i]][0];
      } else {
        sup := stuEdges2[order[i]][0];
      }
      PickedNext(stuEdges1, stuEdges2, order, random, sups, sup);
      AddNext(g, sups, order, i, sup);
      sups := sups + [sup];
    }
    assert order[..|order|] == order;
  }

  /** The child of `uniform` before `fixSolution`, and what it is made of. */
  method UniformChild(solution1: BipartiteGraph, solution2: BipartiteGraph, ghost students: set<Stu>, quotas: map<Sup, int>,
                      order: seq<Stu>, random: nat -> real)
    returns (g: BipartiteGraph)
    requires Allocation(solution1.Value(), students, quotas) && Allocation(solution2.Value(), students, quotas)
    requires NoDup(order) && forall stu :: stu in order <==> stu in students
    ensures fresh(g) && OneEach(g.Value()) && g.edgesStu.Keys == students && g.edges.Keys <= quotas.Keys
    ensures forall sup | sup in g.edges :: |g.edges[sup]| >= 1
    ensures forall i | 0 <= i < |order| :: g.edgesStu[order[i]] == [Pick(solution1.edgesStu, solution2.edgesStu, order[i], random(i))]
    ensures solution1.edgesStu == solution2.edgesStu ==> g.edgesStu == solution1.edgesStu
  {
    ghost var g1, g2 := solution1.Value(), solution2.Value();
    assert forall i | 0 <= i < |order| :: Drawable(solution1.edgesStu, solution2.edgesStu, order[i]);
    ghost var sups;
    g, sups := UniformLoop(solution1.edgesStu, solution2.edgesStu, order, random);
    PicksFromParents(g1, g2, students, quotas, order, sups);
    ChildShape(g1, g2, students, quotas, order, sups, g.Value());
    if g1.stus == g2.stus {
      ChildOfOne(g1, students, quotas, order, sups, g.Value());
    }
  }

  /**
   * `uniform`. `child` is the graph before `fixSolution`: the i-th
   * student of `order` gets the supervisor of the parent its draw picks.
   */
  method Uniform(solution1: BipartiteGraph, solution2: BipartiteGraph, ghost students: set<Stu>, quotas: map<Sup, int>,
                 order: seq<Stu>, random: nat -> real)
    returns (r: Result<BipartiteGraph>, ghost child: Graph)
    requires Allocation(solution1.Value(), students, quotas) && Allocation(solution2.Value(), students, quotas)
    requires NoDup(order) && forall stu :: stu in order <==> stu in students
    ensures OneEach(child) && child.stus.Keys == students
    ensures forall i | 0 <= i < |order| ::
      child.stus[order[i]] == [Pick(solution1.edgesStu, solution2.edgesStu, order[i], random(i))]
    ensures r.Err? ==> r.error == PyError.IndexError
    ensures r.Ok?
    ensures r.Ok? ==> fresh(r.value) && Allocation(r.value.Value(), students, quotas)
    ensures Allocation(child, students, quotas) ==> r.Ok? && r.value.Value() == child
    ensures solution1.edgesStu == solution2.edgesStu ==> r.Ok? && r.value.edgesStu == solution1.edgesStu
  {
    var g := UniformChild(solution1, solution2, students, quotas, order, random);
    child := g.Value();
    r := Repaired(g, students, quotas, solution1.Value());
  }

  // ---------------------------------------------------------------------------
  // kPoint

  /** The size of `range(1, n)`, the population the cut points are drawn from. */
  function Positions(n: int): nat {
    if n >= 1 then n - 1 else 0
  }

  /** What a successful `sorted(random.sample(range(1, n), k))` returns. */
  predicate SortedSample(points: seq<int>, k: int, n: int) {
    && |points| == k
    && (forall i | 0 <= i < |points| :: 1 <= points[i] < n)
    && (forall i, j | 0 <= i < j < |points| :: points[i] < points[j])
  }

  /** Segment boundaries in [0, n], in order. */
  predicate Ordered(b: seq<int>, n: int) {
    && (forall i | 0 <= i < |b| :: 0 <= b[i] <= n)
    && (forall i, j | 0 <= i <= j < |b| :: b[i] <= b[j])
  }

  /**
   * The segment boundaries: 0, the first k - 1 cut points (the last point
   * drawn is never used), and n. With k = 0 there is one segment.
   */
  function Bounds(points: seq<int>, k: int, n: int): (b: seq<int>)
    requires 0 <= k <= |points| || k == 0
    ensures |b| == if k == 0 then 2 else k + 1
    ensures 0 <= k <= Positions(n) && SortedSample(points, k, n) && n >= 0 ==>
      Ordered(b, n) && b[0] == 0 && b[|b| - 1] == n
  {
    if k == 0 then [0, n] else [0] + points[..k - 1] + [n]
  }

  /** The concatenation of the segments between consecutive `b`, each from the parent `first` draws. */
  function Spliced(sol1: seq<Sup>, sol2: seq<Sup>, b: seq<int>, first: nat -> bool): (r: seq<Sup>)
    requires |sol1| == |sol2| && Ordered(b, |sol1|)
    ensures |b| >= 1 ==> |r| == b[|b| - 1] - b[0]
  {
    if |b| == 0 then [] else SplicedUpTo(sol1, sol2, b, first, |b| - 1)
  }

  /** The first `m` segments of the splice. */
  function SplicedUpTo(sol1: seq<Sup>, sol2: seq<Sup>, b: seq<int>, first: nat -> bool, m: nat): (r: seq<Sup>)
    requires |sol1| == |sol2| && Ordered(b, |sol1|) && m < |b|
    ensures |r| == b[m] - b[0]
  {
    if m == 0 then []
    else SplicedUpTo(sol1, sol2, b, first, m - 1) + (if first(m - 1) then sol1 else sol2)[b[m - 1]..b[m]]
  }

  /**
   * The splice is pointwise: position i, in the j-th segment, holds the
   * i-th entry of the parent drawn for segment j.
   */
  lemma SplicedAt(sol1: seq<Sup>, sol2: seq<Sup>, b: seq<int>, first: nat -> bool)
    requires |sol1| == |sol2| && Ordered(b, |sol1|) && |b| >= 1 && b[0] == 0
    ensures forall j, i | 0 <= j < |b| - 1 && b[j] <= i < b[j + 1] ::
      Spliced(sol1, sol2, b, first)[i] == (if first(j) then sol1[i] else sol2[i])
  {
    forall j, i | 0 <= j < |b| - 1 && b[j] <= i < b[j + 1]
      ensures Spliced(sol1, sol2, b, first)[i] == (if first(j) then sol1[i] else sol2[i])
    {
      SplicedAtPoint(sol1, sol2, b, first, |b| - 1, j, i);
    }
  }

  /** Position `i` of segment `j` of the first `m` segments. */
  lemma {:induction false} SplicedAtPoint(sol1: seq<Sup>, sol2: seq<Sup>, b: seq<int>, first: nat -> bool, m: nat, j: nat, i: int)
    requires |sol1| == |sol2| && Ordered(b, |sol1|) && m < |b| && b[0] == 0
    requires j < m && b[j] <= i < b[j + 1]
    ensures SplicedUpTo(sol1, sol2, b, first, m)[i] == (if first(j) then sol1[i] else sol2[i])
    decreases m
  {
    var p := SplicedUpTo(sol1, sol2, b, first, m - 1);
    var last := (if first(m - 1) then sol1 else sol2)[b[m - 1]..b[m]];
    assert SplicedUpTo(sol1, sol2, b, first, m) == p + last;
    if j < m - 1 {
      assert b[j + 1] <= b[m - 1];
      SplicedAtPoint(sol1, sol2, b, first, m - 1, j, i);
      assert (p + last)[i] == p[i];
    } else {
      assert (p + last)[i] == last[i - b[m - 1]];
    }
  }

  /** The supervisor vector of `solution` along `order` (`sol1`, `sol2`). */
  method Vector(stuEdges: map<Stu, seq<Sup>>, order: seq<Stu>) returns (sol: seq<Sup>)
    requires forall i | 0 <= i < |order| :: order[i] in stuEdges && |stuEdges[order[i]]| >= 1
    ensures |sol| == |order| && forall i | 0 <= i < |order| :: sol[i] == stuEdges[order[i]][0]
  {
    sol := [];
    for i := 0 to |order|
      invariant |sol| == i && forall j | 0 <= j < i :: sol[j] == stuEdges[order[j]][0]
    {
      sol := sol + [stuEdges[order[i]][0]];
    }
  }

  /** The segments of `sol` between the boundaries (`sol1Points`, `sol2Points`). */
  method Segments(sol: seq<Sup>, points: seq<int>, k: int) returns (segs: seq<seq<Sup>>)
    requires 0 <= k <= Positions(|sol|) && SortedSample(points, k, |sol|)
    ensures var b := Bounds(points, k, |sol|);
      |segs| == |b| - 1 && forall j | 0 <= j < |segs| :: segs[j] == sol[b[j]..b[j + 1]]
  {
    ghost var b := Bounds(points, k, |sol|);
    segs := [];
    var curr := 0;
    var i := 0;
    while i < k - 1
      invariant 0 <= i && (k >= 1 ==> i <= k - 1) && (k == 0 ==> i == 0)
      invariant curr == b[i] && |segs| == i
      invariant forall j | 0 <= j < i :: segs[j] == sol[b[j]..b[j + 1]]
    {
      segs := segs + [sol[curr..points[i]]];
      curr := points[i];
      i := i + 1;
    }
    segs := segs + [sol[curr..]];
  }

  /**
   * `kPoint`. `order` is the key order of the first parent's student
   * index, `points` what the sample of cut points returns when it does not
   * raise, and `first(j)` whether the draw for segment j (for k = 0, the
   * one draw) picks the first parent. `child` is the graph before
   * `fixSolution`.
   */
  method KPoint(solution1: BipartiteGraph, solution2: BipartiteGraph, ghost students: set<Stu>, quotas: map<Sup, int>,
                order: seq<Stu>, k: int, points: seq<int>, first: nat -> bool)
    returns (r: Result<BipartiteGraph>, ghost child: Graph)
    requires Allocation(solution1.Value(), students, quotas) && Allocation(solution2.Value(), students, quotas)
    requires NoDup(order) && forall stu :: stu in order <==> stu in students
    requires 0 <= k <= Positions(|order|) ==> SortedSample(points, k, |order|)
    ensures r.Err? ==> r.error == PyError.ValueError || r.error == PyError.IndexError
    ensures r == Err(PyError.ValueError) <==> k < 0 || k > Positions(|order|)
    ensures 0 <= k <= Positions(|order|) ==> r.Ok?
    ensures 0 <= k <= Positions(|order|) ==>
      && OneEach(child) && child.stus.Keys == students
      && var b := Bounds(points, k, |order|);
      forall j, i | 0 <= j < |b| - 1 && b[j] <= i < b[j + 1] ::
        child.stus[order[i]] == [if first(j) then solution1.edgesStu[order[i]][0] else solution2.edgesStu[order[i]][0]]
    ensures k == 0 ==> forall stu | stu in students ::
      child.stus[stu] == (if first(0) then solution1.edgesStu[stu] else solution2.edgesStu[stu])
    ensures r.Ok? ==> fresh(r.value) && Allocation(r.value.Value(), students, quotas)
    ensures 0 <= k <= Positions(|order|) && Allocation(child, students, quotas) ==> r.Ok? && r.value.Value() == child
    ensures 0 <= k <= Positions(|order|) && solution1.edgesStu == solution2.edgesStu ==>
      r.Ok? && r.value.edgesStu == solution1.edgesStu
  {
    var sol1 := Vector(solution1.edgesStu, order);
    var sol2 := Vector(solution2.edgesStu, order);
    if k < 0 || k > Positions(|order|) {
      return Err(PyError.ValueError), Graph(map[], map[]);
    }
    var graph := KPointChild(solution1, solution2, students, quotas, order, sol1, sol2, k, points, first);
    child := graph.Value();
    r := Repaired(graph, students, quotas, solution1.Value());
  }

  /** The child of `kPoint` before `fixSolution`, segment by segment. */
  method KPointChild(solution1: BipartiteGraph, solution2: BipartiteGraph, ghost students: set<Stu>, quotas: map<Sup, int>,
                     order: seq<Stu>, sol1: seq<Sup>, sol2: seq<Sup>, k: int, points: seq<int>, first: nat -> bool)
    returns (graph: BipartiteGraph)
    requires Allocation(solution1.Value(), students, quotas) && Allocation(solution2.Value(), students, quotas)
    requires NoDup(order) && forall stu :: stu in order <==> stu in students
    requires 0 <= k <= Positions(|order|) && SortedSample(points, k, |order|)
    requires |sol1| == |sol2| == |order|
    requires forall i | 0 <= i < |order| :: sol1[i] == solution1.edgesStu[order[i]][0] && sol2[i] == solution2.edgesStu[order[i]][0]
    ensures fresh(graph) && OneEach(graph.Value()) && graph.edgesStu.Keys == students && graph.edges.Keys <= quotas.Keys
    ensures forall sup | sup in graph.edges :: |graph.edges[sup]| >= 1
    ensures var b := Bounds(points, k, |order|);
      forall j, i | 0 <= j < |b| - 1 && b[j] <= i < b[j + 1] ::
        graph.edgesStu[order[i]] == [if first(j) then solution1.edgesStu[order[i]][0] else solution2.edgesStu[order[i]][0]]
    ensures k == 0 ==> forall stu | stu in students ::
      graph.edgesStu[stu] == (if first(0) then solution1.edgesStu[stu] else solution2.edgesStu[stu])
    ensures solution1.edgesStu == solution2.edgesStu ==> graph.edgesStu == solution1.edgesStu
  {
    var segs1 := Segments(sol1, points, k);
    var segs2 := Segments(sol2, points, k);
    var result := Splice(sol1, sol2, segs1, segs2, points, k, first);
    graph := SplicedGraph(solution1, solution2, students, quotas, order, sol1, sol2, Bounds(points, k, |order|), first, result);
  }

  /** The last loop of `kPoint`: `addEdge(result[i], order[i])` for every student. */
  method SplicedGraph(solution1: BipartiteGraph, solution2: BipartiteGraph, ghost students: set<Stu>, quotas: map<Sup, int>,
                      order: seq<Stu>, ghost sol1: seq<Sup>, ghost sol2: seq<Sup>, ghost b: seq<int>, ghost first: nat -> bool,
                      result: seq<Sup>)
    returns (graph: BipartiteGraph)
    requires Allocation(solution1.Value(), students, quotas) && Allocation(solution2.Value(), students, quotas)
    requires NoDup(order) && forall stu :: stu in order <==> stu in students
    requires |sol1| == |sol2| == |order|
    requires forall i | 0 <= i < |order| :: sol1[i] == solution1.edgesStu[order[i]][0] && sol2[i] == solution2.edgesStu[order[i]][0]
    requires Ordered(b, |order|) && |b| >= 2 && b[0] == 0 && b[|b| - 1] == |order|
    requires result == Spliced(sol1, sol2, b, first)
    ensures fresh(graph) && OneEach(graph.Value()) && graph.edgesStu.Keys == students && graph.edges.Keys <= quotas.Keys
    ensures forall sup | sup in graph.edges :: |graph.edges[sup]| >= 1
    ensures forall j, i | 0 <= j < |b| - 1 && b[j] <= i < b[j + 1] ::
      graph.edgesStu[order[i]] == [if first(j) then solution1.edgesStu[order[i]][0] else solution2.edgesStu[order[i]][0]]
    ensures |b| == 2 ==> forall stu | stu in students ::
      graph.edgesStu[stu] == (if first(0) then solution1.edgesStu[stu] else solution2.edgesStu[stu])
    ensures solution1.edgesStu == solution2.edgesStu ==> graph.edgesStu == solution1.edgesStu
  {
    graph := BuildGraph(result, order);
    SplicedChild(solution1.Value(), solution2.Value(), students, quotas, order, sol1, sol2, b, first, graph.Value());
    SegmentConsequences(solution1.Value(), solution2.Value(), students, quotas, order, graph.Value(), b, first);
  }

  /**
   * A child built segment by segment takes a whole parent when there is one
   * segment, and reproduces the parents when they agree.
   */
  lemma {:induction false} SegmentConsequences(g1: Graph, g2: Graph, students: set<Stu>, quotas: map<Sup, int>, order: seq<Stu>,
                            c: Graph, b: seq<int>, first: nat -> bool)
    requires Allocation(g1, students, quotas) && Allocation(g2, students, quotas)
    requires (forall stu :: stu in order <==> stu in students) && c.stus.Keys == students
    requires Ordered(b, |order|) && |b| >= 2 && b[0] == 0 && b[|b| - 1] == |order|
    requires forall j, i | 0 <= j < |b| - 1 && b[j] <= i < b[j + 1] ::
      c.stus[order[i]] == [if first(j) then g1.stus[order[i]][0] else g2.stus[order[i]][0]]
    ensures |b| == 2 ==> forall stu | stu in students :: c.stus[stu] == (if first(0) then g1.stus[stu] else g2.stus[stu])
    ensures g1.stus == g2.stus ==> c.stus == g1.stus
  {
    if |b| == 2 {
      forall stu | stu in students ensures c.stus[stu] == (if first(0) then g1.stus[stu] else g2.stus[stu]) {
        var i :| 0 <= i < |order| && order[i] == stu;
        assert b[0] <= i < b[1];
        assert g1.stus[stu] == [g1.stus[stu][0]] && g2.stus[stu] == [g2.stus[stu][0]];
      }
    }
    if g1.stus == g2.stus {
      forall stu | stu in students ensures c.stus[stu] == g1.stus[stu] {
        var i :| 0 <= i < |order| && order[i] == stu;
        var j := SegmentOf(b, i);
        assert g1.stus[stu] == [g1.stus[stu][0]];
      }
    }
  }

  /** The second and third loops of `kPoint`: one parent's segment per draw (the whole vector for k = 0). */
  method Splice(sol1: seq<Sup>, sol2: seq<Sup>, segs1: seq<seq<Sup>>, segs2: seq<seq<Sup>>, points: seq<int>, k: int,
                first: nat -> bool)
    returns (result: seq<Sup>)
    requires |sol1| == |sol2| && 0 <= k <= Positions(|sol1|) && SortedSample(points, k, |sol1|)
    requires var b := Bounds(points, k, |sol1|);
      && |segs1| == |segs2| == |b| - 1
      && (forall j | 0 <= j < |segs1| :: segs1[j] == sol1[b[j]..b[j + 1]] && segs2[j] == sol2[b[j]..b[j + 1]])
    ensures result == Spliced(sol1, sol2, Bounds(points, k, |sol1|), first)
  {
    ghost var b := Bounds(points, k, |sol1|);
    if k == 0 {
      result := if first(0) then sol1 else sol2;
      assert SplicedUpTo(sol1, sol2, b, first, 1) == [] + result[0..|sol1|];
    } else {
      result := [];
      for p := 0 to k
        invariant result == SplicedUpTo(sol1, sol2, b, first, p)
      {
        result := result + if first(p) then segs1[p] else segs2[p];
      }
    }
  }

  /** The graph built from the splice: segment by segment, one parent's supervisors. */
  lemma {:induction false} SplicedChild(g1: Graph, g2: Graph, students: set<Stu>, quotas: map<Sup, int>, order: seq<Stu>,
                     sol1: seq<Sup>, sol2: seq<Sup>, b: seq<int>, first: nat -> bool, c: Graph)
    requires Allocation(g1, students, quotas) && Allocation(g2, students, quotas)
    requires forall stu :: stu in order <==> stu in students
    requires |sol1| == |sol2| == |order|
    requires forall i | 0 <= i < |order| :: sol1[i] == g1.stus[order[i]][0] && sol2[i] == g2.stus[order[i]][0]
    requires Ordered(b, |order|) && |b| >= 2 && b[0] == 0 && b[|b| - 1] == |order|
    requires Paired(c, Spliced(sol1, sol2, b, first), order)
    ensures c.stus.Keys == students && c.sups.Keys <= quotas.Keys
    ensures forall j, i | 0 <= j < |b| - 1 && b[j] <= i < b[j + 1] ::
      c.stus[order[i]] == [if first(j) then g1.stus[order[i]][0] else g2.stus[order[i]][0]]
  {
    SplicedAt(sol1, sol2, b, first);
    var result := Spliced(sol1, sol2, b, first);
    forall i | 0 <= i < |order| ensures result[i] == sol1[i] || result[i] == sol2[i] {
      var j := SegmentOf(b, i);
      assert result[i] == if first(j) then sol1[i] else sol2[i];
    }
    PicksFromParents(g1, g2, students, quotas, order, result);
    ChildShape(g1, g2, students, quotas, order, result, c);
  }

  /** The segment holding position i. */
  lemma SegmentOf(b: seq<int>, i: int) returns (j: int)
    requires |b| >= 2 && b[0] <= i < b[|b| - 1] && forall x, y | 0 <= x <= y < |b| :: b[x] <= b[y]
    ensures 0 <= j < |b| - 1 && b[j] <= i < b[j + 1]
  {
    j := 0;
    while b[j + 1] <= i
      invariant 0 <= j < |b| - 1 && b[j] <= i
      decreases |b| - j
    {
      j := j + 1;
    }
  }
}
