/**
 * The constraint propagation of `crossover/crossover.py` on a merged graph,
 * in which a student has at most two candidate supervisors: `simplify`, the
 * 4-cycle test `is_4_cycle`, and the two ways of settling a student between
 * its candidates, `solve_4_cycle` and `random_allocation`. The structure
 * dictionary these update in place is passed in and handed back inside the
 * result; the coin `random.randint(0, 1)` is a parameter.
 */
module Simplify {
  import opened Outcomes
  import opened GraphModel
  import opened GraphOps
  import opened Bipartite

  /** A work-list entry, `("stu", id)` or `("sup", id)`. */
  datatype Node = StuNode(stu: Stu) | SupNode(sup: Sup)

  /**
   * What the operators thread along: the target structure (how many
   * students each supervisor still has to keep), the kept pairs `to_keep`,
   * the settled nodes `already_set` and the work list `to_check`.
   */
  datatype Work = Work(structure: map<Sup, int>, toKeep: seq<(Sup, Stu)>, alreadySet: set<Node>, toCheck: set<Node>)

  /** A merged graph: consistent, and no student has more than two candidates. */
  ghost predicate Merged(g: Graph) {
    Consistent(g) && forall stu | stu in g.stus :: |g.stus[stu]| <= 2
  }

  /** Every student and every supervisor of `g`, as nodes. */
  function AllNodes(g: Graph): set<Node> {
    (set stu | stu in g.stus :: StuNode(stu)) + (set sup | sup in g.sups :: SupNode(sup))
  }

  predicate Keyed(g: Graph, n: Node) {
    match n
    case StuNode(stu) => stu in g.stus
    case SupNode(sup) => sup in g.sups
  }

  function StuNodes(l: seq<Stu>): set<Node> {
    set stu | stu in l :: StuNode(stu)
  }

  /** The pairs (sup, stu) for the students of `l`, in order. */
  function Pairs(sup: Sup, l: seq<Stu>): (r: seq<(Sup, Stu)>)
    ensures |r| == |l| && forall i | 0 <= i < |l| :: r[i] == (sup, l[i])
  {
    seq(|l|, i requires 0 <= i < |l| => (sup, l[i]))
  }

  /** How many kept pairs name `sup`. */
  ghost function Count(toKeep: seq<(Sup, Stu)>, sup: Sup): nat
    decreases |toKeep|
  {
    if toKeep == [] then 0
    else Count(toKeep[..|toKeep| - 1], sup) + (if toKeep[|toKeep| - 1].0 == sup then 1 else 0)
  }

  /** No edge of `g` reaches `stu`. */
  ghost predicate Edgeless(g: Graph, stu: Stu) {
    forall sup :: (sup, stu) !in Edges(g)
  }

  /**
   * Every kept pair was an edge of the starting graph `g0`; its student is
   * settled and has no edge left in `g`; no student is kept twice.
   */
  ghost predicate Kept(g0: Graph, g: Graph, w: Work) {
    && (forall i | 0 <= i < |w.toKeep| :: w.toKeep[i] in Edges(g0))
    && (forall i | 0 <= i < |w.toKeep| :: StuNode(w.toKeep[i].1) in w.alreadySet && Edgeless(g, w.toKeep[i].1))
    && (forall i, j | 0 <= i < j < |w.toKeep| :: w.toKeep[i].1 != w.toKeep[j].1)
  }

  /**
   * What the propagation keeps true from the graph `g0` and state `w0` it
   * starts from: the graph stays merged over the same keys and only loses
   * edges, each supervisor's structure drops by exactly the pairs kept for
   * it, the settled set only grows, and only nodes of the graph are settled
   * or queued.
   */
  ghost predicate Inv(g0: Graph, w0: Work, g: Graph, w: Work) {
    && Merged(g)
    && g.sups.Keys == g0.sups.Keys && g.stus.Keys == g0.stus.Keys
    && Edges(g) <= Edges(g0)
    && w.structure.Keys == w0.structure.Keys
    && (forall sup | sup in w.structure :: w.structure[sup] + Count(w.toKeep, sup) == w0.structure[sup] + Count(w0.toKeep, sup))
    && w0.alreadySet <= w.alreadySet <= w0.alreadySet + AllNodes(g0)
    && w.toCheck <= w0.toCheck + AllNodes(g0)
    && Kept(g0, g, w)
  }

  /**
   * One step from (g, w) to (g1, w1): the same as `Inv`, with the kept
   * pairs only appended to, and each newly kept pair an edge of `g` whose
   * student is settled and left without edges.
   */
  ghost predicate Advance(g: Graph, w: Work, g1: Graph, w1: Work) {
    && Merged(g1)
    && g1.sups.Keys == g.sups.Keys && g1.stus.Keys == g.stus.Keys
    && Edges(g1) <= Edges(g)
    && w1.structure.Keys == w.structure.Keys
    && w.toKeep <= w1.toKeep
    && (forall sup | sup in w.structure :: w1.structure[sup] + Count(w1.toKeep, sup) == w.structure[sup] + Count(w.toKeep, sup))
    && w.alreadySet <= w1.alreadySet <= w.alreadySet + AllNodes(g)
    && w1.toCheck <= w.toCheck + AllNodes(g)
    && (forall i | |w.toKeep| <= i < |w1.toKeep| :: w1.toKeep[i] in Edges(g))
    && (forall i | |w.toKeep| <= i < |w1.toKeep| :: StuNode(w1.toKeep[i].1) in w1.alreadySet && Edgeless(g1, w1.toKeep[i].1))
    && (forall i, j | |w.toKeep| <= i < j < |w1.toKeep| :: w1.toKeep[i].1 != w1.toKeep[j].1)
  }

  /**
   * Everything of `g` neither settled nor queued is a node `simplify` leaves
   * alone: a student with two candidates, or a supervisor whose structure
   * is neither 0 nor its number of candidates.
   */
  ghost predicate Propagated(g: Graph, w: Work) {
    && (forall stu | stu in g.stus && StuNode(stu) !in w.alreadySet && StuNode(stu) !in w.toCheck :: |g.stus[stu]| >= 2)
    && (forall sup | sup in g.sups && SupNode(sup) !in w.alreadySet && SupNode(sup) !in w.toCheck ::
          sup in w.structure && w.structure[sup] != 0 && |g.sups[sup]| != w.structure[sup])
  }

  /** The state `simplify` starts from: an empty `to_check` means every node. */
  function Start(g: Graph, structure: map<Sup, int>, toCheck: set<Node>, alreadySet: set<Node>): Work {
    Work(structure, [], alreadySet, if toCheck == {} then AllNodes(g) else toCheck)
  }

  // ---------------------------------------------------------------------------
  // simplify

  /**
   * `simplify`: pops nodes off the work list until it is empty. A student
   * with one candidate is kept with it (the supervisor's structure drops by
   * one and it is queued again); a supervisor with structure 0 loses all
   * its candidates (they are queued again); a supervisor with exactly as
   * many candidates as its structure keeps them all. A key missing from the
   * graph or the structure raises KeyError. At the end every node that is
   * not settled is one there is nothing to propagate from.
   */
  method Simplify(graph: BipartiteGraph, structure: map<Sup, int>, toCheck: set<Node>, alreadySet: set<Node>) returns (r: Result<Work>)
    modifies graph
    requires Merged(graph.Value())
    ensures r.Err? ==> r.error == PyError.KeyError
    ensures old(graph.Value()).sups.Keys <= structure.Keys && (forall n | n in toCheck :: Keyed(old(graph.Value()), n)) ==> r.Ok?
    ensures r.Ok? ==> r.value.toCheck == {}
    ensures r.Ok? ==> Inv(old(graph.Value()), Start(old(graph.Value()), structure, toCheck, alreadySet), graph.Value(), r.value)
    ensures r.Ok? && (toCheck == {} || Propagated(old(graph.Value()), Start(old(graph.Value()), structure, toCheck, alreadySet))) ==>
      Propagated(graph.Value(), r.value)
  {
    ghost var g0 := graph.Value();
    var w := Start(graph.Value(), structure, toCheck, alreadySet);
    ghost var w0 := w;
    ghost var universe := w0.alreadySet + AllNodes(g0);
    ghost var keysOk := g0.sups.Keys <= structure.Keys && (forall n | n in toCheck :: Keyed(g0, n));
    ghost var propagate := toCheck == {} || Propagated(g0, w0);
    if toCheck == {} {
      StartPropagated(g0, structure, alreadySet);
    }
    LoopingStart(g0, structure, toCheck, alreadySet, keysOk, propagate);
    while w.toCheck != {}
      invariant Looping(g0, w0, keysOk, propagate, graph.Value(), w)
      decreases |universe - w.alreadySet|, |w.toCheck|
    {
      var node :| node in w.toCheck;
      var next := Visit(graph, w, node, g0, w0, keysOk, propagate, universe);
      if next.Err? {
        return Err(next.error);
      }
      w := next.value;
    }
    r := Ok(w);
  }

  /** The invariant of `simplify`'s loop, from the graph `g0` and state `w0` it started with. */
  ghost predicate Looping(g0: Graph, w0: Work, keysOk: bool, propagate: bool, g: Graph, w: Work) {
    && Inv(g0, w0, g, w)
    && (propagate ==> Propagated(g, w))
    && (keysOk ==> g0.sups.Keys <= w0.structure.Keys && forall n | n in w.toCheck :: Keyed(g0, n))
  }

  lemma LoopingStart(g0: Graph, structure: map<Sup, int>, toCheck: set<Node>, alreadySet: set<Node>, keysOk: bool, propagate: bool)
    requires Merged(g0)
    requires keysOk ==> g0.sups.Keys <= structure.Keys && forall n | n in toCheck :: Keyed(g0, n)
    requires propagate ==> Propagated(g0, Start(g0, structure, toCheck, alreadySet))
    ensures Looping(g0, Start(g0, structure, toCheck, alreadySet), keysOk, propagate, g0, Start(g0, structure, toCheck, alreadySet))
  {
    if keysOk && toCheck == {} {
      forall n | n in AllNodes(g0) ensures Keyed(g0, n) {
        AllNodesKeyed(g0, n);
      }
    }
  }

  /**
   * One round of `simplify`'s loop: take `node` off the work list and,
   * unless it is settled, process it. The round keeps the loop invariant,
   * and either settles a node of `universe` or only shortens the work list.
   */
  method Visit(graph: BipartiteGraph, w: Work, node: Node, ghost g0: Graph, ghost w0: Work, ghost keysOk: bool, ghost propagate: bool, ghost universe: set<Node>)
    returns (r: Result<Work>)
    modifies graph
    requires node in w.toCheck && universe == w0.alreadySet + AllNodes(g0)
    requires Looping(g0, w0, keysOk, propagate, graph.Value(), w)
    ensures r.Err? ==> r.error == PyError.KeyError && !keysOk
    ensures r.Ok? ==> Looping(g0, w0, keysOk, propagate, graph.Value(), r.value)
    ensures r.Ok? ==>
      |universe - r.value.alreadySet| < |universe - w.alreadySet| ||
      (r.value.alreadySet == w.alreadySet && |r.value.toCheck| < |w.toCheck|)
  {
    var rest := w.(toCheck := w.toCheck - {node});
    if node in w.alreadySet {
      return Ok(rest);
    }
    ghost var g := graph.Value();
    assert rest.(toCheck := rest.toCheck + {node}) == w;
    r := StepNode(graph, rest, node);
    if r.Err? {
      return;
    }
    VisitStep(g0, w0, keysOk, propagate, g, w, node, graph.Value(), r.value, universe);
  }

  /** A node processed by `StepNode` keeps the loop invariant and makes progress. */
  lemma {:induction false} VisitStep(g0: Graph, w0: Work, keysOk: bool, propagate: bool, g: Graph, w: Work, node: Node, g1: Graph, w1: Work, universe: set<Node>)
    requires node in w.toCheck && node !in w.alreadySet && universe == w0.alreadySet + AllNodes(g0)
    requires Looping(g0, w0, keysOk, propagate, g, w)
    requires Advance(g, w.(toCheck := w.toCheck - {node}), g1, w1)
    requires Propagated(g, w) ==> Propagated(g1, w1)
    requires w1 == w.(toCheck := w.toCheck - {node}) || node in w1.alreadySet
    ensures Looping(g0, w0, keysOk, propagate, g1, w1)
    ensures |universe - w1.alreadySet| < |universe - w.alreadySet| ||
      (w1.alreadySet == w.alreadySet && |w1.toCheck| < |w.toCheck|)
  {
    var rest := w.(toCheck := w.toCheck - {node});
    InvDequeue(g0, w0, g, w, node);
    InvStep(g0, w0, g, rest, g1, w1);
    if keysOk {
      assert g0.sups.Keys <= w0.structure.Keys && forall n | n in rest.toCheck :: Keyed(g0, n);
      KeyedQueue(g0, g, rest.toCheck, w1.toCheck);
    }
    if w1 != rest {
      assert w.alreadySet <= w1.alreadySet <= universe;
      SettleShrinks(universe, w.alreadySet, w1.alreadySet, node);
    }
  }

  /** Taking a node off the work list keeps the invariant. */
  lemma InvDequeue(g0: Graph, w0: Work, g: Graph, w: Work, node: Node)
    requires Inv(g0, w0, g, w)
    ensures Inv(g0, w0, g, w.(toCheck := w.toCheck - {node}))
  {
  }

  /** Nodes queued from a graph with the keys of `g0` are keyed in `g0`. */
  lemma KeyedQueue(g0: Graph, g: Graph, toCheck: set<Node>, toCheck1: set<Node>)
    requires g.sups.Keys == g0.sups.Keys && g.stus.Keys == g0.stus.Keys
    requires toCheck1 <= toCheck + AllNodes(g) && forall n | n in toCheck :: Keyed(g0, n)
    ensures forall n | n in toCheck1 :: Keyed(g0, n)
  {
    SameKeysSameNodes(g, g0);
    forall n | n in toCheck1 ensures Keyed(g0, n) {
      AllNodesKeyed(g0, n);
    }
  }

  /** With every node queued, nothing is left unpropagated. */
  lemma StartPropagated(g: Graph, structure: map<Sup, int>, alreadySet: set<Node>)
    ensures Propagated(g, Start(g, structure, {}, alreadySet))
  {
    forall stu | stu in g.stus ensures StuNode(stu) in AllNodes(g) {
      AllNodesKeyed(g, StuNode(stu));
    }
    forall sup | sup in g.sups ensures SupNode(sup) in AllNodes(g) {
      AllNodesKeyed(g, SupNode(sup));
    }
  }

  /** One node of the work list (already taken off it): a student or a supervisor. */
  method StepNode(graph: BipartiteGraph, w: Work, node: Node) returns (r: Result<Work>)
    modifies graph
    requires Merged(graph.Value()) && node !in w.alreadySet
    ensures r.Err? ==> r.error == PyError.KeyError
    ensures Keyed(old(graph.Value()), node) && old(graph.Value()).sups.Keys <= w.structure.Keys ==> r.Ok?
    ensures r.Ok? ==> Advance(old(graph.Value()), w, graph.Value(), r.value)
    ensures r.Ok? && Propagated(old(graph.Value()), w.(toCheck := w.toCheck + {node})) ==> Propagated(graph.Value(), r.value)
    ensures r.Ok? ==> r.value == w || node in r.value.alreadySet
  {
    match node
    case StuNode(stu) =>
      if stu !in graph.edgesStu {
        return Err(PyError.KeyError);
      }
      r := StudentStep(graph, w, stu);
    case SupNode(sup) =>
      if sup !in graph.edges {
        return Err(PyError.KeyError);
      }
      r := SupervisorStep(graph, w, sup);
  }

  /**
   * A student node: with no candidate it is settled; with one it is kept
   * with that supervisor, the edge goes, the supervisor's structure drops
   * by one (KeyError if it has none) and the supervisor is queued unless
   * settled; with two nothing happens.
   */
  method StudentStep(graph: BipartiteGraph, w: Work, stu: Stu) returns (r: Result<Work>)
    modifies graph
    requires Merged(graph.Value()) && stu in graph.edgesStu && StuNode(stu) !in w.alreadySet
    ensures r.Err? ==> r.error == PyError.KeyError && !(old(graph.Value()).sups.Keys <= w.structure.Keys)
    ensures r.Ok? ==> Advance(old(graph.Value()), w, graph.Value(), r.value)
    ensures r.Ok? && Propagated(old(graph.Value()), w.(toCheck := w.toCheck + {StuNode(stu)})) ==> Propagated(graph.Value(), r.value)
    ensures r.Ok? ==> r.value == w || StuNode(stu) in r.value.alreadySet
    ensures r.Ok? && |old(graph.edgesStu[stu])| == 1 ==>
      var sup := old(graph.edgesStu[stu][0]);
      && r.value.toKeep == w.toKeep + [(sup, stu)]
      && sup in w.structure && r.value.structure == w.structure[sup := w.structure[sup] - 1]
      && !IsEdge(graph.Value(), sup, stu)
  {
    ghost var g := graph.Value();
    var sups := graph.edgesStu[stu];
    if |sups| == 0 {
      r := Ok(w.(alreadySet := w.alreadySet + {StuNode(stu)}));
      SettleOnly(g, w, StuNode(stu));
    } else if |sups| == 1 {
      var sup := sups[0];
      var toKeep := w.toKeep + [(sup, stu)];
      var status := graph.RemoveEdge(sup, stu);
      SoleCandidate(g, sup, stu);
      if sup !in w.structure {
        return Err(PyError.KeyError);
      }
      var toCheck := if SupNode(sup) in w.alreadySet then w.toCheck else w.toCheck + {SupNode(sup)};
      r := Ok(Work(w.structure[sup := w.structure[sup] - 1], toKeep, w.alreadySet + {StuNode(stu)}, toCheck));
      SoleCandidateAdvance(g, w, sup, stu, r.value);
    } else {
      r := Ok(w);
    }
  }

  /**
   * A supervisor node: KeyError without a structure entry; with structure 0
   * it loses every candidate; with exactly as many candidates as its
   * (positive) structure it keeps them all and its structure becomes 0;
   * otherwise nothing happens.
   */
  method SupervisorStep(graph: BipartiteGraph, w: Work, sup: Sup) returns (r: Result<Work>)
    modifies graph
    requires Merged(graph.Value()) && sup in graph.edges && SupNode(sup) !in w.alreadySet
    ensures r.Err? <==> sup !in w.structure
    ensures r.Err? ==> r.error == PyError.KeyError
    ensures r.Ok? ==> Advance(old(graph.Value()), w, graph.Value(), r.value)
    ensures r.Ok? && Propagated(old(graph.Value()), w.(toCheck := w.toCheck + {SupNode(sup)})) ==> Propagated(graph.Value(), r.value)
    ensures r.Ok? ==> r.value == w || SupNode(sup) in r.value.alreadySet
    ensures sup in w.structure && w.structure[sup] == 0 ==>
      r.Ok? && graph.edges[sup] == [] && r.value.toKeep == w.toKeep && r.value.structure == w.structure
    ensures sup in w.structure && 0 < w.structure[sup] == |old(graph.edges[sup])| ==>
      r.Ok? && graph.edges[sup] == [] && r.value.toKeep == w.toKeep + Pairs(sup, old(graph.edges[sup]))
      && r.value.structure == w.structure[sup := 0]
  {
    ghost var g := graph.Value();
    var e := graph.edges[sup];
    if sup !in w.structure {
      return Err(PyError.KeyError);
    }
    if w.structure[sup] == 0 {
      var toCheck := DropAll(graph, sup, w.toCheck);
      r := Ok(Work(w.structure, w.toKeep, w.alreadySet + {SupNode(sup)}, toCheck));
      DropAdvance(g, w, sup, graph.Value(), r.value);
    } else if |e| == w.structure[sup] && w.structure[sup] > 0 {
      var w2 := KeepBranch(graph, sup, w);
      r := Ok(w2);
    } else {
      r := Ok(w);
    }
  }

  /**
   * The keep-all branch: keep every candidate of `sup`, then settle `sup`
   * with structure 0.
   */
  method KeepBranch(graph: BipartiteGraph, sup: Sup, w: Work) returns (w2: Work)
    modifies graph
    requires Merged(graph.Value()) && sup in graph.edges && sup in w.structure && w.structure[sup] == |graph.edges[sup]|
    ensures Advance(old(graph.Value()), w, graph.Value(), w2)
    ensures Propagated(old(graph.Value()), w.(toCheck := w.toCheck + {SupNode(sup)})) ==> Propagated(graph.Value(), w2)
    ensures SupNode(sup) in w2.alreadySet
    ensures graph.edges[sup] == [] && w2.toKeep == w.toKeep + Pairs(sup, old(graph.edges[sup]))
    ensures w2.structure == w.structure[sup := 0]
  {
    ghost var g := graph.Value();
    var w1 := KeepAll(graph, sup, w);
    w2 := w1.(structure := w1.structure[sup := 0], alreadySet := w1.alreadySet + {SupNode(sup)});
    KeepAdvanceShape(g, w, sup, graph.Value(), w1, w2);
    KeepAdvancePropagated(g, w, sup, graph.Value(), w1, w2);
  }

  /**
   * The structure-0 branch: remove every candidate edge of `sup`, queueing
   * all of its candidates (the union runs inside the loop, so nothing is
   * queued when there is none).
   */
  method DropAll(graph: BipartiteGraph, sup: Sup, toCheck: set<Node>) returns (toCheck1: set<Node>)
    modifies graph
    requires Merged(graph.Value()) && sup in graph.edges
    ensures Dropping(old(graph.Value()), sup, |old(graph.edges[sup])|, graph.Value())
    ensures toCheck1 == if old(graph.edges[sup]) == [] then toCheck else toCheck + StuNodes(old(graph.edges[sup]))
  {
    ghost var g0 := graph.Value();
    var e := graph.edges[sup];
    toCheck1 := toCheck;
    for i := 0 to |e|
      invariant Dropping(g0, sup, i, graph.Value())
      invariant toCheck1 == if i == 0 then toCheck else toCheck + StuNodes(e)
    {
      ghost var g := graph.Value();
      var status := graph.RemoveEdge(sup, e[i]);
      toCheck1 := toCheck1 + StuNodes(e);
      DropStep(g0, sup, i, g);
    }
  }

  /**
   * The branch where `sup` keeps all its candidates: each in turn is
   * appended to the kept pairs, its other candidates that are not settled
   * are queued, `removeExcept` drops its other edge, `removeEdge` the kept
   * one, and it is settled.
   */
  method KeepAll(graph: BipartiteGraph, sup: Sup, w: Work) returns (w1: Work)
    modifies graph
    requires Merged(graph.Value()) && sup in graph.edges
    ensures Keeping(old(graph.Value()), w, sup, |old(graph.edges[sup])|, graph.Value(), w1)
  {
    ghost var g0 := graph.Value();
    var e := graph.edges[sup];
    w1 := w;
    for i := 0 to |e|
      invariant Keeping(g0, w, sup, i, graph.Value(), w1)
    {
      ghost var g := graph.Value();
      var stu := e[i];
      KeepStepGraph(g0, sup, i, g);
      var toKeep := w1.toKeep + [(sup, stu)];
      var aux := set x | x in graph.edgesStu[stu] && SupNode(x) !in w1.alreadySet && x != sup :: SupNode(x);
      var status := graph.RemoveExcept(sup, stu);
      status := graph.RemoveEdge(sup, stu);
      ghost var w2 := w1;
      w1 := Work(w1.structure, toKeep, w1.alreadySet + {StuNode(stu)}, w1.toCheck + aux);
      KeepStep(g0, w, sup, i, g, w2, aux, w1);
    }
  }

  // ---------------------------------------------------------------------------
  // Loop states of the two supervisor branches

  /** `DropAll` after `i` candidates of `sup` in `g0`. */
  ghost predicate Dropping(g0: Graph, sup: Sup, i: nat, g: Graph) {
    sup in g0.sups && i <= |g0.sups[sup]| &&
    var e := g0.sups[sup];
    && Merged(g)
    && g.sups.Keys == g0.sups.Keys && g.stus.Keys == g0.stus.Keys
    && g.sups[sup] == e[i..]
    && (forall p :: p in Edges(g) <==> p in Edges(g0) && (p.0 != sup || p.1 !in e[..i]))
    && (forall stu | stu in g.stus && stu !in e[..i] :: g.stus[stu] == g0.stus[stu])
    && (forall x | x in g.sups && x != sup :: g.sups[x] == g0.sups[x])
  }

  /** `KeepAll` after `i` candidates of `sup` in `g0`, from the state `w0`. */
  ghost predicate Keeping(g0: Graph, w0: Work, sup: Sup, i: nat, g: Graph, w: Work) {
    KeepingGraph(g0, sup, i, g) && KeepingWork(g0, w0, sup, i, g, w)
  }

  /** The graph after `i` rounds of `KeepAll`: those students have lost all their edges. */
  ghost predicate KeepingGraph(g0: Graph, sup: Sup, i: nat, g: Graph) {
    sup in g0.sups && i <= |g0.sups[sup]| &&
    var e := g0.sups[sup];
    && Merged(g)
    && g.sups.Keys == g0.sups.Keys && g.stus.Keys == g0.stus.Keys
    && g.sups[sup] == e[i..]
    && (forall p :: p in Edges(g) <==> p in Edges(g0) && p.1 !in e[..i])
    && (forall stu | stu in g.stus && stu !in e[..i] :: g.stus[stu] == g0.stus[stu])
  }

  /**
   * The state after `i` rounds of `KeepAll`: those students are kept and
   * settled, and every other supervisor whose list changed is settled or
   * queued.
   */
  ghost predicate KeepingWork(g0: Graph, w0: Work, sup: Sup, i: nat, g: Graph, w: Work) {
    sup in g0.sups && i <= |g0.sups[sup]| &&
    var e := g0.sups[sup];
    && (forall x | x in g.sups && x in g0.sups && x != sup && g.sups[x] != g0.sups[x] :: SupNode(x) in w0.alreadySet || SupNode(x) in w.toCheck)
    && w.structure == w0.structure
    && w.toKeep == w0.toKeep + Pairs(sup, e[..i])
    && w.alreadySet == w0.alreadySet + StuNodes(e[..i])
    && w0.toCheck <= w.toCheck <= w0.toCheck + AllNodes(g0)
  }

  lemma {:induction false} DropStep(g0: Graph, sup: Sup, i: nat, g: Graph)
    requires Dropping(g0, sup, i, g) && i < |g0.sups[sup]|
    ensures Dropping(g0, sup, i + 1, RemoveEdge(g, sup, g0.sups[sup][i]).graph)
  {
    var e := g0.sups[sup];
    var stu := e[i];
    var g1 := RemoveEdge(g, sup, stu).graph;
    RestSlice(e, i);
    assert IsEdge(g, sup, stu);
    RemoveStep(g, sup, stu);
    RemoveEdgeConsistent(g, sup, stu);
    DropStepEdges(g0, sup, i, g);
    assert g1.sups[sup] == e[i + 1..];
  }

  /** Dropping the next candidate removes exactly that edge. */
  lemma DropStepEdges(g0: Graph, sup: Sup, i: nat, g: Graph)
    requires Dropping(g0, sup, i, g) && i < |g0.sups[sup]|
    ensures var e := g0.sups[sup];
      forall p :: p in Edges(RemoveEdge(g, sup, e[i]).graph) <==> p in Edges(g0) && (p.0 != sup || p.1 !in e[..i + 1])
  {
    var e := g0.sups[sup];
    assert sup in g.sups ==> NoDup(g.sups[sup]);
    RemoveEdgeEdges(g, sup, e[i]);
    NextSlice(e, i);
  }

  lemma KeepStep(g0: Graph, w0: Work, sup: Sup, i: nat, g: Graph, w: Work, aux: set<Node>, w1: Work)
    requires Keeping(g0, w0, sup, i, g, w) && i < |g0.sups[sup]|
    requires var stu := g0.sups[sup][i];
      && stu in g.stus
      && aux == (set x | x in g.stus[stu] && SupNode(x) !in w.alreadySet && x != sup :: SupNode(x))
      && w1 == Work(w.structure, w.toKeep + [(sup, stu)], w.alreadySet + {StuNode(stu)}, w.toCheck + aux)
    ensures var stu := g0.sups[sup][i];
      var g2 := RemoveEdge(RemoveExceptFrom(g, sup, stu, 0).graph, sup, stu).graph;
      Keeping(g0, w0, sup, i + 1, g2, w1)
  {
    var stu := g0.sups[sup][i];
    var g2 := RemoveEdge(RemoveExceptFrom(g, sup, stu, 0).graph, sup, stu).graph;
    KeepStepGraph(g0, sup, i, g);
    KeepStepWork(g0, w0, sup, i, g, w, aux, w1, g2);
  }

  lemma KeepStepGraph(g0: Graph, sup: Sup, i: nat, g: Graph)
    requires KeepingGraph(g0, sup, i, g) && i < |g0.sups[sup]|
    ensures var stu := g0.sups[sup][i];
      var g2 := RemoveEdge(RemoveExceptFrom(g, sup, stu, 0).graph, sup, stu).graph;
      && stu in g.stus && sup in g.stus[stu]
      && KeepingGraph(g0, sup, i + 1, g2)
      && (forall x | x in g.stus[stu] :: x in g.sups)
      && (forall x | x in g.sups && x != sup && g2.sups[x] != g.sups[x] :: x in g.stus[stu])
  {
    var e := g0.sups[sup];
    var stu := e[i];
    assert stu in g.sups[sup] by { assert g.sups[sup][0] == e[i]; }
    var g2 := RemoveEdge(RemoveExceptFrom(g, sup, stu, 0).graph, sup, stu).graph;
    KeepOne(g, sup, stu);
    RestSlice(e, i);
    assert g2.sups[sup] == e[i + 1..];
    NextSlice(e, i);
  }

  lemma {:induction false} KeepStepWork(g0: Graph, w0: Work, sup: Sup, i: nat, g: Graph, w: Work, aux: set<Node>, w1: Work, g2: Graph)
    requires KeepingWork(g0, w0, sup, i, g, w) && i < |g0.sups[sup]|
    requires g.sups.Keys == g0.sups.Keys && g2.sups.Keys == g0.sups.Keys
    requires var stu := g0.sups[sup][i];
      && stu in g.stus
      && (forall x | x in g.stus[stu] :: x in g.sups)
      && (forall x | x in g.sups && x != sup && g2.sups[x] != g.sups[x] :: x in g.stus[stu])
      && aux == (set x | x in g.stus[stu] && SupNode(x) !in w.alreadySet && x != sup :: SupNode(x))
      && w1 == Work(w.structure, w.toKeep + [(sup, stu)], w.alreadySet + {StuNode(stu)}, w.toCheck + aux)
    ensures KeepingWork(g0, w0, sup, i + 1, g2, w1)
  {
    var e := g0.sups[sup];
    var stu := e[i];
    NextSlice(e, i);
    assert Pairs(sup, e[..i + 1]) == Pairs(sup, e[..i]) + [(sup, stu)];
    assert StuNodes(e[..i + 1]) == StuNodes(e[..i]) + {StuNode(stu)};
    forall x | x in g2.sups && x in g0.sups && x != sup && g2.sups[x] != g0.sups[x]
      ensures SupNode(x) in w0.alreadySet || SupNode(x) in w1.toCheck
    {
      if g2.sups[x] != g.sups[x] {
        assert x in g.stus[stu];
        if SupNode(x) !in w.alreadySet {
          assert SupNode(x) in aux;
        }
      }
    }
    forall n | n in aux ensures n in AllNodes(g0) {
      var x :| x in g.stus[stu] && n == SupNode(x);
      AllNodesKeyed(g0, n);
    }
  }

  // ---------------------------------------------------------------------------
  // Graph facts for one student

  /**
   * Keeping `stu` with `sup`: `removeExcept` then `removeEdge` both succeed
   * and take away exactly the student's edges; no list changes but the
   * student's, `sup`'s (which loses the student) and its other candidate's.
   */
  lemma {:induction false} KeepOne(g: Graph, sup: Sup, stu: Stu)
    requires Merged(g) && stu in g.stus && sup in g.stus[stu]
    ensures var r1 := RemoveExceptFrom(g, sup, stu, 0);
      var r2 := RemoveEdge(r1.graph, sup, stu);
      && r1.status == Done && r2.status == Done
      && Merged(r2.graph)
      && r2.graph.sups.Keys == g.sups.Keys && r2.graph.stus.Keys == g.stus.Keys
      && (forall p :: p in Edges(r2.graph) <==> p in Edges(g) && p.1 != stu)
      && (forall t | t in g.stus && t != stu :: r2.graph.stus[t] == g.stus[t])
      && stu in g.sups[sup] && r2.graph.sups[sup] == RemoveFirst(g.sups[sup], stu)
      && (forall x | x in g.sups && x != sup && x !in g.stus[stu] :: r2.graph.sups[x] == g.sups[x])
  {
    var r1 := RemoveExceptFrom(g, sup, stu, 0);
    RemoveExceptSpec(g, sup, stu);
    RemoveExceptLists(g, sup, stu);
    var g1 := r1.graph;
    assert IsEdge(g1, sup, stu) by {
      assert g1.stus[stu] == [sup];
      assert (sup, stu) in Edges(g1) by { assert (sup, stu) in Edges(g); }
    }
    RemoveStep(g1, sup, stu);
    RemoveEdgeConsistent(g1, sup, stu);
    RemoveEdgeEdges(g1, sup, stu);
    var g2 := RemoveEdge(g1, sup, stu).graph;
    assert g2.stus[stu] == [] by { assert RemoveFirst([sup], sup) == []; }
  }

  /**
   * `removeExcept` on a student with at most two candidates changes only
   * the list of the other candidate among the supervisor lists.
   */
  lemma RemoveExceptLists(g: Graph, sup: Sup, stu: Stu)
    requires Merged(g) && stu in g.stus && sup in g.stus[stu]
    ensures var r := RemoveExceptFrom(g, sup, stu, 0).graph;
      forall x | x in g.sups && (x == sup || x !in g.stus[stu]) :: r.sups[x] == g.sups[x]
  {
    var l := g.stus[stu];
    if |l| == 1 {
      assert l[0] == sup;
      assert RemoveExceptFrom(g, sup, stu, 0) == RemoveExceptFrom(g, sup, stu, 1);
    } else {
      RemoveExceptUnfolds(g, sup, stu);
    }
  }

  /** A student with one candidate: that edge exists and every edge of the student is it. */
  lemma SoleCandidate(g: Graph, sup: Sup, stu: Stu)
    requires Merged(g) && stu in g.stus && g.stus[stu] == [sup]
    ensures IsEdge(g, sup, stu) && RemoveEdge(g, sup, stu).status == Done
    ensures forall x | (x, stu) in Edges(g) :: x == sup
  {
    assert sup in g.stus[stu];
    RemoveEdgeConsistent(g, sup, stu);
  }

  // ---------------------------------------------------------------------------
  // Each branch is one step of the propagation

  /** Settling a node without touching anything else. */
  lemma SettleOnly(g: Graph, w: Work, n: Node)
    requires Merged(g) && Keyed(g, n) && n !in w.alreadySet
    requires n.StuNode? ==> |g.stus[n.stu]| == 0
    ensures Advance(g, w, g, w.(alreadySet := w.alreadySet + {n}))
    ensures Propagated(g, w.(toCheck := w.toCheck + {n})) ==> Propagated(g, w.(alreadySet := w.alreadySet + {n}))
  {
    AllNodesKeyed(g, n);
  }

  lemma {:induction false} SoleCandidateAdvance(g: Graph, w: Work, sup: Sup, stu: Stu, w1: Work)
    requires Merged(g) && stu in g.stus && g.stus[stu] == [sup] && sup in w.structure
    requires StuNode(stu) !in w.alreadySet
    requires w1 == Work(w.structure[sup := w.structure[sup] - 1], w.toKeep + [(sup, stu)], w.alreadySet + {StuNode(stu)},
      if SupNode(sup) in w.alreadySet then w.toCheck else w.toCheck + {SupNode(sup)})
    ensures Advance(g, w, RemoveEdge(g, sup, stu).graph, w1)
    ensures Propagated(g, w.(toCheck := w.toCheck + {StuNode(stu)})) ==> Propagated(RemoveEdge(g, sup, stu).graph, w1)
    ensures !IsEdge(RemoveEdge(g, sup, stu).graph, sup, stu)
  {
    var g1 := RemoveEdge(g, sup, stu).graph;
    SoleCandidate(g, sup, stu);
    RemoveStep(g, sup, stu);
    RemoveEdgeConsistent(g, sup, stu);
    RemoveEdgeEdges(g, sup, stu);
    assert g1.stus[stu] == [] by { assert RemoveFirst([sup], sup) == []; }
    AllNodesKeyed(g, StuNode(stu));
    AllNodesKeyed(g, SupNode(sup));
    forall x | x in w.structure ensures Count(w1.toKeep, x) == Count(w.toKeep, x) + (if x == sup then 1 else 0) {
      CountSnoc(w.toKeep, (sup, stu), x);
    }
    assert Edgeless(g1, stu);
    assert w.toKeep <= w1.toKeep;
  }

  lemma {:induction false} DropAdvance(g: Graph, w: Work, sup: Sup, g1: Graph, w1: Work)
    requires Merged(g) && sup in g.sups && sup in w.structure && w.structure[sup] == 0 && SupNode(sup) !in w.alreadySet
    requires Dropping(g, sup, |g.sups[sup]|, g1)
    requires w1 == Work(w.structure, w.toKeep, w.alreadySet + {SupNode(sup)},
      if g.sups[sup] == [] then w.toCheck else w.toCheck + StuNodes(g.sups[sup]))
    ensures Advance(g, w, g1, w1)
    ensures Propagated(g, w.(toCheck := w.toCheck + {SupNode(sup)})) ==> Propagated(g1, w1)
    ensures g1.sups[sup] == []
  {
    var e := g.sups[sup];
    assert e[..|e|] == e;
    AllNodesKeyed(g, SupNode(sup));
    forall n | n in StuNodes(e) ensures n in AllNodes(g) {
      AllNodesKeyed(g, n);
    }
    forall stu | stu in g1.stus && stu in e ensures StuNode(stu) in w1.toCheck {
    }
    assert w.toKeep <= w1.toKeep;
  }

  /** Keeping all of `sup`'s candidates advances the state: they are kept, settled and left without edges. */
  lemma KeepAdvanceShape(g: Graph, w: Work, sup: Sup, g1: Graph, w1: Work, w2: Work)
    requires Merged(g) && sup in g.sups && sup in w.structure && w.structure[sup] == |g.sups[sup]|
    requires Keeping(g, w, sup, |g.sups[sup]|, g1, w1)
    requires w2 == w1.(structure := w1.structure[sup := 0], alreadySet := w1.alreadySet + {SupNode(sup)})
    ensures Advance(g, w, g1, w2)
    ensures g1.sups[sup] == [] && w2.toKeep == w.toKeep + Pairs(sup, g.sups[sup])
  {
    KeepGraphFacts(g, w, sup, g1, w1);
    KeepWorkFacts(g, w, sup, g1, w1, w2);
    KeepAdvanceWork(g, w, sup, w2);
    KeepAdvancePairs(g, w, sup, g1, w2);
  }

  /** After keeping every candidate, `sup` has none left and its students have lost all their edges. */
  lemma KeepGraphFacts(g: Graph, w: Work, sup: Sup, g1: Graph, w1: Work)
    requires Merged(g) && sup in g.sups
    requires Keeping(g, w, sup, |g.sups[sup]|, g1, w1)
    ensures Merged(g1) && g1.sups.Keys == g.sups.Keys && g1.stus.Keys == g.stus.Keys
    ensures forall p :: p in Edges(g1) <==> p in Edges(g) && p.1 !in g.sups[sup]
    ensures g1.sups[sup] == []
  {
    var e := g.sups[sup];
    assert e[..|e|] == e;
  }

  /** The work state after keeping every candidate and settling `sup`. */
  lemma KeepWorkFacts(g: Graph, w: Work, sup: Sup, g1: Graph, w1: Work, w2: Work)
    requires Merged(g) && sup in g.sups && sup in w.structure
    requires Keeping(g, w, sup, |g.sups[sup]|, g1, w1)
    requires w2 == w1.(structure := w1.structure[sup := 0], alreadySet := w1.alreadySet + {SupNode(sup)})
    ensures w2.structure == w.structure[sup := 0] && w2.structure.Keys == w.structure.Keys
    ensures w2.toKeep == w.toKeep + Pairs(sup, g.sups[sup])
    ensures StuNodes(g.sups[sup]) <= w2.alreadySet
    ensures w.alreadySet <= w2.alreadySet <= w.alreadySet + AllNodes(g)
    ensures w2.toCheck <= w.toCheck + AllNodes(g)
  {
    var e := g.sups[sup];
    assert e[..|e|] == e;
    AllNodesKeyed(g, SupNode(sup));
    forall n | n in StuNodes(e) ensures n in AllNodes(g) {
      AllNodesKeyed(g, n);
    }
  }

  /** Keeping all of `sup`'s candidates leaves nothing new to propagate. */
  lemma KeepAdvancePropagated(g: Graph, w: Work, sup: Sup, g1: Graph, w1: Work, w2: Work)
    requires Merged(g) && sup in g.sups && sup in w.structure && w.structure[sup] == |g.sups[sup]|
    requires Keeping(g, w, sup, |g.sups[sup]|, g1, w1)
    requires w2 == w1.(structure := w1.structure[sup := 0], alreadySet := w1.alreadySet + {SupNode(sup)})
    ensures Propagated(g, w.(toCheck := w.toCheck + {SupNode(sup)})) ==> Propagated(g1, w2)
  {
    var e := g.sups[sup];
    assert e[..|e|] == e;
  }

  /** The structure of `sup` drops by exactly the pairs kept for it. */
  lemma KeepAdvanceWork(g: Graph, w: Work, sup: Sup, w2: Work)
    requires sup in g.sups && sup in w.structure && w.structure[sup] == |g.sups[sup]|
    requires w2.structure == w.structure[sup := 0] && w2.toKeep == w.toKeep + Pairs(sup, g.sups[sup])
    ensures forall x | x in w.structure :: w2.structure[x] + Count(w2.toKeep, x) == w.structure[x] + Count(w.toKeep, x)
    ensures w.toKeep <= w2.toKeep
  {
    forall x | x in w.structure ensures w2.structure[x] + Count(w2.toKeep, x) == w.structure[x] + Count(w.toKeep, x) {
      CountPairs(w.toKeep, sup, g.sups[sup], x);
    }
  }

  /** The newly kept pairs are the edges of `sup`, to distinct students left without edges. */
  lemma KeepAdvancePairs(g: Graph, w: Work, sup: Sup, g1: Graph, w2: Work)
    requires Merged(g) && sup in g.sups
    requires forall p :: p in Edges(g1) <==> p in Edges(g) && p.1 !in g.sups[sup]
    requires w2.toKeep == w.toKeep + Pairs(sup, g.sups[sup])
    requires StuNodes(g.sups[sup]) <= w2.alreadySet
    ensures forall i | |w.toKeep| <= i < |w2.toKeep| :: w2.toKeep[i] in Edges(g)
    ensures forall i | |w.toKeep| <= i < |w2.toKeep| :: StuNode(w2.toKeep[i].1) in w2.alreadySet && Edgeless(g1, w2.toKeep[i].1)
    ensures forall i, j | |w.toKeep| <= i < j < |w2.toKeep| :: w2.toKeep[i].1 != w2.toKeep[j].1
  {
    var e := g.sups[sup];
    var n := |w.toKeep|;
    forall i | n <= i < |w2.toKeep| ensures w2.toKeep[i] == (sup, e[i - n]) {
    }
    forall i | n <= i < |w2.toKeep|
      ensures w2.toKeep[i] in Edges(g) && StuNode(w2.toKeep[i].1) in w2.alreadySet
    {
      assert e[i - n] in e;
      assert StuNode(e[i - n]) in StuNodes(e);
    }
  }

  // ---------------------------------------------------------------------------
  // The steps compose

  /** A step from a state reached from (g0, w0) gives a state reached from (g0, w0). */
  lemma {:induction false} InvStep(g0: Graph, w0: Work, g: Graph, w: Work, g1: Graph, w1: Work)
    requires Inv(g0, w0, g, w) && Advance(g, w, g1, w1)
    ensures Inv(g0, w0, g1, w1)
  {
    SameKeysSameNodes(g, g0);
    var n := |w.toKeep|;
    assert w1.toKeep[..n] == w.toKeep;
    forall i | 0 <= i < n ensures w1.toKeep[i] == w.toKeep[i] {
      assert w1.toKeep[..n][i] == w1.toKeep[i];
    }
    forall i, j | 0 <= i < j < |w1.toKeep| ensures w1.toKeep[i].1 != w1.toKeep[j].1 {
      if i < n && n <= j {
        assert (w1.toKeep[j].0, w1.toKeep[j].1) in Edges(g);
      }
    }
  }

  lemma SameKeysSameNodes(g: Graph, g1: Graph)
    requires g1.sups.Keys == g.sups.Keys && g1.stus.Keys == g.stus.Keys
    ensures AllNodes(g1) == AllNodes(g)
  {
    forall n ensures n in AllNodes(g1) <==> n in AllNodes(g) {
      AllNodesKeyed(g, n);
      AllNodesKeyed(g1, n);
    }
  }

  lemma AllNodesKeyed(g: Graph, n: Node)
    ensures n in AllNodes(g) <==> Keyed(g, n)
  {
    match n
    case StuNode(stu) =>
      if stu in g.stus {
        assert StuNode(stu) in (set s | s in g.stus :: StuNode(s));
      }
    case SupNode(sup) =>
      if sup in g.sups {
        assert SupNode(sup) in (set s | s in g.sups :: SupNode(s));
      }
  }

  /** Settling a new node of a finite universe leaves fewer to settle. */
  lemma SettleShrinks(universe: set<Node>, a: set<Node>, a1: set<Node>, n: Node)
    requires a <= a1 <= universe && n in a1 && n !in a
    ensures |universe - a1| < |universe - a|
  {
    var left := universe - a;
    var left1 := universe - a1;
    assert left == left1 + (left - left1) && left1 * (left - left1) == {};
    assert n in left - left1;
  }

  lemma CountSnoc(toKeep: seq<(Sup, Stu)>, p: (Sup, Stu), sup: Sup)
    ensures Count(toKeep + [p], sup) == Count(toKeep, sup) + (if p.0 == sup then 1 else 0)
  {
    assert (toKeep + [p])[..|toKeep|] == toKeep;
  }

  /** Keeping every student of `l` with `s` adds |l| to the count of `s` and nothing to any other. */
  lemma {:induction false} CountPairs(toKeep: seq<(Sup, Stu)>, s: Sup, l: seq<Stu>, sup: Sup)
    ensures Count(toKeep + Pairs(s, l), sup) == Count(toKeep, sup) + (if sup == s then |l| else 0)
    decreases |l|
  {
    if l != [] {
      var init := l[..|l| - 1];
      CountPairs(toKeep, s, init, sup);
      assert toKeep + Pairs(s, l) == (toKeep + Pairs(s, init)) + [(s, l[|l| - 1])];
      CountSnoc(toKeep + Pairs(s, init), (s, l[|l| - 1]), sup);
    } else {
      assert toKeep + Pairs(s, l) == toKeep;
    }
  }

  // ---------------------------------------------------------------------------
  // 4-cycles, and settling a student between its two candidates

  /**
   * `is_4_cycle`: `stu` has exactly two candidates and they have at least
   * two students in common. The function's implicit `None` for the last
   * "no" is `false` here.
   */
  function Is4Cycle(g: Graph, stu: Stu): (r: Result<bool>)
    ensures r.Err? ==> r.error == PyError.KeyError
    ensures r == Ok(true) ==> stu in g.stus && |g.stus[stu]| == 2
  {
    if stu !in g.stus then Err(PyError.KeyError)
    else
      var l := g.stus[stu];
      if |l| != 2 then Ok(false)
      else if l[0] !in g.sups || l[1] !in g.sups then Err(PyError.KeyError)
      else Ok(|SetOf(g.sups[l[0]]) * SetOf(g.sups[l[1]])| >= 2)
  }

  /**
   * On a consistent graph `is_4_cycle` fails only for a missing student,
   * and says yes exactly when `stu` lies on a 4-cycle: it has two
   * candidates and some other student is linked to both.
   */
  lemma {:induction false} Is4CycleMeans(g: Graph, stu: Stu)
    requires Consistent(g)
    ensures Is4Cycle(g, stu).Err? <==> stu !in g.stus
    ensures Is4Cycle(g, stu) == Ok(true) <==>
      stu in g.stus && |g.stus[stu]| == 2 &&
      exists other :: other != stu && IsEdge(g, g.stus[stu][0], other) && IsEdge(g, g.stus[stu][1], other)
  {
    if stu in g.stus && |g.stus[stu]| == 2 {
      var l := g.stus[stu];
      assert l[0] in l && l[1] in l;
      var both := SetOf(g.sups[l[0]]) * SetOf(g.sups[l[1]]);
      assert stu in both;
      if |both| >= 2 {
        var rest := both - {stu};
        assert both == rest + {stu};
        var other :| other in rest;
        assert IsEdge(g, l[0], other) && IsEdge(g, l[1], other);
      }
      if exists other :: other != stu && IsEdge(g, l[0], other) && IsEdge(g, l[1], other) {
        var other :| other != stu && IsEdge(g, l[0], other) && IsEdge(g, l[1], other);
        var pair := {stu, other};
        assert pair <= both;
        assert |pair| == 2;
        SubsetCard(pair, both);
      }
    }
  }

  lemma SubsetCard<T>(a: set<T>, b: set<T>)
    requires a <= b
    ensures |a| <= |b|
  {
    assert b == a + (b - a) && a * (b - a) == {};
  }

  /**
   * `solve_4_cycle`: the student goes to its candidate number `coin` (the
   * draw `random.randint(0, 1)`), whose structure drops by one; both
   * candidate edges go; the student is settled and both candidates are
   * queued. A missing student, fewer than two candidates or a chosen
   * candidate without a structure entry raise before anything changes.
   */
  method Solve4Cycle(stu: Stu, structure: map<Sup, int>, graph: BipartiteGraph, alreadySet: set<Node>, coin: nat)
    returns (r: Result<Work>)
    modifies graph
    requires Merged(graph.Value()) && coin <= 1
    ensures r.Err? <==>
      stu !in old(graph.edgesStu) || |old(graph.edgesStu[stu])| < 2 || old(graph.edgesStu[stu][coin]) !in structure
    ensures r.Err? ==>
      && graph.Value() == old(graph.Value())
      && r.error == if stu in old(graph.edgesStu) && |old(graph.edgesStu[stu])| < 2 then PyError.IndexError else PyError.KeyError
    ensures r.Ok? ==> r.value.structure == structure[old(graph.edgesStu[stu][coin]) := structure[old(graph.edgesStu[stu][coin])] - 1]
    ensures r.Ok? ==> r.value.toKeep == [(old(graph.edgesStu[stu][coin]), stu)]
    ensures r.Ok? ==> r.value.alreadySet == alreadySet + {StuNode(stu)}
    ensures r.Ok? ==> r.value.toCheck == {SupNode(old(graph.edgesStu[stu][0])), SupNode(old(graph.edgesStu[stu][1]))}
    ensures r.Ok? ==> graph.Value() == Unlink(old(graph.Value()), stu)
    ensures r.Ok? ==> Advance(old(graph.Value()), Work(structure, [], alreadySet, {}), graph.Value(), r.value)
  {
    if stu !in graph.edgesStu {
      return Err(PyError.KeyError);
    }
    var supervisors := graph.edgesStu[stu];
    if |supervisors| < 2 {
      return Err(PyError.IndexError);
    }
    var sup1 := supervisors[0];
    var sup2 := supervisors[1];
    var selected := supervisors[coin];
    if selected !in structure {
      return Err(PyError.KeyError);
    }
    var structure1 := structure[selected := structure[selected] - 1];
    assert structure1 == structure[old(graph.edgesStu[stu][coin]) := structure[old(graph.edgesStu[stu][coin])] - 1];
    ghost var g := graph.Value();
    var status := graph.RemoveEdge(sup1, stu);
    status := graph.RemoveEdge(sup2, stu);
    r := Ok(Work(structure1, [(selected, stu)], alreadySet + {StuNode(stu)}, {SupNode(sup1), SupNode(sup2)}));
    UnlinkFacts(g, stu);
    AllNodesKeyed(g, SupNode(sup1));
    AllNodesKeyed(g, SupNode(sup2));
    assert selected in supervisors;
    assert supervisors == old(graph.edgesStu[stu]);
    SettleAdvance(g, graph.Value(), structure, alreadySet, stu, selected, r.value);
  }

  /**
   * `random_allocation`: the student goes to its candidate number `coin`,
   * whose structure drops by one, and loses both candidate edges; both
   * candidates and every student the chosen one still has are queued and
   * the student is settled. With a single candidate the student loses that
   * edge and only then raises IndexError.
   */
  method RandomAllocation(stu: Stu, structure: map<Sup, int>, graph: BipartiteGraph, alreadySet: set<Node>, coin: nat)
    returns (r: Result<Work>)
    modifies graph
    requires Merged(graph.Value()) && coin <= 1
    ensures r.Err? <==>
      stu !in old(graph.edgesStu) || |old(graph.edgesStu[stu])| < 2 || old(graph.edgesStu[stu][coin]) !in structure
    ensures r.Err? ==>
      r.error ==
        if stu !in old(graph.edgesStu) || (coin < |old(graph.edgesStu[stu])| && old(graph.edgesStu[stu][coin]) !in structure)
        then PyError.KeyError else PyError.IndexError
    ensures r.Err? ==>
      graph.Value() ==
        if stu in old(graph.edgesStu) && old(graph.edgesStu[stu]) != [] && coin < |old(graph.edgesStu[stu])| &&
           old(graph.edgesStu[stu][coin]) in structure
        then RemoveEdge(old(graph.Value()), old(graph.edgesStu[stu][0]), stu).graph
        else old(graph.Value())
    ensures r.Ok? ==> graph.Value() == Unlink(old(graph.Value()), stu)
    ensures r.Ok? ==> r.value.structure == structure[old(graph.edgesStu[stu][coin]) := structure[old(graph.edgesStu[stu][coin])] - 1]
    ensures r.Ok? ==> r.value.toKeep == [(old(graph.edgesStu[stu][coin]), stu)]
    ensures r.Ok? ==> r.value.alreadySet == alreadySet + {StuNode(stu)}
    ensures r.Ok? ==>
      r.value.toCheck == {SupNode(old(graph.edgesStu[stu][0])), SupNode(old(graph.edgesStu[stu][1]))} + StuNodes(graph.edges[old(graph.edgesStu[stu][coin])])
    ensures r.Ok? ==> Advance(old(graph.Value()), Work(structure, [], alreadySet, {}), graph.Value(), r.value)
  {
    if stu !in graph.edgesStu {
      return Err(PyError.KeyError);
    }
    var supervisors := graph.edgesStu[stu];
    if coin >= |supervisors| {
      return Err(PyError.IndexError);
    }
    var sup := supervisors[coin];
    if sup !in structure {
      return Err(PyError.KeyError);
    }
    var structure1 := structure[sup := structure[sup] - 1];
    assert structure1 == structure[old(graph.edgesStu[stu][coin]) := structure[old(graph.edgesStu[stu][coin])] - 1];
    ghost var g := graph.Value();
    var status := graph.RemoveEdge(supervisors[0], stu);
    if |supervisors| < 2 {
      return Err(PyError.IndexError);
    }
    status := graph.RemoveEdge(supervisors[1], stu);
    UnlinkQueued(g, stu, coin);
    var toCheck := {SupNode(supervisors[0]), SupNode(supervisors[1])} + StuNodes(graph.edges[sup]);
    r := Ok(Work(structure1, [(sup, stu)], alreadySet + {StuNode(stu)}, toCheck));
    SettleAdvance(g, graph.Value(), structure, alreadySet, stu, sup, r.value);
  }

  /** The graph once `stu` lost the edges to its first two candidates. */
  ghost function Unlink(g: Graph, stu: Stu): Graph
    requires stu in g.stus && |g.stus[stu]| >= 2
  {
    RemoveEdge(RemoveEdge(g, g.stus[stu][0], stu).graph, g.stus[stu][1], stu).graph
  }

  /**
   * Removing both candidate edges of a student with two candidates raises
   * nothing, keeps the graph merged and removes exactly those two edges,
   * leaving the student without any.
   */
  lemma {:induction false} UnlinkFacts(g: Graph, stu: Stu)
    requires Merged(g) && stu in g.stus && |g.stus[stu]| >= 2
    ensures var l := g.stus[stu];
      && RemoveEdge(g, l[0], stu).status == Done
      && RemoveEdge(RemoveEdge(g, l[0], stu).graph, l[1], stu).status == Done
    ensures var g1 := Unlink(g, stu);
      && Merged(g1) && g1.sups.Keys == g.sups.Keys && g1.stus.Keys == g.stus.Keys
      && Edges(g1) == Edges(g) - {(g.stus[stu][0], stu), (g.stus[stu][1], stu)}
      && Edgeless(g1, stu)
  {
    var l := g.stus[stu];
    assert l == [l[0], l[1]];
    assert l[0] in l && l[1] in l && l[0] != l[1];
    var g1 := RemoveEdge(g, l[0], stu).graph;
    RemoveStep(g, l[0], stu);
    RemoveEdgeConsistent(g, l[0], stu);
    RemoveEdgeEdges(g, l[0], stu);
    assert g1.stus[stu] == [l[1]];
    var g2 := RemoveEdge(g1, l[1], stu).graph;
    assert l[1] in g1.stus[stu];
    RemoveStep(g1, l[1], stu);
    RemoveEdgeConsistent(g1, l[1], stu);
    RemoveEdgeEdges(g1, l[1], stu);
    assert g2.stus[stu] == [];
    forall x | x in g2.stus ensures |g2.stus[x]| <= 2 {
      if x != stu {
        assert g2.stus[x] == g1.stus[x] == g.stus[x];
      }
    }
  }

  /**
   * After `random_allocation`'s removals the chosen candidate still has a
   * key, and everything it queues is a node of the graph.
   */
  lemma UnlinkQueued(g: Graph, stu: Stu, coin: nat)
    requires Merged(g) && stu in g.stus && |g.stus[stu]| >= 2 && coin <= 1
    ensures var l := g.stus[stu]; var g1 := Unlink(g, stu);
      && Merged(g1) && g1.sups.Keys == g.sups.Keys && g1.stus.Keys == g.stus.Keys
      && Edges(g1) <= Edges(g) && Edgeless(g1, stu)
      && l[coin] in g.sups && stu in g.sups[l[coin]]
      && {SupNode(l[0]), SupNode(l[1])} + StuNodes(g1.sups[l[coin]]) <= AllNodes(g)
  {
    var l := g.stus[stu];
    UnlinkFacts(g, stu);
    assert l[coin] in l;
    var g1 := Unlink(g, stu);
    AllNodesKeyed(g, SupNode(l[0]));
    AllNodesKeyed(g, SupNode(l[1]));
    forall n | n in StuNodes(g1.sups[l[coin]]) ensures n in AllNodes(g) {
      AllNodesKeyed(g, n);
    }
  }

  /**
   * Settling `stu` with its candidate `sel`, from a state with nothing kept
   * and nothing queued, into a graph `g1` where `stu` has lost its edges,
   * is one step of the propagation whatever nodes of `g` it queues.
   */
  lemma SettleAdvance(g: Graph, g1: Graph, structure: map<Sup, int>, alreadySet: set<Node>, stu: Stu, sel: Sup, w1: Work)
    requires Merged(g1) && g1.sups.Keys == g.sups.Keys && g1.stus.Keys == g.stus.Keys
    requires Edges(g1) <= Edges(g) && Edgeless(g1, stu)
    requires stu in g.stus && sel in g.sups && stu in g.sups[sel] && sel in structure
    requires w1.structure == structure[sel := structure[sel] - 1] && w1.toKeep == [(sel, stu)]
    requires w1.alreadySet == alreadySet + {StuNode(stu)} && w1.toCheck <= AllNodes(g)
    ensures Advance(g, Work(structure, [], alreadySet, {}), g1, w1)
  {
    AllNodesKeyed(g, StuNode(stu));
    EdgesMember(g, sel, stu);
    forall x | x in structure ensures Count(w1.toKeep, x) == if x == sel then 1 else 0 {
      CountSnoc([], (sel, stu), x);
    }
  }
}
