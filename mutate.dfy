/**
 * `mutate` of `mutation/mutate.py`: every edge of a copy of the solution's
 * graph is, with the given probability, either transferred to a
 * supervisor with spare capacity or swapped with a student of another
 * supervisor. `random.random()` is the draw oracle `random` (the k-th
 * draw), `random.choice` of a set or list is an arbitrary choice, and the
 * dictionary order of the supervisors is the enumeration `order`.
 */
module Mutation {
  import opened Outcomes
  import opened GraphModel
  import opened GraphOps
  import opened Bipartite
  import Solutions

  /** One mutation applied to the graph. */
  datatype Op =
    | Move(stu: Stu, from: Sup, to: Sup)                    // transferStudent1(stu, from, to)
    | Exchange(stu1: Stu, sup1: Sup, stu2: Stu, sup2: Sup)  // swapStudents(stu1, sup1, stu2, sup2)

  function Apply(g: Graph, op: Op): Graph {
    match op
    case Move(stu, from, to) => Transfer1(g, stu, from, to).graph
    case Exchange(stu1, sup1, stu2, sup2) => Swap(g, stu1, sup1, stu2, sup2).graph
  }

  /** The graph after the mutations in order. */
  function Replay(g: Graph, ops: seq<Op>): Graph
    decreases |ops|
  {
    if ops == [] then g else Apply(Replay(g, ops[..|ops| - 1]), ops[|ops| - 1])
  }

  /** A transfer never targets its source and a swap pairs two different supervisors. */
  predicate Genuine(op: Op) {
    match op
    case Move(_, from, to) => from != to
    case Exchange(_, sup1, _, sup2) => sup1 != sup2
  }

  /**
   * `mutate`. The probabilities of a swap and of a transfer are divided by
   * their sum (a zero sum raises `ZeroDivisionError`); a swap with no
   * other supervisor to choose raises `IndexError`. `ops` lists the
   * mutations performed.
   */
  method Mutate(solution: BipartiteGraph, ghost students: set<Stu>, quotas: map<Sup, int>, order: seq<Sup>,
                probability: real, swapProbability: real, transferProbability: real, random: nat -> real)
    returns (r: Result<BipartiteGraph>, ghost ops: seq<Op>)
    requires Allocation(solution.Value(), students, quotas)
    requires NoDup(order) && forall sup :: sup in order <==> sup in solution.edges
    ensures r.Err? ==> (r.error == ZeroDivisionError && swapProbability + transferProbability == 0.0) ||
                       (r.error == PyError.IndexError && |quotas| == 1)
    ensures swapProbability + transferProbability == 0.0 ==> r == Err(ZeroDivisionError)
    ensures r.Ok? ==> fresh(r.value) && Allocation(r.value.Value(), students, quotas)
    ensures r.Ok? ==> r.value.Value() == Replay(solution.Value(), ops) && forall i | 0 <= i < |ops| :: Genuine(ops[i])
    ensures swapProbability + transferProbability != 0.0 && (forall k :: random(k) > probability) ==>
      r.Ok? && ops == [] && r.value.Value() == solution.Value()
  {
    ops := [];
    var graph := solution.Copy();
    var transferable := Solutions.GetTransferable(solution.Value(), quotas);
    var canTransferTo := transferable.value.1;
    var supEdges := graph.edges;
    var allSupervisors := supEdges.Keys;
    var probSum := swapProbability + transferProbability;
    if probSum == 0.0 {
      return Err(ZeroDivisionError), ops;
    }
    var transferShare := transferProbability / probSum;
    var ok;
    ok, ops := MutateRows(graph, students, quotas, order, supEdges, probability, transferShare, random, canTransferTo, allSupervisors);
    r := if ok then Ok(graph) else Err(PyError.IndexError);
  }

  /** The outer loop of `mutate`, over the supervisors in the order `supEdges` lists them. */
  method MutateRows(graph: BipartiteGraph, ghost students: set<Stu>, quotas: map<Sup, int>, order: seq<Sup>,
                    supEdges: map<Sup, seq<Stu>>, probability: real, transferShare: real, random: nat -> real,
                    canTransferTo: set<Sup>, allSupervisors: set<Sup>)
    returns (ok: bool, ghost ops: seq<Op>)
    modifies graph
    requires Allocation(graph.Value(), students, quotas)
    requires canTransferTo == Solutions.TransferableTo(graph.Value(), quotas) && allSupervisors == quotas.Keys
    requires forall sup | sup in order :: sup in supEdges && sup in quotas
    ensures !ok ==> |quotas| == 1
    ensures ok ==> Allocation(graph.Value(), students, quotas)
    ensures ok ==> graph.Value() == Replay(old(graph.Value()), ops) && forall j | 0 <= j < |ops| :: Genuine(ops[j])
    ensures (forall k :: random(k) > probability) ==> ok && ops == []
  {
    ok, ops := true, [];
    var canTransferTo := canTransferTo;
    var k: nat := 0;
    for i := 0 to |order|
      invariant Allocation(graph.Value(), students, quotas)
      invariant canTransferTo == Solutions.TransferableTo(graph.Value(), quotas)
      invariant graph.Value() == Replay(old(graph.Value()), ops) && forall j | 0 <= j < |ops| :: Genuine(ops[j])
      invariant (forall k :: random(k) > probability) ==> ops == []
    {
      var sup := order[i];
      ghost var rowOps: seq<Op>;
      ok, k, canTransferTo, rowOps :=
        MutateSupervisor(graph, students, quotas, sup, supEdges[sup], probability, transferShare, random, k, canTransferTo, allSupervisors);
      if !ok {
        assert quotas.Keys == {sup};
        return;
      }
      ReplayAppend(old(graph.Value()), ops, rowOps);
      ops := ops + rowOps;
    }
  }

  /**
   * The inner loop of `mutate` for supervisor `sup`, over the students it
   * had when the loops began (`listed`).
   */
  method MutateSupervisor(graph: BipartiteGraph, ghost students: set<Stu>, quotas: map<Sup, int>, sup: Sup, listed: seq<Stu>,
                          probability: real, transferShare: real, random: nat -> real, k: nat,
                          canTransferTo: set<Sup>, allSupervisors: set<Sup>)
    returns (ok: bool, k': nat, canTransferTo': set<Sup>, ghost ops: seq<Op>)
    modifies graph
    requires Allocation(graph.Value(), students, quotas) && sup in quotas
    requires canTransferTo == Solutions.TransferableTo(graph.Value(), quotas) && allSupervisors == quotas.Keys
    ensures ok ==> Allocation(graph.Value(), students, quotas)
    ensures ok ==> canTransferTo' == Solutions.TransferableTo(graph.Value(), quotas)
    ensures !ok ==> quotas.Keys == {sup}
    ensures ok ==> graph.Value() == Replay(old(graph.Value()), ops) && forall j | 0 <= j < |ops| :: Genuine(ops[j])
    ensures (forall k :: random(k) > probability) ==> ok && ops == []
  {
    ok, k', canTransferTo', ops := true, k, canTransferTo, [];
    for j := 0 to |listed|
      invariant Allocation(graph.Value(), students, quotas)
      invariant canTransferTo' == Solutions.TransferableTo(graph.Value(), quotas)
      invariant graph.Value() == Replay(old(graph.Value()), ops) && forall j | 0 <= j < |ops| :: Genuine(ops[j])
      invariant (forall k :: random(k) > probability) ==> ops == []
    {
      ghost var op: Option<Op>;
      ghost var before := ops;
      ok, k', canTransferTo', op :=
        MutateEdge(graph, students, quotas, sup, listed[j], probability, transferShare, random, k', canTransferTo', allSupervisors);
      if !ok {
        return;
      }
      if op.Some? {
        ops := ops + [op.value];
        assert ops[..|ops| - 1] == before;
      }
    }
  }

  /**
   * The body of the inner loop for the edge (`sup`, `stu`): when it is
   * still an edge, one draw decides whether to mutate it and a second
   * whether to transfer (if a transfer is possible) or swap. `ok` is false
   * when a swap finds no other supervisor.
   */
  method MutateEdge(graph: BipartiteGraph, ghost students: set<Stu>, quotas: map<Sup, int>, sup: Sup, stu: Stu,
                    probability: real, transferShare: real, random: nat -> real, k: nat,
                    canTransferTo: set<Sup>, allSupervisors: set<Sup>)
    returns (ok: bool, k': nat, canTransferTo': set<Sup>, ghost op: Option<Op>)
    modifies graph
    requires Allocation(graph.Value(), students, quotas) && sup in quotas
    requires canTransferTo == Solutions.TransferableTo(graph.Value(), quotas) && allSupervisors == quotas.Keys
    ensures ok ==> Allocation(graph.Value(), students, quotas)
    ensures ok ==> canTransferTo' == Solutions.TransferableTo(graph.Value(), quotas)
    ensures !ok ==> quotas.Keys == {sup}
    ensures ok && op.None? ==> graph.Value() == old(graph.Value())
    ensures ok && op.Some? ==> graph.Value() == Apply(old(graph.Value()), op.value) && Genuine(op.value)
    ensures random(k) > probability ==> ok && op.None?
  {
    k', canTransferTo', ok, op := k, canTransferTo, true, None;
    if !IsEdge(graph.Value(), sup, stu) {
      return;
    }
    var n := random(k');
    k' := k' + 1;
    if n > probability {
      return;
    }
    var m := random(k');
    k' := k' + 1;
    ghost var g := graph.Value();
    if m <= transferShare && |graph.edges[sup]| > 1 && !(|canTransferTo'| == 1 && sup in canTransferTo') && |canTransferTo'| > 0 {
      // transfer
      OtherMember(canTransferTo', sup);
      canTransferTo' := canTransferTo' - {sup};
      var toSup :| toSup in canTransferTo';
      var _ := graph.TransferStudent1(stu, sup, toSup);
      canTransferTo' := canTransferTo' + {sup};
      if !(|graph.edges[toSup]| < quotas[toSup]) {
        canTransferTo' := canTransferTo' - {toSup};
      }
      Transfer1KeepsAllocation(g, students, quotas, stu, sup, toSup);
      TransferableAfterMove(g, students, quotas, stu, sup, toSup);
      op := Some(Move(stu, sup, toSup));
    } else {
      // swap
      var others := allSupervisors - {sup};
      if others == {} {
        return false, k', canTransferTo', None;
      }
      var sup2 :| sup2 in others;
      assert graph.edges[sup2][0] in graph.edges[sup2];
      var stu2 :| stu2 in graph.edges[sup2];
      var _ := graph.SwapStudents(stu, sup, stu2, sup2);
      SwapKeepsAllocation(g, students, quotas, stu, sup, stu2, sup2);
      TransferableAfterSwap(g, students, quotas, stu, sup, stu2, sup2);
      op := Some(Exchange(stu, sup, stu2, sup2));
    }
  }

  /** Replaying two runs of mutations one after the other. */
  lemma {:induction false} ReplayAppend(g: Graph, ops: seq<Op>, more: seq<Op>)
    ensures Replay(g, ops + more) == Replay(Replay(g, ops), more)
    decreases |more|
  {
    if more == [] {
      assert ops + more == ops;
    } else {
      var last := |more| - 1;
      assert (ops + more)[..|ops + more| - 1] == ops + more[..last];
      ReplayAppend(g, ops, more[..last]);
    }
  }

  /** The transfer guard leaves a target other than the source. */
  lemma OtherMember(s: set<Sup>, sup: Sup)
    requires !(|s| == 1 && sup in s) && |s| > 0
    ensures s - {sup} != {}
  {
    if sup in s {
      assert s == (s - {sup}) + {sup};
      assert |s| == |s - {sup}| + 1;
    } else {
      assert s - {sup} == s;
    }
  }

  /**
   * After a transfer from `from` to `to`, the supervisors below quota are
   * the old ones plus `from` (which lost a student), with `to` kept only
   * while it stays below quota: the update `mutate` makes to `canTransferTo`.
   */
  lemma TransferableAfterMove(g: Graph, students: set<Stu>, quotas: map<Sup, int>, stu: Stu, from: Sup, to: Sup)
    requires Allocation(g, students, quotas) && IsEdge(g, from, stu) && from != to && to in g.sups
    ensures var h := Transfer1(g, stu, from, to).graph;
      var added := (Solutions.TransferableTo(g, quotas) - {from}) + {from};
      Solutions.TransferableTo(h, quotas) ==
        if |h.sups[to]| < quotas[to] then added else added - {to}
  {
    assert g.stus[stu] == [from] by { assert g.stus[stu][0] == from; }
    Transfer1Facts(g, stu, from, to);
    TransferableByDegrees(g, Transfer1(g, stu, from, to).graph, quotas, from, to);
  }

  /** The set update of `TransferableAfterMove`, stated on degrees alone. */
  lemma TransferableByDegrees(g: Graph, h: Graph, quotas: map<Sup, int>, from: Sup, to: Sup)
    requires g.sups.Keys == quotas.Keys && h.sups.Keys == g.sups.Keys && from in g.sups && to in g.sups && from != to
    requires forall sup | sup in g.sups :: 1 <= |g.sups[sup]| <= quotas[sup]
    requires Degree(h, from) == Degree(g, from) - 1 && Degree(h, to) == Degree(g, to) + 1
    requires forall s | s != from && s != to :: Degree(h, s) == Degree(g, s)
    ensures var added := (Solutions.TransferableTo(g, quotas) - {from}) + {from};
      Solutions.TransferableTo(h, quotas) ==
        if |h.sups[to]| < quotas[to] then added else added - {to}
  {
    var added := (Solutions.TransferableTo(g, quotas) - {from}) + {from};
    var expected := if |h.sups[to]| < quotas[to] then added else added - {to};
    forall s ensures s in Solutions.TransferableTo(h, quotas) <==> s in expected {
      if s in g.sups && s != from && s != to {
        assert Degree(h, s) == Degree(g, s);
      }
    }
  }

  /** A swap keeps every degree, so the supervisors below quota stay the same. */
  lemma TransferableAfterSwap(g: Graph, students: set<Stu>, quotas: map<Sup, int>, stu1: Stu, sup1: Sup, stu2: Stu, sup2: Sup)
    requires Allocation(g, students, quotas) && IsEdge(g, sup1, stu1) && IsEdge(g, sup2, stu2) && sup1 != sup2
    ensures Solutions.TransferableTo(Swap(g, stu1, sup1, stu2, sup2).graph, quotas) == Solutions.TransferableTo(g, quotas)
  {
    assert g.stus[stu1] == [sup1] by { assert g.stus[stu1][0] == sup1; }
    assert g.stus[stu2] == [sup2] by { assert g.stus[stu2][0] == sup2; }
    SwapFacts(g, stu1, sup1, stu2, sup2);
    TransferableSameDegrees(g, Swap(g, stu1, sup1, stu2, sup2).graph, quotas);
  }

  /** Supervisors below quota depend only on the degrees. */
  lemma TransferableSameDegrees(g: Graph, h: Graph, quotas: map<Sup, int>)
    requires g.sups.Keys <= quotas.Keys && h.sups.Keys == g.sups.Keys
    requires forall s :: Degree(h, s) == Degree(g, s)
    ensures Solutions.TransferableTo(h, quotas) == Solutions.TransferableTo(g, quotas)
  {
    forall s | s in g.sups ensures |h.sups[s]| == |g.sups[s]| {
      assert Degree(h, s) == Degree(g, s);
    }
  }
}
