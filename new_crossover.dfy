/**
 * `crossover10` of `crossover/newCrossover.py`: merge the two parents and
 * list every ordered pair of different students whose candidate
 * supervisors in the merge have exactly two in common.
 */
module NewCrossover {
  import opened Outcomes
  import opened GraphModel
  import opened Bipartite

  /** Two different students of `m` whose candidate sets share exactly two supervisors. */
  predicate SharesTwo(m: Graph, a: Stu, b: Stu) {
    a in m.stus && b in m.stus && a != b && |SetOf(m.stus[a]) * SetOf(m.stus[b])| == 2
  }

  /** The pairs the inner loop finds for `a`, against `others` in order. */
  function Row(m: Graph, a: Stu, others: seq<Stu>): seq<(Stu, Stu)>
    decreases |others|
  {
    if others == [] then []
    else
      var b := others[|others| - 1];
      Row(m, a, others[..|others| - 1]) + if SharesTwo(m, a, b) then [(a, b)] else []
  }

  /** The pairs both loops find: one `Row` per student of `firsts`, in order. */
  function Rows(m: Graph, firsts: seq<Stu>, others: seq<Stu>): seq<(Stu, Stu)>
    decreases |firsts|
  {
    if firsts == [] then []
    else Rows(m, firsts[..|firsts| - 1], others) + Row(m, firsts[|firsts| - 1], others)
  }

  /** The inner loop of `crossover10` for one student `stu` of the merged graph. */
  method FindRow(stuEdges: map<Stu, seq<Sup>>, ghost merged: Graph, stu: Stu, order: seq<Stu>)
    returns (row: seq<(Stu, Stu)>)
    requires stuEdges == merged.stus && stu in stuEdges
    requires forall s | s in order :: s in stuEdges
    ensures row == Row(merged, stu, order)
  {
    row := [];
    for j := 0 to |order|
      invariant row == Row(merged, stu, order[..j])
    {
      var stu2 := order[j];
      assert order[..j + 1][..j] == order[..j];
      if stu != stu2 {
        var n1 := SetOf(stuEdges[stu]);
        var n2 := SetOf(stuEdges[stu2]);
        if |n1 * n2| == 2 {
          row := row + [(stu, stu2)];
        }
      }
    }
    assert order[..|order|] == order;
  }

  /**
   * `crossover10`. `order` is the students in the order of the merged
   * graph's student index (the order of `solution1`'s). A failed merge
   * raises its KeyError; `merged` is the merged graph.
   */
  method Crossover10(solution1: BipartiteGraph, solution2: BipartiteGraph, order: seq<Stu>)
    returns (r: Result<seq<(Stu, Stu)>>, ghost merged: Graph)
    requires NoDup(order) && forall stu :: stu in order <==> stu in solution1.edgesStu
    ensures r.Err? <==> !MergeOk(solution1.Value(), solution2.Value())
    ensures r.Err? ==> r.error == PyError.KeyError
    ensures r.Ok? ==> MergedFrom(merged, solution1.Value(), solution2.Value()) && r.value == Rows(merged, order, order)
  {
    var mergedGraph := solution1.Merge(solution2);
    if mergedGraph.Err? {
      return Err(mergedGraph.error), solution1.Value();
    }
    merged := mergedGraph.value.Value();
    var stuEdges := mergedGraph.value.edgesStu;
    var cycles: seq<(Stu, Stu)> := [];
    for i := 0 to |order|
      invariant cycles == Rows(merged, order[..i], order)
    {
      var row := FindRow(stuEdges, merged, order[i], order);
      assert order[..i + 1][..i] == order[..i];
      cycles := cycles + row;
    }
    assert order[..|order|] == order;
    r := Ok(cycles);
  }

  lemma {:induction false} RowMembers(m: Graph, a: Stu, others: seq<Stu>)
    ensures forall b :: (a, b) in Row(m, a, others) <==> b in others && SharesTwo(m, a, b)
    ensures forall p | p in Row(m, a, others) :: p.0 == a
    decreases |others|
  {
    if others != [] {
      var last := |others| - 1;
      RowMembers(m, a, others[..last]);
      assert others == others[..last] + [others[last]];
    }
  }

  /**
   * The result is complete and exact: (a, b) is listed iff both are in
   * `order` and they are different students sharing two candidates.
   */
  lemma {:induction false} RowsMembers(m: Graph, firsts: seq<Stu>, others: seq<Stu>)
    ensures forall a, b :: (a, b) in Rows(m, firsts, others) <==> a in firsts && b in others && SharesTwo(m, a, b)
    decreases |firsts|
  {
    if firsts != [] {
      var last := |firsts| - 1;
      RowsMembers(m, firsts[..last], others);
      RowMembers(m, firsts[last], others);
      assert firsts == firsts[..last] + [firsts[last]];
    }
  }

  /** The pair list is symmetric: (a, b) is listed iff (b, a) is. */
  lemma PairsSymmetric(m: Graph, order: seq<Stu>, a: Stu, b: Stu)
    ensures (a, b) in Rows(m, order, order) <==> (b, a) in Rows(m, order, order)
  {
    RowsMembers(m, order, order);
    if a in m.stus && b in m.stus {
      assert SetOf(m.stus[a]) * SetOf(m.stus[b]) == SetOf(m.stus[b]) * SetOf(m.stus[a]);
    }
  }

  /**
   * On two complete allocations, a listed pair is a 4-cycle of the merge:
   * both students have the same two candidates.
   */
  lemma PairsAreFourCycles(g1: Graph, g2: Graph, m: Graph, students: set<Stu>, quotas: map<Sup, int>, order: seq<Stu>, a: Stu, b: Stu)
    requires Allocation(g1, students, quotas) && Allocation(g2, students, quotas)
    requires MergedFrom(m, g1, g2)
    requires (a, b) in Rows(m, order, order)
    ensures a in m.stus && b in m.stus && a != b
    ensures |m.stus[a]| == 2 && |m.stus[b]| == 2 && SetOf(m.stus[a]) == SetOf(m.stus[b])
  {
    RowsMembers(m, order, order);
    MergeOfAllocations(g1, g2, m, students, quotas);
    var both := SetOf(m.stus[a]) * SetOf(m.stus[b]);
    TwoOfAtMostTwo(m.stus[a], both);
    TwoOfAtMostTwo(m.stus[b], both);
  }

  /** A list of at most two distinct elements containing a two-element set is exactly that set. */
  lemma TwoOfAtMostTwo<T>(l: seq<T>, s: set<T>)
    requires NoDup(l) && |l| <= 2 && s <= SetOf(l) && |s| == 2
    ensures |l| == 2 && SetOf(l) == s
  {
    NoDupCard(l);
    assert |SetOf(l)| == |l|;
    var rest := SetOf(l) - s;
    assert SetOf(l) == rest + s && rest * s == {};
    assert |rest| == 0;
    assert SetOf(l) == s + rest;
  }
}
