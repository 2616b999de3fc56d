/**
 * The compound edge operations of pystsup/data/bipartiteGraph.py, on graph
 * values: guarded and unguarded transfer, swap and `removeExcept`.
 */
module GraphOps {
  import opened GraphModel

  /** The guard under which `transferStudent` moves the student. */
  predicate TransferAllowed(g: Graph, quotas: map<Sup, int>, stu: Stu, from: Sup, to: Sup) {
    && from in g.sups && |g.sups[from]| >= 2
    && to in g.sups && to in quotas && |g.sups[to]| + 1 <= quotas[to]
    && stu in g.stus && IsEdge(g, from, stu)
  }

  /**
   * `transferStudent`: when `from` keeps at least one student, `to` stays
   * within quota and the edge exists, add the edge to `to` and remove the
   * edge from `from`; otherwise nothing happens. The degree of `to` and the
   * quota table are only consulted once `from` has two or more students.
   */
  function Transfer(g: Graph, quotas: map<Sup, int>, stu: Stu, from: Sup, to: Sup): (r: Removal)
    ensures r.status == KeyError <==> from !in g.sups || (|g.sups[from]| >= 2 && (to !in g.sups || to !in quotas))
    ensures !TransferAllowed(g, quotas, stu, from, to) ==> r.graph == g
  {
    if from !in g.sups then Removal(g, KeyError)
    else if |g.sups[from]| < 2 then Removal(g, Done)
    else if to !in g.sups || to !in quotas then Removal(g, KeyError)
    else if |g.sups[to]| + 1 > quotas[to] then Removal(g, Done)
    else if !(stu in g.stus && IsEdge(g, from, stu)) then Removal(g, Done)
    else RemoveEdge(AddEdge(g, to, stu), from, stu)
  }

  /** `transferStudent` with the missing `from != to` check: a transfer to oneself is a no-op. */
  function TransferChecked(g: Graph, quotas: map<Sup, int>, stu: Stu, from: Sup, to: Sup): (r: Removal)
    ensures from == to ==> r.graph == g
  {
    if from == to then Removal(g, if from in g.sups then Done else KeyError)
    else Transfer(g, quotas, stu, from, to)
  }

  /** `transferStudent1`: add the edge to `to`, then remove the edge from `from`, unchecked. */
  function Transfer1(g: Graph, stu: Stu, from: Sup, to: Sup): (r: Removal)
    ensures r.status == Done <==> IsEdge(AddEdge(g, to, stu), from, stu)
  {
    RemoveEdge(AddEdge(g, to, stu), from, stu)
  }

  /**
   * `swapStudents`: remove (sup1, stu1) and (sup2, stu2), then add
   * (sup1, stu2) and (sup2, stu1); an exception stops the sequence.
   */
  function Swap(g: Graph, stu1: Stu, sup1: Sup, stu2: Stu, sup2: Sup): (r: Removal)
    ensures r.status == Done ==> IsEdge(r.graph, sup1, stu2) && IsEdge(r.graph, sup2, stu1)
  {
    var r1 := RemoveEdge(g, sup1, stu1);
    if r1.status != Done then r1
    else
      var r2 := RemoveEdge(r1.graph, sup2, stu2);
      if r2.status != Done then r2
      else Removal(AddEdge(AddEdge(r2.graph, sup1, stu2), sup2, stu1), Done)
  }

  /**
   * `removeExcept` as written: a `for` loop over the student's live list that
   * removes every other supervisor. Removing shifts the list left, so the
   * loop index skips the element that slides into the removed position.
   */
  function RemoveExceptFrom(g: Graph, sup: Sup, stu: Stu, i: nat): (r: Removal)
    requires stu in g.stus
    ensures r.graph.stus.Keys == g.stus.Keys && r.graph.sups.Keys == g.sups.Keys
    decreases |g.stus[stu]| - i
  {
    if i >= |g.stus[stu]| then Removal(g, Done)
    else if g.stus[stu][i] == sup then RemoveExceptFrom(g, sup, stu, i + 1)
    else
      var r := RemoveEdge(g, g.stus[stu][i], stu);
      if r.status != Done then r else RemoveExceptFrom(r.graph, sup, stu, i + 1)
  }

  // ---------------------------------------------------------------------------
  // Properties

  /**
   * A permitted transfer between two different supervisors moves exactly one
   * edge and keeps the graph consistent; `from` loses one student and `to`
   * gains one unless it already had that student.
   */
  lemma TransferMoves(g: Graph, quotas: map<Sup, int>, stu: Stu, from: Sup, to: Sup)
    requires Consistent(g) && from != to && TransferAllowed(g, quotas, stu, from, to)
    ensures var r := Transfer(g, quotas, stu, from, to);
      && r.status == Done
      && Consistent(r.graph)
      && Edges(r.graph) == Edges(g) - {(from, stu)} + {(to, stu)}
      && Degree(r.graph, from) == Degree(g, from) - 1
      && Degree(r.graph, to) == Degree(g, to) + (if IsEdge(g, to, stu) then 0 else 1)
      && (forall s | s != from && s != to :: Degree(r.graph, s) == Degree(g, s))
  {
    var a := AddEdge(g, to, stu);
    var r := RemoveEdge(a, from, stu);
    assert Transfer(g, quotas, stu, from, to) == r;
    assert IsEdge(a, from, stu);
    assert Consistent(r.graph) by {
      AddEdgeConsistent(g, to, stu);
      RemoveEdgeConsistent(a, from, stu);
    }
    assert Edges(r.graph) == Edges(g) - {(from, stu)} + {(to, stu)} by {
      AddEdgeEdges(g, to, stu);
      assert NoDup(a.sups[from]) by { AddEdgeConsistent(g, to, stu); }
      RemoveEdgeEdges(a, from, stu);
      MoveSets(Edges(g), Edges(a), Edges(r.graph), (from, stu), (to, stu));
    }
    AddEdgeDegrees(g, to, stu);
    RemoveEdgeDegrees(a, from, stu);
  }

  lemma MoveSets<T>(e0: set<T>, e1: set<T>, e2: set<T>, p: T, q: T)
    requires e1 == e0 + {q} && e2 == e1 - {p} && p != q
    ensures e2 == e0 - {p} + {q}
  {
  }

  /** As written, a transfer to the same supervisor deletes the edge: a valid allocation loses a student. */
  lemma {:induction false} TransferToSelfDropsStudent()
    ensures var g := Graph(map["A" := ["x", "y"]], map["x" := ["A"], "y" := ["A"]]);
      && Allocation(g, {"x", "y"}, map["A" := 3])
      && Transfer(g, map["A" := 3], "x", "A", "A").status == Done
      && Transfer(g, map["A" := 3], "x", "A", "A").graph.stus["x"] == []
  {
    var g := Graph(map["A" := ["x", "y"]], map["x" := ["A"], "y" := ["A"]]);
    assert g.sups["A"][0] == "x";
    assert RemoveFirst(g.sups["A"], "x") == ["y"];
    assert RemoveFirst(g.stus["x"], "A") == [];
  }

  /**
   * With the `from != to` check, a transfer never leaves a student without a
   * supervisor, and a permitted one keeps a complete allocation complete.
   */
  lemma TransferCheckedKeepsAllocation(g: Graph, students: set<Stu>, quotas: map<Sup, int>, stu: Stu, from: Sup, to: Sup)
    requires Allocation(g, students, quotas)
    ensures Allocation(TransferChecked(g, quotas, stu, from, to).graph, students, quotas)
  {
    if from != to && TransferAllowed(g, quotas, stu, from, to) {
      TransferMoves(g, quotas, stu, from, to);
      Transfer1KeepsAllocation(g, students, quotas, stu, from, to);
    }
  }

  /**
   * `transferStudent1` between two different supervisors, when `from` keeps a
   * student and `to` has room, keeps a complete allocation complete.
   */
  lemma {:induction false} Transfer1KeepsAllocation(g: Graph, students: set<Stu>, quotas: map<Sup, int>, stu: Stu, from: Sup, to: Sup)
    requires Allocation(g, students, quotas)
    requires IsEdge(g, from, stu) && from != to && to in g.sups
    requires |g.sups[from]| >= 2 && |g.sups[to]| < quotas[to]
    ensures Transfer1(g, stu, from, to).status == Done
    ensures Allocation(Transfer1(g, stu, from, to).graph, students, quotas)
  {
    assert g.stus[stu] == [from] by { assert g.stus[stu][0] == from; }
    var r := Transfer1(g, stu, from, to);
    Transfer1Facts(g, stu, from, to);
    Transfer1Consistent(g, stu, from, to);
    forall s | s in r.graph.sups ensures 1 <= Degree(r.graph, s) <= quotas[s] {
      if s != from && s != to {
        assert Degree(r.graph, s) == Degree(g, s);
      }
    }
    forall s | s in r.graph.stus ensures |r.graph.stus[s]| == 1 {
      if s != stu {
        assert r.graph.stus[s] == g.stus[s];
      }
    }
    AllocationIntro(r.graph, students, quotas);
  }

  /** In that situation the structure changes by one on each side. */
  lemma Transfer1Structure(g: Graph, stu: Stu, from: Sup, to: Sup)
    requires from in g.sups && stu in g.sups[from] && stu in g.stus && g.stus[stu] == [from] && from != to && to in g.sups
    ensures Structure(Transfer1(g, stu, from, to).graph) == Structure(g)[from := |g.sups[from]| - 1][to := |g.sups[to]| + 1]
  {
    var r := Transfer1(g, stu, from, to);
    Transfer1Facts(g, stu, from, to);
    DegreesToStructure(g, r.graph, from, to);
    assert Degree(r.graph, from) == |g.sups[from]| - 1 && Degree(r.graph, to) == |g.sups[to]| + 1;
  }

  /** The effect of `transferStudent1` for a student whose only supervisor is `from`. */
  lemma Transfer1Facts(g: Graph, stu: Stu, from: Sup, to: Sup)
    requires from in g.sups && stu in g.sups[from] && stu in g.stus && g.stus[stu] == [from] && from != to && to in g.sups
    ensures var r := Transfer1(g, stu, from, to);
      && r.status == Done
      && r.graph.sups.Keys == g.sups.Keys && r.graph.stus.Keys == g.stus.Keys
      && r.graph.stus[stu] == [to]
      && (forall s | s in g.stus && s != stu :: r.graph.stus[s] == g.stus[s])
      && Degree(r.graph, from) == Degree(g, from) - 1
      && Degree(r.graph, to) == Degree(g, to) + 1
      && (forall s | s != from && s != to :: Degree(r.graph, s) == Degree(g, s))
  {
    var a := AddEdge(g, to, stu);
    AddStep(g, to, stu);
    RemoveStep(a, from, stu);
    assert RemoveFirst([from, to], from) == [to];
  }

  /** `transferStudent1` keeps the graph consistent. */
  lemma Transfer1Consistent(g: Graph, stu: Stu, from: Sup, to: Sup)
    requires Consistent(g)
    ensures Consistent(Transfer1(g, stu, from, to).graph)
  {
    AddEdgeConsistent(g, to, stu);
    RemoveEdgeConsistent(AddEdge(g, to, stu), from, stu);
  }

  lemma DegreesToStructure(g: Graph, h: Graph, from: Sup, to: Sup)
    requires from in g.sups && to in g.sups && h.sups.Keys == g.sups.Keys
    requires forall s | s != from && s != to :: Degree(h, s) == Degree(g, s)
    ensures Structure(h) == Structure(g)[from := Degree(h, from)][to := Degree(h, to)]
  {
    forall s | s in g.sups ensures Structure(h)[s] == Structure(g)[from := Degree(h, from)][to := Degree(h, to)][s] {
      assert Degree(h, s) == |h.sups[s]| && Degree(g, s) == |g.sups[s]|;
    }
  }

  lemma AllocationIntro(g: Graph, students: set<Stu>, quotas: map<Sup, int>)
    requires Consistent(g) && g.sups.Keys == quotas.Keys && g.stus.Keys == students
    requires forall sup | sup in g.sups :: 1 <= Degree(g, sup) <= quotas[sup]
    requires forall stu | stu in g.stus :: |g.stus[stu]| == 1
    ensures Allocation(g, students, quotas)
  {
  }

  /**
   * Swapping the students of two different supervisors keeps a complete
   * allocation complete and exchanges the two edges.
   */
  lemma SwapKeepsAllocation(g: Graph, students: set<Stu>, quotas: map<Sup, int>, stu1: Stu, sup1: Sup, stu2: Stu, sup2: Sup)
    requires Allocation(g, students, quotas)
    requires IsEdge(g, sup1, stu1) && IsEdge(g, sup2, stu2) && sup1 != sup2
    ensures var r := Swap(g, stu1, sup1, stu2, sup2);
      && r.status == Done
      && Allocation(r.graph, students, quotas)
      && Edges(r.graph) == Edges(g) - {(sup1, stu1), (sup2, stu2)} + {(sup1, stu2), (sup2, stu1)}
  {
    assert g.stus[stu1] == [sup1] by { assert g.stus[stu1][0] == sup1; }
    assert g.stus[stu2] == [sup2] by { assert g.stus[stu2][0] == sup2; }
    var r := Swap(g, stu1, sup1, stu2, sup2);
    SwapFacts(g, stu1, sup1, stu2, sup2);
    SwapConsistent(g, stu1, sup1, stu2, sup2);
    SwapEdges(g, stu1, sup1, stu2, sup2);
    forall s | s in r.graph.sups ensures 1 <= Degree(r.graph, s) <= quotas[s] {
      assert Degree(r.graph, s) == Degree(g, s);
    }
    forall s | s in r.graph.stus ensures |r.graph.stus[s]| == 1 {
      if s != stu1 && s != stu2 {
        assert r.graph.stus[s] == g.stus[s];
      }
    }
    AllocationIntro(r.graph, students, quotas);
  }

  /** Such a swap leaves the structure unchanged. */
  lemma SwapStructure(g: Graph, stu1: Stu, sup1: Sup, stu2: Stu, sup2: Sup)
    requires IsEdge(g, sup1, stu1) && IsEdge(g, sup2, stu2) && sup1 != sup2
    requires g.stus[stu1] == [sup1] && g.stus[stu2] == [sup2]
    ensures Structure(Swap(g, stu1, sup1, stu2, sup2).graph) == Structure(g)
  {
    var r := Swap(g, stu1, sup1, stu2, sup2);
    SwapFacts(g, stu1, sup1, stu2, sup2);
    forall s | s in g.sups ensures Structure(r.graph)[s] == Structure(g)[s] {
      assert Degree(r.graph, s) == Degree(g, s);
    }
  }

  /** The effect of `swapStudents` on two students whose only supervisors are `sup1` and `sup2`. */
  lemma {:induction false} SwapFacts(g: Graph, stu1: Stu, sup1: Sup, stu2: Stu, sup2: Sup)
    requires IsEdge(g, sup1, stu1) && IsEdge(g, sup2, stu2) && sup1 != sup2
    requires g.stus[stu1] == [sup1] && g.stus[stu2] == [sup2]
    ensures var r := Swap(g, stu1, sup1, stu2, sup2);
      && r.status == Done
      && r.graph.sups.Keys == g.sups.Keys && r.graph.stus.Keys == g.stus.Keys
      && r.graph.stus[stu1] == [sup2] && r.graph.stus[stu2] == [sup1]
      && (forall s | s in g.stus && s != stu1 && s != stu2 :: r.graph.stus[s] == g.stus[s])
      && (forall s :: Degree(r.graph, s) == Degree(g, s))
  {
    var r1 := RemoveEdge(g, sup1, stu1);
    RemoveStep(g, sup1, stu1);
    assert RemoveFirst([sup1], sup1) == [];
    var r2 := RemoveEdge(r1.graph, sup2, stu2);
    RemoveStep(r1.graph, sup2, stu2);
    assert RemoveFirst([sup2], sup2) == [];
    var a1 := AddEdge(r2.graph, sup1, stu2);
    AddStep(r2.graph, sup1, stu2);
    AddStep(a1, sup2, stu1);
  }

  /** `swapStudents` keeps the graph consistent. */
  lemma SwapConsistent(g: Graph, stu1: Stu, sup1: Sup, stu2: Stu, sup2: Sup)
    requires Consistent(g)
    ensures Consistent(Swap(g, stu1, sup1, stu2, sup2).graph)
  {
    var r1 := RemoveEdge(g, sup1, stu1);
    RemoveEdgeConsistent(g, sup1, stu1);
    var r2 := RemoveEdge(r1.graph, sup2, stu2);
    RemoveEdgeConsistent(r1.graph, sup2, stu2);
    AddEdgeConsistent(r2.graph, sup1, stu2);
    AddEdgeConsistent(AddEdge(r2.graph, sup1, stu2), sup2, stu1);
  }

  /** `swapStudents` exchanges exactly the two edges. */
  lemma SwapEdges(g: Graph, stu1: Stu, sup1: Sup, stu2: Stu, sup2: Sup)
    requires Consistent(g) && IsEdge(g, sup1, stu1) && IsEdge(g, sup2, stu2) && (sup1, stu2) != (sup2, stu1)
    ensures Swap(g, stu1, sup1, stu2, sup2).status == Done
    ensures Edges(Swap(g, stu1, sup1, stu2, sup2).graph) == Edges(g) - {(sup1, stu1), (sup2, stu2)} + {(sup1, stu2), (sup2, stu1)}
  {
    var r1 := RemoveEdge(g, sup1, stu1);
    RemoveStep(g, sup1, stu1);
    assert Edges(r1.graph) == Edges(g) - {(sup1, stu1)} by {
      RemoveEdgeEdges(g, sup1, stu1);
    }
    assert IsEdge(r1.graph, sup2, stu2) && NoDup(r1.graph.sups[sup2]) by {
      RemoveEdgeConsistent(g, sup1, stu1);
      IsEdgeIsMember(g, sup2, stu2);
      IsEdgeIsMember(r1.graph, sup2, stu2);
    }
    var r2 := RemoveEdge(r1.graph, sup2, stu2);
    assert Edges(r2.graph) == Edges(r1.graph) - {(sup2, stu2)} by {
      RemoveEdgeEdges(r1.graph, sup2, stu2);
    }
    var a1 := AddEdge(r2.graph, sup1, stu2);
    assert Edges(a1) == Edges(r2.graph) + {(sup1, stu2)} by {
      AddEdgeEdges(r2.graph, sup1, stu2);
    }
    assert Edges(AddEdge(a1, sup2, stu1)) == Edges(a1) + {(sup2, stu1)} by {
      AddEdgeEdges(a1, sup2, stu1);
    }
    ExchangeSets(Edges(g), Edges(r1.graph), Edges(r2.graph), Edges(a1), Edges(AddEdge(a1, sup2, stu1)),
                 (sup1, stu1), (sup2, stu2), (sup1, stu2), (sup2, stu1));
  }

  lemma ExchangeSets<T>(e0: set<T>, e1: set<T>, e2: set<T>, e3: set<T>, e4: set<T>, p1: T, p2: T, p3: T, p4: T)
    requires e1 == e0 - {p1} && e2 == e1 - {p2} && e3 == e2 + {p3} && e4 == e3 + {p4}
    ensures e4 == e0 - {p1, p2} + {p3, p4}
  {
  }

  /** For two candidates, `removeExcept` amounts to removing the edge of the other one. */
  lemma RemoveExceptUnfolds(g: Graph, sup: Sup, stu: Stu)
    requires Consistent(g) && stu in g.stus && sup in g.stus[stu] && |g.stus[stu]| == 2
    ensures var l := g.stus[stu];
      var o := if l[0] == sup then l[1] else l[0];
      && o != sup && IsEdge(g, o, stu) && RemoveExceptFrom(g, sup, stu, 0) == RemoveEdge(g, o, stu)
  {
    var l := g.stus[stu];
    assert l[0] != l[1];
    if l[0] == sup {
      var r1 := RemoveEdge(g, l[1], stu);
      assert IsEdge(g, l[1], stu);
      assert RemoveExceptFrom(g, sup, stu, 0) == RemoveExceptFrom(g, sup, stu, 1);
      assert RemoveExceptFrom(g, sup, stu, 1) == RemoveExceptFrom(r1.graph, sup, stu, 2);
    } else {
      var r1 := RemoveEdge(g, l[0], stu);
      assert IsEdge(g, l[0], stu);
      assert RemoveExceptFrom(g, sup, stu, 0) == RemoveExceptFrom(r1.graph, sup, stu, 1);
    }
  }

  /**
   * `removeExcept` for a student with at most two candidates including
   * `sup`: afterwards `sup` is its only supervisor, the graph is consistent
   * and only the other candidate's edge to this student is gone.
   */
  lemma RemoveExceptSpec(g: Graph, sup: Sup, stu: Stu)
    requires Consistent(g) && stu in g.stus && sup in g.stus[stu] && |g.stus[stu]| <= 2
    ensures var r := RemoveExceptFrom(g, sup, stu, 0);
      && r.status == Done
      && Consistent(r.graph)
      && r.graph.stus[stu] == [sup]
      && (forall p :: p in Edges(r.graph) <==> p in Edges(g) && (p.1 != stu || p.0 == sup))
      && (forall s | s in g.stus && s != stu :: r.graph.stus[s] == g.stus[s])
  {
    RemoveExceptShape(g, sup, stu);
    RemoveExceptConsistent(g, sup, stu);
    RemoveExceptEdges(g, sup, stu);
  }

  lemma RemoveExceptShape(g: Graph, sup: Sup, stu: Stu)
    requires Consistent(g) && stu in g.stus && sup in g.stus[stu] && |g.stus[stu]| <= 2
    ensures var r := RemoveExceptFrom(g, sup, stu, 0);
      && r.status == Done
      && r.graph.stus[stu] == [sup]
      && (forall s | s in g.stus && s != stu :: r.graph.stus[s] == g.stus[s])
  {
    var l := g.stus[stu];
    if |l| == 1 {
      assert l == [sup] by { assert l[0] == sup; }
      assert RemoveExceptFrom(g, sup, stu, 0) == RemoveExceptFrom(g, sup, stu, 1);
    } else {
      var o := if l[0] == sup then l[1] else l[0];
      RemoveExceptUnfolds(g, sup, stu);
      RemoveStep(g, o, stu);
      RemoveFirstNoDup(l, o);
      assert RemoveFirst(l, o) == [sup] by {
        assert |RemoveFirst(l, o)| == 1 && sup in RemoveFirst(l, o);
      }
    }
  }

  lemma RemoveExceptConsistent(g: Graph, sup: Sup, stu: Stu)
    requires Consistent(g) && stu in g.stus && sup in g.stus[stu] && |g.stus[stu]| <= 2
    ensures Consistent(RemoveExceptFrom(g, sup, stu, 0).graph)
  {
    var l := g.stus[stu];
    if |l| == 1 {
      assert RemoveExceptFrom(g, sup, stu, 0) == RemoveExceptFrom(g, sup, stu, 1);
    } else {
      var o := if l[0] == sup then l[1] else l[0];
      RemoveExceptUnfolds(g, sup, stu);
      RemoveEdgeConsistent(g, o, stu);
    }
  }

  lemma RemoveExceptEdges(g: Graph, sup: Sup, stu: Stu)
    requires Consistent(g) && stu in g.stus && sup in g.stus[stu] && |g.stus[stu]| <= 2
    ensures forall p :: p in Edges(RemoveExceptFrom(g, sup, stu, 0).graph) <==> p in Edges(g) && (p.1 != stu || p.0 == sup)
  {
    if |g.stus[stu]| == 1 {
      RemoveExceptEdgesSole(g, sup, stu);
    } else {
      RemoveExceptEdgesPair(g, sup, stu);
    }
  }

  lemma RemoveExceptEdgesSole(g: Graph, sup: Sup, stu: Stu)
    requires Consistent(g) && stu in g.stus && sup in g.stus[stu] && |g.stus[stu]| == 1
    ensures forall p :: p in Edges(RemoveExceptFrom(g, sup, stu, 0).graph) <==> p in Edges(g) && (p.1 != stu || p.0 == sup)
  {
    assert g.stus[stu] == [sup];
    assert RemoveExceptFrom(g, sup, stu, 0) == RemoveExceptFrom(g, sup, stu, 1) == Removal(g, Done);
    StudentEdges(g, stu);
  }

  lemma {:induction false} RemoveExceptEdgesPair(g: Graph, sup: Sup, stu: Stu)
    requires Consistent(g) && stu in g.stus && sup in g.stus[stu] && |g.stus[stu]| == 2
    ensures forall p :: p in Edges(RemoveExceptFrom(g, sup, stu, 0).graph) <==> p in Edges(g) && (p.1 != stu || p.0 == sup)
  {
    var l := g.stus[stu];
    var o := if l[0] == sup then l[1] else l[0];
    RemoveExceptUnfolds(g, sup, stu);
    PairEdges(g, sup, stu, o);
    assert o in g.sups ==> NoDup(g.sups[o]);
    RemoveEdgeEdges(g, o, stu);
    DropOther(Edges(g), Edges(RemoveEdge(g, o, stu).graph), o, sup, stu);
  }

  /** A student with two candidates has edges to those two only. */
  lemma PairEdges(g: Graph, sup: Sup, stu: Stu, o: Sup)
    requires Consistent(g) && stu in g.stus && sup in g.stus[stu] && |g.stus[stu]| == 2
    requires o == if g.stus[stu][0] == sup then g.stus[stu][1] else g.stus[stu][0]
    ensures forall p | p in Edges(g) && p.1 == stu :: p.0 == sup || p.0 == o
  {
    StudentEdges(g, stu);
    assert forall x | x in g.stus[stu] :: x == sup || x == o;
  }

  /** The edges of a student in a consistent graph are its listed supervisors. */
  lemma StudentEdges(g: Graph, stu: Stu)
    requires Consistent(g) && stu in g.stus
    ensures forall p | p in Edges(g) && p.1 == stu :: p.0 in g.stus[stu]
  {
  }

  lemma DropOther(e0: set<(Sup, Stu)>, e1: set<(Sup, Stu)>, o: Sup, sup: Sup, stu: Stu)
    requires e1 == e0 - {(o, stu)} && o != sup
    requires forall p | p in e0 && p.1 == stu :: p.0 == sup || p.0 == o
    ensures forall p :: p in e1 <==> p in e0 && (p.1 != stu || p.0 == sup)
  {
  }

  /** Student "x" with the three candidates "A", "B" and "C". */
  function ThreeCandidates(): Graph {
    Graph(map["A" := ["x"], "B" := ["x"], "C" := ["x"]], map["x" := ["A", "B", "C"]])
  }

  lemma ThreeCandidatesConsistent()
    ensures Consistent(ThreeCandidates())
  {
  }

  /** With three candidates the live-list loop skips one: `removeExcept` can leave two supervisors. */
  lemma RemoveExceptSkipsWithThree()
    ensures RemoveExceptFrom(ThreeCandidates(), "C", "x", 0).graph.stus["x"] == ["B", "C"]
  {
    var g := ThreeCandidates();
    assert RemoveFirst(g.stus["x"], "A") == ["B", "C"];
    assert RemoveFirst(g.sups["A"], "x") == [];
    var r1 := RemoveEdge(g, "A", "x");
    assert r1.graph.stus["x"] == ["B", "C"];
    assert RemoveExceptFrom(r1.graph, "C", "x", 1) == RemoveExceptFrom(r1.graph, "C", "x", 2);
  }

}
