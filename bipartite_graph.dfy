/**
 * The BipartiteGraph class of pystsup/data/bipartiteGraph.py: two
 * dictionary fields updated in place, with every method specified against
 * the value-level functions of GraphModel and GraphOps.
 */
module Bipartite {
  import opened Outcomes
  import opened GraphModel
  import opened GraphOps
  import opened Counting

  /** The first element of `l` that differs from `sup` (`getRemainingSup`'s answer). */
  function FirstOther(l: seq<Sup>, sup: Sup): (r: Option<Sup>)
    ensures r.None? <==> forall x | x in l :: x == sup
    ensures r.Some? ==> r.value in l && r.value != sup
    ensures r.Some? ==> exists i | 0 <= i < |l| :: l[i] == r.value && forall j | 0 <= j < i :: l[j] == sup
  {
    if l == [] then None
    else if l[0] != sup then
      assert l[0] in l;
      Some(l[0])
    else
      var r := FirstOther(l[1..], sup);
      assert forall x | x in l :: x == l[0] || x in l[1..] by { assert l == [l[0]] + l[1..]; }
      if r.Some? then
        var i :| 0 <= i < |l[1..]| && l[1..][i] == r.value && forall j | 0 <= j < i :: l[1..][j] == sup;
        assert l[i + 1] == r.value && r.value in l && forall j | 0 <= j < i + 1 :: l[j] == sup;
        r
      else r
  }

  /**
   * The edges `merge` has to add: for each supervisor of `g1` that `g2`
   * also has, the students `g2` gives it and `g1` does not.
   */
  ghost function Needed(g1: Graph, g2: Graph): set<(Sup, Stu)> {
    set sup, stu | sup in g1.sups && sup in g2.sups && stu in g2.sups[sup] && stu !in g1.sups[sup] :: (sup, stu)
  }

  /**
   * `merge` succeeds exactly when `g2` has every supervisor of `g1` and
   * every student to be added already has a key in `g1`'s student index.
   */
  ghost predicate MergeOk(g1: Graph, g2: Graph) {
    && (forall sup | sup in g1.sups :: sup in g2.sups)
    && (forall p | p in Needed(g1, g2) :: p.1 in g1.stus)
  }

  /**
   * `m` is a merge of `g1` with `g2`: the same keys as `g1`, every list of
   * `g1` extended at its end, the edges of `g1` plus the missing edges of
   * `g2` at `g1`'s supervisors, and consistent when `g1` is.
   */
  ghost predicate MergedFrom(m: Graph, g1: Graph, g2: Graph) {
    && m.sups.Keys == g1.sups.Keys && m.stus.Keys == g1.stus.Keys
    && (forall sup | sup in g1.sups :: g1.sups[sup] <= m.sups[sup])
    && (forall stu | stu in g1.stus :: g1.stus[stu] <= m.stus[stu])
    && Edges(m) == Edges(g1) + Needed(g1, g2)
    && (Consistent(g1) ==> Consistent(m))
  }

  class BipartiteGraph {
    /** Supervisor -> allocated students (`_edges`). */
    var edges: map<Sup, seq<Stu>>
    /** Student -> supervisors (`_edgesStu`); two entries only in a merged graph. */
    var edgesStu: map<Stu, seq<Sup>>

    function Value(): Graph
      reads this
    {
      Graph(edges, edgesStu)
    }

    /** `__init__`: an absent or empty dictionary becomes an empty one. */
    constructor (sups: map<Sup, seq<Stu>>, stus: map<Stu, seq<Sup>>)
      ensures Value() == Graph(sups, stus)
    {
      edges := sups;
      edgesStu := stus;
    }

    /** `addEdge`. */
    method AddEdge(sup: Sup, stu: Stu)
      modifies this
      ensures Value() == GraphModel.AddEdge(old(Value()), sup, stu)
    {
      if !GraphModel.IsEdge(Value(), sup, stu) {
        ghost var g := Value();
        if sup in edges {
          edges := edges[sup := edges[sup] + [stu]];
        } else {
          edges := edges[sup := [stu]];
        }
        if stu in edgesStu {
          edgesStu := edgesStu[stu := edgesStu[stu] + [sup]];
        } else {
          edgesStu := edgesStu[stu := [sup]];
        }
        assert [] + [stu] == [stu] && [] + [sup] == [sup];
      }
    }

    /** `removeEdge`; `status` is the exception raised, if any. */
    method RemoveEdge(sup: Sup, stu: Stu) returns (status: Status)
      modifies this
      ensures Value() == GraphModel.RemoveEdge(old(Value()), sup, stu).graph
      ensures status == GraphModel.RemoveEdge(old(Value()), sup, stu).status
    {
      if sup !in edges {
        return Status.KeyError;
      }
      if stu !in edges[sup] {
        return Status.ValueError;
      }
      edges := edges[sup := RemoveFirst(edges[sup], stu)];
      if stu !in edgesStu {
        return Status.KeyError;
      }
      if sup !in edgesStu[stu] {
        return Status.ValueError;
      }
      edgesStu := edgesStu[stu := RemoveFirst(edgesStu[stu], sup)];
      status := Done;
    }

    /** `transferStudent`; `quotas` gives each supervisor's quota. */
    method TransferStudent(stu: Stu, from: Sup, to: Sup, quotas: map<Sup, int>) returns (status: Status)
      modifies this
      ensures Value() == Transfer(old(Value()), quotas, stu, from, to).graph
      ensures status == Transfer(old(Value()), quotas, stu, from, to).status
    {
      if from !in edges {
        return Status.KeyError;
      }
      if |edges[from]| < 2 {
        return Done;
      }
      if to !in edges || to !in quotas {
        return Status.KeyError;
      }
      if |edges[to]| + 1 > quotas[to] {
        return Done;
      }
      if stu in edgesStu && GraphModel.IsEdge(Value(), from, stu) {
        AddEdge(to, stu);
        status := RemoveEdge(from, stu);
      } else {
        status := Done;
      }
    }

    /** `transferStudent1`: add the new edge, then remove the old one, unchecked. */
    method TransferStudent1(stu: Stu, from: Sup, to: Sup) returns (status: Status)
      modifies this
      ensures Value() == Transfer1(old(Value()), stu, from, to).graph
      ensures status == Transfer1(old(Value()), stu, from, to).status
    {
      AddEdge(to, stu);
      status := RemoveEdge(from, stu);
    }

    /** `swapStudents`. */
    method SwapStudents(stu1: Stu, sup1: Sup, stu2: Stu, sup2: Sup) returns (status: Status)
      modifies this
      ensures Value() == Swap(old(Value()), stu1, sup1, stu2, sup2).graph
      ensures status == Swap(old(Value()), stu1, sup1, stu2, sup2).status
    {
      status := RemoveEdge(sup1, stu1);
      if status != Done {
        return;
      }
      status := RemoveEdge(sup2, stu2);
      if status != Done {
        return;
      }
      AddEdge(sup1, stu2);
      AddEdge(sup2, stu1);
    }

    /** `getStructure`: the number of students of every supervisor key. */
    method GetStructure() returns (structure: map<Sup, nat>)
      ensures structure == Structure(Value())
    {
      structure := map[];
      var todo := edges.Keys;
      while todo != {}
        invariant todo <= edges.Keys
        invariant structure.Keys == edges.Keys - todo
        invariant forall sup | sup in structure :: structure[sup] == |edges[sup]|
        decreases todo
      {
        var sup :| sup in todo;
        structure := structure[sup := |edges[sup]|];
        todo := todo - {sup};
      }
    }

    /**
     * `merge`: builds a new graph from copies of this graph's dictionaries,
     * adding at each supervisor the students `graph2` gives it; neither
     * graph changes. A missing key raises KeyError.
     */
    method Merge(graph2: BipartiteGraph) returns (r: Result<BipartiteGraph>)
      ensures r.Err? <==> !MergeOk(Value(), graph2.Value())
      ensures r.Err? ==> r.error == PyError.KeyError
      ensures r.Ok? ==> fresh(r.value) && MergedFrom(r.value.Value(), Value(), graph2.Value())
    {
      var merged := MergeGraphs(Value(), graph2.Value());
      if merged.Err? {
        return Err(merged.error);
      }
      var m := new BipartiteGraph(merged.value.sups, merged.value.stus);
      assert m.Value() == merged.value;
      r := Ok(m);
    }

    /**
     * `getRemainingSup`: the first of the student's supervisors other than
     * `sup` (None when there is none).
     */
    method GetRemainingSup(sup: Sup, stu: Stu) returns (r: Option<Sup>)
      requires stu in edgesStu
      ensures r == FirstOther(edgesStu[stu], sup)
    {
      var l := edgesStu[stu];
      var i := 0;
      while i < |l|
        invariant 0 <= i <= |l|
        invariant FirstOther(l, sup) == FirstOther(l[i..], sup)
      {
        assert l[i..] == [l[i]] + l[i + 1..];
        if l[i] != sup {
          return Some(l[i]);
        }
        i := i + 1;
      }
      r := None;
    }

    /**
     * `removeExcept`: the `for` loop over the student's own list, which
     * `removeEdge` shortens while it is being walked.
     */
    method RemoveExcept(sup: Sup, stu: Stu) returns (status: Status)
      modifies this
      ensures stu !in old(edgesStu) ==> status == Status.KeyError && Value() == old(Value())
      ensures stu in old(edgesStu) ==> Value() == RemoveExceptFrom(old(Value()), sup, stu, 0).graph
      ensures stu in old(edgesStu) ==> status == RemoveExceptFrom(old(Value()), sup, stu, 0).status
    {
      if stu !in edgesStu {
        return Status.KeyError;
      }
      var i := 0;
      while i < |edgesStu[stu]|
        invariant stu in edgesStu
        invariant RemoveExceptFrom(Value(), sup, stu, i) == RemoveExceptFrom(old(Value()), sup, stu, 0)
        decreases |edgesStu[stu]| - i
      {
        var other := edgesStu[stu][i];
        if other != sup {
          status := RemoveEdge(other, stu);
          if status != Done {
            return;
          }
        }
        i := i + 1;
      }
      status := Done;
    }

    /** `getRemainingStu`: the supervisor's students that are not in `keep`. */
    function GetRemainingStu(sup: Sup, keep: seq<Stu>): (r: set<Stu>)
      reads this
      requires sup in edges
      ensures forall stu :: stu in r <==> (sup, stu) in Edges(Value()) && stu !in keep
    {
      (set stu | stu in edges[sup]) - (set stu | stu in keep)
    }

    /** `getAvailableEdges`: the supervisor's students that are not locked. */
    method GetAvailableEdges(sup: Sup, locked: set<Stu>) returns (available: set<Stu>)
      requires sup in edges
      ensures forall stu :: stu in available <==> (sup, stu) in Edges(Value()) && stu !in locked
    {
      available := {};
      var students := edges[sup];
      for i := 0 to |students|
        invariant forall stu :: stu in available <==> stu in students[..i] && stu !in locked
      {
        if students[i] !in locked {
          available := available + {students[i]};
        }
      }
      assert students[..|students|] == students;
    }

    /**
     * `canLock`: a student with one candidate must be locked; otherwise the
     * edge may be locked when the other candidate still has more unlocked
     * students than it needs. The source presumes the student exists and,
     * when it has other candidates, that the first of them has a key in the
     * graph, the structure and the counts.
     */
    function CanLock(sup: Sup, stu: Stu, structure: map<Sup, int>, counts: map<Sup, int>, locked: set<Stu>): bool
      reads this
      requires stu in edgesStu
      requires |edgesStu[stu]| != 1 ==> CanLockDefined(sup, stu, structure, counts)
      ensures |edgesStu[stu]| == 1 ==> CanLock(sup, stu, structure, counts, locked)
    {
      if |edgesStu[stu]| == 1 then true
      else
        var other := FirstOther(edgesStu[stu], sup).value;
        structure[other] - counts[other] < |(set s | s in edges[other]) - locked|
    }

    predicate CanLockDefined(sup: Sup, stu: Stu, structure: map<Sup, int>, counts: map<Sup, int>)
      reads this
      requires stu in edgesStu
    {
      var o := FirstOther(edgesStu[stu], sup);
      o.Some? && o.value in edges && o.value in structure && o.value in counts
    }

    /** `copy`: a new graph with copies of both dictionaries. */
    method Copy() returns (c: BipartiteGraph)
      ensures fresh(c) && c.Value() == Value()
    {
      c := new BipartiteGraph(edges, edgesStu);
    }

    /** `__eq__`: compares only the student index. */
    predicate Equal(graph2: BipartiteGraph)
      reads this, graph2
      ensures Equal(graph2) && Consistent(Value()) && Consistent(graph2.Value()) ==> Edges(Value()) == Edges(graph2.Value())
    {
      SameIndexSameEdges(Value(), graph2.Value());
      edgesStu == graph2.edgesStu
    }

    /**
     * `createRandomGraph`: every supervisor first gets one student drawn
     * from those left, then random students go to random supervisors below
     * quota until no student is left. Drawing from an empty list raises
     * IndexError.
     */
    static method CreateRandomGraph(students: set<Stu>, quotas: map<Sup, int>) returns (r: Result<BipartiteGraph>)
      ensures r.Err? ==> r.error == PyError.IndexError
      ensures |quotas| > |students| ==> r.Err?
      ensures r.Ok? <==> |quotas| <= |students| <= Capacity(quotas)
      ensures r.Ok? ==> fresh(r.value) && RandomlyAllocated(r.value.Value(), students, quotas)
    {
      var g := RandomGraph(students, quotas);
      if g.Err? {
        return Err(g.error);
      }
      var b := new BipartiteGraph(g.value.sups, g.value.stus);
      assert b.Value() == g.value;
      r := Ok(b);
    }
  }

  /** The edges from `sup` to each of `add`. */
  ghost function AtSup(sup: Sup, add: set<Stu>): set<(Sup, Stu)> {
    set stu | stu in add :: (sup, stu)
  }

  /** The edges `merge` must add at the supervisors in `done`. */
  ghost function NeededFor(g1: Graph, g2: Graph, done: set<Sup>): set<(Sup, Stu)> {
    set p | p in Needed(g1, g2) && p.0 in done
  }

  /** What the inner loop of `merge` keeps: `r` is `g` with edges from `sup` to `done` appended. */
  ghost predicate AppendInv(g: Graph, r: Graph, sup: Sup, done: set<Stu>) {
    && sup in g.sups
    && done <= g.stus.Keys
    && r.sups.Keys == g.sups.Keys && r.stus.Keys == g.stus.Keys
    && g.sups[sup] <= r.sups[sup] && (forall s | s in g.sups && s != sup :: r.sups[s] == g.sups[s])
    && (forall s | s in g.stus :: g.stus[s] <= r.stus[s])
    && Edges(r) == Edges(g) + AtSup(sup, done)
  }

  /** What the outer loop of `merge` keeps, with `done` the supervisors already handled. */
  ghost predicate MergeInv(g1: Graph, g2: Graph, m: Graph, done: set<Sup>) {
    && done <= g1.sups.Keys
    && m.sups.Keys == g1.sups.Keys && m.stus.Keys == g1.stus.Keys
    && (forall s | s in g1.sups :: g1.sups[s] <= m.sups[s])
    && (forall s | s in g1.stus :: g1.stus[s] <= m.stus[s])
    && (forall s | s in g1.sups && s !in done :: m.sups[s] == g1.sups[s])
    && (forall s | s in done :: s in g2.sups)
    && Edges(m) == Edges(g1) + NeededFor(g1, g2, done)
    && (forall p | p in NeededFor(g1, g2, done) :: p.1 in g1.stus)
  }

  /**
   * The body of `merge` on the copied dictionaries: for each supervisor of
   * `g1` (in any order), append the students `g2` gives it and `g1` lacks.
   */
  method MergeGraphs(g1: Graph, g2: Graph) returns (r: Result<Graph>)
    ensures r.Err? <==> !MergeOk(g1, g2)
    ensures r.Err? ==> r.error == PyError.KeyError
    ensures r.Ok? ==> MergedFrom(r.value, g1, g2)
  {
    var merged := g1;
    var todo := g1.sups.Keys;
    ghost var done: set<Sup> := {};
    MergeInvStart(g1, g2);
    while todo != {}
      invariant todo <= g1.sups.Keys && done == g1.sups.Keys - todo
      invariant MergeInv(g1, g2, merged, done)
      invariant Consistent(g1) ==> Consistent(merged)
      decreases todo
    {
      var sup :| sup in todo;
      var step := MergeRound(g1, g2, merged, done, sup);
      if step.Err? {
        return Err(PyError.KeyError);
      }
      merged := step.value;
      todo := todo - {sup};
      done := done + {sup};
    }
    MergeInvDone(g1, g2, merged);
    r := Ok(merged);
  }

  /** One supervisor of the outer loop of `merge`: its list in `g2` is merged in, or KeyError. */
  method MergeRound(g1: Graph, g2: Graph, merged: Graph, ghost done: set<Sup>, sup: Sup) returns (r: Result<Graph>)
    requires MergeInv(g1, g2, merged, done) && sup in g1.sups && sup !in done
    requires Consistent(g1) ==> Consistent(merged)
    ensures r.Err? ==> r.error == PyError.KeyError && !MergeOk(g1, g2)
    ensures r.Ok? ==> MergeInv(g1, g2, r.value, done + {sup}) && (Consistent(g1) ==> Consistent(r.value))
  {
    if sup !in g2.sups {
      MergeFailsNoKey(g1, g2, sup);
      return Err(PyError.KeyError);
    }
    var ok, next := MergeSupervisor(merged, sup, g2.sups[sup]);
    if !ok {
      MergeFailsAt(g1, g2, merged, done, sup);
      return Err(PyError.KeyError);
    }
    MergeInvStep(g1, g2, merged, done, sup, next);
    r := Ok(next);
  }

  lemma MergeFailsNoKey(g1: Graph, g2: Graph, sup: Sup)
    requires sup in g1.sups && sup !in g2.sups
    ensures !MergeOk(g1, g2)
  {
  }

  /** The students of `theirs` missing from the supervisor's list in `g`. */
  ghost function Missing(g: Graph, sup: Sup, theirs: seq<Stu>): set<Stu>
    requires sup in g.sups
  {
    (set s | s in theirs) - (set s | s in g.sups[sup])
  }

  /**
   * The inner loop of `merge` for one supervisor: append each student of
   * `add` to the supervisor's list and the supervisor to the student's
   * list; a student without a key raises KeyError (`ok` false).
   */
  method MergeSupervisor(g: Graph, sup: Sup, theirs: seq<Stu>) returns (ok: bool, r: Graph)
    requires sup in g.sups
    ensures ok <==> Missing(g, sup, theirs) <= g.stus.Keys
    ensures ok ==> AppendInv(g, r, sup, Missing(g, sup, theirs))
    ensures ok && Consistent(g) ==> Consistent(r)
  {
    var a := set s | s in g.sups[sup];
    var b := set s | s in theirs;
    var add := b - a;
    r := g;
    var todo := add;
    AppendInvStart(g, sup);
    while todo != {}
      invariant todo <= add
      invariant AppendInv(g, r, sup, add - todo)
      invariant Consistent(g) ==> Consistent(r)
      decreases todo
    {
      var stu :| stu in todo;
      var sups := r.sups[sup := r.sups[sup] + [stu]];
      if stu !in r.stus {
        return false, Graph(sups, r.stus);
      }
      AppendInvStep(g, r, sup, stu, add - todo);
      if Consistent(g) {
        AddEdgeConsistent(r, sup, stu);
      }
      assert add - (todo - {stu}) == (add - todo) + {stu};
      r := Graph(sups, r.stus[stu := r.stus[stu] + [sup]]);
      todo := todo - {stu};
    }
    ok := true;
  }

  lemma AppendInvStart(g: Graph, sup: Sup)
    requires sup in g.sups
    ensures AppendInv(g, g, sup, {})
  {
    assert AtSup(sup, {}) == {};
  }

  /** One append of the inner loop is `addEdge` of a new edge between existing keys. */
  lemma {:induction false} AppendInvStep(g: Graph, r: Graph, sup: Sup, stu: Stu, done: set<Stu>)
    requires AppendInv(g, r, sup, done) && stu in r.stus && stu !in done && stu !in g.sups[sup]
    ensures AppendInv(g, Graph(r.sups[sup := r.sups[sup] + [stu]], r.stus[stu := r.stus[stu] + [sup]]), sup, done + {stu})
    ensures Graph(r.sups[sup := r.sups[sup] + [stu]], r.stus[stu := r.stus[stu] + [sup]]) == GraphModel.AddEdge(r, sup, stu)
  {
    var next := Graph(r.sups[sup := r.sups[sup] + [stu]], r.stus[stu := r.stus[stu] + [sup]]);
    assert !IsEdge(r, sup, stu) by {
      EdgesMember(r, sup, stu);
      EdgesMember(g, sup, stu);
    }
    assert next == GraphModel.AddEdge(r, sup, stu);
    assert Edges(next) == Edges(g) + AtSup(sup, done + {stu}) by {
      AddEdgeEdges(r, sup, stu);
      assert AtSup(sup, done + {stu}) == AtSup(sup, done) + {(sup, stu)};
    }
  }

  lemma MergeInvStart(g1: Graph, g2: Graph)
    ensures MergeInv(g1, g2, g1, {})
  {
    assert NeededFor(g1, g2, {}) == {};
  }

  /** Handling one more supervisor keeps the outer invariant of `merge`. */
  lemma MergeInvStep(g1: Graph, g2: Graph, m: Graph, done: set<Sup>, sup: Sup, next: Graph)
    requires MergeInv(g1, g2, m, done) && sup in g1.sups && sup !in done && sup in g2.sups
    requires AppendInv(m, next, sup, Missing(m, sup, g2.sups[sup]))
    ensures MergeInv(g1, g2, next, done + {sup})
  {
    var add := Missing(m, sup, g2.sups[sup]);
    MergeStepEdges(g1, g2, m, next, done, sup, add);
    MergeStepShape(g1, m, next, done, sup);
  }

  lemma MergeStepShape(g1: Graph, m: Graph, next: Graph, done: set<Sup>, sup: Sup)
    requires m.sups.Keys == g1.sups.Keys && m.stus.Keys == g1.stus.Keys
    requires forall s | s in g1.sups :: g1.sups[s] <= m.sups[s]
    requires forall s | s in g1.stus :: g1.stus[s] <= m.stus[s]
    requires forall s | s in g1.sups && s !in done :: m.sups[s] == g1.sups[s]
    requires sup in m.sups && next.sups.Keys == m.sups.Keys && next.stus.Keys == m.stus.Keys
    requires m.sups[sup] <= next.sups[sup] && forall s | s in m.sups && s != sup :: next.sups[s] == m.sups[s]
    requires forall s | s in m.stus :: m.stus[s] <= next.stus[s]
    ensures forall s | s in g1.sups :: g1.sups[s] <= next.sups[s]
    ensures forall s | s in g1.stus :: g1.stus[s] <= next.stus[s]
    ensures forall s | s in g1.sups && s !in done + {sup} :: next.sups[s] == g1.sups[s]
  {
    forall s | s in g1.sups ensures g1.sups[s] <= next.sups[s] {
      assert g1.sups[s] <= m.sups[s];
    }
    forall s | s in g1.stus ensures g1.stus[s] <= next.stus[s] {
      assert g1.stus[s] <= m.stus[s];
    }
  }

  lemma MergeStepEdges(g1: Graph, g2: Graph, m: Graph, next: Graph, done: set<Sup>, sup: Sup, add: set<Stu>)
    requires sup in g1.sups && sup in g2.sups && sup !in done && sup in m.sups && m.sups[sup] == g1.sups[sup]
    requires add == (set s | s in g2.sups[sup]) - (set s | s in m.sups[sup])
    requires Edges(m) == Edges(g1) + NeededFor(g1, g2, done)
    requires Edges(next) == Edges(m) + AtSup(sup, add)
    requires forall p | p in NeededFor(g1, g2, done) :: p.1 in g1.stus
    requires add <= g1.stus.Keys
    ensures Edges(next) == Edges(g1) + NeededFor(g1, g2, done + {sup})
    ensures forall p | p in NeededFor(g1, g2, done + {sup}) :: p.1 in g1.stus
  {
    assert NeededFor(g1, g2, done + {sup}) == NeededFor(g1, g2, done) + AtSup(sup, add) by {
      forall p | p in NeededFor(g1, g2, done + {sup}) && p.0 == sup ensures p in AtSup(sup, add) {
        assert p == (sup, p.1);
      }
    }
  }

  /** A student to be added without a key makes `merge` fail. */
  lemma MergeFailsAt(g1: Graph, g2: Graph, m: Graph, done: set<Sup>, sup: Sup)
    requires MergeInv(g1, g2, m, done) && sup in g1.sups && sup !in done && sup in g2.sups
    requires !(Missing(m, sup, g2.sups[sup]) <= m.stus.Keys)
    ensures !MergeOk(g1, g2)
  {
    var stu :| stu in Missing(m, sup, g2.sups[sup]) && stu !in m.stus;
    assert (sup, stu) in Needed(g1, g2);
  }

  lemma MergeInvDone(g1: Graph, g2: Graph, m: Graph)
    requires MergeInv(g1, g2, m, g1.sups.Keys) && (Consistent(g1) ==> Consistent(m))
    ensures MergeOk(g1, g2) && MergedFrom(m, g1, g2)
  {
    assert NeededFor(g1, g2, g1.sups.Keys) == Needed(g1, g2);
  }

  /** `SameStudentIndexSameEdges` for any two graphs. */
  lemma SameIndexSameEdges(g1: Graph, g2: Graph)
    ensures Consistent(g1) && Consistent(g2) && g1.stus == g2.stus ==> Edges(g1) == Edges(g2)
  {
    if Consistent(g1) && Consistent(g2) && g1.stus == g2.stus {
      SameStudentIndexSameEdges(g1, g2);
    }
  }

  // ---------------------------------------------------------------------------
  // createRandomGraph

  /**
   * What `createRandomGraph` builds: a consistent graph over exactly the
   * given supervisors and students, every student with one supervisor and
   * every supervisor with at least one student and no more than its quota
   * (a quota below one still receives the first student).
   */
  ghost predicate RandomlyAllocated(g: Graph, students: set<Stu>, quotas: map<Sup, int>) {
    && Consistent(g)
    && g.sups.Keys == quotas.Keys && g.stus.Keys == students
    && (forall sup | sup in g.sups :: 1 <= |g.sups[sup]| && (|g.sups[sup]| <= quotas[sup] || |g.sups[sup]| == 1))
    && (forall stu | stu in g.stus :: |g.stus[stu]| == 1)
  }

  /**
   * How many students the supervisors can take in all: each its quota, and
   * one where the quota is below one (the first loop gives every supervisor
   * a student whatever its quota).
   */
  ghost function Capacity(quotas: map<Sup, int>): int {
    Total(Caps(quotas))
  }

  ghost function Caps(quotas: map<Sup, int>): map<Sup, int> {
    map s | s in quotas :: if quotas[s] >= 1 then quotas[s] else 1
  }

  /** The room left at the supervisors of `left`: the most students the second loop can still place. */
  ghost function Room(g: Graph, quotas: map<Sup, int>, left: set<Sup>): map<Sup, int> {
    map s | s in left && s in quotas :: quotas[s] - Degree(g, s)
  }

  /** The two loops of `createRandomGraph` on the dictionaries it builds. */
  method RandomGraph(students: set<Stu>, quotas: map<Sup, int>) returns (r: Result<Graph>)
    ensures r.Err? ==> r.error == PyError.IndexError
    ensures |quotas| > |students| ==> r.Err?
    ensures r.Ok? <==> |quotas| <= |students| <= Capacity(quotas)
    ensures r.Ok? ==> RandomlyAllocated(r.value, students, quotas)
  {
    var ok, g, studentsLeft, supervisorsLeft := FirstRound(students, quotas);
    if !ok {
      return Err(PyError.IndexError);
    }
    r := FillRound(g, students, quotas, studentsLeft, supervisorsLeft);
    if r.Ok? {
      AllocatedFits(r.value, students, quotas);
    }
  }

  /**
   * First loop of `createRandomGraph`: every supervisor draws one student;
   * those whose quota exceeds one stay drawable. It runs out of students
   * exactly when there are more supervisors than students.
   */
  method FirstRound(students: set<Stu>, quotas: map<Sup, int>)
      returns (ok: bool, g: Graph, studentsLeft: set<Stu>, supervisorsLeft: set<Sup>)
    ensures ok <==> |quotas| <= |students|
    ensures ok ==> SecondLoopInv(g, students, quotas, studentsLeft, supervisorsLeft) && Consistent(g)
    ensures ok ==> |studentsLeft| + Capacity(quotas) == |students| + Total(Room(g, quotas, supervisorsLeft))
  {
    g := Graph(map[], map[]);
    studentsLeft := students;
    supervisorsLeft := {};
    var todo := quotas.Keys;
    ghost var done: set<Sup> := {};
    while todo != {}
      invariant todo !! done && todo + done == quotas.Keys
      invariant FirstLoopInv(g, students, quotas, studentsLeft, supervisorsLeft, done)
      invariant Consistent(g)
      decreases todo
    {
      var sup :| sup in todo;
      if studentsLeft == {} {
        FirstLoopRunsOut(g, students, quotas, supervisorsLeft, done, todo);
        return false, g, studentsLeft, supervisorsLeft;
      }
      var stu :| stu in studentsLeft;
      FirstLoopStep(g, students, quotas, studentsLeft, supervisorsLeft, done, sup, stu);
      FirstLoopConsistent(g, sup, stu);
      g := Graph(g.sups[sup := [stu]], g.stus[stu := [sup]]);
      studentsLeft := studentsLeft - {stu};
      if 1 < quotas[sup] {
        supervisorsLeft := supervisorsLeft + {sup};
      }
      MoveOne(todo, done, sup);
      todo, done := todo - {sup}, done + {sup};
    }
    ok := true;
    FirstLoopDone(g, students, quotas, studentsLeft, supervisorsLeft, done);
    FirstLoopRoom(g, students, quotas, studentsLeft, supervisorsLeft);
  }

  /** Moving one element from `todo` to `done` keeps the two a partition of `all`. */
  lemma MoveOne<T>(todo: set<T>, done: set<T>, x: T)
    requires todo !! done && x in todo
    ensures (todo - {x}) !! (done + {x}) && (todo - {x}) + (done + {x}) == todo + done
  {
  }

  /**
   * Second loop of `createRandomGraph`: each remaining student goes to a
   * supervisor still below quota; it fails when none is left.
   */
  method FillRound(g0: Graph, students: set<Stu>, quotas: map<Sup, int>, studentsLeft0: set<Stu>, supervisorsLeft0: set<Sup>)
      returns (r: Result<Graph>)
    requires SecondLoopInv(g0, students, quotas, studentsLeft0, supervisorsLeft0) && Consistent(g0)
    ensures r.Err? ==> r.error == PyError.IndexError
    ensures r.Ok? <==> |studentsLeft0| <= Total(Room(g0, quotas, supervisorsLeft0))
    ensures r.Ok? ==> RandomlyAllocated(r.value, students, quotas)
  {
    var g, studentsLeft, supervisorsLeft := g0, studentsLeft0, supervisorsLeft0;
    while studentsLeft != {}
      invariant SecondLoopInv(g, students, quotas, studentsLeft, supervisorsLeft)
      invariant Consistent(g)
      invariant Total(Room(g, quotas, supervisorsLeft)) - |studentsLeft| ==
        Total(Room(g0, quotas, supervisorsLeft0)) - |studentsLeft0|
      decreases studentsLeft
    {
      if supervisorsLeft == {} {
        NoRoomLeft(g, quotas);
        return Err(PyError.IndexError);
      }
      var sup :| sup in supervisorsLeft;
      var stu :| stu in studentsLeft;
      SecondLoopStep(g, students, quotas, studentsLeft, supervisorsLeft, sup, stu);
      SecondLoopConsistent(g, sup, stu);
      RoomStep(g, students, quotas, studentsLeft, supervisorsLeft, sup, stu);
      g := Graph(g.sups[sup := g.sups[sup] + [stu]], g.stus[stu := [sup]]);
      studentsLeft := studentsLeft - {stu};
      if |g.sups[sup]| >= quotas[sup] {
        supervisorsLeft := supervisorsLeft - {sup};
      }
    }
    SecondLoopDone(g, students, quotas, supervisorsLeft);
    TotalNonNegative(Room(g, quotas, supervisorsLeft));
    r := Ok(g);
  }

  /** What the first loop of `createRandomGraph` keeps, with `done` the supervisors handled. */
  ghost predicate FirstLoopInv(g: Graph, students: set<Stu>, quotas: map<Sup, int>, studentsLeft: set<Stu>, supervisorsLeft: set<Sup>, done: set<Sup>) {
    && done <= quotas.Keys && studentsLeft <= students
    && g.sups.Keys == done && g.stus.Keys == students - studentsLeft
    && |studentsLeft| == |students| - |done|
    && (forall sup | sup in g.sups :: |g.sups[sup]| == 1)
    && (forall sup | sup in supervisorsLeft :: sup in g.sups)
    && (forall sup | sup in g.sups :: sup in supervisorsLeft <==> |g.sups[sup]| < quotas[sup])
    && (forall stu | stu in g.stus :: |g.stus[stu]| == 1)
  }

  /** What the second loop keeps: every supervisor still drawable is below quota. */
  ghost predicate SecondLoopInv(g: Graph, students: set<Stu>, quotas: map<Sup, int>, studentsLeft: set<Stu>, supervisorsLeft: set<Sup>) {
    && studentsLeft <= students && |quotas| <= |students|
    && g.sups.Keys == quotas.Keys && g.stus.Keys == students - studentsLeft
    && (forall sup | sup in g.sups :: 1 <= |g.sups[sup]| && (|g.sups[sup]| <= quotas[sup] || |g.sups[sup]| == 1))
    && (forall sup | sup in supervisorsLeft :: sup in g.sups)
    && (forall sup | sup in g.sups :: sup in supervisorsLeft <==> |g.sups[sup]| < quotas[sup])
    && (forall stu | stu in g.stus :: |g.stus[stu]| == 1)
  }

  /** Running out of students in the first loop means there are more supervisors than students. */
  lemma FirstLoopRunsOut(g: Graph, students: set<Stu>, quotas: map<Sup, int>, supervisorsLeft: set<Sup>, done: set<Sup>, todo: set<Sup>)
    requires FirstLoopInv(g, students, quotas, {}, supervisorsLeft, done)
    requires todo !! done && todo + done == quotas.Keys && todo != {}
    ensures |quotas| > |students|
  {
    assert |quotas.Keys| == |done| + |todo|;
  }

  lemma {:induction false} FirstLoopStep(g: Graph, students: set<Stu>, quotas: map<Sup, int>, studentsLeft: set<Stu>, supervisorsLeft: set<Sup>, done: set<Sup>, sup: Sup, stu: Stu)
    requires FirstLoopInv(g, students, quotas, studentsLeft, supervisorsLeft, done)
    requires sup in quotas && sup !in done && stu in studentsLeft
    ensures FirstLoopInv(Graph(g.sups[sup := [stu]], g.stus[stu := [sup]]), students, quotas, studentsLeft - {stu},
                         if 1 < quotas[sup] then supervisorsLeft + {sup} else supervisorsLeft, done + {sup})
  {
    FirstLoopKeys(g, students, studentsLeft, done, sup, stu);
    OneMoreEach(students, studentsLeft, done, sup, stu);
    FirstLoopLists(g, quotas, supervisorsLeft, sup, stu);
  }

  lemma FirstLoopKeys(g: Graph, students: set<Stu>, studentsLeft: set<Stu>, done: set<Sup>, sup: Sup, stu: Stu)
    requires g.sups.Keys == done && g.stus.Keys == students - studentsLeft && studentsLeft <= students && stu in studentsLeft
    ensures g.sups[sup := [stu]].Keys == done + {sup}
    ensures g.stus[stu := [sup]].Keys == students - (studentsLeft - {stu}) && studentsLeft - {stu} <= students
  {
  }

  lemma FirstLoopLists(g: Graph, quotas: map<Sup, int>, supervisorsLeft: set<Sup>, sup: Sup, stu: Stu)
    requires sup in quotas && sup !in g.sups && g.sups.Keys <= quotas.Keys
    requires forall s | s in g.sups :: |g.sups[s]| == 1
    requires forall s | s in supervisorsLeft :: s in g.sups
    requires forall s | s in g.sups :: s in supervisorsLeft <==> |g.sups[s]| < quotas[s]
    requires forall s | s in g.stus :: |g.stus[s]| == 1
    ensures var sups := g.sups[sup := [stu]]; var left := if 1 < quotas[sup] then supervisorsLeft + {sup} else supervisorsLeft;
      && (forall s | s in sups :: |sups[s]| == 1)
      && (forall s | s in left :: s in sups)
      && (forall s | s in sups :: s in left <==> |sups[s]| < quotas[s])
    ensures var stus := g.stus[stu := [sup]]; forall s | s in stus :: |stus[s]| == 1
  {
  }

  lemma OneMoreEach(students: set<Stu>, studentsLeft: set<Stu>, done: set<Sup>, sup: Sup, stu: Stu)
    requires stu in studentsLeft && sup !in done && |studentsLeft| == |students| - |done|
    ensures |studentsLeft - {stu}| == |students| - |done + {sup}|
  {
  }

  /** A first-loop step adds a new supervisor key and a new student key, as `addEdge` would. */
  lemma FirstLoopConsistent(g: Graph, sup: Sup, stu: Stu)
    requires Consistent(g) && sup !in g.sups && stu !in g.stus
    ensures Consistent(Graph(g.sups[sup := [stu]], g.stus[stu := [sup]]))
  {
    assert Graph(g.sups[sup := [stu]], g.stus[stu := [sup]]) == GraphModel.AddEdge(g, sup, stu) by {
      assert [] + [stu] == [stu] && [] + [sup] == [sup];
    }
    AddEdgeConsistent(g, sup, stu);
  }

  lemma FirstLoopDone(g: Graph, students: set<Stu>, quotas: map<Sup, int>, studentsLeft: set<Stu>, supervisorsLeft: set<Sup>, done: set<Sup>)
    requires FirstLoopInv(g, students, quotas, studentsLeft, supervisorsLeft, done) && done == quotas.Keys
    ensures |quotas| <= |students|
    ensures SecondLoopInv(g, students, quotas, studentsLeft, supervisorsLeft)
  {
  }

  lemma SecondLoopDone(g: Graph, students: set<Stu>, quotas: map<Sup, int>, supervisorsLeft: set<Sup>)
    requires SecondLoopInv(g, students, quotas, {}, supervisorsLeft) && Consistent(g)
    ensures RandomlyAllocated(g, students, quotas)
  {
  }

  lemma SecondLoopStep(g: Graph, students: set<Stu>, quotas: map<Sup, int>, studentsLeft: set<Stu>, supervisorsLeft: set<Sup>, sup: Sup, stu: Stu)
    requires SecondLoopInv(g, students, quotas, studentsLeft, supervisorsLeft)
    requires sup in supervisorsLeft && stu in studentsLeft
    ensures var next := Graph(g.sups[sup := g.sups[sup] + [stu]], g.stus[stu := [sup]]);
      SecondLoopInv(next, students, quotas, studentsLeft - {stu},
                    if |next.sups[sup]| >= quotas[sup] then supervisorsLeft - {sup} else supervisorsLeft)
  {
  }

  /** Placing a student uses one unit of room: the supervisor's, which it leaves when full. */
  lemma RoomStep(g: Graph, students: set<Stu>, quotas: map<Sup, int>, studentsLeft: set<Stu>, supervisorsLeft: set<Sup>, sup: Sup, stu: Stu)
    requires SecondLoopInv(g, students, quotas, studentsLeft, supervisorsLeft)
    requires sup in supervisorsLeft && stu in studentsLeft
    ensures var next := Graph(g.sups[sup := g.sups[sup] + [stu]], g.stus[stu := [sup]]);
      Total(Room(next, quotas, if |next.sups[sup]| >= quotas[sup] then supervisorsLeft - {sup} else supervisorsLeft)) ==
      Total(Room(g, quotas, supervisorsLeft)) - 1
  {
    var next := Graph(g.sups[sup := g.sups[sup] + [stu]], g.stus[stu := [sup]]);
    var room := Room(g, quotas, supervisorsLeft);
    assert Degree(next, sup) == Degree(g, sup) + 1;
    if |next.sups[sup]| >= quotas[sup] {
      assert Room(next, quotas, supervisorsLeft - {sup}) == room - {sup};
      TotalRemove(room, sup);
    } else {
      assert Room(next, quotas, supervisorsLeft) == room[sup := room[sup] - 1];
      TotalLower(room, sup);
    }
  }

  /** No supervisor left means no room left. */
  lemma NoRoomLeft(g: Graph, quotas: map<Sup, int>)
    ensures Total(Room(g, quotas, {})) == 0
  {
    assert Room(g, quotas, {}) == map[];
  }

  /** After the first loop the room left is the capacity beyond one student per supervisor. */
  lemma FirstLoopRoom(g: Graph, students: set<Stu>, quotas: map<Sup, int>, studentsLeft: set<Stu>, supervisorsLeft: set<Sup>)
    requires FirstLoopInv(g, students, quotas, studentsLeft, supervisorsLeft, quotas.Keys)
    ensures |studentsLeft| + Capacity(quotas) == |students| + Total(Room(g, quotas, supervisorsLeft))
  {
    var room := Room(g, quotas, supervisorsLeft);
    forall k | k in Caps(quotas) ensures Caps(quotas)[k] == 1 + (if k in room then room[k] else 0) {
      assert Degree(g, k) == 1;
    }
    TotalOnePlus(Caps(quotas), room);
    assert Caps(quotas).Keys == quotas.Keys;
  }

  /** What `createRandomGraph` builds holds every student and fits the capacity. */
  lemma AllocatedFits(g: Graph, students: set<Stu>, quotas: map<Sup, int>)
    requires RandomlyAllocated(g, students, quotas)
    ensures |quotas| <= |students| <= Capacity(quotas)
  {
    StudentsAtKeys(g, quotas.Keys);
    OneAtEach(Edges(g), quotas.Keys);
    assert Caps(quotas).Keys == quotas.Keys;
    EdgesBelowTotal(Caps(quotas), Edges(g));
  }

  /** A second-loop step appends a new student key to a supervisor, as `addEdge` would. */
  lemma SecondLoopConsistent(g: Graph, sup: Sup, stu: Stu)
    requires Consistent(g) && sup in g.sups && stu !in g.stus
    ensures Consistent(Graph(g.sups[sup := g.sups[sup] + [stu]], g.stus[stu := [sup]]))
  {
    assert Graph(g.sups[sup := g.sups[sup] + [stu]], g.stus[stu := [sup]]) == GraphModel.AddEdge(g, sup, stu) by {
      assert [] + [sup] == [sup];
    }
    AddEdgeConsistent(g, sup, stu);
  }

  // ---------------------------------------------------------------------------
  // Properties of merge and canLock

  /**
   * A graph in which every student has one or two candidate supervisors:
   * what merging two allocations over the same tables gives.
   */
  ghost predicate Candidates(g: Graph, students: set<Stu>, quotas: map<Sup, int>) {
    && Consistent(g)
    && g.sups.Keys == quotas.Keys && g.stus.Keys == students
    && (forall stu | stu in g.stus :: 1 <= |g.stus[stu]| <= 2)
  }

  /**
   * Merging two complete allocations over the same tables succeeds, and any
   * merge result gives each student its two parents' supervisors (one when
   * they agree).
   */
  lemma {:induction false} MergeOfAllocations(g1: Graph, g2: Graph, m: Graph, students: set<Stu>, quotas: map<Sup, int>)
    requires Allocation(g1, students, quotas) && Allocation(g2, students, quotas)
    requires MergedFrom(m, g1, g2)
    ensures MergeOk(g1, g2)
    ensures Candidates(m, students, quotas)
    ensures forall stu | stu in m.stus :: forall sup | sup in m.stus[stu] :: sup == g1.stus[stu][0] || sup == g2.stus[stu][0]
  {
    forall stu | stu in m.stus
      ensures forall sup | sup in m.stus[stu] :: sup == g1.stus[stu][0] || sup == g2.stus[stu][0]
    {
      forall sup | sup in m.stus[stu] ensures sup == g1.stus[stu][0] || sup == g2.stus[stu][0] {
        MergedParent(g1, g2, m, sup, stu);
      }
    }
    forall stu | stu in m.stus ensures 1 <= |m.stus[stu]| <= 2 {
      assert g1.stus[stu] <= m.stus[stu];
      NoDupOfTwo(m.stus[stu], g1.stus[stu][0], g2.stus[stu][0]);
    }
  }

  /** A supervisor of a student in the merge is one of its two parents' supervisors. */
  lemma MergedParent(g1: Graph, g2: Graph, m: Graph, sup: Sup, stu: Stu)
    requires Consistent(g1) && Consistent(g2) && Consistent(m)
    requires Edges(m) == Edges(g1) + Needed(g1, g2)
    requires stu in g1.stus && |g1.stus[stu]| == 1 && stu in g2.stus && |g2.stus[stu]| == 1
    requires stu in m.stus && sup in m.stus[stu]
    ensures sup == g1.stus[stu][0] || sup == g2.stus[stu][0]
  {
    assert (sup, stu) in Edges(m);
    if (sup, stu) in Edges(g1) {
      assert sup in g1.stus[stu];
    } else {
      assert sup in g2.stus[stu];
    }
  }

  /** A list without repeats drawn from two values has at most two elements. */
  lemma NoDupOfTwo<T>(l: seq<T>, a: T, b: T)
    requires NoDup(l) && forall x | x in l :: x == a || x == b
    ensures |l| <= 2
  {
    NoDupCard(l);
    var s := set x | x in l;
    assert s <= {a, b};
    assert |s| <= |{a, b}| by {
      assert s + ({a, b} - s) == {a, b};
    }
  }

  /**
   * `canLock` for a student with two candidates that is not locked yet:
   * locking it to `sup` is allowed exactly when the other candidate keeps at
   * least as many unlocked students as it still needs.
   */
  lemma CanLockKeepsOtherFeasible(g: BipartiteGraph, sup: Sup, stu: Stu, structure: map<Sup, int>, counts: map<Sup, int>, locked: set<Stu>)
    requires Consistent(g.Value()) && stu in g.edgesStu && |g.edgesStu[stu]| == 2 && sup in g.edgesStu[stu]
    requires stu !in locked && g.CanLockDefined(sup, stu, structure, counts)
    ensures var other := FirstOther(g.edgesStu[stu], sup).value;
      g.CanLock(sup, stu, structure, counts, locked) <==>
        structure[other] - counts[other] <= |(set s | s in g.edges[other] && s !in locked) - {stu}|
  {
    var other := FirstOther(g.edgesStu[stu], sup).value;
    var avail := set s | s in g.edges[other] && s !in locked;
    assert (set s | s in g.edges[other]) - locked == avail;
    assert stu in avail;
    assert |avail - {stu}| == |avail| - 1;
  }
}
