/**
 * The quota repair `fixSolution` of `crossover/crossover.py`. Random
 * choices are arbitrary choices (`:|`) and the supervisor table is the map
 * `quotas` from supervisor to quota.
 */
module Repair {
  import opened Outcomes
  import opened GraphModel
  import opened Bipartite
  import opened Counting

  // ---------------------------------------------------------------------------
  // fixSolution

  /** A consistent graph in which every student has exactly one supervisor. */
  ghost predicate OneEach(g: Graph) {
    Consistent(g) && forall stu | stu in g.stus :: |g.stus[stu]| == 1
  }

  /** One move of `fixSolution`: `removeEdge(from, stu)` then `addEdge(to, stu)`. */
  function Move(g: Graph, from: Sup, to: Sup, stu: Stu): Graph {
    AddEdge(RemoveEdge(g, from, stu).graph, to, stu)
  }

  /** The counter update of `fixSolution`: decrement, and delete the key on reaching zero. */
  function Decrement(m: map<Sup, int>, s: Sup): (r: map<Sup, int>)
    requires s in m
  {
    if m[s] - 1 == 0 then m - {s} else m[s := m[s] - 1]
  }

  /** The graph as `fixSolution` keeps it: students fixed, supervisors within the tables, no empty list. */
  ghost predicate Shape(g: Graph, students: set<Stu>, quotas: map<Sup, int>) {
    && OneEach(g) && g.stus.Keys == students && g.sups.Keys <= quotas.Keys
    && (forall s | s in g.sups :: |g.sups[s]| >= 1)
    && (forall s | s in quotas :: quotas[s] >= 1)
  }

  /** `can_give`: the supervisors with more than one student, and how many they can give. */
  ghost predicate GiveState(g: Graph, canGive: map<Sup, int>) {
    && (forall s :: s in canGive <==> s in g.sups && |g.sups[s]| > 1)
    && (forall s | s in canGive :: s in g.sups && canGive[s] == |g.sups[s]| - 1)
  }

  /** `has_reduce`: the supervisors over quota, and by how much. */
  ghost predicate ReduceState(g: Graph, quotas: map<Sup, int>, hasReduce: map<Sup, int>) {
    && (forall s :: s in hasReduce <==> s in g.sups && s in quotas && |g.sups[s]| > quotas[s])
    && (forall s | s in hasReduce :: s in g.sups && s in quotas && hasReduce[s] == |g.sups[s]| - quotas[s])
  }

  /** `can_get`: supervisors that can take at least one more student (an underestimate of their room). */
  ghost predicate GetState(g: Graph, quotas: map<Sup, int>, canGet: map<Sup, int>) {
    forall s | s in canGet :: s in quotas && 1 <= canGet[s] <= quotas[s] - Degree(g, s)
  }

  /**
   * `can_get` as the setup builds it: exactly the supervisors below quota,
   * each with its whole remaining room.
   */
  ghost predicate ExactGet(g: Graph, quotas: map<Sup, int>, canGet: map<Sup, int>) {
    && (forall s | s in canGet :: s in quotas && canGet[s] == quotas[s] - Degree(g, s))
    && (forall s | s in quotas :: s in canGet <==> Degree(g, s) < quotas[s])
  }

  /** `needs`: exactly the supervisors without a key, each still able to take its whole quota. */
  ghost predicate NeedState(g: Graph, quotas: map<Sup, int>, needs: set<Sup>, canGet: map<Sup, int>) {
    && (forall s :: s in needs <==> s in quotas && s !in g.sups)
    && (forall s | s in needs :: s in canGet && canGet[s] == quotas[s])
  }

  /**
   * `fixSolution`. The supervisor table is `quotas`. The first loop gives
   * every supervisor without students one student taken from an overfull
   * supervisor (or, when none is overfull, from one with two or more); the
   * second drains overfull supervisors into ones with room. A choice from
   * an empty collection raises IndexError.
   */
  method FixSolution(graph: BipartiteGraph, quotas: map<Sup, int>) returns (r: Result<()>)
    modifies graph
    requires Shape(graph.Value(), graph.edgesStu.Keys, quotas)
    ensures Shape(graph.Value(), old(graph.edgesStu.Keys), quotas)
    ensures r.Err? ==> r.error == PyError.IndexError
    ensures r.Ok? ==> Allocation(graph.Value(), old(graph.edgesStu.Keys), quotas)
    ensures Allocation(old(graph.Value()), old(graph.edgesStu.Keys), quotas) ==> r.Ok? && graph.Value() == old(graph.Value())
    ensures |quotas| <= |old(graph.edgesStu.Keys)| <= Total(quotas) ==> r.Ok?
  {
    ghost var students := graph.edgesStu.Keys;
    var needs, canGet, hasReduce, canGive := FixSetup(graph.Value(), quotas);
    if Allocation(graph.Value(), students, quotas) {
      NothingToFix(graph.Value(), students, quotas, needs, canGet, hasReduce);
    }
    var ok: bool;
    ok, canGet, hasReduce := GiveToNeedy(graph, students, quotas, needs, canGet, hasReduce, canGive);
    if ok {
      ok := DrainOverfull(graph, students, quotas, hasReduce, canGet);
    }
    if ok {
      AllocationAtEnd(graph.Value(), students, quotas);
      r := Ok(());
    } else {
      r := Err(PyError.IndexError);
    }
  }

  /**
   * The first `while` loop of `fixSolution`: each supervisor without
   * students gets one. `ok` is false where the choice of a giver raises
   * IndexError.
   */
  method GiveToNeedy(graph: BipartiteGraph, ghost students: set<Stu>, quotas: map<Sup, int>, needs: set<Sup>,
                     canGet: map<Sup, int>, hasReduce: map<Sup, int>, canGive: map<Sup, int>)
    returns (ok: bool, canGet': map<Sup, int>, hasReduce': map<Sup, int>)
    modifies graph
    requires Shape(graph.Value(), students, quotas)
    requires GiveState(graph.Value(), canGive) && ReduceState(graph.Value(), quotas, hasReduce)
    requires GetState(graph.Value(), quotas, canGet) && NeedState(graph.Value(), quotas, needs, canGet)
    requires ExactGet(graph.Value(), quotas, canGet)
    ensures Shape(graph.Value(), students, quotas)
    ensures |quotas| <= |students| ==> ok
    ensures ok && |hasReduce'| > 0 ==> ExactGet(graph.Value(), quotas, canGet')
    ensures ok ==> graph.Value().sups.Keys == quotas.Keys
    ensures ok ==> ReduceState(graph.Value(), quotas, hasReduce') && GetState(graph.Value(), quotas, canGet')
    ensures needs == {} ==> ok && graph.Value() == old(graph.Value()) && hasReduce' == hasReduce
  {
    var missing, give := needs, canGive;
    ok, canGet', hasReduce' := true, canGet, hasReduce;
    while missing != {}
      invariant Shape(graph.Value(), students, quotas)
      invariant GiveState(graph.Value(), give) && ReduceState(graph.Value(), quotas, hasReduce')
      invariant GetState(graph.Value(), quotas, canGet') && NeedState(graph.Value(), quotas, missing, canGet')
      invariant needs == {} ==> graph.Value() == old(graph.Value()) && hasReduce' == hasReduce
      invariant |hasReduce'| > 0 ==> ExactGet(graph.Value(), quotas, canGet')
      decreases missing
    {
      ok, missing, give, canGet', hasReduce' := GiveRound(graph, students, quotas, missing, canGet', hasReduce', give);
      if !ok {
        return;
      }
    }
    NoNeedsAllKeyed(graph.Value(), quotas, canGet');
  }

  /**
   * One round of the first loop: choose a supervisor in need and a giver.
   * `ok` is false, and nothing changes, where no giver is left.
   */
  method GiveRound(graph: BipartiteGraph, ghost students: set<Stu>, quotas: map<Sup, int>, needs: set<Sup>,
                   canGet: map<Sup, int>, hasReduce: map<Sup, int>, canGive: map<Sup, int>)
    returns (ok: bool, needs': set<Sup>, canGive': map<Sup, int>, canGet': map<Sup, int>, hasReduce': map<Sup, int>)
    modifies graph
    requires needs != {} && Shape(graph.Value(), students, quotas)
    requires GiveState(graph.Value(), canGive) && ReduceState(graph.Value(), quotas, hasReduce)
    requires GetState(graph.Value(), quotas, canGet) && NeedState(graph.Value(), quotas, needs, canGet)
    requires |hasReduce| > 0 ==> ExactGet(graph.Value(), quotas, canGet)
    ensures Shape(graph.Value(), students, quotas)
    ensures |quotas| <= |students| ==> ok
    ensures ok ==> needs' < needs
    ensures ok ==> GiveState(graph.Value(), canGive') && ReduceState(graph.Value(), quotas, hasReduce')
    ensures ok ==> GetState(graph.Value(), quotas, canGet') && NeedState(graph.Value(), quotas, needs', canGet')
    ensures ok && |hasReduce'| > 0 ==> ExactGet(graph.Value(), quotas, canGet')
    ensures !ok ==> canGet' == canGet && hasReduce' == hasReduce
  {
    var sup1 :| sup1 in needs;
    if |quotas| <= |students| {
      GiverExists(graph.Value(), students, quotas, needs, canGive);
    }
    var where := if |hasReduce| > 0 then hasReduce.Keys else canGive.Keys;
    if where == {} {
      return false, needs, canGive, canGet, hasReduce;
    }
    var sup2 :| sup2 in where;
    GiveOne(graph, students, quotas, needs, canGet, hasReduce, canGive, sup1, sup2);
    canGive' := Decrement(canGive, sup2);
    hasReduce' := hasReduce;
    if sup2 in hasReduce {
      hasReduce' := Decrement(hasReduce, sup2);
    }
    needs' := needs - {sup1};
    canGet' := Decrement(canGet, sup1);
    ok := true;
  }

  /** The body of the first loop: move one student of `sup2` to `sup1`. */
  method GiveOne(graph: BipartiteGraph, ghost students: set<Stu>, quotas: map<Sup, int>, needs: set<Sup>,
                 canGet: map<Sup, int>, hasReduce: map<Sup, int>, canGive: map<Sup, int>, sup1: Sup, sup2: Sup)
    modifies graph
    requires Shape(graph.Value(), students, quotas)
    requires GiveState(graph.Value(), canGive) && ReduceState(graph.Value(), quotas, hasReduce)
    requires GetState(graph.Value(), quotas, canGet) && NeedState(graph.Value(), quotas, needs, canGet)
    requires sup1 in needs && sup2 in (if |hasReduce| > 0 then hasReduce.Keys else canGive.Keys)
    ensures sup1 in canGet && sup2 in canGive
    ensures Shape(graph.Value(), students, quotas)
    ensures GiveState(graph.Value(), Decrement(canGive, sup2))
    ensures ReduceState(graph.Value(), quotas, if sup2 in hasReduce then Decrement(hasReduce, sup2) else hasReduce)
    ensures GetState(graph.Value(), quotas, Decrement(canGet, sup1))
    ensures NeedState(graph.Value(), quotas, needs - {sup1}, Decrement(canGet, sup1))
    ensures |hasReduce| > 0 && ExactGet(old(graph.Value()), quotas, canGet) ==>
      ExactGet(graph.Value(), quotas, Decrement(canGet, sup1))
  {
    ghost var g := graph.Value();
    GiverHasTwo(g, students, quotas, hasReduce, canGive, sup2);
    assert g.sups[sup2][0] in g.sups[sup2];
    var toTransfer :| toTransfer in graph.edges[sup2];
    var _ := graph.RemoveEdge(sup2, toTransfer);
    graph.AddEdge(sup1, toTransfer);
    MoveFacts(g, sup2, sup1, toTransfer);
    NeedStep(g, graph.Value(), students, quotas, needs, canGet, hasReduce, canGive, sup1, sup2);
    if |hasReduce| > 0 && ExactGet(g, quotas, canGet) {
      assert sup2 in hasReduce.Keys;
      ExactStep(g, graph.Value(), quotas, canGet, sup2, sup1);
    }
  }

  /**
   * The second `while` loop of `fixSolution`: overfull supervisors give
   * students to ones with room. `ok` is false where the choice of a taker
   * raises IndexError.
   */
  method DrainOverfull(graph: BipartiteGraph, ghost students: set<Stu>, quotas: map<Sup, int>,
                       hasReduce: map<Sup, int>, canGet: map<Sup, int>)
    returns (ok: bool)
    modifies graph
    requires Shape(graph.Value(), students, quotas) && graph.Value().sups.Keys == quotas.Keys
    requires ReduceState(graph.Value(), quotas, hasReduce) && GetState(graph.Value(), quotas, canGet)
    requires |hasReduce| > 0 ==> ExactGet(graph.Value(), quotas, canGet)
    ensures Shape(graph.Value(), students, quotas) && graph.Value().sups.Keys == quotas.Keys
    ensures |students| <= Total(quotas) ==> ok
    ensures ok ==> ReduceState(graph.Value(), quotas, map[])
    ensures hasReduce == map[] ==> ok && graph.Value() == old(graph.Value())
  {
    var over, room := hasReduce, canGet;
    while |over| > 0
      invariant Shape(graph.Value(), students, quotas) && graph.Value().sups.Keys == quotas.Keys
      invariant ReduceState(graph.Value(), quotas, over) && GetState(graph.Value(), quotas, room)
      invariant hasReduce == map[] ==> over == map[] && graph.Value() == old(graph.Value())
      invariant |over| > 0 ==> ExactGet(graph.Value(), quotas, room)
      decreases Slots(over)
    {
      ok, over, room := DrainRound(graph, students, quotas, over, room);
      if !ok {
        return;
      }
    }
    assert over == map[];
    ok := true;
  }

  /**
   * One round of the second loop: choose an overfull supervisor and a
   * taker. `ok` is false, and nothing changes, where no taker is left.
   */
  method DrainRound(graph: BipartiteGraph, ghost students: set<Stu>, quotas: map<Sup, int>,
                    hasReduce: map<Sup, int>, canGet: map<Sup, int>)
    returns (ok: bool, hasReduce': map<Sup, int>, canGet': map<Sup, int>)
    modifies graph
    requires Shape(graph.Value(), students, quotas) && graph.Value().sups.Keys == quotas.Keys
    requires ReduceState(graph.Value(), quotas, hasReduce) && GetState(graph.Value(), quotas, canGet)
    requires |hasReduce| > 0 && ExactGet(graph.Value(), quotas, canGet)
    ensures Shape(graph.Value(), students, quotas) && graph.Value().sups.Keys == quotas.Keys
    ensures |students| <= Total(quotas) ==> ok
    ensures ok ==> Slots(hasReduce') < Slots(hasReduce)
    ensures ok ==> ReduceState(graph.Value(), quotas, hasReduce') && GetState(graph.Value(), quotas, canGet')
    ensures ok && |hasReduce'| > 0 ==> ExactGet(graph.Value(), quotas, canGet')
  {
    var sup1 :| sup1 in hasReduce;
    if |students| <= Total(quotas) {
      TakerExists(graph.Value(), students, quotas, hasReduce, canGet);
    }
    if canGet == map[] {
      return false, hasReduce, canGet;
    }
    var sup2 :| sup2 in canGet;
    DrainOne(graph, students, quotas, hasReduce, canGet, sup1, sup2);
    SlotsShrink(hasReduce, sup1);
    ok, hasReduce', canGet' := true, Decrement(hasReduce, sup1), Decrement(canGet, sup2);
  }

  /** The body of the second loop: move one student of `sup1` to `sup2`. */
  method DrainOne(graph: BipartiteGraph, ghost students: set<Stu>, quotas: map<Sup, int>,
                  hasReduce: map<Sup, int>, canGet: map<Sup, int>, sup1: Sup, sup2: Sup)
    modifies graph
    requires Shape(graph.Value(), students, quotas) && graph.Value().sups.Keys == quotas.Keys
    requires ReduceState(graph.Value(), quotas, hasReduce) && GetState(graph.Value(), quotas, canGet)
    requires sup1 in hasReduce && sup2 in canGet
    ensures Shape(graph.Value(), students, quotas) && graph.Value().sups.Keys == quotas.Keys
    ensures ReduceState(graph.Value(), quotas, Decrement(hasReduce, sup1))
    ensures GetState(graph.Value(), quotas, Decrement(canGet, sup2))
    ensures ExactGet(old(graph.Value()), quotas, canGet) ==> ExactGet(graph.Value(), quotas, Decrement(canGet, sup2))
  {
    ghost var g := graph.Value();
    DrainPair(g, students, quotas, hasReduce, canGet, sup1, sup2);
    assert g.sups[sup1][0] in g.sups[sup1];
    var toTransfer :| toTransfer in graph.edges[sup1];
    var _ := graph.RemoveEdge(sup1, toTransfer);
    graph.AddEdge(sup2, toTransfer);
    MoveFacts(g, sup1, sup2, toTransfer);
    ReduceStep(g, graph.Value(), students, quotas, hasReduce, canGet, sup1, sup2);
    if ExactGet(g, quotas, canGet) {
      ExactStep(g, graph.Value(), quotas, canGet, sup1, sup2);
    }
  }

  lemma NoNeedsAllKeyed(g: Graph, quotas: map<Sup, int>, canGet: map<Sup, int>)
    requires g.sups.Keys <= quotas.Keys && NeedState(g, quotas, {}, canGet)
    ensures g.sups.Keys == quotas.Keys
  {
  }

  /**
   * The first loop of `fixSolution`, over the supervisor table (its order
   * does not affect the four collections it builds).
   */
  method FixSetup(g: Graph, quotas: map<Sup, int>)
    returns (needs: set<Sup>, canGet: map<Sup, int>, hasReduce: map<Sup, int>, canGive: map<Sup, int>)
    requires g.sups.Keys <= quotas.Keys && forall s | s in quotas :: quotas[s] >= 1
    ensures GiveState(g, canGive) && ReduceState(g, quotas, hasReduce)
    ensures GetState(g, quotas, canGet) && NeedState(g, quotas, needs, canGet)
    ensures ExactGet(g, quotas, canGet)
  {
    needs, canGet, hasReduce, canGive := {}, map[], map[], map[];
    var todo := quotas.Keys;
    while todo != {}
      invariant todo <= quotas.Keys
      invariant SeenNeeds(g, quotas, quotas.Keys - todo, needs, canGet) && SeenGive(g, quotas.Keys - todo, canGive)
      invariant SeenReduce(g, quotas, quotas.Keys - todo, hasReduce) && SeenGet(g, quotas, quotas.Keys - todo, canGet)
      decreases todo
    {
      var supervisor :| supervisor in todo;
      needs, canGet, hasReduce, canGive := SetupOne(g, quotas, quotas.Keys - todo, supervisor, needs, canGet, hasReduce, canGive);
      assert quotas.Keys - (todo - {supervisor}) == (quotas.Keys - todo) + {supervisor};
      todo := todo - {supervisor};
    }
    SeenAll(g, quotas, needs, canGet, hasReduce, canGive);
  }

  /** The body of the first loop: record `supervisor` in the four collections. */
  method SetupOne(g: Graph, quotas: map<Sup, int>, ghost seen: set<Sup>, supervisor: Sup,
                  needs: set<Sup>, canGet: map<Sup, int>, hasReduce: map<Sup, int>, canGive: map<Sup, int>)
    returns (needs': set<Sup>, canGet': map<Sup, int>, hasReduce': map<Sup, int>, canGive': map<Sup, int>)
    requires supervisor in quotas && supervisor !in seen
    requires g.sups.Keys <= quotas.Keys && forall s | s in quotas :: quotas[s] >= 1
    requires SeenNeeds(g, quotas, seen, needs, canGet) && SeenGive(g, seen, canGive)
    requires SeenReduce(g, quotas, seen, hasReduce) && SeenGet(g, quotas, seen, canGet)
    ensures SeenNeeds(g, quotas, seen + {supervisor}, needs', canGet') && SeenGive(g, seen + {supervisor}, canGive')
    ensures SeenReduce(g, quotas, seen + {supervisor}, hasReduce') && SeenGet(g, quotas, seen + {supervisor}, canGet')
  {
    needs', canGet', hasReduce', canGive' := needs, canGet, hasReduce, canGive;
    SeenGetOne(g, quotas, seen, supervisor, canGet);
    if supervisor !in g.sups {
      needs' := needs + {supervisor};
      canGet' := canGet[supervisor := quotas[supervisor]];
    } else {
      var now := |g.sups[supervisor]|;
      var quota := quotas[supervisor];
      if now > 1 {
        canGive' := canGive[supervisor := now - 1];
      }
      if now > quota {
        hasReduce' := hasReduce[supervisor := now - quota];
      }
      if now < quota {
        canGet' := canGet[supervisor := quota - now];
      }
    }
  }

  /** `needs`, `can_give` and `has_reduce` restricted to the supervisors seen so far. */
  ghost predicate SeenNeeds(g: Graph, quotas: map<Sup, int>, seen: set<Sup>, needs: set<Sup>, canGet: map<Sup, int>) {
    && (forall s :: s in needs <==> s in seen && s !in g.sups)
    && (forall s | s in needs :: s in canGet && s in quotas && canGet[s] == quotas[s])
  }

  ghost predicate SeenGive(g: Graph, seen: set<Sup>, canGive: map<Sup, int>) {
    && (forall s :: s in canGive <==> s in seen && s in g.sups && |g.sups[s]| > 1)
    && (forall s | s in canGive :: s in g.sups && canGive[s] == |g.sups[s]| - 1)
  }

  ghost predicate SeenReduce(g: Graph, quotas: map<Sup, int>, seen: set<Sup>, hasReduce: map<Sup, int>) {
    && (forall s :: s in hasReduce <==> s in seen && s in g.sups && s in quotas && |g.sups[s]| > quotas[s])
    && (forall s | s in hasReduce :: s in g.sups && s in quotas && hasReduce[s] == |g.sups[s]| - quotas[s])
  }

  ghost predicate SeenGet(g: Graph, quotas: map<Sup, int>, seen: set<Sup>, canGet: map<Sup, int>) {
    && (forall s | s in canGet :: s in seen && s in quotas && canGet[s] == quotas[s] - Degree(g, s))
    && (forall s | s in seen && s in quotas :: s in canGet <==> Degree(g, s) < quotas[s])
  }

  lemma SeenGetOne(g: Graph, quotas: map<Sup, int>, seen: set<Sup>, supervisor: Sup, canGet: map<Sup, int>)
    requires supervisor in quotas && supervisor !in seen && SeenGet(g, quotas, seen, canGet)
    ensures var room := quotas[supervisor] - Degree(g, supervisor);
      SeenGet(g, quotas, seen + {supervisor}, if room > 0 then canGet[supervisor := room] else canGet)
  {
  }

  lemma SeenAll(g: Graph, quotas: map<Sup, int>, needs: set<Sup>, canGet: map<Sup, int>, hasReduce: map<Sup, int>, canGive: map<Sup, int>)
    requires g.sups.Keys <= quotas.Keys
    requires SeenNeeds(g, quotas, quotas.Keys, needs, canGet) && SeenGive(g, quotas.Keys, canGive)
    requires SeenReduce(g, quotas, quotas.Keys, hasReduce) && SeenGet(g, quotas, quotas.Keys, canGet)
    ensures GiveState(g, canGive) && ReduceState(g, quotas, hasReduce) && NeedState(g, quotas, needs, canGet)
    ensures ExactGet(g, quotas, canGet) && GetState(g, quotas, canGet)
  {
  }

  /** A complete allocation has nobody missing and nobody over quota. */
  lemma NothingToFix(g: Graph, students: set<Stu>, quotas: map<Sup, int>, needs: set<Sup>, canGet: map<Sup, int>, hasReduce: map<Sup, int>)
    requires Allocation(g, students, quotas)
    requires NeedState(g, quotas, needs, canGet) && ReduceState(g, quotas, hasReduce)
    ensures needs == {} && hasReduce == map[]
  {
    forall s ensures s !in needs && s !in hasReduce {
    }
    assert hasReduce.Keys == {};
  }

  /** The pairs (supervisor, i) below each `has_reduce` count: a set that every drain shrinks. */
  function Slots(m: map<Sup, int>): set<(Sup, int)> {
    set s, i | s in m && 0 <= i < m[s] :: (s, i)
  }

  lemma SlotsShrink(m: map<Sup, int>, s: Sup)
    requires s in m && m[s] >= 1
    ensures Slots(Decrement(m, s)) < Slots(m)
  {
    assert (s, m[s] - 1) in Slots(m);
  }

  /** `h` is `g` with one unit of degree shifted from `from` to `to`, and `to` keyed. */
  ghost predicate Shifted(g: Graph, h: Graph, from: Sup, to: Sup) {
    && h.sups.Keys == g.sups.Keys + {to} && h.stus.Keys == g.stus.Keys
    && Degree(h, from) == Degree(g, from) - 1 && Degree(h, to) == Degree(g, to) + 1
    && (forall s | s != from && s != to :: Degree(h, s) == Degree(g, s))
  }

  /** A move between two different supervisors keeps one supervisor per student and shifts one unit of degree. */
  lemma MoveFacts(g: Graph, from: Sup, to: Sup, stu: Stu)
    requires OneEach(g) && IsEdge(g, from, stu) && from != to
    ensures var h := Move(g, from, to, stu);
      OneEach(h) && h.stus[stu] == [to] && Shifted(g, h, from, to)
  {
    assert g.stus[stu] == [from] by { assert g.stus[stu][0] == from; }
    MoveOneEach(g, from, to, stu);
    MoveShifted(g, from, to, stu);
  }

  lemma {:induction false} MoveOneEach(g: Graph, from: Sup, to: Sup, stu: Stu)
    requires OneEach(g) && IsEdge(g, from, stu) && g.stus[stu] == [from]
    ensures var h := Move(g, from, to, stu);
      OneEach(h) && h.stus[stu] == [to]
  {
    RemoveStep(g, from, stu);
    RemoveEdgeConsistent(g, from, stu);
    var r := RemoveEdge(g, from, stu).graph;
    assert r.stus[stu] == [];
    AddEdgeDegrees(r, to, stu);
    AddEdgeConsistent(r, to, stu);
    assert [] + [to] == [to];
  }

  lemma {:induction false} MoveShifted(g: Graph, from: Sup, to: Sup, stu: Stu)
    requires IsEdge(g, from, stu) && g.stus[stu] == [from] && from != to
    ensures Shifted(g, Move(g, from, to, stu), from, to)
  {
    RemoveStep(g, from, stu);
    var r := RemoveEdge(g, from, stu).graph;
    assert r.stus[stu] == [];
    AddEdgeDegrees(r, to, stu);
  }

  /** The graph keeps its shape when the giver keeps a student and the taker is in the table. */
  lemma ShapeStep(g: Graph, h: Graph, students: set<Stu>, quotas: map<Sup, int>, from: Sup, to: Sup)
    requires Shape(g, students, quotas) && OneEach(h) && Shifted(g, h, from, to)
    requires from in g.sups && |g.sups[from]| >= 2 && to in quotas
    ensures Shape(h, students, quotas)
  {
    forall s | s in h.sups ensures |h.sups[s]| >= 1 {
      assert Degree(h, s) == |h.sups[s]|;
      if s != to {
        assert Degree(g, s) == |g.sups[s]|;
      }
    }
  }

  lemma GiveStep(g: Graph, h: Graph, canGive: map<Sup, int>, from: Sup, to: Sup)
    requires GiveState(g, canGive) && Shifted(g, h, from, to)
    requires from in canGive && to !in g.sups
    ensures GiveState(h, Decrement(canGive, from))
  {
    assert |h.sups[to]| == 1 by { assert Degree(h, to) == |h.sups[to]|; }
    forall s | s in g.sups && s != to ensures |h.sups[s]| == Degree(g, s) - (if s == from then 1 else 0) {
      assert Degree(h, s) == |h.sups[s]|;
    }
  }

  lemma {:induction false} ReduceStepFacts(g: Graph, h: Graph, quotas: map<Sup, int>, hasReduce: map<Sup, int>, from: Sup, to: Sup)
    requires ReduceState(g, quotas, hasReduce) && Shifted(g, h, from, to)
    requires from in g.sups && from != to && to in quotas && Degree(h, to) <= quotas[to]
    ensures ReduceState(h, quotas, if from in hasReduce then Decrement(hasReduce, from) else hasReduce)
  {
    forall s | s in h.sups ensures |h.sups[s]| == Degree(h, s) {
    }
    forall s | s in g.sups ensures |g.sups[s]| == Degree(g, s) {
    }
  }

  lemma GetStepFacts(g: Graph, h: Graph, quotas: map<Sup, int>, canGet: map<Sup, int>, from: Sup, to: Sup)
    requires GetState(g, quotas, canGet) && Shifted(g, h, from, to) && to in canGet
    ensures GetState(h, quotas, Decrement(canGet, to))
  {
  }

  lemma NeedStepFacts(g: Graph, h: Graph, quotas: map<Sup, int>, needs: set<Sup>, canGet: map<Sup, int>, from: Sup, to: Sup)
    requires NeedState(g, quotas, needs, canGet) && Shifted(g, h, from, to) && to in needs
    ensures NeedState(h, quotas, needs - {to}, Decrement(canGet, to))
  {
  }

  /** The bookkeeping of the first loop survives one move from `sup2` to `sup1`. */
  lemma NeedStep(g: Graph, h: Graph, students: set<Stu>, quotas: map<Sup, int>, needs: set<Sup>, canGet: map<Sup, int>,
                 hasReduce: map<Sup, int>, canGive: map<Sup, int>, sup1: Sup, sup2: Sup)
    requires Shape(g, students, quotas)
    requires GiveState(g, canGive) && ReduceState(g, quotas, hasReduce)
    requires GetState(g, quotas, canGet) && NeedState(g, quotas, needs, canGet)
    requires sup1 in needs && sup2 in canGive && |g.sups[sup2]| >= 2
    requires OneEach(h) && Shifted(g, h, sup2, sup1)
    ensures sup1 in canGet
    ensures Shape(h, students, quotas)
    ensures GiveState(h, Decrement(canGive, sup2))
    ensures ReduceState(h, quotas, if sup2 in hasReduce then Decrement(hasReduce, sup2) else hasReduce)
    ensures GetState(h, quotas, Decrement(canGet, sup1))
    ensures NeedState(h, quotas, needs - {sup1}, Decrement(canGet, sup1))
  {
    ShapeStep(g, h, students, quotas, sup2, sup1);
    GiveStep(g, h, canGive, sup2, sup1);
    ReduceStepFacts(g, h, quotas, hasReduce, sup2, sup1);
    GetStepFacts(g, h, quotas, canGet, sup2, sup1);
    NeedStepFacts(g, h, quotas, needs, canGet, sup2, sup1);
  }

  /** The giver chosen in the first loop has at least two students. */
  lemma GiverHasTwo(g: Graph, students: set<Stu>, quotas: map<Sup, int>, hasReduce: map<Sup, int>, canGive: map<Sup, int>, sup: Sup)
    requires Shape(g, students, quotas) && GiveState(g, canGive) && ReduceState(g, quotas, hasReduce)
    requires sup in (if |hasReduce| > 0 then hasReduce.Keys else canGive.Keys)
    ensures sup in g.sups && |g.sups[sup]| >= 2 && sup in canGive
  {
    if sup in hasReduce {
      assert |g.sups[sup]| > quotas[sup] >= 1;
    }
  }

  /** The bookkeeping of the second loop survives one move from `sup1` to `sup2`. */
  lemma ReduceStep(g: Graph, h: Graph, students: set<Stu>, quotas: map<Sup, int>, hasReduce: map<Sup, int>, canGet: map<Sup, int>,
                   sup1: Sup, sup2: Sup)
    requires Shape(g, students, quotas) && g.sups.Keys == quotas.Keys
    requires ReduceState(g, quotas, hasReduce) && GetState(g, quotas, canGet)
    requires sup1 in hasReduce && sup2 in canGet && sup1 != sup2 && |g.sups[sup1]| >= 2
    requires OneEach(h) && Shifted(g, h, sup1, sup2)
    ensures Shape(h, students, quotas) && h.sups.Keys == quotas.Keys
    ensures ReduceState(h, quotas, Decrement(hasReduce, sup1))
    ensures GetState(h, quotas, Decrement(canGet, sup2))
  {
    ShapeStep(g, h, students, quotas, sup1, sup2);
    ReduceStepFacts(g, h, quotas, hasReduce, sup1, sup2);
    GetStepFacts(g, h, quotas, canGet, sup1, sup2);
  }

  /** The giver and taker of the second loop differ, and the giver has two students or more. */
  lemma DrainPair(g: Graph, students: set<Stu>, quotas: map<Sup, int>, hasReduce: map<Sup, int>, canGet: map<Sup, int>,
                  sup1: Sup, sup2: Sup)
    requires Shape(g, students, quotas) && g.sups.Keys == quotas.Keys
    requires ReduceState(g, quotas, hasReduce) && GetState(g, quotas, canGet)
    requires sup1 in hasReduce && sup2 in canGet
    ensures sup1 != sup2 && sup1 in g.sups && |g.sups[sup1]| >= 2 && hasReduce[sup1] >= 1
  {
    assert Degree(g, sup2) < quotas[sup2];
    assert Degree(g, sup1) == |g.sups[sup1]| > quotas[sup1];
  }

  /**
   * A move out of an overfull supervisor into one with room keeps `can_get`
   * exact: the giver stays at or above its quota.
   */
  lemma ExactStep(g: Graph, h: Graph, quotas: map<Sup, int>, canGet: map<Sup, int>, from: Sup, to: Sup)
    requires ExactGet(g, quotas, canGet) && Shifted(g, h, from, to)
    requires to in canGet && from in quotas && Degree(g, from) > quotas[from] && from != to
    ensures ExactGet(h, quotas, Decrement(canGet, to))
  {
  }

  /**
   * The first loop never runs out of givers when there are at least as many
   * students as supervisors: with nobody holding two students, the keyed
   * supervisors, fewer than all of them, would hold every student.
   */
  lemma KeyedFewer(keyed: set<Sup>, all: set<Sup>, s: Sup)
    requires keyed <= all && s in all && s !in keyed
    ensures |keyed| < |all|
  {
    assert all == keyed + (all - keyed) && keyed !! (all - keyed);
    assert s in all - keyed;
  }

  lemma GiverExists(g: Graph, students: set<Stu>, quotas: map<Sup, int>, needs: set<Sup>, canGive: map<Sup, int>)
    requires Shape(g, students, quotas) && GiveState(g, canGive)
    requires (forall s :: s in needs <==> s in quotas && s !in g.sups) && needs != {}
    requires |quotas| <= |students|
    ensures canGive.Keys != {}
  {
    if canGive.Keys == {} {
      StudentsAtKeys(g, g.sups.Keys);
      forall k | k in g.sups.Keys ensures |At(Edges(g), k)| <= 1 {
        assert k !in canGive;
      }
      OneAtEach(Edges(g), g.sups.Keys);
      var s :| s in needs;
      KeyedFewer(g.sups.Keys, quotas.Keys, s);
      assert false;
    }
  }

  /**
   * The second loop never runs out of takers when the students fit the
   * total quota: with nobody below quota and somebody above, the students
   * would exceed it.
   */
  lemma TakerExists(g: Graph, students: set<Stu>, quotas: map<Sup, int>, hasReduce: map<Sup, int>, canGet: map<Sup, int>)
    requires Shape(g, students, quotas) && g.sups.Keys == quotas.Keys
    requires ReduceState(g, quotas, hasReduce) && ExactGet(g, quotas, canGet)
    requires |hasReduce| > 0 && |students| <= Total(quotas)
    ensures canGet != map[]
  {
    if canGet == map[] {
      StudentsAtKeys(g, quotas.Keys);
      var s :| s in hasReduce;
      TotalBelowEdges(quotas, Edges(g));
      assert false;
    }
  }

  /** With nobody missing and nobody over quota, the graph is a complete allocation. */
  lemma AllocationAtEnd(g: Graph, students: set<Stu>, quotas: map<Sup, int>)
    requires Shape(g, students, quotas) && g.sups.Keys == quotas.Keys && ReduceState(g, quotas, map[])
    ensures Allocation(g, students, quotas)
  {
    forall s | s in g.sups ensures 1 <= |g.sups[s]| <= quotas[s] {
      var none: map<Sup, int> := map[];
      assert s !in none;
    }
  }
}
