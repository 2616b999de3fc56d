/**
 * The structure-preserving `crossover` of `crossover/crossover.py`: the two
 * parents are merged, one parent's structure (its supervisor degrees) is
 * the target, and edges of the merge are locked into the child until each
 * supervisor reaches its target degree. First every student with a single
 * candidate is locked, until nothing changes; then random candidates are
 * locked round after round while `canLock` allows it; when a round locks
 * nothing, the supervisors still short of their target are filled with
 * random unlocked students.
 *
 * The random draws are parameters or `:|` choices: which structure is used,
 * the order of the supervisor keys, each `random.choice` and each
 * `random.sample`. On two complete allocations over the same tables, every
 * outcome of the draws gives a complete allocation with exactly the chosen
 * parent's structure, and no step raises.
 */
module Locking {
  import opened Outcomes
  import opened GraphModel
  import opened GraphOps
  import opened Bipartite
  import opened Counting

  // ---------------------------------------------------------------------------
  // The state of the locking loops

  /** The unlocked candidates of `sup` in the merged graph. */
  ghost function Avail(m: Graph, sup: Sup, locked: set<Stu>): set<Stu>
    requires sup in m.sups
  {
    set stu | stu in m.sups[sup] && stu !in locked
  }

  /**
   * The merged graph `m` as the loops shrink the merge `m0`: the same keys,
   * consistent, at most two candidates per student.
   */
  ghost predicate Shrunk(m0: Graph, m: Graph) {
    && Consistent(m) && m.sups.Keys == m0.sups.Keys && m.stus.Keys == m0.stus.Keys
    && (forall stu | stu in m.stus :: |m.stus[stu]| <= 2)
  }

  /**
   * The child `res` built so far: its students are exactly the locked ones,
   * each with one supervisor of the merge, and `counts` holds every
   * supervisor's degree in it.
   */
  ghost predicate Built(m0: Graph, res: Graph, counts: map<Sup, int>, locked: set<Stu>) {
    && Consistent(res) && res.stus.Keys == locked && locked <= m0.stus.Keys
    && (forall stu | stu in res.stus :: |res.stus[stu]| == 1)
    && res.sups.Keys <= m0.sups.Keys
    && counts.Keys == m0.sups.Keys
    && (forall k | k in counts :: counts[k] == Degree(res, k))
  }

  /**
   * No supervisor is past its target, and each has at least as many
   * unlocked candidates as it still needs.
   */
  ghost predicate Budget(structure: map<Sup, int>, m: Graph, counts: map<Sup, int>, locked: set<Stu>) {
    forall k | k in m.sups ::
      && k in counts && k in structure
      && counts[k] <= structure[k]
      && structure[k] - counts[k] <= |Avail(m, k, locked)|
  }

  /** What the loops keep, apart from `Settled`. */
  ghost predicate Tracked(m0: Graph, structure: map<Sup, int>, m: Graph, res: Graph, counts: map<Sup, int>, locked: set<Stu>) {
    && Shrunk(m0, m) && Built(m0, res, counts, locked)
    && structure.Keys == m0.sups.Keys
    && Budget(structure, m, counts, locked)
  }

  /** A supervisor at its target has no unlocked candidate left. */
  ghost predicate Settled(structure: map<Sup, int>, m: Graph, counts: map<Sup, int>, locked: set<Stu>, k: Sup) {
    && k in m.sups && k in counts && k in structure
    && (counts[k] == structure[k] ==> forall stu | stu in m.sups[k] :: stu in locked)
  }

  /** The invariant of both locking loops. */
  ghost predicate Locks(m0: Graph, structure: map<Sup, int>, m: Graph, res: Graph, counts: map<Sup, int>, locked: set<Stu>) {
    && Tracked(m0, structure, m, res, counts, locked)
    && forall k | k in m.sups :: Settled(structure, m, counts, locked, k)
  }

  /**
   * Locking `stu` to `sup` leaves every other candidate of `stu` at least
   * as many unlocked students as it still needs: what `canLock` checks.
   */
  ghost predicate Spare(structure: map<Sup, int>, counts: map<Sup, int>, m: Graph, locked: set<Stu>, sup: Sup, stu: Stu) {
    && stu in m.stus
    && forall k | k in m.stus[stu] && k != sup ::
         k in m.sups && k in structure && k in counts && structure[k] - counts[k] <= |Avail(m, k, locked) - {stu}|
  }

  // ---------------------------------------------------------------------------
  // Dropping the remaining edges of a supervisor at its target

  /** `l` without the students of `gone`, in order. */
  function Without(l: seq<Stu>, gone: set<Stu>): (r: seq<Stu>)
    ensures |r| <= |l|
  {
    if l == [] then []
    else (if l[0] in gone then [] else [l[0]]) + Without(l[1..], gone)
  }

  /**
   * `g1` is the merged graph `g` once `sup` has lost its edges to the
   * students of `gone`: its list without them, and each of them without
   * `sup`.
   */
  ghost predicate Dropped(g: Graph, g1: Graph, sup: Sup, gone: set<Stu>) {
    && sup in g.sups
    && g1.sups == g.sups[sup := Without(g.sups[sup], gone)]
    && g1.stus.Keys == g.stus.Keys
    && (forall s | s in gone :: s in g.stus && sup in g.stus[s])
    && (forall s | s in g.stus :: g1.stus[s] == if s in gone then RemoveFirst(g.stus[s], sup) else g.stus[s])
  }

  /** The filtered list holds exactly the students of `l` outside `gone`. */
  lemma {:induction false} WithoutMembers(l: seq<Stu>, gone: set<Stu>)
    ensures forall x :: x in Without(l, gone) <==> x in l && x !in gone
  {
    if l != [] {
      WithoutMembers(l[1..], gone);
      assert l == [l[0]] + l[1..];
    }
  }

  /** Filtering out a student the list does not hold changes nothing. */
  lemma {:induction false} WithoutAbsent(l: seq<Stu>, gone: set<Stu>, x: Stu)
    requires x !in l
    ensures Without(l, gone + {x}) == Without(l, gone)
  {
    if l != [] {
      WithoutAbsent(l[1..], gone, x);
    }
  }

  /** Removing one more student from the filtered list is filtering it out too. */
  lemma {:induction false} WithoutRemove(l: seq<Stu>, gone: set<Stu>, x: Stu)
    requires NoDup(l) && x in l && x !in gone
    ensures x in Without(l, gone)
    ensures RemoveFirst(Without(l, gone), x) == Without(l, gone + {x})
  {
    var w := Without(l[1..], gone);
    var w1 := Without(l[1..], gone + {x});
    if l[0] == x {
      assert x !in l[1..];
      WithoutAbsent(l[1..], gone, x);
      assert Without(l, gone) == [x] + w;
      assert Without(l, gone + {x}) == [] + w1;
      assert ([x] + w)[1..] == w;
      assert [] + w1 == w1 == w;
      assert RemoveFirst(Without(l, gone), x) == w;
    } else {
      assert x in l[1..];
      WithoutRemove(l[1..], gone, x);
      assert RemoveFirst(w, x) == w1;
      if l[0] in gone {
        assert Without(l, gone) == [] + w;
        assert Without(l, gone + {x}) == [] + w1;
        assert [] + w1 == w1 && [] + w == w;
      } else {
        var s := [l[0]] + w;
        assert Without(l, gone) == s;
        assert Without(l, gone + {x}) == [l[0]] + w1;
        assert s[0] == l[0] && s[1..] == w;
        assert RemoveFirst(s, x) == [l[0]] + RemoveFirst(w, x);
      }
    }
  }

  /** One more removal of the drop loop. */
  lemma DropOne(g: Graph, h: Graph, sup: Sup, done: set<Stu>, i: Stu)
    requires Dropped(g, h, sup, done) && NoDup(g.sups[sup]) && i in g.sups[sup]
    requires i in g.stus && sup in g.stus[i] && i !in done
    ensures IsEdge(h, sup, i)
    ensures Dropped(g, RemoveEdge(h, sup, i).graph, sup, done + {i})
  {
    WithoutRemove(g.sups[sup], done, i);
    assert h.stus[i] == g.stus[i];
    RemoveAt(g.sups, h, sup, i, Without(g.sups[sup], done), Without(g.sups[sup], done + {i}));
    DropOneStudents(g, h, sup, done, i);
  }

  /** `removeEdge` of an edge on both sides: the new lists of `sup` and of the student. */
  lemma RemoveAt(sups: map<Sup, seq<Stu>>, h: Graph, sup: Sup, i: Stu, before: seq<Stu>, after: seq<Stu>)
    requires h.sups == sups[sup := before] && i in before && RemoveFirst(before, i) == after
    requires i in h.stus && sup in h.stus[i]
    ensures RemoveEdge(h, sup, i).graph == Graph(sups[sup := after], h.stus[i := RemoveFirst(h.stus[i], sup)])
  {
  }

  /** One more dropped student: its list loses `sup`, and every other student list is as before. */
  lemma DropOneStudents(g: Graph, h: Graph, sup: Sup, done: set<Stu>, i: Stu)
    requires h.stus.Keys == g.stus.Keys && i in g.stus && sup in g.stus[i] && i !in done
    requires forall s | s in done :: s in g.stus && sup in g.stus[s]
    requires forall s | s in g.stus :: h.stus[s] == if s in done then RemoveFirst(g.stus[s], sup) else g.stus[s]
    ensures var r := h.stus[i := RemoveFirst(h.stus[i], sup)];
      forall s | s in g.stus :: r[s] == if s in done + {i} then RemoveFirst(g.stus[s], sup) else g.stus[s]
  {
  }

  /**
   * The `for i in toRemove: removeEdge(sup, i)` loop once `sup` has reached
   * its target: the edges of `sup` to students outside `toKeep` are dropped,
   * in any order, and none of the removals fails.
   */
  method DropRemaining(merged: BipartiteGraph, sup: Sup, toKeep: seq<Stu>)
    requires Consistent(merged.Value()) && sup in merged.edges
    modifies merged
    ensures Consistent(merged.Value())
    ensures Dropped(old(merged.Value()), merged.Value(), sup, old(merged.GetRemainingStu(sup, toKeep)))
  {
    ghost var g := merged.Value();
    var toRemove := merged.GetRemainingStu(sup, toKeep);
    assert forall s | s in toRemove :: s in g.stus && sup in g.stus[s];
    var left := toRemove;
    ghost var done: set<Stu> := {};
    WithoutNone(g.sups[sup]);
    assert Dropped(g, g, sup, done);
    while left != {}
      invariant left !! done && left + done == toRemove
      invariant Consistent(merged.Value())
      invariant Dropped(g, merged.Value(), sup, done)
      decreases left
    {
      var i :| i in left;
      assert i in g.sups[sup];
      ghost var h := merged.Value();
      DropOne(g, h, sup, done, i);
      RemoveEdgeConsistent(h, sup, i);
      MoveOne(left, done, i);
      var status := merged.RemoveEdge(sup, i);
      assert status == Done;
      left := left - {i};
      done := done + {i};
    }
    assert done == toRemove;
  }

  /** Filtering out nobody gives the list back. */
  lemma {:induction false} WithoutNone(l: seq<Stu>)
    ensures Without(l, {}) == l
  {
    if l != [] {
      WithoutNone(l[1..]);
      assert l == [l[0]] + l[1..];
    }
  }

  // ---------------------------------------------------------------------------
  // Locking one edge

  /** Same students in two lists without repeats: same length. */
  lemma SameLength(l1: seq<Stu>, l2: seq<Stu>)
    requires NoDup(l1) && NoDup(l2) && SetOf(l1) == SetOf(l2)
    ensures |l1| == |l2|
  {
    NoDupCard(l1);
    NoDupCard(l2);
  }

  /**
   * `removeExcept(sup, stu)` on the merged graph: it succeeds, `stu` keeps
   * `sup` only, and every supervisor loses `stu` from its unlocked
   * candidates and nothing else.
   */
  lemma LockGraph(m: Graph, sup: Sup, stu: Stu, locked: set<Stu>)
    requires Consistent(m) && sup in m.sups && stu in m.sups[sup]
    requires forall s | s in m.stus :: |m.stus[s]| <= 2
    ensures var m1 := RemoveExceptFrom(m, sup, stu, 0);
      && m1.status == Done && Consistent(m1.graph)
      && (forall s | s in m1.graph.stus :: |m1.graph.stus[s]| <= 2)
      && (forall k | k in m.sups :: Avail(m1.graph, k, locked + {stu}) == Avail(m, k, locked) - {stu})
      && (forall k | k in m.sups :: forall x | x in m1.graph.sups[k] :: x in m.sups[k])
      && |m1.graph.sups[sup]| == |m.sups[sup]|
  {
    RemoveExceptSpec(m, sup, stu);
    var m1 := RemoveExceptFrom(m, sup, stu, 0).graph;
    forall k | k in m.sups ensures forall x | x in m1.sups[k] :: x in m.sups[k] {
      forall x | x in m1.sups[k] ensures x in m.sups[k] {
        assert (k, x) in Edges(m1);
      }
    }
    forall k | k in m.sups ensures Avail(m1, k, locked + {stu}) == Avail(m, k, locked) - {stu} {
      forall x | x in Avail(m, k, locked) - {stu} ensures x in Avail(m1, k, locked + {stu}) {
        assert (k, x) in Edges(m);
        assert (k, x) in Edges(m1);
      }
    }
    forall x ensures x in m1.sups[sup] <==> x in m.sups[sup] {
      if x in m.sups[sup] {
        assert (sup, x) in Edges(m);
        assert (sup, x) in Edges(m1);
      }
    }
    SameLength(m1.sups[sup], m.sups[sup]);
  }

  /** `result.addEdge(sup, stu)` for an unlocked student: one more student, with one supervisor. */
  lemma LockChild(res: Graph, sup: Sup, stu: Stu, locked: set<Stu>)
    requires Consistent(res) && res.stus.Keys == locked && stu !in locked
    requires forall s | s in res.stus :: |res.stus[s]| == 1
    ensures var res1 := AddEdge(res, sup, stu);
      && Consistent(res1) && res1.stus.Keys == locked + {stu}
      && (forall s | s in res1.stus :: |res1.stus[s]| == 1)
      && res1.sups.Keys == res.sups.Keys + {sup}
      && (forall k :: Degree(res1, k) == Degree(res, k) + if k == sup then 1 else 0)
  {
    AddEdgeConsistent(res, sup, stu);
    AddEdgeDegrees(res, sup, stu);
    assert [] + [sup] == [sup];
  }

  /**
   * Locking an unlocked candidate `stu` of `sup` that `Spare` allows keeps
   * the loop state, one more student locked and one more count for `sup`;
   * only `sup` may be left unsettled, and its list keeps its length.
   */
  lemma LockStep(m0: Graph, structure: map<Sup, int>, m: Graph, res: Graph, counts: map<Sup, int>, locked: set<Stu>, sup: Sup, stu: Stu)
    requires Locks(m0, structure, m, res, counts, locked)
    requires sup in m.sups && stu in m.sups[sup] && stu !in locked
    requires Spare(structure, counts, m, locked, sup, stu)
    ensures var m1 := RemoveExceptFrom(m, sup, stu, 0);
      && m1.status == Done
      && |m1.graph.sups[sup]| == |m.sups[sup]|
      && var counts1 := counts[sup := counts[sup] + 1];
      && Tracked(m0, structure, m1.graph, AddEdge(res, sup, stu), counts1, locked + {stu})
      && forall k | k in m1.graph.sups && k != sup :: Settled(structure, m1.graph, counts1, locked + {stu}, k)
  {
    LockGraph(m, sup, stu, locked);
    var m1 := RemoveExceptFrom(m, sup, stu, 0).graph;
    assert Shrunk(m0, m1);
    LockBuilt(m0, res, counts, locked, sup, stu);
    assert Settled(structure, m, counts, locked, sup);
    forall k | k in m.sups && k != sup && stu in m.sups[k]
      ensures structure[k] - counts[k] <= |Avail(m, k, locked) - {stu}|
    {
      assert k in m.stus[stu];
    }
    LockBudget(structure, m, m1, counts, locked, sup, stu);
    LockSettles(structure, m, m1, counts, locked, sup, stu);
  }

  /** Locking an unlocked student adds one edge to the child and one to the count of `sup`. */
  lemma LockBuilt(m0: Graph, res: Graph, counts: map<Sup, int>, locked: set<Stu>, sup: Sup, stu: Stu)
    requires Built(m0, res, counts, locked) && sup in m0.sups && stu in m0.stus && stu !in locked
    ensures Built(m0, AddEdge(res, sup, stu), counts[sup := counts[sup] + 1], locked + {stu})
  {
    LockChild(res, sup, stu, locked);
  }

  /** Locking keeps every other supervisor settled, as candidate lists only shrink. */
  lemma LockSettles(structure: map<Sup, int>, m: Graph, m1: Graph, counts: map<Sup, int>, locked: set<Stu>, sup: Sup, stu: Stu)
    requires forall k | k in m.sups :: Settled(structure, m, counts, locked, k)
    requires m1.sups.Keys == m.sups.Keys && sup in counts
    requires forall k | k in m.sups :: forall x | x in m1.sups[k] :: x in m.sups[k]
    ensures forall k | k in m1.sups && k != sup :: Settled(structure, m1, counts[sup := counts[sup] + 1], locked + {stu}, k)
  {
    forall k | k in m1.sups && k != sup ensures Settled(structure, m1, counts[sup := counts[sup] + 1], locked + {stu}, k) {
      assert Settled(structure, m, counts, locked, k);
    }
  }

  /** Locking a candidate of `sup` below its target keeps every budget. */
  lemma {:induction false} LockBudget(structure: map<Sup, int>, m: Graph, m1: Graph, counts: map<Sup, int>, locked: set<Stu>, sup: Sup, stu: Stu)
    requires Budget(structure, m, counts, locked)
    requires m1.sups.Keys == m.sups.Keys && sup in m.sups && stu in m.sups[sup] && stu !in locked
    requires counts[sup] < structure[sup]
    requires forall k | k in m.sups :: Avail(m1, k, locked + {stu}) == Avail(m, k, locked) - {stu}
    requires forall k | k in m.sups && k != sup && stu in m.sups[k] :: structure[k] - counts[k] <= |Avail(m, k, locked) - {stu}|
    ensures Budget(structure, m1, counts[sup := counts[sup] + 1], locked + {stu})
  {
    forall k | k in m1.sups
      ensures structure[k] - counts[sup := counts[sup] + 1][k] <= |Avail(m1, k, locked + {stu})|
    {
      OneLessAvail(Avail(m, k, locked), stu);
    }
  }

  /** Taking one student out of a set. */
  lemma OneLessAvail(avail: set<Stu>, stu: Stu)
    ensures |avail - {stu}| == if stu in avail then |avail| - 1 else |avail|
  {
    if stu !in avail {
      assert avail - {stu} == avail;
    }
  }

  /**
   * Dropping the remaining candidates of `sup` once it is at its target
   * settles it: every student left in its list is locked with it.
   */
  lemma {:induction false} DropStep(m0: Graph, structure: map<Sup, int>, m1: Graph, m2: Graph, res1: Graph, counts1: map<Sup, int>, locked1: set<Stu>, sup: Sup)
    requires Tracked(m0, structure, m1, res1, counts1, locked1)
    requires forall k | k in m1.sups && k != sup :: Settled(structure, m1, counts1, locked1, k)
    requires sup in m1.sups && counts1[sup] == structure[sup] && sup in res1.sups
    requires Consistent(m2) && Dropped(m1, m2, sup, SetOf(m1.sups[sup]) - SetOf(res1.sups[sup]))
    ensures Locks(m0, structure, m2, res1, counts1, locked1)
    ensures |m2.sups[sup]| <= |m1.sups[sup]|
  {
    var gone := SetOf(m1.sups[sup]) - SetOf(res1.sups[sup]);
    DropShrunk(m0, m1, m2, sup, gone);
    DropBudget(structure, m1, m2, counts1, locked1, sup);
    DropKeepsSettled(structure, m1, m2, counts1, locked1, sup);
    DropSettles(m1, m2, res1, locked1, sup, gone);
  }

  /** Dropping edges keeps the merged graph shrunk from the merge. */
  lemma DropShrunk(m0: Graph, m1: Graph, m2: Graph, sup: Sup, gone: set<Stu>)
    requires Shrunk(m0, m1) && Consistent(m2) && Dropped(m1, m2, sup, gone)
    ensures Shrunk(m0, m2)
  {
    forall s | s in m2.stus ensures |m2.stus[s]| <= 2 {
      assert |m2.stus[s]| <= |m1.stus[s]|;
    }
  }

  /** Dropping edges of a supervisor at its target keeps every budget. */
  lemma DropBudget(structure: map<Sup, int>, m1: Graph, m2: Graph, counts1: map<Sup, int>, locked1: set<Stu>, sup: Sup)
    requires Budget(structure, m1, counts1, locked1) && sup in m1.sups && counts1[sup] == structure[sup]
    requires m2.sups.Keys == m1.sups.Keys && forall k | k in m1.sups && k != sup :: m2.sups[k] == m1.sups[k]
    ensures Budget(structure, m2, counts1, locked1)
  {
    forall k | k in m2.sups && k != sup
      ensures structure[k] - counts1[k] <= |Avail(m2, k, locked1)|
    {
      assert Avail(m2, k, locked1) == Avail(m1, k, locked1);
    }
  }

  /** Dropping edges of `sup` leaves the other supervisors as settled as they were. */
  lemma DropKeepsSettled(structure: map<Sup, int>, m1: Graph, m2: Graph, counts1: map<Sup, int>, locked1: set<Stu>, sup: Sup)
    requires forall k | k in m1.sups && k != sup :: Settled(structure, m1, counts1, locked1, k)
    requires m2.sups.Keys == m1.sups.Keys && forall k | k in m1.sups && k != sup :: m2.sups[k] == m1.sups[k]
    ensures forall k | k in m2.sups && k != sup :: Settled(structure, m2, counts1, locked1, k)
  {
    forall k | k in m2.sups && k != sup ensures Settled(structure, m2, counts1, locked1, k) {
      assert Settled(structure, m1, counts1, locked1, k);
    }
  }

  /** After the drop, every candidate left to `sup` is locked. */
  lemma DropSettles(m1: Graph, m2: Graph, res1: Graph, locked1: set<Stu>, sup: Sup, gone: set<Stu>)
    requires sup in m1.sups && sup in res1.sups && SupsLinked(res1) && res1.stus.Keys == locked1
    requires gone == SetOf(m1.sups[sup]) - SetOf(res1.sups[sup])
    requires sup in m2.sups && m2.sups[sup] == Without(m1.sups[sup], gone)
    ensures forall x | x in m2.sups[sup] :: x in locked1
  {
    WithoutMembers(m1.sups[sup], gone);
    forall x | x in m2.sups[sup] ensures x in locked1 {
      assert x in res1.sups[sup];
    }
  }

  /**
   * Locking one edge, as both loops do it: `removeExcept(sup, stu)`, the
   * edge goes into the child, `stu` is locked and `sup`'s count grows; when
   * the count reaches the target, the candidates `sup` did not get are
   * dropped. The loop state is kept.
   */
  method Lock(merged: BipartiteGraph, result: BipartiteGraph, sup: Sup, stu: Stu, structure: map<Sup, int>,
              counts: map<Sup, int>, locked: set<Stu>, ghost m0: Graph)
    returns (counts1: map<Sup, int>, locked1: set<Stu>)
    requires merged != result
    requires Locks(m0, structure, merged.Value(), result.Value(), counts, locked)
    requires sup in merged.edges && stu in merged.edges[sup] && stu !in locked
    requires Spare(structure, counts, merged.Value(), locked, sup, stu)
    modifies merged, result
    ensures Locks(m0, structure, merged.Value(), result.Value(), counts1, locked1)
    ensures counts1 == counts[sup := counts[sup] + 1] && locked1 == locked + {stu}
    ensures result.Value() == AddEdge(old(result.Value()), sup, stu)
    ensures var m1 := RemoveExceptFrom(old(merged.Value()), sup, stu, 0).graph;
      if counts1[sup] == structure[sup] then Dropped(m1, merged.Value(), sup, SetOf(m1.sups[sup]) - SetOf(result.edges[sup]))
      else merged.Value() == m1
    ensures |merged.edges[sup]| <= |old(merged.edges[sup])|
  {
    ghost var m := merged.Value();
    LockStep(m0, structure, m, result.Value(), counts, locked, sup, stu);
    var status := merged.RemoveExcept(sup, stu);
    assert status == Done;
    result.AddEdge(sup, stu);
    locked1 := locked + {stu};
    counts1 := counts[sup := counts[sup] + 1];
    if counts1[sup] == structure[sup] {
      var toKeep := result.edges[sup];
      ghost var m1 := merged.Value();
      DropRemaining(merged, sup, toKeep);
      DropStep(m0, structure, m1, merged.Value(), result.Value(), counts1, locked1, sup);
    }
  }

  // ---------------------------------------------------------------------------
  // The first loop: students with a single candidate

  /** Every student of `k`'s list that has a single candidate is locked. */
  ghost predicate SinglesLocked(m: Graph, k: Sup, locked: set<Stu>) {
    k in m.sups && forall stu | stu in m.sups[k] && stu in m.stus && |m.stus[stu]| == 1 :: stu in locked
  }

  /** `removeExcept` leaves the graph as it is for a student whose only candidate is `sup`. */
  lemma RemoveExceptSole(g: Graph, sup: Sup, stu: Stu)
    requires stu in g.stus && g.stus[stu] == [sup]
    ensures RemoveExceptFrom(g, sup, stu, 0) == Removal(g, Done)
  {
    assert RemoveExceptFrom(g, sup, stu, 0) == RemoveExceptFrom(g, sup, stu, 1);
  }

  /** A student whose only candidate is `sup` can be locked to it: nobody else loses a candidate. */
  lemma SoleSpare(structure: map<Sup, int>, counts: map<Sup, int>, m: Graph, locked: set<Stu>, sup: Sup, stu: Stu)
    requires Consistent(m) && sup in m.sups && stu in m.sups[sup] && |m.stus[stu]| == 1
    ensures m.stus[stu] == [sup]
    ensures Spare(structure, counts, m, locked, sup, stu)
  {
    assert m.stus[stu][0] == sup;
  }

  /**
   * The positions of `sup`'s list before `i` hold no unlocked student with
   * a single candidate.
   */
  ghost predicate Walked(m: Graph, sup: Sup, locked: set<Stu>, i: int) {
    && sup in m.sups
    && forall j | 0 <= j < i && j < |m.sups[sup]| ::
         m.sups[sup][j] in locked || (m.sups[sup][j] in m.stus && |m.stus[m.sups[sup][j]]| != 1)
  }

  /** Counts only go up. */
  ghost predicate Grew(counts: map<Sup, int>, counts1: map<Sup, int>) {
    && counts1.Keys == counts.Keys
    && forall k | k in counts :: counts[k] <= counts1[k]
  }

  /** A student of a supervisor's list in the merged graph has a key in the student index. */
  lemma Listed(m0: Graph, structure: map<Sup, int>, m: Graph, res: Graph, counts: map<Sup, int>, locked: set<Stu>, sup: Sup, i: int)
    requires Locks(m0, structure, m, res, counts, locked)
    requires sup in m.sups && 0 <= i < |m.sups[sup]|
    ensures m.sups[sup][i] in m.stus && sup in m.stus[m.sups[sup][i]]
  {
    assert m.sups[sup][i] in m.sups[sup];
  }

  /**
   * One pass of the inner `for stu in supEdges[sup]` of the first loop: the
   * student at position `i` of `sup`'s live list is locked to `sup` when
   * `sup` is its only candidate and it is not locked yet.
   */
  method VisitSingle(merged: BipartiteGraph, result: BipartiteGraph, sup: Sup, i: int, structure: map<Sup, int>,
                     counts: map<Sup, int>, locked: set<Stu>, ghost m0: Graph)
    returns (counts1: map<Sup, int>, locked1: set<Stu>)
    requires merged != result
    requires Locks(m0, structure, merged.Value(), result.Value(), counts, locked)
    requires sup in merged.edges && 0 <= i < |merged.edges[sup]|
    requires Walked(merged.Value(), sup, locked, i)
    modifies merged, result
    ensures Locks(m0, structure, merged.Value(), result.Value(), counts1, locked1)
    ensures Visited(sup, i, old(merged.Value()), old(result.Value()), counts, locked, merged.Value(), result.Value(), counts1, locked1)
  {
    counts1, locked1 := counts, locked;
    ghost var m := merged.Value();
    Listed(m0, structure, m, result.Value(), counts, locked, sup, i);
    var stu := merged.edges[sup][i];
    if |merged.edgesStu[stu]| == 1 && stu !in locked {
      SoleSpare(structure, counts, m, locked, sup, stu);
      RemoveExceptSole(m, sup, stu);
      counts1, locked1 := Lock(merged, result, sup, stu, structure, counts, locked, m0);
      GrewOne(counts, sup);
      if counts1[sup] == structure[sup] {
        assert Settled(structure, merged.Value(), counts1, locked1, sup);
        WalkedSettled(merged.Value(), sup, locked1, i + 1);
      } else {
        assert merged.Value() == m;
        WalkedLock(m, sup, locked, i);
      }
    } else {
      WalkedSkip(m, sup, locked, i);
    }
  }

  /** One more count at `sup` is growth. */
  lemma GrewOne(counts: map<Sup, int>, sup: Sup)
    requires sup in counts
    ensures Grew(counts, counts[sup := counts[sup] + 1])
  {
  }

  /** A supervisor whose candidates are all locked has been walked up to any position. */
  lemma WalkedSettled(m: Graph, sup: Sup, locked: set<Stu>, i: int)
    requires sup in m.sups && forall stu | stu in m.sups[sup] :: stu in locked
    ensures Walked(m, sup, locked, i)
  {
    forall j | 0 <= j < i && j < |m.sups[sup]| ensures m.sups[sup][j] in locked {
      assert m.sups[sup][j] in m.sups[sup];
    }
  }

  /** Locking the student at position `i` extends the walk past it. */
  lemma WalkedLock(m: Graph, sup: Sup, locked: set<Stu>, i: int)
    requires Walked(m, sup, locked, i) && 0 <= i < |m.sups[sup]|
    ensures Walked(m, sup, locked + {m.sups[sup][i]}, i + 1)
  {
  }

  /** A locked student, or one with another candidate, extends the walk past it. */
  lemma WalkedSkip(m: Graph, sup: Sup, locked: set<Stu>, i: int)
    requires Walked(m, sup, locked, i) && 0 <= i < |m.sups[sup]|
    requires m.sups[sup][i] in locked || (m.sups[sup][i] in m.stus && |m.stus[m.sups[sup][i]]| != 1)
    ensures Walked(m, sup, locked, i + 1)
  {
  }

  /**
   * The inner `for stu in supEdges[sup]` of the first loop. It walks the
   * live list of `sup`, which the drop at the target shortens under it, and
   * locks every unlocked student whose only candidate is `sup`. When it
   * locks nothing, nothing changes.
   */
  method LockSingles(merged: BipartiteGraph, result: BipartiteGraph, sup: Sup, structure: map<Sup, int>,
                     counts: map<Sup, int>, locked: set<Stu>, ghost m0: Graph)
    returns (counts1: map<Sup, int>, locked1: set<Stu>)
    requires merged != result
    requires Locks(m0, structure, merged.Value(), result.Value(), counts, locked)
    requires sup in merged.edges
    modifies merged, result
    ensures Locks(m0, structure, merged.Value(), result.Value(), counts1, locked1)
    ensures SinglesPass(sup, old(merged.Value()), old(result.Value()), counts, locked, merged.Value(), result.Value(), counts1, locked1)
  {
    counts1, locked1 := counts, locked;
    ghost var g0, r0 := merged.Value(), result.Value();
    var i := 0;
    while i < |merged.edges[sup]|
      invariant Locks(m0, structure, merged.Value(), result.Value(), counts1, locked1)
      invariant WalkState(sup, i, g0, r0, counts, locked, merged.Value(), result.Value(), counts1, locked1)
      decreases |merged.edges[sup]| - i
    {
      ghost var m, r, c, l := merged.Value(), result.Value(), counts1, locked1;
      counts1, locked1 := VisitSingle(merged, result, sup, i, structure, counts1, locked1, m0);
      WalkStep(sup, i, g0, r0, counts, locked, m, r, c, l, merged.Value(), result.Value(), counts1, locked1);
      i := i + 1;
    }
    WalkDone(sup, i, g0, r0, counts, locked, merged.Value(), result.Value(), counts1, locked1);
  }

  /**
   * What the visit of position `i` of `sup`'s list did: the positions up to
   * `i` are walked, counts only went up, a visit that locked nothing
   * changed nothing, and the list did not grow.
   */
  ghost predicate Visited(sup: Sup, i: int, m: Graph, r: Graph, c: map<Sup, int>, l: set<Stu>,
                          m1: Graph, r1: Graph, c1: map<Sup, int>, l1: set<Stu>) {
    && Walked(m1, sup, l1, i + 1)
    && l <= l1 && Grew(c, c1)
    && (l1 != l ==> sup in c && c1[sup] > c[sup])
    && (l1 == l ==> c1 == c && m1 == m && r1 == r)
    && sup in m.sups && |m1.sups[sup]| <= |m.sups[sup]|
  }

  /** The walk of `sup`'s list up to position `i`, started from `m0`, `r0`, `counts` and `locked`. */
  ghost predicate WalkState(sup: Sup, i: int, m0: Graph, r0: Graph, counts: map<Sup, int>, locked: set<Stu>,
                            m: Graph, r: Graph, c: map<Sup, int>, l: set<Stu>) {
    && Walked(m, sup, l, i)
    && locked <= l && Grew(counts, c)
    && (l != locked ==> sup in counts && c[sup] > counts[sup])
    && (l == locked ==> c == counts && m == m0 && r == r0)
  }

  /** One visit keeps the walk's state, one position further. */
  lemma WalkStep(sup: Sup, i: int, m0: Graph, r0: Graph, counts: map<Sup, int>, locked: set<Stu>,
                 m: Graph, r: Graph, c: map<Sup, int>, l: set<Stu>,
                 m1: Graph, r1: Graph, c1: map<Sup, int>, l1: set<Stu>)
    requires WalkState(sup, i, m0, r0, counts, locked, m, r, c, l)
    requires Visited(sup, i, m, r, c, l, m1, r1, c1, l1)
    ensures WalkState(sup, i + 1, m0, r0, counts, locked, m1, r1, c1, l1)
  {
    GrewTrans(counts, c, c1);
  }

  /** A walk past the end of the list is a whole pass over `sup`. */
  lemma WalkDone(sup: Sup, i: int, m0: Graph, r0: Graph, counts: map<Sup, int>, locked: set<Stu>,
                 m: Graph, r: Graph, c: map<Sup, int>, l: set<Stu>)
    requires WalkState(sup, i, m0, r0, counts, locked, m, r, c, l) && i >= |m.sups[sup]|
    ensures SinglesPass(sup, m0, r0, counts, locked, m, r, c, l)
  {
    WalkedAll(m, sup, l, i);
  }

  /** A walk past the end of the list covers every student of it. */
  lemma WalkedAll(m: Graph, sup: Sup, locked: set<Stu>, i: int)
    requires Walked(m, sup, locked, i) && i >= |m.sups[sup]|
    ensures SinglesLocked(m, sup, locked)
  {
    forall stu | stu in m.sups[sup] && stu in m.stus && |m.stus[stu]| == 1 ensures stu in locked {
      var j :| 0 <= j < |m.sups[sup]| && m.sups[sup][j] == stu;
    }
  }

  /** No unlocked student is left with a single candidate. */
  ghost predicate AllSinglesLocked(m: Graph, locked: set<Stu>) {
    forall stu | stu in m.stus && |m.stus[stu]| == 1 :: stu in locked
  }

  /**
   * What one walk of `sup`'s list did, from graph `m`, child `r`, counts
   * `c` and locked set `l` to `m1`, `r1`, `c1` and `l1`: it left every
   * student of the list with a single candidate locked, counts only went
   * up, and a walk that locked nothing changed nothing.
   */
  ghost predicate SinglesPass(sup: Sup, m: Graph, r: Graph, c: map<Sup, int>, l: set<Stu>,
                              m1: Graph, r1: Graph, c1: map<Sup, int>, l1: set<Stu>) {
    && SinglesLocked(m1, sup, l1)
    && l <= l1 && Grew(c, c1)
    && (l1 != l ==> sup in c && sup in c1 && c1[sup] > c[sup])
    && (l1 == l ==> c1 == c && m1 == m && r1 == r)
  }

  /**
   * One round of the first loop up to position `idx` of `order`, started
   * from `g0`, `r0`, `counts` and `locked`: counts
   * only went up, and if nothing was locked nothing changed and the lists
   * of the supervisors walked so far are covered.
   */
  ghost predicate RoundState(order: seq<Sup>, idx: int,
                             g0: Graph, r0: Graph, counts: map<Sup, int>, locked: set<Stu>,
                             m: Graph, r: Graph, counts1: map<Sup, int>, locked1: set<Stu>) {
    && locked <= locked1 && Grew(counts, counts1)
    && (locked1 != locked ==> counts1 != counts)
    && (locked1 == locked ==> counts1 == counts && m == g0 && r == r0 && Covered(g0, order, idx, locked))
  }

  /** One more supervisor walked keeps the round's state. */
  lemma RoundStep(order: seq<Sup>, idx: int,
                  g0: Graph, r0: Graph, counts: map<Sup, int>, locked: set<Stu>,
                  m: Graph, r: Graph, c: map<Sup, int>, l: set<Stu>,
                  m1: Graph, r1: Graph, c1: map<Sup, int>, l1: set<Stu>)
    requires 0 <= idx < |order|
    requires RoundState(order, idx, g0, r0, counts, locked, m, r, c, l)
    requires SinglesPass(order[idx], m, r, c, l, m1, r1, c1, l1)
    ensures RoundState(order, idx + 1, g0, r0, counts, locked, m1, r1, c1, l1)
  {
    GrewTrans(counts, c, c1);
    if l1 != l {
      assert c1[order[idx]] > c[order[idx]] >= counts[order[idx]];
    } else if l == locked {
      CoverNext(g0, order, idx, locked);
    }
  }

  /**
   * One round of the first loop: `LockSingles` for each supervisor key in
   * the order of the dictionary. A round that locks nothing changes
   * nothing, and then no unlocked student has a single candidate; a round
   * that locks something changes the counts.
   */
  method SinglesRound(merged: BipartiteGraph, result: BipartiteGraph, order: seq<Sup>, structure: map<Sup, int>,
                      counts: map<Sup, int>, locked: set<Stu>, ghost m0: Graph)
    returns (counts1: map<Sup, int>, locked1: set<Stu>)
    requires merged != result
    requires Locks(m0, structure, merged.Value(), result.Value(), counts, locked)
    requires SetOf(order) == m0.sups.Keys
    modifies merged, result
    ensures Locks(m0, structure, merged.Value(), result.Value(), counts1, locked1)
    ensures locked <= locked1 && Grew(counts, counts1)
    ensures locked1 != locked ==> counts1 != counts
    ensures locked1 == locked ==> counts1 == counts && merged.Value() == old(merged.Value()) && result.Value() == old(result.Value())
    ensures locked1 == locked ==> AllSinglesLocked(merged.Value(), locked)
  {
    counts1, locked1 := counts, locked;
    ghost var g0 := merged.Value();
    ghost var r0 := result.Value();
    for idx := 0 to |order|
      invariant Locks(m0, structure, merged.Value(), result.Value(), counts1, locked1)
      invariant RoundState(order, idx, g0, r0, counts, locked, merged.Value(), result.Value(), counts1, locked1)
    {
      var sup := order[idx];
      assert sup in SetOf(order);
      ghost var m, r, c, l := merged.Value(), result.Value(), counts1, locked1;
      counts1, locked1 := LockSingles(merged, result, sup, structure, counts1, locked1, m0);
      RoundStep(order, idx, g0, r0, counts, locked, m, r, c, l, merged.Value(), result.Value(), counts1, locked1);
    }
    if locked1 == locked {
      RoundCovers(g0, order, locked);
    }
  }

  /** The lists of the first `idx` supervisors of `order` are covered. */
  ghost predicate Covered(m: Graph, order: seq<Sup>, idx: int, locked: set<Stu>) {
    forall j | 0 <= j < idx && j < |order| :: SinglesLocked(m, order[j], locked)
  }

  /** One more supervisor of the round with no unlocked single candidate left. */
  lemma CoverNext(m: Graph, order: seq<Sup>, idx: int, locked: set<Stu>)
    requires Covered(m, order, idx, locked) && 0 <= idx < |order| && SinglesLocked(m, order[idx], locked)
    ensures Covered(m, order, idx + 1, locked)
  {
  }

  /** Growth of the counts is transitive. */
  lemma GrewTrans(c0: map<Sup, int>, c1: map<Sup, int>, c2: map<Sup, int>)
    requires Grew(c0, c1) && Grew(c1, c2)
    ensures Grew(c0, c2)
  {
  }

  /** Every supervisor's list covered means every student with a single candidate is covered. */
  lemma RoundCovers(m: Graph, order: seq<Sup>, locked: set<Stu>)
    requires Consistent(m) && SetOf(order) == m.sups.Keys
    requires Covered(m, order, |order|, locked)
    ensures AllSinglesLocked(m, locked)
  {
    forall stu | stu in m.stus && |m.stus[stu]| == 1 ensures stu in locked {
      var k := m.stus[stu][0];
      assert k in m.stus[stu];
      assert k in SetOf(order);
      var j :| 0 <= j < |order| && order[j] == k;
      assert SinglesLocked(m, order[j], locked);
    }
  }

  /** Locking more students leaves fewer unlocked ones. */
  lemma Shrinking(all: set<Stu>, locked: set<Stu>, locked1: set<Stu>)
    requires locked <= locked1 <= all && locked1 != locked
    ensures |all - locked1| < |all - locked|
  {
    var x :| x in locked1 && x !in locked;
    assert all - locked == (all - locked1) + (locked1 - locked);
    assert (all - locked1) !! (locked1 - locked);
    assert x in locked1 - locked;
  }

  /**
   * The first loop, `while prev_count != counts`: rounds of `SinglesRound`
   * until a round leaves the counts as they were. At that point no
   * unlocked student has a single candidate.
   */
  method LockAllSingles(merged: BipartiteGraph, result: BipartiteGraph, order: seq<Sup>, structure: map<Sup, int>,
                        counts: map<Sup, int>, locked: set<Stu>, ghost m0: Graph)
    returns (counts1: map<Sup, int>, locked1: set<Stu>)
    requires merged != result
    requires Locks(m0, structure, merged.Value(), result.Value(), counts, locked)
    requires SetOf(order) == m0.sups.Keys
    modifies merged, result
    ensures Locks(m0, structure, merged.Value(), result.Value(), counts1, locked1)
    ensures AllSinglesLocked(merged.Value(), locked1)
  {
    counts1, locked1 := counts, locked;
    var prevCount: map<Sup, int> := map[];
    if counts == map[] {
      NoSupervisorNoSingles(m0, structure, merged.Value(), result.Value(), counts, locked);
    }
    while prevCount != counts1
      invariant Locks(m0, structure, merged.Value(), result.Value(), counts1, locked1)
      invariant prevCount == counts1 ==> AllSinglesLocked(merged.Value(), locked1)
      decreases |m0.stus.Keys - locked1|, if prevCount == counts1 then 0 else 1
    {
      prevCount := counts1;
      ghost var before := locked1;
      counts1, locked1 := SinglesRound(merged, result, order, structure, counts1, locked1, m0);
      if locked1 != before {
        Shrinking(m0.stus.Keys, before, locked1);
      }
    }
  }

  /** With no supervisor, no student has a candidate at all. */
  lemma NoSupervisorNoSingles(m0: Graph, structure: map<Sup, int>, m: Graph, res: Graph, counts: map<Sup, int>, locked: set<Stu>)
    requires Locks(m0, structure, m, res, counts, locked) && counts == map[]
    ensures AllSinglesLocked(m, locked)
  {
    assert forall stu | stu in m.stus && |m.stus[stu]| == 1 :: m.stus[stu][0] in m.sups by {
      forall stu | stu in m.stus && |m.stus[stu]| == 1 ensures m.stus[stu][0] in m.sups {
        assert m.stus[stu][0] in m.stus[stu];
      }
    }
  }

  // ---------------------------------------------------------------------------
  // The second loop: random candidates, as `canLock` allows

  /** A student of a list of two without repeats that is neither of two different members is impossible. */
  lemma OtherOfTwo(l: seq<Sup>, sup: Sup, other: Sup, k: Sup)
    requires NoDup(l) && |l| == 2 && sup in l && other in l && k in l && other != sup && k != sup
    ensures k == other
  {
    assert l == [l[0], l[1]];
  }

  /**
   * The state of the loops lets `canLock` be asked about any unlocked
   * candidate of `sup`: the student has a key and, with two candidates, the
   * other one has keys in the graph, the structure and the counts.
   */
  lemma {:induction false} CanLockReady(merged: BipartiteGraph, structure: map<Sup, int>, counts: map<Sup, int>, sup: Sup, stu: Stu)
    requires Consistent(merged.Value()) && structure.Keys == counts.Keys == merged.edges.Keys
    requires forall s | s in merged.edgesStu :: |merged.edgesStu[s]| <= 2
    requires sup in merged.edges && stu in merged.edges[sup]
    ensures stu in merged.edgesStu && sup in merged.edgesStu[stu]
    ensures |merged.edgesStu[stu]| != 1 ==> |merged.edgesStu[stu]| == 2 && merged.CanLockDefined(sup, stu, structure, counts)
  {
    var m := merged.Value();
    assert stu in m.stus && sup in m.stus[stu];
    var l := m.stus[stu];
    if |l| != 1 {
      assert |l| == 2;
      var o := FirstOther(l, sup);
      var x := if l[0] == sup then l[1] else l[0];
      assert x in l && x != sup;
      assert o.value in m.stus[stu];
      assert o.value in m.sups;
    }
  }

  /** What `canLock` allows is what locking needs: every other candidate keeps enough students. */
  lemma CanLockSpare(merged: BipartiteGraph, m0: Graph, structure: map<Sup, int>, res: Graph, counts: map<Sup, int>,
                     locked: set<Stu>, sup: Sup, stu: Stu)
    requires Locks(m0, structure, merged.Value(), res, counts, locked)
    requires sup in merged.edges && stu in merged.edges[sup] && stu !in locked
    requires stu in merged.edgesStu && sup in merged.edgesStu[stu]
    requires |merged.edgesStu[stu]| != 1 ==> |merged.edgesStu[stu]| == 2 && merged.CanLockDefined(sup, stu, structure, counts)
    requires merged.CanLock(sup, stu, structure, counts, locked)
    ensures Spare(structure, counts, merged.Value(), locked, sup, stu)
  {
    var m := merged.Value();
    var l := m.stus[stu];
    if |l| == 1 {
      SoleSpare(structure, counts, m, locked, sup, stu);
    } else {
      var other := FirstOther(l, sup).value;
      CanLockKeepsOtherFeasible(merged, sup, stu, structure, counts, locked);
      assert (set s | s in merged.edges[other] && s !in locked) == Avail(m, other, locked);
      forall k | k in l && k != sup ensures k == other {
        OtherOfTwo(l, sup, other, k);
      }
    }
  }

  /** A supervisor short of its target still has an unlocked candidate. */
  lemma ShortHasCandidate(m0: Graph, structure: map<Sup, int>, m: Graph, res: Graph, counts: map<Sup, int>,
                          locked: set<Stu>, sup: Sup)
    requires Locks(m0, structure, m, res, counts, locked)
    requires sup in m.sups && counts[sup] != structure[sup]
    ensures m.sups[sup] != []
  {
    assert |Avail(m, sup, locked)| > 0;
    var stu :| stu in Avail(m, sup, locked);
  }

  /**
   * The body of the second loop for one supervisor: when it is short of
   * its target, `random.choice` draws a candidate (never from an empty
   * list), and the candidate is locked when it is unlocked and `canLock`
   * allows it.
   */
  method VisitRandom(merged: BipartiteGraph, result: BipartiteGraph, sup: Sup, structure: map<Sup, int>,
                     counts: map<Sup, int>, locked: set<Stu>, ghost m0: Graph)
    returns (counts1: map<Sup, int>, locked1: set<Stu>)
    requires merged != result
    requires Locks(m0, structure, merged.Value(), result.Value(), counts, locked)
    requires sup in merged.edges
    modifies merged, result
    ensures Locks(m0, structure, merged.Value(), result.Value(), counts1, locked1)
    ensures locked <= locked1
    ensures locked1 == locked ==> merged.Value() == old(merged.Value()) && result.Value() == old(result.Value())
    ensures locked1 != locked ==> exists stu | stu in old(merged.edges[sup]) :: locked1 == locked + {stu} && result.Value() == AddEdge(old(result.Value()), sup, stu)
  {
    counts1, locked1 := counts, locked;
    if counts[sup] != structure[sup] {
      var students := merged.edges[sup];
      ShortHasCandidate(m0, structure, merged.Value(), result.Value(), counts, locked, sup);
      var curr :| curr in students;
      if curr !in locked {
        assert Shrunk(m0, merged.Value()) && counts.Keys == m0.sups.Keys;
        CanLockReady(merged, structure, counts, sup, curr);
        if merged.CanLock(sup, curr, structure, counts, locked) {
          CanLockSpare(merged, m0, structure, result.Value(), counts, locked, sup, curr);
          counts1, locked1 := Lock(merged, result, sup, curr, structure, counts, locked, m0);
          assert locked1 != locked;
        }
      }
    }
  }

  /** One round of the second loop: `VisitRandom` for each supervisor key in turn. */
  method RandomRound(merged: BipartiteGraph, result: BipartiteGraph, order: seq<Sup>, structure: map<Sup, int>,
                     counts: map<Sup, int>, locked: set<Stu>, ghost m0: Graph)
    returns (counts1: map<Sup, int>, locked1: set<Stu>)
    requires merged != result
    requires Locks(m0, structure, merged.Value(), result.Value(), counts, locked)
    requires SetOf(order) == m0.sups.Keys
    modifies merged, result
    ensures Locks(m0, structure, merged.Value(), result.Value(), counts1, locked1)
    ensures locked <= locked1
  {
    counts1, locked1 := counts, locked;
    for idx := 0 to |order|
      invariant Locks(m0, structure, merged.Value(), result.Value(), counts1, locked1)
      invariant locked <= locked1
    {
      assert order[idx] in SetOf(order);
      counts1, locked1 := VisitRandom(merged, result, order[idx], structure, counts1, locked1, m0);
    }
  }

  /** A subset as large as its superset is the whole of it. */
  lemma SubsetFull<T>(a: set<T>, b: set<T>)
    requires a <= b && |a| == |b|
    ensures a == b
  {
    assert |b - a| == 0 by {
      assert b == a + (b - a) && a !! (b - a);
    }
  }

  /**
   * The second loop, `while len(lockedVertices) != len(stuEdges)`: rounds
   * of `RandomRound` until every student is locked, or until a round
   * locks nothing, which sets `toContinue` for the fallback.
   */
  method LockRounds(merged: BipartiteGraph, result: BipartiteGraph, order: seq<Sup>, structure: map<Sup, int>,
                    counts: map<Sup, int>, locked: set<Stu>, ghost m0: Graph)
    returns (counts1: map<Sup, int>, locked1: set<Stu>, toContinue: bool)
    requires merged != result
    requires Locks(m0, structure, merged.Value(), result.Value(), counts, locked)
    requires SetOf(order) == m0.sups.Keys
    modifies merged, result
    ensures Locks(m0, structure, merged.Value(), result.Value(), counts1, locked1)
    ensures !toContinue ==> locked1 == m0.stus.Keys
  {
    counts1, locked1 := counts, locked;
    toContinue := false;
    var prev: set<Stu> := {};
    while |locked1| != |merged.edgesStu|
      invariant Locks(m0, structure, merged.Value(), result.Value(), counts1, locked1)
      invariant !toContinue
      decreases |m0.stus.Keys - locked1| + if |prev| != |locked1| then 1 else 0
    {
      ghost var before := locked1;
      counts1, locked1 := RandomRound(merged, result, order, structure, counts1, locked1, m0);
      if |prev| != |locked1| {
        prev := locked1;
      } else {
        toContinue := true;
        break;
      }
      if locked1 != before {
        Shrinking(m0.stus.Keys, before, locked1);
      }
    }
    if !toContinue {
      assert |merged.edgesStu| == |merged.edgesStu.Keys|;
      SubsetFull(locked1, m0.stus.Keys);
    }
  }

  // ---------------------------------------------------------------------------
  // The fallback: filling the supervisors still short of their target

  /** `structure` is the structure of the complete allocation `p` of `students`. */
  ghost predicate Target(p: Graph, structure: map<Sup, int>, students: set<Stu>) {
    && Consistent(p) && p.stus.Keys == students
    && (forall stu | stu in p.stus :: |p.stus[stu]| == 1)
    && structure.Keys == p.sups.Keys
    && (forall k | k in p.sups :: structure[k] == |p.sups[k]|)
  }

  /** A `random.sample` of `n` students of `pool` exists when `0 <= n <= |pool|`. */
  lemma {:induction false} SampleExists(pool: set<Stu>, n: int)
    requires 0 <= n <= |pool|
    ensures exists l: seq<Stu> :: NoDup(l) && |l| == n && SetOf(l) <= pool
    decreases n
  {
    if n == 0 {
      var l: seq<Stu> := [];
      assert NoDup(l) && |l| == n && SetOf(l) <= pool;
    } else {
      var x :| x in pool;
      assert |pool - {x}| == |pool| - 1;
      SampleExists(pool - {x}, n - 1);
      var rest: seq<Stu> :| NoDup(rest) && |rest| == n - 1 && SetOf(rest) <= pool - {x};
      var l := [x] + rest;
      assert forall i | 1 <= i < |l| :: l[i] == rest[i - 1] && l[i] in SetOf(rest);
      assert NoDup(l) && |l| == n && SetOf(l) <= pool;
    }
  }

  /** The child after `addEdge(sup, stu)` for each student of `l`, in order. */
  function AddEach(g: Graph, sup: Sup, l: seq<Stu>): Graph
    decreases |l|
  {
    if l == [] then g else AddEach(AddEdge(g, sup, l[0]), sup, l[1..])
  }

  /** The first student of a list and the rest: the pieces the inductions below take apart. */
  lemma HeadRest(l: seq<Stu>)
    requires l != []
    ensures SetOf(l) == {l[0]} + SetOf(l[1..])
    ensures NoDup(l) ==> NoDup(l[1..]) && l[0] !in SetOf(l[1..])
  {
    assert l == [l[0]] + l[1..];
    if NoDup(l) {
      forall x | x in l[1..] ensures x != l[0] {
        var i :| 0 <= i < |l[1..]| && l[1..][i] == x;
        assert l[i + 1] == x;
      }
    }
  }

  /** Adding students to `sup` gives them keys, and `sup` one when there is any. */
  lemma {:induction false} AddEachKeys(g: Graph, sup: Sup, l: seq<Stu>)
    ensures AddEach(g, sup, l).stus.Keys == g.stus.Keys + SetOf(l)
    ensures AddEach(g, sup, l).sups.Keys <= g.sups.Keys + {sup}
    decreases |l|
  {
    if l != [] {
      AddEachKeys(AddEdge(g, sup, l[0]), sup, l[1..]);
      HeadRest(l);
    }
  }

  /** Adding students to `sup` adds exactly their edges. */
  lemma {:induction false} AddEachEdges(g: Graph, sup: Sup, l: seq<Stu>)
    ensures Edges(AddEach(g, sup, l)) == Edges(g) + AtSup(sup, SetOf(l))
    decreases |l|
  {
    if l != [] {
      AddEdgeEdges(g, sup, l[0]);
      AddEachEdges(AddEdge(g, sup, l[0]), sup, l[1..]);
      AtSupHeadRest(sup, l);
    }
  }

  lemma AtSupHeadRest(sup: Sup, l: seq<Stu>)
    requires l != []
    ensures AtSup(sup, SetOf(l)) == {(sup, l[0])} + AtSup(sup, SetOf(l[1..]))
  {
    HeadRest(l);
  }

  /**
   * Adding new students one by one to `sup` keeps the child consistent
   * with one supervisor per student.
   */
  lemma {:induction false} AddEachConsistent(g: Graph, sup: Sup, l: seq<Stu>)
    requires Consistent(g) && (forall stu | stu in g.stus :: |g.stus[stu]| == 1)
    requires NoDup(l) && SetOf(l) !! g.stus.Keys
    ensures Consistent(AddEach(g, sup, l))
    ensures forall stu | stu in AddEach(g, sup, l).stus :: |AddEach(g, sup, l).stus[stu]| == 1
    decreases |l|
  {
    if l != [] {
      var stu := l[0];
      HeadRest(l);
      assert stu !in g.stus;
      AddEdgeConsistent(g, sup, stu);
      AddEdgeDegrees(g, sup, stu);
      AddEachConsistent(AddEdge(g, sup, stu), sup, l[1..]);
    }
  }

  /**
   * Adding new students one by one to `sup` raises its degree by their
   * number and leaves every other supervisor's degree as it was.
   */
  lemma {:induction false} AddEachDegrees(g: Graph, sup: Sup, l: seq<Stu>)
    requires NoDup(l) && SetOf(l) !! g.stus.Keys
    ensures Degree(AddEach(g, sup, l), sup) == Degree(g, sup) + |l|
    ensures forall k | k != sup :: Degree(AddEach(g, sup, l), k) == Degree(g, k)
    decreases |l|
  {
    if l != [] {
      var stu := l[0];
      HeadRest(l);
      assert stu !in g.stus;
      AddEdgeDegrees(g, sup, stu);
      AddEachDegrees(AddEdge(g, sup, stu), sup, l[1..]);
    }
  }

  /**
   * The inner `for stu in toAdd` of the fallback: each drawn student is
   * added to `sup`, locked and taken out of the available ones. As
   * written, each student adds the whole need to `counts[sup]`, so the
   * count ends `|toAdd|` times too high; nothing reads it afterwards.
   */
  method AddAll(result: BipartiteGraph, sup: Sup, toAdd: seq<Stu>, need: int, counts: map<Sup, int>,
                locked: set<Stu>, available: set<Stu>)
    returns (counts1: map<Sup, int>, locked1: set<Stu>, available1: set<Stu>)
    requires sup in counts && NoDup(toAdd) && SetOf(toAdd) <= available
    modifies result
    ensures result.Value() == AddEach(old(result.Value()), sup, toAdd)
    ensures locked1 == locked + SetOf(toAdd) && available1 == available - SetOf(toAdd)
    ensures counts1.Keys == counts.Keys && counts1[sup] == counts[sup] + Repeated(|toAdd|, need)
    ensures forall k | k in counts && k != sup :: counts1[k] == counts[k]
  {
    counts1, locked1, available1 := counts, locked, available;
    ghost var g := result.Value();
    ghost var added: set<Stu> := {};
    for j := 0 to |toAdd|
      invariant AddEach(result.Value(), sup, toAdd[j..]) == AddEach(g, sup, toAdd)
      invariant added == SetOf(toAdd[..j])
      invariant locked1 == locked + added && available1 == available - added
      invariant counts1.Keys == counts.Keys && counts1[sup] == counts[sup] + Repeated(j, need)
      invariant forall k | k in counts && k != sup :: counts1[k] == counts[k]
    {
      var stu := toAdd[j];
      SampleStep(toAdd, j);
      result.AddEdge(sup, stu);
      locked1 := locked1 + {stu};
      counts1 := counts1[sup := counts1[sup] + need];
      available1 := available1 - {stu};
      added := added + {stu};
    }
    assert toAdd[..|toAdd|] == toAdd;
    assert toAdd[|toAdd|..] == [];
  }

  /** The facts about one more student of a sample that the loops over it need. */
  lemma SampleStep(toAdd: seq<Stu>, j: int)
    requires NoDup(toAdd) && 0 <= j < |toAdd|
    ensures toAdd[j..][0] == toAdd[j] && toAdd[j..][1..] == toAdd[j + 1..]
    ensures toAdd[j] in SetOf(toAdd) && toAdd[j] !in SetOf(toAdd[..j])
    ensures SetOf(toAdd[..j + 1]) == SetOf(toAdd[..j]) + {toAdd[j]}
  {
    SnocSlice(toAdd, j);
  }

  /** `x` added `n` times over. */
  function Repeated(n: nat, x: int): int {
    if n == 0 then 0 else Repeated(n - 1, x) + x
  }

  /**
   * The fallback loop up to the supervisors of `todo`: the child is
   * consistent with one supervisor per student, its students are the
   * locked ones and the others are available, the supervisors handled so
   * far have their target degree, those still to come are counted and not
   * past it, and the available students are exactly as many as the
   * remaining supervisors still need.
   */
  ghost predicate FillState(p: Graph, structure: map<Sup, int>, students: set<Stu>, res: Graph,
                            counts: map<Sup, int>, locked: set<Stu>, available: set<Stu>, todo: set<Sup>, done: set<Sup>) {
    && FillChild(p, students, res, locked, available)
    && FillDegrees(p, structure, res, counts, todo, done)
    && |available| == |Within(Edges(p), todo)| - |Within(Edges(res), todo)|
  }

  /** The child part of `FillState`. */
  ghost predicate FillChild(p: Graph, students: set<Stu>, res: Graph, locked: set<Stu>, available: set<Stu>) {
    && Consistent(res) && res.stus.Keys == locked
    && (forall stu | stu in res.stus :: |res.stus[stu]| == 1)
    && locked <= students && available == students - locked
    && res.sups.Keys <= p.sups.Keys
  }

  /** The degree part of `FillState`. */
  ghost predicate FillDegrees(p: Graph, structure: map<Sup, int>, res: Graph, counts: map<Sup, int>, todo: set<Sup>, done: set<Sup>) {
    && todo + done == p.sups.Keys && todo !! done
    && (forall k | k in done :: k in structure && Degree(res, k) == structure[k])
    && (forall k | k in todo :: k in counts && k in structure && counts[k] == Degree(res, k) <= structure[k])
  }


  /** The edges at the supervisors other than `k` still to come count no more in the child than in `p`. */
  lemma RestCompare(p: Graph, structure: map<Sup, int>, students: set<Stu>, res: Graph,
                    counts: map<Sup, int>, todo: set<Sup>, k: Sup)
    requires Target(p, structure, students) && Consistent(res)
    requires todo <= p.sups.Keys
    requires forall j | j in todo :: j in counts && counts[j] == Degree(res, j) <= structure[j]
    requires k in todo
    ensures |Within(Edges(res), todo)| == Degree(res, k) + |Within(Edges(res), todo - {k})|
    ensures |Within(Edges(p), todo)| == structure[k] + |Within(Edges(p), todo - {k})|
    ensures |Within(Edges(res), todo - {k})| <= |Within(Edges(p), todo - {k})|
  {
    Split(Edges(p), todo, k);
    Split(Edges(res), todo, k);
    DegreeCount(p, k);
    DegreeCount(res, k);
    forall j | j in todo - {k} ensures |At(Edges(res), j)| <= |At(Edges(p), j)| {
      DegreeCount(p, j);
      DegreeCount(res, j);
    }
    CountCompare(Edges(res), Edges(p), todo - {k});
  }

  /** A supervisor already at its target moves from `todo` to `done` with nothing to add. */
  lemma FillSkip(p: Graph, structure: map<Sup, int>, students: set<Stu>, res: Graph,
                 counts: map<Sup, int>, locked: set<Stu>, available: set<Stu>, todo: set<Sup>, done: set<Sup>, k: Sup)
    requires Target(p, structure, students)
    requires FillState(p, structure, students, res, counts, locked, available, todo, done)
    requires k in todo && counts[k] == structure[k]
    ensures FillState(p, structure, students, res, counts, locked, available, todo - {k}, done + {k})
  {
    RestCompare(p, structure, students, res, counts, todo, k);
    MoveOne(todo, done, k);
  }

  /** A supervisor short of its target needs at most as many students as are available. */
  lemma FillRoom(p: Graph, structure: map<Sup, int>, students: set<Stu>, res: Graph,
                 counts: map<Sup, int>, locked: set<Stu>, available: set<Stu>, todo: set<Sup>, done: set<Sup>, k: Sup)
    requires Target(p, structure, students)
    requires FillState(p, structure, students, res, counts, locked, available, todo, done)
    requires k in todo
    ensures 0 <= structure[k] - counts[k] <= |available|
  {
    RestCompare(p, structure, students, res, counts, todo, k);
  }

  /** Adding the sample to a supervisor short of its target moves it from `todo` to `done`. */
  lemma FillAdvance(p: Graph, structure: map<Sup, int>, students: set<Stu>, res: Graph,
                    counts: map<Sup, int>, locked: set<Stu>, available: set<Stu>, todo: set<Sup>, done: set<Sup>,
                    k: Sup, toAdd: seq<Stu>, counts1: map<Sup, int>)
    requires Target(p, structure, students)
    requires FillState(p, structure, students, res, counts, locked, available, todo, done)
    requires k in todo && NoDup(toAdd) && |toAdd| == structure[k] - counts[k] && SetOf(toAdd) <= available
    requires forall j | j != k && j in counts :: j in counts1 && counts1[j] == counts[j]
    ensures FillState(p, structure, students, AddEach(res, k, toAdd), counts1, locked + SetOf(toAdd),
                      available - SetOf(toAdd), todo - {k}, done + {k})
  {
    AdvanceChild(p, students, res, locked, available, k, toAdd);
    AdvanceDegrees(p, structure, res, counts, todo, done, k, toAdd, counts1);
    AdvanceCount(p, structure, students, res, counts, available, todo, k, toAdd);
  }

  /** The child part of `FillAdvance`. */
  lemma AdvanceChild(p: Graph, students: set<Stu>, res: Graph, locked: set<Stu>, available: set<Stu>, k: Sup, toAdd: seq<Stu>)
    requires FillChild(p, students, res, locked, available)
    requires k in p.sups && NoDup(toAdd) && SetOf(toAdd) <= available
    ensures FillChild(p, students, AddEach(res, k, toAdd), locked + SetOf(toAdd), available - SetOf(toAdd))
  {
    AddEachKeys(res, k, toAdd);
    AddEachConsistent(res, k, toAdd);
  }

  /** The degree part of `FillAdvance`. */
  lemma AdvanceDegrees(p: Graph, structure: map<Sup, int>, res: Graph, counts: map<Sup, int>, todo: set<Sup>, done: set<Sup>,
                       k: Sup, toAdd: seq<Stu>, counts1: map<Sup, int>)
    requires FillDegrees(p, structure, res, counts, todo, done)
    requires k in todo && NoDup(toAdd) && |toAdd| == structure[k] - counts[k] && SetOf(toAdd) !! res.stus.Keys
    requires forall j | j != k && j in counts :: j in counts1 && counts1[j] == counts[j]
    ensures FillDegrees(p, structure, AddEach(res, k, toAdd), counts1, todo - {k}, done + {k})
  {
    AddEachDegrees(res, k, toAdd);
    MoveOne(todo, done, k);
  }

  /** The count part of `FillAdvance`: the sample leaves as many available students as the rest need. */
  lemma AdvanceCount(p: Graph, structure: map<Sup, int>, students: set<Stu>, res: Graph,
                     counts: map<Sup, int>, available: set<Stu>, todo: set<Sup>, k: Sup, toAdd: seq<Stu>)
    requires Target(p, structure, students) && Consistent(res) && todo <= p.sups.Keys
    requires forall j | j in todo :: j in counts && counts[j] == Degree(res, j) <= structure[j]
    requires |available| == |Within(Edges(p), todo)| - |Within(Edges(res), todo)|
    requires k in todo && NoDup(toAdd) && |toAdd| == structure[k] - counts[k] && SetOf(toAdd) <= available
    ensures |available - SetOf(toAdd)| == |Within(Edges(p), todo - {k})| - |Within(Edges(AddEach(res, k, toAdd)), todo - {k})|
  {
    RestCompare(p, structure, students, res, counts, todo, k);
    OthersKept(res, k, toAdd, todo - {k});
    NoDupCard(toAdd);
    CardMinus(available, SetOf(toAdd));
  }

  /** Adding students to `k` leaves the edges at other supervisors as they were. */
  lemma OthersKept(res: Graph, k: Sup, toAdd: seq<Stu>, ks: set<Sup>)
    requires k !in ks
    ensures Within(Edges(AddEach(res, k, toAdd)), ks) == Within(Edges(res), ks)
  {
    AddEachEdges(res, k, toAdd);
  }

  /** Taking a subset away takes away its size. */
  lemma CardMinus<T>(a: set<T>, b: set<T>)
    requires b <= a
    ensures |a - b| == |a| - |b|
  {
    assert a == (a - b) + b;
  }

  /**
   * The body of the fallback for one supervisor: when it is short of its
   * target, `random.sample` draws as many available students as it needs
   * (never more than there are) and each is added to it.
   */
  method FillSup(result: BipartiteGraph, sup: Sup, structure: map<Sup, int>, counts: map<Sup, int>,
                 locked: set<Stu>, available: set<Stu>,
                 ghost p: Graph, ghost students: set<Stu>, ghost todo: set<Sup>, ghost done: set<Sup>)
    returns (counts1: map<Sup, int>, locked1: set<Stu>, available1: set<Stu>)
    requires Target(p, structure, students)
    requires FillState(p, structure, students, result.Value(), counts, locked, available, todo, done)
    requires sup in todo
    modifies result
    ensures FillState(p, structure, students, result.Value(), counts1, locked1, available1, todo - {sup}, done + {sup})
  {
    counts1, locked1, available1 := counts, locked, available;
    var reqDegree := structure[sup];
    var supDegree := counts[sup];
    var supNeeds := reqDegree - supDegree;
    if supDegree != reqDegree {
      FillRoom(p, structure, students, result.Value(), counts, locked, available, todo, done, sup);
      SampleExists(available, supNeeds);
      var toAdd :| NoDup(toAdd) && |toAdd| == supNeeds && SetOf(toAdd) <= available;
      ghost var res := result.Value();
      counts1, locked1, available1 := AddAll(result, sup, toAdd, supNeeds, counts, locked, available);
      FillAdvance(p, structure, students, res, counts, locked, available, todo, done, sup, toAdd, counts1);
    } else {
      FillSkip(p, structure, students, result.Value(), counts, locked, available, todo, done, sup);
    }
  }

  /**
   * The fallback, `if toContinue`: for each supervisor key in turn, the
   * supervisors short of their target get random available students. At
   * the end every supervisor has its target degree and every student is
   * in the child.
   */
  method Fill(result: BipartiteGraph, order: seq<Sup>, structure: map<Sup, int>, counts: map<Sup, int>,
              locked: set<Stu>, allStudents: set<Stu>, ghost p: Graph)
    returns (locked1: set<Stu>)
    requires Target(p, structure, allStudents)
    requires NoDup(order) && SetOf(order) == p.sups.Keys
    requires FillState(p, structure, allStudents, result.Value(), counts, locked, allStudents - locked, p.sups.Keys, {})
    modifies result
    ensures locked1 == allStudents
    ensures Complete(p, structure, allStudents, result.Value())
  {
    var availableStudents := allStudents - locked;
    var counts1 := counts;
    locked1 := locked;
    ghost var todo, done := p.sups.Keys, {};
    for idx := 0 to |order|
      invariant done == SetOf(order[..idx]) && todo == p.sups.Keys - done
      invariant FillState(p, structure, allStudents, result.Value(), counts1, locked1, availableStudents, todo, done)
    {
      var sup := order[idx];
      DoneStep(order, idx, done, p.sups.Keys);
      counts1, locked1, availableStudents := FillSup(result, sup, structure, counts1, locked1, availableStudents, p, allStudents, todo, done);
      todo, done := todo - {sup}, done + {sup};
    }
    assert order[..|order|] == order;
    assert todo == {};
    FillEnd(p, structure, allStudents, result.Value(), counts1, locked1, availableStudents);
  }

  /** The next supervisor of a list without repeats is not among those before it. */
  lemma DoneStep(order: seq<Sup>, idx: int, done: set<Sup>, keys: set<Sup>)
    requires NoDup(order) && 0 <= idx < |order| && done == SetOf(order[..idx])
    ensures order[idx] in SetOf(order) && order[idx] !in done
    ensures SetOf(order[..idx + 1]) == done + {order[idx]}
    ensures keys - (done + {order[idx]}) == (keys - done) - {order[idx]}
  {
    SnocSlice(order, idx);
  }

  /** The child is complete: every student of `students` has one supervisor and every supervisor of `p` its target degree. */
  ghost predicate Complete(p: Graph, structure: map<Sup, int>, students: set<Stu>, res: Graph) {
    && Consistent(res) && res.stus.Keys == students
    && (forall stu | stu in res.stus :: |res.stus[stu]| == 1)
    && res.sups.Keys <= p.sups.Keys
    && (forall k | k in p.sups :: k in structure && Degree(res, k) == structure[k])
  }

  /** With no supervisor left to fill, nobody is left available and the child is complete. */
  lemma FillEnd(p: Graph, structure: map<Sup, int>, students: set<Stu>, res: Graph,
                counts: map<Sup, int>, locked: set<Stu>, available: set<Stu>)
    requires FillState(p, structure, students, res, counts, locked, available, {}, p.sups.Keys)
    ensures available == {} && locked == students
    ensures Complete(p, structure, students, res)
  {
    assert Within(Edges(p), {}) == {} && Within(Edges(res), {}) == {};
  }

  // ---------------------------------------------------------------------------
  // From the parents to the loops, and from the loops to the child

  /** Two complete allocations over the same tables always merge. */
  lemma AllocationsMerge(g1: Graph, g2: Graph, students: set<Stu>, quotas: map<Sup, int>)
    requires Allocation(g1, students, quotas) && Allocation(g2, students, quotas)
    ensures MergeOk(g1, g2)
  {
    forall e | e in Needed(g1, g2) ensures e.1 in g1.stus {
      assert e.1 in g2.sups[e.0];
    }
  }

  /** A student of a parent's supervisor is still a candidate of it in the merge. */
  lemma ParentInMerge(g1: Graph, g2: Graph, m0: Graph, p: Graph, k: Sup, stu: Stu)
    requires MergedFrom(m0, g1, g2) && g1.sups.Keys == g2.sups.Keys
    requires p == g1 || p == g2
    requires k in p.sups && stu in p.sups[k]
    ensures stu in m0.sups[k]
  {
    EdgesMember(p, k, stu);
    EdgesMember(m0, k, stu);
    if p == g2 && (k, stu) !in Edges(g1) {
      EdgesMember(g1, k, stu);
      assert (k, stu) in Needed(g1, g2);
    }
  }

  /** A parent's supervisor starts with at least as many candidates in the merge as the parent gives it. */
  lemma ParentBudget(g1: Graph, g2: Graph, m0: Graph, p: Graph, k: Sup)
    requires MergedFrom(m0, g1, g2) && g1.sups.Keys == g2.sups.Keys
    requires p == g1 || p == g2
    requires Consistent(p) && k in p.sups
    ensures |p.sups[k]| <= |Avail(m0, k, {})|
  {
    var mine := set stu | stu in p.sups[k];
    forall stu | stu in mine ensures stu in Avail(m0, k, {}) {
      ParentInMerge(g1, g2, m0, p, k, stu);
    }
    NoDupCard(p.sups[k]);
    assert Avail(m0, k, {}) == mine + (Avail(m0, k, {}) - mine);
  }

  /**
   * Before the loops: the merge of two complete allocations, an empty
   * child, all counts 0 and nothing locked satisfy the locking invariant
   * for the structure of either parent.
   */
  lemma InitialLocks(g1: Graph, g2: Graph, m0: Graph, p: Graph, students: set<Stu>, quotas: map<Sup, int>, structure: map<Sup, int>)
    requires Allocation(g1, students, quotas) && Allocation(g2, students, quotas)
    requires MergedFrom(m0, g1, g2)
    requires p == g1 || p == g2
    requires Target(p, structure, students)
    ensures Locks(m0, structure, m0, Graph(map[], map[]), map k | k in m0.sups :: 0, {})
  {
    MergeOfAllocations(g1, g2, m0, students, quotas);
    StartBudget(g1, g2, m0, p, students, quotas, structure);
    LocksStart(m0, students, quotas, structure);
  }

  /** Each parent's supervisor needs between 1 and as many students as it has candidates in the merge. */
  lemma StartBudget(g1: Graph, g2: Graph, m0: Graph, p: Graph, students: set<Stu>, quotas: map<Sup, int>, structure: map<Sup, int>)
    requires Allocation(p, students, quotas) && g1.sups.Keys == g2.sups.Keys
    requires MergedFrom(m0, g1, g2)
    requires p == g1 || p == g2
    requires Target(p, structure, students)
    ensures structure.Keys == m0.sups.Keys
    ensures forall k | k in m0.sups :: 1 <= structure[k] <= |Avail(m0, k, {})|
  {
    forall k | k in m0.sups ensures 1 <= structure[k] <= |Avail(m0, k, {})| {
      ParentBudget(g1, g2, m0, p, k);
    }
  }

  /** The locking invariant at the start, from the shape of the merge and the budget of every supervisor. */
  lemma {:induction false} LocksStart(m0: Graph, students: set<Stu>, quotas: map<Sup, int>, structure: map<Sup, int>)
    requires Candidates(m0, students, quotas)
    requires structure.Keys == m0.sups.Keys
    requires forall k | k in m0.sups :: 1 <= structure[k] <= |Avail(m0, k, {})|
    ensures Locks(m0, structure, m0, Graph(map[], map[]), map k | k in m0.sups :: 0, {})
  {
    var counts := map k | k in m0.sups :: 0;
    assert Shrunk(m0, m0);
    assert Built(m0, Graph(map[], map[]), counts, {});
    assert Budget(structure, m0, counts, {});
  }

  /** After the locking loops: the fallback's loop invariant holds with every supervisor still to visit. */
  lemma LocksToFill(m0: Graph, structure: map<Sup, int>, m: Graph, res: Graph, counts: map<Sup, int>, locked: set<Stu>,
                    p: Graph, students: set<Stu>)
    requires Locks(m0, structure, m, res, counts, locked)
    requires Target(p, structure, students) && m0.stus.Keys == students && m0.sups.Keys == p.sups.Keys
    ensures FillState(p, structure, students, res, counts, locked, students - locked, p.sups.Keys, {})
  {
    assert Built(m0, res, counts, locked) && Budget(structure, m, counts, locked);
    BuiltToFill(m0, structure, m, res, counts, locked, p, students);
  }

  /** The fallback's invariant at the start, part by part, from what the locking loops keep. */
  lemma BuiltToFill(m0: Graph, structure: map<Sup, int>, m: Graph, res: Graph, counts: map<Sup, int>, locked: set<Stu>,
                    p: Graph, students: set<Stu>)
    requires Built(m0, res, counts, locked) && Budget(structure, m, counts, locked) && m.sups.Keys == m0.sups.Keys
    requires Target(p, structure, students) && m0.stus.Keys == students && m0.sups.Keys == p.sups.Keys
    ensures FillState(p, structure, students, res, counts, locked, students - locked, p.sups.Keys, {})
  {
    assert FillChild(p, students, res, locked, students - locked);
    assert FillDegrees(p, structure, res, counts, p.sups.Keys, {});
    StartCount(p, structure, students, res, locked);
  }

  /** At the start the available students are the students of `p` not yet in the child, edge for edge. */
  lemma StartCount(p: Graph, structure: map<Sup, int>, students: set<Stu>, res: Graph, locked: set<Stu>)
    requires Target(p, structure, students)
    requires Consistent(res) && res.stus.Keys == locked && locked <= students && res.sups.Keys <= p.sups.Keys
    requires forall stu | stu in res.stus :: |res.stus[stu]| == 1
    ensures |students - locked| == |Within(Edges(p), p.sups.Keys)| - |Within(Edges(res), p.sups.Keys)|
  {
    WithinAll(p, p.sups.Keys);
    WithinAll(res, p.sups.Keys);
    OneEachCount(p);
    OneEachCount(res);
    CardMinus(students, locked);
  }

  /** All the edges of a graph are at its supervisor keys. */
  lemma WithinAll(g: Graph, ks: set<Sup>)
    requires g.sups.Keys <= ks
    ensures Within(Edges(g), ks) == Edges(g)
  {
  }

  /**
   * When the locking loops lock every student, the child is already
   * complete: no supervisor is past its target and the degrees add up to
   * the number of students, so each is exactly at its target.
   */
  lemma AllLockedComplete(p: Graph, structure: map<Sup, int>, students: set<Stu>, res: Graph, counts: map<Sup, int>, locked: set<Stu>)
    requires Target(p, structure, students)
    requires FillState(p, structure, students, res, counts, locked, {}, p.sups.Keys, {})
    ensures locked == students
    ensures Complete(p, structure, students, res)
  {
    var ks := p.sups.Keys;
    forall k | k in ks ensures |At(Edges(res), k)| <= |At(Edges(p), k)| {
      DegreeCount(p, k);
      DegreeCount(res, k);
    }
    CountCompare(Edges(res), Edges(p), ks);
    forall k | k in ks ensures Degree(res, k) == structure[k] {
      DegreeCount(p, k);
      DegreeCount(res, k);
    }
  }

  /**
   * A complete child of an allocation `p` is an allocation over the same
   * tables with exactly `p`'s structure: every supervisor has at least one
   * student, so the child has all of `p`'s supervisor keys.
   */
  lemma ChildAllocation(p: Graph, structure: map<Sup, int>, students: set<Stu>, quotas: map<Sup, int>, res: Graph)
    requires Allocation(p, students, quotas) && Target(p, structure, students)
    requires Complete(p, structure, students, res)
    ensures Allocation(res, students, quotas)
    ensures Structure(res) == Structure(p)
  {
    assert res.sups.Keys == p.sups.Keys by {
      forall k | k in p.sups ensures k in res.sups {
        assert Degree(res, k) == |p.sups[k]| >= 1;
      }
    }
  }

  /**
   * `crossover`. `firstStructure` is the outcome of the draw between the
   * parents' structures, `order` the key order of the merged graph's
   * supervisor index; the `random.choice` and `random.sample` draws are the
   * choices of the loops. On two complete allocations over the same tables
   * the merge succeeds, nothing raises, and the child is a complete
   * allocation with exactly the chosen parent's structure.
   */
  method Crossover(solution1: BipartiteGraph, solution2: BipartiteGraph, firstStructure: bool, order: seq<Sup>,
                   ghost students: set<Stu>, ghost quotas: map<Sup, int>)
    returns (child: BipartiteGraph)
    requires Allocation(solution1.Value(), students, quotas) && Allocation(solution2.Value(), students, quotas)
    requires NoDup(order) && SetOf(order) == solution1.edges.Keys
    ensures fresh(child)
    ensures Allocation(child.Value(), students, quotas)
    ensures Structure(child.Value()) == Structure(if firstStructure then solution1.Value() else solution2.Value())
  {
    ghost var g1, g2 := solution1.Value(), solution2.Value();
    AllocationsMerge(g1, g2, students, quotas);
    var r := solution1.Merge(solution2);
    assert r.Ok?;
    var merged := r.value;
    ghost var m0 := merged.Value();
    MergeOfAllocations(g1, g2, m0, students, quotas);
    var shape;
    if firstStructure {
      shape := solution1.GetStructure();
    } else {
      shape := solution2.GetStructure();
    }
    var structure: map<Sup, int> := map k | k in shape :: shape[k];
    ghost var p := if firstStructure then g1 else g2;
    ParentTarget(p, students, quotas, shape, structure);
    var result := new BipartiteGraph(map[], map[]);
    var counts := map k | k in merged.edges :: 0;
    InitialLocks(g1, g2, m0, p, students, quotas, structure);
    assert solution1 != merged && solution1 != result && solution2 != merged && solution2 != result;
    Offspring(merged, result, order, structure, counts, m0, p, students);
    assert solution1.Value() == g1 && solution2.Value() == g2;
    ChildAllocation(p, structure, students, quotas, result.Value());
    child := result;
  }

  /** `getStructure` of an allocation, read as integers, is the target the loops work towards. */
  lemma ParentTarget(p: Graph, students: set<Stu>, quotas: map<Sup, int>, shape: map<Sup, nat>, structure: map<Sup, int>)
    requires Allocation(p, students, quotas) && shape == Structure(p)
    requires structure == map k | k in shape :: shape[k]
    ensures Target(p, structure, students)
  {
  }

  /**
   * The body of `crossover` after the set-up: the two locking loops, then
   * the fallback when a round locks nothing. From the starting invariant
   * the child ends complete.
   */
  method Offspring(merged: BipartiteGraph, result: BipartiteGraph, order: seq<Sup>, structure: map<Sup, int>,
                   counts: map<Sup, int>, ghost m0: Graph, ghost p: Graph, ghost students: set<Stu>)
    requires merged != result && merged.Value() == m0
    requires Locks(m0, structure, m0, result.Value(), counts, {})
    requires Target(p, structure, students) && m0.stus.Keys == students && m0.sups.Keys == p.sups.Keys
    requires NoDup(order) && SetOf(order) == m0.sups.Keys
    modifies merged, result
    ensures Complete(p, structure, students, result.Value())
  {
    var allStudents := merged.edgesStu.Keys;
    var counts1, locked := LockAllSingles(merged, result, order, structure, counts, {}, m0);
    var toContinue;
    counts1, locked, toContinue := LockRounds(merged, result, order, structure, counts1, locked, m0);
    LocksToFill(m0, structure, merged.Value(), result.Value(), counts1, locked, p, students);
    if toContinue {
      locked := Fill(result, order, structure, counts1, locked, allStudents, p);
    } else {
      AllLockedComplete(p, structure, students, result.Value(), counts1, locked);
    }
  }
}
