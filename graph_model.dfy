/**
 * Value-level model of an allocation graph (pystsup/data/bipartiteGraph.py):
 * the two dictionaries a BipartiteGraph keeps, the primitive edge updates on
 * them, and what those updates do to the set of edges.
 */
module GraphModel {

  type Sup = string
  type Stu = string

  /** How an edge operation ended: normally, or with the exception Python raises. */
  datatype Status = Done | KeyError | ValueError

  /**
   * The two adjacency dictionaries: supervisor -> allocated students and
   * student -> supervisors. Lists keep insertion order; a key whose list
   * became empty stays in the dictionary.
   */
  datatype Graph = Graph(sups: map<Sup, seq<Stu>>, stus: map<Stu, seq<Sup>>)

  /** The graph after an operation that may raise part-way, and how it ended. */
  datatype Removal = Removal(graph: Graph, status: Status)

  predicate NoDup<T(==)>(s: seq<T>) {
    forall i, j | 0 <= i < j < |s| :: s[i] != s[j]
  }

  /** The elements of a list, as Python's `set(l)`. */
  function SetOf<T>(l: seq<T>): set<T> {
    set x | x in l
  }

  /** A list of positions in strictly increasing order, as population order lists them. */
  predicate Increasing(l: seq<nat>) {
    forall a, b | 0 <= a < b < |l| :: l[a] < l[b]
  }

  /**
   * The representation invariant: the two dictionaries describe the same
   * edges and no list repeats an element.
   */
  ghost predicate Consistent(g: Graph) {
    SupsLinked(g) && StusLinked(g) && ListsNoDup(g)
  }

  /** Every student listed under a supervisor lists that supervisor back. */
  ghost predicate SupsLinked(g: Graph) {
    forall sup, stu | sup in g.sups && stu in g.sups[sup] :: stu in g.stus && sup in g.stus[stu]
  }

  /** Every supervisor listed under a student lists that student back. */
  ghost predicate StusLinked(g: Graph) {
    forall stu, sup | stu in g.stus && sup in g.stus[stu] :: sup in g.sups && stu in g.sups[sup]
  }

  ghost predicate ListsNoDup(g: Graph) {
    && (forall sup | sup in g.sups :: NoDup(g.sups[sup]))
    && (forall stu | stu in g.stus :: NoDup(g.stus[stu]))
  }

  /**
   * A complete allocation: the supervisor keys are the supervisor table, the
   * student keys are the student table, every student has exactly one
   * supervisor and every supervisor has between 1 and its quota students.
   */
  ghost predicate Allocation(g: Graph, students: set<Stu>, quotas: map<Sup, int>) {
    && Consistent(g)
    && g.sups.Keys == quotas.Keys
    && g.stus.Keys == students
    && (forall sup | sup in g.sups :: 1 <= |g.sups[sup]| <= quotas[sup])
    && (forall stu | stu in g.stus :: |g.stus[stu]| == 1)
  }

  /** The set of (supervisor, student) edges, read from the supervisor index. */
  ghost function Edges(g: Graph): set<(Sup, Stu)> {
    set sup, stu | sup in g.sups && stu in g.sups[sup] :: (sup, stu)
  }

  /** Number of students allocated to `sup` (0 when `sup` has no key). */
  function Degree(g: Graph, sup: Sup): nat {
    if sup in g.sups then |g.sups[sup]| else 0
  }

  /** Supervisor -> number of allocated students, for every supervisor key. */
  function Structure(g: Graph): map<Sup, nat> {
    map sup | sup in g.sups :: |g.sups[sup]|
  }

  /** `isEdge`: both dictionaries record the edge; a missing key means no edge. */
  predicate IsEdge(g: Graph, sup: Sup, stu: Stu)
    ensures IsEdge(g, sup, stu) ==> (sup, stu) in Edges(g) && stu in g.stus && sup in g.stus[stu]
  {
    sup in g.sups && stu in g.sups[sup] && stu in g.stus && sup in g.stus[stu]
  }

  /** Python's `list.remove`: drops the first occurrence of `x`. */
  function RemoveFirst<T(==)>(s: seq<T>, x: T): (r: seq<T>)
    requires x in s
    ensures |r| == |s| - 1
    ensures multiset(r) == multiset(s) - multiset{x}
  {
    assert s == [s[0]] + s[1..];
    if s[0] == x then s[1..] else [s[0]] + RemoveFirst(s[1..], x)
  }

  /** `addEdge`: appends to both lists (creating them when absent), unless the edge exists. */
  function AddEdge(g: Graph, sup: Sup, stu: Stu): (r: Graph)
    ensures r.sups.Keys == g.sups.Keys + {sup} && r.stus.Keys == g.stus.Keys + {stu}
    ensures IsEdge(r, sup, stu)
  {
    if IsEdge(g, sup, stu) then g
    else
      Graph(g.sups[sup := (if sup in g.sups then g.sups[sup] else []) + [stu]],
            g.stus[stu := (if stu in g.stus then g.stus[stu] else []) + [sup]])
  }

  /**
   * `removeEdge`: removes `stu` from the supervisor's list, then `sup` from
   * the student's list. A missing key raises KeyError and a missing element
   * ValueError; a failure in the second step leaves the first step done.
   */
  function RemoveEdge(g: Graph, sup: Sup, stu: Stu): (r: Removal)
    ensures r.graph.sups.Keys == g.sups.Keys && r.graph.stus.Keys == g.stus.Keys
    ensures r.status == Done <==> IsEdge(g, sup, stu)
    ensures r.status == Done ==> |r.graph.stus[stu]| == |g.stus[stu]| - 1
    ensures r.status == Done ==> |r.graph.sups[sup]| == |g.sups[sup]| - 1
  {
    if sup !in g.sups then Removal(g, KeyError)
    else if stu !in g.sups[sup] then Removal(g, ValueError)
    else
      var sups := g.sups[sup := RemoveFirst(g.sups[sup], stu)];
      if stu !in g.stus then Removal(Graph(sups, g.stus), KeyError)
      else if sup !in g.stus[stu] then Removal(Graph(sups, g.stus), ValueError)
      else Removal(Graph(sups, g.stus[stu := RemoveFirst(g.stus[stu], sup)]), Done)
  }

  // ---------------------------------------------------------------------------
  // Sequence facts

  /** One more element of a prefix. */
  lemma NextSlice<T>(s: seq<T>, i: int)
    requires 0 <= i < |s|
    ensures s[..i + 1] == s[..i] + [s[i]]
  {
  }

  /** The next prefix of a list of distinct elements adds an element not already there. */
  lemma SnocSlice<T>(s: seq<T>, i: int)
    requires NoDup(s) && 0 <= i < |s|
    ensures s[..i + 1] == s[..i] + [s[i]] && s[i] !in s[..i]
  {
  }

  /** A suffix is its first element and the suffix after it. */
  lemma RestSlice<T>(s: seq<T>, i: int)
    requires 0 <= i < |s|
    ensures s[i..] == [s[i]] + s[i + 1..]
  {
  }

  lemma {:induction false} RemoveFirstNoDup<T>(s: seq<T>, x: T)
    requires x in s && NoDup(s)
    ensures NoDup(RemoveFirst(s, x))
    ensures forall y :: y in RemoveFirst(s, x) <==> y in s && y != x
  {
    if s[0] == x {
      assert forall y :: y in s[1..] ==> y != x by {
        forall y | y in s[1..] ensures y != x {
          var k :| 0 <= k < |s[1..]| && s[1..][k] == y;
          assert s[k + 1] == y;
        }
      }
      assert forall y :: y in s <==> y == s[0] || y in s[1..] by {
        assert s == [s[0]] + s[1..];
      }
    } else {
      RemoveFirstNoDup(s[1..], x);
      assert s[0] !in s[1..] by {
        forall k | 0 <= k < |s[1..]| ensures s[1..][k] != s[0] {
          assert s[k + 1] == s[1..][k];
        }
      }
      assert forall y :: y in s <==> y == s[0] || y in s[1..] by {
        assert s == [s[0]] + s[1..];
      }
      var r := RemoveFirst(s, x);
      assert r == [s[0]] + RemoveFirst(s[1..], x);
      forall i, j | 0 <= i < j < |r| ensures r[i] != r[j] {
        if i == 0 {
          assert r[j] in RemoveFirst(s[1..], x) by { assert r[j] == RemoveFirst(s[1..], x)[j - 1]; }
        } else {
          assert r[i] == RemoveFirst(s[1..], x)[i - 1] && r[j] == RemoveFirst(s[1..], x)[j - 1];
        }
      }
    }
  }

  /** Removing the element just appended gives back the list. */
  lemma {:induction false} RemoveFirstAppended<T>(s: seq<T>, x: T)
    requires x !in s
    ensures RemoveFirst(s + [x], x) == s
  {
    if s == [] {
    } else {
      assert (s + [x])[1..] == s[1..] + [x];
      RemoveFirstAppended(s[1..], x);
      assert s == [s[0]] + s[1..];
    }
  }

  lemma AppendNoDup<T>(s: seq<T>, x: T)
    requires NoDup(s) && x !in s
    ensures NoDup(s + [x])
  {
  }

  /** A list without repeats has as many elements as its set of elements. */
  lemma {:induction false} NoDupCard<T>(l: seq<T>)
    requires NoDup(l)
    ensures |set x | x in l| == |l|
  {
    if l != [] {
      NoDupCard(l[1..]);
      assert (set x | x in l) == (set x | x in l[1..]) + {l[0]} by {
        assert l == [l[0]] + l[1..];
      }
      assert l[0] !in l[1..];
    }
  }

  // ---------------------------------------------------------------------------
  // Edge sets

  lemma EdgesMember(g: Graph, sup: Sup, stu: Stu)
    ensures (sup, stu) in Edges(g) <==> sup in g.sups && stu in g.sups[sup]
  {
  }

  /** For a consistent graph, `isEdge` is membership in the edge set. */
  lemma IsEdgeIsMember(g: Graph, sup: Sup, stu: Stu)
    requires Consistent(g)
    ensures IsEdge(g, sup, stu) <==> (sup, stu) in Edges(g)
  {
  }

  /** `addEdge` keeps a consistent graph consistent. */
  lemma {:induction false} AddEdgeConsistent(g: Graph, sup: Sup, stu: Stu)
    requires Consistent(g)
    ensures Consistent(AddEdge(g, sup, stu))
  {
    if !IsEdge(g, sup, stu) {
      var r := AddEdge(g, sup, stu);
      var ls := if sup in g.sups then g.sups[sup] else [];
      var lt := if stu in g.stus then g.stus[stu] else [];
      assert r.sups[sup] == ls + [stu] && r.stus[stu] == lt + [sup];
      assert stu !in ls;
      assert sup !in lt;
      forall a, b | a in r.sups && b in r.sups[a] ensures b in r.stus && a in r.stus[b] {
        if a == sup && b != stu {
          assert b in ls;
        }
      }
      forall b, a | b in r.stus && a in r.stus[b] ensures a in r.sups && b in r.sups[a] {
        if b == stu && a != sup {
          assert a in lt;
        }
      }
      AppendNoDup(ls, stu);
      AppendNoDup(lt, sup);
    }
  }

  /** `addEdge` adds exactly the new edge. */
  lemma AddEdgeEdges(g: Graph, sup: Sup, stu: Stu)
    ensures Edges(AddEdge(g, sup, stu)) == Edges(g) + {(sup, stu)}
  {
    var r := AddEdge(g, sup, stu);
    if !IsEdge(g, sup, stu) {
      var ls := if sup in g.sups then g.sups[sup] else [];
      forall p | p in Edges(r) ensures p in Edges(g) + {(sup, stu)} {
        if p.0 == sup && p.1 != stu {
          assert p.1 in ls;
        }
      }
    }
  }

  /**
   * `addEdge` raises the supervisor's degree by one when the edge is new,
   * appends the supervisor to the student's list, and touches no other list.
   */
  lemma AddEdgeDegrees(g: Graph, sup: Sup, stu: Stu)
    ensures Degree(AddEdge(g, sup, stu), sup) == Degree(g, sup) + (if IsEdge(g, sup, stu) then 0 else 1)
    ensures forall s | s != sup :: Degree(AddEdge(g, sup, stu), s) == Degree(g, s)
    ensures forall s | s != stu && s in g.stus :: AddEdge(g, sup, stu).stus[s] == g.stus[s]
    ensures !IsEdge(g, sup, stu) ==> AddEdge(g, sup, stu).stus[stu] == (if stu in g.stus then g.stus[stu] else []) + [sup]
  {
  }

  /**
   * `removeEdge` on a consistent graph: KeyError when the supervisor has no
   * key, ValueError when the edge is absent (graph untouched), otherwise it
   * succeeds and the graph stays consistent.
   */
  lemma RemoveEdgeConsistent(g: Graph, sup: Sup, stu: Stu)
    requires Consistent(g)
    ensures RemoveEdge(g, sup, stu).status ==
      (if sup !in g.sups then KeyError else if !IsEdge(g, sup, stu) then ValueError else Done)
    ensures RemoveEdge(g, sup, stu).status != Done ==> RemoveEdge(g, sup, stu).graph == g
    ensures Consistent(RemoveEdge(g, sup, stu).graph)
  {
    if IsEdge(g, sup, stu) {
      RemoveFirstNoDup(g.sups[sup], stu);
      RemoveFirstNoDup(g.stus[stu], sup);
    }
  }

  /**
   * `removeEdge` removes exactly the given edge from the supervisor index
   * (also when it then raises on the student index).
   */
  lemma RemoveEdgeEdges(g: Graph, sup: Sup, stu: Stu)
    requires sup in g.sups ==> NoDup(g.sups[sup])
    ensures Edges(RemoveEdge(g, sup, stu).graph) == Edges(g) - {(sup, stu)}
  {
    if sup in g.sups && stu in g.sups[sup] {
      RemoveFirstNoDup(g.sups[sup], stu);
    }
  }

  /** `removeEdge` lowers only the supervisor's degree and touches no other student's list. */
  lemma RemoveEdgeDegrees(g: Graph, sup: Sup, stu: Stu)
    ensures Degree(RemoveEdge(g, sup, stu).graph, sup) == Degree(g, sup) - (if sup in g.sups && stu in g.sups[sup] then 1 else 0)
    ensures forall s | s != sup :: Degree(RemoveEdge(g, sup, stu).graph, s) == Degree(g, s)
    ensures forall s | s != stu && s in g.stus :: RemoveEdge(g, sup, stu).graph.stus[s] == g.stus[s]
    ensures IsEdge(g, sup, stu) ==> RemoveEdge(g, sup, stu).graph.stus[stu] == RemoveFirst(g.stus[stu], sup)
  {
  }

  /** A new edge between existing keys: the shape of the graph after `addEdge`. */
  lemma AddStep(g: Graph, sup: Sup, stu: Stu)
    requires sup in g.sups && stu in g.stus && !IsEdge(g, sup, stu)
    ensures var r := AddEdge(g, sup, stu);
      && r.sups.Keys == g.sups.Keys && r.stus.Keys == g.stus.Keys
      && r.stus[stu] == g.stus[stu] + [sup]
      && (forall s | s in g.stus && s != stu :: r.stus[s] == g.stus[s])
      && (forall s :: Degree(r, s) == Degree(g, s) + (if s == sup then 1 else 0))
  {
    AddEdgeDegrees(g, sup, stu);
  }

  /** An existing edge: the shape of the graph after `removeEdge`. */
  lemma RemoveStep(g: Graph, sup: Sup, stu: Stu)
    requires IsEdge(g, sup, stu)
    ensures var r := RemoveEdge(g, sup, stu);
      && r.status == Done
      && r.graph.sups.Keys == g.sups.Keys && r.graph.stus.Keys == g.stus.Keys
      && r.graph.stus[stu] == RemoveFirst(g.stus[stu], sup)
      && (forall s | s in g.stus && s != stu :: r.graph.stus[s] == g.stus[s])
      && (forall s :: Degree(r.graph, s) == Degree(g, s) - (if s == sup then 1 else 0))
  {
    RemoveEdgeDegrees(g, sup, stu);
  }

  /** Removing an edge just added gives back the graph (`addEdge` then `removeEdge`). */
  lemma {:induction false} AddThenRemove(g: Graph, sup: Sup, stu: Stu)
    requires Consistent(g)
    requires sup in g.sups && stu in g.stus && !IsEdge(g, sup, stu)
    ensures RemoveEdge(AddEdge(g, sup, stu), sup, stu) == Removal(g, Done)
  {
    assert stu !in g.sups[sup] && sup !in g.stus[stu];
    AddThenRemoveLists(g, sup, stu);
  }

  /** `AddThenRemove` once the edge is known to be absent from both lists. */
  lemma {:induction false} AddThenRemoveLists(g: Graph, sup: Sup, stu: Stu)
    requires sup in g.sups && stu in g.stus && stu !in g.sups[sup] && sup !in g.stus[stu]
    ensures RemoveEdge(AddEdge(g, sup, stu), sup, stu) == Removal(g, Done)
  {
    var a := AddEdge(g, sup, stu);
    assert a.sups[sup] == g.sups[sup] + [stu];
    assert a.stus[stu] == g.stus[stu] + [sup];
    RemoveFirstAppended(g.sups[sup], stu);
    RemoveFirstAppended(g.stus[stu], sup);
    var sups := a.sups[sup := RemoveFirst(a.sups[sup], stu)];
    assert sups == g.sups;
    var stus := a.stus[stu := RemoveFirst(a.stus[stu], sup)];
    assert stus == g.stus;
    assert IsEdge(a, sup, stu);
    assert RemoveEdge(a, sup, stu) == Removal(Graph(sups, stus), Done);
  }

  /** `addEdge` is idempotent: adding an existing edge changes nothing. */
  lemma AddEdgeIdempotent(g: Graph, sup: Sup, stu: Stu)
    ensures AddEdge(AddEdge(g, sup, stu), sup, stu) == AddEdge(g, sup, stu)
  {
  }

  /** The edge set can be read from either index of a consistent graph. */
  lemma EdgesFromStudentIndex(g: Graph)
    requires Consistent(g)
    ensures Edges(g) == set stu, sup | stu in g.stus && sup in g.stus[stu] :: (sup, stu)
  {
  }

  /** Graph equality (`__eq__`) compares only the student index; for consistent graphs that decides the edge set. */
  lemma SameStudentIndexSameEdges(g1: Graph, g2: Graph)
    requires Consistent(g1) && Consistent(g2) && g1.stus == g2.stus
    ensures Edges(g1) == Edges(g2)
  {
    EdgesFromStudentIndex(g1);
    EdgesFromStudentIndex(g2);
  }
}
