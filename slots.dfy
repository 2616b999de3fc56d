/**
 * The slot expansion of `hopkroft` in `crossover/crossover.py`: before the
 * maximum matching, every supervisor is split into as many slots as its
 * target structure asks for, and each slot is linked to all of that
 * supervisor's candidate students. Students are relabelled by their
 * position in a shuffled order (the label `'stu' + str(i)` is `i` here);
 * both shuffled orders are parameters.
 */
module Slots {
  import opened Outcomes
  import opened GraphModel

  /** How many slots `range(cardinality)` opens: none for a negative structure. */
  function SlotCount(cardinality: int): nat {
    if cardinality < 0 then 0 else cardinality
  }

  /** The slots opened by the supervisors of `order`, one after the other. */
  function Total(structure: map<Sup, int>, order: seq<Sup>): nat
    requires forall sup | sup in order :: sup in structure
    decreases |order|
  {
    if order == [] then 0
    else Total(structure, order[..|order| - 1]) + SlotCount(structure[order[|order| - 1]])
  }

  /** The slots that belong to `sup`. */
  function SlotsOf(correspondence: map<nat, Sup>, sup: Sup): set<nat> {
    set slot | slot in correspondence && correspondence[slot] == sup
  }

  /** The labels of the students of `l`. */
  function LabelSet(labels: map<Stu, nat>, l: seq<Stu>): set<nat>
    requires forall stu | stu in l :: stu in labels
  {
    set stu | stu in l :: labels[stu]
  }

  /**
   * `a_to_b`: the student at position `i` of the shuffled order gets label
   * `i`, so different students get different labels.
   */
  method Labels(order: seq<Stu>) returns (labels: map<Stu, nat>)
    requires NoDup(order)
    ensures labels.Keys == SetOf(order)
    ensures forall i | 0 <= i < |order| :: labels[order[i]] == i
    ensures forall a, b | a in labels && b in labels && a != b :: labels[a] != labels[b]
  {
    labels := map[];
    for i := 0 to |order|
      invariant labels.Keys == SetOf(order[..i])
      invariant forall j | 0 <= j < i :: labels[order[j]] == j
    {
      NextSlice(order, i);
      labels := labels[order[i] := i];
    }
    assert order[..|order|] == order;
    forall a, b | a in labels && b in labels && a != b ensures labels[a] != labels[b] {
      var i :| 0 <= i < |order| && order[i] == a;
      var j :| 0 <= j < |order| && order[j] == b;
    }
  }

  /**
   * The slot graph built so far: the slots are numbered from 0 without a
   * gap, each belongs to a supervisor of `g`, and a slot is linked to the
   * labels of exactly its supervisor's students (a supervisor without
   * students gives slots with no entry at all).
   */
  ghost predicate Linked(g: Graph, labels: map<Stu, nat>, transformed: map<nat, set<nat>>, correspondence: map<nat, Sup>, next: nat) {
    && (forall slot: nat :: slot in correspondence <==> slot < next)
    && transformed.Keys <= correspondence.Keys
    && (forall slot | slot in correspondence :: correspondence[slot] in g.sups)
    && (forall slot | slot in correspondence ::
          && (forall stu | stu in g.sups[correspondence[slot]] :: stu in labels)
          && (slot in transformed <==> g.sups[correspondence[slot]] != [])
          && (slot in transformed ==> transformed[slot] == LabelSet(labels, g.sups[correspondence[slot]])))
  }

  /**
   * The slot expansion: `supOrder` and `stuOrder` are the shuffled key lists
   * of the two indices. A supervisor without a structure entry raises
   * KeyError. Otherwise the slots are numbered 0 to the total, every
   * supervisor has exactly `max(0, structure[sup])` of them, and each is
   * linked to exactly its supervisor's students.
   */
  method Expand(g: Graph, structure: map<Sup, int>, supOrder: seq<Sup>, stuOrder: seq<Stu>)
    returns (r: Result<(map<nat, set<nat>>, map<nat, Sup>)>, ghost labels: map<Stu, nat>)
    requires Consistent(g)
    requires NoDup(supOrder) && SetOf(supOrder) == g.sups.Keys
    requires NoDup(stuOrder) && SetOf(stuOrder) == g.stus.Keys
    ensures r.Err? <==> !(g.sups.Keys <= structure.Keys)
    ensures r.Err? ==> r.error == PyError.KeyError
    ensures labels.Keys == g.stus.Keys && forall i | 0 <= i < |stuOrder| :: labels[stuOrder[i]] == i
    ensures r.Ok? ==> Linked(g, labels, r.value.0, r.value.1, Total(structure, supOrder))
    ensures r.Ok? ==> forall sup | sup in g.sups :: |SlotsOf(r.value.1, sup)| == SlotCount(structure[sup])
  {
    var aToB := Labels(stuOrder);
    labels := aToB;
    var transformed: map<nat, set<nat>> := map[];
    var correspondence: map<nat, Sup> := map[];
    var supName: nat := 0;
    for k := 0 to |supOrder|
      invariant forall sup | sup in supOrder[..k] :: sup in structure
      invariant supName == Total(structure, supOrder[..k])
      invariant Linked(g, aToB, transformed, correspondence, supName)
      invariant forall sup | sup in g.sups ::
        |SlotsOf(correspondence, sup)| == if sup in supOrder[..k] then SlotCount(structure[sup]) else 0
    {
      var supervisor := supOrder[k];
      assert supervisor in g.sups;
      if supervisor !in structure {
        return Err(PyError.KeyError), labels;
      }
      NextSupervisor(structure, supOrder, k);
      transformed, correspondence, supName := OpenSlots(g, aToB, transformed, correspondence, supName, supervisor, structure[supervisor]);
    }
    assert supOrder[..|supOrder|] == supOrder;
    r := Ok((transformed, correspondence));
  }

  /** One more supervisor of the order: the total grows by its slots. */
  lemma NextSupervisor(structure: map<Sup, int>, order: seq<Sup>, k: int)
    requires NoDup(order) && 0 <= k < |order|
    requires forall sup | sup in order[..k + 1] :: sup in structure
    ensures order[k] !in order[..k]
    ensures forall sup :: sup in order[..k + 1] <==> sup in order[..k] || sup == order[k]
    ensures Total(structure, order[..k + 1]) == Total(structure, order[..k]) + SlotCount(structure[order[k]])
  {
    SnocSlice(order, k);
    assert order[..k + 1][..k] == order[..k];
  }

  /**
   * The `range(cardinality)` loop for one supervisor: opens that many new
   * slots after `next`, each linked to all of the supervisor's students.
   */
  method OpenSlots(g: Graph, labels: map<Stu, nat>, transformed: map<nat, set<nat>>, correspondence: map<nat, Sup>, next: nat, sup: Sup, cardinality: int)
    returns (transformed1: map<nat, set<nat>>, correspondence1: map<nat, Sup>, next1: nat)
    requires Consistent(g) && labels.Keys == g.stus.Keys && sup in g.sups
    requires Linked(g, labels, transformed, correspondence, next)
    ensures next1 == next + SlotCount(cardinality)
    ensures Linked(g, labels, transformed1, correspondence1, next1)
    ensures forall x | x in g.sups :: |SlotsOf(correspondence1, x)| == |SlotsOf(correspondence, x)| + if x == sup then SlotCount(cardinality) else 0
  {
    transformed1, correspondence1, next1 := transformed, correspondence, next;
    var students := g.sups[sup];
    for i := 0 to SlotCount(cardinality)
      invariant next1 == next + i
      invariant Linked(g, labels, transformed1, correspondence1, next1)
      invariant forall x | x in g.sups :: |SlotsOf(correspondence1, x)| == |SlotsOf(correspondence, x)| + if x == sup then i else 0
    {
      var row := Connect(g, labels, transformed1, next1, students);
      ghost var before := correspondence1;
      transformed1 := row;
      correspondence1 := correspondence1[next1 := sup];
      OneMoreSlot(before, next1, sup);
      OneMoreLinked(g, labels, transformed1, before, next1, sup);
      next1 := next1 + 1;
    }
  }

  /**
   * The inner `for stu in supervisors[supervisor]` loop: `setdefault` then
   * `add` puts each student's label into the new slot's set, so the slot
   * gets an entry only when there is a student.
   */
  method Connect(g: Graph, labels: map<Stu, nat>, transformed: map<nat, set<nat>>, slot: nat, students: seq<Stu>)
    returns (transformed1: map<nat, set<nat>>)
    requires forall stu | stu in students :: stu in labels
    requires slot !in transformed
    ensures transformed1.Keys == if students == [] then transformed.Keys else transformed.Keys + {slot}
    ensures forall s | s in transformed :: transformed1[s] == transformed[s]
    ensures students != [] ==> transformed1[slot] == LabelSet(labels, students)
  {
    transformed1 := transformed;
    for j := 0 to |students|
      invariant transformed1.Keys == if j == 0 then transformed.Keys else transformed.Keys + {slot}
      invariant forall s | s in transformed :: transformed1[s] == transformed[s]
      invariant j > 0 ==> transformed1[slot] == LabelSet(labels, students[..j])
    {
      var current := if slot in transformed1 then transformed1[slot] else {};
      NextSlice(students, j);
      LabelSetSnoc(labels, students[..j], students[j]);
      transformed1 := transformed1[slot := current + {labels[students[j]]}];
    }
    assert students[..|students|] == students;
  }

  lemma LabelSetSnoc(labels: map<Stu, nat>, l: seq<Stu>, stu: Stu)
    requires forall s | s in l + [stu] :: s in labels
    ensures LabelSet(labels, l + [stu]) == LabelSet(labels, l) + {labels[stu]}
  {
    assert forall s :: s in l + [stu] <==> s in l || s == stu;
  }

  /** A new slot adds one to its supervisor's slots and leaves the others'. */
  lemma OneMoreSlot(correspondence: map<nat, Sup>, slot: nat, sup: Sup)
    requires slot !in correspondence
    ensures forall x :: |SlotsOf(correspondence[slot := sup], x)| == |SlotsOf(correspondence, x)| + if x == sup then 1 else 0
  {
    forall x ensures |SlotsOf(correspondence[slot := sup], x)| == |SlotsOf(correspondence, x)| + if x == sup then 1 else 0 {
      SlotsOfUpdate(correspondence, slot, sup, x);
    }
  }

  lemma SlotsOfUpdate(correspondence: map<nat, Sup>, slot: nat, sup: Sup, x: Sup)
    requires slot !in correspondence
    ensures SlotsOf(correspondence[slot := sup], x) == if x == sup then SlotsOf(correspondence, x) + {slot} else SlotsOf(correspondence, x)
  {
  }

  lemma OneMoreLinked(g: Graph, labels: map<Stu, nat>, transformed1: map<nat, set<nat>>, correspondence: map<nat, Sup>, next: nat, sup: Sup)
    requires Consistent(g) && labels.Keys == g.stus.Keys && sup in g.sups
    requires (forall slot: nat :: slot in correspondence <==> slot < next)
    requires (forall slot | slot in correspondence :: correspondence[slot] in g.sups)
    requires transformed1.Keys <= correspondence.Keys + {next}
    requires (forall slot | slot in correspondence ::
          && (forall stu | stu in g.sups[correspondence[slot]] :: stu in labels)
          && (slot in transformed1 <==> g.sups[correspondence[slot]] != [])
          && (slot in transformed1 ==> transformed1[slot] == LabelSet(labels, g.sups[correspondence[slot]])))
    requires next in transformed1 <==> g.sups[sup] != []
    requires next in transformed1 ==> transformed1[next] == LabelSet(labels, g.sups[sup])
    ensures Linked(g, labels, transformed1, correspondence[next := sup], next + 1)
  {
  }
}
