/**
 * The two parent-selection operators of `selection.py`: tournament
 * selection under the crowded comparison, and the roulette wheel whose
 * first quarter of pairs is drawn on `Fst` and the rest on `Fsup`.
 * Parents are population positions; the random draws are oracles
 * (`draw(k)` for the `k`-th `random.choice`, `uniform(k, total)` for the
 * `k`-th `random.uniform(0, total)`).
 */
module Selection {
  import opened Outcomes
  import opened Solutions

  /** Number of pairs both operators aim for: `popSize // 2`, or none when that is not positive. */
  function Pairs(popSize: int): (n: nat)
    ensures n == 0 <==> popSize < 2
    ensures 2 * n <= popSize || n == 0
  {
    if popSize / 2 > 0 then popSize / 2 else 0
  }

  // ---------------------------------------------------------------------
  // Tournament selection
  // ---------------------------------------------------------------------

  /** The position the `k`-th `random.choice` returns from a list of `n` elements. */
  function Choice(draw: nat -> nat, k: nat, n: nat): (i: nat)
    requires n > 0
    ensures i < n
  {
    draw(k) % n
  }

  /** A duel: the first player wins only when strictly better under `__lt__`; otherwise the second does. */
  function Winner(pop: seq<Standing>, p: nat, q: nat): (w: nat)
    requires p < |pop| && q < |pop|
    ensures w == p || w == q
  {
    if CrowdedLess(pop[p], pop[q]) then p else q
  }

  /** Pair `i`: the winners of the duels between draws `4i`, `4i+1` and between `4i+2`, `4i+3`. */
  function TournamentPair(pop: seq<Standing>, draw: nat -> nat, i: nat): (nat, nat)
    requires |pop| > 0
  {
    var n := |pop|;
    (Winner(pop, Choice(draw, 4 * i, n), Choice(draw, 4 * i + 1, n)),
     Winner(pop, Choice(draw, 4 * i + 2, n), Choice(draw, 4 * i + 3, n)))
  }

  /**
   * `tournamentSelection`: `popSize // 2` pairs of duel winners;
   * `random.choice` on an empty population raises `IndexError`.
   */
  method TournamentSelection(pop: seq<Standing>, popSize: int, draw: nat -> nat)
    returns (r: Result<seq<(nat, nat)>>)
    ensures |pop| == 0 ==> r == if Pairs(popSize) > 0 then Err(IndexError) else Ok([])
    ensures |pop| > 0 ==> r.Ok? && |r.value| == Pairs(popSize)
    ensures |pop| > 0 ==> forall i | 0 <= i < |r.value| :: r.value[i] == TournamentPair(pop, draw, i)
  {
    var selected: seq<(nat, nat)> := [];
    while |selected| < popSize / 2
      invariant |selected| <= Pairs(popSize)
      invariant |pop| == 0 ==> selected == []
      invariant |pop| > 0 ==> forall i | 0 <= i < |selected| :: selected[i] == TournamentPair(pop, draw, i)
      decreases popSize / 2 - |selected|
    {
      if |pop| == 0 {
        return Err(IndexError);
      }
      var k := 4 * |selected|;
      var player1 := Choice(draw, k, |pop|);
      var player2 := Choice(draw, k + 1, |pop|);
      var player3 := Choice(draw, k + 2, |pop|);
      var player4 := Choice(draw, k + 3, |pop|);
      var parent1, parent2;
      if CrowdedLess(pop[player1], pop[player2]) {
        parent1 := player1;
      } else {
        parent1 := player2;
      }
      if CrowdedLess(pop[player3], pop[player4]) {
        parent2 := player3;
      } else {
        parent2 := player4;
      }
      selected := selected + [(parent1, parent2)];
    }
    r := Ok(selected);
  }

  /**
   * A duel's winner is never beaten by either player, it is the first
   * player exactly when that one is strictly better, and a tie goes to
   * the second player.
   */
  lemma {:induction false} WinnerIsUnbeaten(pop: seq<Standing>, p: nat, q: nat)
    requires p < |pop| && q < |pop|
    ensures !CrowdedLess(pop[p], pop[Winner(pop, p, q)])
    ensures !CrowdedLess(pop[q], pop[Winner(pop, p, q)])
    ensures CrowdedLess(pop[p], pop[q]) ==> Winner(pop, p, q) == p
    ensures !CrowdedLess(pop[p], pop[q]) && !CrowdedLess(pop[q], pop[p]) ==> Winner(pop, p, q) == q
  {
    CrowdedLessIsStrictOrder(pop[p], pop[q], pop[q]);
    CrowdedLessIsStrictOrder(pop[q], pop[p], pop[p]);
  }

  /** Every selected parent is a population position that beats, or ties with, its opponent. */
  lemma TournamentParentsWin(pop: seq<Standing>, draw: nat -> nat, i: nat)
    requires |pop| > 0
    ensures TournamentPair(pop, draw, i).0 < |pop| && TournamentPair(pop, draw, i).1 < |pop|
    ensures !CrowdedLess(pop[Choice(draw, 4 * i, |pop|)], pop[TournamentPair(pop, draw, i).0])
    ensures !CrowdedLess(pop[Choice(draw, 4 * i + 1, |pop|)], pop[TournamentPair(pop, draw, i).0])
    ensures !CrowdedLess(pop[Choice(draw, 4 * i + 2, |pop|)], pop[TournamentPair(pop, draw, i).1])
    ensures !CrowdedLess(pop[Choice(draw, 4 * i + 3, |pop|)], pop[TournamentPair(pop, draw, i).1])
  {
    var n := |pop|;
    WinnerIsUnbeaten(pop, Choice(draw, 4 * i, n), Choice(draw, 4 * i + 1, n));
    WinnerIsUnbeaten(pop, Choice(draw, 4 * i + 2, n), Choice(draw, 4 * i + 3, n));
  }

  // ---------------------------------------------------------------------
  // Roulette wheel
  // ---------------------------------------------------------------------

  /** Python's `sum`, adding from the left. */
  function Sum(values: seq<real>): real {
    if values == [] then 0.0 else Sum(values[..|values| - 1]) + values[|values| - 1]
  }

  /** The objective a wheel is built on: every solution's `Fst`, or every solution's `Fsup`. */
  function Objective(fit: seq<Fitness>, onFst: bool): (values: seq<real>)
    ensures |values| == |fit|
    ensures forall i | 0 <= i < |fit| :: values[i] == if onFst then fit[i].fst else fit[i].fsup
  {
    seq(|fit|, i requires 0 <= i < |fit| => if onFst then fit[i].fst else fit[i].fsup)
  }

  /** The running total `curr` once the value at position `i` has been added. */
  function Running(values: seq<real>, i: nat): real
    requires i < |values|
  {
    Sum(values[..i + 1])
  }

  /** The scan of one spin from position `j` on, every earlier running total being at most `pick`. */
  function FirstExceedingFrom(values: seq<real>, pick: real, j: nat): (r: Option<nat>)
    requires j <= |values|
    requires forall i | 0 <= i < j :: Running(values, i) <= pick
    ensures r.Some? ==> j <= r.value < |values| && Running(values, r.value) > pick
    ensures r.Some? ==> forall i | 0 <= i < r.value :: Running(values, i) <= pick
    ensures r.None? ==> forall i | 0 <= i < |values| :: Running(values, i) <= pick
    decreases |values| - j
  {
    if j == |values| then None
    else if Running(values, j) > pick then Some(j)
    else FirstExceedingFrom(values, pick, j + 1)
  }

  /**
   * One spin of the wheel: the first position whose running total exceeds
   * the pick, or none when no running total does.
   */
  function FirstExceeding(values: seq<real>, pick: real): (r: Option<nat>)
    ensures r.Some? ==> r.value < |values| && Running(values, r.value) > pick
    ensures r.Some? ==> forall i | 0 <= i < r.value :: Running(values, i) <= pick
    ensures r.None? ==> forall i | 0 <= i < |values| :: Running(values, i) <= pick
  {
    FirstExceedingFrom(values, pick, 0)
  }

  /** The `for sol in population` loop with its `break`. */
  method Spin(values: seq<real>, pick: real) returns (r: Option<nat>)
    ensures r == FirstExceeding(values, pick)
  {
    var curr := 0.0;
    r := None;
    for j := 0 to |values|
      invariant curr == Sum(values[..j])
      invariant forall i | 0 <= i < j :: Running(values, i) <= pick
    {
      assert values[..j + 1][..j] == values[..j];
      curr := curr + values[j];
      if curr > pick {
        r := Some(j);
        FirstExceedingIs(values, pick, r);
        return;
      }
    }
    assert values[..|values|] == values;
    FirstExceedingIs(values, pick, r);
  }

  /** A spin's outcome is determined by its characterisation. */
  lemma FirstExceedingIs(values: seq<real>, pick: real, r: Option<nat>)
    requires r.Some? ==> r.value < |values| && Running(values, r.value) > pick
    requires r.Some? ==> forall i | 0 <= i < r.value :: Running(values, i) <= pick
    requires r.None? ==> forall i | 0 <= i < |values| :: Running(values, i) <= pick
    ensures FirstExceeding(values, pick) == r
  {
  }

  /** A parent variable after a spin: the selected position, or its stale value when none was selected. */
  function Spun(values: seq<real>, pick: real, stale: Option<nat>): Option<nat> {
    match FirstExceeding(values, pick)
    case Some(i) => Some(i)
    case None => stale
  }

  /**
   * The two wheels `rouletteWheel` spins: the population's `Fst` values and
   * `Fsup` values in order, and the totals below which each wheel's picks
   * are drawn.
   */
  datatype Wheels = Wheels(fstValues: seq<real>, fsupValues: seq<real>, fstTotal: real, fsupTotal: real)
  {
    function Values(onFst: bool): seq<real> {
      if onFst then fstValues else fsupValues
    }

    function Total(onFst: bool): real {
      if onFst then fstTotal else fsupTotal
    }
  }

  /** The state the two loops carry: the pairs so far and the two parent variables (unassigned as `None`). */
  datatype Picked = Picked(selected: seq<(nat, nat)>, parent1: Option<nat>, parent2: Option<nat>)

  /** Pair `k` is drawn on the `Fst` wheel by the first loop, or on the `Fsup` wheel by the second. */
  predicate OnFstWheel(popSize: int, k: nat) {
    k < popSize / 4
  }

  /**
   * Pair `k`: two spins on the wheel its loop uses, the picks being the
   * `2k`-th and `2k+1`-th `uniform(0, total)`; appending a parent that was
   * never assigned raises `NameError`.
   */
  function SpinPair(wh: Wheels, popSize: int, uniform: (nat, real) -> real, k: nat, s: Picked): Result<Picked> {
    var onFst := OnFstWheel(popSize, k);
    var p1 := Spun(wh.Values(onFst), uniform(2 * k, wh.Total(onFst)), s.parent1);
    var p2 := Spun(wh.Values(onFst), uniform(2 * k + 1, wh.Total(onFst)), s.parent2);
    if p1.None? || p2.None? then Err(NameError)
    else Ok(Picked(s.selected + [(p1.value, p2.value)], p1, p2))
  }

  /** The state after the first `k` pairs, or the error that stopped the selection. */
  function Spins(wh: Wheels, popSize: int, uniform: (nat, real) -> real, k: nat): (r: Result<Picked>)
    ensures r.Ok? ==> |r.value.selected| == k
  {
    if k == 0 then Ok(Picked([], None, None))
    else
      match Spins(wh, popSize, uniform, k - 1)
      case Err(e) => Err(e)
      case Ok(s) => SpinPair(wh, popSize, uniform, k - 1, s)
  }

  /** The state after pair `k`, from the state before it and the two spins' outcomes. */
  lemma SpinsStep(wh: Wheels, popSize: int, uniform: (nat, real) -> real, k: nat, s: Picked, p1: Option<nat>, p2: Option<nat>)
    requires Spins(wh, popSize, uniform, k) == Ok(s)
    requires p1 == Spun(wh.Values(OnFstWheel(popSize, k)), uniform(2 * k, wh.Total(OnFstWheel(popSize, k))), s.parent1)
    requires p2 == Spun(wh.Values(OnFstWheel(popSize, k)), uniform(2 * k + 1, wh.Total(OnFstWheel(popSize, k))), s.parent2)
    ensures Spins(wh, popSize, uniform, k + 1) ==
              if p1.None? || p2.None? then Err(NameError) else Ok(Picked(s.selected + [(p1.value, p2.value)], p1, p2))
  {
    assert Spins(wh, popSize, uniform, k + 1) == SpinPair(wh, popSize, uniform, k, s);
  }

  /** Every selected parent, and every value the parent variables hold, is a position of the population. */
  lemma {:induction false} SpinsInRange(wh: Wheels, popSize: int, uniform: (nat, real) -> real, k: nat)
    requires |wh.fstValues| == |wh.fsupValues|
    requires Spins(wh, popSize, uniform, k).Ok?
    ensures forall i | 0 <= i < k ::
              Spins(wh, popSize, uniform, k).value.selected[i].0 < |wh.fstValues| &&
              Spins(wh, popSize, uniform, k).value.selected[i].1 < |wh.fstValues|
    ensures InRange(Spins(wh, popSize, uniform, k).value.parent1, |wh.fstValues|)
    ensures InRange(Spins(wh, popSize, uniform, k).value.parent2, |wh.fstValues|)
  {
    if k > 0 {
      SpinsInRange(wh, popSize, uniform, k - 1);
      var s := Spins(wh, popSize, uniform, k - 1).value;
      assert Spins(wh, popSize, uniform, k) == SpinPair(wh, popSize, uniform, k - 1, s);
      var s' := Spins(wh, popSize, uniform, k).value;
      assert s'.selected == s.selected + [(s'.parent1.value, s'.parent2.value)];
    }
  }

  predicate InRange(p: Option<nat>, n: nat) {
    p.Some? ==> p.value < n
  }

  /** Once a pair has raised, so has the whole selection. */
  lemma {:induction false} ErrorSticks(wh: Wheels, popSize: int, uniform: (nat, real) -> real, k: nat, k': nat)
    requires k <= k'
    requires Spins(wh, popSize, uniform, k).Err?
    ensures Spins(wh, popSize, uniform, k') == Spins(wh, popSize, uniform, k)
    decreases k' - k
  {
    if k < k' {
      ErrorSticks(wh, popSize, uniform, k, k' - 1);
    }
  }

  /** The selected pairs, or the error. */
  function Selected(r: Result<Picked>): Result<seq<(nat, nat)>> {
    match r
    case Ok(s) => Ok(s.selected)
    case Err(e) => Err(e)
  }

  /** Both spins of one pair, each keeping its variable's stale value when it selects nobody. */
  method DrawPair(values: seq<real>, total: real, uniform: (nat, real) -> real, k: nat,
                  parent1: Option<nat>, parent2: Option<nat>)
    returns (p1: Option<nat>, p2: Option<nat>)
    ensures p1 == Spun(values, uniform(2 * k, total), parent1)
    ensures p2 == Spun(values, uniform(2 * k + 1, total), parent2)
  {
    var s1 := Spin(values, uniform(2 * k, total));
    p1 := if s1.Some? then s1 else parent1;
    var s2 := Spin(values, uniform(2 * k + 1, total));
    p2 := if s2.Some? then s2 else parent2;
  }

  /** One iteration of a `while` loop of `rouletteWheel`: pair `k` spun on the loop's wheel and appended. */
  method StepPair(wh: Wheels, popSize: int, uniform: (nat, real) -> real, onFst: bool, k: nat, s: Picked)
    returns (r: Result<Picked>)
    requires Spins(wh, popSize, uniform, k) == Ok(s)
    requires OnFstWheel(popSize, k) == onFst
    ensures r == Spins(wh, popSize, uniform, k + 1)
  {
    var p1, p2 := DrawPair(wh.Values(onFst), wh.Total(onFst), uniform, k, s.parent1, s.parent2);
    SpinsStep(wh, popSize, uniform, k, s, p1, p2);
    if p1.None? || p2.None? {
      return Err(NameError);
    }
    r := Ok(Picked(s.selected + [(p1.value, p2.value)], p1, p2));
  }

  /**
   * One `while` loop of `rouletteWheel`: pairs spun on one wheel until
   * `bound` pairs are selected, from the state after `|s.selected|` pairs.
   */
  method SpinUntil(wh: Wheels, popSize: int, uniform: (nat, real) -> real, onFst: bool, bound: int, s: Picked)
    returns (r: Result<Picked>)
    requires Spins(wh, popSize, uniform, |s.selected|) == Ok(s)
    requires forall k: nat | |s.selected| <= k < bound :: OnFstWheel(popSize, k) == onFst
    ensures r == Spins(wh, popSize, uniform, if bound <= |s.selected| then |s.selected| else bound)
  {
    var state := s;
    while |state.selected| < bound
      invariant |s.selected| <= |state.selected| && (|state.selected| == |s.selected| || |state.selected| <= bound)
      invariant Spins(wh, popSize, uniform, |state.selected|) == Ok(state)
      decreases bound - |state.selected|
    {
      var k := |state.selected|;
      var next := StepPair(wh, popSize, uniform, onFst, k, state);
      if next.Err? {
        ErrorSticks(wh, popSize, uniform, k + 1, bound);
        return next;
      }
      state := next.value;
    }
    r := Ok(state);
  }

  /** The two `while` loops of `rouletteWheel`: `popSize // 4` pairs on the `Fst` wheel, the rest up to `popSize // 2` on the `Fsup` wheel. */
  method RouletteLoops(wh: Wheels, popSize: int, uniform: (nat, real) -> real) returns (r: Result<seq<(nat, nat)>>)
    ensures r == Selected(Spins(wh, popSize, uniform, Pairs(popSize)))
  {
    var first := SpinUntil(wh, popSize, uniform, true, popSize / 4, Picked([], None, None));
    if first.Err? {
      ErrorSticks(wh, popSize, uniform, if popSize / 4 <= 0 then 0 else popSize / 4, Pairs(popSize));
      return Selected(first);
    }
    var second := SpinUntil(wh, popSize, uniform, false, popSize / 2, first.value);
    r := Selected(second);
  }

  /** `rouletteWheel` as written: `totalFsup` is summed over `Fst`, not `Fsup`. */
  method RouletteWheel(fit: seq<Fitness>, popSize: int, uniform: (nat, real) -> real) returns (r: Result<seq<(nat, nat)>>)
    ensures r == Selected(Spins(Wheels(Objective(fit, true), Objective(fit, false),
                                       Sum(Objective(fit, true)), Sum(Objective(fit, true))), popSize, uniform, Pairs(popSize)))
  {
    var totalFst := Sum(Objective(fit, true));
    var totalFsup := Sum(Objective(fit, true));
    r := RouletteLoops(Wheels(Objective(fit, true), Objective(fit, false), totalFst, totalFsup), popSize, uniform);
  }

  /** `rouletteWheel` with `totalFsup` summed over `Fsup`, the wheel the second loop spins. */
  method RouletteWheelCorrected(fit: seq<Fitness>, popSize: int, uniform: (nat, real) -> real)
    returns (r: Result<seq<(nat, nat)>>)
    ensures r == Selected(Spins(Wheels(Objective(fit, true), Objective(fit, false),
                                       Sum(Objective(fit, true)), Sum(Objective(fit, false))), popSize, uniform, Pairs(popSize)))
  {
    var totalFst := Sum(Objective(fit, true));
    var totalFsup := Sum(Objective(fit, false));
    r := RouletteLoops(Wheels(Objective(fit, true), Objective(fit, false), totalFst, totalFsup), popSize, uniform);
  }

  /** Running totals of non-negative values never decrease. */
  lemma {:induction false} PrefixSumsGrow(values: seq<real>, i: nat, j: nat)
    requires forall k | 0 <= k < |values| :: values[k] >= 0.0
    requires i <= j <= |values|
    ensures Sum(values[..i]) <= Sum(values[..j])
    decreases j - i
  {
    if i < j {
      PrefixSumsGrow(values, i, j - 1);
      assert values[..j][..j - 1] == values[..j - 1];
    }
  }

  /**
   * Each position owns a slot of the wheel as wide as its value: with
   * non-negative values and a non-negative pick, a spin selects `i`
   * exactly when the pick lies in `[Sum(values[..i]), Sum(values[..i+1]))`.
   */
  lemma SpinSlot(values: seq<real>, pick: real, i: nat)
    requires forall k | 0 <= k < |values| :: values[k] >= 0.0
    requires pick >= 0.0
    ensures FirstExceeding(values, pick) == Some(i) <==>
              i < |values| && Sum(values[..i]) <= pick < Running(values, i)
  {
    var r := FirstExceeding(values, pick);
    if r == Some(i) && i > 0 {
      assert Running(values, i - 1) <= pick;
    }
    if i < |values| && Sum(values[..i]) <= pick < Running(values, i) {
      if r.Some? && r.value < i {
        PrefixSumsGrow(values, r.value + 1, i);
      }
    }
  }

  /** A pick below the wheel's total always selects someone. */
  lemma SpinBelowTotal(values: seq<real>, pick: real)
    requires 0.0 <= pick < Sum(values)
    ensures FirstExceeding(values, pick).Some?
  {
    if values != [] {
      assert values[..(|values| - 1) + 1] == values;
      assert Running(values, |values| - 1) > pick;
    }
  }

  /** Pair `i` holds exactly the positions its two spins selected, none of them stale. */
  predicate SpunFresh(wh: Wheels, popSize: int, uniform: (nat, real) -> real, i: nat, pair: (nat, nat)) {
    var onFst := OnFstWheel(popSize, i);
    FirstExceeding(wh.Values(onFst), uniform(2 * i, wh.Total(onFst))) == Some(pair.0) &&
    FirstExceeding(wh.Values(onFst), uniform(2 * i + 1, wh.Total(onFst))) == Some(pair.1)
  }

  /** Every pair of `pairs` holds exactly the positions its spins selected. */
  predicate AllFresh(wh: Wheels, popSize: int, uniform: (nat, real) -> real, pairs: seq<(nat, nat)>) {
    forall i | 0 <= i < |pairs| :: SpunFresh(wh, popSize, uniform, i, pairs[i])
  }

  lemma AllFreshAppend(wh: Wheels, popSize: int, uniform: (nat, real) -> real, pairs: seq<(nat, nat)>, pair: (nat, nat))
    requires AllFresh(wh, popSize, uniform, pairs)
    requires SpunFresh(wh, popSize, uniform, |pairs|, pair)
    ensures AllFresh(wh, popSize, uniform, pairs + [pair])
  {
    var all := pairs + [pair];
    forall i | 0 <= i < |all| ensures SpunFresh(wh, popSize, uniform, i, all[i]) {
      if i < |pairs| {
        assert all[i] == pairs[i];
      }
    }
  }

  /**
   * With positive totals that are the sums of their wheels and every pick
   * in `[0, total)`, the selection never raises and never reuses a stale
   * parent: every parent is the position its own spin selected.
   */
  lemma {:induction false} CorrectedWheelAlwaysPicks(wh: Wheels, popSize: int, uniform: (nat, real) -> real, k: nat)
    requires wh.fstTotal == Sum(wh.fstValues) && wh.fsupTotal == Sum(wh.fsupValues)
    requires wh.fstTotal > 0.0 && wh.fsupTotal > 0.0
    requires forall j: nat, total: real | total > 0.0 :: 0.0 <= uniform(j, total) < total
    ensures Spins(wh, popSize, uniform, k).Ok?
    ensures AllFresh(wh, popSize, uniform, Spins(wh, popSize, uniform, k).value.selected)
  {
    if k > 0 {
      CorrectedWheelAlwaysPicks(wh, popSize, uniform, k - 1);
      var s := Spins(wh, popSize, uniform, k - 1).value;
      assert AllFresh(wh, popSize, uniform, s.selected);
      var onFst := OnFstWheel(popSize, k - 1);
      var values, total := wh.Values(onFst), wh.Total(onFst);
      var pick1, pick2 := uniform(2 * (k - 1), total), uniform(2 * (k - 1) + 1, total);
      SpinBelowTotal(values, pick1);
      SpinBelowTotal(values, pick2);
      var pair := (FirstExceeding(values, pick1).value, FirstExceeding(values, pick2).value);
      assert Spins(wh, popSize, uniform, k) == SpinPair(wh, popSize, uniform, k - 1, s);
      assert SpinPair(wh, popSize, uniform, k - 1, s).value.selected == s.selected + [pair];
      assert |s.selected| == k - 1;
      assert SpunFresh(wh, popSize, uniform, k - 1, pair);
      AllFreshAppend(wh, popSize, uniform, s.selected, pair);
    }
  }

  /**
   * As written, the second loop spins the `Fsup` wheel with picks up to
   * the `Fst` total: one solution with `Fst` 5 and `Fsup` 1, population
   * size 2 and a pick of half the total gives 2.5, past the whole `Fsup`
   * wheel, so `parent1` is never assigned and the append raises
   * `NameError`; with the `Fsup` total the pick is 0.5 and the pair is
   * `(0, 0)`.
   */
  lemma FsupWheelOverrun()
    ensures Objective([Fitness(5.0, 1.0)], true) == [5.0] && Objective([Fitness(5.0, 1.0)], false) == [1.0]
    ensures Sum([5.0]) == 5.0 && Sum([1.0]) == 1.0
    ensures var half := (k: nat, total: real) => total / 2.0;
            Spins(Wheels([5.0], [1.0], 5.0, 5.0), 2, half, Pairs(2)) == Err(NameError) &&
            Spins(Wheels([5.0], [1.0], 5.0, 1.0), 2, half, Pairs(2)) == Ok(Picked([(0, 0)], Some(0), Some(0)))
  {
    var half := (k: nat, total: real) => total / 2.0;
    assert Objective([Fitness(5.0, 1.0)], true) == [5.0];
    assert Sum([1.0]) == 1.0 by { assert [1.0][..0] == []; }
    assert Sum([5.0]) == 5.0 by { assert [5.0][..0] == []; }
    assert Running([1.0], 0) == 1.0 by { assert [1.0][..1] == [1.0]; }
    assert FirstExceeding([1.0], 2.5) == None;
    assert FirstExceeding([1.0], 0.5) == Some(0);
    assert Pairs(2) == 1 && !OnFstWheel(2, 0);
    SpinsStep(Wheels([5.0], [1.0], 5.0, 5.0), 2, half, 0, Picked([], None, None), None, None);
    SpinsStep(Wheels([5.0], [1.0], 5.0, 1.0), 2, half, 0, Picked([], None, None), Some(0), Some(0));
    assert [] + [(0, 0)] == [(0, 0)];
  }
}
