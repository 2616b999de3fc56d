/**
 * `partition(n, m, minQuota, maxQuota)` of `integerPartition.py`: `m`
 * random quotas in `[minQuota, maxQuota]`, shuffled, then nudged one unit
 * at a time until they sum to `n`. `random.randint`, `random.shuffle`'s
 * index draws and `random.choice` are oracles.
 */
module IntegerPartition {
  import opened Outcomes
  import GraphModel

  /** Python's `sum`. */
  function Sum(s: seq<int>): int {
    if s == [] then 0 else s[0] + Sum(s[1..])
  }

  /** Every element lies in `[lo, hi]`. */
  predicate Within(s: seq<int>, lo: int, hi: int) {
    forall i | 0 <= i < |s| :: lo <= s[i] <= hi
  }

  /** `[x for x in s if keep(x)]`. */
  function Filter(s: seq<int>, keep: int -> bool): (r: seq<int>)
    ensures forall i | 0 <= i < |r| :: keep(r[i])
  {
    if s == [] then []
    else if keep(s[0]) then [s[0]] + Filter(s[1..], keep)
    else Filter(s[1..], keep)
  }

  /** `random.randint(lo, hi)` as the `k`-th draw. */
  function RandInt(draw: nat -> nat, k: nat, lo: int, hi: int): (x: int)
    requires lo <= hi
    ensures lo <= x <= hi
  {
    lo + draw(k) % (hi - lo + 1)
  }

  /** The number of quotas the first loop draws: `m`, or none when `m` is not positive. */
  function Count(m: int): nat {
    if m > 0 then m else 0
  }

  /** The quotas the first loop appends, in order. */
  function Draws(draw: nat -> nat, m: int, lo: int, hi: int): (s: seq<int>)
    requires lo <= hi
    ensures |s| == Count(m) && Within(s, lo, hi)
  {
    seq(Count(m), k requires 0 <= k < Count(m) => RandInt(draw, k, lo, hi))
  }

  /** The `while len(quotas) < m` loop: `randint` raises `ValueError` on an empty range. */
  method DrawQuotas(m: int, lo: int, hi: int, draw: nat -> nat) returns (r: Result<seq<int>>)
    ensures r.Err? <==> m > 0 && lo > hi
    ensures r.Err? ==> r.error == ValueError
    ensures r.Ok? ==> |r.value| == Count(m)
    ensures r.Ok? && lo <= hi ==> r.value == Draws(draw, m, lo, hi)
  {
    var quotas: seq<int> := [];
    while |quotas| < m
      invariant |quotas| <= Count(m)
      invariant lo <= hi ==> forall k | 0 <= k < |quotas| :: quotas[k] == RandInt(draw, k, lo, hi)
      invariant lo > hi ==> quotas == []
      decreases m - |quotas|
    {
      if lo > hi {
        return Err(ValueError);
      }
      var x := RandInt(draw, |quotas|, lo, hi);
      quotas := quotas + [x];
    }
    r := Ok(quotas);
  }

  /**
   * `random.shuffle`: the Fisher-Yates pass from the last position down
   * to 1, swapping each position with one drawn at or below it.
   */
  method Shuffle(a: array<int>, below: nat -> nat)
    modifies a
    ensures multiset(a[..]) == multiset(old(a[..]))
  {
    var i := a.Length - 1;
    while i > 0
      invariant i < a.Length
      invariant multiset(a[..]) == multiset(old(a[..]))
    {
      var j := below(a.Length - 1 - i) % (i + 1);
      a[i], a[j] := a[j], a[i];
      i := i - 1;
    }
  }

  /**
   * The `sum(quotas) > n` branch: values above `lo` are drawn with
   * `random.choice` and decremented until the surplus is gone; a value
   * reaching `lo` is parked in `temp`. An empty `gt` raises `IndexError`.
   */
  method Decrease(quotas: seq<int>, n: int, lo: int, hi: int, choice: nat -> nat) returns (r: Result<seq<int>>)
    requires lo <= hi && Within(quotas, lo, hi) && Sum(quotas) > n
    ensures r.Ok? <==> |quotas| * lo <= n
    ensures r.Err? ==> r.error == IndexError
    ensures r.Ok? ==> |r.value| == |quotas| && Sum(r.value) == n && Within(r.value, lo, hi)
  {
    var lt := Filter(quotas, (x: int) => x == lo);
    var gt := Filter(quotas, (x: int) => x > lo);
    LoweringStart(quotas, lo, hi);
    var temp: seq<int> := [];
    var req := Sum(quotas) - n;
    var k: nat := 0;
    while req > 0
      invariant req >= 0 && Lowering(gt, temp, lt, lo, hi, |quotas|, n + req)
      decreases req
    {
      if |gt| == 0 {
        LoweringStuck(gt, temp, lt, lo, hi, |quotas|, n + req);
        return Err(IndexError);
      }
      var x := gt[choice(k) % |gt|];
      LoweringStep(gt, temp, lt, lo, hi, |quotas|, n + req, x);
      gt := GraphModel.RemoveFirst(gt, x);
      x := x - 1;
      req := req - 1;
      k := k + 1;
      if x == lo {
        temp := temp + [x];
      } else {
        gt := gt + [x];
      }
    }
    LoweringDone(gt, temp, lt, lo, hi, |quotas|, n);
    r := Ok(gt + temp + lt);
  }

  /**
   * The state of the decrementing loop: `gt` holds values above `lo`,
   * `temp` and `lt` values at `lo`, `count` values in all, summing to `total`.
   */
  ghost predicate Lowering(gt: seq<int>, temp: seq<int>, lt: seq<int>, lo: int, hi: int, count: int, total: int) {
    Within(gt, lo + 1, hi) && Within(temp, lo, lo) && Within(lt, lo, lo) &&
    |gt| + |temp| + |lt| == count && Sum(gt) + Sum(temp) + Sum(lt) == total
  }

  /** The two filters of `quotas` start the loop with nothing parked. */
  lemma LoweringStart(quotas: seq<int>, lo: int, hi: int)
    requires Within(quotas, lo, hi)
    ensures Lowering(Filter(quotas, (x: int) => x > lo), [], Filter(quotas, (x: int) => x == lo), lo, hi, |quotas|, Sum(quotas))
  {
    var lt := Filter(quotas, (x: int) => x == lo);
    var gt := Filter(quotas, (x: int) => x > lo);
    SplitAtBound(quotas, lo, hi, lt, gt);
  }

  /** One decrement keeps the loop's state and takes one off the total. */
  lemma LoweringStep(gt: seq<int>, temp: seq<int>, lt: seq<int>, lo: int, hi: int, count: int, total: int, x: int)
    requires Lowering(gt, temp, lt, lo, hi, count, total) && x in gt
    ensures var rest := GraphModel.RemoveFirst(gt, x);
      if x - 1 == lo then Lowering(rest, temp + [x - 1], lt, lo, hi, count, total - 1)
      else Lowering(rest + [x - 1], temp, lt, lo, hi, count, total - 1)
  {
    var rest := GraphModel.RemoveFirst(gt, x);
    WithinRemoveFirst(gt, x, lo + 1, hi);
    SumRemoveFirst(gt, x);
    if x - 1 == lo {
      SumAppend(temp, [x - 1]);
    } else {
      SumAppend(rest, [x - 1]);
    }
  }

  /** With nothing left above `lo`, the total is `count * lo`. */
  lemma LoweringStuck(gt: seq<int>, temp: seq<int>, lt: seq<int>, lo: int, hi: int, count: int, total: int)
    requires Lowering(gt, temp, lt, lo, hi, count, total) && gt == []
    ensures total == count * lo
  {
    SumBounds(temp, lo, lo);
    SumBounds(lt, lo, lo);
    assert |temp| * lo + |lt| * lo == count * lo;
  }

  /** The joined lists have `count` values in range summing to `total`, at least `count * lo`. */
  lemma LoweringDone(gt: seq<int>, temp: seq<int>, lt: seq<int>, lo: int, hi: int, count: int, total: int)
    requires lo <= hi && Lowering(gt, temp, lt, lo, hi, count, total)
    ensures |gt + temp + lt| == count && Sum(gt + temp + lt) == total && Within(gt + temp + lt, lo, hi)
    ensures count * lo <= total
  {
    Joined(gt, temp, lt, lo, hi);
    SumBounds(gt + temp + lt, lo, hi);
  }

  /**
   * The `sum(quotas) < n` branch: values below `hi` are drawn and
   * incremented until the shortfall is gone; a value reaching `hi` is
   * parked in `temp`. An empty `lt2` raises `IndexError`.
   */
  method Increase(quotas: seq<int>, n: int, lo: int, hi: int, choice: nat -> nat) returns (r: Result<seq<int>>)
    requires lo <= hi && Within(quotas, lo, hi) && Sum(quotas) < n
    ensures r.Ok? <==> n <= |quotas| * hi
    ensures r.Err? ==> r.error == IndexError
    ensures r.Ok? ==> |r.value| == |quotas| && Sum(r.value) == n && Within(r.value, lo, hi)
  {
    var req := n - Sum(quotas);
    var lt2 := Filter(quotas, (x: int) => x < hi);
    var gt2 := Filter(quotas, (x: int) => x == hi);
    RaisingStart(quotas, lo, hi);
    var temp: seq<int> := [];
    var k: nat := 0;
    while req > 0
      invariant req >= 0 && Raising(gt2, temp, lt2, lo, hi, |quotas|, n - req)
      decreases req
    {
      if |lt2| == 0 {
        RaisingStuck(gt2, temp, lt2, lo, hi, |quotas|, n - req);
        return Err(IndexError);
      }
      var x := lt2[choice(k) % |lt2|];
      RaisingStep(gt2, temp, lt2, lo, hi, |quotas|, n - req, x);
      lt2 := GraphModel.RemoveFirst(lt2, x);
      x := x + 1;
      req := req - 1;
      k := k + 1;
      if x == hi {
        temp := temp + [x];
      } else {
        lt2 := lt2 + [x];
      }
    }
    RaisingDone(gt2, temp, lt2, lo, hi, |quotas|, n);
    r := Ok(gt2 + temp + lt2);
  }

  /**
   * The state of the incrementing loop: `gt2` and `temp` hold values at
   * `hi`, `lt2` values below it, `count` values in all, summing to `total`.
   */
  ghost predicate Raising(gt2: seq<int>, temp: seq<int>, lt2: seq<int>, lo: int, hi: int, count: int, total: int) {
    Within(gt2, hi, hi) && Within(temp, hi, hi) && Within(lt2, lo, hi - 1) &&
    |gt2| + |temp| + |lt2| == count && Sum(gt2) + Sum(temp) + Sum(lt2) == total
  }

  /** The two filters of `quotas` start the loop with nothing parked. */
  lemma RaisingStart(quotas: seq<int>, lo: int, hi: int)
    requires Within(quotas, lo, hi)
    ensures Raising(Filter(quotas, (x: int) => x == hi), [], Filter(quotas, (x: int) => x < hi), lo, hi, |quotas|, Sum(quotas))
  {
    var lt2 := Filter(quotas, (x: int) => x < hi);
    var gt2 := Filter(quotas, (x: int) => x == hi);
    SplitAtBound(quotas, lo, hi, gt2, lt2);
  }

  /** One increment keeps the loop's state and adds one to the total. */
  lemma RaisingStep(gt2: seq<int>, temp: seq<int>, lt2: seq<int>, lo: int, hi: int, count: int, total: int, x: int)
    requires Raising(gt2, temp, lt2, lo, hi, count, total) && x in lt2
    ensures var rest := GraphModel.RemoveFirst(lt2, x);
      if x + 1 == hi then Raising(gt2, temp + [x + 1], rest, lo, hi, count, total + 1)
      else Raising(gt2, temp, rest + [x + 1], lo, hi, count, total + 1)
  {
    var rest := GraphModel.RemoveFirst(lt2, x);
    WithinRemoveFirst(lt2, x, lo, hi - 1);
    SumRemoveFirst(lt2, x);
    if x + 1 == hi {
      SumAppend(temp, [x + 1]);
    } else {
      SumAppend(rest, [x + 1]);
    }
  }

  /** With nothing left below `hi`, the total is `count * hi`. */
  lemma RaisingStuck(gt2: seq<int>, temp: seq<int>, lt2: seq<int>, lo: int, hi: int, count: int, total: int)
    requires Raising(gt2, temp, lt2, lo, hi, count, total) && lt2 == []
    ensures total == count * hi
  {
    SumBounds(temp, hi, hi);
    SumBounds(gt2, hi, hi);
    assert |temp| * hi + |gt2| * hi == count * hi;
  }

  /** The joined lists have `count` values in range summing to `total`, at most `count * hi`. */
  lemma RaisingDone(gt2: seq<int>, temp: seq<int>, lt2: seq<int>, lo: int, hi: int, count: int, total: int)
    requires lo <= hi && Raising(gt2, temp, lt2, lo, hi, count, total)
    ensures |gt2 + temp + lt2| == count && Sum(gt2 + temp + lt2) == total && Within(gt2 + temp + lt2, lo, hi)
    ensures total <= count * hi
  {
    Joined(gt2, temp, lt2, lo, hi);
    SumBounds(gt2 + temp + lt2, lo, hi);
  }

  /**
   * `partition`: the drawn quotas, shuffled, then decreased or increased
   * to sum to `n`, or returned as they are when they already do.
   */
  method Partition(n: int, m: int, lo: int, hi: int, draw: nat -> nat, below: nat -> nat, choice: nat -> nat)
    returns (r: Result<seq<int>>, ghost shuffled: seq<int>)
    ensures r.Ok? <==> (m <= 0 || lo <= hi) && Count(m) * lo <= n <= Count(m) * hi
    ensures r.Err? ==> r.error == if m > 0 && lo > hi then ValueError else IndexError
    ensures r.Ok? ==> |r.value| == Count(m) && Sum(r.value) == n && Within(r.value, lo, hi)
    ensures lo <= hi ==> multiset(shuffled) == multiset(Draws(draw, m, lo, hi))
    ensures lo <= hi && Sum(shuffled) == n ==> r == Ok(shuffled)
  {
    var drawn := DrawQuotas(m, lo, hi, draw);
    if drawn.Err? {
      shuffled := [];
      return drawn, shuffled;
    }
    var quotas := drawn.value;
    if lo > hi {
      // no quota was drawn: the sum is 0
      shuffled := quotas;
      if n == 0 {
        return Ok(quotas), shuffled;
      }
      return Err(IndexError), shuffled;
    }
    var a := new int[|quotas|](i => if 0 <= i < |quotas| then quotas[i] else 0);
    assert a[..] == quotas;
    Shuffle(a, below);
    quotas := a[..];
    shuffled := quotas;
    PermutationKeeps(drawn.value, quotas, lo, hi);
    SumBounds(quotas, lo, hi);
    if Sum(quotas) > n {
      r := Decrease(quotas, n, lo, hi, choice);
    } else if Sum(quotas) < n {
      r := Increase(quotas, n, lo, hi, choice);
    } else {
      r := Ok(quotas);
    }
    if r.Ok? {
      SumBounds(r.value, lo, hi);
    }
  }

  // ---------------------------------------------------------------------
  // Facts about sums and filters

  lemma {:induction false} SumAppend(a: seq<int>, b: seq<int>)
    ensures Sum(a + b) == Sum(a) + Sum(b)
  {
    if a != [] {
      assert (a + b)[0] == a[0] && (a + b)[1..] == a[1..] + b;
      SumAppend(a[1..], b);
    } else {
      assert a + b == b;
    }
  }

  /** Removing one occurrence of `x` takes `x` off the sum. */
  lemma {:induction false} SumRemoveFirst(s: seq<int>, x: int)
    requires x in s
    ensures Sum(GraphModel.RemoveFirst(s, x)) == Sum(s) - x
  {
    if s[0] != x {
      SumRemoveFirst(s[1..], x);
    }
  }

  lemma WithinRemoveFirst(s: seq<int>, x: int, lo: int, hi: int)
    requires x in s && Within(s, lo, hi)
    ensures lo <= x <= hi && Within(GraphModel.RemoveFirst(s, x), lo, hi)
  {
    var r := GraphModel.RemoveFirst(s, x);
    forall i | 0 <= i < |r| ensures lo <= r[i] <= hi {
      assert r[i] in multiset(r);
      assert multiset(r)[r[i]] <= multiset(s)[r[i]];
    }
  }

  /** `|s| * lo <= Sum(s) <= |s| * hi` for values in `[lo, hi]`. */
  lemma {:induction false} SumBounds(s: seq<int>, lo: int, hi: int)
    requires Within(s, lo, hi)
    ensures |s| * lo <= Sum(s) <= |s| * hi
  {
    if s != [] {
      SumBounds(s[1..], lo, hi);
    }
  }

  /** Sequences with the same elements have the same sum. */
  lemma {:induction false} SumOfPermutation(a: seq<int>, b: seq<int>)
    requires multiset(a) == multiset(b)
    ensures Sum(a) == Sum(b)
    decreases |a|
  {
    if a != [] {
      assert a[0] in multiset(b);
      assert a == [a[0]] + a[1..];
      SumRemoveFirst(b, a[0]);
      SumOfPermutation(a[1..], GraphModel.RemoveFirst(b, a[0]));
    } else {
      assert |b| == |multiset(b)|;
    }
  }

  /** A permutation keeps the length, the sum and the range of the values. */
  lemma PermutationKeeps(a: seq<int>, b: seq<int>, lo: int, hi: int)
    requires multiset(a) == multiset(b) && Within(a, lo, hi)
    ensures |b| == |a| && Sum(b) == Sum(a) && Within(b, lo, hi)
  {
    assert |a| == |multiset(a)| && |b| == |multiset(b)|;
    SumOfPermutation(a, b);
    forall i | 0 <= i < |b| ensures lo <= b[i] <= hi {
      assert b[i] in multiset(a);
    }
  }

  /**
   * Values in `[lo, hi]` split into those at one bound and the rest:
   * the two filters together keep every value once.
   */
  lemma SplitAtBound(s: seq<int>, lo: int, hi: int, at: seq<int>, rest: seq<int>)
    requires Within(s, lo, hi)
    requires (at == Filter(s, (x: int) => x == lo) && rest == Filter(s, (x: int) => x > lo)) ||
             (at == Filter(s, (x: int) => x == hi) && rest == Filter(s, (x: int) => x < hi))
    ensures |at| + |rest| == |s| && Sum(at) + Sum(rest) == Sum(s)
    ensures Within(at, lo, hi) && Within(rest, lo, hi)
  {
    if at == Filter(s, (x: int) => x == lo) && rest == Filter(s, (x: int) => x > lo) {
      SplitBy(s, lo, hi, (x: int) => x == lo, (x: int) => x > lo);
    } else {
      SplitBy(s, lo, hi, (x: int) => x == hi, (x: int) => x < hi);
    }
  }

  lemma {:induction false} SplitBy(s: seq<int>, lo: int, hi: int, p: int -> bool, q: int -> bool)
    requires Within(s, lo, hi)
    requires forall x | lo <= x <= hi :: p(x) != q(x)
    ensures |Filter(s, p)| + |Filter(s, q)| == |s| && Sum(Filter(s, p)) + Sum(Filter(s, q)) == Sum(s)
    ensures Within(Filter(s, p), lo, hi) && Within(Filter(s, q), lo, hi)
  {
    if s != [] {
      var t := s[1..];
      SplitBy(t, lo, hi, p, q);
      assert p(s[0]) != q(s[0]);
      if p(s[0]) {
        assert Filter(s, p) == [s[0]] + Filter(t, p) && Filter(s, q) == Filter(t, q);
        assert ([s[0]] + Filter(t, p))[1..] == Filter(t, p);
      } else {
        assert Filter(s, q) == [s[0]] + Filter(t, q) && Filter(s, p) == Filter(t, p);
        assert ([s[0]] + Filter(t, q))[1..] == Filter(t, q);
      }
    }
  }

  /** The three lists joined: their lengths and sums add up, and every value is in range. */
  lemma Joined(a: seq<int>, b: seq<int>, c: seq<int>, lo: int, hi: int)
    requires lo <= hi
    requires (Within(a, lo + 1, hi) && Within(b, lo, lo) && Within(c, lo, lo)) ||
             (Within(a, hi, hi) && Within(b, hi, hi) && Within(c, lo, hi - 1))
    ensures Sum(a + b + c) == Sum(a) + Sum(b) + Sum(c) && Within(a + b + c, lo, hi)
  {
    SumAppend(a + b, c);
    SumAppend(a, b);
  }

  /**
   * A concrete run: ten supervisors with quotas of 4 to 5 summing to 45
   * (how `createRandomData` calls `partition`) get, whatever the draws and
   * choices, five quotas of 5 and five of 4.
   */
  method FiveOfEach(draw: nat -> nat, below: nat -> nat, choice: nat -> nat) returns (r: Result<seq<int>>)
    ensures r.Ok? && |r.value| == 10 && Sum(r.value) == 45
    ensures |Filter(r.value, (x: int) => x == 5)| == 5 && |Filter(r.value, (x: int) => x == 4)| == 5
  {
    ghost var shuffled;
    r, shuffled := Partition(45, 10, 4, 5, draw, below, choice);
    FivesInTen(r.value);
  }

  /** Ten values in `[4, 5]` summing to 45 are five 4s and five 5s. */
  lemma FivesInTen(r: seq<int>)
    requires |r| == 10 && Sum(r) == 45 && Within(r, 4, 5)
    ensures |Filter(r, (x: int) => x == 5)| == 5 && |Filter(r, (x: int) => x == 4)| == 5
  {
    SplitBy(r, 4, 5, (x: int) => x == 5, (x: int) => x == 4);
    var fives := Filter(r, (x: int) => x == 5);
    var fours := Filter(r, (x: int) => x == 4);
    SumBounds(fives, 5, 5);
    SumBounds(fours, 4, 4);
  }
}
