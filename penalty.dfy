/** The window-penalty evaluator: a specification of what one call charges,
    the counting routine that computes it, and the proof that threading the
    routine over every index yields the sum of the excesses of all windows. */
module Penalty {
  import opened Problem

  // ---------------------------------------------------------------------
  // Specification
  // ---------------------------------------------------------------------

  /** Whether the car at position `p` requires option `s`; `table` maps the
      value stored in the sequence to that car's upgrade bits. */
  predicate NeedsAt(sol: seq<int>, table: seq<seq<bool>>, s: int, p: int) {
    && 0 <= p < |sol|
    && 0 <= sol[p] < |table|
    && 0 <= s < |table[sol[p]]|
    && table[sol[p]][s]
  }

  /** Number of cars requiring option `s` in positions `lo .. hi-1`. */
  function WindowSum(sol: seq<int>, table: seq<seq<bool>>, s: int, lo: int, hi: int): nat
    decreases hi - lo
  {
    if hi <= lo then 0
    else WindowSum(sol, table, s, lo, hi - 1) + (if NeedsAt(sol, table, s, hi - 1) then 1 else 0)
  }

  /** The part of `count` above `capacity`, or zero. */
  function Excess(count: int, capacity: int): nat {
    if count > capacity then count - capacity else 0
  }

  /** Excess of the trailing suffixes starting at `i, i+1, .., |sol|-2`. */
  function TailCharge(sol: seq<int>, table: seq<seq<bool>>, r: Resource, s: int, i: int): nat
    decreases |sol| - i
  {
    if i >= |sol| - 1 then 0
    else Excess(WindowSum(sol, table, s, i, |sol|), r.capacity) + TailCharge(sol, table, r, s, i + 1)
  }

  /** What one evaluation at index `k` charges for option `s`: the leading
      prefix `0..k` while it is shorter than the window, otherwise the full
      window ending at `k`; and, at the last index only, the trailing
      suffixes shorter than the window (down to length two). */
  function OptionStep(sol: seq<int>, table: seq<seq<bool>>, r: Resource, s: int, k: int): nat {
    (if k < r.window - 1 then Excess(WindowSum(sol, table, s, 0, k + 1), r.capacity)
     else Excess(WindowSum(sol, table, s, k - r.window + 1, k + 1), r.capacity))
    + (if k == |sol| - 1 then TailCharge(sol, table, r, s, |sol| - r.window + 1) else 0)
  }

  /** The charge of one evaluation at index `k`, summed over options `0..m-1`. */
  function OptionsStep(sol: seq<int>, table: seq<seq<bool>>, resources: seq<Resource>, k: int, m: int): nat
    requires 0 <= m <= |resources|
  {
    if m == 0 then 0
    else OptionsStep(sol, table, resources, k, m - 1) + OptionStep(sol, table, resources[m - 1], m - 1, k)
  }

  /** The charge of one evaluation at index `k`, over all options. */
  function StepPenalty(sol: seq<int>, table: seq<seq<bool>>, resources: seq<Resource>, k: int): nat {
    OptionsStep(sol, table, resources, k, |resources|)
  }

  /** The running total after evaluating indices `0 .. j-1` in order, from 0. */
  function Threaded(sol: seq<int>, table: seq<seq<bool>>, resources: seq<Resource>, j: int): nat
    decreases j
  {
    if j <= 0 then 0
    else Threaded(sol, table, resources, j - 1) + StepPenalty(sol, table, resources, j - 1)
  }

  /** The penalty of a complete sequence, as the solvers compute it. */
  function Total(sol: seq<int>, table: seq<seq<bool>>, resources: seq<Resource>): nat {
    Threaded(sol, table, resources, |sol|)
  }

  // ---------------------------------------------------------------------
  // Independent reference: every window of every option, enumerated
  // ---------------------------------------------------------------------

  /** Excess of the leading prefixes `0..k` for `k < j`. */
  function LeadWindows(sol: seq<int>, table: seq<seq<bool>>, r: Resource, s: int, j: int): nat
    decreases j
  {
    if j <= 0 then 0
    else LeadWindows(sol, table, r, s, j - 1) + Excess(WindowSum(sol, table, s, 0, j), r.capacity)
  }

  /** Excess of the full windows starting at `0 .. j-1`. */
  function FullWindows(sol: seq<int>, table: seq<seq<bool>>, r: Resource, s: int, j: int): nat
    decreases j
  {
    if j <= 0 then 0
    else (FullWindows(sol, table, r, s, j - 1)
          + Excess(WindowSum(sol, table, s, j - 1, j - 1 + r.window), r.capacity))
  }

  /** Penalty of option `s` over the whole sequence, window by window: the
      `window-1` leading prefixes, the `n-window+1` full windows, and the
      trailing suffixes of lengths `window-1` down to 2. */
  function OptionDirect(sol: seq<int>, table: seq<seq<bool>>, r: Resource, s: int): nat {
    LeadWindows(sol, table, r, s, r.window - 1)
    + FullWindows(sol, table, r, s, |sol| - r.window + 1)
    + TailCharge(sol, table, r, s, |sol| - r.window + 1)
  }

  /** Sum of `OptionDirect` over options `0..m-1`. */
  function DirectTotal(sol: seq<int>, table: seq<seq<bool>>, resources: seq<Resource>, m: int): nat
    requires 0 <= m <= |resources|
  {
    if m == 0 then 0
    else DirectTotal(sol, table, resources, m - 1) + OptionDirect(sol, table, resources[m - 1], m - 1)
  }

  // ---------------------------------------------------------------------
  // The evaluator as the source computes it
  // ---------------------------------------------------------------------

  /** Counts the cars requiring option `s` in positions `lo..hi` inclusive. */
  method CountRequirers(solution: seq<int>, table: seq<seq<bool>>, s: int, lo: int, hi: int)
    returns (num: int)
    requires 0 <= lo && hi < |solution|
    requires forall p :: lo <= p <= hi ==> 0 <= solution[p] < |table|
    requires forall p :: lo <= p <= hi ==> 0 <= s < |table[solution[p]]|
    ensures num == WindowSum(solution, table, s, lo, hi + 1)
  {
    num := 0;
    var p := lo;
    while p <= hi
      invariant lo <= p && (p <= hi + 1 || p == lo)
      invariant num == WindowSum(solution, table, s, lo, p)
    {
      if table[solution[p]][s] {
        num := num + 1;
      }
      p := p + 1;
    }
  }

  /** The penalties of all windows that reach index `k`, added to
      `partialPenalty`. */
  method Penalties(solution: seq<int>, k: int, partialPenalty: int,
                   table: seq<seq<bool>>, resources: seq<Resource>)
    returns (r: int)
    requires 0 <= k < |solution|
    requires ValidTable(table, |resources|)
    requires ValidResources(resources, |solution|)
    requires forall p :: 0 <= p <= k ==> 0 <= solution[p] < |table|
    ensures r == partialPenalty + StepPenalty(solution, table, resources, k)
    ensures r >= partialPenalty
  {
    var newPenalties := 0;
    var improvements := |table[0]|;
    var n := |solution|;
    for s := 0 to improvements
      invariant newPenalties == OptionsStep(solution, table, resources, k, s)
    {
      var res := resources[s];
      ghost var before := newPenalties;
      // the incomplete windows at the beginning of the sequence
      if k < res.window - 1 {
        var num := CountRequirers(solution, table, s, 0, k);
        if num > res.capacity {
          newPenalties := newPenalties + num - res.capacity;
        }
      }
      // the complete window that ends at k
      if k >= res.window - 1 {
        var num := CountRequirers(solution, table, s, k - res.window + 1, k);
        if num > res.capacity {
          newPenalties := newPenalties + num - res.capacity;
        }
      }
      ghost var mid := newPenalties;
      // the incomplete windows at the end of the sequence
      if k == n - 1 {
        var i := n - res.window + 1;
        ghost var start := i;
        while i < n - 1
          invariant start <= i && (i <= n - 1 || i == start)
          invariant newPenalties + TailCharge(solution, table, res, s, i)
                 == mid + TailCharge(solution, table, res, s, start)
        {
          var num := CountRequirers(solution, table, s, i, k);
          if num > res.capacity {
            newPenalties := newPenalties + num - res.capacity;
          }
          i := i + 1;
        }
      }
      assert newPenalties == before + OptionStep(solution, table, res, s, k);
    }
    r := partialPenalty + newPenalties;
  }

  /** Threads `Penalties` over `k = 0 .. n-1` from 0. */
  method ThreadedPenalty(solution: seq<int>, table: seq<seq<bool>>, resources: seq<Resource>)
    returns (penalty: int)
    requires ValidTable(table, |resources|)
    requires ValidResources(resources, |solution|)
    requires Entries(solution, |table|)
    ensures penalty == Total(solution, table, resources)
    ensures penalty == DirectTotal(solution, table, resources, |resources|)
  {
    penalty := 0;
    for k := 0 to |solution|
      invariant penalty == Threaded(solution, table, resources, k)
    {
      penalty := Penalties(solution, k, penalty, table, resources);
    }
    TotalIsDirect(solution, table, resources);
  }

  // ---------------------------------------------------------------------
  // Lemmas
  // ---------------------------------------------------------------------

  /** The running total never decreases along the indices. */
  lemma {:induction false} ThreadedMonotone(sol: seq<int>, table: seq<seq<bool>>, resources: seq<Resource>, i: int, j: int)
    requires i <= j
    ensures Threaded(sol, table, resources, i) <= Threaded(sol, table, resources, j)
    decreases j - i
  {
    if i < j {
      ThreadedMonotone(sol, table, resources, i, j - 1);
    }
  }

  lemma {:induction false} WindowSumFrame(a: seq<int>, b: seq<int>, table: seq<seq<bool>>, s: int, lo: int, hi: int, k: int)
    requires |a| == |b| && 0 <= k <= |a| && a[..k] == b[..k] && hi <= k
    ensures WindowSum(a, table, s, lo, hi) == WindowSum(b, table, s, lo, hi)
    decreases hi - lo
  {
    if lo < hi {
      if 0 <= hi - 1 {
        assert a[hi - 1] == a[..k][hi - 1] == b[..k][hi - 1] == b[hi - 1];
      }
      WindowSumFrame(a, b, table, s, lo, hi - 1, k);
    }
  }

  lemma {:induction false} OptionsStepFrame(a: seq<int>, b: seq<int>, table: seq<seq<bool>>, resources: seq<Resource>, j: int, m: int, k: int)
    requires |a| == |b| && 0 <= j < k <= |a| && a[..k] == b[..k]
    requires k < |a| || a == b
    requires 0 <= m <= |resources|
    ensures OptionsStep(a, table, resources, j, m) == OptionsStep(b, table, resources, j, m)
  {
    if m > 0 {
      OptionsStepFrame(a, b, table, resources, j, m - 1, k);
      if a != b {
        var r := resources[m - 1];
        WindowSumFrame(a, b, table, m - 1, 0, j + 1, k);
        WindowSumFrame(a, b, table, m - 1, j - r.window + 1, j + 1, k);
      }
    }
  }

  /** The running total after `k` indices depends only on the first `k`
      cars (and the length of the line): the tail is charged only at the
      last index. */
  lemma {:induction false} ThreadedFrame(a: seq<int>, b: seq<int>, table: seq<seq<bool>>, resources: seq<Resource>, k: int)
    requires |a| == |b| && 0 <= k <= |a| && a[..k] == b[..k]
    ensures Threaded(a, table, resources, k) == Threaded(b, table, resources, k)
  {
    if k == |a| {
      assert a == a[..k] && b == b[..k];
    } else {
      ThreadedFrameBelow(a, b, table, resources, k, k);
    }
  }

  lemma {:induction false} ThreadedFrameBelow(a: seq<int>, b: seq<int>, table: seq<seq<bool>>, resources: seq<Resource>, j: int, k: int)
    requires |a| == |b| && 0 <= j <= k < |a| && a[..k] == b[..k]
    ensures Threaded(a, table, resources, j) == Threaded(b, table, resources, j)
  {
    if j > 0 {
      ThreadedFrameBelow(a, b, table, resources, j - 1, k);
      OptionsStepFrame(a, b, table, resources, j - 1, |resources|, k);
    }
  }

  /** The total of a complete sequence bounds the running total of every
      prefix of it: pruning on a partial penalty is sound. */
  lemma PrefixBound(a: seq<int>, b: seq<int>, table: seq<seq<bool>>, resources: seq<Resource>, k: int)
    requires |a| == |b| && 0 <= k <= |a| && a[..k] == b[..k]
    ensures Threaded(a, table, resources, k) <= Total(b, table, resources)
  {
    ThreadedFrame(a, b, table, resources, k);
    ThreadedMonotone(b, table, resources, k, |b|);
  }

  // Threading, option by option.

  /** Sum over `k < j` of what evaluation `k` charges for option `s`. */
  function OptionThread(sol: seq<int>, table: seq<seq<bool>>, r: Resource, s: int, j: int): nat
    decreases j
  {
    if j <= 0 then 0 else OptionThread(sol, table, r, s, j - 1) + OptionStep(sol, table, r, s, j - 1)
  }

  /** Sum over options `s < m` of `OptionThread(.., s, j)`. */
  function OptionsThread(sol: seq<int>, table: seq<seq<bool>>, resources: seq<Resource>, j: int, m: int): nat
    requires 0 <= m <= |resources|
  {
    if m == 0 then 0
    else OptionsThread(sol, table, resources, j, m - 1) + OptionThread(sol, table, resources[m - 1], m - 1, j)
  }

  lemma {:induction false} OptionsThreadStep(sol: seq<int>, table: seq<seq<bool>>, resources: seq<Resource>, j: int, m: int)
    requires 0 < j && 0 <= m <= |resources|
    ensures OptionsThread(sol, table, resources, j, m)
         == OptionsThread(sol, table, resources, j - 1, m) + OptionsStep(sol, table, resources, j - 1, m)
  {
    if m > 0 {
      OptionsThreadStep(sol, table, resources, j, m - 1);
    }
  }

  lemma {:induction false} OptionsThreadZero(sol: seq<int>, table: seq<seq<bool>>, resources: seq<Resource>, m: int)
    requires 0 <= m <= |resources|
    ensures OptionsThread(sol, table, resources, 0, m) == 0
  {
    if m > 0 {
      OptionsThreadZero(sol, table, resources, m - 1);
    }
  }

  /** Threading sums, index by index, the charges of all options; it is the
      same as summing, option by option, the charges of all indices. */
  lemma {:induction false} ThreadedByOption(sol: seq<int>, table: seq<seq<bool>>, resources: seq<Resource>, j: int)
    requires 0 <= j
    ensures Threaded(sol, table, resources, j) == OptionsThread(sol, table, resources, j, |resources|)
  {
    if j == 0 {
      OptionsThreadZero(sol, table, resources, |resources|);
    } else {
      ThreadedByOption(sol, table, resources, j - 1);
      OptionsThreadStep(sol, table, resources, j, |resources|);
    }
  }

  /** After `j` evaluations, option `s` has been charged the leading prefixes
      and full windows whose last index is below `j`, and the trailing
      suffixes once `j` reaches the end. */
  lemma {:induction false} OptionThreadWindows(sol: seq<int>, table: seq<seq<bool>>, r: Resource, s: int, j: int)
    requires 1 <= r.window <= |sol| && 0 <= j <= |sol|
    ensures OptionThread(sol, table, r, s, j)
         == LeadWindows(sol, table, r, s, if j < r.window - 1 then j else r.window - 1)
          + FullWindows(sol, table, r, s, j - r.window + 1)
          + (if j == |sol| then TailCharge(sol, table, r, s, |sol| - r.window + 1) else 0)
  {
    if j > 0 {
      var k := j - 1;
      OptionThreadWindows(sol, table, r, s, k);
      var step := OptionStep(sol, table, r, s, k);
      assert OptionThread(sol, table, r, s, j) == OptionThread(sol, table, r, s, k) + step;
      if k < r.window - 1 {
        assert k < |sol| - 1;
        assert step == Excess(WindowSum(sol, table, s, 0, k + 1), r.capacity);
        assert LeadWindows(sol, table, r, s, j)
            == LeadWindows(sol, table, r, s, k) + Excess(WindowSum(sol, table, s, 0, k + 1), r.capacity);
        assert FullWindows(sol, table, r, s, j - r.window + 1) == 0;
        assert FullWindows(sol, table, r, s, k - r.window + 1) == 0;
      } else {
        var tail := if j == |sol| then TailCharge(sol, table, r, s, |sol| - r.window + 1) else 0;
        assert step == Excess(WindowSum(sol, table, s, k - r.window + 1, k + 1), r.capacity) + tail;
        assert FullWindows(sol, table, r, s, j - r.window + 1)
            == FullWindows(sol, table, r, s, k - r.window + 1)
             + Excess(WindowSum(sol, table, s, k - r.window + 1, k + 1), r.capacity);
      }
    }
  }

  lemma {:induction false} DirectByOption(sol: seq<int>, table: seq<seq<bool>>, resources: seq<Resource>, m: int)
    requires 0 <= m <= |resources|
    requires ValidResources(resources, |sol|)
    ensures OptionsThread(sol, table, resources, |sol|, m) == DirectTotal(sol, table, resources, m)
  {
    if m > 0 {
      DirectByOption(sol, table, resources, m - 1);
      OptionThreadWindows(sol, table, resources[m - 1], m - 1, |sol|);
    }
  }

  /** Threading the evaluator over `k = 0 .. n-1` from 0 equals the direct
      sum, over all options, of the excesses of the leading prefixes, the
      full windows and the trailing suffixes. */
  lemma TotalIsDirect(sol: seq<int>, table: seq<seq<bool>>, resources: seq<Resource>)
    requires ValidResources(resources, |sol|)
    ensures Total(sol, table, resources) == DirectTotal(sol, table, resources, |resources|)
  {
    ThreadedByOption(sol, table, resources, |sol|);
    DirectByOption(sol, table, resources, |resources|);
  }

  /** The two-option instance: option 0 admits one car in any two
      consecutive positions, option 1 two cars in any three; model 0 needs
      option 0 only and model 1 option 1 only. */
  function ExampleTable(): seq<seq<bool>> {
    [[true, false], [false, true]]
  }

  function ExampleResources(): seq<Resource> {
    [Resource(1, 2), Resource(2, 3)]
  }

  /** The penalty of a line of the two-option instance, option by option. */
  lemma ExampleByOption(sol: seq<int>)
    requires |sol| >= 3
    ensures Total(sol, ExampleTable(), ExampleResources())
         == OptionDirect(sol, ExampleTable(), Resource(1, 2), 0) + OptionDirect(sol, ExampleTable(), Resource(2, 3), 1)
  {
    var res := ExampleResources();
    TotalIsDirect(sol, ExampleTable(), res);
    assert DirectTotal(sol, ExampleTable(), res, 1) == OptionDirect(sol, ExampleTable(), res[0], 0);
  }

  /** Alternating the two models, `0 1 0 1`, violates no window. */
  lemma AlternatingExample()
    ensures Total([0, 1, 0, 1], ExampleTable(), ExampleResources()) == 0
  {
    var sol, table := [0, 1, 0, 1], ExampleTable();
    ExampleByOption(sol);
    AlternatingFirst(sol, table);
    AlternatingSecond(sol, table);
  }

  lemma AlternatingFirst(sol: seq<int>, table: seq<seq<bool>>)
    requires sol == [0, 1, 0, 1] && table == ExampleTable()
    ensures OptionDirect(sol, table, Resource(1, 2), 0) == 0
  {
    var r := Resource(1, 2);
    assert WindowSum(sol, table, 0, 0, 1) == 1;
    assert LeadWindows(sol, table, r, 0, 1) == 0;
    assert WindowSum(sol, table, 0, 0, 2) == 1;
    assert WindowSum(sol, table, 0, 1, 3) == 1;
    assert WindowSum(sol, table, 0, 2, 4) == 1;
    assert FullWindows(sol, table, r, 0, 3) == 0;
  }

  lemma AlternatingSecond(sol: seq<int>, table: seq<seq<bool>>)
    requires sol == [0, 1, 0, 1] && table == ExampleTable()
    ensures OptionDirect(sol, table, Resource(2, 3), 1) == 0
  {
    var r := Resource(2, 3);
    assert WindowSum(sol, table, 1, 0, 1) == 0;
    assert WindowSum(sol, table, 1, 0, 2) == 1;
    assert LeadWindows(sol, table, r, 1, 2) == 0;
    assert WindowSum(sol, table, 1, 0, 3) == 1;
    assert WindowSum(sol, table, 1, 1, 4) == 2;
    assert FullWindows(sol, table, r, 1, 2) == 0;
    assert WindowSum(sol, table, 1, 2, 4) == 1;
    assert TailCharge(sol, table, r, 1, 2) == 0;
  }

  /** Putting the two cars of model 0 side by side, `0 0 1 1`, exceeds the
      first option's capacity in the window at positions 0..1. */
  lemma AdjacentExample()
    ensures Total([0, 0, 1, 1], ExampleTable(), ExampleResources()) == 1
  {
    var sol, table := [0, 0, 1, 1], ExampleTable();
    ExampleByOption(sol);
    AdjacentFirst(sol, table);
    AdjacentSecond(sol, table);
  }

  lemma AdjacentFirst(sol: seq<int>, table: seq<seq<bool>>)
    requires sol == [0, 0, 1, 1] && table == ExampleTable()
    ensures OptionDirect(sol, table, Resource(1, 2), 0) == 1
  {
    var r := Resource(1, 2);
    assert WindowSum(sol, table, 0, 0, 1) == 1;
    assert LeadWindows(sol, table, r, 0, 1) == 0;
    assert WindowSum(sol, table, 0, 0, 2) == 2;
    assert WindowSum(sol, table, 0, 1, 3) == 1;
    assert WindowSum(sol, table, 0, 2, 4) == 0;
    assert FullWindows(sol, table, r, 0, 3) == 1;
  }

  lemma AdjacentSecond(sol: seq<int>, table: seq<seq<bool>>)
    requires sol == [0, 0, 1, 1] && table == ExampleTable()
    ensures OptionDirect(sol, table, Resource(2, 3), 1) == 0
  {
    var r := Resource(2, 3);
    assert WindowSum(sol, table, 1, 0, 1) == 0;
    assert WindowSum(sol, table, 1, 0, 2) == 0;
    assert LeadWindows(sol, table, r, 1, 2) == 0;
    assert WindowSum(sol, table, 1, 0, 3) == 1;
    assert WindowSum(sol, table, 1, 1, 4) == 2;
    assert FullWindows(sol, table, r, 1, 2) == 0;
    assert WindowSum(sol, table, 1, 2, 4) == 2;
    assert TailCharge(sol, table, r, 1, 2) == 0;
  }
}
