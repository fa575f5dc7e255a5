/** The round-robin construction shared by the greedy and the annealing
    solvers: position `i` takes the model at rank `i mod K` if it is still
    in stock, and otherwise the first rank after it, cyclically, that is. */
module RoundRobin {
  import opened Problem

  /** Rank `r` still has cars left once the ranks in `placed` are on the line. */
  predicate InStock(models: seq<CarModel>, placed: seq<int>, r: int)
    requires 0 <= r < |models|
  {
    Occurrences(placed, r) < models[r].numCars
  }

  /** How many steps the cyclic scan takes from rank `i mod k` to rank `r`. */
  function Offset(i: int, r: int, k: int): (d: int)
    requires k > 0
    ensures 0 <= d < k
  {
    (r - i) % k
  }

  /** The rank the cyclic scan from position `i` looks at after `d` steps. */
  function ScanRank(i: int, d: int, k: int): (r: int)
    requires k > 0
    ensures 0 <= r < k
  {
    (i + d) % k
  }

  /** `r` is the first rank, scanning cyclically from `i mod K`, that still
      has cars once the ranks in `placed` are on the line. */
  predicate FirstInStock(models: seq<CarModel>, placed: seq<int>, i: int, r: int) {
    && 0 <= r < |models|
    && InStock(models, placed, r)
    && forall d :: 0 <= d < Offset(i, r, |models|) ==> !InStock(models, placed, ScanRank(i, d, |models|))
  }

  // ---------------------------------------------------------------------
  // Arithmetic of the cyclic scan
  // ---------------------------------------------------------------------

  lemma ModAddMultiple(a: int, c: int, k: int)
    requires k > 0 && 0 <= a < k
    ensures (a + k * c) % k == a
  {
    var x := a + k * c;
    var d := c - x / k;
    assert k * d == x % k - a;
  }

  /** Scanning `j - i < k` steps from position `i` reaches rank `j mod k`
      at offset `j - i`. */
  lemma OffsetOfScan(i: int, j: int, k: int)
    requires k > 0 && 0 <= j - i < k
    ensures Offset(i, j % k, k) == j - i
  {
    assert j % k - i == (j - i) + k * (-(j / k));
    ModAddMultiple(j - i, -(j / k), k);
  }

  /** The scan from position `i` reaches rank `r` after `Offset(i, r, k)` steps. */
  lemma ScanReaches(i: int, r: int, k: int)
    requires k > 0 && 0 <= r < k
    ensures (i + Offset(i, r, k)) % k == r
  {
    var o := (r - i) % k;
    var q := (r - i) / k;
    assert i + o == r + k * (-q);
    ModAddMultiple(r, -q, k);
  }

  /** While fewer cars than the total supply are placed, some rank is in stock. */
  lemma SomeInStock(models: seq<CarModel>, placed: seq<int>) returns (r: int)
    requires forall r :: 0 <= r < |models| ==> Occurrences(placed, r) <= models[r].numCars
    requires Entries(placed, |models|)
    requires |placed| < Supply(models)
    ensures 0 <= r < |models| && InStock(models, placed, r)
  {
    SumOccLength(placed, |models|);
    SumOccSupply(models, placed, |models|);
    assert models[..|models|] == models;
    r :| 0 <= r < |models| && Occurrences(placed, r) != models[r].numCars;
  }

  /** With distinct identifiers, an identifier occurs in the filled line as
      often as its model's rank occurs among the chosen ranks. */
  lemma {:induction false} IdOccurrences(models: seq<CarModel>, ranks: seq<int>, ids: seq<int>, r: int)
    requires DistinctIds(models) && 0 <= r < |models|
    requires |ids| == |ranks|
    requires forall i :: 0 <= i < |ranks| ==> 0 <= ranks[i] < |models| && ids[i] == models[ranks[i]].model
    ensures Occurrences(ids, models[r].model) == Occurrences(ranks, r)
  {
    if ranks != [] {
      var m := |ranks| - 1;
      assert ranks == ranks[..m] + [ranks[m]];
      assert ids == ids[..m] + [ids[m]];
      IdOccurrences(models, ranks[..m], ids[..m], r);
      assert multiset(ranks) == multiset(ranks[..m]) + multiset{ranks[m]};
      assert multiset(ids) == multiset(ids[..m]) + multiset{ids[m]};
      assert ranks[m] == r <==> ids[m] == models[r].model;
    }
  }

  /** Every rank in `ranks` is the one the round-robin rule gives its
      position, given the ranks before it. */
  predicate RoundRobinRanks(models: seq<CarModel>, ranks: seq<int>) {
    forall p :: 0 <= p < |ranks| ==> 0 <= ranks[p] < |models| && FirstInStock(models, ranks[..p], p, ranks[p])
  }

  lemma RoundRobinAppend(models: seq<CarModel>, ranks: seq<int>, chosen: int)
    requires RoundRobinRanks(models, ranks)
    requires FirstInStock(models, ranks, |ranks|, chosen)
    ensures RoundRobinRanks(models, ranks + [chosen])
  {
    var next := ranks + [chosen];
    forall p | 0 <= p < |next|
      ensures 0 <= next[p] < |models| && FirstInStock(models, next[..p], p, next[p])
    {
      if p < |ranks| {
        assert next[..p] == ranks[..p];
      } else {
        assert next[..p] == ranks;
      }
    }
  }

  // ---------------------------------------------------------------------
  // The construction
  // ---------------------------------------------------------------------

  /** The rank that position `i` receives: rank `i mod K` if it is still in
      stock, otherwise the first in-stock rank after it, cyclically. */
  method ChooseRank(used: array<int>, models: seq<CarModel>, ghost placed: seq<int>, i: int)
    returns (chosen: int)
    requires used.Length == |models| > 0
    requires forall r :: 0 <= r < |models| ==> used[r] == Occurrences(placed, r) <= models[r].numCars
    requires Entries(placed, |models|)
    requires |placed| < Supply(models)
    ensures FirstInStock(models, placed, i, chosen)
  {
    var classes := |models|;
    if used[i % classes] < models[i % classes].numCars {
      chosen := i % classes;
      OffsetOfScan(i, i, classes);
    } else {
      ghost var target := SomeInStock(models, placed);
      ScanReaches(i, target, classes);
      var j := i;
      while used[j % classes] == models[j % classes].numCars
        invariant i <= j <= i + Offset(i, target, classes)
        invariant forall d :: 0 <= d < j - i ==> !InStock(models, placed, ScanRank(i, d, classes))
        decreases i + Offset(i, target, classes) - j
      {
        assert ScanRank(i, j - i, classes) == j % classes;
        j := j + 1;
      }
      chosen := j % classes;
      OffsetOfScan(i, j, classes);
    }
  }

  /** Fills `solution` round-robin over the ranks of `models`. `ranks` is the
      rank chosen for each position; each position holds that model's id. */
  method Fill(solution: array<int>, used: array<int>, models: seq<CarModel>)
    returns (ghost ranks: seq<int>)
    requires solution != used
    requires |models| > 0
    requires forall r :: 0 <= r < |models| ==> models[r].numCars >= 0
    requires used.Length == |models|
    requires forall r :: 0 <= r < used.Length ==> used[r] == 0
    requires Supply(models) == solution.Length
    modifies solution, used
    ensures |ranks| == solution.Length
    ensures Entries(ranks, |models|)
    ensures forall i :: 0 <= i < |ranks| ==> FirstInStock(models, ranks[..i], i, ranks[i])
    ensures forall i :: 0 <= i < |ranks| ==> solution[i] == models[ranks[i]].model
    ensures forall r :: 0 <= r < |models| ==> used[r] == Occurrences(ranks, r) == models[r].numCars
    ensures DistinctIds(models) ==>
      forall r :: 0 <= r < |models| ==> Occurrences(solution[..], models[r].model) == models[r].numCars
  {
    var n := solution.Length;
    var classes := |models|;
    ranks := [];
    for i := 0 to n
      invariant |ranks| == i
      invariant RoundRobinRanks(models, ranks)
      invariant forall p :: 0 <= p < i ==> solution[p] == models[ranks[p]].model
      invariant forall r :: 0 <= r < classes ==> used[r] == Occurrences(ranks, r) <= models[r].numCars
    {
      var chosen := ChooseRank(used, models, ranks, i);
      solution[i] := models[chosen].model;
      used[chosen] := used[chosen] + 1;
      assert multiset(ranks + [chosen]) == multiset(ranks) + multiset{chosen};
      RoundRobinAppend(models, ranks, chosen);
      ranks := ranks + [chosen];
    }
    SumOccLength(ranks, classes);
    SumOccSupply(models, ranks, classes);
    assert models[..classes] == models;
    if DistinctIds(models) {
      forall r | 0 <= r < classes
        ensures Occurrences(solution[..], models[r].model) == models[r].numCars
      {
        IdOccurrences(models, ranks, solution[..], r);
      }
    }
  }
}
