/** The greedy constructive solver: rank the models by priority, fill the
    line round-robin over the ranks, and evaluate the result once. */
module Greedy {
  import opened Problem
  import opened Penalty
  import opened RoundRobin

  // ---------------------------------------------------------------------
  // Priority order
  // ---------------------------------------------------------------------

  /** `m1` goes before `m2`: it needs more options or, needing as many, it
      has more cars. */
  predicate Comparator(m1: CarModel, m2: CarModel) {
    if m1.numUpgrades != m2.numUpgrades then m1.numUpgrades > m2.numUpgrades
    else m1.numCars > m2.numCars
  }

  /** The comparator is a strict weak order: irreflexive, transitive, and
      incomparability (equal keys) is transitive as well. */
  lemma ComparatorStrictWeakOrder(a: CarModel, b: CarModel, c: CarModel)
    ensures !Comparator(a, a)
    ensures Comparator(a, b) ==> !Comparator(b, a)
    ensures Comparator(a, b) && Comparator(b, c) ==> Comparator(a, c)
    ensures (!Comparator(a, b) && !Comparator(b, a) && !Comparator(b, c) && !Comparator(c, b))
              ==> !Comparator(a, c) && !Comparator(c, a)
  {
  }

  /** No adjacent pair is out of comparator order. */
  predicate Sorted(s: seq<CarModel>) {
    forall i :: 0 <= i < |s| - 1 ==> !Comparator(s[i + 1], s[i])
  }

  /** For a strict weak order, adjacent order is global order: no later
      model goes strictly before an earlier one. */
  lemma {:induction false} SortedGlobally(s: seq<CarModel>, i: int, j: int)
    requires Sorted(s) && 0 <= i < j < |s|
    ensures !Comparator(s[j], s[i])
    decreases j - i
  {
    if i + 1 < j {
      SortedGlobally(s, i + 1, j);
      assert !Comparator(s[i + 1], s[i]);
    }
  }

  /** Inserts `x` before the first model it goes strictly before. */
  function Insert(x: CarModel, s: seq<CarModel>): seq<CarModel> {
    if s == [] then [x]
    else if Comparator(x, s[0]) then [x] + s
    else [s[0]] + Insert(x, s[1..])
  }

  /** Insertion sort by the comparator. */
  function Sort(s: seq<CarModel>): seq<CarModel> {
    if s == [] then [] else Insert(s[0], Sort(s[1..]))
  }

  lemma SortedTail(s: seq<CarModel>)
    requires Sorted(s) && s != []
    ensures Sorted(s[1..])
  {
    var t := s[1..];
    forall i | 0 <= i < |t| - 1
      ensures !Comparator(t[i + 1], t[i])
    {
      assert t[i] == s[i + 1] && t[i + 1] == s[i + 2];
    }
  }

  lemma SortedCons(h: CarModel, u: seq<CarModel>)
    requires Sorted(u)
    requires u != [] ==> !Comparator(u[0], h)
    ensures Sorted([h] + u)
  {
    var r := [h] + u;
    forall i | 0 <= i < |r| - 1
      ensures !Comparator(r[i + 1], r[i])
    {
      if i > 0 {
        assert r[i] == u[i - 1] && r[i + 1] == u[i];
      }
    }
  }

  lemma {:induction false} InsertSorted(x: CarModel, s: seq<CarModel>)
    requires Sorted(s)
    ensures Sorted(Insert(x, s))
    ensures multiset(Insert(x, s)) == multiset(s) + multiset{x}
    ensures Insert(x, s)[0] == x || (s != [] && Insert(x, s)[0] == s[0])
  {
    if s == [] {
    } else if Comparator(x, s[0]) {
      SortedCons(x, s);
    } else {
      var t := s[1..];
      SortedTail(s);
      InsertSorted(x, t);
      if t != [] {
        assert t[0] == s[1];
      }
      SortedCons(s[0], Insert(x, t));
      assert s == [s[0]] + t;
    }
  }

  /** After sorting, the models are in comparator order and are a
      permutation of the input. */
  lemma {:induction false} SortCorrect(s: seq<CarModel>)
    ensures Sorted(Sort(s))
    ensures multiset(Sort(s)) == multiset(s)
  {
    if s != [] {
      SortCorrect(s[1..]);
      InsertSorted(s[0], Sort(s[1..]));
      assert s == [s[0]] + s[1..];
    }
  }

  /** After sorting, models needing more options come first, and among
      models needing as many, those with more cars come first. */
  lemma SortedKeys(s: seq<CarModel>, i: int, j: int)
    requires 0 <= i < j < |Sort(s)|
    ensures Sort(s)[i].numUpgrades >= Sort(s)[j].numUpgrades
    ensures Sort(s)[i].numUpgrades == Sort(s)[j].numUpgrades ==> Sort(s)[i].numCars >= Sort(s)[j].numCars
  {
    SortCorrect(s);
    SortedGlobally(Sort(s), i, j);
  }

  // ---------------------------------------------------------------------
  // Facts about permutations of the models
  // ---------------------------------------------------------------------

  lemma {:induction false} SupplyAppend(a: seq<CarModel>, b: seq<CarModel>)
    ensures Supply(a + b) == Supply(a) + Supply(b)
    decreases |b|
  {
    if b != [] {
      var b' := b[..|b| - 1];
      assert (a + b)[..|a + b| - 1] == a + b';
      SupplyAppend(a, b');
    } else {
      assert a + b == a;
    }
  }

  lemma SupplySingle(x: CarModel)
    ensures Supply([x]) == x.numCars
  {
    assert [x][..0] == [];
  }

  /** Taking out one model takes out its supply. */
  lemma SupplyRemove(l: seq<CarModel>, x: CarModel, h: seq<CarModel>)
    ensures Supply(l + [x] + h) == Supply(l + h) + x.numCars
  {
    assert l + [x] + h == l + ([x] + h);
    SupplyAppend(l, [x] + h);
    SupplyAppend([x], h);
    SupplyAppend(l, h);
    SupplySingle(x);
  }

  /** The total supply does not depend on the order of the models. */
  lemma {:induction false} SupplyPermutation(a: seq<CarModel>, b: seq<CarModel>)
    requires multiset(a) == multiset(b)
    ensures Supply(a) == Supply(b)
    decreases |a|
  {
    if a == [] {
      assert |b| == |multiset(b)| == 0;
    } else {
      var x := a[|a| - 1];
      var a' := a[..|a| - 1];
      assert a == a' + [x];
      assert multiset(a') == multiset(a) - multiset{x};
      assert x in multiset(b);
      var j :| 0 <= j < |b| && b[j] == x;
      var l, h := b[..j], b[j + 1..];
      assert b == l + [x] + h;
      assert multiset(l + h) == multiset(b) - multiset{x};
      SupplyRemove(l, x, h);
      SupplyPermutation(a', l + h);
    }
  }

  /** A permutation of models with distinct identifiers in `0..K-1` has the
      same property. */
  lemma PermutationIds(a: seq<CarModel>, b: seq<CarModel>)
    requires multiset(a) == multiset(b)
    requires IdsArePermutation(a)
    ensures IdsArePermutation(b)
  {
    assert |a| == |multiset(a)| == |multiset(b)| == |b|;
    forall i | 0 <= i < |b|
      ensures 0 <= b[i].model < |b|
    {
      assert b[i] in multiset(a);
    }
    forall i, j | 0 <= i < j < |b|
      ensures b[i].model != b[j].model
    {
      assert b[i] in multiset(a) && b[j] in multiset(a);
      var i' :| 0 <= i' < |a| && a[i'] == b[i];
      var j' :| 0 <= j' < |a| && a[j'] == b[j];
      if b[i] == b[j] {
        TwoPositions(b, i, j);
        OnePosition(a, i');
      }
    }
  }

  lemma TwoPositions(s: seq<CarModel>, i: int, j: int)
    requires 0 <= i < j < |s| && s[i] == s[j]
    ensures multiset(s)[s[i]] >= 2
  {
    assert s == s[..i] + [s[i]] + s[i + 1..j] + [s[j]] + s[j + 1..];
    assert multiset(s) == multiset(s[..i]) + multiset{s[i]} + multiset(s[i + 1..j]) + multiset{s[j]} + multiset(s[j + 1..]);
  }

  /** In a sequence with distinct identifiers a model occurs once. */
  lemma OnePosition(s: seq<CarModel>, i: int)
    requires DistinctIds(s) && 0 <= i < |s|
    ensures multiset(s)[s[i]] == 1
  {
    var rest := s[..i] + s[i + 1..];
    assert s == s[..i] + [s[i]] + s[i + 1..];
    assert multiset(s) == multiset(rest) + multiset{s[i]};
    forall j | 0 <= j < |rest|
      ensures rest[j] != s[i]
    {
      if j < i {
        assert rest[j] == s[j];
      } else {
        assert rest[j] == s[j + 1];
      }
    }
    assert s[i] !in rest;
  }

  /** With `K` distinct identifiers in `0..K-1`, every identifier is used. */
  lemma IdsOnto(models: seq<CarModel>, id: int) returns (r: int)
    requires IdsArePermutation(models) && 0 <= id < |models|
    ensures 0 <= r < |models| && models[r].model == id
  {
    var ids := set i | 0 <= i < |models| :: models[i].model;
    var all := Naturals(|models|);
    ImageSize(models, |models|);
    NaturalsSize(|models|);
    SubsetOfSameSize(ids, all);
    assert id in ids;
    r :| 0 <= r < |models| && models[r].model == id;
  }

  lemma SubsetOfSameSize(a: set<int>, b: set<int>)
    requires a <= b && |a| == |b|
    ensures a == b
  {
    assert b == a + (b - a);
  }

  lemma {:induction false} ImageSize(models: seq<CarModel>, m: int)
    requires DistinctIds(models) && 0 <= m <= |models|
    ensures |set i | 0 <= i < m :: models[i].model| == m
  {
    if m > 0 {
      ImageSize(models, m - 1);
      var prev := set i | 0 <= i < m - 1 :: models[i].model;
      assert (set i | 0 <= i < m :: models[i].model) == prev + {models[m - 1].model};
      assert models[m - 1].model !in prev;
    }
  }

  /** The identifiers `0 .. m-1`. */
  function Naturals(m: int): (r: set<int>)
    ensures forall x :: x in r <==> 0 <= x < m
    decreases m
  {
    if m <= 0 then {} else Naturals(m - 1) + {m - 1}
  }

  lemma {:induction false} NaturalsSize(m: int)
    requires 0 <= m
    ensures |Naturals(m)| == m
  {
    if m > 0 {
      NaturalsSize(m - 1);
    }
  }

  /** The upgrade table the evaluator reads through the legend. */
  function LegendTable(sorted: seq<CarModel>, legend: seq<int>): (t: seq<seq<bool>>)
    requires forall id :: 0 <= id < |legend| ==> 0 <= legend[id] < |sorted|
    ensures |t| == |legend|
    ensures forall id :: 0 <= id < |legend| ==> t[id] == sorted[legend[id]].upgrades
  {
    seq(|legend|, id requires 0 <= id < |legend| => sorted[legend[id]].upgrades)
  }

  /** Read through the legend of the sorted models, each identifier gives
      the upgrade bits of the original model with that identifier: the
      penalty does not depend on the sort. */
  lemma LegendTableIsById(models: seq<CarModel>, sorted: seq<CarModel>, legend: seq<int>)
    requires IdsArePermutation(models) && multiset(sorted) == multiset(models)
    requires |legend| == |sorted|
    requires forall r :: 0 <= r < |sorted| ==> 0 <= sorted[r].model < |legend| && legend[sorted[r].model] == r
    requires forall id :: 0 <= id < |legend| ==> 0 <= legend[id] < |sorted|
    ensures |sorted| == |models|
    ensures LegendTable(sorted, legend) == ByIdTable(models, |models|)
  {
    assert |sorted| == |multiset(sorted)| == |multiset(models)| == |models|;
    PermutationIds(models, sorted);
    var t := LegendTable(sorted, legend);
    var u := ByIdTable(models, |models|);
    forall id | 0 <= id < |models|
      ensures t[id] == u[id]
    {
      var r := IdsOnto(sorted, id);
      assert sorted[r] in multiset(models);
      var q :| 0 <= q < |models| && models[q] == sorted[r];
      ByIdTableAt(models, |models|, q);
    }
  }

  // ---------------------------------------------------------------------
  // The solver
  // ---------------------------------------------------------------------

  /** A permutation of valid models with identifiers `0 .. K-1` is valid,
      has such identifiers, and has the same total supply. */
  lemma PermutedModels(models: seq<CarModel>, sorted: seq<CarModel>, options: int)
    requires ValidModels(models, options) && IdsArePermutation(models)
    requires multiset(sorted) == multiset(models)
    ensures |sorted| == |models|
    ensures ValidModels(sorted, options) && IdsArePermutation(sorted)
    ensures Supply(sorted) == Supply(models)
  {
    assert |sorted| == |multiset(sorted)| == |multiset(models)| == |models|;
    PermutationIds(models, sorted);
    SupplyPermutation(models, sorted);
    forall r | 0 <= r < |sorted|
      ensures sorted[r].numCars >= 0 && |sorted[r].upgrades| == options
    {
      assert sorted[r] in multiset(models);
    }
  }

  /** Exact counts for the models of a permutation are exact counts for the
      original models. */
  lemma PermutedCounts(models: seq<CarModel>, sorted: seq<CarModel>, line: seq<int>)
    requires multiset(sorted) == multiset(models)
    requires forall r :: 0 <= r < |sorted| ==> Occurrences(line, sorted[r].model) == sorted[r].numCars
    ensures forall r :: 0 <= r < |models| ==> Occurrences(line, models[r].model) == models[r].numCars
  {
    forall r | 0 <= r < |models|
      ensures Occurrences(line, models[r].model) == models[r].numCars
    {
      assert models[r] in multiset(sorted);
    }
  }

  /** The legend: for each identifier, the rank of its model after sorting. */
  method BuildLegend(sorted: seq<CarModel>) returns (legend: seq<int>)
    requires IdsArePermutation(sorted)
    ensures |legend| == |sorted|
    ensures forall r :: 0 <= r < |sorted| ==> legend[sorted[r].model] == r
    ensures forall id :: 0 <= id < |legend| ==> 0 <= legend[id] < |sorted|
  {
    var classes := |sorted|;
    var a := new int[classes](_ => 0);
    for i := 0 to classes
      invariant forall r :: 0 <= r < i ==> a[sorted[r].model] == r
      invariant forall id :: 0 <= id < classes ==> 0 <= a[id] < classes
    {
      a[sorted[i].model] := i;
    }
    legend := a[..];
  }

  /** The greedy solver. It sorts the models, builds the legend, fills the
      line round-robin over the sorted ranks and threads the evaluator over
      the whole line; it returns the penalty it writes out together with the
      sorted models and the legend. */
  method Greedy(solution: array<int>, used: array<int>, models: seq<CarModel>, resources: seq<Resource>)
    returns (penalty: int, sorted: seq<CarModel>, legend: seq<int>, ghost ranks: seq<int>)
    requires solution != used
    requires ValidModels(models, |resources|)
    requires ValidResources(resources, solution.Length)
    requires IdsArePermutation(models)
    requires used.Length == |models|
    requires forall r :: 0 <= r < used.Length ==> used[r] == 0
    requires Supply(models) == solution.Length
    modifies solution, used
    ensures Sorted(sorted) && multiset(sorted) == multiset(models)
    ensures forall i, j :: 0 <= i < j < |sorted| ==>
              && sorted[i].numUpgrades >= sorted[j].numUpgrades
              && (sorted[i].numUpgrades == sorted[j].numUpgrades ==> sorted[i].numCars >= sorted[j].numCars)
    ensures |sorted| == |models| && IdsArePermutation(sorted)
    ensures |legend| == |sorted| && forall r :: 0 <= r < |sorted| ==> legend[sorted[r].model] == r
    ensures |ranks| == solution.Length
    ensures Entries(ranks, |sorted|)
    ensures forall i :: 0 <= i < |ranks| ==> FirstInStock(sorted, ranks[..i], i, ranks[i])
    ensures forall i :: 0 <= i < |ranks| ==> solution[i] == sorted[ranks[i]].model
    ensures forall r :: 0 <= r < |sorted| ==> used[r] == sorted[r].numCars
    ensures forall r :: 0 <= r < |models| ==> Occurrences(solution[..], models[r].model) == models[r].numCars
    ensures penalty == Total(solution[..], ByIdTable(models, |models|), resources)
  {
    sorted := Sort(models);
    SortCorrect(models);
    forall i, j | 0 <= i < j < |sorted|
      ensures sorted[i].numUpgrades >= sorted[j].numUpgrades
      ensures sorted[i].numUpgrades == sorted[j].numUpgrades ==> sorted[i].numCars >= sorted[j].numCars
    {
      SortedKeys(models, i, j);
    }
    PermutedModels(models, sorted, |resources|);
    legend := BuildLegend(sorted);
    ranks := Fill(solution, used, sorted);
    PermutedCounts(models, sorted, solution[..]);
    var table := LegendTable(sorted, legend);
    assert ValidTable(table, |resources|);
    LegendTableIsById(models, sorted, legend);
    penalty := ThreadedPenalty(solution[..], table, resources);
  }
}
