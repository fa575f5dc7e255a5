/** The problem instance shared by the three solvers: the per-option
    window constraints and the car models with their supplies. */
module Problem {

  /** An option constraint: at most `capacity` cars requiring the option
      in any `window` consecutive positions. */
  datatype Resource = Resource(capacity: int, window: int)

  /** A car model: its identifier, how many cars of it must be placed, how
      many options it needs (used only to rank models greedily) and which
      options it needs. */
  datatype CarModel = CarModel(model: int, numCars: int, numUpgrades: int, upgrades: seq<bool>)

  /** A line written out by a solver, with its penalty. */
  datatype Emission = Emission(penalty: int, sequence: seq<int>)

  /** Every window fits in a line of `n` cars and admits at least one car. */
  predicate ValidResources(resources: seq<Resource>, n: int) {
    forall s :: 0 <= s < |resources| ==>
      1 <= resources[s].capacity && 1 <= resources[s].window <= n
  }

  /** There is at least one model, each model lists one bit per option,
      and no supply is negative. */
  predicate ValidModels(models: seq<CarModel>, options: int) {
    && |models| > 0
    && (forall i :: 0 <= i < |models| ==> |models[i].upgrades| == options)
    && (forall i :: 0 <= i < |models| ==> models[i].numCars >= 0)
  }

  /** The upgrade table indexed by position in `models`. */
  function Table(models: seq<CarModel>): (t: seq<seq<bool>>)
    ensures |t| == |models|
    ensures forall i :: 0 <= i < |models| ==> t[i] == models[i].upgrades
  {
    seq(|models|, i requires 0 <= i < |models| => models[i].upgrades)
  }

  /** Every row of an upgrade table has one bit per option. */
  predicate ValidTable(table: seq<seq<bool>>, options: int) {
    |table| > 0 && forall i :: 0 <= i < |table| ==> |table[i]| == options
  }

  lemma ValidModelsTable(models: seq<CarModel>, options: int)
    requires ValidModels(models, options)
    ensures ValidTable(Table(models), options)
  {
  }

  /** The total number of cars to place. */
  function Supply(models: seq<CarModel>): int {
    if models == [] then 0 else Supply(models[..|models| - 1]) + models[|models| - 1].numCars
  }

  /** The stored identifier of every model is its own index. */
  predicate IdsAreIndices(models: seq<CarModel>) {
    forall i :: 0 <= i < |models| ==> models[i].model == i
  }

  /** No two models share an identifier. */
  predicate DistinctIds(models: seq<CarModel>) {
    forall i, j :: 0 <= i < j < |models| ==> models[i].model != models[j].model
  }

  /** The stored identifiers are a permutation of 0..K-1. */
  predicate IdsArePermutation(models: seq<CarModel>) {
    && (forall i :: 0 <= i < |models| ==> 0 <= models[i].model < |models|)
    && DistinctIds(models)
  }

  /** The upgrade bits of each identifier, as the original models give them. */
  function ByIdTable(models: seq<CarModel>, m: int): (t: seq<seq<bool>>)
    requires 0 <= m <= |models|
    requires forall i :: 0 <= i < |models| ==> 0 <= models[i].model < |models|
    ensures |t| == |models|
    decreases m
  {
    if m == 0 then seq(|models|, _ => [])
    else ByIdTable(models, m - 1)[models[m - 1].model := models[m - 1].upgrades]
  }

  lemma {:induction false} ByIdTableAt(models: seq<CarModel>, m: int, r: int)
    requires IdsArePermutation(models) && 0 <= r < m <= |models|
    ensures ByIdTable(models, m)[models[r].model] == models[r].upgrades
  {
    if r < m - 1 {
      ByIdTableAt(models, m - 1, r);
    }
  }

  /** Every entry of `s` is in `0 .. k-1`; with `k` the number of models,
      every entry is a model index. */
  predicate Entries(s: seq<int>, k: int) {
    forall p :: 0 <= p < |s| ==> 0 <= s[p] < k
  }

  /** Number of occurrences of `x` in `s`. */
  function Occurrences(s: seq<int>, x: int): nat {
    multiset(s)[x]
  }

  /** Number of positions of `placed` holding ranks `0 .. m-1`. */
  function SumOcc(placed: seq<int>, m: int): nat
    decreases m
  {
    if m <= 0 then 0 else SumOcc(placed, m - 1) + Occurrences(placed, m - 1)
  }

  lemma {:induction false} SumOccAppend(placed: seq<int>, x: int, m: int)
    requires 0 <= m
    ensures SumOcc(placed + [x], m) == SumOcc(placed, m) + (if 0 <= x < m then 1 else 0)
  {
    if m > 0 {
      SumOccAppend(placed, x, m - 1);
      assert multiset(placed + [x]) == multiset(placed) + multiset{x};
    }
  }

  /** When every entry is a rank below `m`, the occurrence counts of the
      ranks add up to the length. */
  lemma {:induction false} SumOccLength(placed: seq<int>, m: int)
    requires 0 <= m
    requires Entries(placed, m)
    ensures SumOcc(placed, m) == |placed|
  {
    if placed == [] {
      SumOccEmpty(m);
    } else {
      var init := placed[..|placed| - 1];
      assert placed == init + [placed[|placed| - 1]];
      SumOccLength(init, m);
      SumOccAppend(init, placed[|placed| - 1], m);
    }
  }

  lemma {:induction false} SumOccEmpty(m: int)
    ensures SumOcc([], m) == 0
    decreases m
  {
    if m > 0 {
      SumOccEmpty(m - 1);
    }
  }

  /** Placing at most each model's supply places at most the total supply,
      and exactly the total supply only when every model is used up. */
  lemma {:induction false} SumOccSupply(models: seq<CarModel>, placed: seq<int>, m: int)
    requires 0 <= m <= |models|
    requires forall r :: 0 <= r < m ==> Occurrences(placed, r) <= models[r].numCars
    ensures SumOcc(placed, m) <= Supply(models[..m])
    ensures SumOcc(placed, m) == Supply(models[..m])
        <==> forall r :: 0 <= r < m ==> Occurrences(placed, r) == models[r].numCars
  {
    if m > 0 {
      SumOccSupply(models, placed, m - 1);
      assert models[..m][..m - 1] == models[..m - 1];
    }
  }
}
