/** The exhaustive branch-and-bound search: it extends one in-place buffer
    position by position, backtracks by hand, and prunes every branch whose
    partial penalty does not beat the best complete sequence found so far. */
module Exhaustive {
  import opened Problem
  import opened Penalty

  /** The best penalty so far; `Infinite` is the sentinel larger than any
      reachable penalty. */
  datatype Best = Infinite | Finite(value: int)

  /** `p` strictly improves on `best`. */
  predicate Below(p: int, best: Best) {
    best.Infinite? || p < best.value
  }

  /** `best` is a penalty no larger than `p`. */
  predicate AtMost(best: Best, p: int) {
    best.Finite? && best.value <= p
  }

  /** `a` is no worse than `b`. */
  predicate NoWorse(a: Best, b: Best) {
    b.Infinite? || (a.Finite? && a.value <= b.value)
  }

  /** A complete line of `n` cars in which model `i` occurs at most
      `numCars` times. */
  predicate Arrangement(models: seq<CarModel>, n: int, a: seq<int>) {
    && |a| == n
    && Entries(a, |models|)
    && (forall i :: 0 <= i < |models| ==> Occurrences(a, i) <= models[i].numCars)
  }

  /** `a` starts with `prefix`. */
  predicate Extends(a: seq<int>, prefix: seq<int>) {
    |prefix| <= |a| && a[..|prefix|] == prefix
  }

  /** Every emission improves strictly on the best known before it. */
  predicate Improving(start: Best, es: seq<Emission>) {
    forall i :: 0 <= i < |es| ==> Below(es[i].penalty, LastBest(start, es[..i]))
  }

  /** The best known after the emissions `es`, starting from `start`. */
  function LastBest(start: Best, es: seq<Emission>): Best {
    if es == [] then start else Finite(es[|es| - 1].penalty)
  }

  /** `now` keeps the emissions `entry` and adds only sequences that start
      with `prefix`. */
  predicate Continues(entry: seq<Emission>, now: seq<Emission>, prefix: seq<int>) {
    && |entry| <= |now|
    && (forall j :: 0 <= j < |entry| ==> now[j] == entry[j])
    && (forall j :: |entry| <= j < |now| ==> Extends(now[j].sequence, prefix))
  }

  /** Emitting a sequence that starts with `prefix` continues the run. */
  lemma ContinuesAppend(entry: seq<Emission>, e: Emission, prefix: seq<int>)
    requires Extends(e.sequence, prefix)
    ensures Continues(entry, entry + [e], prefix)
  {
  }

  /** A sequence extends one of its own length only by being it. */
  lemma OnlyExtension(a: seq<int>, line: seq<int>)
    requires |a| == |line| && Extends(a, line)
    ensures a == line
  {
    assert a == a[..|line|];
  }

  /** A complete line is the only arrangement that extends it, so its
      penalty bounds every such arrangement. */
  lemma CompleteBound(models: seq<CarModel>, table: seq<seq<bool>>, resources: seq<Resource>, line: seq<int>, p: int)
    requires p == Threaded(line, table, resources, |line|)
    ensures forall a :: Arrangement(models, |line|, a) && Extends(a, line) ==>
              AtMost(Finite(p), Total(a, table, resources))
  {
    forall a | Arrangement(models, |line|, a) && Extends(a, line)
      ensures AtMost(Finite(p), Total(a, table, resources))
    {
      OnlyExtension(a, line);
    }
  }

  lemma ContinuesTrans(a: seq<Emission>, b: seq<Emission>, c: seq<Emission>, prefix: seq<int>)
    requires Continues(a, b, prefix)
    requires Continues(b, c, prefix)
    ensures Continues(a, c, prefix)
  {
  }

  /** What continues a longer prefix continues a shorter one. */
  lemma ContinuesShorter(b: seq<Emission>, c: seq<Emission>, prefix: seq<int>, i: int)
    requires Continues(b, c, prefix + [i])
    ensures Continues(b, c, prefix)
  {
    forall j | |b| <= j < |c|
      ensures Extends(c[j].sequence, prefix)
    {
      ExtendsShorter(c[j].sequence, prefix, i);
    }
  }

  lemma ExtendsShorter(s: seq<int>, prefix: seq<int>, i: int)
    requires Extends(s, prefix + [i])
    ensures Extends(s, prefix)
  {
    assert s[..|prefix|] == s[..|prefix| + 1][..|prefix|];
  }

  /** Emitting a penalty that beats the best so far keeps the run improving. */
  lemma ImprovingAppend(start: Best, es: seq<Emission>, e: Emission)
    requires Improving(start, es)
    requires Below(e.penalty, LastBest(start, es))
    ensures Improving(start, es + [e])
  {
    var es' := es + [e];
    forall i | 0 <= i < |es'|
      ensures Below(es'[i].penalty, LastBest(start, es'[..i]))
    {
      if i < |es| {
        assert es'[..i] == es[..i];
      } else {
        assert es'[..i] == es;
      }
    }
  }

  /** The penalties of an improving run of emissions strictly decrease. */
  lemma {:induction false} ImprovingDecreases(start: Best, es: seq<Emission>, i: int, j: int)
    requires Improving(start, es)
    requires 0 <= i < j < |es|
    ensures es[j].penalty < es[i].penalty
    decreases j - i
  {
    assert Below(es[j].penalty, LastBest(start, es[..j]));
    if i < j - 1 {
      ImprovingDecreases(start, es, i, j - 1);
    }
  }

  /** When the supplies add up to the length of the line, an arrangement
      uses every model exactly `numCars` times. */
  lemma ArrangementExact(models: seq<CarModel>, a: seq<int>)
    requires Arrangement(models, |a|, a)
    requires Supply(models) == |a|
    ensures forall i :: 0 <= i < |models| ==> Occurrences(a, i) == models[i].numCars
  {
    SumOccLength(a, |models|);
    SumOccSupply(models, a, |models|);
    assert models[..|models|] == models;
  }

  /** Choosing model `i` at position `k` of `a` counts towards its `i`s. */
  lemma PrefixOccurrences(a: seq<int>, k: int, i: int)
    requires 0 <= k < |a| && a[k] == i
    ensures Occurrences(a[..k], i) + 1 <= Occurrences(a, i)
  {
    assert a == a[..k] + [a[k]] + a[k + 1..];
    assert multiset(a) == multiset(a[..k]) + multiset{a[k]} + multiset(a[k + 1..]);
  }

  /** Writing `i` at position `k` extends the prefix by `i` and counts one
      more `i` in it. */
  lemma PlacedPrefix(before: seq<int>, after: seq<int>, k: int, i: int)
    requires 0 <= k < |before| && after == before[k := i]
    ensures after[..k] == before[..k]
    ensures after[..k + 1] == before[..k] + [i]
    ensures multiset(after[..k + 1]) == multiset(before[..k]) + multiset{i}
  {
    assert after[..k + 1] == after[..k] + [i];
  }

  /** Every arrangement that continues `prefix` with `i` continues
      `prefix + [i]`. */
  lemma ExtendsPlaced(models: seq<CarModel>, n: int, prefix: seq<int>, k: int, i: int)
    requires |prefix| == k < n
    ensures forall a :: Arrangement(models, n, a) && Extends(a, prefix) && a[k] == i ==> Extends(a, prefix + [i])
  {
    forall a | Arrangement(models, n, a) && Extends(a, prefix) && a[k] == i
      ensures Extends(a, prefix + [i])
    {
      assert a[..k + 1] == a[..k] + [a[k]];
    }
  }

  /** Pruning is sound: when the partial penalty after placing `i` at `k`
      does not beat the best so far, no arrangement continuing that way
      does either, since penalties only grow along the prefix. */
  lemma PruneSound(models: seq<CarModel>, resources: seq<Resource>, table: seq<seq<bool>>,
                   sol: seq<int>, prefix: seq<int>, k: int, i: int, partial: int, best: Best)
    requires 0 <= k < |sol| && sol[..k + 1] == prefix + [i]
    requires partial == Threaded(sol, table, resources, k + 1)
    requires !Below(partial, best)
    ensures forall a :: Arrangement(models, |sol|, a) && Extends(a, prefix) && a[k] == i ==>
              AtMost(best, Total(a, table, resources))
  {
    forall a | Arrangement(models, |sol|, a) && Extends(a, prefix) && a[k] == i
      ensures AtMost(best, Total(a, table, resources))
    {
      assert a[..k + 1] == a[..k] + [a[k]];
      PrefixBound(sol, a, table, resources, k + 1);
    }
  }

  class Search {
    const models: seq<CarModel>
    const resources: seq<Resource>
    const table: seq<seq<bool>>
    const solution: array<int>
    const used: array<int>
    /** The best penalty of a complete sequence found so far. */
    var minPenalty: Best
    /** Every solution written out so far, in order. */
    ghost var emitted: seq<Emission>

    ghost predicate Valid()
      reads this
    {
      && ValidModels(models, |resources|)
      && ValidResources(resources, solution.Length)
      && table == Table(models)
      && used.Length == |models|
      && solution != used
      && Improving(Infinite, emitted)
      && minPenalty == LastBest(Infinite, emitted)
      && (forall e :: e in emitted ==>
            Arrangement(models, solution.Length, e.sequence)
            && e.penalty == Total(e.sequence, table, resources))
    }

    /** Every position of the buffer holds a model index. */
    ghost predicate InRange()
      reads this, solution
    {
      Entries(solution[..], |models|)
    }

    /** The empty search state: a zeroed buffer of `n` cars, nothing used or
        emitted, and the best penalty at the sentinel. */
    constructor (models: seq<CarModel>, resources: seq<Resource>, n: int)
      requires ValidModels(models, |resources|)
      requires ValidResources(resources, n)
      requires 0 <= n
      ensures Valid() && InRange()
      ensures this.models == models && this.resources == resources && solution.Length == n
      ensures fresh(solution) && fresh(used)
      ensures emitted == [] && minPenalty == Infinite
      ensures forall i :: 0 <= i < used.Length ==> used[i] == 0
    {
      this.models := models;
      this.resources := resources;
      this.table := Table(models);
      this.solution := new int[n](_ => 0);
      this.used := new int[|models|](_ => 0);
      this.minPenalty := Infinite;
      this.emitted := [];
    }

    /** Writes out the complete sequence in the buffer and makes its penalty
        the best so far. */
    method Emit(penalty: int)
      requires Valid() && InRange()
      requires forall i :: 0 <= i < |models| ==>
                 Occurrences(solution[..], i) <= models[i].numCars
      requires penalty == Total(solution[..], table, resources)
      requires Below(penalty, minPenalty)
      modifies this
      ensures Valid()
      ensures emitted == old(emitted) + [Emission(penalty, solution[..])]
      ensures minPenalty == Finite(penalty)
    {
      ImprovingAppend(Infinite, emitted, Emission(penalty, solution[..]));
      emitted := emitted + [Emission(penalty, solution[..])];
      minPenalty := Finite(penalty);
    }

    /** Extends the partial solution `solution[..k]` in every possible way,
        writing out each complete sequence that beats the best so far. */
    method Generate(k: int, partialPenalty: int)
      requires Valid() && InRange()
      requires 0 <= k <= solution.Length
      requires forall i :: 0 <= i < |models| ==>
                 used[i] == Occurrences(solution[..k], i) <= models[i].numCars
      requires partialPenalty == Threaded(solution[..], table, resources, k)
      requires Below(partialPenalty, minPenalty)
      modifies this, solution, used
      ensures Valid() && InRange()
      ensures solution[..k] == old(solution[..k])
      ensures forall j :: 0 <= j < used.Length ==> used[j] == old(used[j])
      ensures Continues(old(emitted), emitted, old(solution[..k]))
      ensures NoWorse(minPenalty, old(minPenalty))
      ensures forall a :: Arrangement(models, solution.Length, a) && Extends(a, old(solution[..k])) ==>
                AtMost(minPenalty, Total(a, table, resources))
      decreases solution.Length - k, 3
    {
      if k == solution.Length {
        assert solution[..] == solution[..k];
        Complete(partialPenalty);
      } else {
        Extend(k, partialPenalty);
      }
    }

    /** A complete sequence that beats the best so far: it is written out and
        is the only arrangement extending itself. */
    method Complete(partialPenalty: int)
      requires Valid() && InRange()
      requires forall i :: 0 <= i < |models| ==>
                 used[i] == Occurrences(solution[..], i) <= models[i].numCars
      requires partialPenalty == Threaded(solution[..], table, resources, solution.Length)
      requires Below(partialPenalty, minPenalty)
      modifies this
      ensures Valid()
      ensures emitted == old(emitted) + [Emission(partialPenalty, solution[..])]
      ensures minPenalty == Finite(partialPenalty)
      ensures Continues(old(emitted), emitted, solution[..])
      ensures NoWorse(minPenalty, old(minPenalty))
      ensures forall a :: Arrangement(models, solution.Length, a) && Extends(a, solution[..]) ==>
                AtMost(minPenalty, Total(a, table, resources))
    {
      var n := solution.Length;
      ghost var line := solution[..];
      CompleteBound(models, table, resources, line, partialPenalty);
      Emit(partialPenalty);
      assert solution[..] == line;
      ContinuesAppend(old(emitted), Emission(partialPenalty, line), line);
    }

    /** Tries every model with cars left at position `k < n`, in index order. */
    method Extend(k: int, partialPenalty: int)
      requires Valid() && InRange()
      requires 0 <= k < solution.Length
      requires forall i :: 0 <= i < |models| ==>
                 used[i] == Occurrences(solution[..k], i) <= models[i].numCars
      requires partialPenalty == Threaded(solution[..], table, resources, k)
      requires Below(partialPenalty, minPenalty)
      modifies this, solution, used
      ensures Valid() && InRange()
      ensures solution[..k] == old(solution[..k])
      ensures forall j :: 0 <= j < used.Length ==> used[j] == old(used[j])
      ensures Continues(old(emitted), emitted, old(solution[..k]))
      ensures NoWorse(minPenalty, old(minPenalty))
      ensures forall a :: Arrangement(models, solution.Length, a) && Extends(a, old(solution[..k])) ==>
                AtMost(minPenalty, Total(a, table, resources))
      decreases solution.Length - k, 2
    {
      var n := solution.Length;
      var classes := |models|;
      var partial := partialPenalty;
      ghost var prefix := solution[..k];
      ghost var entry := emitted;
      for i := 0 to classes
        invariant Valid() && InRange()
        invariant solution[..k] == prefix
        invariant forall j :: 0 <= j < used.Length ==> used[j] == old(used[j])
        invariant Continues(entry, emitted, prefix)
        invariant NoWorse(minPenalty, old(minPenalty))
        invariant partial == Threaded(solution[..], table, resources, k)
        invariant forall a :: Arrangement(models, n, a) && Extends(a, prefix) && a[k] < i ==>
                    AtMost(minPenalty, Total(a, table, resources))
      {
        if used[i] < models[i].numCars {
          ghost var before := solution[..];
          ghost var mid := emitted;
          Place(k, i, partial, prefix);
          ContinuesTrans(entry, mid, emitted, prefix);
          ThreadedFrame(before, solution[..], table, resources, k);
        } else {
          forall a | Arrangement(models, n, a) && Extends(a, prefix) && a[k] == i
            ensures false
          {
            assert a[..k] == prefix;
            PrefixOccurrences(a, k, i);
          }
        }
      }
    }

    /** One branch of the search: model `i` at position `k`, the search
        below it unless pruned, and the undo. */
    method Place(k: int, i: int, partialPenalty: int, ghost prefix: seq<int>)
      requires Valid() && InRange()
      requires 0 <= k < solution.Length && 0 <= i < |models|
      requires prefix == solution[..k]
      requires forall j :: 0 <= j < |models| ==>
                 used[j] == Occurrences(prefix, j) <= models[j].numCars
      requires used[i] < models[i].numCars
      requires partialPenalty == Threaded(solution[..], table, resources, k)
      modifies this, solution, used
      ensures Valid() && InRange()
      ensures solution[..k] == prefix
      ensures forall j :: 0 <= j < used.Length ==> used[j] == old(used[j])
      ensures Continues(old(emitted), emitted, prefix)
      ensures NoWorse(minPenalty, old(minPenalty))
      ensures forall a :: Arrangement(models, solution.Length, a) && Extends(a, prefix) && a[k] == i ==>
                AtMost(minPenalty, Total(a, table, resources))
      decreases solution.Length - k, 1
    {
      ghost var before := solution[..];
      solution[k] := i;
      used[i] := used[i] + 1;
      PlacedPrefix(before, solution[..], k, i);
      ThreadedFrame(before, solution[..], table, resources, k);
      Branch(k, i, partialPenalty, prefix);
      assert solution[..k] == solution[..k + 1][..k];
      used[i] := used[i] - 1;
    }

    /** The search below model `i` at position `k`: the new partial penalty,
        and the recursion unless it does not beat the best so far. */
    method Branch(k: int, i: int, partialPenalty: int, ghost prefix: seq<int>)
      requires Valid() && InRange()
      requires 0 <= k < solution.Length && 0 <= i < |models|
      requires |prefix| == k && solution[..k + 1] == prefix + [i]
      requires forall j :: 0 <= j < |models| ==>
                 used[j] == Occurrences(solution[..k + 1], j) <= models[j].numCars
      requires partialPenalty == Threaded(solution[..], table, resources, k)
      modifies this, solution, used
      ensures Valid() && InRange()
      ensures solution[..k + 1] == old(solution[..k + 1])
      ensures forall j :: 0 <= j < used.Length ==> used[j] == old(used[j])
      ensures Continues(old(emitted), emitted, prefix)
      ensures NoWorse(minPenalty, old(minPenalty))
      ensures forall a :: Arrangement(models, solution.Length, a) && Extends(a, prefix) && a[k] == i ==>
                AtMost(minPenalty, Total(a, table, resources))
      decreases solution.Length - k, 0
    {
      var partial := Penalties(solution[..], k, partialPenalty, table, resources);
      if Below(partial, minPenalty) {
        Generate(k + 1, partial);
        ContinuesShorter(old(emitted), emitted, prefix, i);
      } else {
        PruneSound(models, resources, table, solution[..], prefix, k, i, partial, minPenalty);
      }
      ExtendsPlaced(models, solution.Length, prefix, k, i);
    }

    /** The whole search, from an empty buffer. On return `minPenalty` is the
        least penalty of any arrangement, and the last emission attains it. */
    method Run()
      requires Valid() && InRange()
      requires emitted == [] && minPenalty == Infinite
      requires forall i :: 0 <= i < used.Length ==> used[i] == 0
      modifies this, solution, used
      ensures Valid()
      ensures forall a :: Arrangement(models, solution.Length, a) ==> AtMost(minPenalty, Total(a, table, resources))
      ensures minPenalty.Finite? ==>
                && |emitted| > 0
                && Arrangement(models, solution.Length, emitted[|emitted| - 1].sequence)
                && Total(emitted[|emitted| - 1].sequence, table, resources) == minPenalty.value
      ensures forall x, y :: 0 <= x < y < |emitted| ==> emitted[y].penalty < emitted[x].penalty
      ensures Supply(models) == solution.Length ==>
                forall x, i :: 0 <= x < |emitted| && 0 <= i < |models| ==>
                  Occurrences(emitted[x].sequence, i) == models[i].numCars
      ensures forall i :: 0 <= i < used.Length ==> used[i] == 0
    {
      assert solution[..0] == [];
      Generate(0, 0);
      forall a | Arrangement(models, solution.Length, a)
        ensures Extends(a, [])
      {
      }
      if minPenalty.Finite? {
        assert emitted[|emitted| - 1] in emitted;
      }
      forall x, y | 0 <= x < y < |emitted|
        ensures emitted[y].penalty < emitted[x].penalty
      {
        ImprovingDecreases(Infinite, emitted, x, y);
      }
      if Supply(models) == solution.Length {
        forall x | 0 <= x < |emitted|
          ensures forall i :: 0 <= i < |models| ==> Occurrences(emitted[x].sequence, i) == models[i].numCars
        {
          assert emitted[x] in emitted;
          ArrangementExact(models, emitted[x].sequence);
        }
      }
    }
  }

  /** The search on the two-option instance of `Penalty.AlternatingExample`
      ends with best penalty 0. */
  method AlternatingSearch() returns (best: Best)
    ensures best == Finite(0)
  {
    var models := ExampleModels();
    var resources := ExampleResources();
    var search := new Search(models, resources, 4);
    search.Run();
    ExampleArrangement();
    best := search.minPenalty;
  }

  /** The models of the two-option instance, two cars each. */
  function ExampleModels(): seq<CarModel> {
    [CarModel(0, 2, 1, [true, false]), CarModel(1, 2, 1, [false, true])]
  }

  /** `0 1 0 1` is an arrangement of the instance, of penalty 0. */
  lemma ExampleArrangement()
    ensures Arrangement(ExampleModels(), 4, [0, 1, 0, 1])
    ensures Total([0, 1, 0, 1], Table(ExampleModels()), ExampleResources()) == 0
  {
    assert Table(ExampleModels()) == ExampleTable();
    AlternatingExample();
    assert multiset([0, 1, 0, 1])[0] == 2 && multiset([0, 1, 0, 1])[1] == 2;
  }
}
