/** The simulated-annealing solver: fill the line round-robin, shuffle it,
    then repeatedly swap two random positions and keep the neighbour when it
    is better or when the Metropolis test accepts it. Randomness is a
    nondeterministic choice and the Metropolis outcome of each round is an
    input. */
module Annealing {
  import opened Problem
  import opened Penalty
  import opened RoundRobin

  // ---------------------------------------------------------------------
  // Moves
  // ---------------------------------------------------------------------

  /** `s` with the entries at `i` and `j` exchanged. */
  function Swapped(s: seq<int>, i: int, j: int): (t: seq<int>)
    requires 0 <= i < |s| && 0 <= j < |s|
    ensures |t| == |s|
  {
    s[i := s[j]][j := s[i]]
  }

  /** A swap exchanges exactly the two chosen entries and keeps the cars on
      the line. */
  lemma SwappedProperties(s: seq<int>, i: int, j: int)
    requires 0 <= i < |s| && 0 <= j < |s|
    ensures Swapped(s, i, j)[i] == s[j] && Swapped(s, i, j)[j] == s[i]
    ensures forall p :: 0 <= p < |s| && p != i && p != j ==> Swapped(s, i, j)[p] == s[p]
    ensures multiset(Swapped(s, i, j)) == multiset(s)
  {
    if i != j {
      var t := s[i := s[j]];
      assert multiset(t) == multiset(s) - multiset{s[i]} + multiset{s[j]};
      assert multiset(t[j := s[i]]) == multiset(t) - multiset{s[j]} + multiset{s[i]};
    }
  }

  /** Two distinct random positions of a line of `n` cars; the source draws
      the second position again until it differs from the first. */
  method RandomPair(n: int) returns (i: int, j: int)
    requires n >= 2
    ensures 0 <= i < n && 0 <= j < n && i != j
  {
    i :| 0 <= i < n;
    j :| 0 <= j < n;
    if i == j {
      assert 0 <= (if i == 0 then 1 else 0) < n;
      j :| 0 <= j < n && j != i;
    }
  }

  /** The line after one round from `sol`, given the chosen pair and the
      outcome of the Metropolis test: the swapped neighbour if it is strictly
      better or accepted, otherwise `sol` itself. */
  function Next(sol: seq<int>, i: int, j: int, table: seq<seq<bool>>, resources: seq<Resource>, accept: bool): seq<int>
    requires 0 <= i < |sol| && 0 <= j < |sol|
  {
    var neighbor := Swapped(sol, i, j);
    if Total(neighbor, table, resources) < Total(sol, table, resources) || accept then neighbor else sol
  }

  /** A round keeps the multiset of the line. */
  lemma NextPermutes(sol: seq<int>, i: int, j: int, table: seq<seq<bool>>, resources: seq<Resource>, accept: bool)
    requires 0 <= i < |sol| && 0 <= j < |sol|
    ensures multiset(Next(sol, i, j, table, resources, accept)) == multiset(sol)
    ensures |Next(sol, i, j, table, resources, accept)| == |sol|
  {
    SwappedProperties(sol, i, j);
  }

  /** The emissions of a run whose successive lines are `trace`: a line is
      written out exactly when it is strictly better than the one before. */
  function Emitted(trace: seq<seq<int>>, table: seq<seq<bool>>, resources: seq<Resource>): seq<Emission>
    decreases |trace|
  {
    if |trace| <= 1 then []
    else
      var last := trace[|trace| - 1];
      Emitted(trace[..|trace| - 1], table, resources)
        + (if Total(last, table, resources) < Total(trace[|trace| - 2], table, resources)
           then [Emission(Total(last, table, resources), last)] else [])
  }

  /** Every emission of a run is one of its lines, with that line's penalty,
      and improves on the line before it. */
  lemma {:induction false} EmittedFromTrace(trace: seq<seq<int>>, table: seq<seq<bool>>, resources: seq<Resource>, e: int)
    requires 0 <= e < |Emitted(trace, table, resources)|
    ensures exists t :: 0 < t < |trace| && Emitted(trace, table, resources)[e] == Emission(Total(trace[t], table, resources), trace[t])
              && Total(trace[t], table, resources) < Total(trace[t - 1], table, resources)
    decreases |trace|
  {
    var init := trace[..|trace| - 1];
    var prev := Emitted(init, table, resources);
    var t := |trace| - 1;
    if e < |prev| {
      EmittedFromTrace(init, table, resources, e);
      var u :| 0 < u < |init| && prev[e] == Emission(Total(init[u], table, resources), init[u])
              && Total(init[u], table, resources) < Total(init[u - 1], table, resources);
      assert init[u] == trace[u] && init[u - 1] == trace[u - 1];
    } else {
      assert Emitted(trace, table, resources)[e] == Emission(Total(trace[t], table, resources), trace[t]);
    }
  }

  // ---------------------------------------------------------------------
  // Array helpers
  // ---------------------------------------------------------------------

  /** Shuffles `a` by swapping each position with a random earlier or equal
      one; all that is kept is that the result is a permutation. */
  method Shuffle(a: array<int>)
    modifies a
    ensures multiset(a[..]) == old(multiset(a[..]))
  {
    var i := 1;
    while i < a.Length
      invariant multiset(a[..]) == old(multiset(a[..]))
    {
      var r :| 0 <= r <= i;
      SwappedProperties(a[..], i, r);
      ghost var before := a[..];
      a[i], a[r] := a[r], a[i];
      assert a[..] == Swapped(before, i, r);
      i := i + 1;
    }
  }

  /** `target` := `source`, entry by entry. */
  method CopyInto(target: array<int>, source: array<int>)
    requires target != source && target.Length == source.Length
    modifies target
    ensures target[..] == source[..]
  {
    forall p | 0 <= p < target.Length {
      target[p] := source[p];
    }
  }

  /** One round: copies the line into `neighbor`, swaps a random pair there,
      evaluates both lines, emits the neighbour if it is strictly better and
      adopts it if it is better or `accept` holds. */
  method Round(solution: array<int>, neighbor: array<int>, table: seq<seq<bool>>, resources: seq<Resource>, accept: bool)
    returns (i: int, j: int, emission: seq<Emission>)
    requires solution != neighbor && solution.Length == neighbor.Length >= 2
    requires ValidTable(table, |resources|)
    requires ValidResources(resources, solution.Length)
    requires Entries(solution[..], |table|)
    modifies solution, neighbor
    ensures 0 <= i < solution.Length && 0 <= j < solution.Length && i != j
    ensures solution[..] == Next(old(solution[..]), i, j, table, resources, accept)
    ensures emission == Emitted([old(solution[..]), solution[..]], table, resources)
  {
    ghost var sol := solution[..];
    var penaltySol := ThreadedPenalty(solution[..], table, resources);
    CopyInto(neighbor, solution);
    i, j := RandomPair(solution.Length);
    neighbor[i], neighbor[j] := neighbor[j], neighbor[i];
    assert neighbor[..] == Swapped(sol, i, j);
    SwappedProperties(sol, i, j);
    SameRange(sol, neighbor[..], |table|);
    var penaltyNei := ThreadedPenalty(neighbor[..], table, resources);
    emission := [];
    if penaltyNei < penaltySol {
      emission := [Emission(penaltyNei, neighbor[..])];
      CopyInto(solution, neighbor);
    } else if accept {
      CopyInto(solution, neighbor);
    }
    assert [sol, solution[..]][..1] == [sol];
  }

  // ---------------------------------------------------------------------
  // The solver
  // ---------------------------------------------------------------------

  /** The initial line: the round-robin fill over the models in their given
      order, then shuffled. Each identifier occurs as often as its model has
      cars. */
  method InitialLine(solution: array<int>, used: array<int>, models: seq<CarModel>)
    requires solution != used
    requires |models| > 0
    requires forall r :: 0 <= r < |models| ==> models[r].numCars >= 0
    requires IdsAreIndices(models)
    requires used.Length == |models|
    requires forall r :: 0 <= r < used.Length ==> used[r] == 0
    requires Supply(models) == solution.Length
    modifies solution, used
    ensures forall r :: 0 <= r < |models| ==> Occurrences(solution[..], r) == models[r].numCars
    ensures Entries(solution[..], |models|)
    ensures forall r :: 0 <= r < |models| ==> used[r] == models[r].numCars
  {
    ghost var ranks := Fill(solution, used, models);
    assert solution[..] == ranks;
    Shuffle(solution);
    SameRange(ranks, solution[..], |models|);
  }

  /** The rounds of the annealing loop from the current line, `accept[t]`
      being the outcome of the Metropolis test in round `t`. `trace` is the
      line before each round and after the last one, and `pairs` the
      positions swapped in each round. */
  method Anneal(solution: array<int>, table: seq<seq<bool>>, resources: seq<Resource>, accept: seq<bool>)
    returns (emissions: seq<Emission>, ghost trace: seq<seq<int>>, ghost pairs: seq<(int, int)>)
    requires solution.Length >= 2
    requires ValidTable(table, |resources|)
    requires ValidResources(resources, solution.Length)
    requires Entries(solution[..], |table|)
    modifies solution
    ensures |trace| == |accept| + 1 && trace[0] == old(solution[..])
    ensures Permutations(trace, solution.Length)
    ensures Rounds(trace, pairs, table, resources, accept)
    ensures solution[..] == trace[|accept|]
    ensures emissions == Emitted(trace, table, resources)
  {
    var n := solution.Length;
    var neighbor := new int[n];
    emissions := [];
    trace := [solution[..]];
    pairs := [];
    for t := 0 to |accept|
      invariant |trace| == t + 1 && trace[0] == old(solution[..])
      invariant trace[t] == solution[..]
      invariant Permutations(trace, n)
      invariant Rounds(trace, pairs, table, resources, accept[..t])
      invariant emissions == Emitted(trace, table, resources)
      invariant Entries(solution[..], |table|)
    {
      ghost var before := solution[..];
      var i, j, emission := Round(solution, neighbor, table, resources, accept[t]);
      NextPermutes(before, i, j, table, resources, accept[t]);
      SameRange(before, solution[..], |table|);
      EmittedStep(trace, table, resources, solution[..]);
      RoundsExtend(trace, pairs, table, resources, accept, t, i, j, n);
      emissions := emissions + emission;
      trace := trace + [solution[..]];
      pairs := pairs + [(i, j)];
    }
    assert accept[..|accept|] == accept;
  }

  /** Every line of `trace` is a permutation of the first and has `n` cars. */
  predicate Permutations(trace: seq<seq<int>>, n: int) {
    |trace| > 0 && forall u :: 0 <= u < |trace| ==> multiset(trace[u]) == multiset(trace[0]) && |trace[u]| == n
  }

  /** `trace` follows the rounds: each swaps the pair of `pairs` at that round,
      two distinct positions, and moves as the Metropolis outcome says. */
  predicate Rounds(trace: seq<seq<int>>, pairs: seq<(int, int)>, table: seq<seq<bool>>, resources: seq<Resource>, accept: seq<bool>) {
    && |trace| == |accept| + 1 && |pairs| == |accept|
    && forall u :: 0 <= u < |accept| ==>
         && 0 <= pairs[u].0 < |trace[u]| && 0 <= pairs[u].1 < |trace[u]| && pairs[u].0 != pairs[u].1
         && trace[u + 1] == Next(trace[u], pairs[u].0, pairs[u].1, table, resources, accept[u])
  }

  lemma RoundsExtend(trace: seq<seq<int>>, pairs: seq<(int, int)>, table: seq<seq<bool>>, resources: seq<Resource>,
                     accept: seq<bool>, t: int, i: int, j: int, n: int)
    requires 0 <= t < |accept|
    requires Permutations(trace, n) && Rounds(trace, pairs, table, resources, accept[..t])
    requires 0 <= i < n && 0 <= j < n && i != j
    ensures
      var next := Next(trace[t], i, j, table, resources, accept[t]);
      && Permutations(trace + [next], n)
      && Rounds(trace + [next], pairs + [(i, j)], table, resources, accept[..t + 1])
  {
    var next := Next(trace[t], i, j, table, resources, accept[t]);
    NextPermutes(trace[t], i, j, table, resources, accept[t]);
    var trace', pairs', acc' := trace + [next], pairs + [(i, j)], accept[..t + 1];
    forall u | 0 <= u < |acc'|
      ensures && 0 <= pairs'[u].0 < |trace'[u]| && 0 <= pairs'[u].1 < |trace'[u]| && pairs'[u].0 != pairs'[u].1
              && trace'[u + 1] == Next(trace'[u], pairs'[u].0, pairs'[u].1, table, resources, acc'[u])
    {
      if u < t {
        assert trace'[u] == trace[u] && trace'[u + 1] == trace[u + 1] && pairs'[u] == pairs[u];
        assert acc'[u] == accept[..t][u];
      }
    }
  }

  /** A permutation of a line with entries below `k` has entries below `k`. */
  lemma SameRange(a: seq<int>, b: seq<int>, k: int)
    requires multiset(a) == multiset(b)
    requires Entries(a, k)
    ensures Entries(b, k)
  {
    forall p | 0 <= p < |b|
      ensures 0 <= b[p] < k
    {
      assert b[p] in multiset(a);
    }
  }

  /** The annealing solver over `|accept|` rounds: the fill, the shuffle and
      the annealing loop. Every line of the run, and so every emission, has
      each identifier exactly as often as its model has cars. */
  method SimulatedAnnealing(solution: array<int>, used: array<int>, models: seq<CarModel>,
                            resources: seq<Resource>, accept: seq<bool>)
    returns (emissions: seq<Emission>, ghost trace: seq<seq<int>>, ghost pairs: seq<(int, int)>)
    requires solution != used
    requires ValidModels(models, |resources|)
    requires ValidResources(resources, solution.Length)
    requires IdsAreIndices(models)
    requires used.Length == |models|
    requires forall r :: 0 <= r < used.Length ==> used[r] == 0
    requires Supply(models) == solution.Length
    requires solution.Length >= 2
    modifies solution, used
    ensures Rounds(trace, pairs, Table(models), resources, accept)
    ensures forall t :: 0 <= t < |trace| ==> |trace[t]| == solution.Length
    ensures forall t :: 0 <= t < |trace| ==>
              forall r :: 0 <= r < |models| ==> Occurrences(trace[t], r) == models[r].numCars
    ensures solution[..] == trace[|accept|]
    ensures emissions == Emitted(trace, Table(models), resources)
    ensures forall r :: 0 <= r < |models| ==> used[r] == models[r].numCars
  {
    InitialLine(solution, used, models);
    ValidModelsTable(models, |resources|);
    emissions, trace, pairs := Anneal(solution, Table(models), resources, accept);
  }

  /** A round whose Metropolis test rejects never makes the line worse. */
  lemma RejectedNoWorse(trace: seq<seq<int>>, pairs: seq<(int, int)>, table: seq<seq<bool>>, resources: seq<Resource>,
                        accept: seq<bool>, u: int)
    requires Rounds(trace, pairs, table, resources, accept)
    requires 0 <= u < |accept| && !accept[u]
    ensures Total(trace[u + 1], table, resources) <= Total(trace[u], table, resources)
  {
    assert trace[u + 1] == Next(trace[u], pairs[u].0, pairs[u].1, table, resources, accept[u]);
  }

  /** When the Metropolis test accepts no move that raises the penalty
      (moves of equal penalty may be accepted), the penalty of the line never
      rises along the run. */
  lemma {:induction false} RejectingRunNoWorse(trace: seq<seq<int>>, pairs: seq<(int, int)>, table: seq<seq<bool>>,
                                               resources: seq<Resource>, accept: seq<bool>, u: int, v: int)
    requires Rounds(trace, pairs, table, resources, accept)
    requires forall t :: 0 <= t < |accept| && accept[t] ==>
               Total(Swapped(trace[t], pairs[t].0, pairs[t].1), table, resources) <= Total(trace[t], table, resources)
    requires 0 <= u <= v < |trace|
    ensures Total(trace[v], table, resources) <= Total(trace[u], table, resources)
    decreases v - u
  {
    if u < v {
      RejectingRunNoWorse(trace, pairs, table, resources, accept, u, v - 1);
      assert trace[v] == Next(trace[v - 1], pairs[v - 1].0, pairs[v - 1].1, table, resources, accept[v - 1]);
    }
  }

  /** Every strict improvement of a run is written out, with its penalty. */
  lemma {:induction false} ImprovementEmitted(trace: seq<seq<int>>, table: seq<seq<bool>>, resources: seq<Resource>, u: int)
    requires 0 <= u < |trace| - 1
    requires Total(trace[u + 1], table, resources) < Total(trace[u], table, resources)
    ensures Emission(Total(trace[u + 1], table, resources), trace[u + 1]) in Emitted(trace, table, resources)
    decreases |trace|
  {
    var init := trace[..|trace| - 1];
    if u < |trace| - 2 {
      assert init[u] == trace[u] && init[u + 1] == trace[u + 1];
      ImprovementEmitted(init, table, resources, u);
    }
  }

  /** In a run, a swap that strictly lowers the penalty is always adopted,
      whatever the Metropolis test says, and the new line is written out. */
  lemma BetterNeighbourAdopted(trace: seq<seq<int>>, pairs: seq<(int, int)>, table: seq<seq<bool>>,
                               resources: seq<Resource>, accept: seq<bool>, u: int)
    requires Rounds(trace, pairs, table, resources, accept)
    requires 0 <= u < |accept|
    requires Total(Swapped(trace[u], pairs[u].0, pairs[u].1), table, resources) < Total(trace[u], table, resources)
    ensures trace[u + 1] == Swapped(trace[u], pairs[u].0, pairs[u].1)
    ensures Emission(Total(trace[u + 1], table, resources), trace[u + 1]) in Emitted(trace, table, resources)
  {
    ImprovementEmitted(trace, table, resources, u);
  }

  /** The emissions of a run extended by one line are the old emissions and
      the emission of the last round. */
  lemma EmittedStep(trace: seq<seq<int>>, table: seq<seq<bool>>, resources: seq<Resource>, next: seq<int>)
    requires |trace| >= 1
    ensures Emitted(trace + [next], table, resources)
              == Emitted(trace, table, resources) + Emitted([trace[|trace| - 1], next], table, resources)
  {
    assert (trace + [next])[..|trace|] == trace;
    assert [trace[|trace| - 1], next][..1] == [trace[|trace| - 1]];
  }

  /** The line the evaluator reads when identifiers are indices is the line
      of models by identifier, so the annealing solver and the greedy solver
      score a line alike. */
  lemma {:induction false} IndexTableIsById(models: seq<CarModel>)
    requires IdsAreIndices(models)
    ensures Table(models) == ByIdTable(models, |models|)
  {
    var t := ByIdTable(models, |models|);
    forall r | 0 <= r < |models|
      ensures t[r] == models[r].upgrades
    {
      ByIdTableAt(models, |models|, r);
    }
  }
}
