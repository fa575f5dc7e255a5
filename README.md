# Car sequencing on an assembly line — a verified model

The repository solves the car-sequencing problem. `C` cars of `K` models
must be put in a line. Each model needs some of `M` options. Option `s`
admits at most `c_s` requiring cars in any `n_s` consecutive positions. The
penalty of a line charges, per option, the excess over `c_s` of every window:

- the leading prefixes shorter than `n_s`;
- the full windows;
- the trailing suffixes of length `n_s-1` down to 2.

Three solvers share one incremental evaluator, `penalties(solution, k, partial)`.
It adds to `partial` the charge of the windows that reach index `k`.

- `exh.cc` is a branch-and-bound search over all lines. It prunes a branch as
  soon as its partial penalty is not below the best found.
- `greedy.cc` sorts the models by priority and fills the line round-robin
  over the sorted ranks. It then evaluates the line once.
- `mh.cc` fills the line round-robin and shuffles it. Then it runs simulated
  annealing over neighbours that swap two positions.

The Dafny project has one module per concern:

- `Problem` (`problem.dfy`): the instance. Option constraints (`Resource`),
  car models (`CarModel`), the solvers' output (`Emission`), the validity
  conditions the source relies on, and occurrence counting.
- `Penalty` (`penalty.dfy`): the evaluator. `Penalties` is the source's
  counting loops. It is proved against `StepPenalty`, the charge of one call.
  Its running total `Total` is proved equal to `DirectTotal`, an independent
  enumeration of all windows of all options.
- `Exhaustive` (`exh.dfy`): the branch-and-bound search. The class `Search`
  holds the line and `used` as arrays, `minPenalty` (with `Infinite` for the
  source's `INT_MAX`) and the ghost log of emissions. The search proves that
  on return the best penalty is the minimum over all arrangements.
- `RoundRobin` (`fill.dfy`): the fill shared by the greedy and the annealing
  solvers, proved against the rule "first rank in stock, cyclically from
  `i mod K`".
- `Greedy` (`greedy.dfy`): the comparator, the sort (a functional insertion
  sort proved sorted and a permutation), the `legend`, and the solver.
- `Annealing` (`mh.dfy`): the pair draw, the swap neighbour, the shuffle and
  the annealing loop. `Rounds` specifies the loop round by round, and every
  line of every run is proved a permutation of the initial fill.

One `Penalty.Penalties` method serves all three sources. It takes the upgrade
table indexed by the value stored in the line:

- `Table(models)` for `exh.cc` and `mh.cc`, which read `models[solution[p]]`;
- `Greedy.LegendTable(sorted, legend)` for `greedy.cc`, which reads
  `models[legend[solution[p]]]`.

## Model

| member | source | states |
|---|---|---|
| Penalty.CountRequirers | exh.cc:60-62 | the counting loop returns the number of cars requiring option `s` in the inclusive range `lo..hi` |
| Penalty.Penalties | exh.cc:47-93 | the result is `partialPenalty` plus, per option: the excess of prefix `0..k` while `k < n_s-1`; otherwise the excess of the full window ending at `k`; and at `k == n-1` the excesses of the trailing suffixes starting at `n-n_s+1 .. n-2`; it is never below `partialPenalty`; the copies at mh.cc:51-97 and greedy.cc:49-96 are the same, given the table they read |
| Penalty.ThreadedPenalty | greedy.cc:143-145 | threading `Penalties` over `k = 0..n-1` from 0 gives `Total`, and equals the direct sum over all options of the leading-prefix, full-window and trailing-suffix excesses; mh.cc:152-154 and 163-165 are the same loop |
| Penalty.TotalIsDirect | mh.cc:51-97 | for every line with windows no longer than it, the threaded total equals the window-by-window enumeration |
| Penalty.OptionThreadWindows | exh.cc:58-89 | after `j` evaluations one option has been charged exactly the prefixes of length up to `min(j, n_s-1)`, the full windows ending below `j`, and the trailing suffixes once `j == n` |
| Penalty.ThreadedMonotone | exh.cc:63-64 | only positive excesses are added, so the running total never decreases along the indices |
| Penalty.PrefixBound | exh.cc:124-128 | the running total of a prefix is at most the total of any complete line extending it |
| Penalty.ThreadedFrame | exh.cc:121-125 | two lines of the same length that agree on their first `k` entries have the same running total up to `k` |
| Penalty.AlternatingExample | exh.cc:47-93 | with options `(1,2)` and `(2,3)`, model 0 needing option 0 only and model 1 needing option 1 only, the line `0 1 0 1` has penalty 0 |
| Penalty.AdjacentExample | exh.cc:47-93 | on the same instance `0 0 1 1` has penalty 1 |
| Exhaustive.Search.constructor | exh.cc:96 | a fresh search starts with the best at infinity, nothing emitted, a line of `n` cars and `used` all zero |
| Exhaustive.Search.Emit | exh.cc:109-112 | a complete line is appended to the emissions with its penalty, and that penalty becomes `minPenalty` |
| Exhaustive.Search.Generate | exh.cc:100-133 | on return `solution[..k]` and every `used[i]` are as on entry; emissions are only appended, each extending the prefix; `minPenalty` never grows; every arrangement extending the prefix has a total of at least `minPenalty` |
| Exhaustive.Search.Complete | exh.cc:109-112 | at `k == n` the line is emitted and its penalty is the new best; the emissions grow by exactly this line with its penalty |
| Exhaustive.Search.Extend | exh.cc:117-132 | for `k < n`, after trying every model with cars left at `k`: the prefix and `used` are restored, emissions only appended and extending the prefix, and every arrangement extending the prefix has a total of at least `minPenalty` |
| Exhaustive.Search.Place | exh.cc:119-131 | model `i` is written at `k` only when `used[i] < numCars`; `used[i]` is incremented for the branch and restored after it |
| Exhaustive.Search.Branch | exh.cc:124-128 | the search goes one level deeper only when the new partial penalty is below `minPenalty`; otherwise no arrangement of the branch beats the best |
| Exhaustive.Search.Run | exh.cc:171 | after the search from position 0 with penalty 0, `minPenalty` is at most the total of every arrangement; if finite, the last emission is an arrangement attaining it; emission penalties strictly decrease; when the supplies add up to `n`, every emission uses each model exactly `numCars` times; `used` is all zero again on return |
| Exhaustive.PruneSound | exh.cc:126-128 | when the partial penalty after placing `i` at `k` is not below the best, no arrangement continuing that way is below it either |
| Exhaustive.ImprovingDecreases | exh.cc:109-112 | in an improving run of emissions, later penalties are strictly smaller |
| Exhaustive.ArrangementExact | exh.cc:117-122 | when supplies add up to the line length, a line using each model at most `numCars` times uses each exactly `numCars` times |
| Exhaustive.AlternatingSearch | exh.cc:168-171 | the search on the two-option instance ends with best penalty 0 |
| Exhaustive.ExampleArrangement | exh.cc:168-171 | `0 1 0 1` is an arrangement of that instance with penalty 0 |
| RoundRobin.ChooseRank | greedy.cc:129-139 | the chosen rank is `i mod K` if in stock, otherwise the first in-stock rank scanning cyclically from `i mod K` |
| RoundRobin.SomeInStock | greedy.cc:136 | while fewer than the total supply are placed, some rank is in stock, so the scan stops |
| RoundRobin.Fill | greedy.cc:127-140 | every position receives the round-robin rank given the ranks before it, and holds that model's identifier; afterwards `used[r] == numCars` for every rank, and each identifier occurs exactly `numCars` times when identifiers are distinct; mh.cc:124-137 is the same fill over the unsorted models |
| RoundRobin.IdOccurrences | greedy.cc:130 | with distinct identifiers, an identifier occurs in the line as often as its rank was chosen |
| Greedy.Comparator | greedy.cc:101-105 | whether the first model goes before the second: it needs more options, or as many options and more cars |
| Greedy.Insert | greedy.cc:118 | one insertion step of the sort: the model is placed before the first model it goes strictly before |
| Greedy.Sort | greedy.cc:118 | the models sorted by `Comparator`, by insertion; proved sorted and a permutation in `SortCorrect` and `SortedKeys` |
| Greedy.ComparatorStrictWeakOrder | greedy.cc:101-105 | the comparator is irreflexive, asymmetric, transitive, and its incomparability is transitive |
| Greedy.SortedKeys | greedy.cc:101-118 | after the sort, a model never needs fewer options than a later one, and among models needing as many options it never has fewer cars than a later one |
| Greedy.SortCorrect | greedy.cc:118 | the sorted models are in comparator order and a permutation of the input |
| Greedy.InsertSorted | greedy.cc:118 | inserting into a sorted sequence keeps it sorted and adds exactly that model |
| Greedy.SortedGlobally | greedy.cc:118 | in a sorted sequence no later model goes strictly before an earlier one |
| Greedy.SupplyPermutation | greedy.cc:118 | sorting does not change the total supply |
| Greedy.PermutationIds | greedy.cc:118-123 | a permutation of models with distinct identifiers in `0..K-1` has such identifiers too |
| Greedy.BuildLegend | greedy.cc:122-123 | `legend[sorted[r].model] == r` for every rank, and every entry is a rank |
| Greedy.IdsOnto | greedy.cc:123 | with `K` distinct identifiers in `0..K-1`, every identifier belongs to some model, so every legend entry is written |
| Greedy.LegendTableIsById | greedy.cc:65 | read through the legend, identifier `id` gives the upgrade bits of the original model with identifier `id`, so the penalty does not depend on the sort |
| Greedy.Greedy | greedy.cc:109-149 | the sorted models are sorted and a permutation, by descending `numUpgrades` then descending `numCars`; the legend inverts identifier to rank; each position holds the round-robin rank's identifier; each identifier occurs `numCars` times; the penalty is the threaded total of the line under the original models |
| Annealing.RandomPair | mh.cc:100-105 | two positions in `[0, n)` that differ, for `n >= 2` |
| Annealing.Swapped | mh.cc:158-160 | the neighbour: a copy of the line with the entries at the two chosen positions exchanged, of the same length |
| Annealing.Next | mh.cc:169-177 | the line after one round: the neighbour when its penalty is strictly lower or the Metropolis test accepts it, otherwise the line unchanged |
| Annealing.Emitted | mh.cc:169-170 | what a run writes out: for each round whose new line has a strictly lower penalty than the line before, that line with its penalty, in order |
| Annealing.SwappedProperties | mh.cc:158-160 | the neighbour exchanges exactly the two chosen entries and has the multiset of the line |
| Annealing.NextPermutes | mh.cc:169-177 | whichever branch is taken, the next line has the multiset of the current one |
| Annealing.RejectedNoWorse | mh.cc:169-180 | a round whose Metropolis test rejects never raises the penalty of the line |
| Annealing.RejectingRunNoWorse | mh.cc:144-181 | when the Metropolis test accepts no move that raises the penalty (equal-penalty moves may still be accepted), the penalty never rises along the run: a later line is never worse than an earlier one |
| Annealing.ImprovementEmitted | mh.cc:169-172 | every round that strictly lowers the penalty writes its new line out with that penalty |
| Annealing.BetterNeighbourAdopted | mh.cc:169-173 | in a run, a swap that strictly lowers the penalty is adopted whatever the Metropolis test says, and the new line is written out |
| Annealing.Shuffle | mh.cc:140 | the shuffled line is a permutation of the filled one |
| Annealing.CopyInto | mh.cc:171 | after the copy the target holds the source entries |
| Annealing.Round | mh.cc:150-181 | one round evaluates both lines, adopts the neighbour as `Next` says, and emits it exactly when it is strictly better |
| Annealing.InitialLine | mh.cc:124-140 | after the fill and the shuffle every identifier occurs `numCars` times and is a model index, and `used[r] == numCars` for every model |
| Annealing.Anneal | mh.cc:144-181 | the run follows `Rounds`, every line is a permutation of the first, and the emissions are those of `Emitted` |
| Annealing.SimulatedAnnealing | mh.cc:114-182 | every line of the run has each identifier exactly `numCars` times; each round swaps two distinct positions and moves as `Next` says; the emissions are the strictly improving moves; `used[r] == numCars` for every model afterwards |
| Annealing.EmittedFromTrace | mh.cc:169-172 | every emission is a line of the run with its own penalty, strictly below the penalty of the line before it |
| Annealing.IndexTableIsById | mh.cc:66 | when identifiers are indices, reading `models[solution[p]]` is reading the model with identifier `solution[p]`, as the greedy solver does |

## Left out

- Input parsing, `write_to_file`, every `main` and the `clock()` timing are not modelled. Emissions are a ghost log in `Exhaustive.Search` and an output sequence in `Annealing`.
- `num_upgrades` is computed by `main` from the bits of a model. The model takes it as given, since it is only the greedy sort key.
- C `int` overflow is not modelled. Integers are unbounded, and `INT_MAX` in `min_penalty` becomes the `Infinite` case of `Best`.
- Annealing.SimulatedAnnealing: the temperature schedule and the Metropolis test use `long double` and `exp`, so they are not modelled. The outcome of the test in round `t` is the input `accept[t]`. The number of rounds is `|accept|`; the source fixes it through its three constants.
- Annealing.RandomPair: `rand()` is a nondeterministic choice. The retry loop that redraws the second position becomes one choice of a position different from the first.
- Annealing.Shuffle: `random_shuffle` swaps each position with a nondeterministically chosen position at or before it. Only the permutation is kept, not the distribution.
- Annealing.SimulatedAnnealing requires at least two cars. With one car, `random_pair` never terminates; with none, `rand() % 0` is undefined. The source always runs at least one round.
- Greedy.Greedy: `std::sort` is modelled as an insertion sort. It sorts a copy and returns it, where the source sorts the caller's vector in place. The contract holds for any comparator-sorted permutation, so the unspecified order of models with equal keys is not fixed.
- The `car_model` of `exh.cc` has no `model` field. The exhaustive search stores and reads model indices, so the shared `CarModel.model` field is unused there.
- The source's preconditions are stated, not checked:
  - every window is between 1 and `n` and every capacity is at least 1;
  - the model list is non-empty and every model has one bit per option;
  - the supplies add up to `n`;
  - identifiers are indices for `mh.cc` and a permutation of `0..K-1` for `greedy.cc`.
