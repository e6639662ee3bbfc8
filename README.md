# Brute-force travelling salesman, modelled in Dafny

The repository searches for the cheapest closed tour through a set of
cities that starts and ends at a fixed anchor city (the first city of the
list). It is meant to cost every arrangement of the remaining cities by
brute force, in two ways. As written, the sequential search skips
arrangements (see "## Findings"), and the parallel one need not cover every
arrangement when the remaining cities are not sorted (the
`Parallel.WorkersOptimal` line of "## Left out").

- `tspThreads.py` gives the ranks `0 .. (n-1)! - 1` to a number of workers
  in contiguous blocks. Each worker unranks the first arrangement of its
  block with `nth_permutation`, walks the block with `next_permutation`,
  and keeps its best tour. The per-worker results are then reduced in
  worker order.
- `tspSequencial.py` sorts the cities after the anchor, costs that first
  tour, and steps through the successors with `next_permutation`.

`utils.py` provides the shared building blocks: the lexicographic successor
(Knuth's Algorithm L, The Art of Computer Programming volume 4A, section
7.2.1.2), a factorial table, unranking through the factorial number system,
the cost of a path, and the distance table with an infinite default.

The modules follow that structure:

| file | module | contents |
|---|---|---|
| cost.dfy | `Costs` | weights `Fin(n)` / `Inf`, `+` and `<` on them, the distance table, the cost of a path |
| lex.dfy | `Lex` | ordered and lexicographic predicates on city lists, reversal, removal of one position |
| successor.dfy | `Successor` | `NextPerm`, the successor as a function, and its properties |
| unrank.dfy | `Ranking` | factorials, `Unrank` and its inverse `Rank`, and how ranks line up with successors |
| utils.dfy | `Utils` | the imperative code of `utils.py`: `next_permutation` on an array, the factorial table, `nth_permutation` with Python's `//`, `%` and `pop` semantics, `custo_caminho`, `gerar_matriz` |
| selection.dfy | `Selection` | the `(tour, cost)` pair, keeping the best under strict `<`, folds over lists of candidates |
| tours.dfy | `Tours` | anchored tours, the candidate of each arrangement, the walk by successors, and what "cheapest tour" means |
| partition.dfy | `Partition` | the closed-form split of the ranks into blocks |
| parallel.dfy | `Parallel` | `processar_bloco` and `tsp_paralelo` |
| sorting.dfy | `Sorting` | `list.sort()` on the cities after the anchor |
| sequential.dfy | `Sequential` | `tsp`, its unchecked copy of `nth_permutation`, and the search with one advance per round |
| findings.dfy | `Findings` | a concrete instance that the sequential search gets wrong |

Cities are integers. A weight is `Fin(n)` for a natural `n`, or `Inf` for
`float('inf')`. Addition absorbs `Inf`, and `Inf < Inf` is false. The
distance table is a `map<int, map<int, Cost>>`. The result of a search is
a `Choice`: an optional tour and its cost. `Nothing` is `(None, Inf)`.

`Unrank(s, r)` is the arrangement of `s` with 0-based rank `r` in the
factorial number system. When `s` is strictly ascending, these ranks are
the lexicographic order (`Ranking.UnrankLexIff`), and `NextPerm` steps
from rank `r` to rank `r + 1` (`Ranking.UnrankStep`). The walks of both
searches are proved against rank-indexed specifications built on that
bridge.

`tspSequencial.py` defines its own copies of `gerar_matriz`,
`next_permutation`, `precalcular_fatoriais` and `custo_caminho`. They are
line for line the `utils.py` functions, so each is modelled once, in
`Utils`. Its `nth_permutation` has no range check, and is modelled
separately as `Sequential.NthPermutationUnchecked`.

## Model

| member | source | states |
|---|---|---|
| Utils.NextPermutation | utils.py:30-51 | the array becomes `NextPerm` of its old contents, and the result says whether a successor existed |
| Utils.ReverseSuffix | utils.py:48-49 | the slice after `k` is replaced by its reversal and the prefix up to `k` is untouched |
| Successor.NextPermExhausted | utils.py:32-38 | no successor exactly when the list is non-increasing, and then the list is left unchanged |
| Successor.NextPermFound | utils.py:32-38 | a successor exists exactly when some `arr[k] < arr[k + 1]`, that is, when the scan for the pivot finds one |
| Successor.PivotSuffix | utils.py:31-34 | everything after the pivot `k` found by the first loop is non-increasing |
| Successor.CeilSuffix | utils.py:40-43 | the `l` found by the second loop is the last position after `k` whose value exceeds `arr[k]` |
| Successor.NextPermPermutes | utils.py:45-49 | the successor is a rearrangement of the input (same multiset) |
| Successor.NextPermKeepsPrefix | utils.py:45-49 | positions before the pivot are untouched |
| Successor.NextPermRaisesPivot | utils.py:40-46 | the pivot position receives the value at `l`, which is larger than the old value there and no larger than any later value above it |
| Successor.NextPermSortsSuffix | utils.py:48-49 | the suffix after the pivot is ascending after the reversal |
| Successor.NextPermGreater | utils.py:30-51 | a successor is strictly greater in lexicographic order |
| Successor.NextPermImmediate | utils.py:30-51 | no rearrangement of the input lies strictly between the input and its successor |
| Lex.AscendingIsLexLeast | tspSequencial.py:105 | an ascending list is lexicographically least among its rearrangements |
| Lex.NonIncreasingIsLexGreatest | utils.py:36-38 | a non-increasing list is lexicographically greatest among its rearrangements |
| Utils.PrecomputeFactorial | utils.py:54-58 | the table has `n + 1` entries, and entry `i` is `i!` |
| Ranking.MulIsTimes | utils.py:57 | the factorial recurrence's repeated addition is multiplication |
| Ranking.LeadRemDiv | utils.py:72-75 | leading digit and remainder are `//` and `%` on naturals |
| Ranking.UnrankPermutes | utils.py:66-77 | the arrangement of any rank is a rearrangement of the input |
| Ranking.UnrankFirst | utils.py:60-77 | `nth_permutation(arr, 1)` is `arr` itself |
| Ranking.UnrankLast | utils.py:60-77 | `nth_permutation(arr, N!)` is `arr` reversed |
| Ranking.RankUnrank | utils.py:60-77 | for cities without repeats, in any order, `Rank` recovers the rank from the arrangement |
| Ranking.UnrankRank | utils.py:60-77 | every rearrangement of the cities has a rank that reproduces it |
| Ranking.UnrankLexIff | utils.py:60-77 | for strictly ascending cities, rank order is lexicographic order, in both directions |
| Ranking.UnrankLexOrder | utils.py:60-77 | a smaller rank gives a lexicographically smaller arrangement |
| Ranking.UnrankStep | utils.py:30-77 | `next_permutation` turns the arrangement of rank `r` into that of rank `r + 1` |
| Ranking.UnrankExhausted | utils.py:32-38 | the arrangement of the last rank has no successor |
| Ranking.UnrankNext | utils.py:30-77 | from rank `r`, `next_permutation` succeeds exactly when rank `r + 1` exists, and then reaches it |
| Utils.FloorDivIsDiv | utils.py:72-75 | Python's `//` and `%`, floored, agree with Dafny's Euclidean operators for positive divisors |
| Utils.FloorParts | utils.py:72-75 | `n == (n // f) * f + n % f` for Python's operators |
| Utils.PyUnrankInRange | utils.py:66-77 | for `0 <= n < N!` the loop yields the arrangement of rank `n` |
| Utils.PyUnrankWrap | utils.py:71-75 | a rank in `[-N!, 0)` wraps, through negative `pop` indices, to rank `n + N!` |
| Utils.PyUnrankTooLow | utils.py:71-75 | a rank below `-N!` makes the first `pop` raise IndexError |
| Utils.PyUnrankTooHigh | utils.py:71-75 | a rank at or above `N!` makes the first `pop` raise IndexError |
| Utils.UnrankLoop | utils.py:66-77 | the loop of `nth_permutation` computes `PyUnrank` of the 0-based rank |
| Utils.NthPermutation | utils.py:61-77 | ValueError above `N!`; the arrangement of rank `n - 1` for `1 <= n <= N!`; at or below zero, the wrapped rank of a negative `pop` index, or IndexError (an empty list gives `[]`) |
| Sequential.NthPermutationUnchecked | tspSequencial.py:67-80 | the same, with IndexError instead of ValueError above `N!` |
| Costs.Add | utils.py:83 | the sum is `Inf` exactly when an operand is, and otherwise adds the weights |
| Costs.LessTransitive | tspThreads.py:26 | `<` on weights is transitive |
| Costs.LessTrichotomy | tspThreads.py:26 | any two weights are equal or one is strictly less |
| Costs.PathCostShort | utils.py:80-84 | a path of at most one city costs 0 |
| Costs.PathCostInf | utils.py:80-84 | a path costs `Inf` exactly when one of its hops does |
| Costs.PathCostFinite | utils.py:80-84 | a path with finite hops costs the sum of the hop weights |
| Utils.ComputePathCost | utils.py:80-84 | the loop accumulates `PathCost` |
| Utils.InfRow | utils.py:21 | a row has an entry for every city, each `Inf` |
| Utils.FillRow | utils.py:25-26 | each neighbour's entry becomes its weight, and every other entry is kept |
| Utils.BuildMatrix | utils.py:16-27 | every listed pair of cities gets its adjacency weight, or `Inf` when the adjacency lists none; the city list is the key list in order |
| Utils.FilledComplete | utils.py:16-27 | the filled table has an entry for every ordered pair of cities |
| Partition.BlockSize | tspThreads.py:11-12 | a block has `base + 1` ranks for the first `extra` workers and `base` for the rest |
| Partition.Adjacent | tspThreads.py:11-12 | each block ends where the next one starts |
| Partition.StartMonotone | tspThreads.py:11 | later workers start no earlier |
| Partition.SplitEnds | tspThreads.py:47-49 | with `base = T // W` and `extra = T % W`, the first block starts at 0 and the last ends at `T` |
| Partition.BlockWithin | tspThreads.py:11-12 | every block lies within `[0, T)` |
| Partition.Disjoint | tspThreads.py:11-12 | the blocks of two different workers do not overlap |
| Partition.Owner | tspThreads.py:11-12 | every rank below `T` belongs to exactly one worker's block |
| Partition.LateStartIsEmpty | tspThreads.py:15-16 | a worker that starts at or past `T` has an empty block at `T` |
| Selection.Keep | tspThreads.py:26-28 | the kept pair is the old or the new one, neither is cheaper, and it changes only to a strictly cheaper candidate |
| Selection.FoldFromFirstMinimum | tspSequencial.py:110-126 | starting from a kept pair, the result is the first of least cost among it and the candidates |
| Selection.FoldFirstMinimum | tspThreads.py:8-28 | from `(None, Inf)`: `(None, Inf)` when every candidate costs `Inf`, and otherwise the first finite candidate of least cost |
| Selection.FoldAppend | tspThreads.py:62-65 | reducing two lists in turn is keeping the better of their two results |
| Selection.SpanSplit | tspThreads.py:11-12 | the candidates of `[lo, mid)` then `[mid, hi)` are those of `[lo, hi)` |
| Tours.Tour | tspThreads.py:22 | a tour starts and ends at the anchor, and the cities in between are the arrangement |
| Tours.Cand | tspThreads.py:22-23 | the candidate of an arrangement holds the anchored tour |
| Tours.TourHops | tspThreads.py:22-23 | every hop of an anchored tour can be looked up in a complete table |
| Tours.IteratePermutes | tspThreads.py:31 | repeated successors stay rearrangements of the start |
| Tours.IterateRanks | tspThreads.py:19-31 | `k` successors of the arrangement of rank `r` give the arrangement of rank `r + k` |
| Tours.WalkVisitsRanks | tspThreads.py:19-31 | the tours a block walk costs are those of ranks `inicio .. fim - 1`, in order |
| Tours.RankCandsOptimal | tspThreads.py:35-67 | the reduction over all ranks attains the least cost of all tours; it is `(None, Inf)` only when every tour is `Inf`, and is otherwise the lexicographically first cheapest tour |
| Tours.RankCandsCheapest | tspSequencial.py:105-130 | kept from the sorted arrangement, the result over every rank is a cheapest tour, and the first such in lexicographic order |
| Parallel.FirstOfBlock | tspThreads.py:19 | `nth_permutation(cidades_restantes, inicio + 1)` passes its range check and gives the arrangement of rank `inicio` |
| Parallel.WalkBlock | tspThreads.py:21-31 | the loop keeps the best of the candidates of the walk, and leaves the array `count` successors on |
| Parallel.WalkFrom | tspThreads.py:19-31 | a block's walk from its first arrangement keeps the best of its candidates |
| Parallel.BlockBestLate | tspThreads.py:15-16 | a worker starting at or past `T` returns `(None, Inf)` |
| Parallel.BlockBestIs | tspThreads.py:11-31 | a worker's result is the best candidate of its walk of `fim - inicio` steps |
| Parallel.ProcessBlock | tspThreads.py:6-33 | `processar_bloco` returns `BlockBest`, the best of its block |
| Parallel.RunWorkers | tspThreads.py:52-59 | the results are each worker's `BlockBest`, in worker order |
| Parallel.Reduce | tspThreads.py:62-65 | the reduction keeps the best of the results in order |
| Parallel.BlocksCoverRanks | tspThreads.py:11-65 | for sorted distinct cities, the results of workers `0 .. w - 1` reduce to the best over ranks `0 .. inicio(w) - 1` |
| Parallel.WorkersCoverRanks | tspThreads.py:35-67 | for sorted distinct cities, reducing the worker results is reducing over every rank |
| Parallel.WorkersOptimal | tspThreads.py:35-67 | that reduction is an optimal tour in the sense of `Tours.RankCandsOptimal` |
| Parallel.TspParallelWith | tspThreads.py:35-67 | `tsp_paralelo` with `W >= 1` workers returns the reduction of the workers' results, and for a sorted tail the optimal tour |
| Parallel.TspParallel | tspThreads.py:47 | the same with the code's `num_processos = 4` |
| Sorting.Sort | tspSequencial.py:105 | `sort()` yields an ascending rearrangement of the cities |
| Sorting.SortStrictly | tspSequencial.py:105 | without repeated cities the sorted list is strictly ascending |
| Sequential.SortedTail | tspSequencial.py:96-105 | the array holds the sorted cities after the anchor |
| Sequential.Visit | tspSequencial.py:121-122 | the tour through the array and its cost are the arrangement's candidate |
| Sequential.Advance | tspSequencial.py:118-119 | from rank `r`, the advance succeeds exactly when rank `r + 1` exists, and the array then holds it; a failed advance leaves the array as it was |
| Sequential.Offer | tspSequencial.py:121-126 | the pair kept is the old one or the new candidate, whichever is strictly cheaper |
| Sequential.OddStep | tspSequencial.py:121-126 | the candidate a round costs is that of the odd rank `2 i + 1` |
| Sequential.OddRound | tspSequencial.py:118-130 | one round from rank `2 i` costs rank `2 i + 1` and leaves the array at rank `2 i + 2`, or stops when an advance fails, with the array at the last rank `(n - 1)! - 1` |
| Sequential.OddRounds | tspSequencial.py:113-130 | the loop offers the odd ranks `1, 3, ..` below `(n - 1)!`, in order, to the first tour, and ends with the array at the last rank |
| Sequential.OddCandsAreTours | tspSequencial.py:118-122 | the candidate a round offers is the anchored tour of a rearrangement of the other cities, with its cost |
| Sequential.SeqResultFirstMinimum | tspSequencial.py:108-130 | `tsp` returns the first tour of least cost among rank 0 and the odd ranks; it is never `None`, and it is the anchored tour `all[0], p.., all[0]` of some rearrangement `p` of the other cities, with that tour's cost |
| Sequential.Tsp | tspSequencial.py:90-132 | `tsp` returns `SeqResult`: the sorted arrangement's tour, with the odd ranks offered to it |
| Sequential.TspEveryRank | tspSequencial.py:90-132 | with one advance per round, every rank is offered and the result is a cheapest tour |
| Findings.TspMissesCheapest | tspSequencial.py:113-130 | on four cities the returned cost is `Inf` although a tour of cost 4 exists |

## Left out

- Reading the city file (`carregar_cidades`, with its `eval`), timing, printing, the plots and the file writes are I/O. They are not modelled.
- `multiprocessing.Pool` is modelled as a sequential map over the worker ids that keeps worker order. Process parallelism is not modelled.
- Weights are naturals with an explicit `Inf`, not IEEE floats. Negative and fractional weights are not modelled.
- The dictionaries' key order becomes the given city list. As in the code, a neighbour that is not a key still gets its entry in the row (`Utils.FillRow`), but it is not in the city list, so no tour visits it.
- `list.sort()` is modelled as a function on values (an insertion sort). The in-place sort is not modelled, and neither is Python's sort algorithm.
- `Costs.PathCost` and `Costs.Hop` are total: a hop missing from the table counts as `Inf`. The code would raise KeyError instead. `Utils.ComputePathCost` requires every hop to be present, so no path the searches cost has a missing hop.
- Utils.NextPermutation: requires a non-empty array. On an empty list the code does not return False: `k` starts at -2, so the `k == -1` exit is skipped and the first index raises IndexError.
- Parallel.TspParallelWith: requires at least two cities. With none, `todas_cidades[0]` raises. With one, the walk calls `next_permutation([])`, which raises IndexError.
- Sequential.Tsp: requires at least two cities, and distinct cities (dictionary keys always are). With none, `math.factorial(-1)` raises ValueError (tspSequencial.py:99). With one, `next_permutation([])` raises IndexError (tspSequencial.py:118).
- Parallel.WorkersOptimal: proved only when the cities after the anchor are strictly ascending. `tsp_paralelo` does not sort them. For another order, `nth_permutation` counts ranks by position while `next_permutation` steps by value, so the blocks need not cover every arrangement. The model states what the workers return for any order, but does not characterise it.
- The duplicate helpers in `tspSequencial.py` (gerar_matriz 21-33, next_permutation 36-57, precalcular_fatoriais 60-64, custo_caminho 83-87) are the `Utils` members. `tsp` itself calls none of the unranking code (lines 102 and 117 are comments).
- Python's `*` and `//` on factorials are modelled by `Mul`, `Lead` and `Rem`, which are proved equal to them. Integer width is not an issue, because Python integers are unbounded.

## Findings

| source | as written | input that shows it | evidently intended | confidence | as-written member | corrected member |
|---|---|---|---|---|---|---|
| tspSequencial.py:118-130 | each round calls `next_permutation` twice but costs only the arrangement after the first call, so only ranks 0, 1, 3, 5, .. are costed | cities 0, 1, 2, 3 with roads (weight 1, both directions) only 0-2, 2-1, 1-3 and 3-0: `tsp` returns a tour of cost `Inf`, yet 0, 2, 1, 3, 0 costs 4 | one advance per round, so every arrangement is costed and the cheapest tour is found | not executed | Sequential.Tsp, Findings.TspMissesCheapest | Sequential.TspEveryRank |
