/**
 * The block-partitioned search of `tspThreads.py`: the ranks of the
 * arrangements of the cities after the anchor are split into consecutive
 * blocks, each worker unranks the start of its block and walks it with the
 * lexicographic successor, and the per-worker results are reduced in worker
 * order. The worker pool is modelled as a sequential map over the worker ids.
 */
module Parallel {
  import opened Costs
  import opened Lex
  import opened Ranking
  import opened Selection
  import opened Tours
  import opened Utils
  import opened Partition

  /** `num_processos`. */
  const NumProcesses: nat := 4

  /**
   * What worker `i` returns: `(None, Inf)` when its first rank is past the
   * last one, otherwise the best pair of the walk of its block length from
   * the arrangement of its first rank.
   */
  function BlockBest(m: Matrix, all: seq<int>, rest: seq<int>, i: nat, base: nat, extra: nat): Choice
  {
    var lo := Start(i, base, extra);
    if lo >= Fact(|rest|) then Nothing else Fold(WalkCands(m, all, Unrank(rest, lo), End(i, base, extra) - lo))
  }

  /** The result of each worker id. */
  function BlockBestOf(m: Matrix, all: seq<int>, rest: seq<int>, base: nat, extra: nat): nat -> Choice
  {
    (i: nat) => BlockBest(m, all, rest, i, base, extra)
  }

  /** `pool.map(processar_bloco, args)`: the results of workers `0 .. workers - 1`, in worker order. */
  function WorkerResults(m: Matrix, all: seq<int>, workers: nat): seq<Choice>
    requires |all| >= 1
  {
    var total := Fact(|all| - 1);
    if workers == 0 then [] else Span(BlockBestOf(m, all, all[1..], total / workers, total % workers), 0, workers)
  }

  /** `processar_bloco`: the best pair of the block of worker `id`. */
  method ProcessBlock(id: nat, base: nat, extra: nat, total: nat, rest: seq<int>, all: seq<int>, m: Matrix, factorial: seq<nat>)
    returns (best: Choice)
    requires Complete(m, all) && Arranges(all, rest) && |rest| >= 1
    requires IsFactorialTable(factorial, |rest|) && total == factorial[|rest|]
    ensures best == BlockBest(m, all, rest, id, base, extra)
  {
    assert total == Fact(|rest|);
    var inicio := id * base + Smaller(id, extra);
    var fim := inicio + base + (if id < extra then 1 else 0);
    if inicio >= total {
      BlockBestLate(m, all, rest, id, base, extra, inicio);
      return Nothing;
    }
    best := WalkFrom(m, all, rest, inicio, fim - inicio, factorial);
    BlockBestFrom(m, all, rest, id, base, extra, inicio, fim, best);
  }

  /** Lines 19-31 of `processar_bloco`: unrank the first arrangement of the block, then walk `count` steps. */
  method WalkFrom(m: Matrix, all: seq<int>, rest: seq<int>, inicio: nat, count: nat, factorial: seq<nat>) returns (best: Choice)
    requires Complete(m, all) && Arranges(all, rest) && |rest| >= 1
    requires IsFactorialTable(factorial, |rest|) && inicio < Fact(|rest|)
    ensures best == Fold(WalkCands(m, all, Unrank(rest, inicio), count))
  {
    var p := FirstOfBlock(rest, inicio, factorial);
    var a := new int[|p|](i requires 0 <= i < |p| => p[i]);
    assert a[..] == p;
    best := WalkBlock(m, all, a, count);
  }

  /** `nth_permutation(cidades_restantes, inicio + 1, factorial)` for a rank within range: the arrangement of rank `inicio`. */
  method FirstOfBlock(rest: seq<int>, inicio: nat, factorial: seq<nat>) returns (p: seq<int>)
    requires IsFactorialTable(factorial, |rest|) && inicio < Fact(|rest|)
    ensures p == Unrank(rest, inicio) && multiset(p) == multiset(rest)
  {
    var first := NthPermutation(rest, inicio + 1, factorial);
    UnrankPermutes(rest, inicio);
    match first {
      case Perm(q) => p := q;
      case ValueError => assert false;
      case IndexError => assert false;
    }
  }

  /**
   * The loop of `processar_bloco`: `count` times, cost the closed tour
   * through the array, keep it when strictly cheaper, and step the array
   * to its successor.
   */
  method WalkBlock(m: Matrix, all: seq<int>, a: array<int>, count: nat) returns (best: Choice)
    requires Complete(m, all) && Arranges(all, a[..]) && a.Length >= 1
    modifies a
    ensures best == Fold(WalkCands(m, all, old(a[..]), count))
    ensures a[..] == Iterate(old(a[..]), count)
  {
    var p := a[..];
    best := Nothing;
    var j := 0;
    while j < count
      invariant 0 <= j <= count
      invariant a[..] == Iterate(p, j)
      invariant best == Fold(WalkCands(m, all, p, j))
    {
      var perm := a[..];
      IteratePermutes(p, j);
      TourHops(m, all, perm);
      var tour := [all[0]] + perm + [all[0]];
      var cost := ComputePathCost(m, tour);
      WalkCandIs(m, all, p, j, perm);
      WalkFoldStep(m, all, p, j, j + 1);
      if Less(cost, best.cost) {
        best := Choice(Some(tour), cost);
      }
      var more := NextPermutation(a);
      IterateStep(p, j, j + 1, perm, a[..]);
      j := j + 1;
    }
  }

  /** A block that starts past the last rank yields `(None, Inf)`. */
  lemma {:induction false} BlockBestLate(m: Matrix, all: seq<int>, rest: seq<int>, i: nat, base: nat, extra: nat, lo: nat)
    requires lo == Start(i, base, extra) && lo >= Fact(|rest|)
    ensures BlockBest(m, all, rest, i, base, extra) == Nothing
  {
  }

  /** A block that starts within range yields the best pair of its walk. */
  lemma {:induction false} BlockBestIs(m: Matrix, all: seq<int>, rest: seq<int>, i: nat, base: nat, extra: nat, lo: nat, hi: nat)
    requires lo == Start(i, base, extra) && hi == End(i, base, extra) && lo < Fact(|rest|)
    ensures lo <= hi
    ensures BlockBest(m, all, rest, i, base, extra) == Fold(WalkCands(m, all, Unrank(rest, lo), hi - lo))
  {
  }

  /** The same, for the pair a worker computed by walking its block. */
  lemma {:induction false} BlockBestFrom(m: Matrix, all: seq<int>, rest: seq<int>, i: nat, base: nat, extra: nat, lo: nat, hi: nat, best: Choice)
    requires lo == Start(i, base, extra) && hi == End(i, base, extra) && lo < Fact(|rest|) && lo <= hi
    requires best == Fold(WalkCands(m, all, Unrank(rest, lo), hi - lo))
    ensures best == BlockBest(m, all, rest, i, base, extra)
  {
  }

  /** A worker whose block is empty leaves the reduction as it is. */
  lemma {:induction false} CoverStepLate(m: Matrix, all: seq<int>, rest: seq<int>, total: nat, workers: nat, base: nat, extra: nat,
                                         w1: nat, w: nat, acc: Choice)
    requires total == Fact(|rest|) && Split(workers, total, base, extra) && w == w1 + 1 <= workers
    requires Start(w1, base, extra) >= total
    ensures Keep(acc, BlockBest(m, all, rest, w1, base, extra)) == acc
    ensures Start(w, base, extra) == Start(w1, base, extra)
  {
    LateStartIsEmpty(workers, total, base, extra, w1);
    Adjacent(w1, base, extra);
  }

  /** For a sorted tail, a worker whose block starts within range adds exactly the ranks of its block. */
  lemma {:induction false} CoverStepWalk(m: Matrix, all: seq<int>, rest: seq<int>, total: nat, workers: nat, base: nat, extra: nat,
                                         w1: nat, w: nat)
    requires |all| >= 1 && |rest| >= 1 && StrictlyAscending(rest)
    requires total == Fact(|rest|) && Split(workers, total, base, extra) && w == w1 + 1 <= workers
    requires Start(w1, base, extra) < total
    ensures Keep(Fold(RankCands(m, all, rest, 0, Start(w1, base, extra))), BlockBest(m, all, rest, w1, base, extra))
         == Fold(RankCands(m, all, rest, 0, Start(w, base, extra)))
  {
    var lo, hi := Start(w1, base, extra), End(w1, base, extra);
    Adjacent(w1, base, extra);
    BlockWithin(workers, total, base, extra, w1);
    BlockBestIs(m, all, rest, w1, base, extra, lo, hi);
    var k := hi - lo;
    WalkVisitsRanks(m, all, rest, lo, k, hi);
    SpanSplit(RankCandOf(m, all, rest), 0, lo, hi);
    FoldAppend(RankCands(m, all, rest, 0, lo), RankCands(m, all, rest, lo, hi));
  }

  /**
   * For a sorted tail without repeats, the results of the first `w`
   * workers reduce to the best pair of all ranks before worker `w` starts.
   */
  lemma {:induction false} BlocksCoverRanks(m: Matrix, all: seq<int>, rest: seq<int>, total: nat, workers: nat, base: nat, extra: nat, w: nat)
    requires |all| >= 1 && |rest| >= 1 && StrictlyAscending(rest)
    requires total == Fact(|rest|) && Split(workers, total, base, extra) && w <= workers
    ensures Fold(Span(BlockBestOf(m, all, rest, base, extra), 0, w)) == Fold(RankCands(m, all, rest, 0, Start(w, base, extra)))
  {
    if w > 0 {
      var f := BlockBestOf(m, all, rest, base, extra);
      var w1 := w - 1;
      BlocksCoverRanks(m, all, rest, total, workers, base, extra, w1);
      SpanSnoc(f, 0, w1, w);
      FoldSnoc(Span(f, 0, w1), f(w1));
      assert f(w1) == BlockBest(m, all, rest, w1, base, extra);
      if Start(w1, base, extra) >= total {
        CoverStepLate(m, all, rest, total, workers, base, extra, w1, w, Fold(Span(f, 0, w1)));
      } else {
        CoverStepWalk(m, all, rest, total, workers, base, extra, w1, w);
      }
    }
  }

  /** The results of the workers, taken one after another, are `WorkerResults`. */
  lemma {:induction false} WorkerResultsAre(m: Matrix, all: seq<int>, workers: nat, rest: seq<int>, total: nat, base: nat, extra: nat,
                                            results: seq<Choice>)
    requires |all| >= 1 && workers >= 1 && rest == all[1..] && total == Fact(|rest|)
    requires base == total / workers && extra == total % workers
    requires results == Span(BlockBestOf(m, all, rest, base, extra), 0, workers)
    ensures results == WorkerResults(m, all, workers)
  {
  }

  /**
   * For a sorted tail without repeats, the reduced worker results are the
   * best pair over all ranks, in rank order.
   */
  lemma {:induction false} WorkersCoverRanks(m: Matrix, all: seq<int>, workers: nat, best: Choice)
    requires |all| >= 2 && workers >= 1 && StrictlyAscending(all[1..])
    requires best == Fold(WorkerResults(m, all, workers))
    ensures best == Fold(RankCands(m, all, all[1..], 0, Fact(|all| - 1)))
  {
    var rest := all[1..];
    var total := Fact(|rest|);
    var base, extra := total / workers, total % workers;
    BlocksCoverRanks(m, all, rest, total, workers, base, extra, workers);
    SplitEnds(workers, total, base, extra);
  }

  /** For a sorted tail without repeats, the reduced worker results are optimal. */
  lemma {:induction false} WorkersOptimal(m: Matrix, all: seq<int>, workers: nat, best: Choice)
    requires |all| >= 2 && workers >= 1 && StrictlyAscending(all[1..])
    requires best == Fold(RankCands(m, all, all[1..], 0, Fact(|all| - 1)))
    ensures Optimal(m, all, best)
  {
    RankCandsOptimal(m, all, all[1..]);
  }

  /** `pool.map(processar_bloco, args)`, one worker after another. */
  method RunWorkers(m: Matrix, all: seq<int>, rest: seq<int>, total: nat, workers: nat, base: nat, extra: nat, factorial: seq<nat>)
    returns (results: seq<Choice>)
    requires Complete(m, all) && Arranges(all, rest) && |rest| >= 1
    requires IsFactorialTable(factorial, |rest|) && total == factorial[|rest|]
    ensures results == Span(BlockBestOf(m, all, rest, base, extra), 0, workers)
  {
    var f := BlockBestOf(m, all, rest, base, extra);
    results := [];
    var i := 0;
    while i < workers
      invariant 0 <= i <= workers
      invariant results == Span(f, 0, i)
    {
      var r := ProcessBlock(i, base, extra, total, rest, all, m, factorial);
      SpanSnoc(f, 0, i, i + 1);
      results := results + [r];
      i := i + 1;
    }
  }

  /** Lines 62-65 of `tsp_paralelo`: keep the strictly cheapest result, the earliest on a tie. */
  method Reduce(results: seq<Choice>) returns (best: Choice)
    ensures best == Fold(results)
  {
    best := Nothing;
    var k := 0;
    while k < |results|
      invariant 0 <= k <= |results|
      invariant best == Fold(results[..k])
    {
      FoldSnoc(results[..k], results[k]);
      assert results[..k + 1] == results[..k] + [results[k]];
      if Less(results[k].cost, best.cost) {
        best := results[k];
      }
      k := k + 1;
    }
    assert results[..k] == results;
  }

  /**
   * `tsp_paralelo` with `workers` workers: the reduction, in worker order and
   * with strict `<`, of the workers' results. When the cities after the
   * anchor are sorted and distinct, this is the best pair over all ranks in
   * order, and so an optimal tour.
   */
  method TspParallelWith(m: Matrix, all: seq<int>, workers: nat) returns (best: Choice)
    requires |all| >= 2 && Complete(m, all) && workers >= 1
    ensures best == Fold(WorkerResults(m, all, workers))
    ensures StrictlyAscending(all[1..]) ==> best == Fold(RankCands(m, all, all[1..], 0, Fact(|all| - 1)))
    ensures StrictlyAscending(all[1..]) ==> Optimal(m, all, best)
  {
    var rest := all[1..];
    assert Arranges(all, rest);
    var factorial := PrecomputeFactorial(|rest|);
    var total := factorial[|rest|];
    var base := total / workers;
    var extra := total % workers;
    var results := RunWorkers(m, all, rest, total, workers, base, extra, factorial);
    WorkerResultsAre(m, all, workers, rest, total, base, extra, results);
    best := Reduce(results);
    if StrictlyAscending(rest) {
      WorkersCoverRanks(m, all, workers, best);
      WorkersOptimal(m, all, workers, best);
    }
  }

  /** `tsp_paralelo`: four workers. */
  method TspParallel(m: Matrix, all: seq<int>) returns (best: Choice)
    requires |all| >= 2 && Complete(m, all)
    ensures best == Fold(WorkerResults(m, all, NumProcesses))
    ensures StrictlyAscending(all[1..]) ==> Optimal(m, all, best)
  {
    best := TspParallelWith(m, all, NumProcesses);
  }
}
