/**
 * The sequential search of `tspSequencial.py`: sort the cities after the
 * anchor, cost the first arrangement, then step through the successors with
 * `next_permutation`. As written, each round of the loop advances twice but
 * costs only the first of the two arrangements, so only ranks 0, 1, 3, 5, ...
 * are ever costed; `TspEveryRank` is the search with one advance per round.
 */
module Sequential {
  import opened Costs
  import opened Lex
  import opened Ranking
  import opened Selection
  import opened Tours
  import opened Utils
  import opened Sorting
  import opened Successor

  /**
   * The copy of `nth_permutation` in `tspSequencial.py`, which has no range
   * check: in range it is the arrangement of rank `n - 1`; above `|arr|!` the
   * first `pop` raises IndexError; at or below zero it wraps as Python's
   * negative indices do.
   */
  method NthPermutationUnchecked(arr: seq<int>, n: int, factorial: seq<nat>) returns (res: Outcome)
    requires IsFactorialTable(factorial, |arr|)
    ensures 1 <= n <= Fact(|arr|) ==> res == Perm(Unrank(arr, n - 1))
    ensures n > Fact(|arr|) ==> res == if |arr| == 0 then Perm([]) else IndexError
    ensures n <= 0 < n + Fact(|arr|) ==> res == Perm(Unrank(arr, n - 1 + Fact(|arr|)))
    ensures n + Fact(|arr|) <= 0 ==> res == if |arr| == 0 then Perm([]) else IndexError
  {
    res := UnrankLoop(arr, n, factorial);
    if 1 <= n <= Fact(|arr|) {
      PyUnrankInRange(arr, n - 1);
    } else if |arr| == 0 {
    } else if n > Fact(|arr|) {
      PyUnrankTooHigh(arr, n - 1);
    } else if 0 < n + Fact(|arr|) {
      PyUnrankWrap(arr, n - 1);
    } else {
      PyUnrankTooLow(arr, n - 1);
    }
  }

  /** `caminho_atual` and `custo_caminho(matriz, caminho_atual)` for the arrangement in `a`. */
  method Visit(m: Matrix, all: seq<int>, a: array<int>) returns (c: Choice)
    requires Complete(m, all) && Arranges(all, a[..])
    ensures c == Cand(m, all, a[..])
  {
    var tour := [all[0]] + a[..] + [all[0]];
    TourHops(m, all, a[..]);
    var cost := ComputePathCost(m, tour);
    c := Choice(Some(tour), cost);
  }

  /**
   * `next_permutation(cidades_restantes)` on the arrangement of rank `r` of
   * sorted distinct cities: it succeeds exactly when rank `r + 1` exists,
   * and then the array holds that arrangement.
   */
  method Advance(a: array<int>, ghost s: seq<int>, ghost r: nat, ghost r': nat) returns (more: bool)
    requires |s| >= 1 && StrictlyAscending(s) && r < Fact(|s|) && r' == r + 1 && a[..] == Unrank(s, r)
    modifies a
    ensures more <==> r' < Fact(|s|)
    ensures more ==> a[..] == Unrank(s, r')
    ensures !more ==> a[..] == old(a[..])
  {
    UnrankNext(s, r, r');
    more := NextPermutation(a);
    if !more {
      NextPermExhausted(old(a[..]));
    }
  }

  /** Lines 121-126 of `tsp`: cost the tour through `a` and keep it when strictly cheaper than `best`. */
  method Offer(m: Matrix, all: seq<int>, a: array<int>, best: Choice) returns (kept: Choice)
    requires Complete(m, all) && Arranges(all, a[..])
    ensures kept == Keep(best, Cand(m, all, a[..]))
  {
    var c := Visit(m, all, a);
    kept := best;
    if Less(c.cost, best.cost) {
      kept := c;
    }
  }

  /** The candidate of the odd rank `2 j + 1`, or `Nothing` past the last rank. */
  function OddCandOf(m: Matrix, all: seq<int>, s: seq<int>): nat -> Choice
  {
    (j: nat) => if |all| >= 1 && 2 * j + 1 < Fact(|s|) then RankCand(m, all, s, 2 * j + 1) else Nothing
  }

  /**
   * What `tsp` returns: the candidate of the sorted cities, with the
   * candidates of the odd ranks `1, 3, .., ` below `(|all| - 1)!` offered to
   * it in order.
   */
  function SeqResult(m: Matrix, all: seq<int>): Choice
    requires |all| >= 1
  {
    var s := Sort(all[1..]);
    FoldFrom(Cand(m, all, s), Span(OddCandOf(m, all, s), 0, Fact(|s|) / 2))
  }

  /** Every candidate the rounds offer is the anchored tour of a rearrangement of the cities. */
  lemma {:induction false} OddCandsAreTours(m: Matrix, all: seq<int>, s: seq<int>, n: nat, xs: seq<Choice>, i: nat, r: nat)
    returns (p: seq<int>)
    requires Arranges(all, s) && 2 * n <= Fact(|s|) && xs == Span(OddCandOf(m, all, s), 0, n) && i < n && r == 2 * i + 1
    ensures Arranges(all, p) && xs[i] == Cand(m, all, p)
  {
    p := Unrank(s, r);
    ghost var f := OddCandOf(m, all, s);
    SpanAt(f, 0, n, i, i);
    OddCandAt(m, all, s, i, r, p, Cand(m, all, p));
    UnrankPermutes(s, r);
  }

  /**
   * What `tsp` returns is the first candidate of least cost among the sorted
   * arrangement and the odd ranks. It is always the anchored tour of some
   * rearrangement `p` of the cities after the anchor (never `None`), even
   * when every tour costs `Inf`.
   */
  lemma {:induction false} SeqResultFirstMinimum(m: Matrix, all: seq<int>, s: seq<int>, x0: Choice, n: nat, xs: seq<Choice>, best: Choice)
    returns (j: nat, p: seq<int>)
    requires |all| >= 1 && s == Sort(all[1..]) && x0 == Cand(m, all, s) && n == Fact(|s|) / 2
    requires xs == Span(OddCandOf(m, all, s), 0, n) && best == SeqResult(m, all)
    ensures IsFirstMinimum([x0] + xs, j) && best == ([x0] + xs)[j]
    ensures Arranges(all, p) && best == Cand(m, all, p) && best.tour == Some(Tour(all[0], p))
  {
    j := FoldFromFirstMinimum(x0, xs);
    assert Arranges(all, s);
    if j > 0 {
      p := OddCandsAreTours(m, all, s, n, xs, j - 1, 2 * j - 1);
    } else {
      p := s;
    }
  }

  /** The candidate of odd rank `r = 2 i + 1` is the one `OddCandOf` gives at `i`. */
  lemma {:induction false} OddCandAt(m: Matrix, all: seq<int>, s: seq<int>, i: nat, r: nat, q: seq<int>, c: Choice)
    requires |all| >= 1 && r == 2 * i + 1 && r < Fact(|s|) && q == Unrank(s, r) && c == Cand(m, all, q)
    ensures OddCandOf(m, all, s)(i) == c
  {
    RankCandIs(m, all, s, r, q);
  }

  /** The candidate a round of `tsp` costs is that of the odd rank `2 i + 1`. */
  lemma {:induction false} OddStep(m: Matrix, all: seq<int>, s: seq<int>, x0: Choice, i: nat, i': nat, r: nat, q: seq<int>,
                                   best: Choice, kept: Choice)
    requires |all| >= 1 && r == 2 * i + 1 && r < Fact(|s|) && q == Unrank(s, r) && i' == i + 1
    requires best == FoldFrom(x0, Span(OddCandOf(m, all, s), 0, i)) && kept == Keep(best, Cand(m, all, q))
    ensures kept == FoldFrom(x0, Span(OddCandOf(m, all, s), 0, i'))
  {
    ghost var f := OddCandOf(m, all, s);
    OddCandAt(m, all, s, i, r, q, Cand(m, all, q));
    FoldFromSpanStep(x0, f, 0, i, i');
  }

  /** Each round of the search with one advance per round offers the candidate of the next rank. */
  lemma {:induction false} RankStep(m: Matrix, all: seq<int>, s: seq<int>, x0: Choice, r: nat, r': nat, q: seq<int>,
                                    best: Choice, kept: Choice)
    requires |all| >= 1 && r' == r + 1 && r' < Fact(|s|) && q == Unrank(s, r')
    requires best == FoldFrom(x0, Span(RankCandOf(m, all, s), 1, r + 1)) && kept == Keep(best, Cand(m, all, q))
    ensures kept == FoldFrom(x0, Span(RankCandOf(m, all, s), 1, r' + 1))
  {
    FoldFromSpanStep(x0, RankCandOf(m, all, s), 1, r', r' + 1);
  }

  /** The pair held once every odd rank has been offered is `SeqResult`. */
  lemma {:induction false} SeqResultIs(m: Matrix, all: seq<int>, s: seq<int>, x0: Choice, t: nat, n: nat, best: Choice)
    requires |all| >= 1 && s == Sort(all[1..]) && x0 == Cand(m, all, s)
    requires t == Fact(|s|) && (2 * n == t || 2 * n + 1 == t)
    requires best == FoldFrom(x0, Span(OddCandOf(m, all, s), 0, n))
    ensures best == SeqResult(m, all)
  {
    assert n == t / 2;
  }

  /** Once the search with one advance per round stops, every rank has been offered. */
  lemma {:induction false} EveryRankDone(m: Matrix, all: seq<int>, s: seq<int>, t: nat, i: nat, best: Choice)
    requires |all| >= 1 && s == Sort(all[1..]) && StrictlyAscending(s) && t == Fact(|s|) && i + 1 == t
    requires best == FoldFrom(Cand(m, all, s), Span(RankCandOf(m, all, s), 1, i + 1))
    ensures best == FoldFrom(Cand(m, all, Sort(all[1..])), RankCands(m, all, Sort(all[1..]), 1, Fact(|all| - 1)))
    ensures Cheapest(m, all, best)
  {
    RankCandsCheapest(m, all, s);
  }

  /** The sorted cities after the anchor, in a fresh array: `cidades_restantes.sort()`. */
  method SortedTail(all: seq<int>) returns (a: array<int>)
    requires |all| >= 2 && Distinct(all)
    ensures fresh(a) && a[..] == Sort(all[1..]) && a.Length == |all| - 1
    ensures Arranges(all, a[..]) && StrictlyAscending(a[..])
  {
    var rest := Sort(all[1..]);
    assert Distinct(all[1..]);
    SortStrictly(all[1..]);
    a := new int[|rest|](k requires 0 <= k < |rest| => rest[k]);
    assert a[..] == rest;
  }

  /**
   * One round of the loop of `tsp` from the arrangement of rank `r = 2 i`:
   * advance, cost and keep, advance again. It reports whether the search
   * goes on; when it stops, the pair kept has seen every odd rank.
   */
  method OddRound(m: Matrix, all: seq<int>, a: array<int>, ghost s: seq<int>, ghost x0: Choice, i: nat, ghost r: nat, ghost r2: nat,
                  ghost last: nat, best: Choice) returns (more: bool, kept: Choice, ghost n: nat)
    requires Complete(m, all) && Arranges(all, s) && |s| >= 1 && StrictlyAscending(s)
    requires r == 2 * i && r2 == r + 2 && last + 1 == Fact(|s|) && r < Fact(|s|) && a[..] == Unrank(s, r)
    requires best == FoldFrom(x0, Span(OddCandOf(m, all, s), 0, i))
    modifies a
    ensures !more ==> (2 * n == Fact(|s|) || 2 * n + 1 == Fact(|s|)) && kept == FoldFrom(x0, Span(OddCandOf(m, all, s), 0, n))
    ensures more ==> r2 < Fact(|s|) && a[..] == Unrank(s, r2) && kept == FoldFrom(x0, Span(OddCandOf(m, all, s), 0, i + 1))
    ensures !more ==> a[..] == Unrank(s, last)
  {
    ghost var r1 := r + 1;
    more := Advance(a, s, r, r1);
    if !more {
      assert r == last;
      kept, n := best, i;
      return;
    }
    UnrankPermutes(s, r1);
    kept := Offer(m, all, a, best);
    OddStep(m, all, s, x0, i, i + 1, r1, a[..], best, kept);
    more := Advance(a, s, r1, r2);
    if !more {
      assert r1 == last;
    }
    n := i + 1;
  }

  /**
   * `tsp(matriz, todas_cidades)`: the first tour is kept outright; each
   * round then advances, costs the tour and keeps it when strictly
   * cheaper, and advances once more; an advance that finds no successor
   * ends the search.
   */
  method Tsp(m: Matrix, all: seq<int>) returns (best: Choice)
    requires |all| >= 2 && Complete(m, all) && Distinct(all)
    ensures best == SeqResult(m, all)
  {
    var total := Fact(|all| - 1);
    var a := SortedTail(all);
    ghost var s := a[..];
    UnrankFirst(s);
    var first := Visit(m, all, a);
    ghost var n;
    best, n := OddRounds(m, all, a, s, total, total - 1, first);
    SeqResultIs(m, all, s, first, total, n, best);
  }

  /** Lines 113-132 of `tsp`: the rounds, from the sorted arrangement and its candidate. */
  method OddRounds(m: Matrix, all: seq<int>, a: array<int>, ghost s: seq<int>, total: nat, ghost last: nat, first: Choice)
    returns (best: Choice, ghost n: nat)
    requires Complete(m, all) && Arranges(all, s) && |s| >= 1 && StrictlyAscending(s)
    requires total == Fact(|s|) && last + 1 == total && a[..] == Unrank(s, 0)
    modifies a
    ensures 2 * n == total || 2 * n + 1 == total
    ensures best == FoldFrom(first, Span(OddCandOf(m, all, s), 0, n))
    ensures a[..] == Unrank(s, last)
  {
    best := first;
    var i := 0;
    ghost var r: nat := 0;
    while i < total
      invariant r == 2 * i && r < total
      invariant a[..] == Unrank(s, r)
      invariant best == FoldFrom(first, Span(OddCandOf(m, all, s), 0, i))
      decreases total - i
    {
      var more: bool;
      more, best, n := OddRound(m, all, a, s, first, i, r, r + 2, last, best);
      if !more {
        return;
      }
      i, r := i + 1, r + 2;
    }
    assert false;
  }

  /**
   * The search `tsp` evidently intends, with one advance per round: every
   * rank is costed, and the pair kept is the cheapest tour.
   */
  method TspEveryRank(m: Matrix, all: seq<int>) returns (best: Choice)
    requires |all| >= 2 && Complete(m, all) && Distinct(all)
    ensures best == FoldFrom(Cand(m, all, Sort(all[1..])), RankCands(m, all, Sort(all[1..]), 1, Fact(|all| - 1)))
    ensures Cheapest(m, all, best)
  {
    var total := Fact(|all| - 1);
    var a := SortedTail(all);
    ghost var s := a[..];
    assert total == Fact(|s|);
    UnrankFirst(s);
    best := Visit(m, all, a);
    ghost var x0 := best;
    ghost var f := RankCandOf(m, all, s);
    var i := 0;
    ghost var r: nat := 0;
    while i < total
      invariant total == Fact(|s|) && r == i && i < total
      invariant a[..] == Unrank(s, r)
      invariant best == FoldFrom(x0, Span(f, 1, r + 1))
      decreases total - i
    {
      ghost var r1 := r + 1;
      var more := Advance(a, s, r, r1);
      if !more {
        EveryRankDone(m, all, s, total, r, best);
        return;
      }
      UnrankPermutes(s, r1);
      var kept := Offer(m, all, a, best);
      RankStep(m, all, s, x0, r, r1, a[..], best, kept);
      best := kept;
      i, r := i + 1, r1;
    }
    assert false;
  }
}
