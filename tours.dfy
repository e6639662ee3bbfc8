/**
 * Closed tours through the anchor city and the candidates both searches
 * offer: `[todas_cidades[0]] + permutacao + [todas_cidades[0]]` with its cost.
 */
module Tours {
  import opened Costs
  import opened Lex
  import opened Successor
  import opened Ranking
  import opened Selection

  /** The closed tour that leaves `anchor`, visits `p` in order and comes back. */
  function Tour(anchor: int, p: seq<int>): (t: seq<int>)
    ensures |t| == |p| + 2 && t[0] == anchor && t[|t| - 1] == anchor && t[1..|t| - 1] == p
  {
    [anchor] + p + [anchor]
  }

  /** `p` is a rearrangement of the cities after the anchor. */
  predicate Arranges(all: seq<int>, p: seq<int>)
  {
    |all| >= 1 && multiset(p) == multiset(all[1..])
  }

  /** A city of the list occurs at some position of it. */
  lemma {:induction false} PositionOf(all: seq<int>, x: int) returns (i: nat)
    requires x in all
    ensures i < |all| && all[i] == x
  {
    i :| 0 <= i < |all| && all[i] == x;
  }

  /** Every city of a tour over `all` is one of `all`. */
  lemma {:induction false} TourCities(all: seq<int>, p: seq<int>, k: nat)
    requires Arranges(all, p) && k < |p| + 2
    ensures Tour(all[0], p)[k] in all
  {
    var t := Tour(all[0], p);
    if 0 < k < |t| - 1 {
      assert t[k] == p[k - 1];
      assert p[k - 1] in multiset(all[1..]);
      assert t[k] in all[1..];
    }
  }

  /** In a table complete over `all`, every hop of such a tour can be looked up. */
  lemma {:induction false} TourHops(m: Matrix, all: seq<int>, p: seq<int>)
    requires Complete(m, all) && Arranges(all, p)
    ensures HopsDefined(m, Tour(all[0], p))
  {
    var t := Tour(all[0], p);
    forall k | 0 <= k < |t| - 1 ensures t[k] in m && t[k + 1] in m[t[k]] {
      TourCities(all, p, k);
      TourCities(all, p, k + 1);
      var a := PositionOf(all, t[k]);
      var b := PositionOf(all, t[k + 1]);
      assert all[a] in m && all[b] in m[all[a]];
    }
  }

  /** The candidate a search builds from `p`: the tour and `custo_caminho` of it. */
  function Cand(m: Matrix, all: seq<int>, p: seq<int>): (c: Choice)
    requires |all| >= 1
    ensures c.tour == Some(Tour(all[0], p))
  {
    Choice(Some(Tour(all[0], p)), PathCost(m, Tour(all[0], p)))
  }

  /** The candidate of the tour whose middle is the arrangement of rank `r` of `s`. */
  function RankCand(m: Matrix, all: seq<int>, s: seq<int>, r: nat): Choice
    requires |all| >= 1 && r < Fact(|s|)
  {
    Cand(m, all, Unrank(s, r))
  }

  /** The candidate of each rank of `s`, or `Nothing` past the last rank. */
  function RankCandOf(m: Matrix, all: seq<int>, s: seq<int>): nat -> Choice
  {
    (r: nat) => if |all| >= 1 && r < Fact(|s|) then RankCand(m, all, s, r) else Nothing
  }

  /** The candidates of ranks `lo .. hi - 1`, in rank order. */
  function RankCands(m: Matrix, all: seq<int>, s: seq<int>, lo: nat, hi: nat): seq<Choice>
    requires lo <= hi
  {
    Span(RankCandOf(m, all, s), lo, hi)
  }

  /** `p` after `k` calls of `next_permutation` (a call that reports exhaustion leaves it as it is). */
  function Iterate(p: seq<int>, k: nat): (q: seq<int>)
    requires |p| >= 1
    ensures |q| == |p|
  {
    if k == 0 then p else NextPerm(Iterate(p, k - 1)).1
  }

  /** The walk only ever rearranges the cities. */
  lemma {:induction false} IteratePermutes(p: seq<int>, k: nat)
    requires |p| >= 1
    ensures multiset(Iterate(p, k)) == multiset(p)
  {
    if k > 0 {
      IteratePermutes(p, k - 1);
      NextPermPermutes(Iterate(p, k - 1));
    }
  }

  /** One more step of the walk advances the list it has reached. */
  lemma {:induction false} IterateStep(p: seq<int>, k: nat, k': nat, prev: seq<int>, next: seq<int>)
    requires |p| >= 1 && k' == k + 1 && Iterate(p, k) == prev && NextPerm(prev).1 == next
    ensures Iterate(p, k') == next
  {
  }

  /** From a rank `r` of a sorted list of distinct cities, `k` steps reach rank `t = r + k`. */
  lemma {:induction false} IterateRanks(s: seq<int>, r: nat, k: nat, t: nat)
    requires |s| >= 1 && StrictlyAscending(s) && t < Fact(|s|) && t == r + k
    ensures Iterate(Unrank(s, r), k) == Unrank(s, t)
  {
    if k > 0 {
      var k1, t1 := k - 1, t - 1;
      IterateRanks(s, r, k1, t1);
      UnrankStep(s, t1, t);
      IterateStep(Unrank(s, r), k1, k, Unrank(s, t1), Unrank(s, t));
    }
  }

  /** The candidate of the `i`-th list visited by a walk from `p`. */
  function WalkCand(m: Matrix, all: seq<int>, p: seq<int>, i: nat): Choice
    requires |all| >= 1 && |p| >= 1
  {
    Cand(m, all, Iterate(p, i))
  }

  /** The candidate of each list a walk from `p` visits. */
  function WalkCandOf(m: Matrix, all: seq<int>, p: seq<int>): nat -> Choice
  {
    (i: nat) => if |all| >= 1 && |p| >= 1 then WalkCand(m, all, p, i) else Nothing
  }

  /** The candidates of the first `k` lists a walk from `p` visits. */
  function WalkCands(m: Matrix, all: seq<int>, p: seq<int>, k: nat): seq<Choice>
  {
    Span(WalkCandOf(m, all, p), 0, k)
  }

  /** Step `i` of a walk from rank `lo` of a sorted list is the candidate of rank `lo + i`. */
  lemma {:induction false} WalkCandRank(m: Matrix, all: seq<int>, s: seq<int>, lo: nat, i: nat, r: nat)
    requires |all| >= 1 && |s| >= 1 && StrictlyAscending(s) && r == lo + i && r < Fact(|s|)
    ensures WalkCand(m, all, Unrank(s, lo), i) == RankCand(m, all, s, r)
  {
    IterateRanks(s, lo, i, r);
  }

  /** From rank `lo` of a sorted list of distinct cities, a walk of `k` steps visits ranks `lo .. lo + k - 1`. */
  lemma {:induction false} WalkVisitsRanks(m: Matrix, all: seq<int>, s: seq<int>, lo: nat, k: nat, hi: nat)
    requires |all| >= 1 && |s| >= 1 && StrictlyAscending(s) && hi == lo + k && hi <= Fact(|s|) && lo < Fact(|s|)
    ensures WalkCands(m, all, Unrank(s, lo), k) == RankCands(m, all, s, lo, hi)
  {
    if k > 0 {
      var p, k1, h := Unrank(s, lo), k - 1, hi - 1;
      WalkVisitsRanks(m, all, s, lo, k1, h);
      SpanSnoc(WalkCandOf(m, all, p), 0, k1, k);
      SpanSnoc(RankCandOf(m, all, s), lo, h, hi);
      WalkCandRank(m, all, s, lo, k1, h);
    }
  }

  /** The candidate of a walk's step `j`: the closed tour through the list reached and its cost. */
  lemma {:induction false} WalkCandIs(m: Matrix, all: seq<int>, p: seq<int>, j: nat, q: seq<int>)
    requires |all| >= 1 && |p| >= 1 && q == Iterate(p, j)
    ensures WalkCand(m, all, p, j) == Choice(Some(Tour(all[0], q)), PathCost(m, Tour(all[0], q)))
  {
  }

  /** Folding one more step of a walk offers that step's candidate to the pair kept so far. */
  lemma {:induction false} WalkFoldStep(m: Matrix, all: seq<int>, p: seq<int>, j: nat, j': nat)
    requires |all| >= 1 && |p| >= 1 && j' == j + 1
    ensures Fold(WalkCands(m, all, p, j')) == Keep(Fold(WalkCands(m, all, p, j)), WalkCand(m, all, p, j))
  {
    SpanSnoc(WalkCandOf(m, all, p), 0, j, j');
    FoldSnoc(WalkCands(m, all, p, j), WalkCand(m, all, p, j));
  }

  /** Position `i` of the candidates of ranks from `lo` is the candidate of rank `lo + i`. */
  lemma {:induction false} RankCandAt(m: Matrix, all: seq<int>, s: seq<int>, lo: nat, hi: nat, i: nat, r: nat)
    requires |all| >= 1 && lo <= hi <= Fact(|s|) && i < hi - lo && r == lo + i
    ensures RankCands(m, all, s, lo, hi)[i] == RankCand(m, all, s, r)
  {
    SpanAt(RankCandOf(m, all, s), lo, hi, i, r);
  }

  /**
   * `b` is what an exhaustive search over the tours through the anchor
   * must return: no tour is cheaper than `b`; `b` is `(None, Inf)` exactly
   * when every tour costs `Inf`; otherwise `b` is the candidate of a tour
   * of finite cost, and every tour whose middle comes before it in
   * lexicographic order costs strictly more.
   */
  ghost predicate Optimal(m: Matrix, all: seq<int>, b: Choice)
    requires |all| >= 1
  {
    (forall p :: Arranges(all, p) ==> !Less(Cand(m, all, p).cost, b.cost)) &&
    (b.tour.None? ==> b == Nothing && forall p :: Arranges(all, p) ==> Cand(m, all, p).cost.Inf?) &&
    (b.tour.Some? ==>
      exists p :: Arranges(all, p) && b == Cand(m, all, p) && b.cost.Fin? &&
        forall q :: Arranges(all, q) && LexLess(q, p) ==> Less(b.cost, Cand(m, all, q).cost))
  }

  /** Offering the candidates of all ranks of a sorted list of distinct cities, in rank order, is optimal. */
  lemma {:induction false} RankCandsOptimal(m: Matrix, all: seq<int>, s: seq<int>)
    requires Arranges(all, s) && StrictlyAscending(s)
    ensures Optimal(m, all, Fold(RankCands(m, all, s, 0, Fact(|s|))))
  {
    var t := Fact(|s|);
    var xs := RankCands(m, all, s, 0, t);
    var b := Fold(xs);
    var j := FoldFirstMinimum(xs);
    if j >= 0 {
      NoneCheaper(m, all, s, t, j, b);
      EarlierCostlier(m, all, s, t, j, b);
      var p := Unrank(s, j);
      UnrankPermutes(s, j);
      RankCandAt(m, all, s, 0, t, j, j);
      assert Arranges(all, p) && b == Cand(m, all, p);
    } else {
      forall p | Arranges(all, p) ensures Cand(m, all, p).cost.Inf? {
        var r := Rank(s, p);
        UnrankRank(s, p);
        RankCandAt(m, all, s, 0, t, r, r);
      }
    }
  }

  /** The candidate of rank `r`: the closed tour through the arrangement of that rank and its cost. */
  lemma {:induction false} RankCandIs(m: Matrix, all: seq<int>, s: seq<int>, r: nat, q: seq<int>)
    requires |all| >= 1 && r < Fact(|s|) && q == Unrank(s, r)
    ensures RankCand(m, all, s, r) == Choice(Some(Tour(all[0], q)), PathCost(m, Tour(all[0], q)))
  {
  }

  /**
   * `b` is the candidate of some arrangement, no tour is cheaper, and every
   * tour whose middle comes before it in lexicographic order costs strictly
   * more. Unlike `Optimal`, the kept tour may cost `Inf`.
   */
  ghost predicate Cheapest(m: Matrix, all: seq<int>, b: Choice)
    requires |all| >= 1
  {
    exists p :: Arranges(all, p) && b == Cand(m, all, p) &&
      (forall q :: Arranges(all, q) ==> !Less(Cand(m, all, q).cost, b.cost)) &&
      (forall q :: Arranges(all, q) && LexLess(q, p) ==> Less(b.cost, Cand(m, all, q).cost))
  }

  /** Rank 0 of a list is the list itself, so its candidate is the list's own. */
  lemma {:induction false} RankCandFirst(m: Matrix, all: seq<int>, s: seq<int>, x0: Choice)
    requires |all| >= 1 && x0 == Cand(m, all, s)
    ensures x0 == RankCand(m, all, s, 0)
  {
    UnrankFirst(s);
  }

  /** The candidates of all ranks start with the one of rank 0. */
  lemma {:induction false} RankCandsHead(m: Matrix, all: seq<int>, s: seq<int>, t: nat, x0: Choice)
    requires |all| >= 1 && t == Fact(|s|) && x0 == RankCand(m, all, s, 0)
    ensures [x0] + RankCands(m, all, s, 1, t) == RankCands(m, all, s, 0, t)
  {
    SpanHead(RankCandOf(m, all, s), 0, 1, t);
  }

  /** A least-cost candidate over all ranks: no tour is cheaper. */
  lemma {:induction false} NoneCheaper(m: Matrix, all: seq<int>, s: seq<int>, t: nat, j: nat, b: Choice)
    requires Arranges(all, s) && t == Fact(|s|)
    requires IsFirstMinimum(RankCands(m, all, s, 0, t), j) && b == RankCands(m, all, s, 0, t)[j]
    ensures forall q :: Arranges(all, q) ==> !Less(Cand(m, all, q).cost, b.cost)
  {
    forall q | Arranges(all, q) ensures !Less(Cand(m, all, q).cost, b.cost) {
      var r := Rank(s, q);
      UnrankRank(s, q);
      RankCandAt(m, all, s, 0, t, r, r);
    }
  }

  /** A first least-cost candidate over the ranks of sorted distinct cities: every tour before it costs more. */
  lemma {:induction false} EarlierCostlier(m: Matrix, all: seq<int>, s: seq<int>, t: nat, j: nat, b: Choice)
    requires Arranges(all, s) && StrictlyAscending(s) && t == Fact(|s|)
    requires IsFirstMinimum(RankCands(m, all, s, 0, t), j) && b == RankCands(m, all, s, 0, t)[j]
    ensures forall q :: Arranges(all, q) && LexLess(q, Unrank(s, j)) ==> Less(b.cost, Cand(m, all, q).cost)
  {
    forall q | Arranges(all, q) && LexLess(q, Unrank(s, j)) ensures Less(b.cost, Cand(m, all, q).cost) {
      var r := Rank(s, q);
      UnrankRank(s, q);
      UnrankLexIff(s, r, j);
      RankCandAt(m, all, s, 0, t, r, r);
    }
  }

  /** The first cheapest candidate over all ranks of a sorted list of distinct cities is the cheapest tour. */
  lemma {:induction false} FirstMinimumCheapest(m: Matrix, all: seq<int>, s: seq<int>, t: nat, j: nat, b: Choice)
    requires Arranges(all, s) && StrictlyAscending(s) && t == Fact(|s|)
    requires IsFirstMinimum(RankCands(m, all, s, 0, t), j) && b == RankCands(m, all, s, 0, t)[j]
    ensures Cheapest(m, all, b)
  {
    NoneCheaper(m, all, s, t, j, b);
    EarlierCostlier(m, all, s, t, j, b);
    var p := Unrank(s, j);
    UnrankPermutes(s, j);
    RankCandAt(m, all, s, 0, t, j, j);
    assert Arranges(all, p) && b == Cand(m, all, p);
  }

  /**
   * Keeping the first sorted arrangement's candidate and offering those of
   * all later ranks, in rank order, yields the cheapest tour.
   */
  lemma {:induction false} RankCandsCheapest(m: Matrix, all: seq<int>, s: seq<int>)
    requires Arranges(all, s) && StrictlyAscending(s)
    ensures Cheapest(m, all, FoldFrom(Cand(m, all, s), RankCands(m, all, s, 1, Fact(|s|))))
  {
    var t := Fact(|s|);
    var x0, xs := Cand(m, all, s), RankCands(m, all, s, 1, t);
    var j := FoldFromFirstMinimum(x0, xs);
    RankCandFirst(m, all, s, x0);
    RankCandsHead(m, all, s, t, x0);
    FirstMinimumCheapest(m, all, s, t, j, ([x0] + xs)[j]);
  }
}
