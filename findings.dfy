/**
 * A four-city instance on which the sequential search, as written, misses
 * both finite tours (ranks 2 and 4 of `[1, 2, 3]`, each of cost 4): the
 * loop costs ranks 0, 1, 3 and 5 only, and every one of those tours uses a
 * missing road.
 */
module Findings {
  import opened Costs
  import opened Lex
  import opened Ranking
  import opened Selection
  import opened Tours
  import opened Sorting
  import opened Sequential

  const Cities: seq<int> := [0, 1, 2, 3]

  /**
   * The roads 0-2, 2-1, 1-3 and 3-0, each of weight 1 in both directions;
   * every other pair of cities has no road (`Inf`).
   */
  const Roads: Matrix := map[
    0 := map[0 := Inf, 1 := Inf, 2 := Fin(1), 3 := Fin(1)],
    1 := map[0 := Inf, 1 := Inf, 2 := Fin(1), 3 := Fin(1)],
    2 := map[0 := Fin(1), 1 := Fin(1), 2 := Inf, 3 := Inf],
    3 := map[0 := Fin(1), 1 := Fin(1), 2 := Inf, 3 := Inf]]

  lemma SortedCities()
    ensures Sort(Cities[1..]) == [1, 2, 3]
  {
    assert Cities[1..] == [1, 2, 3];
    assert [2, 3][1..] == [3];
    assert [1, 2, 3][1..] == [2, 3];
  }

  lemma OddRanks()
    ensures Fact(3) == 6
    ensures Unrank([1, 2, 3], 1) == [1, 3, 2]
    ensures Unrank([1, 2, 3], 3) == [2, 3, 1]
    ensures Unrank([1, 2, 3], 5) == [3, 2, 1]
  {
  }

  /** A path with a missing hop costs `Inf` whatever follows it. */
  lemma {:induction false} HopBlocked(m: Matrix, p: seq<int>, i: nat, n: nat)
    requires 1 <= i < n <= |p| && Hop(m, p, i).Inf?
    ensures PathCost(m, p[..n]).Inf?
    decreases n
  {
    var q := p[..n];
    assert q[..n - 1] == p[..n - 1];
    if n > i + 1 {
      HopBlocked(m, p, i, n - 1);
    } else {
      assert Hop(m, q, i) == Hop(m, p, i);
    }
  }

  /** The tours through ranks 0, 1, 3 and 5 each use a missing road. */
  lemma {:induction false} BlockedTours()
    ensures Cand(Roads, Cities, [1, 2, 3]).cost == Inf
    ensures Cand(Roads, Cities, [1, 3, 2]).cost == Inf
    ensures Cand(Roads, Cities, [2, 3, 1]).cost == Inf
    ensures Cand(Roads, Cities, [3, 2, 1]).cost == Inf
  {
    var t1, t2, t3, t4 := [0, 1, 2, 3, 0], [0, 1, 3, 2, 0], [0, 2, 3, 1, 0], [0, 3, 2, 1, 0];
    assert Tour(0, [1, 2, 3]) == t1 == t1[..5] && Tour(0, [1, 3, 2]) == t2 == t2[..5];
    assert Tour(0, [2, 3, 1]) == t3 == t3[..5] && Tour(0, [3, 2, 1]) == t4 == t4[..5];
    HopBlocked(Roads, t1, 1, 5);
    HopBlocked(Roads, t2, 1, 5);
    HopBlocked(Roads, t3, 2, 5);
    HopBlocked(Roads, t4, 2, 5);
  }

  /** The tour 0, 2, 1, 3, 0 uses four roads of weight 1. */
  lemma {:induction false} OpenTour()
    ensures Cand(Roads, Cities, [2, 1, 3]).cost == Fin(4)
  {
    var t := [0, 2, 1, 3, 0];
    assert Tour(0, [2, 1, 3]) == t;
    assert t[..4] == [0, 2, 1, 3] && t[..4][..3] == [0, 2, 1] && t[..4][..3][..2] == [0, 2] && t[..4][..3][..2][..1] == [0];
    assert PathCost(Roads, [0, 2]) == Fin(1);
    assert PathCost(Roads, [0, 2, 1]) == Fin(2);
    assert PathCost(Roads, [0, 2, 1, 3]) == Fin(3);
  }

  /** The three rounds of the loop cost ranks 1, 3 and 5, and each of those tours costs `Inf`. */
  lemma {:induction false} RoundCands(f: nat -> Choice, xs: seq<Choice>)
    requires f == OddCandOf(Roads, Cities, [1, 2, 3]) && xs == Span(f, 0, 3)
    ensures forall i :: 0 <= i < |xs| ==> xs[i].cost.Inf?
  {
    var s := [1, 2, 3];
    OddRanks();
    BlockedTours();
    OddCandAt(Roads, Cities, s, 0, 1, [1, 3, 2], Cand(Roads, Cities, [1, 3, 2]));
    OddCandAt(Roads, Cities, s, 1, 3, [2, 3, 1], Cand(Roads, Cities, [2, 3, 1]));
    OddCandAt(Roads, Cities, s, 2, 5, [3, 2, 1], Cand(Roads, Cities, [3, 2, 1]));
    SpanAt(f, 0, 3, 0, 0);
    SpanAt(f, 0, 3, 1, 1);
    SpanAt(f, 0, 3, 2, 2);
    assert |xs| == 3;
  }

  /** Offering candidates that all cost `Inf` never replaces the pair held. */
  lemma {:induction false} FoldFromBlocked(x0: Choice, xs: seq<Choice>)
    requires forall i :: 0 <= i < |xs| ==> xs[i].cost.Inf?
    ensures FoldFrom(x0, xs) == x0
    decreases |xs|
  {
    if xs != [] {
      FoldFromBlocked(x0, xs[..|xs| - 1]);
    }
  }

  /** A tour strictly cheaper than the pair held shows the pair is not the cheapest. */
  lemma {:induction false} NotCheapest(m: Matrix, all: seq<int>, b: Choice, q: seq<int>)
    requires |all| >= 1 && Arranges(all, q) && Less(Cand(m, all, q).cost, b.cost)
    ensures !Cheapest(m, all, b)
  {
  }

  /** No round finds a strictly cheaper tour, so `tsp` returns the sorted arrangement's tour. */
  lemma {:induction false} SeqResultFirst(x0: Choice, f: nat -> Choice, best: Choice)
    requires x0 == Cand(Roads, Cities, [1, 2, 3]) && f == OddCandOf(Roads, Cities, [1, 2, 3])
    requires best == FoldFrom(x0, Span(f, 0, 3))
    ensures SeqResult(Roads, Cities) == x0
  {
    SortedCities();
    OddRanks();
    var xs := Span(f, 0, 3);
    RoundCands(f, xs);
    FoldFromBlocked(x0, xs);
    SeqResultIs(Roads, Cities, [1, 2, 3], x0, 6, 3, best);
  }

  /** Every city has a row, and every row an entry for every city. */
  lemma {:induction false} RoadsComplete()
    ensures Complete(Roads, Cities) && Distinct(Cities)
  {
  }

  /** 2, 1, 3 is an order of the cities after the anchor. */
  lemma {:induction false} OpenArrangement()
    ensures Arranges(Cities, [2, 1, 3])
  {
    assert Cities[1..] == [1] + [2, 3];
    assert [2, 1, 3] == [2] + [1] + [3] && [2, 3] == [2] + [3];
  }

  /**
   * The instance meets everything `tsp` asks of its input, yet the pair it
   * returns costs `Inf` while the arrangement 2, 1, 3 gives a tour of cost 4.
   */
  lemma {:induction false} TspMissesCheapest()
    ensures Complete(Roads, Cities) && Distinct(Cities)
    ensures SeqResult(Roads, Cities).cost == Inf
    ensures Arranges(Cities, [2, 1, 3]) && Cand(Roads, Cities, [2, 1, 3]).cost == Fin(4)
    ensures !Cheapest(Roads, Cities, SeqResult(Roads, Cities))
  {
    var x0 := Cand(Roads, Cities, [1, 2, 3]);
    var f := OddCandOf(Roads, Cities, [1, 2, 3]);
    SeqResultFirst(x0, f, FoldFrom(x0, Span(f, 0, 3)));
    RoadsComplete();
    BlockedTours();
    OpenTour();
    OpenArrangement();
    NotCheapest(Roads, Cities, x0, [2, 1, 3]);
  }
}
