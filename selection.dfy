/**
 * Keeping the best tour seen so far. Both searches start from a pair of a
 * tour (or none) and its cost, and replace it only by a strictly cheaper
 * candidate, so that on a tie the earlier tour stays.
 */
module Selection {
  import opened Costs

  datatype Option<T> = None | Some(value: T)

  /** A (tour, cost) pair: `(melhor_caminho, melhor_custo)`. */
  datatype Choice = Choice(tour: Option<seq<int>>, cost: Cost)

  /** `(None, float('inf'))`, the pair a search starts from. */
  const Nothing: Choice := Choice(None, Inf)

  /** `if custo < melhor_custo: melhor = candidato`: the cheaper one, the kept one on a tie. */
  function Keep(best: Choice, x: Choice): (r: Choice)
    ensures r == best || r == x
    ensures !Less(best.cost, r.cost) && !Less(x.cost, r.cost)
    ensures r == x && x != best ==> Less(x.cost, best.cost)
  {
    if Less(x.cost, best.cost) then x else best
  }

  /** Offering the candidates `xs` one by one, in order, to `best`. */
  function FoldFrom(best: Choice, xs: seq<Choice>): Choice
    decreases |xs|
  {
    if xs == [] then best else Keep(FoldFrom(best, xs[..|xs| - 1]), xs[|xs| - 1])
  }

  /** The candidates `xs` offered in order, starting from `(None, Inf)`. */
  function Fold(xs: seq<Choice>): Choice
  {
    FoldFrom(Nothing, xs)
  }

  /** Position `j` of `ys` has the least cost, and every earlier position costs strictly more. */
  ghost predicate IsFirstMinimum(ys: seq<Choice>, j: nat)
  {
    j < |ys| &&
    (forall i :: 0 <= i < |ys| ==> !Less(ys[i].cost, ys[j].cost)) &&
    (forall i :: 0 <= i < j ==> Less(ys[j].cost, ys[i].cost))
  }

  /** Holding the kept value and offering the candidates yields the first minimum of the whole list. */
  lemma {:induction false} FoldFromFirstMinimum(best: Choice, xs: seq<Choice>) returns (j: nat)
    ensures IsFirstMinimum([best] + xs, j) && FoldFrom(best, xs) == ([best] + xs)[j]
    decreases |xs|
  {
    if xs == [] {
      j := 0;
    } else {
      var front, x := xs[..|xs| - 1], xs[|xs| - 1];
      var ys, zs := [best] + front, [best] + xs;
      var j0 := FoldFromFirstMinimum(best, front);
      assert zs == ys + [x];
      var b := FoldFrom(best, front);
      if Less(x.cost, b.cost) {
        j := |xs|;
        forall i | 0 <= i < |zs| ensures !Less(zs[i].cost, x.cost) {
          if i < |ys| {
            if Less(zs[i].cost, x.cost) {
              LessTransitive(zs[i].cost, x.cost, b.cost);
              assert false;
            }
          } else {
            LessIrreflexive(x.cost);
          }
        }
        forall i | 0 <= i < j ensures Less(x.cost, zs[i].cost) {
          assert !Less(ys[i].cost, b.cost);
          LessTrichotomy(ys[i].cost, b.cost);
          if ys[i].cost != b.cost {
            LessTransitive(x.cost, b.cost, ys[i].cost);
          }
        }
      } else {
        j := j0;
        assert zs[j] == b;
        forall i | 0 <= i < |zs| ensures !Less(zs[i].cost, b.cost) {
          if i == |ys| {
            assert zs[i] == x;
          }
        }
      }
    }
  }

  /** A first minimum of a list that does not start at its head is a first minimum of its tail. */
  lemma {:induction false} FirstMinimumTail(x: Choice, xs: seq<Choice>, j: nat)
    requires IsFirstMinimum([x] + xs, j) && j > 0
    ensures IsFirstMinimum(xs, j - 1) && ([x] + xs)[j] == xs[j - 1]
  {
    var ys := [x] + xs;
    forall i | 0 <= i < |xs| ensures !Less(xs[i].cost, xs[j - 1].cost) {
      assert xs[i] == ys[i + 1];
    }
    forall i | 0 <= i < j - 1 ensures Less(xs[j - 1].cost, xs[i].cost) {
      assert xs[i] == ys[i + 1];
    }
  }

  /**
   * From `(None, Inf)`: when every candidate costs `Inf` the pair stays
   * `(None, Inf)`; otherwise the result is the first candidate of least cost,
   * and that cost is finite.
   */
  lemma {:induction false} FoldFirstMinimum(xs: seq<Choice>) returns (j: int)
    ensures -1 <= j < |xs|
    ensures j == -1 <==> forall i :: 0 <= i < |xs| ==> xs[i].cost.Inf?
    ensures j == -1 ==> Fold(xs) == Nothing
    ensures j >= 0 ==> IsFirstMinimum(xs, j) && Fold(xs) == xs[j] && xs[j].cost.Fin?
  {
    var k := FoldFromFirstMinimum(Nothing, xs);
    var ys := [Nothing] + xs;
    if k == 0 {
      j := -1;
      assert ys[0] == Nothing;
      forall i | 0 <= i < |xs| ensures xs[i].cost.Inf? {
        assert ys[i + 1] == xs[i];
        assert !Less(ys[i + 1].cost, Inf);
      }
    } else {
      j := k - 1;
      FirstMinimumTail(Nothing, xs, k);
      assert ys[0] == Nothing && Less(ys[k].cost, ys[0].cost);
    }
  }

  /** Offering candidates one after another can be regrouped. */
  lemma {:induction false} KeepAssociative(a: Choice, b: Choice, c: Choice)
    ensures Keep(Keep(a, b), c) == Keep(a, Keep(b, c))
  {
  }

  /** Offering one more candidate is offering it to the pair kept so far. */
  lemma {:induction false} FoldSnoc(xs: seq<Choice>, x: Choice)
    ensures Fold(xs + [x]) == Keep(Fold(xs), x)
  {
    assert (xs + [x])[..|xs|] == xs;
  }

  /** Offering two lists in turn is offering the best of the second to the best of the first. */
  lemma {:induction false} FoldAppend(xs: seq<Choice>, ys: seq<Choice>)
    ensures Fold(xs + ys) == Keep(Fold(xs), Fold(ys))
    decreases |ys|
  {
    if ys == [] {
      assert xs + ys == xs;
    } else {
      var front, y := ys[..|ys| - 1], ys[|ys| - 1];
      assert (xs + ys)[..|xs + ys| - 1] == xs + front;
      FoldAppend(xs, front);
      KeepAssociative(Fold(xs), Fold(front), y);
    }
  }

  /** The candidates `f(lo), .., f(hi - 1)`, in that order. */
  function Span(f: nat -> Choice, lo: nat, hi: nat): (r: seq<Choice>)
    requires lo <= hi
    ensures |r| == hi - lo
    decreases hi - lo
  {
    if lo == hi then [] else Span(f, lo, hi - 1) + [f(hi - 1)]
  }

  lemma {:induction false} SpanSnoc(f: nat -> Choice, lo: nat, h: nat, hi: nat)
    requires lo <= h && hi == h + 1
    ensures Span(f, lo, hi) == Span(f, lo, h) + [f(h)]
  {
  }

  lemma {:induction false} SpanSplit(f: nat -> Choice, lo: nat, mid: nat, hi: nat)
    requires lo <= mid <= hi
    ensures Span(f, lo, mid) + Span(f, mid, hi) == Span(f, lo, hi)
    decreases hi - mid
  {
    if mid == hi {
      assert Span(f, lo, mid) + [] == Span(f, lo, mid);
    } else {
      var h := hi - 1;
      SpanSplit(f, lo, mid, h);
      SpanSnoc(f, mid, h, hi);
      SpanSnoc(f, lo, h, hi);
      assert Span(f, lo, mid) + (Span(f, mid, h) + [f(h)]) == (Span(f, lo, mid) + Span(f, mid, h)) + [f(h)];
    }
  }

  /** The list starts with `f(lo)`. */
  lemma {:induction false} SpanHead(f: nat -> Choice, lo: nat, lo': nat, hi: nat)
    requires lo < hi && lo' == lo + 1
    ensures [f(lo)] + Span(f, lo', hi) == Span(f, lo, hi)
  {
    SpanSnoc(f, lo, lo, lo');
    SpanSplit(f, lo, lo', hi);
  }

  /** Position `i` of the list is the candidate `f(lo + i)`. */
  lemma {:induction false} SpanAt(f: nat -> Choice, lo: nat, hi: nat, i: nat, r: nat)
    requires lo <= hi && i < hi - lo && r == lo + i
    ensures Span(f, lo, hi)[i] == f(r)
    decreases hi - lo
  {
    var h := hi - 1;
    SpanSnoc(f, lo, h, hi);
    if r < h {
      SpanAt(f, lo, h, i, r);
    }
  }

  /** Offering the next candidate `f(h)` extends the fold over `f(lo), .., f(h - 1)` by one. */
  lemma {:induction false} FoldFromSpanStep(best: Choice, f: nat -> Choice, lo: nat, h: nat, hi: nat)
    requires lo <= h && hi == h + 1
    ensures FoldFrom(best, Span(f, lo, hi)) == Keep(FoldFrom(best, Span(f, lo, h)), f(h))
  {
    SpanSnoc(f, lo, h, hi);
    assert (Span(f, lo, h) + [f(h)])[..hi - lo - 1] == Span(f, lo, h);
  }
}
