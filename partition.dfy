/**
 * The closed-form split of the ranks `0 .. total - 1` among the workers of
 * the block-partitioned search: worker `i` takes
 * `[i * base + min(i, extra), that + base + (1 if i < extra else 0))`
 * with `base = total // workers` and `extra = total % workers`.
 */
module Partition {

  function Smaller(a: nat, b: nat): nat
  {
    if a < b then a else b
  }

  /** `inicio`: the first rank of worker `i`. */
  function Start(i: nat, base: nat, extra: nat): nat
  {
    i * base + Smaller(i, extra)
  }

  /** `fim`: one past the last rank of worker `i`. */
  function End(i: nat, base: nat, extra: nat): nat
  {
    Start(i, base, extra) + base + (if i < extra then 1 else 0)
  }

  /** The split of `total` ranks among `workers` workers. */
  predicate Split(workers: nat, total: nat, base: nat, extra: nat)
  {
    workers >= 1 && base == total / workers && extra == total % workers
  }

  /** Exactly the first `extra` workers get one rank more than `base`. */
  lemma {:induction false} BlockSize(i: nat, base: nat, extra: nat)
    ensures End(i, base, extra) - Start(i, base, extra) == if i < extra then base + 1 else base
    ensures Start(i, base, extra) <= End(i, base, extra)
  {
  }

  /** Each block ends where the next one starts. */
  lemma {:induction false} Adjacent(i: nat, base: nat, extra: nat)
    ensures End(i, base, extra) == Start(i + 1, base, extra)
  {
    assert (i + 1) * base == i * base + base;
  }

  /** Blocks further on start further on. */
  lemma {:induction false} StartMonotone(i: nat, j: nat, base: nat, extra: nat)
    requires i <= j
    ensures Start(i, base, extra) <= Start(j, base, extra)
    decreases j - i
  {
    if i < j {
      StartMonotone(i, j - 1, base, extra);
      Adjacent(j - 1, base, extra);
    }
  }

  /** The first worker starts at rank 0 and the one after the last starts at `total`. */
  lemma {:induction false} SplitEnds(workers: nat, total: nat, base: nat, extra: nat)
    requires Split(workers, total, base, extra)
    ensures Start(0, base, extra) == 0
    ensures Start(workers, base, extra) == total
    ensures End(workers - 1, base, extra) == total
  {
    assert total == workers * base + extra;
    Adjacent(workers - 1, base, extra);
  }

  /** Every block lies within `0 .. total`. */
  lemma {:induction false} BlockWithin(workers: nat, total: nat, base: nat, extra: nat, i: nat)
    requires Split(workers, total, base, extra) && i < workers
    ensures Start(i, base, extra) <= End(i, base, extra) <= total
  {
    SplitEnds(workers, total, base, extra);
    Adjacent(i, base, extra);
    StartMonotone(i + 1, workers, base, extra);
  }

  /** Blocks of different workers do not overlap. */
  lemma {:induction false} Disjoint(i: nat, j: nat, base: nat, extra: nat)
    requires i < j
    ensures End(i, base, extra) <= Start(j, base, extra)
  {
    Adjacent(i, base, extra);
    StartMonotone(i + 1, j, base, extra);
  }

  /** Each rank below `total` belongs to one worker, and only to that one. */
  lemma {:induction false} Owner(workers: nat, total: nat, base: nat, extra: nat, r: nat) returns (i: nat)
    requires Split(workers, total, base, extra) && r < total
    ensures i < workers && Start(i, base, extra) <= r < End(i, base, extra)
    ensures forall j :: 0 <= j < workers && Start(j, base, extra) <= r < End(j, base, extra) ==> j == i
  {
    SplitEnds(workers, total, base, extra);
    i := 0;
    while End(i, base, extra) <= r
      invariant i < workers && Start(i, base, extra) <= r
      decreases workers - i
    {
      Adjacent(i, base, extra);
      if i + 1 == workers {
        assert false;
      }
      i := i + 1;
    }
    forall j | 0 <= j < workers && Start(j, base, extra) <= r < End(j, base, extra) ensures j == i {
      if j < i {
        Disjoint(j, i, base, extra);
      } else if i < j {
        Disjoint(i, j, base, extra);
      }
    }
  }

  /**
   * A worker whose first rank is `total` or more has an empty block: the
   * early return of `(None, inf)` skips no rank.
   */
  lemma {:induction false} LateStartIsEmpty(workers: nat, total: nat, base: nat, extra: nat, i: nat)
    requires Split(workers, total, base, extra) && i < workers && Start(i, base, extra) >= total
    ensures Start(i, base, extra) == End(i, base, extra) == total
  {
    BlockWithin(workers, total, base, extra, i);
  }
}
