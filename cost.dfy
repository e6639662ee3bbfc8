/**
 * Edge weights and path costs.
 *
 * The source stores weights as Python numbers and uses float('inf') for a
 * missing edge. Here a weight is a natural number and `Inf` is a constructor
 * of its own: adding anything to `Inf` gives `Inf`, and `Inf < Inf` is false,
 * as it is for IEEE infinity.
 */
module Costs {

  datatype Cost = Fin(w: nat) | Inf

  /** `a + b` on weights, absorbing infinity. */
  function Add(a: Cost, b: Cost): (r: Cost)
    ensures r.Inf? <==> a.Inf? || b.Inf?
    ensures r.Fin? ==> r.w == a.w + b.w
  {
    if a.Fin? && b.Fin? then Fin(a.w + b.w) else Inf
  }

  /** `a < b` on weights. */
  predicate Less(a: Cost, b: Cost)
  {
    match (a, b)
    case (Fin(x), Fin(y)) => x < y
    case (Fin(_), Inf) => true
    case (Inf, _) => false
  }

  lemma {:induction false} LessIrreflexive(a: Cost)
    ensures !Less(a, a)
  {
  }

  lemma {:induction false} LessTransitive(a: Cost, b: Cost, c: Cost)
    requires Less(a, b) && Less(b, c)
    ensures Less(a, c)
  {
  }

  /** Exactly one of `a < b`, `a == b`, `b < a` holds. */
  lemma {:induction false} LessTrichotomy(a: Cost, b: Cost)
    ensures Less(a, b) || a == b || Less(b, a)
    ensures !(Less(a, b) && Less(b, a))
  {
  }

  /** The city-by-city weight table: `m[c][d]` is the weight of the hop c -> d. */
  type Matrix = map<int, map<int, Cost>>

  /** Every hop of the path `p` can be looked up in `m`. */
  predicate HopsDefined(m: Matrix, p: seq<int>)
  {
    forall i :: 0 <= i < |p| - 1 ==> p[i] in m && p[i + 1] in m[p[i]]
  }

  /** Every ordered pair of cities drawn from `cities` has an entry in `m`. */
  predicate Complete(m: Matrix, cities: seq<int>)
  {
    forall i, j :: 0 <= i < |cities| && 0 <= j < |cities| ==>
      cities[i] in m && cities[j] in m[cities[i]]
  }

  /**
   * The weight of the hop ending at position `i` of `p`. A hop missing
   * from the table counts as `Inf`; the paths the searches cost never
   * have one (see `HopsDefined`).
   */
  function Hop(m: Matrix, p: seq<int>, i: int): Cost
    requires 1 <= i < |p|
  {
    if p[i - 1] in m && p[i] in m[p[i - 1]] then m[p[i - 1]][p[i]] else Inf
  }

  /**
   * The cost of a path: the sum of its hops, accumulated from the front,
   * as custo_caminho does.
   */
  function PathCost(m: Matrix, p: seq<int>): Cost
    decreases |p|
  {
    if |p| <= 1 then Fin(0)
    else Add(PathCost(m, p[..|p| - 1]), Hop(m, p, |p| - 1))
  }

  lemma {:induction false} HopsDefinedPrefix(m: Matrix, p: seq<int>, n: nat)
    requires HopsDefined(m, p) && n <= |p|
    ensures HopsDefined(m, p[..n])
  {
  }

  /** A path of at most one city costs nothing. */
  lemma {:induction false} PathCostShort(m: Matrix, p: seq<int>)
    requires HopsDefined(m, p) && |p| <= 1
    ensures PathCost(m, p) == Fin(0)
  {
  }

  /** A path costs `Inf` exactly when one of its hops does. */
  lemma {:induction false} PathCostInf(m: Matrix, p: seq<int>)
    requires HopsDefined(m, p)
    ensures PathCost(m, p).Inf? <==> exists i :: 1 <= i < |p| && Hop(m, p, i).Inf?
    decreases |p|
  {
    if |p| > 1 {
      var q := p[..|p| - 1];
      PathCostInf(m, q);
      assert forall i :: 1 <= i < |q| ==> Hop(m, q, i) == Hop(m, p, i);
    }
  }

  /** The finite weights of the hops of `p`, with `Inf` counted as 0. */
  function FinWeight(c: Cost): nat
  {
    if c.Fin? then c.w else 0
  }

  /** The sum of the hop weights at positions `1..n-1` of `p`. */
  function HopSum(m: Matrix, p: seq<int>, n: nat): nat
    requires HopsDefined(m, p) && n <= |p|
  {
    if n <= 1 then 0 else HopSum(m, p, n - 1) + FinWeight(Hop(m, p, n - 1))
  }

  /** A path with no infinite hop costs the sum of its hop weights. */
  lemma {:induction false} PathCostFinite(m: Matrix, p: seq<int>)
    requires HopsDefined(m, p)
    requires forall i :: 1 <= i < |p| ==> Hop(m, p, i).Fin?
    ensures PathCost(m, p) == Fin(HopSum(m, p, |p|))
    decreases |p|
  {
    if |p| > 1 {
      var q := p[..|p| - 1];
      assert forall i :: 1 <= i < |q| ==> Hop(m, q, i) == Hop(m, p, i);
      PathCostFinite(m, q);
      HopSumPrefix(m, p, q, |q|);
    }
  }

  lemma {:induction false} HopSumPrefix(m: Matrix, p: seq<int>, q: seq<int>, n: nat)
    requires HopsDefined(m, p) && HopsDefined(m, q)
    requires n <= |q| <= |p| && q == p[..|q|]
    ensures HopSum(m, q, n) == HopSum(m, p, n)
  {
    if n > 1 {
      HopSumPrefix(m, p, q, n - 1);
    }
  }
}
