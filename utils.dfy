/**
 * The permutation toolkit and the path-cost helpers: in-place successor,
 * factorial table, 1-based unranking with Python's integer semantics, path
 * cost and the weight table.
 */
module Utils {
  import opened Costs
  import opened Lex
  import opened Successor
  import opened Ranking

  /**
   * `next_permutation`: Algorithm L on `a` in place. The slice assignment of
   * the reversed suffix is a simultaneous assignment to the positions after `k`.
   */
  method NextPermutation(a: array<int>) returns (found: bool)
    requires a.Length >= 1
    modifies a
    ensures found == NextPerm(old(a[..])).0 && a[..] == NextPerm(old(a[..])).1
  {
    ghost var s := a[..];
    var n := a.Length;
    var k := n - 2;
    while k >= 0 && a[k] >= a[k + 1]
      invariant -1 <= k <= n - 2
      invariant PivotFrom(s, k) == Pivot(s)
      decreases k + 1
    {
      k := k - 1;
    }
    if k == -1 {
      assert Pivot(s) == -1;
      return false;
    }
    var l := n - 1;
    while a[k] >= a[l]
      invariant k < l <= n - 1
      invariant CeilFrom(s, k, l) == CeilFrom(s, k, n - 1)
      decreases l
    {
      l := l - 1;
    }
    assert k == Pivot(s) && l == CeilFrom(s, k, n - 1);
    a[k], a[l] := a[l], a[k];
    assert a[..] == Swapped(s);
    ReverseSuffix(a, k);
    NextPermUnfold(s);
    return true;
  }

  /** `arr[k + 1:] = reversed(arr[k + 1:])`, one simultaneous assignment. */
  method ReverseSuffix(a: array<int>, k: nat)
    requires k < a.Length
    modifies a
    ensures a[..] == old(a[..])[..k + 1] + Reverse(old(a[..])[k + 1..])
  {
    var w := a[..];
    var n := a.Length;
    forall p | k + 1 <= p < n {
      a[p] := w[n + k - p];
    }
    ReversedAfter(a[..], w, k);
  }

  /** A sequence that keeps `w` up to `k` and holds `w` back to front after `k`. */
  lemma {:induction false} ReversedAfter(r: seq<int>, w: seq<int>, k: nat)
    requires k < |w| == |r|
    requires forall p :: 0 <= p <= k ==> r[p] == w[p]
    requires forall p :: k + 1 <= p < |w| ==> r[p] == w[|w| + k - p]
    ensures r == w[..k + 1] + Reverse(w[k + 1..])
  {
    var t := w[..k + 1] + Reverse(w[k + 1..]);
    ReverseAt(w[k + 1..]);
    forall p | 0 <= p < |r| ensures r[p] == t[p] {
      if p > k {
        assert t[p] == Reverse(w[k + 1..])[p - k - 1];
      }
    }
  }

  /** `factorial[i] == i!` for every `i <= n`. */
  predicate IsFactorialTable(f: seq<nat>, n: nat)
  {
    n < |f| && forall i :: 0 <= i <= n ==> f[i] == Fact(i)
  }

  /** `precompute_factorial(n)`. */
  method PrecomputeFactorial(n: nat) returns (f: seq<nat>)
    ensures |f| == n + 1 && IsFactorialTable(f, n)
  {
    f := seq(n + 1, _ => 1);
    var i := 2;
    while i <= n
      invariant 2 <= i <= n + 2 && |f| == n + 1
      invariant forall j {:trigger f[j]} :: 0 <= j < i && j <= n ==> f[j] == Fact(j)
      invariant forall j :: i <= j <= n ==> f[j] == 1
    {
      MulIsTimes(i, Fact(i - 1));
      f := f[i := f[i - 1] * i];
      i := i + 1;
    }
  }

  /** What a call that may raise returns: a list, or the exception it raises. */
  datatype Outcome = Perm(p: seq<int>) | ValueError | IndexError

  /** `p` in front of the list an outcome carries; exceptions pass through. */
  function Prepend(p: seq<int>, o: Outcome): (r: Outcome)
    ensures o.Perm? <==> r.Perm?
    ensures o.Perm? ==> r.p == p + o.p
    ensures !o.Perm? ==> r == o
  {
    if o.Perm? then Perm(p + o.p) else o
  }

  lemma {:induction false} PrependAppend(p: seq<int>, x: seq<int>, o: Outcome)
    ensures Prepend(p + x, o) == Prepend(p, Prepend(x, o))
  {
    if o.Perm? {
      assert p + x + o.p == p + (x + o.p);
    }
  }

  /**
   * Python's `n // f` for a positive divisor: the quotient rounded towards
   * minus infinity. Written by repeated addition below zero, and as `Lead`
   * at or above it.
   */
  function FloorDiv(n: int, f: nat): int
    requires f > 0
    decreases if n < 0 then -n else 0
  {
    if n < 0 then FloorDiv(n + f, f) - 1 else Lead(n, f)
  }

  /** Python's `n % f` for a positive divisor: never negative. */
  function FloorMod(n: int, f: nat): (m: nat)
    requires f > 0
    ensures m < f
    decreases if n < 0 then -n else 0
  {
    if n < 0 then FloorMod(n + f, f) else Rem(n, f)
  }

  /** Floor division splits `n` into quotient and remainder. */
  lemma {:induction false} FloorParts(n: int, f: nat)
    requires f > 0
    ensures n == FloorDiv(n, f) * f + FloorMod(n, f)
    decreases if n < 0 then -n else 0
  {
    if n < 0 {
      FloorParts(n + f, f);
      assert (FloorDiv(n, f) + 1) * f == FloorDiv(n, f) * f + f;
    } else {
      LeadRemParts(n, f);
      MulIsTimes(Lead(n, f), f);
    }
  }

  /** The floor operators agree with Dafny's `/` and `%` on a positive divisor. */
  lemma {:induction false} FloorDivIsDiv(n: int, f: nat)
    requires f > 0
    ensures FloorDiv(n, f) == n / f && FloorMod(n, f) == n % f
  {
    FloorParts(n, f);
    DivUnique(n, FloorDiv(n, f), FloorMod(n, f), f);
  }

  /** `x == a * f + b` with `0 <= b < f` determines the quotient and the remainder. */
  lemma {:induction false} DivUnique(x: int, a: int, b: int, f: int)
    requires f > 0 && 0 <= b < f && x == a * f + b
    ensures x / f == a && x % f == b
  {
    var q, m := x / f, x % f;
    assert x == q * f + m;
    assert (a - q) * f == m - b;
    if a > q {
      MulAtLeast(a - q, f);
      assert false;
    } else if a < q {
      MulAtLeast(q - a, f);
      assert false;
    }
  }

  lemma {:induction false} MulAtLeast(c: int, f: int)
    requires c >= 1 && f > 0
    ensures c * f >= f
  {
    assert c * f == (c - 1) * f + f;
  }

  /** Adding the divisor adds one to the quotient and keeps the remainder. */
  lemma {:induction false} FloorShiftOne(n: int, f: nat)
    requires f > 0
    ensures FloorDiv(n + f, f) == FloorDiv(n, f) + 1 && FloorMod(n + f, f) == FloorMod(n, f)
  {
  }

  /** Adding `k` times the divisor adds `k` to the quotient and keeps the remainder. */
  lemma {:induction false} FloorShift(n: int, k: nat, f: nat)
    requires f > 0
    ensures FloorDiv(n + Mul(k, f), f) == FloorDiv(n, f) + k
    ensures FloorMod(n + Mul(k, f), f) == FloorMod(n, f)
  {
    if k > 0 {
      var m := n + Mul(k - 1, f);
      FloorShift(n, k - 1, f);
      FloorShiftOne(m, f);
      assert n + Mul(k, f) == m + f;
    }
  }

  /** A negative number has a negative quotient. */
  lemma {:induction false} FloorNegative(n: int, f: nat)
    requires f > 0 && n < 0
    ensures FloorDiv(n, f) < 0
    decreases -n
  {
    if n + f < 0 {
      FloorNegative(n + f, f);
    }
  }

  /**
   * The unranking loop of `nth_permutation` started from the value `n` of the
   * (zero-based) rank, with Python's operators: `n // fact` and `n % fact`
   * round towards minus infinity, and `list.pop(index)` counts a negative
   * index from the end and raises IndexError outside `-len <= index < len`.
   */
  function PyUnrank(e: seq<int>, n: int): Outcome
    decreases |e|
  {
    if |e| == 0 then Perm([])
    else
      var f := Fact(|e| - 1);
      var index := FloorDiv(n, f);
      if index < -|e| || index >= |e| then IndexError
      else
        var pos := if index < 0 then |e| + index else index;
        Prepend([e[pos]], PyUnrank(RemoveAt(e, pos), FloorMod(n, f)))
  }

  /** One round of the loop: the quotient, read from the end when negative, picks the head. */
  lemma {:induction false} PyUnrankStep(e: seq<int>, n: int, pos: nat, m: nat, rest: Outcome)
    requires pos < |e|
    requires FloorDiv(n, Fact(|e| - 1)) == pos || FloorDiv(n, Fact(|e| - 1)) == pos - |e|
    requires FloorMod(n, Fact(|e| - 1)) == m
    requires rest == PyUnrank(RemoveAt(e, pos), m)
    ensures PyUnrank(e, n) == Prepend([e[pos]], rest)
  {
  }

  /** At or above zero the floor operators are `Lead` and `Rem`. */
  lemma {:induction false} FloorNatural(n: nat, f: nat)
    requires f > 0
    ensures FloorDiv(n, f) == Lead(n, f) && FloorMod(n, f) == Rem(n, f)
  {
  }

  /** Putting the head in front of the rest of the arrangement. */
  lemma {:induction false} PyUnrankJoin(o: Outcome, head: int, rest: Outcome, tail: seq<int>, u: seq<int>)
    requires o == Prepend([head], rest) && rest == Perm(tail) && u == [head] + tail
    ensures o == Perm(u)
  {
  }

  /** On a rank in range the Python loop is `Unrank`. */
  lemma {:induction false} PyUnrankInRange(e: seq<int>, n: int)
    requires 0 <= n < Fact(|e|)
    ensures PyUnrank(e, n) == Perm(Unrank(e, n))
    decreases |e|
  {
    if |e| > 0 {
      var f := Fact(|e| - 1);
      UnrankCons(e, n);
      FloorNatural(n, f);
      var d, q := Lead(n, f), Rem(n, f);
      var t := RemoveAt(e, d);
      PyUnrankInRange(t, q);
      PyUnrankStep(e, n, d, q, PyUnrank(t, q));
      PyUnrankJoin(PyUnrank(e, n), e[d], PyUnrank(t, q), Unrank(t, q), Unrank(e, n));
    }
  }

  /** The first round below zero: the quotient counts back from the end. */
  lemma {:induction false} WrapHead(e: seq<int>, n: int) returns (d: nat, q: nat)
    requires 0 < |e| && n < 0 <= n + Fact(|e|)
    ensures d < |e| && q < Fact(|e| - 1)
    ensures FloorDiv(n, Fact(|e| - 1)) == d - |e| && FloorMod(n, Fact(|e| - 1)) == q
    ensures Unrank(e, n + Fact(|e|)) == [e[d]] + Unrank(RemoveAt(e, d), q)
  {
    var N := |e|;
    var f := Fact(N - 1);
    var r: nat := n + Fact(N);
    assert r == n + Mul(N, f);
    FloorShift(n, N, f);
    FloorNatural(r, f);
    UnrankCons(e, r);
    d, q := Lead(r, f), Rem(r, f);
  }

  /** A negative rank down to `-|e|!` wraps around, as Python's negative indices do. */
  lemma {:induction false} PyUnrankWrap(e: seq<int>, n: int)
    requires n < 0 <= n + Fact(|e|)
    ensures PyUnrank(e, n) == Perm(Unrank(e, n + Fact(|e|)))
  {
    if |e| == 0 {
      assert n + Fact(0) == 0;
    } else {
      var d, q := WrapHead(e, n);
      var t := RemoveAt(e, d);
      PyUnrankInRange(t, q);
      PyUnrankStep(e, n, d, q, PyUnrank(t, q));
      PyUnrankJoin(PyUnrank(e, n), e[d], PyUnrank(t, q), Unrank(t, q), Unrank(e, n + Fact(|e|)));
    }
  }

  /** A rank below `-|e|!` makes the first `pop` raise IndexError. */
  lemma {:induction false} PyUnrankTooLow(e: seq<int>, n: int)
    requires |e| >= 1 && n + Fact(|e|) < 0
    ensures PyUnrank(e, n) == IndexError
  {
    var f := Fact(|e| - 1);
    FloorShift(n, |e|, f);
    FloorNegative(n + Mul(|e|, f), f);
  }

  /** A rank of `|e|!` or more makes the first `pop` raise IndexError. */
  lemma {:induction false} PyUnrankTooHigh(e: seq<int>, n: int)
    requires |e| >= 1 && n >= Fact(|e|)
    ensures PyUnrank(e, n) == IndexError
  {
    var f := Fact(|e| - 1);
    FloorShift(n - Mul(|e|, f), |e|, f);
    assert n - Mul(|e|, f) + Mul(|e|, f) == n;
  }

  /**
   * The loop of `nth_permutation` (and the whole of the copy without a range
   * check): `n -= 1`, then one digit per position, popped from a copy of `arr`.
   */
  method UnrankLoop(arr: seq<int>, n0: int, factorial: seq<nat>) returns (res: Outcome)
    requires IsFactorialTable(factorial, |arr|)
    ensures res == PyUnrank(arr, n0 - 1)
  {
    var permutation: seq<int> := [];
    var elements := arr;
    var n := n0 - 1;
    var i := |arr|;
    while i > 0
      invariant 0 <= i == |elements| <= |arr|
      invariant Prepend(permutation, PyUnrank(elements, n)) == PyUnrank(arr, n0 - 1)
      decreases i
    {
      var fact := factorial[i - 1];
      FloorDivIsDiv(n, fact);
      var index := n / fact;
      if index < -|elements| || index >= |elements| {
        return IndexError;
      }
      var pos := if index < 0 then |elements| + index else index;
      PrependAppend(permutation, [elements[pos]], PyUnrank(RemoveAt(elements, pos), n % fact));
      permutation := permutation + [elements[pos]];
      elements := RemoveAt(elements, pos);
      n := n % fact;
      i := i - 1;
    }
    assert permutation + [] == permutation;
    return Perm(permutation);
  }

  /**
   * `nth_permutation(arr, n, factorial)`: ValueError above `|arr|!`; in range,
   * the arrangement of (zero-based) rank `n - 1`; at or below zero, Python's
   * wrap-around until the first `pop` index falls off the list.
   */
  method NthPermutation(arr: seq<int>, n: int, factorial: seq<nat>) returns (res: Outcome)
    requires IsFactorialTable(factorial, |arr|)
    ensures n > Fact(|arr|) ==> res == ValueError
    ensures 1 <= n <= Fact(|arr|) ==> res == Perm(Unrank(arr, n - 1))
    ensures n <= 0 < n + Fact(|arr|) ==> res == Perm(Unrank(arr, n - 1 + Fact(|arr|)))
    ensures n + Fact(|arr|) <= 0 ==> res == if |arr| == 0 then Perm([]) else IndexError
  {
    if n > factorial[|arr|] {
      return ValueError;
    }
    res := UnrankLoop(arr, n, factorial);
    if 1 <= n {
      PyUnrankInRange(arr, n - 1);
    } else if 0 < n + Fact(|arr|) {
      PyUnrankWrap(arr, n - 1);
    } else if |arr| > 0 {
      PyUnrankTooLow(arr, n - 1);
    }
  }

  /** `custo_caminho(matriz, caminho)`: the hop weights summed from the front. */
  method ComputePathCost(m: Matrix, p: seq<int>) returns (c: Cost)
    requires HopsDefined(m, p)
    ensures c == PathCost(m, p)
  {
    c := Fin(0);
    var i := 1;
    while i < |p|
      invariant 1 <= i
      invariant i <= |p| ==> c == PathCost(m, p[..i])
      invariant i > |p| ==> |p| == 0 && c == Fin(0)
    {
      HopsDefinedPrefix(m, p, i + 1);
      assert p[..i + 1][..i] == p[..i];
      c := Add(c, m[p[i - 1]][p[i]]);
      i := i + 1;
    }
    if |p| > 0 {
      assert p[..|p|] == p;
    }
  }

  /**
   * The adjacency dictionary: its keys in insertion order, and for each city
   * the weight of each listed neighbour.
   */
  ghost predicate Adjacency(keys: seq<int>, adj: map<int, map<int, nat>>)
  {
    Distinct(keys) && forall c :: c in adj <==> c in keys
  }

  /** The weight `gerar_matriz` gives the hop c -> d: the listed one, else infinity. */
  function Weight(adj: map<int, map<int, nat>>, c: int, d: int): Cost
    requires c in adj
  {
    if d in adj[c] then Fin(adj[c][d]) else Inf
  }

  /** The row every city starts with: infinity towards every city. */
  function InfRow(keys: seq<int>): (row: map<int, Cost>)
    ensures forall d :: d in row <==> d in keys
    ensures forall d :: d in row ==> row[d] == Inf
  {
    map d | d in keys :: Inf
  }

  /** Row `c` of `m` once its neighbours are written in: over the cities and the neighbours. */
  ghost predicate RowFilled(m: Matrix, keys: seq<int>, adj: map<int, map<int, nat>>, c: int)
    requires c in adj
  {
    c in m &&
    (forall d :: d in m[c] <==> d in keys || d in adj[c]) &&
    (forall d :: d in m[c] ==> m[c][d] == Weight(adj, c, d))
  }

  /** Some element of a non-empty set. */
  method Pick<T>(s: set<T>) returns (x: T)
    requires s != {}
    ensures x in s
  {
    x :| x in s;
  }

  /** Whether row `c` is filled depends on that row alone. */
  lemma {:induction false} RowFilledFrame(m: Matrix, m': Matrix, keys: seq<int>, adj: map<int, map<int, nat>>, c: int)
    requires c in adj && RowFilled(m, keys, adj, c)
    requires c in m' && m'[c] == m[c]
    ensures RowFilled(m', keys, adj, c)
  {
  }

  /** The infinite row with the neighbours of `c` written in is row `c` filled. */
  lemma {:induction false} FillRowFilled(m: Matrix, keys: seq<int>, adj: map<int, map<int, nat>>, c: int, row: map<int, Cost>)
    requires c in adj && c in m && m[c] == row
    requires forall d :: d in row <==> d in InfRow(keys) || d in adj[c]
    requires forall d :: d in adj[c] ==> row[d] == Fin(adj[c][d])
    requires forall d :: d in InfRow(keys) && d !in adj[c] ==> row[d] == InfRow(keys)[d]
    ensures RowFilled(m, keys, adj, c)
  {
  }

  /** The inner loop of `gerar_matriz`: each neighbour's weight written into `row`. */
  method FillRow(row: map<int, Cost>, nbrs: map<int, nat>) returns (r: map<int, Cost>)
    ensures forall d :: d in r <==> d in row || d in nbrs
    ensures forall d :: d in nbrs ==> r[d] == Fin(nbrs[d])
    ensures forall d :: d in row && d !in nbrs ==> r[d] == row[d]
  {
    r := row;
    var todo := nbrs.Keys;
    while todo != {}
      invariant todo <= nbrs.Keys
      invariant forall d :: d in r <==> d in row || (d in nbrs && d !in todo)
      invariant forall d :: d in nbrs && d !in todo ==> r[d] == Fin(nbrs[d])
      invariant forall d :: d in row && d !in nbrs ==> r[d] == row[d]
      invariant forall d :: d in todo && d in row ==> r[d] == row[d]
      decreases todo
    {
      var d := Pick(todo);
      r := r[d := Fin(nbrs[d])];
      todo := todo - {d};
    }
  }

  /**
   * `gerar_matriz(cidades)`: every ordered pair of cities, the diagonal
   * included, starts at infinity; then each listed neighbour gets its weight
   * (a neighbour that is not itself a city gets an entry in that row only).
   */
  method BuildMatrix(keys: seq<int>, adj: map<int, map<int, nat>>) returns (m: Matrix, all: seq<int>)
    requires Adjacency(keys, adj)
    ensures all == keys
    ensures forall c :: c in m <==> c in keys
    ensures forall c :: c in adj ==> RowFilled(m, keys, adj, c)
    ensures Complete(m, all)
  {
    all := keys;
    m := map c | c in keys :: InfRow(keys);
    var i := 0;
    while i < |keys|
      invariant 0 <= i <= |keys|
      invariant forall c :: c in m <==> c in keys
      invariant forall j :: 0 <= j < i ==> RowFilled(m, keys, adj, keys[j])
      invariant forall j :: i <= j < |keys| ==> keys[j] in m && m[keys[j]] == InfRow(keys)
    {
      var c := keys[i];
      var row := FillRow(m[c], adj[c]);
      ghost var m0 := m;
      m := m[c := row];
      forall j | 0 <= j <= i ensures RowFilled(m, keys, adj, keys[j]) {
        if j < i {
          RowFilledFrame(m0, m, keys, adj, keys[j]);
        } else {
          FillRowFilled(m, keys, adj, c, row);
        }
      }
      i := i + 1;
    }
    forall c | c in adj ensures RowFilled(m, keys, adj, c) {
      var j :| 0 <= j < |keys| && keys[j] == c;
    }
    FilledComplete(m, keys, adj);
  }

  /** Filled rows hold an entry for every ordered pair of cities. */
  lemma {:induction false} FilledComplete(m: Matrix, keys: seq<int>, adj: map<int, map<int, nat>>)
    requires Adjacency(keys, adj)
    requires forall c :: c in adj ==> RowFilled(m, keys, adj, c)
    ensures Complete(m, keys)
  {
    forall i, j | 0 <= i < |keys| && 0 <= j < |keys| ensures keys[i] in m && keys[j] in m[keys[i]] {
      assert RowFilled(m, keys, adj, keys[i]);
    }
  }
}
