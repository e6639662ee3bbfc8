/**
 * Unranking through the factorial number system (Lehmer code): the
 * arrangement of rank `r` picks, at each position, the `r / (m-1)!`-th of
 * the `m` cities not yet used and goes on with `r % (m-1)!`.
 */
module Ranking {
  import opened Lex
  import opened Successor

  /**
   * `a * b` by repeated addition. Lemma MulIsTimes ties it to `*`; written
   * this way, together with `Lead` and `Rem` below, the proofs about ranks
   * need no nonlinear arithmetic.
   */
  function Mul(a: nat, b: nat): nat
  {
    if a == 0 then 0 else b + Mul(a - 1, b)
  }

  lemma {:induction false} MulIsTimes(a: nat, b: nat)
    ensures Mul(a, b) == a * b
  {
    if a > 0 {
      MulIsTimes(a - 1, b);
    }
  }

  function Fact(n: nat): (r: nat)
    ensures r >= 1
  {
    if n == 0 then 1 else Mul(n, Fact(n - 1))
  }

  /** The quotient and the remainder of `r` by `f`, by repeated subtraction. */
  function Lead(r: nat, f: nat): (d: nat)
    requires f > 0
    decreases r
  {
    if r < f then 0 else 1 + Lead(r - f, f)
  }

  function Rem(r: nat, f: nat): (q: nat)
    requires f > 0
    ensures q < f
    decreases r
  {
    if r < f then r else Rem(r - f, f)
  }

  lemma {:induction false} LeadRemParts(r: nat, f: nat)
    requires f > 0
    ensures r == Mul(Lead(r, f), f) + Rem(r, f)
    decreases r
  {
    if r >= f {
      LeadRemParts(r - f, f);
    }
  }

  /** `r == d * f + q` with `q < f` determines the quotient and the remainder. */
  lemma {:induction false} LeadRemUnique(f: nat, d: nat, q: nat)
    requires 0 <= q < f
    ensures Lead(Mul(d, f) + q, f) == d && Rem(Mul(d, f) + q, f) == q
    decreases d
  {
    if d > 0 {
      LeadRemUnique(f, d - 1, q);
    }
  }

  /** `Lead` and `Rem` are Dafny's `/` and `%` on naturals. */
  lemma {:induction false} LeadRemDiv(r: nat, f: nat)
    requires f > 0
    ensures Lead(r, f) == r / f && Rem(r, f) == r % f
  {
    MulIsTimes(r / f, f);
    LeadRemUnique(f, r / f, r % f);
  }

  /** A number below `n * f` has its leading digit below `n`. */
  lemma {:induction false} LeadBound(r: nat, n: nat, f: nat)
    requires f > 0 && r < Mul(n, f)
    ensures Lead(r, f) < n
    decreases r
  {
    if r >= f {
      LeadBound(r - f, n - 1, f);
    }
  }

  /** Mixed-radix numbers compare by their leading digit first. */
  lemma {:induction false} LeadRemOrder(r: nat, r': nat, f: nat)
    requires f > 0 && r < r'
    ensures Lead(r, f) < Lead(r', f) || (Lead(r, f) == Lead(r', f) && Rem(r, f) < Rem(r', f))
    decreases r
  {
    if r >= f {
      LeadRemOrder(r - f, r' - f, f);
    }
  }

  /** A leading digit below `n` and a remainder below `f` give a number below `n * f`. */
  lemma {:induction false} DigitsBound(n: nat, f: nat, d: nat, q: nat)
    requires d < n && q < f
    ensures Mul(d, f) + q < Mul(n, f)
    decreases n
  {
    if d + 1 < n {
      DigitsBound(n - 1, f, d, q);
    }
  }

  /** The arrangement of `s` with (0-based) rank `r`. */
  function Unrank(s: seq<int>, r: nat): (p: seq<int>)
    requires r < Fact(|s|)
    ensures |p| == |s|
    decreases |s|
  {
    if |s| == 0 then []
    else
      var f := Fact(|s| - 1);
      LeadBound(r, |s|, f);
      var d := Lead(r, f);
      [s[d]] + Unrank(RemoveAt(s, d), Rem(r, f))
  }

  /** The leading digit of a rank and the rank of the rest. */
  lemma {:induction false} UnrankUnfold(s: seq<int>, d: nat, q: nat)
    requires d < |s| && q < Fact(|s| - 1)
    ensures Mul(d, Fact(|s| - 1)) + q < Fact(|s|)
    ensures Unrank(s, Mul(d, Fact(|s| - 1)) + q) == [s[d]] + Unrank(RemoveAt(s, d), q)
  {
    var f := Fact(|s| - 1);
    DigitsBound(|s|, f, d, q);
    LeadRemUnique(f, d, q);
  }

  /** The arrangement of rank `r` starts with the city picked by the leading digit of `r`. */
  lemma {:induction false} UnrankCons(s: seq<int>, r: nat)
    requires 0 < |s| && r < Fact(|s|)
    ensures Lead(r, Fact(|s| - 1)) < |s|
    ensures Unrank(s, r) == [s[Lead(r, Fact(|s| - 1))]] + Unrank(RemoveAt(s, Lead(r, Fact(|s| - 1))), Rem(r, Fact(|s| - 1)))
  {
    LeadBound(r, |s|, Fact(|s| - 1));
  }

  /** Every rank gives a rearrangement of `s`. */
  lemma {:induction false} UnrankPermutes(s: seq<int>, r: nat)
    requires r < Fact(|s|)
    ensures multiset(Unrank(s, r)) == multiset(s)
    decreases |s|
  {
    if |s| > 0 {
      var f := Fact(|s| - 1);
      LeadBound(r, |s|, f);
      var d := Lead(r, f);
      UnrankPermutes(RemoveAt(s, d), Rem(r, f));
      RemoveAtMultiset(s, d);
    }
  }

  /** Rank 0 is the input itself (rank 1 in the 1-based numbering of the source). */
  lemma {:induction false} UnrankFirst(s: seq<int>)
    ensures Unrank(s, 0) == s
    decreases |s|
  {
    if |s| > 0 {
      UnrankFirst(RemoveAt(s, 0));
      assert RemoveAt(s, 0) == s[1..];
    }
  }

  /** The last rank is the input reversed. */
  lemma {:induction false} UnrankLast(s: seq<int>)
    ensures Unrank(s, Fact(|s|) - 1) == Reverse(s)
    decreases |s|
  {
    if |s| > 0 {
      var t := RemoveAt(s, |s| - 1);
      UnrankLast(t);
      UnrankLastStep(s, t);
    }
  }

  /** The step of UnrankLast: the last city leads, the rest follows reversed. */
  lemma {:induction false} UnrankLastStep(s: seq<int>, t: seq<int>)
    requires |s| > 0 && t == RemoveAt(s, |s| - 1)
    requires Unrank(t, Fact(|t|) - 1) == Reverse(t)
    ensures Unrank(s, Fact(|s|) - 1) == Reverse(s)
  {
    var n := |s|;
    var f := Fact(n - 1);
    RemoveAtLast(s);
    ReverseSnoc(s);
    assert Fact(n) - 1 == Mul(n - 1, f) + (f - 1);
    UnrankWith(s, Reverse(s), n - 1, t, Fact(|t|) - 1, Fact(n) - 1);
  }

  lemma {:induction false} RemoveAtStrictlyAscending(s: seq<int>, d: nat)
    requires d < |s| && StrictlyAscending(s)
    ensures StrictlyAscending(RemoveAt(s, d))
  {
    var t := RemoveAt(s, d);
    forall i, j | 0 <= i < j < |t| ensures t[i] < t[j] {
      var i' := if i < d then i else i + 1;
      var j' := if j < d then j else j + 1;
      assert t[i] == s[i'] && t[j] == s[j'];
    }
  }

  lemma {:induction false} RemoveAtDistinct(s: seq<int>, d: nat)
    requires d < |s| && Distinct(s)
    ensures Distinct(RemoveAt(s, d))
  {
    var t := RemoveAt(s, d);
    forall i, j | 0 <= i < j < |t| ensures t[i] != t[j] {
      var i' := if i < d then i else i + 1;
      var j' := if j < d then j else j + 1;
      assert t[i] == s[i'] && t[j] == s[j'];
    }
  }

  /** For sorted cities without repeats, ranks follow the lexicographic order. */
  lemma {:induction false} UnrankLexOrder(s: seq<int>, r: nat, r': nat)
    requires StrictlyAscending(s) && r < r' < Fact(|s|)
    ensures LexLess(Unrank(s, r), Unrank(s, r'))
    decreases |s|
  {
    var n := |s|;
    var f := Fact(n - 1);
    LeadBound(r, n, f);
    LeadBound(r', n, f);
    var d, q, d', q' := Lead(r, f), Rem(r, f), Lead(r', f), Rem(r', f);
    var rest := RemoveAt(s, d);
    UnrankCons(s, r);
    UnrankCons(s, r');
    LeadRemOrder(r, r', f);
    if d == d' {
      assert StrictlyAscending(rest) by {
        RemoveAtStrictlyAscending(s, d);
      }
      UnrankLexOrder(rest, q, q');
      LexLessCommonPrefix([s[d]], Unrank(rest, q), Unrank(rest, q'));
    }
  }

  /** The first position of `v` in `s`. */
  function IndexOf(s: seq<int>, v: int): (i: nat)
    requires v in s
    ensures i < |s| && s[i] == v
    ensures forall j :: 0 <= j < i ==> s[j] != v
  {
    if s[0] == v then 0 else 1 + IndexOf(s[1..], v)
  }

  /** Taking the same city out of two arrangements of the same cities leaves arrangements of the same cities. */
  lemma {:induction false} RestMultiset(s: seq<int>, u: seq<int>, d: nat)
    requires multiset(u) == multiset(s) && 0 < |u| && d < |s| && s[d] == u[0]
    ensures multiset(u[1..]) == multiset(RemoveAt(s, d))
  {
    RemoveAtMultiset(s, d);
    assert u == [u[0]] + u[1..];
    assert multiset(u) == multiset{u[0]} + multiset(u[1..]);
    assert multiset(u[1..]) == multiset(u) - multiset{u[0]};
  }

  /** An arrangement of the cities of a non-empty `s` starts with one of them. */
  lemma {:induction false} HeadIn(s: seq<int>, u: seq<int>)
    requires multiset(u) == multiset(s) && |s| > 0
    ensures |u| == |s| && u[0] in s
  {
    assert |u| == |multiset(u)| == |s|;
    assert u[0] in multiset(u);
  }

  /**
   * The rank of the arrangement `u` of the cities of `s`: the inverse of
   * `Unrank`, reading the leading digits back off the positions in `s`.
   */
  function Rank(s: seq<int>, u: seq<int>): (r: nat)
    requires multiset(u) == multiset(s)
    ensures r < Fact(|s|)
    decreases |s|
  {
    if |s| == 0 then 0
    else
      HeadIn(s, u);
      var d := IndexOf(s, u[0]);
      RestMultiset(s, u, d);
      var q := Rank(RemoveAt(s, d), u[1..]);
      DigitsBound(|s|, Fact(|s| - 1), d, q);
      Mul(d, Fact(|s| - 1)) + q
  }

  /** The rank of `u` is the position of its head in `s`, followed by the rank of its tail. */
  lemma {:induction false} RankCons(s: seq<int>, u: seq<int>, d: nat)
    requires multiset(u) == multiset(s) && 0 < |s| && 0 < |u| && u[0] in s && d == IndexOf(s, u[0])
    requires multiset(u[1..]) == multiset(RemoveAt(s, d))
    ensures Rank(s, u) == Mul(d, Fact(|s| - 1)) + Rank(RemoveAt(s, d), u[1..])
  {
  }

  /** Every arrangement of the cities of `s` has a rank: `Unrank` reaches all of them. */
  lemma {:induction false} UnrankRank(s: seq<int>, u: seq<int>)
    requires multiset(u) == multiset(s)
    ensures Unrank(s, Rank(s, u)) == u
    decreases |s|
  {
    if |s| > 0 {
      HeadIn(s, u);
      var d := IndexOf(s, u[0]);
      RestMultiset(s, u, d);
      UnrankRank(RemoveAt(s, d), u[1..]);
      RankCons(s, u, d);
      UnrankWith(s, u, d, RemoveAt(s, d), Rank(RemoveAt(s, d), u[1..]), Rank(s, u));
    }
  }

  /** The arrangement whose head is `s[d]` and whose tail has rank `q` among the rest has rank `d * (|s|-1)! + q`. */
  lemma {:induction false} UnrankWith(s: seq<int>, u: seq<int>, d: nat, rest: seq<int>, q: nat, r: nat)
    requires d < |s| && 0 < |u| && s[d] == u[0] && rest == RemoveAt(s, d)
    requires q < Fact(|rest|) && Unrank(rest, q) == u[1..]
    requires r == Mul(d, Fact(|s| - 1)) + q
    ensures r < Fact(|s|) && Unrank(s, r) == u
  {
    UnrankUnfold(s, d, q);
    ConsChain(Unrank(s, r), s[d], Unrank(rest, q), u);
  }

  /** For cities without repeats, ranking the arrangement of rank `r` gives `r` back. */
  lemma {:induction false} RankUnrank(s: seq<int>, r: nat)
    requires Distinct(s) && r < Fact(|s|)
    ensures multiset(Unrank(s, r)) == multiset(s)
    ensures Rank(s, Unrank(s, r)) == r
    decreases |s|
  {
    UnrankPermutes(s, r);
    if |s| > 0 {
      var f := Fact(|s| - 1);
      LeadBound(r, |s|, f);
      var d, q := Lead(r, f), Rem(r, f);
      var rest := RemoveAt(s, d);
      var p := Unrank(s, r);
      assert p == [s[d]] + Unrank(rest, q);
      assert IndexOf(s, p[0]) == d;
      assert p[1..] == Unrank(rest, q);
      RemoveAtDistinct(s, d);
      RankUnrank(rest, q);
      LeadRemParts(r, f);
    }
  }

  /** For sorted cities without repeats, the lexicographic order of arrangements is the order of their ranks. */
  lemma {:induction false} UnrankLexIff(s: seq<int>, x: nat, y: nat)
    requires StrictlyAscending(s) && x < Fact(|s|) && y < Fact(|s|)
    ensures LexLess(Unrank(s, x), Unrank(s, y)) <==> x < y
  {
    if x < y {
      UnrankLexOrder(s, x, y);
    } else if y < x {
      UnrankLexOrder(s, y, x);
      LexLessAsymmetric(Unrank(s, y), Unrank(s, x));
    } else {
      LexLessIrreflexive(Unrank(s, x));
    }
  }

  /** Below the last rank, `next_permutation` finds a successor. */
  lemma {:induction false} UnrankHasNext(s: seq<int>, r: nat)
    requires StrictlyAscending(s) && r + 1 < Fact(|s|)
    ensures NextPerm(Unrank(s, r)).0
  {
    var a, b := Unrank(s, r), Unrank(s, r + 1);
    UnrankLexOrder(s, r, r + 1);
    UnrankPermutes(s, r);
    UnrankPermutes(s, r + 1);
    NextPermExhausted(a);
    if !NextPerm(a).0 {
      NonIncreasingIsLexGreatest(a, b);
      assert false;
    }
  }

  /**
   * For sorted cities without repeats, one successor step takes the
   * arrangement of rank `r` to the one of rank `r + 1`.
   */
  lemma {:induction false} UnrankStep(s: seq<int>, r: nat, r': nat)
    requires StrictlyAscending(s) && r' < Fact(|s|) && r' == r + 1
    ensures NextPerm(Unrank(s, r)).0 && NextPerm(Unrank(s, r)).1 == Unrank(s, r')
  {
    var a, b := Unrank(s, r), Unrank(s, r');
    UnrankHasNext(s, r);
    var c := NextPerm(a).1;
    UnrankPermutes(s, r);
    UnrankPermutes(s, r');
    NextPermPermutes(a);
    var k := Rank(s, c);
    UnrankRank(s, c);
    NextPermGreater(a);
    UnrankLexIff(s, r, k);
    UnrankLexIff(s, r, r');
    UnrankLexIff(s, r', k);
    NextPermImmediate(a, b);
    assert k == r';
  }

  /** The last rank admits no successor: `next_permutation` reports exhaustion there. */
  lemma {:induction false} UnrankExhausted(s: seq<int>, r: nat)
    requires |s| >= 1 && Ascending(s) && r == Fact(|s|) - 1
    ensures !NextPerm(Unrank(s, r)).0
  {
    UnrankLast(s);
    ReverseOrder(s);
    NextPermExhausted(Reverse(s));
  }

  /**
   * For sorted cities without repeats, `next_permutation` on the arrangement
   * of rank `r` succeeds exactly when rank `r + 1` exists, and then yields it.
   */
  lemma {:induction false} UnrankNext(s: seq<int>, r: nat, r': nat)
    requires |s| >= 1 && StrictlyAscending(s) && r < Fact(|s|) && r' == r + 1
    ensures NextPerm(Unrank(s, r)).0 <==> r' < Fact(|s|)
    ensures r' < Fact(|s|) ==> NextPerm(Unrank(s, r)).1 == Unrank(s, r')
  {
    if r' < Fact(|s|) {
      UnrankStep(s, r, r');
    } else {
      assert Ascending(s);
      UnrankExhausted(s, r);
    }
  }
}
