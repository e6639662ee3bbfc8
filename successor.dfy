/**
 * The lexicographic successor of a permutation (Algorithm L of Knuth,
 * The Art of Computer Programming, Vol. 4A, section 7.2.1.2), as a function
 * on values. The in-place method in module Utils is proved to compute it.
 */
module Successor {
  import opened Lex

  /** The largest `j <= k` with `s[j] < s[j + 1]`, or -1 when there is none. */
  function PivotFrom(s: seq<int>, k: int): (r: int)
    requires -1 <= k <= |s| - 2
    ensures -1 <= r <= k
    ensures r >= 0 ==> s[r] < s[r + 1]
    decreases k + 1
  {
    if k < 0 then -1 else if s[k] < s[k + 1] then k else PivotFrom(s, k - 1)
  }

  /** The largest `j <= l` with `s[k] < s[j]`; one exists since `s[k] < s[k + 1]`. */
  function CeilFrom(s: seq<int>, k: int, l: int): (r: int)
    requires 0 <= k < l < |s| && s[k] < s[k + 1]
    ensures k < r <= l && s[k] < s[r]
    decreases l
  {
    if s[k] < s[l] then l else CeilFrom(s, k, l - 1)
  }

  /** No ascent lies after the one `PivotFrom` finds. */
  lemma {:induction false} PivotFromLast(s: seq<int>, k: int)
    requires -1 <= k <= |s| - 2
    ensures forall i, j :: PivotFrom(s, k) < i < j <= k + 1 ==> s[i] >= s[j]
    decreases k + 1
  {
    if k >= 0 && s[k] >= s[k + 1] {
      PivotFromLast(s, k - 1);
    }
  }

  /** No position after the one `CeilFrom` finds holds a city above `s[k]`. */
  lemma {:induction false} CeilFromLast(s: seq<int>, k: int, l: int)
    requires 0 <= k < l < |s| && s[k] < s[k + 1]
    ensures forall j :: CeilFrom(s, k, l) < j <= l ==> s[j] <= s[k]
    decreases l
  {
    if s[k] >= s[l] {
      CeilFromLast(s, k, l - 1);
    }
  }

  /** No position of `s` after `l` holds a city above `v`. */
  predicate NoneAbove(s: seq<int>, l: nat, v: int)
  {
    forall j :: l < j < |s| ==> s[j] <= v
  }

  /** The position `k` of the last ascent of `s`, -1 when `s` has none. */
  function Pivot(s: seq<int>): int
    requires |s| >= 1
  {
    PivotFrom(s, |s| - 2)
  }

  /** After the pivot the list does not increase. */
  lemma {:induction false} PivotSuffix(s: seq<int>)
    requires |s| >= 1
    ensures NonIncreasing(s[Pivot(s) + 1..])
  {
    PivotFromLast(s, |s| - 2);
  }

  /** After the ceiling of the pivot no city exceeds the pivot's. */
  lemma {:induction false} CeilSuffix(s: seq<int>)
    requires |s| >= 1 && Pivot(s) >= 0
    ensures NoneAbove(s, CeilFrom(s, Pivot(s), |s| - 1), s[Pivot(s)])
  {
    CeilFromLast(s, Pivot(s), |s| - 1);
  }

  /**
   * The outcome of `next_permutation` on `s`: whether a successor exists,
   * and the contents of the list afterwards.
   */
  function NextPerm(s: seq<int>): (r: (bool, seq<int>))
    requires |s| >= 1
    ensures |r.1| == |s|
  {
    var k := Pivot(s);
    if k < 0 then (false, s)
    else
      var l := CeilFrom(s, k, |s| - 1);
      var w := s[k := s[l]][l := s[k]];
      (true, w[..k + 1] + Reverse(w[k + 1..]))
  }

  /** `s` with the cities at positions `i` and `j` exchanged. */
  function Swap(s: seq<int>, i: nat, j: nat): (w: seq<int>)
    requires i < |s| && j < |s|
  {
    s[i := s[j]][j := s[i]]
  }

  /** The list after the swap at `k` and `l`, before the suffix is reversed. */
  function Swapped(s: seq<int>): (w: seq<int>)
    requires |s| >= 1 && Pivot(s) >= 0
  {
    Swap(s, Pivot(s), CeilFrom(s, Pivot(s), |s| - 1))
  }

  /** `next_permutation` reports exhaustion exactly on a non-increasing list, and then leaves it as it was. */
  lemma {:induction false} NextPermExhausted(s: seq<int>)
    requires |s| >= 1
    ensures !NextPerm(s).0 <==> NonIncreasing(s)
    ensures !NextPerm(s).0 ==> NextPerm(s).1 == s
  {
    PivotFromLast(s, |s| - 2);
  }

  /** Exchanging two positions keeps the multiset of a sequence. */
  lemma {:induction false} SwapMultiset(s: seq<int>, i: nat, j: nat)
    requires i < j < |s|
    ensures multiset(s[i := s[j]][j := s[i]]) == multiset(s)
  {
    var w := s[i := s[j]][j := s[i]];
    assert s == s[..i] + [s[i]] + s[i + 1..j] + [s[j]] + s[j + 1..];
    assert w == s[..i] + [s[j]] + s[i + 1..j] + [s[i]] + s[j + 1..];
  }

  /** A successor exists exactly when the list has an ascent. */
  lemma {:induction false} NextPermFound(s: seq<int>)
    requires |s| >= 1
    ensures NextPerm(s).0 <==> Pivot(s) >= 0
    ensures NextPerm(s).0 <==> exists k :: 0 <= k < |s| - 1 && s[k] < s[k + 1]
  {
    NextPermExhausted(s);
    if !NextPerm(s).0 {
      assert NonIncreasing(s);
    }
  }

  /** The successor, when there is one, is the swapped list with its suffix reversed. */
  lemma {:induction false} NextPermUnfold(s: seq<int>)
    requires |s| >= 1 && Pivot(s) >= 0
    ensures NextPerm(s).0
    ensures NextPerm(s).1 == Swapped(s)[..Pivot(s) + 1] + Reverse(Swapped(s)[Pivot(s) + 1..])
  {
  }

  /** The successor is a rearrangement of the same cities. */
  lemma {:induction false} NextPermPermutes(s: seq<int>)
    requires |s| >= 1
    ensures multiset(NextPerm(s).1) == multiset(s)
  {
    var k := Pivot(s);
    if k >= 0 {
      var l := CeilFrom(s, k, |s| - 1);
      var w := Swapped(s);
      SwapMultiset(s, k, l);
      NextPermUnfold(s);
      ReverseMultiset(w[k + 1..]);
      assert w == w[..k + 1] + w[k + 1..];
    }
  }

  /** The swap leaves the suffix after the pivot non-increasing. */
  lemma {:induction false} SwappedSuffix(s: seq<int>)
    requires |s| >= 1 && Pivot(s) >= 0
    ensures NonIncreasing(Swapped(s)[Pivot(s) + 1..])
  {
    var k := Pivot(s);
    var l := CeilFrom(s, k, |s| - 1);
    var w := Swapped(s);
    var t := w[k + 1..];
    PivotFromLast(s, |s| - 2);
    CeilFromLast(s, k, |s| - 1);
    forall i, j | 0 <= i < j < |t| ensures t[i] >= t[j] {
      assert t[i] == w[k + 1 + i] && t[j] == w[k + 1 + j];
      if k + 1 + j == l {
        assert s[k + 1 + i] >= s[l];
      }
    }
  }

  /** The prefix, pivot and suffix of a swapped list whose suffix is then reversed. */
  lemma {:induction false} ReversedSuffixShape(s: seq<int>, w: seq<int>, t: seq<int>, k: nat, l: nat)
    requires k < l < |s| && w == Swap(s, k, l)
    requires NonIncreasing(w[k + 1..])
    requires t == w[..k + 1] + Reverse(w[k + 1..])
    ensures t[..k] == s[..k] && t[k] == s[l] && Ascending(t[k + 1..])
  {
    var head, tail := w[..k + 1], Reverse(w[k + 1..]);
    assert t[..k] == s[..k] by {
      assert t[..k + 1] == head;
      assert w[..k] == s[..k];
      assert t[..k] == head[..k];
    }
    assert t[k] == head[k] == w[k];
    assert Ascending(t[k + 1..]) by {
      assert t[k + 1..] == tail;
      ReverseOrder(w[k + 1..]);
    }
  }

  /** The successor keeps the cities before the pivot. */
  lemma {:induction false} NextPermKeepsPrefix(s: seq<int>)
    requires |s| >= 1 && Pivot(s) >= 0
    ensures NextPerm(s).1[..Pivot(s)] == s[..Pivot(s)]
  {
    NextPermUnfold(s);
    SwappedSuffix(s);
    ReversedSuffixShape(s, Swapped(s), NextPerm(s).1, Pivot(s), CeilFrom(s, Pivot(s), |s| - 1));
  }

  /** The successor puts at the pivot the least later city above the old one. */
  lemma {:induction false} NextPermRaisesPivot(s: seq<int>)
    requires |s| >= 1 && Pivot(s) >= 0
    ensures NextPerm(s).1[Pivot(s)] == s[CeilFrom(s, Pivot(s), |s| - 1)] > s[Pivot(s)]
    ensures forall j :: Pivot(s) < j < |s| && s[j] > s[Pivot(s)] ==> s[j] >= NextPerm(s).1[Pivot(s)]
  {
    var k := Pivot(s);
    var w := Swapped(s);
    NextPermUnfold(s);
    assert NextPerm(s).1[k] == w[k];
    var l := CeilFrom(s, k, |s| - 1);
    CeilSuffix(s);
    PivotSuffix(s);
    forall j | k < j < |s| && s[j] > s[k] ensures s[j] >= s[l] {
      assert j <= l;
      assert s[k + 1..][j - k - 1] == s[j] && s[k + 1..][l - k - 1] == s[l];
    }
  }

  /** The successor's suffix after the pivot is in ascending order. */
  lemma {:induction false} NextPermSortsSuffix(s: seq<int>)
    requires |s| >= 1 && Pivot(s) >= 0
    ensures Ascending(NextPerm(s).1[Pivot(s) + 1..])
  {
    NextPermUnfold(s);
    SwappedSuffix(s);
    ReversedSuffixShape(s, Swapped(s), NextPerm(s).1, Pivot(s), CeilFrom(s, Pivot(s), |s| - 1));
  }

  /** Agreeing up to `k` and larger at `k` is lexicographically larger. */
  lemma {:induction false} GreaterAt(s: seq<int>, t: seq<int>, k: nat)
    requires k < |s| == |t| && t[..k] == s[..k] && t[k] > s[k]
    ensures LexLess(s, t)
  {
    var p := s[..k];
    assert s == p + s[k..];
    assert t == p + t[k..];
    assert LexLess(s[k..], t[k..]);
    LexLessCommonPrefix(p, s[k..], t[k..]);
  }

  /** The successor is strictly greater in lexicographic order. */
  lemma {:induction false} NextPermGreater(s: seq<int>)
    requires |s| >= 1 && NextPerm(s).0
    ensures LexLess(s, NextPerm(s).1)
  {
    NextPermFound(s);
    NextPermKeepsPrefix(s);
    NextPermRaisesPivot(s);
    GreaterAt(s, NextPerm(s).1, Pivot(s));
  }

  /** Under the pivot's conditions, an arrangement above `x` cannot keep `x[0]` in front. */
  lemma {:induction false} SuffixHeadMoves(x: seq<int>, z: seq<int>)
    requires |x| > 0 && NonIncreasing(x[1..])
    requires multiset(z) == multiset(x)
    requires LexLess(x, z)
    ensures z[0] != x[0]
  {
    assert x == [x[0]] + x[1..] && z == [z[0]] + z[1..];
    assert multiset(x[1..]) == multiset(x) - multiset{x[0]};
    assert multiset(z[1..]) == multiset(z) - multiset{z[0]};
    if z[0] == x[0] {
      NonIncreasingIsLexGreatest(x[1..], z[1..]);
    }
  }

  /** `x[m]` is the least city of `x` above `x[0]`. */
  lemma {:induction false} SuffixHeadIsCeil(x: seq<int>, z: seq<int>, m: nat)
    requires 0 < m < |x|
    requires NonIncreasing(x[1..])
    requires x[0] < x[m] && NoneAbove(x, m, x[0])
    requires multiset(z) == multiset(x)
    requires |z| > 0 && x[0] < z[0] <= x[m]
    ensures z[0] == x[m]
  {
    var j := InMultisetAt(x, z[0]);
    assert j != 0 && j <= m;
    if j < m {
      assert x[1..][j - 1] >= x[1..][m - 1];
    }
  }

  /** An ascending tail after a common head is the least arrangement. */
  lemma {:induction false} SuffixTailLeast(y: seq<int>, z: seq<int>)
    requires |y| > 0 && Ascending(y[1..])
    requires multiset(z) == multiset(y)
    requires z[0] == y[0]
    ensures !LexLess(z, y)
  {
    assert y == [y[0]] + y[1..] && z == [z[0]] + z[1..];
    assert multiset(y[1..]) == multiset(y) - multiset{y[0]};
    assert multiset(z[1..]) == multiset(z) - multiset{z[0]};
    AscendingIsLexLeast(y[1..], z[1..]);
  }

  /**
   * The suffix argument: `x` has its pivot at the front and a non-increasing
   * rest, `y` starts with the least city of that rest above `x[0]` and is
   * ascending after it. No arrangement `z` of the same cities lies strictly
   * between them.
   */
  lemma {:induction false} SuffixImmediate(x: seq<int>, y: seq<int>, z: seq<int>, m: nat)
    requires 0 < m < |x|
    requires NonIncreasing(x[1..])
    requires x[0] < x[m] && NoneAbove(x, m, x[0])
    requires |y| == |x| && y[0] == x[m] && Ascending(y[1..])
    requires multiset(y) == multiset(x) && multiset(z) == multiset(x)
    ensures !(LexLess(x, z) && LexLess(z, y))
  {
    if LexLess(x, z) && LexLess(z, y) {
      SuffixHeadMoves(x, z);
      SuffixHeadIsCeil(x, z, m);
      SuffixTailLeast(y, z);
    }
  }

  /** The multiset of a suffix is what the prefix leaves of the whole. */
  lemma {:induction false} SuffixMultiset(s: seq<int>, k: nat)
    requires k <= |s|
    ensures multiset(s[k..]) == multiset(s) - multiset(s[..k])
  {
    assert s == s[..k] + s[k..];
  }

  /** An arrangement between two lists that share a prefix of length `k` lies, after `k`, between their suffixes. */
  lemma {:induction false} BetweenSuffixes(s: seq<int>, t: seq<int>, u: seq<int>, k: nat)
    requires k < |s| == |t| && t[..k] == s[..k]
    requires LexLess(s, u) && LexLess(u, t)
    requires multiset(t) == multiset(s) && multiset(u) == multiset(s)
    ensures k < |u| && LexLess(s[k..], u[k..]) && LexLess(u[k..], t[k..])
    ensures multiset(u[k..]) == multiset(s[k..]) && multiset(t[k..]) == multiset(s[k..])
  {
    assert |u| == |multiset(u)| == |s|;
    var p := s[..k];
    assert s == p + s[k..];
    assert t == p + t[k..];
    LexBetweenCommonPrefix(p, s[k..], t[k..], u);
    SuffixMultiset(s, k);
    SuffixMultiset(t, k);
    SuffixMultiset(u, k);
  }

  /** `NoneAbove` carried over to the suffix starting at `k`. */
  lemma {:induction false} NoneAboveSuffix(s: seq<int>, k: nat, l: nat)
    requires k < l < |s| && NoneAbove(s, l, s[k])
    ensures NoneAbove(s[k..], l - k, s[k..][0])
  {
    var x := s[k..];
    forall j | l - k < j < |x| ensures x[j] <= x[0] {
      assert x[j] == s[k + j];
    }
  }

  /** The immediacy argument for a list `s` and a candidate successor `t` with the successor's shape. */
  lemma {:induction false} ImmediateAt(s: seq<int>, t: seq<int>, u: seq<int>, k: nat, l: nat)
    requires k < l < |s| == |t|
    requires t[..k] == s[..k]
    requires NonIncreasing(s[k + 1..])
    requires s[k] < s[l] && NoneAbove(s, l, s[k])
    requires t[k] == s[l] && Ascending(t[k + 1..])
    requires multiset(t) == multiset(s) && multiset(u) == multiset(s)
    ensures !(LexLess(s, u) && LexLess(u, t))
  {
    if LexLess(s, u) && LexLess(u, t) {
      BetweenSuffixes(s, t, u, k);
      DropOne(s, k);
      DropOne(t, k);
      NoneAboveSuffix(s, k, l);
      SuffixImmediate(s[k..], t[k..], u[k..], l - k);
    }
  }

  /**
   * The successor is the immediate one: no rearrangement of the same cities
   * lies strictly between a list and its successor.
   */
  lemma {:induction false} NextPermImmediate(s: seq<int>, u: seq<int>)
    requires |s| >= 1 && NextPerm(s).0
    requires multiset(u) == multiset(s)
    ensures !(LexLess(s, u) && LexLess(u, NextPerm(s).1))
  {
    NextPermFound(s);
    var k := Pivot(s);
    var l := CeilFrom(s, k, |s| - 1);
    NextPermKeepsPrefix(s);
    NextPermRaisesPivot(s);
    NextPermSortsSuffix(s);
    NextPermPermutes(s);
    PivotSuffix(s);
    CeilSuffix(s);
    ImmediateAt(s, NextPerm(s).1, u, k, l);
  }
}
