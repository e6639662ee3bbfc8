/**
 * Orderings on sequences of cities: sortedness, reversal and the strict
 * lexicographic order in which the permutation walk proceeds.
 */
module Lex {

  /** Non-decreasing. */
  predicate Ascending(s: seq<int>)
  {
    forall i, j :: 0 <= i < j < |s| ==> s[i] <= s[j]
  }

  /** Strictly increasing: sorted and without repeated cities. */
  predicate StrictlyAscending(s: seq<int>)
  {
    forall i, j :: 0 <= i < j < |s| ==> s[i] < s[j]
  }

  /** No city occurs twice, as for the keys of a dictionary. */
  predicate Distinct(s: seq<int>)
  {
    forall i, j :: 0 <= i < j < |s| ==> s[i] != s[j]
  }

  /** Non-increasing: no position has a larger successor. */
  predicate NonIncreasing(s: seq<int>)
  {
    forall i, j :: 0 <= i < j < |s| ==> s[i] >= s[j]
  }

  /** Strict lexicographic order on sequences of equal length. */
  predicate LexLess(a: seq<int>, b: seq<int>)
  {
    |a| > 0 && |b| > 0 &&
    (a[0] < b[0] || (a[0] == b[0] && LexLess(a[1..], b[1..])))
  }

  function Reverse(s: seq<int>): (r: seq<int>)
    ensures |r| == |s|
  {
    if s == [] then [] else Reverse(s[1..]) + [s[0]]
  }

  /** Position `i` of the reversal holds position `|s| - 1 - i` of `s`. */
  lemma {:induction false} ReverseAt(s: seq<int>)
    ensures forall i :: 0 <= i < |s| ==> Reverse(s)[i] == s[|s| - 1 - i]
  {
    if s != [] {
      ReverseAt(s[1..]);
    }
  }

  /** `s` with the element at position `i` taken out, as `list.pop(i)` leaves it. */
  function RemoveAt(s: seq<int>, i: nat): (r: seq<int>)
    requires i < |s|
    ensures |r| == |s| - 1
  {
    s[..i] + s[i + 1..]
  }

  lemma {:induction false} RemoveAtMultiset(s: seq<int>, i: nat)
    requires i < |s|
    ensures multiset(s) == multiset(RemoveAt(s, i)) + multiset{s[i]}
  {
    assert s == s[..i] + [s[i]] + s[i + 1..];
  }

  lemma {:induction false} ReverseMultiset(s: seq<int>)
    ensures multiset(Reverse(s)) == multiset(s)
  {
    if s != [] {
      ReverseMultiset(s[1..]);
      assert s == [s[0]] + s[1..];
    }
  }

  /** A sequence is its head followed by its tail. */
  lemma {:induction false} ConsChain(x: seq<int>, a: int, b: seq<int>, u: seq<int>)
    requires |u| > 0 && x == [a] + b && a == u[0] && b == u[1..]
    ensures x == u
  {
    assert u == [u[0]] + u[1..];
  }

  /** Reversal puts the last element first. */
  lemma {:induction false} ReverseSnoc(s: seq<int>)
    requires |s| > 0
    ensures Reverse(s)[0] == s[|s| - 1] && Reverse(s)[1..] == Reverse(s[..|s| - 1])
  {
    var n := |s|;
    var front := s[..n - 1];
    var r, t := Reverse(s)[1..], Reverse(front);
    ReverseAt(s);
    ReverseAt(front);
    forall i | 0 <= i < n - 1 ensures r[i] == t[i] {
      calc {
        r[i];
        Reverse(s)[i + 1];
        s[n - 2 - i];
        front[n - 2 - i];
      }
    }
  }

  /** The suffix from `k` starts with `s[k]` and continues with the suffix from `k + 1`. */
  lemma {:induction false} DropOne(s: seq<int>, k: nat)
    requires k < |s|
    ensures s[k..][0] == s[k] && s[k..][1..] == s[k + 1..]
  {
  }

  /** Taking out the last element leaves the front. */
  lemma {:induction false} RemoveAtLast(s: seq<int>)
    requires |s| > 0
    ensures RemoveAt(s, |s| - 1) == s[..|s| - 1]
  {
    assert s[|s|..] == [];
  }

  lemma {:induction false} ReverseOrder(s: seq<int>)
    ensures NonIncreasing(s) ==> Ascending(Reverse(s))
    ensures Ascending(s) ==> NonIncreasing(Reverse(s))
    ensures StrictlyAscending(s) ==> forall i, j :: 0 <= i < j < |s| ==> Reverse(s)[i] > Reverse(s)[j]
  {
    ReverseAt(s);
  }

  lemma {:induction false} LexLessIrreflexive(a: seq<int>)
    ensures !LexLess(a, a)
    decreases |a|
  {
    if |a| > 0 {
      LexLessIrreflexive(a[1..]);
    }
  }

  lemma {:induction false} LexLessTransitive(a: seq<int>, b: seq<int>, c: seq<int>)
    requires LexLess(a, b) && LexLess(b, c)
    ensures LexLess(a, c)
    decreases |a|
  {
    if a[0] == b[0] && b[0] == c[0] {
      LexLessTransitive(a[1..], b[1..], c[1..]);
    }
  }

  lemma {:induction false} LexLessAsymmetric(a: seq<int>, b: seq<int>)
    requires LexLess(a, b)
    ensures !LexLess(b, a)
  {
    if LexLess(b, a) {
      LexLessTransitive(a, b, a);
      LexLessIrreflexive(a);
      assert false;
    }
  }

  /** A common prefix does not change the order. */
  lemma {:induction false} LexLessCommonPrefix(p: seq<int>, x: seq<int>, y: seq<int>)
    ensures LexLess(p + x, p + y) <==> LexLess(x, y)
    decreases |p|
  {
    if p != [] {
      assert (p + x)[1..] == p[1..] + x;
      assert (p + y)[1..] == p[1..] + y;
      LexLessCommonPrefix(p[1..], x, y);
    } else {
      assert p + x == x && p + y == y;
    }
  }

  /**
   * A sequence strictly between two sequences that share a prefix has that
   * prefix too, and its remainder lies strictly between their remainders.
   */
  lemma {:induction false} LexBetweenCommonPrefix(p: seq<int>, x: seq<int>, y: seq<int>, u: seq<int>)
    requires LexLess(p + x, u) && LexLess(u, p + y)
    ensures |p| <= |u| && u[..|p|] == p
    ensures LexLess(x, u[|p|..]) && LexLess(u[|p|..], y)
    decreases |p|
  {
    if p != [] {
      assert (p + x)[1..] == p[1..] + x;
      assert (p + y)[1..] == p[1..] + y;
      assert u[0] == p[0];
      LexBetweenCommonPrefix(p[1..], x, y, u[1..]);
      assert u[1..][|p| - 1..] == u[|p|..];
      assert u == [u[0]] + u[1..];
    } else {
      assert p + x == x && p + y == y && u[0..] == u;
    }
  }

  /** An element of a sequence occurs at some position of it. */
  lemma {:induction false} InMultisetAt(s: seq<int>, v: int) returns (j: nat)
    requires v in multiset(s)
    ensures j < |s| && s[j] == v
  {
    assert v in s;
    j :| 0 <= j < |s| && s[j] == v;
  }

  /** A non-decreasing sequence is the least arrangement of its elements. */
  lemma {:induction false} AscendingIsLexLeast(a: seq<int>, b: seq<int>)
    requires Ascending(a) && multiset(a) == multiset(b)
    ensures !LexLess(b, a)
    decreases |a|
  {
    if |a| > 0 && |b| > 0 {
      assert |b| == |multiset(b)| == |a|;
      var j := InMultisetAt(a, b[0]);
      assert a[0] <= b[0];
      if a[0] == b[0] {
        assert a == [a[0]] + a[1..];
        assert b == [b[0]] + b[1..];
        assert multiset(a) == multiset{a[0]} + multiset(a[1..]);
        assert multiset(b) == multiset{b[0]} + multiset(b[1..]);
        assert multiset(a[1..]) == multiset(a) - multiset{a[0]};
        assert multiset(b[1..]) == multiset(b) - multiset{b[0]};
        AscendingIsLexLeast(a[1..], b[1..]);
      }
    }
  }

  /** A non-increasing sequence is the greatest arrangement of its elements. */
  lemma {:induction false} NonIncreasingIsLexGreatest(a: seq<int>, b: seq<int>)
    requires NonIncreasing(a) && multiset(a) == multiset(b)
    ensures !LexLess(a, b)
    decreases |a|
  {
    if |a| > 0 && |b| > 0 {
      assert |b| == |multiset(b)| == |a|;
      var j := InMultisetAt(a, b[0]);
      assert a[0] >= b[0];
      if a[0] == b[0] {
        assert a == [a[0]] + a[1..];
        assert b == [b[0]] + b[1..];
        assert multiset(a) == multiset{a[0]} + multiset(a[1..]);
        assert multiset(b) == multiset{b[0]} + multiset(b[1..]);
        assert multiset(a[1..]) == multiset(a) - multiset{a[0]};
        assert multiset(b[1..]) == multiset(b) - multiset{b[0]};
        NonIncreasingIsLexGreatest(a[1..], b[1..]);
      }
    }
  }
}
