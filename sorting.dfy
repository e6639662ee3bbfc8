/**
 * `list.sort()` on the cities after the anchor, as an insertion sort on
 * values: the result is ascending and a rearrangement of the input, and
 * strictly ascending when the input has no repeated city.
 */
module Sorting {
  import opened Lex
  import opened Utils

  /** `x` put in front of the first element of `s` that is not smaller. */
  function Insert(x: int, s: seq<int>): (r: seq<int>)
    ensures multiset(r) == multiset(s) + multiset{x}
    decreases |s|
  {
    if s == [] || x <= s[0] then [x] + s
    else
      assert s == [s[0]] + s[1..];
      [s[0]] + Insert(x, s[1..])
  }

  /** A value of the result is `x` or a value of `s`. */
  lemma {:induction false} InsertValues(x: int, s: seq<int>, k: nat)
    requires k < |Insert(x, s)|
    ensures Insert(x, s)[k] == x || Insert(x, s)[k] in s
  {
    var r := Insert(x, s);
    assert r[k] in multiset(r);
  }

  /** Inserting into an ascending list keeps it ascending. */
  lemma {:induction false} InsertAscending(x: int, s: seq<int>)
    requires Ascending(s)
    ensures Ascending(Insert(x, s))
    decreases |s|
  {
    if s != [] && x > s[0] {
      var t := Insert(x, s[1..]);
      InsertAscending(x, s[1..]);
      forall k | 0 <= k < |t| ensures s[0] <= t[k] {
        InsertValues(x, s[1..], k);
      }
      assert Insert(x, s) == [s[0]] + t;
    }
  }

  /** Inserting a new city into a strictly ascending list keeps it strictly ascending. */
  lemma {:induction false} InsertStrictly(x: int, s: seq<int>)
    requires StrictlyAscending(s) && x !in s
    ensures StrictlyAscending(Insert(x, s))
    decreases |s|
  {
    if s != [] && x > s[0] {
      var t := Insert(x, s[1..]);
      assert x !in s[1..];
      InsertStrictly(x, s[1..]);
      forall k | 0 <= k < |t| ensures s[0] < t[k] {
        InsertValues(x, s[1..], k);
      }
      assert Insert(x, s) == [s[0]] + t;
    }
  }

  /** `sorted(s)`: ascending, with the same cities as `s`. */
  function Sort(s: seq<int>): (r: seq<int>)
    ensures multiset(r) == multiset(s) && |r| == |s|
    ensures Ascending(r)
    decreases |s|
  {
    if s == [] then []
    else
      assert s == [s[0]] + s[1..];
      InsertAscending(s[0], Sort(s[1..]));
      Insert(s[0], Sort(s[1..]))
  }

  /** Without repeated cities the sorted list is strictly ascending. */
  lemma {:induction false} SortStrictly(s: seq<int>)
    requires Distinct(s)
    ensures StrictlyAscending(Sort(s))
    decreases |s|
  {
    if s != [] {
      var t := Sort(s[1..]);
      SortStrictly(s[1..]);
      assert s[0] !in s[1..];
      assert s[0] !in multiset(t);
      InsertStrictly(s[0], t);
    }
  }
}
