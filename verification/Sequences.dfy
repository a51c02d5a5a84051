/** Sequences without repeats, and writing into a sequence. */
module Sequences {
  ghost predicate NoRepeats<T>(s: seq<T>) {
    forall i, j :: 0 <= i < j < |s| ==> s[i] != s[j]
  }

  /** Pigeonhole: different numbers below n are at most n. */
  lemma {:induction false} DistinctBelow(s: seq<nat>, n: nat)
    requires NoRepeats(s) && forall i :: 0 <= i < |s| ==> s[i] < n
    ensures |s| <= n
    decreases n
  {
    if s != [] {
      assert s[0] < n;
      if k :| 0 <= k < |s| && s[k] == n - 1 {
        var t := s[..k] + s[k + 1..];
        assert NoRepeats(t);
        DistinctBelow(t, n - 1);
      } else {
        DistinctBelow(s, n - 1);
      }
    }
  }

  /** The sequence with `items` written from position `at` on. */
  function Put<T>(s: seq<T>, at: nat, items: seq<T>): (r: seq<T>)
    requires at + |items| <= |s|
    ensures |r| == |s|
    ensures forall x :: 0 <= x < |r| ==> r[x] == if at <= x < at + |items| then items[x - at] else s[x]
  {
    s[..at] + items + s[at + |items|..]
  }

  lemma SplitRange<T>(s: seq<T>, lo: nat, hi: nat, a: seq<T>, x: T, b: seq<T>)
    requires lo <= hi <= |s| && s[lo..hi] == a + [x] + b
    ensures var mid := lo + |a|; mid < hi && s[lo..mid] == a && s[mid] == x && s[mid + 1..hi] == b
  {
    var range, k := a + [x] + b, |a|;
    assert |range| == hi - lo && range[k] == x;
    assert s[lo..lo + k] == range[..k] == a;
    assert s[lo + k + 1..hi] == range[k + 1..] == b;
  }

  lemma Associative<T>(a: seq<T>, b: seq<T>, c: seq<T>)
    ensures a + b + c == a + (b + c)
  {
  }

  lemma {:induction false} CountDistinct<T>(s: seq<T>, x: T)
    requires NoRepeats(s)
    ensures multiset(s)[x] == if x in s then 1 else 0
    decreases |s|
  {
    if s != [] {
      var front, last := s[..|s| - 1], s[|s| - 1];
      assert s == front + [last];
      CountDistinct(front, x);
    }
  }
}
