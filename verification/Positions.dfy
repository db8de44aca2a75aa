/** Lists of distinct positions below `n`: how many there can be, sums over them, and lists read at them. */
module Positions {
  import opened Blocks

  ghost predicate DistinctBelow(p: seq<nat>, n: nat) {
    && (forall k :: 0 <= k < |p| ==> p[k] < n)
    && forall k, l :: 0 <= k < l < |p| ==> p[k] != p[l]
  }

  function DropAt<T>(p: seq<T>, j: nat): (q: seq<T>)
    requires j < |p|
    ensures |q| == |p| - 1
  {
    p[..j] + p[j + 1..]
  }

  lemma DropLast(p: seq<nat>, n: nat, j: nat)
    requires n > 0 && DistinctBelow(p, n) && j < |p| && p[j] == n - 1
    ensures DistinctBelow(DropAt(p, j), n - 1)
    ensures forall i: nat :: i < n - 1 ==> (i in DropAt(p, j) <==> i in p)
  {
    var q := DropAt(p, j);
    forall i: nat | i < n - 1 && i in p ensures i in q {
      var k :| 0 <= k < |p| && p[k] == i;
      assert q[if k < j then k else k - 1] == i;
    }
  }

  /** Distinct positions below `n` are at most `n`, and fewer when one is missing. */
  lemma {:induction false} AtMost(p: seq<nat>, n: nat)
    requires DistinctBelow(p, n)
    ensures |p| <= n
    ensures (exists i: nat :: i < n && i !in p) ==> |p| < n
  {
    assert p != [] ==> p[0] < n;
    if n > 0 {
      if j :| 0 <= j < |p| && p[j] == n - 1 {
        DropLast(p, n, j);
        AtMost(DropAt(p, j), n - 1);
      } else {
        AtMost(p, n - 1);
      }
    }
  }

  ghost predicate ReadAt<T>(p: seq<nat>, s: seq<T>, t: seq<T>) {
    |s| == |p| && forall m :: 0 <= m < |p| ==> p[m] < |t| && s[m] == t[p[m]]
  }

  lemma ReadDropped<T>(p: seq<nat>, s: seq<T>, t: seq<T>, j: nat)
    requires |t| > 0 && DistinctBelow(p, |t|) && ReadAt(p, s, t) && j < |p| && p[j] == |t| - 1
    ensures ReadAt(DropAt(p, j), s[..j] + s[j + 1..], t[..|t| - 1])
  {
    DropLast(p, |t|, j);
  }

  /** A list read at all positions of another, each once in any order, holds the same elements. */
  lemma {:induction false} Rearranged<T>(p: seq<nat>, s: seq<T>, t: seq<T>)
    requires DistinctBelow(p, |t|) && (forall i: nat :: i < |t| ==> i in p) && ReadAt(p, s, t)
    ensures multiset(s) == multiset(t)
    decreases |t|
  {
    if |t| == 0 {
      AtMost(p, 0);
    } else {
      var last := |t| - 1;
      assert last in p;
      var j :| 0 <= j < |p| && p[j] == last;
      DropLast(p, |t|, j);
      ReadDropped(p, s, t, j);
      Rearranged(DropAt(p, j), s[..j] + s[j + 1..], t[..last]);
      Removed(s, j);
      Removed(t, last);
      assert t[..last] + t[last + 1..] == t[..last];
    }
  }

  function SumAt(p: seq<nat>, n: nat, f: nat -> real): real
    requires n <= |p|
  {
    if n == 0 then 0.0 else SumAt(p, n - 1, f) + f(p[n - 1])
  }

  function SumTo(n: nat, f: nat -> real): real {
    if n == 0 then 0.0 else SumTo(n - 1, f) + f(n - 1)
  }

  lemma {:induction false} SumSame(p: seq<nat>, q: seq<nat>, n: nat, f: nat -> real)
    requires n <= |p| && n <= |q| && forall k :: 0 <= k < n ==> p[k] == q[k]
    ensures SumAt(p, n, f) == SumAt(q, n, f)
  {
    if n > 0 { SumSame(p, q, n - 1, f); }
  }

  lemma {:induction false} SumDrop(p: seq<nat>, n: nat, j: nat, f: nat -> real)
    requires j < n <= |p|
    ensures SumAt(p, n, f) == SumAt(DropAt(p, j), n - 1, f) + f(p[j])
  {
    if j == n - 1 {
      SumSame(p, DropAt(p, j), n - 1, f);
    } else {
      SumDrop(p, n - 1, j, f);
      assert DropAt(p, j)[n - 2] == p[n - 1];
    }
  }

  /** The sum over the positions below `n` that are not in `p`. */
  function SumOutside(p: seq<nat>, n: nat, f: nat -> real): real {
    if n == 0 then 0.0 else SumOutside(p, n - 1, f) + if n - 1 in p then 0.0 else f(n - 1)
  }

  lemma {:induction false} SumOutsideSame(p: seq<nat>, q: seq<nat>, n: nat, f: nat -> real)
    requires forall i: nat :: i < n ==> (i in p <==> i in q)
    ensures SumOutside(p, n, f) == SumOutside(q, n, f)
  {
    if n > 0 {
      SumOutsideSame(p, q, n - 1, f);
    }
  }

  /** Distinct positions, in any order, and those left out add up to the sum from 0 to `n`. */
  lemma {:induction false} SumSplits(p: seq<nat>, n: nat, f: nat -> real)
    requires DistinctBelow(p, n)
    ensures SumAt(p, |p|, f) + SumOutside(p, n, f) == SumTo(n, f)
    decreases n
  {
    if n == 0 {
      AtMost(p, 0);
    } else if j: nat :| j < |p| && p[j] == n - 1 {
      var q := DropAt(p, j);
      DropLast(p, n, j);
      SumSplits(q, n - 1, f);
      SumDrop(p, |p|, j, f);
      SumOutsideSame(p, q, n - 1, f);
    } else {
      SumSplits(p, n - 1, f);
    }
  }

  lemma {:induction false} NothingOutside(p: seq<nat>, n: nat, f: nat -> real)
    requires forall i: nat :: i < n ==> i in p
    ensures SumOutside(p, n, f) == 0.0
  {
    if n > 0 {
      NothingOutside(p, n - 1, f);
    }
  }

  /** Distinct positions that are all of those below `n` are `n`. */
  lemma {:induction false} AllPresent(p: seq<nat>, n: nat)
    requires DistinctBelow(p, n) && forall i: nat :: i < n ==> i in p
    ensures |p| == n
  {
    if n == 0 {
      AtMost(p, 0);
    } else {
      assert n - 1 in p;
      var j :| 0 <= j < |p| && p[j] == n - 1;
      DropLast(p, n, j);
      AllPresent(DropAt(p, j), n - 1);
    }
  }

  // ---- totals ----------------------------------------------------------------------

  /** The sum of `f` over the list. */
  function Total<T>(s: seq<T>, f: T -> int): int {
    if s == [] then 0 else Total(s[..|s| - 1], f) + f(s[|s| - 1])
  }

  lemma {:induction false} TotalWithout<T>(s: seq<T>, j: nat, f: T -> int)
    requires j < |s|
    ensures Total(s, f) == Total(DropAt(s, j), f) + f(s[j])
  {
    var last := |s| - 1;
    if j == last {
      assert DropAt(s, j) == s[..last];
    } else {
      TotalWithout(s[..last], j, f);
      var rest := DropAt(s, j);
      assert rest[..|rest| - 1] == DropAt(s[..last], j) && rest[|rest| - 1] == s[last];
    }
  }

  /** A total does not depend on the order. */
  lemma {:induction false} TotalInAnyOrder<T>(s: seq<T>, t: seq<T>, f: T -> int)
    requires multiset(s) == multiset(t)
    ensures Total(s, f) == Total(t, f)
    decreases |t|
  {
    if t == [] {
      assert |multiset(s)| == 0;
    } else {
      var last := |t| - 1;
      assert t[last] in multiset(s);
      var j :| 0 <= j < |s| && s[j] == t[last];
      TakeOutBoth(s, t, j, last);
      assert t[..last] + t[last + 1..] == t[..last];
      TotalInAnyOrder(DropAt(s, j), t[..last], f);
      TotalWithout(s, j, f);
    }
  }

  lemma {:induction false} TotalOfConcat<T>(a: seq<T>, b: seq<T>, f: T -> int)
    ensures Total(a + b, f) == Total(a, f) + Total(b, f)
  {
    if b == [] {
      assert a + b == a;
    } else {
      TotalOfConcat(a, b[..|b| - 1], f);
      assert (a + b)[..|a + b| - 1] == a + b[..|b| - 1];
    }
  }

  /** Lists that agree element by element under `f` and `g` have equal totals. */
  lemma {:induction false} TotalAlike<S, T>(s: seq<S>, t: seq<T>, f: S -> int, g: T -> int)
    requires |s| == |t| && forall i :: 0 <= i < |s| ==> f(s[i]) == g(t[i])
    ensures Total(s, f) == Total(t, g)
  {
    if s != [] {
      TotalAlike(s[..|s| - 1], t[..|t| - 1], f, g);
    }
  }
}
