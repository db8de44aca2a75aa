/** Lists built by appending one block after another: where elements come from, and when keys stay distinct. */
module Blocks {

  function Joined<T>(blocks: seq<seq<T>>, n: nat): seq<T>
    requires n <= |blocks|
  {
    if n == 0 then [] else Joined(blocks, n - 1) + blocks[n - 1]
  }

  /** The elements of the whole are the elements of the blocks. */
  lemma {:induction false} JoinedHas<T>(blocks: seq<seq<T>>, n: nat, i: nat, x: T)
    requires i < n <= |blocks| && x in blocks[i]
    ensures x in Joined(blocks, n)
  {
    if i < n - 1 {
      JoinedHas(blocks, n - 1, i, x);
    }
  }

  lemma {:induction false} JoinedOrigin<T>(blocks: seq<seq<T>>, n: nat, x: T) returns (i: nat)
    requires n <= |blocks| && x in Joined(blocks, n)
    ensures i < n && x in blocks[i]
  {
    if x in blocks[n - 1] {
      i := n - 1;
    } else {
      i := JoinedOrigin(blocks, n - 1, x);
    }
  }

  lemma {:induction false} JoinedSize<T>(blocks: seq<seq<T>>, n: nat, size: nat)
    requires n <= |blocks| && forall i :: 0 <= i < n ==> |blocks[i]| == size
    ensures |Joined(blocks, n)| == n * size
  {
    if n > 0 {
      JoinedSize(blocks, n - 1, size);
    }
  }

  /** Where an element of a block stands in the whole, if all blocks are of one size. */
  lemma {:induction false} JoinedAt<T>(blocks: seq<seq<T>>, n: nat, size: nat, i: nat, j: nat)
    requires i < n <= |blocks| && j < size && forall k :: 0 <= k < n ==> |blocks[k]| == size
    ensures i * size + j < |Joined(blocks, n)| && Joined(blocks, n)[i * size + j] == blocks[i][j]
  {
    JoinedSize(blocks, n - 1, size);
    if i < n - 1 {
      JoinedAt(blocks, n - 1, size, i, j);
    }
  }

  ghost predicate KeysDistinct<T, K>(a: seq<T>, key: T -> K) {
    forall i, j :: 0 <= i < j < |a| ==> key(a[i]) != key(a[j])
  }

  ghost predicate ShareKey<T, K>(a: seq<T>, b: seq<T>, key: T -> K) {
    exists x, y :: x in a && y in b && key(x) == key(y)
  }

  lemma DistinctJoin<T, K>(a: seq<T>, b: seq<T>, key: T -> K)
    ensures KeysDistinct(a + b, key) <==> KeysDistinct(a, key) && KeysDistinct(b, key) && !ShareKey(a, b, key)
  {
    if KeysDistinct(a + b, key) {
      forall i, j | 0 <= i < j < |a| ensures key(a[i]) != key(a[j]) {
        assert (a + b)[i] == a[i] && (a + b)[j] == a[j];
      }
      forall i, j | 0 <= i < j < |b| ensures key(b[i]) != key(b[j]) {
        assert (a + b)[|a| + i] == b[i] && (a + b)[|a| + j] == b[j];
      }
      forall x, y | x in a && y in b ensures key(x) != key(y) {
        var i :| 0 <= i < |a| && a[i] == x;
        var j :| 0 <= j < |b| && b[j] == y;
        assert (a + b)[i] == x && (a + b)[|a| + j] == y;
      }
    }
  }

  /** Keys of the whole are distinct exactly when no two blocks, each with distinct keys, share one. */
  lemma {:induction false} JoinedDistinctIff<T, K>(blocks: seq<seq<T>>, n: nat, key: T -> K)
    requires n <= |blocks| && forall i :: 0 <= i < n ==> KeysDistinct(blocks[i], key)
    ensures KeysDistinct(Joined(blocks, n), key)
        <==> forall i, j :: 0 <= i < j < n ==> !ShareKey(blocks[i], blocks[j], key)
  {
    if n > 0 {
      JoinedDistinctIff(blocks, n - 1, key);
      DistinctJoin(Joined(blocks, n - 1), blocks[n - 1], key);
      SharedWithJoined(blocks, n - 1, blocks[n - 1], key);
    }
  }

  lemma SharedWithJoined<T, K>(blocks: seq<seq<T>>, n: nat, b: seq<T>, key: T -> K)
    requires n <= |blocks|
    ensures ShareKey(Joined(blocks, n), b, key) <==> exists i :: 0 <= i < n && ShareKey(blocks[i], b, key)
  {
    if ShareKey(Joined(blocks, n), b, key) {
      var x, y :| x in Joined(blocks, n) && y in b && key(x) == key(y);
      var i := JoinedOrigin(blocks, n, x);
      assert ShareKey(blocks[i], b, key);
    }
    if i :| 0 <= i < n && ShareKey(blocks[i], b, key) {
      var x, y :| x in blocks[i] && y in b && key(x) == key(y);
      JoinedHas(blocks, n, i, x);
    }
  }

  lemma {:induction false} JoinedPrefix<T>(blocks: seq<seq<T>>, more: seq<seq<T>>, n: nat)
    requires n <= |blocks|
    ensures Joined(blocks + more, n) == Joined(blocks, n)
  {
    if n > 0 {
      JoinedPrefix(blocks, more, n - 1);
    }
  }

  lemma {:induction false} JoinedConcat<T>(a: seq<seq<T>>, b: seq<seq<T>>, n: nat)
    requires n <= |b|
    ensures Joined(a + b, |a| + n) == Joined(a, |a|) + Joined(b, n)
  {
    if n == 0 {
      JoinedPrefix(a, b, |a|);
    } else {
      JoinedConcat(a, b, n - 1);
      LastBlock(a + b, |a| + n - 1, b[n - 1]);
      var x, y := Joined(a, |a|), Joined(b, n - 1);
      assert (x + y) + b[n - 1] == x + (y + b[n - 1]);
    }
  }

  lemma {:induction false} LastBlock<T>(blocks: seq<seq<T>>, n: nat, last: seq<T>)
    requires n < |blocks| && blocks[n] == last
    ensures Joined(blocks, n + 1) == Joined(blocks, n) + last
  {
  }

  function Image<T, U>(s: seq<T>, f: T -> U): (image: seq<U>)
    ensures |image| == |s|
  {
    seq(|s|, i requires 0 <= i < |s| => f(s[i]))
  }

  lemma ImageOrigin<T, U>(s: seq<T>, f: T -> U, x: U) returns (i: nat)
    requires x in Image(s, f)
    ensures i < |s| && f(s[i]) == x
  {
    i :| 0 <= i < |s| && Image(s, f)[i] == x;
  }

  /** Changing every element and joining the blocks can be done in either order. */
  lemma {:induction false} JoinedImages<T, U>(blocks: seq<seq<T>>, images: seq<seq<U>>, n: nat, f: T -> U)
    requires n <= |blocks| == |images| && forall i :: 0 <= i < n ==> images[i] == Image(blocks[i], f)
    ensures Joined(images, n) == Image(Joined(blocks, n), f)
  {
    if n > 0 {
      JoinedImages(blocks, images, n - 1, f);
      var a, b := Joined(blocks, n - 1), blocks[n - 1];
      assert Image(a + b, f) == Image(a, f) + Image(b, f);
    }
  }

  /** The elements some lists add up to, one list for each element of `s`. */
  function Expand<T, U>(s: seq<T>, f: T -> seq<U>): seq<U> {
    Joined(Image(s, f), |s|)
  }

  lemma {:induction false} ExpandConcat<T, U>(a: seq<T>, b: seq<T>, f: T -> seq<U>)
    ensures Expand(a + b, f) == Expand(a, f) + Expand(b, f)
  {
    assert Image(a + b, f) == Image(a, f) + Image(b, f);
    JoinedConcat(Image(a, f), Image(b, f), |b|);
  }

  /** Expanding block by block is expanding the whole. */
  lemma {:induction false} JoinedExpands<T, U>(blocks: seq<seq<T>>, expanded: seq<seq<U>>, n: nat, f: T -> seq<U>)
    requires n <= |blocks| == |expanded| && forall i :: 0 <= i < n ==> expanded[i] == Expand(blocks[i], f)
    ensures Joined(expanded, n) == Expand(Joined(blocks, n), f)
  {
    if n > 0 {
      JoinedExpands(blocks, expanded, n - 1, f);
      ExpandConcat(Joined(blocks, n - 1), blocks[n - 1], f);
    }
  }

  lemma {:induction false} JoinedConcatIs<T>(a: seq<seq<T>>, b: seq<seq<T>>, whole: seq<seq<T>>)
    requires whole == a + b
    ensures Joined(whole, |whole|) == Joined(a, |a|) + Joined(b, |b|)
  {
    JoinedConcat(a, b, |b|);
  }

  lemma {:induction false} JoinedUpTo<T>(blocks: seq<seq<T>>, i: nat)
    requires i < |blocks|
    ensures Joined(blocks[..i + 1], i + 1) == Joined(blocks[..i], i) + blocks[i]
  {
    assert blocks[..i + 1] == blocks[..i] + [blocks[i]];
    JoinedPrefix(blocks[..i], [blocks[i]], i);
    LastBlock(blocks[..i + 1], i, blocks[i]);
  }

  lemma MiddleOut<T>(x: seq<T>, b: seq<T>, y: seq<T>)
    ensures multiset((x + b) + y) == multiset(x + y) + multiset(b)
  {
  }

  lemma {:induction false} JoinedWithout<T>(blocks: seq<seq<T>>, i: nat)
    requires i < |blocks|
    ensures multiset(Joined(blocks, |blocks|))
            == multiset(Joined(blocks[..i] + blocks[i + 1..], |blocks| - 1)) + multiset(blocks[i])
  {
    JoinedAround(blocks, i);
    MiddleOut(Joined(blocks[..i], i), blocks[i], Joined(blocks[i + 1..], |blocks[i + 1..]|));
  }

  /** The whole with a block and without it. */
  lemma {:induction false} JoinedAround<T>(blocks: seq<seq<T>>, i: nat)
    requires i < |blocks|
    ensures var x, y := blocks[..i], blocks[i + 1..];
      && Joined(blocks, |blocks|) == (Joined(x, i) + blocks[i]) + Joined(y, |y|)
      && Joined(x + y, |blocks| - 1) == Joined(x, i) + Joined(y, |y|)
  {
    var x, head, y := blocks[..i], blocks[..i + 1], blocks[i + 1..];
    var rest := x + y;
    JoinedConcatIs(head, y, blocks);
    JoinedConcatIs(x, y, rest);
    assert |x| == i && |head| == i + 1 && |rest| == |blocks| - 1;
    JoinedUpTo(blocks, i);
  }

  lemma Removed<T>(s: seq<T>, i: nat)
    requires i < |s|
    ensures multiset(s) == multiset(s[..i] + s[i + 1..]) + multiset{s[i]}
  {
    assert s == s[..i] + [s[i]] + s[i + 1..];
  }

  lemma TakeOutBoth<T>(a: seq<T>, b: seq<T>, i: nat, j: nat)
    requires multiset(a) == multiset(b) && i < |a| && j < |b| && a[i] == b[j]
    ensures multiset(a[..i] + a[i + 1..]) == multiset(b[..j] + b[j + 1..])
  {
    Removed(a, i);
    Removed(b, j);
    var x, y := multiset(a[..i] + a[i + 1..]), multiset(b[..j] + b[j + 1..]);
    assert x == (x + multiset{a[i]}) - multiset{a[i]} && y == (y + multiset{b[j]}) - multiset{b[j]};
  }

  /** Changing every element of a reordered list gives a reordering of the changed list. */
  lemma {:induction false} ImagePermuted<T, U>(a: seq<T>, b: seq<T>, f: T -> U)
    requires multiset(a) == multiset(b)
    ensures multiset(Image(a, f)) == multiset(Image(b, f))
    decreases |a|
  {
    assert |multiset(a)| == |multiset(b)|;
    if a != [] {
      var last := |a| - 1;
      assert a[last] in multiset(b);
      var i :| 0 <= i < |b| && b[i] == a[last];
      TakeOutBoth(a, b, last, i);
      ImagePermuted(a[..last] + a[last + 1..], b[..i] + b[i + 1..], f);
      ImageWithout(a, last, f);
      ImageWithout(b, i, f);
    }
  }

  lemma ImageWithout<T, U>(s: seq<T>, i: nat, f: T -> U)
    requires i < |s|
    ensures multiset(Image(s, f)) == multiset(Image(s[..i] + s[i + 1..], f)) + multiset{f(s[i])}
  {
    var image := Image(s, f);
    Removed(image, i);
    assert image[..i] + image[i + 1..] == Image(s[..i] + s[i + 1..], f);
  }

  lemma {:induction false} JoinedInWhole<T>(blocks: seq<seq<T>>, n: nat, m: nat, x: T)
    requires n <= m <= |blocks| && x in Joined(blocks, n)
    ensures x in Joined(blocks, m)
  {
    if n < m {
      JoinedInWhole(blocks, n, m - 1, x);
      LastBlock(blocks, m - 1, blocks[m - 1]);
    }
  }

  /** Delivering the blocks in another order delivers the same elements. */
  lemma {:induction false} JoinedPermuted<T>(a: seq<seq<T>>, b: seq<seq<T>>)
    requires multiset(a) == multiset(b)
    ensures multiset(Joined(a, |a|)) == multiset(Joined(b, |b|))
    decreases |a|
  {
    assert |multiset(a)| == |multiset(b)|;
    if a != [] {
      var last := |a| - 1;
      assert a[last] in multiset(b);
      var i :| 0 <= i < |b| && b[i] == a[last];
      TakeOutBoth(a, b, last, i);
      JoinedPermuted(a[..last] + a[last + 1..], b[..i] + b[i + 1..]);
      JoinedWithout(a, last);
      JoinedWithout(b, i);
    }
  }
}
