/**
 * Keeping one entry per key out of a list: the last one with the greatest stamp.
 * Everything is stated for the first `n` entries, the part a left-to-right pass has seen.
 */
module LatestPerKey {
  import opened Text

  /** How recent a row is: a text or a number. */
  datatype Stamp = InText(text: string) | InNumber(n: int)

  /** Python compares two texts or two numbers; comparing one with the other raises. */
  predicate SameKind(a: Stamp, b: Stamp) {
    a.InText? == b.InText?
  }

  /** Python's `<=`; where that raises the order is completed by putting texts first. */
  predicate NotLater(a: Stamp, b: Stamp) {
    match (a, b)
    case (InText(x), InText(y)) => Le(x, y)
    case (InNumber(x), InNumber(y)) => x <= y
    case _ => a.InText?
  }

  lemma StampTotal(a: Stamp, b: Stamp)
    ensures NotLater(a, a)
    ensures NotLater(a, b) || NotLater(b, a)
    ensures NotLater(a, b) && NotLater(b, a) ==> a == b
  {
    if a.InText? {
      LeTotal(a.text, if b.InText? then b.text else "");
    }
  }

  lemma StampTransitive(a: Stamp, b: Stamp, c: Stamp)
    requires NotLater(a, b) && NotLater(b, c)
    ensures NotLater(a, c)
  {
    if c.InText? {
      LeTransitive(a.text, b.text, c.text);
    }
  }

  datatype Entry<+K> = Entry(key: K, stamp: Stamp)

  /** No entry of the same key is more recent. */
  ghost predicate IsTop<K>(es: seq<Entry<K>>, n: int, i: int) {
    0 <= i < n <= |es| && forall j :: 0 <= j < n && es[j].key == es[i].key ==> NotLater(es[j].stamp, es[i].stamp)
  }

  /** The entry to keep for its key: the last one among the most recent. */
  ghost predicate IsWinner<K>(es: seq<Entry<K>>, n: int, i: int) {
    IsTop(es, n, i) && forall j :: i < j < n && es[j].key == es[i].key ==> es[j].stamp != es[i].stamp
  }

  /** The index left for each key by a pass that replaces on `>=`. */
  function Winners<K>(es: seq<Entry<K>>, n: nat): (w: map<K, nat>)
    requires n <= |es|
    ensures forall k :: k in w ==> w[k] < n && es[w[k]].key == k
  {
    if n == 0 then map[]
    else
      var w := Winners(es, n - 1);
      var e := es[n - 1];
      if e.key in w && !NotLater(es[w[e.key]].stamp, e.stamp) then w else w[e.key := n - 1]
  }

  lemma {:induction false} KeysSeen<K>(es: seq<Entry<K>>, n: nat, j: nat)
    requires j < n <= |es|
    ensures es[j].key in Winners(es, n)
  {
    if j < n - 1 {
      KeysSeen(es, n - 1, j);
    }
  }

  lemma WinnerOfKey<K>(es: seq<Entry<K>>, n: nat, k: K)
    requires 0 < n <= |es| && k in Winners(es, n)
    requires k in Winners(es, n - 1) ==> IsWinner(es, n - 1, Winners(es, n - 1)[k])
    ensures IsWinner(es, n, Winners(es, n)[k])
  {
    if k in Winners(es, n - 1) {
      WinnerAfterOneMore(es, n, Winners(es, n - 1)[k]);
    } else {
      StampTotal(es[n - 1].stamp, es[n - 1].stamp);
      NewKeyAppears(es, n - 1);
    }
  }

  lemma {:induction false} WinnerIsLeft<K>(es: seq<Entry<K>>, n: nat, k: K)
    requires n <= |es| && k in Winners(es, n)
    ensures IsWinner(es, n, Winners(es, n)[k])
  {
    if k in Winners(es, n - 1) {
      WinnerIsLeft(es, n - 1, k);
    }
    WinnerOfKey(es, n, k);
  }

  lemma WinnersWin<K>(es: seq<Entry<K>>, n: nat)
    requires n <= |es|
    ensures forall j :: 0 <= j < n ==> es[j].key in Winners(es, n)
    ensures forall k :: k in Winners(es, n) ==> IsWinner(es, n, Winners(es, n)[k])
  {
    forall j | 0 <= j < n ensures es[j].key in Winners(es, n) {
      KeysSeen(es, n, j);
    }
    forall k | k in Winners(es, n) ensures IsWinner(es, n, Winners(es, n)[k]) {
      WinnerIsLeft(es, n, k);
    }
  }

  /** How a winner of the first `n - 1` entries fares against entry `n - 1`. */
  lemma WinnerAfterOneMore<K>(es: seq<Entry<K>>, n: nat, i: int)
    requires 0 < n <= |es| && IsWinner(es, n - 1, i)
    ensures var last := n - 1;
      if es[last].key == es[i].key && NotLater(es[i].stamp, es[last].stamp) then IsWinner(es, n, last)
      else IsWinner(es, n, i)
  {
    var last := n - 1;
    StampTotal(es[i].stamp, es[last].stamp);
    if es[last].key == es[i].key && NotLater(es[i].stamp, es[last].stamp) {
      StampTotal(es[last].stamp, es[last].stamp);
      forall j | 0 <= j < n && es[j].key == es[last].key ensures NotLater(es[j].stamp, es[last].stamp) {
        if j < last {
          StampTransitive(es[j].stamp, es[i].stamp, es[last].stamp);
        }
      }
    }
  }

  lemma WinnerUnique<K>(es: seq<Entry<K>>, n: nat, i: int)
    requires n <= |es| && IsWinner(es, n, i)
    ensures es[i].key in Winners(es, n) && Winners(es, n)[es[i].key] == i
  {
    WinnersWin(es, n);
    StampTotal(es[i].stamp, es[Winners(es, n)[es[i].key]].stamp);
  }

  ghost predicate AppearsFirstAt<K>(es: seq<Entry<K>>, f: int) {
    0 <= f < |es| && forall j :: 0 <= j < f ==> es[j].key != es[f].key
  }

  /** The distinct keys in order of first appearance. */
  function Order<K(==)>(es: seq<Entry<K>>, n: nat): seq<K>
    requires n <= |es|
  {
    if n == 0 then []
    else
      var ks := Order(es, n - 1);
      if es[n - 1].key in Winners(es, n - 1) then ks else ks + [es[n - 1].key]
  }

  lemma {:induction false} OrderHasWinners<K>(es: seq<Entry<K>>, n: nat)
    requires n <= |es|
    ensures forall m :: 0 <= m < |Order(es, n)| ==> Order(es, n)[m] in Winners(es, n)
  {
    if n > 0 {
      OrderHasWinners(es, n - 1);
    }
  }

  /** `first` lists where the keys of `Order` appear first. */
  ghost predicate Firsts<K>(es: seq<Entry<K>>, n: nat, first: seq<int>)
    requires n <= |es|
  {
    && |first| == |Order(es, n)|
    && (forall m :: 0 <= m < |first| ==> 0 <= first[m] < n && es[first[m]].key == Order(es, n)[m])
    && (forall m :: 0 <= m < |first| ==> AppearsFirstAt(es, first[m]))
    && (forall l, m :: 0 <= l < m < |first| ==> first[l] < first[m])
  }

  lemma NewKeyAppears<K>(es: seq<Entry<K>>, n: nat)
    requires n < |es| && es[n].key !in Winners(es, n)
    ensures AppearsFirstAt(es, n)
  {
    forall j | 0 <= j < n ensures es[j].key != es[n].key {
      KeysSeen(es, n, j);
    }
  }

  lemma OneMoreFirst<K>(es: seq<Entry<K>>, n: nat, first: seq<int>)
    requires n < |es| && Firsts(es, n, first) && es[n].key !in Winners(es, n)
    ensures Firsts(es, n + 1, first + [n])
  {
    NewKeyAppears(es, n);
  }

  /** Where the keys of `Order` appear first, in increasing position. */
  lemma {:induction false} OrderIsFirstAppearance<K>(es: seq<Entry<K>>, n: nat) returns (first: seq<int>)
    requires n <= |es|
    ensures Firsts(es, n, first)
  {
    first := [];
    if n > 0 {
      first := OrderIsFirstAppearance(es, n - 1);
      if es[n - 1].key !in Winners(es, n - 1) {
        OneMoreFirst(es, n - 1, first);
        first := first + [n - 1];
      }
    }
  }

  lemma {:induction false} OrderMissesNoKey<K>(es: seq<Entry<K>>, n: nat, j: nat) returns (m: nat)
    requires j < n <= |es|
    ensures m < |Order(es, n)| && Order(es, n)[m] == es[j].key
  {
    if j < n - 1 {
      m := OrderMissesNoKey(es, n - 1, j);
    } else if es[j].key in Winners(es, j) {
      var i := Winners(es, j)[es[j].key];
      m := OrderMissesNoKey(es, j, i);
    } else {
      m := |Order(es, n)| - 1;
    }
  }

  // ---- rows ----------------------------------------------------------------

  /** The entries of a list of rows; a key may depend on the row's position, a stamp does not. */
  function Entries<R, K>(rows: seq<R>, keyAt: (R, int) -> K, stamp: R -> Stamp): (es: seq<Entry<K>>)
    ensures |es| == |rows|
  {
    seq(|rows|, i requires 0 <= i < |rows| => Entry(keyAt(rows[i], i), stamp(rows[i])))
  }

  /** What is kept, as a map: one row per key. */
  function Latest<R, K>(rows: seq<R>, keyAt: (R, int) -> K, stamp: R -> Stamp): map<K, R> {
    var w := Winners(Entries(rows, keyAt, stamp), |rows|);
    map k | k in w :: rows[w[k]]
  }

  /** What is kept, as a list: keys in order of first appearance. */
  function Dedup<R, K(==)>(rows: seq<R>, keyAt: (R, int) -> K, stamp: R -> Stamp): (kept: seq<R>)
  {
    var es := Entries(rows, keyAt, stamp);
    var ks, w := Order(es, |rows|), Winners(es, |rows|);
    OrderHasWinners(es, |rows|);
    seq(|ks|, n requires 0 <= n < |ks| => rows[w[ks[n]]])
  }

  /** `best` and `order` after `n` rows. */
  ghost predicate Tracks<R, K>(rows: seq<R>, es: seq<Entry<K>>, n: nat, order: seq<K>, best: map<K, R>)
    requires n <= |rows| == |es|
  {
    order == Order(es, n) && best.Keys == Winners(es, n).Keys && forall k :: k in best ==>
      best[k] == rows[Winners(es, n)[k]]
  }

  lemma TrackOneMore<R, K>(rows: seq<R>, es: seq<Entry<K>>, n: nat, order: seq<K>, best: map<K, R>)
    requires n < |rows| == |es| && Tracks(rows, es, n, order, best)
    ensures var key, now := es[n].key, best[es[n].key := rows[n]];
      if key !in best then Tracks(rows, es, n + 1, order + [key], now)
      else Tracks(rows, es, n + 1, order, if NotLater(es[Winners(es, n)[key]].stamp, es[n].stamp) then now else best)
  {
  }

  /** Each of the first `n` entries can be compared with the one kept for its key before it. */
  predicate Comparable<K(==)>(es: seq<Entry<K>>, n: nat)
    requires n <= |es|
  {
    n == 0 || (Comparable(es, n - 1) && ComparesNext(es, n - 1))
  }

  predicate ComparesNext<K(==)>(es: seq<Entry<K>>, n: nat)
    requires n < |es|
  {
    var w := Winners(es, n); es[n].key in w ==> SameKind(es[w[es[n].key]].stamp, es[n].stamp)
  }

  lemma {:induction false} ComparableBefore<K>(es: seq<Entry<K>>, n: nat, m: nat)
    requires n <= m <= |es| && Comparable(es, m)
    ensures Comparable(es, n)
  {
    if n < m {
      ComparableBefore(es, n, m - 1);
    }
  }

  /** No two of the first `n` entries have one key and stamps of different kinds. */
  ghost predicate OneKindPerKey<K>(es: seq<Entry<K>>, n: nat)
    requires n <= |es|
  {
    forall i, j :: 0 <= i < j < n && es[i].key == es[j].key ==> SameKind(es[i].stamp, es[j].stamp)
  }

  lemma NextComparesAll<K>(es: seq<Entry<K>>, n: nat)
    requires n < |es| && OneKindPerKey(es, n)
    ensures ComparesNext(es, n) <==>
              forall i :: 0 <= i < n && es[i].key == es[n].key ==> SameKind(es[i].stamp, es[n].stamp)
  {
    var key := es[n].key;
    if key in Winners(es, n) {
      var w := Winners(es, n)[key];
      assert es[w].key == key;
      forall i | 0 <= i < n && es[i].key == key ensures SameKind(es[i].stamp, es[w].stamp) {
        assert i < w || w < i || i == w;
      }
    } else {
      NewKeyAppears(es, n);
    }
  }

  /** The pass meets no pair it cannot compare exactly when no two entries of one key are of different kinds. */
  lemma {:induction false} ComparableMeans<K>(es: seq<Entry<K>>, n: nat)
    requires n <= |es|
    ensures Comparable(es, n) <==> OneKindPerKey(es, n)
  {
    if n > 0 {
      ComparableMeans(es, n - 1);
      if OneKindPerKey(es, n - 1) {
        NextComparesAll(es, n - 1);
      }
    }
  }

  /** The loop after `n` rows, all comparable. */
  ghost predicate Tracked<R, K>(rows: seq<R>, keyAt: (R, int) -> K, stamp: R -> Stamp, n: nat, order: seq<K>,
                                best: map<K, R>)
  {
    n <= |rows| && var es := Entries(rows, keyAt, stamp); Tracks(rows, es, n, order, best) && Comparable(es, n)
  }

  /** One round: the key is new, or its kept row has a stamp that cannot be compared, is older, or stays. */
  lemma RoundTracked<R, K>(rows: seq<R>, keyAt: (R, int) -> K, stamp: R -> Stamp, n: nat, order: seq<K>,
                           best: map<K, R>)
    requires n < |rows| && Tracked(rows, keyAt, stamp, n, order, best)
    ensures var row, key := rows[n], keyAt(rows[n], n);
      if key !in best then Tracked(rows, keyAt, stamp, n + 1, order + [key], best[key := row])
      else if !SameKind(stamp(best[key]), stamp(row)) then !Comparable(Entries(rows, keyAt, stamp), |rows|)
      else Tracked(rows, keyAt, stamp, n + 1, order,
                   if NotLater(stamp(best[key]), stamp(row)) then best[key := row] else best)
  {
    var es := Entries(rows, keyAt, stamp);
    TrackOneMore(rows, es, n, order, best);
    assert es[n] == Entry(keyAt(rows[n], n), stamp(rows[n]));
    if Comparable(es, |rows|) {
      ComparableBefore(es, n + 1, |rows|);
    }
  }

  /** The loop's result: the kept row of every key, in order. */
  function KeptInOrder<R, K(==)>(order: seq<K>, best: map<K, R>): seq<R>
    requires forall n :: 0 <= n < |order| ==> order[n] in best
  {
    seq(|order|, n requires 0 <= n < |order| => best[order[n]])
  }

  lemma TrackedNone<R, K>(rows: seq<R>, keyAt: (R, int) -> K, stamp: R -> Stamp)
    ensures Tracked(rows, keyAt, stamp, 0, [], map[])
  {
  }

  lemma TrackedAll<R, K>(rows: seq<R>, keyAt: (R, int) -> K, stamp: R -> Stamp, order: seq<K>, best: map<K, R>)
    requires Tracked(rows, keyAt, stamp, |rows|, order, best)
    ensures Comparable(Entries(rows, keyAt, stamp), |rows|)
    ensures (forall n :: 0 <= n < |order| ==> order[n] in best) && KeptInOrder(order, best) == Dedup(rows, keyAt, stamp)
  {
    OrderHasWinners(Entries(rows, keyAt, stamp), |rows|);
  }

  /**
   * The dedup loop: `best` holds the row kept so far for each key, `order` the keys as they appeared. It raises
   * (`None`) exactly when two rows of one key have stamps that cannot be compared.
   */
  method DedupRows<R, K(==)>(rows: seq<R>, keyAt: (R, int) -> K, stamp: R -> Stamp) returns (kept: Option<seq<R>>)
    ensures kept.Some? <==> Comparable(Entries(rows, keyAt, stamp), |rows|)
    ensures kept.Some? ==> kept.value == Dedup(rows, keyAt, stamp)
  {
    var best: map<K, R> := map[];
    var order: seq<K> := [];
    TrackedNone(rows, keyAt, stamp);
    for i := 0 to |rows|
      invariant Tracked(rows, keyAt, stamp, i, order, best)
    {
      var row := rows[i];
      var key := keyAt(row, i);
      RoundTracked(rows, keyAt, stamp, i, order, best);
      if key !in best {
        best, order := best[key := row], order + [key];
      } else {
        var now, before := stamp(row), stamp(best[key]);
        if !SameKind(before, now) {
          return None;
        }
        if NotLater(before, now) {
          best := best[key := row];
        }
      }
    }
    TrackedAll(rows, keyAt, stamp, order, best);
    kept := Some(KeptInOrder(order, best));
  }

  /**
   * The kept rows: one for each key, keys in order of first appearance, and each row the last of the
   * most recent rows of its key.
   */
  lemma DedupKeepsLatest<R, K>(rows: seq<R>, keyAt: (R, int) -> K, stamp: R -> Stamp)
    returns (first: seq<int>, kept: seq<int>)
    ensures |Dedup(rows, keyAt, stamp)| == |first| == |kept|
    ensures forall n :: 0 <= n < |kept| ==> 0 <= kept[n] < |rows| && 0 <= first[n] < |rows|
    ensures forall n :: 0 <= n < |kept| ==> IsWinner(Entries(rows, keyAt, stamp), |rows|, kept[n])
    ensures forall n :: 0 <= n < |kept| ==> Dedup(rows, keyAt, stamp)[n] == rows[kept[n]]
    ensures forall n :: 0 <= n < |first| ==> AppearsFirstAt(Entries(rows, keyAt, stamp), first[n])
    ensures forall n :: 0 <= n < |first| ==> keyAt(rows[first[n]], first[n]) == keyAt(rows[kept[n]], kept[n])
    ensures forall n, m :: 0 <= n < m < |first| ==> first[n] < first[m]
  {
    var es := Entries(rows, keyAt, stamp);
    var ks, w := Order(es, |rows|), Winners(es, |rows|);
    OrderHasWinners(es, |rows|);
    first := OrderIsFirstAppearance(es, |rows|);
    WinnersWin(es, |rows|);
    kept := seq(|first|, n requires 0 <= n < |first| => w[ks[n]]);
  }

  /** No key is lost: the row kept for the key of row `j`. */
  lemma DedupLosesNoKey<R, K>(rows: seq<R>, keyAt: (R, int) -> K, stamp: R -> Stamp, j: nat) returns (n: nat, i: int)
    requires j < |rows|
    ensures n < |Dedup(rows, keyAt, stamp)| && 0 <= i < |rows| && Dedup(rows, keyAt, stamp)[n] == rows[i]
    ensures IsWinner(Entries(rows, keyAt, stamp), |rows|, i) && keyAt(rows[i], i) == keyAt(rows[j], j)
  {
    var es := Entries(rows, keyAt, stamp);
    n := OrderMissesNoKey(es, |rows|, j);
    WinnersWin(es, |rows|);
    i := Winners(es, |rows|)[es[j].key];
  }

  /** What is kept was delivered, and something is kept unless nothing was delivered. */
  lemma KeptAreRows<R, K>(rows: seq<R>, keyAt: (R, int) -> K, stamp: R -> Stamp)
    ensures forall r :: r in Dedup(rows, keyAt, stamp) ==> r in rows
    ensures rows == [] <==> Dedup(rows, keyAt, stamp) == []
  {
    var first, from := DedupKeepsLatest(rows, keyAt, stamp);
    if rows != [] {
      var n, i := DedupLosesNoKey(rows, keyAt, stamp, 0);
    }
  }

  lemma {:induction false} WinnersOfDistinct<K>(es: seq<Entry<K>>, n: nat, m: nat)
    requires m < n <= |es| && forall i, j :: 0 <= i < j < n ==> es[i].key != es[j].key
    ensures es[m].key in Winners(es, n) && Winners(es, n)[es[m].key] == m
  {
    if m < n - 1 {
      WinnersOfDistinct(es, n - 1, m);
      assert es[m].key != es[n - 1].key;
    }
  }

  lemma {:induction false} OrderOfDistinct<K>(es: seq<Entry<K>>, n: nat)
    requires n <= |es| && forall i, j :: 0 <= i < j < n ==> es[i].key != es[j].key
    ensures |Order(es, n)| == n
    ensures forall m :: 0 <= m < n ==> Order(es, n)[m] == es[m].key
  {
    if n > 0 {
      OrderOfDistinct(es, n - 1);
      LastKeyIsNew(es, n);
    }
  }

  lemma LastKeyIsNew<K>(es: seq<Entry<K>>, n: nat)
    requires 0 < n <= |es| && forall i :: 0 <= i < n - 1 ==> es[i].key != es[n - 1].key
    ensures es[n - 1].key !in Winners(es, n - 1)
  {
  }

  lemma {:induction false} OrderIsShort<K>(es: seq<Entry<K>>, n: nat)
    requires n <= |es|
    ensures |Order(es, n)| <= n
  {
    if n > 0 {
      OrderIsShort(es, n - 1);
    }
  }

  lemma {:induction false} FullOrderIsDistinct<K>(es: seq<Entry<K>>, n: nat, i: nat, j: nat)
    requires i < j < n <= |es| && |Order(es, n)| == n
    ensures es[i].key != es[j].key
  {
    OrderIsShort(es, n - 1);
    assert |Order(es, n - 1)| == n - 1 && es[n - 1].key !in Winners(es, n - 1);
    if j < n - 1 {
      FullOrderIsDistinct(es, n - 1, i, j);
    } else {
      KeysSeen(es, n - 1, i);
    }
  }

  ghost predicate DistinctKeys<K>(es: seq<Entry<K>>) {
    forall i, j :: 0 <= i < j < |es| ==> es[i].key != es[j].key
  }

  lemma DistinctAllKept<R, K>(rows: seq<R>, keyAt: (R, int) -> K, stamp: R -> Stamp)
    requires DistinctKeys(Entries(rows, keyAt, stamp))
    ensures Dedup(rows, keyAt, stamp) == rows
  {
    var es := Entries(rows, keyAt, stamp);
    OrderOfDistinct(es, |rows|);
    forall m | 0 <= m < |rows| ensures Dedup(rows, keyAt, stamp)[m] == rows[m] {
      WinnersOfDistinct(es, |rows|, m);
    }
  }

  lemma AllKeptDistinct<R, K>(rows: seq<R>, keyAt: (R, int) -> K, stamp: R -> Stamp)
    requires |Dedup(rows, keyAt, stamp)| == |rows|
    ensures DistinctKeys(Entries(rows, keyAt, stamp))
  {
    var es := Entries(rows, keyAt, stamp);
    forall i, j | 0 <= i < j < |rows| ensures es[i].key != es[j].key {
      FullOrderIsDistinct(es, |rows|, i, j);
    }
  }

  /** Nothing is dropped exactly when no two rows share a key; then the list is left as it is. */
  lemma DedupKeepsAllIffDistinct<R, K>(rows: seq<R>, keyAt: (R, int) -> K, stamp: R -> Stamp)
    ensures |Dedup(rows, keyAt, stamp)| == |rows|
            <==> forall i, j :: 0 <= i < j < |rows| ==> keyAt(rows[i], i) != keyAt(rows[j], j)
    ensures |Dedup(rows, keyAt, stamp)| == |rows| ==> Dedup(rows, keyAt, stamp) == rows
  {
    var es := Entries(rows, keyAt, stamp);
    assert forall i :: 0 <= i < |rows| ==> es[i].key == keyAt(rows[i], i);
    if |Dedup(rows, keyAt, stamp)| == |rows| {
      AllKeptDistinct(rows, keyAt, stamp);
      DistinctAllKept(rows, keyAt, stamp);
    } else if DistinctKeys(es) {
      DistinctAllKept(rows, keyAt, stamp);
    }
  }

  lemma LatestIsWinner<R, K>(rows: seq<R>, keyAt: (R, int) -> K, stamp: R -> Stamp, k: K) returns (i: int)
    requires k in Latest(rows, keyAt, stamp)
    ensures IsWinner(Entries(rows, keyAt, stamp), |rows|, i)
    ensures keyAt(rows[i], i) == k && Latest(rows, keyAt, stamp)[k] == rows[i]
  {
    WinnersWin(Entries(rows, keyAt, stamp), |rows|);
    i := Winners(Entries(rows, keyAt, stamp), |rows|)[k];
  }

  /** No row of a key has a later stamp than the row kept for it. */
  lemma KeptIsNotEarlier<R, K>(rows: seq<R>, keyAt: (R, int) -> K, stamp: R -> Stamp, j: nat)
    requires j < |rows|
    ensures var k, kept := keyAt(rows[j], j), Latest(rows, keyAt, stamp);
      k in kept && NotLater(stamp(rows[j]), stamp(kept[k]))
  {
    var es := Entries(rows, keyAt, stamp);
    assert es[j] == Entry(keyAt(rows[j], j), stamp(rows[j]));
    KeysSeen(es, |rows|, j);
    WinnerIsLeft(es, |rows|, es[j].key);
  }

  // ---- order independence --------------------------------------------------

  /** Every row carries its own key, wherever it stands. */
  ghost predicate PositionFree<R, K>(rows: seq<R>, keyAt: (R, int) -> K) {
    forall r, i, j :: r in rows ==> keyAt(r, i) == keyAt(r, j)
  }

  /** Rows of one key that tie on the greatest stamp are the same row. */
  ghost predicate TopsAgree<R, K>(rows: seq<R>, keyAt: (R, int) -> K, stamp: R -> Stamp) {
    var es := Entries(rows, keyAt, stamp);
    forall i, j :: IsTop(es, |es|, i) && IsTop(es, |es|, j) && es[i].key == es[j].key ==> rows[i] == rows[j]
  }

  lemma Locate<T>(a: seq<T>, b: seq<T>) returns (at: seq<int>)
    requires multiset(a) == multiset(b)
    ensures |a| == |b| == |at|
    ensures forall i :: 0 <= i < |a| ==> 0 <= at[i] < |b| && b[at[i]] == a[i]
  {
    assert |multiset(a)| == |multiset(b)|;
    forall i | 0 <= i < |a| ensures exists j :: 0 <= j < |b| && b[j] == a[i] {
      assert a[i] in multiset(b);
    }
    at := seq(|a|, i requires 0 <= i < |a| => var j :| 0 <= j < |b| && b[j] == a[i]; j);
  }

  /** If two lists hold the same entries, a winner of one is a top of the other. */
  lemma WinnerIsTopElsewhere<K>(es: seq<Entry<K>>, fs: seq<Entry<K>>, from: seq<int>, at: int, i: int)
    requires |es| == |fs| == |from| && 0 <= at < |es|
    requires forall m :: 0 <= m < |es| ==> 0 <= from[m] < |fs| && fs[from[m]] == es[m]
    requires IsWinner(fs, |fs|, i) && es[at] == fs[i]
    ensures IsTop(es, |es|, at)
  {
    forall m | 0 <= m < |es| && es[m].key == es[at].key ensures NotLater(es[m].stamp, es[at].stamp) {
      assert fs[from[m]].key == fs[i].key;
    }
  }

  /** The row a list keeps for a key stands, as a top row, in every reordering of the list. */
  lemma WinnerCarriesOver<R, K>(rows: seq<R>, other: seq<R>, keyAt: (R, int) -> K, stamp: R -> Stamp, i: int)
    returns (j: int)
    requires PositionFree(rows, keyAt) && multiset(other) == multiset(rows) && |rows| == |other|
    requires IsWinner(Entries(other, keyAt, stamp), |rows|, i)
    ensures 0 <= j < |rows| && rows[j] == other[i]
    ensures IsTop(Entries(rows, keyAt, stamp), |rows|, j)
  {
    var there := Locate(rows, other);
    assert other[i] in multiset(rows);
    j :| 0 <= j < |rows| && rows[j] == other[i];
    WinnerIsTopElsewhere(Entries(rows, keyAt, stamp), Entries(other, keyAt, stamp), there, j, i);
  }

  lemma ReorderedIsPositionFree<R(!new), K(!new)>(rows: seq<R>, other: seq<R>, keyAt: (R, int) -> K)
    requires PositionFree(rows, keyAt) && multiset(other) == multiset(rows)
    ensures PositionFree(other, keyAt) && |other| == |rows|
  {
    assert |multiset(other)| == |multiset(rows)|;
    forall r, i, j | r in other ensures keyAt(r, i) == keyAt(r, j) {
      assert r in multiset(rows);
    }
  }

  /** Whether all rows of a key can be compared does not depend on their order. */
  lemma ComparableInAnyOrder<R(!new), K(!new)>(rows: seq<R>, other: seq<R>, keyAt: (R, int) -> K, stamp: R -> Stamp)
    requires PositionFree(rows, keyAt) && multiset(other) == multiset(rows)
    requires Comparable(Entries(rows, keyAt, stamp), |rows|)
    ensures Comparable(Entries(other, keyAt, stamp), |other|)
  {
    var es, fs := Entries(rows, keyAt, stamp), Entries(other, keyAt, stamp);
    ReorderedIsPositionFree(rows, other, keyAt);
    var at := Locate(other, rows);
    ComparableMeans(es, |rows|);
    ComparableMeans(fs, |other|);
    forall i | 0 <= i < |other| ensures fs[i] == es[at[i]] {
      assert rows[at[i]] in rows;
    }
    forall i, j | 0 <= i < j < |other| && fs[i].key == fs[j].key ensures SameKind(fs[i].stamp, fs[j].stamp) {
      assert es[at[i]].key == es[at[j]].key;
      assert at[i] < at[j] || at[j] < at[i] || at[i] == at[j];
    }
  }

  /** If top rows agree, the row a reordered list keeps for a key is the one kept before. */
  lemma KeptAlike<R(!new), K(!new)>(rows: seq<R>, other: seq<R>, keyAt: (R, int) -> K, stamp: R -> Stamp, k: K)
    requires PositionFree(rows, keyAt) && multiset(other) == multiset(rows) && TopsAgree(rows, keyAt, stamp)
    requires k in Latest(other, keyAt, stamp)
    ensures k in Latest(rows, keyAt, stamp) && Latest(other, keyAt, stamp)[k] == Latest(rows, keyAt, stamp)[k]
  {
    var es, n := Entries(rows, keyAt, stamp), |rows|;
    ReorderedIsPositionFree(rows, other, keyAt);
    var i := LatestIsWinner(other, keyAt, stamp, k);
    var j := WinnerCarriesOver(rows, other, keyAt, stamp, i);
    assert other[i] in other && rows[j] in rows;
    assert es[j].key == k;
    KeysSeen(es, n, j);
    WinnerIsLeft(es, n, k);
  }

  lemma LatestSameWhenTopsAgree<R(!new), K(!new)>(rows: seq<R>, other: seq<R>, keyAt: (R, int) -> K, stamp: R -> Stamp)
    requires PositionFree(rows, keyAt) && multiset(other) == multiset(rows) && TopsAgree(rows, keyAt, stamp)
    ensures Latest(other, keyAt, stamp) == Latest(rows, keyAt, stamp)
  {
    var x, y := Latest(other, keyAt, stamp), Latest(rows, keyAt, stamp);
    ReorderedIsPositionFree(rows, other, keyAt);
    forall k | k in x ensures k in y && x[k] == y[k] {
      KeptAlike(rows, other, keyAt, stamp, k);
    }
    forall k | k in y ensures k in x {
      var i := LatestIsWinner(rows, keyAt, stamp, k);
      var j := WinnerCarriesOver(other, rows, keyAt, stamp, i);
      assert rows[i] in rows;
      KeysSeen(Entries(other, keyAt, stamp), |other|, j);
    }
  }

  function MovedLast<T>(s: seq<T>, i: int): (moved: seq<T>)
    requires 0 <= i < |s|
    ensures |moved| == |s|
  {
    s[..i] + s[i + 1..] + [s[i]]
  }

  lemma MovedLastIsPermutation<T>(s: seq<T>, i: int)
    requires 0 <= i < |s|
    ensures multiset(MovedLast(s, i)) == multiset(s)
  {
    assert s == s[..i] + [s[i]] + s[i + 1..];
  }

  /** Delivering a top row last makes it the row that is kept. */
  lemma TopMovedLastWins<R(!new), K>(rows: seq<R>, keyAt: (R, int) -> K, stamp: R -> Stamp, i: int)
    requires PositionFree(rows, keyAt) && IsTop(Entries(rows, keyAt, stamp), |rows|, i)
    ensures keyAt(rows[i], i) in Latest(MovedLast(rows, i), keyAt, stamp)
    ensures Latest(MovedLast(rows, i), keyAt, stamp)[keyAt(rows[i], i)] == rows[i]
  {
    var moved := MovedLast(rows, i);
    var es, ms, last := Entries(rows, keyAt, stamp), Entries(moved, keyAt, stamp), |rows| - 1;
    forall m | 0 <= m < |moved| ensures ms[m] == es[if m < i then m else if m < last then m + 1 else i] {
      assert moved[m] == rows[if m < i then m else if m < last then m + 1 else i];
    }
    assert IsWinner(ms, |ms|, last);
    WinnerUnique(ms, |ms|, last);
  }

  /**
   * The order in which rows are delivered does not matter exactly when no two different rows of one
   * key tie on the greatest stamp.
   */
  lemma OrderIndependentIffTopsAgree<R(!new), K(!new)>(rows: seq<R>, keyAt: (R, int) -> K, stamp: R -> Stamp)
    requires PositionFree(rows, keyAt)
    ensures (forall other :: multiset(other) == multiset(rows) ==>
        Latest(other, keyAt, stamp) == Latest(rows, keyAt, stamp))
            <==> TopsAgree(rows, keyAt, stamp)
  {
    if TopsAgree(rows, keyAt, stamp) {
      forall other | multiset(other) == multiset(rows)
        ensures Latest(other, keyAt, stamp) == Latest(rows, keyAt, stamp)
      {
        LatestSameWhenTopsAgree(rows, other, keyAt, stamp);
      }
    } else {
      var es := Entries(rows, keyAt, stamp);
      var i, j :| IsTop(es, |es|, i) && IsTop(es, |es|, j) && es[i].key == es[j].key && rows[i] != rows[j];
      TopMovedLastWins(rows, keyAt, stamp, i);
      TopMovedLastWins(rows, keyAt, stamp, j);
      MovedLastIsPermutation(rows, i);
      MovedLastIsPermutation(rows, j);
      assert Latest(MovedLast(rows, i), keyAt, stamp) != Latest(MovedLast(rows, j), keyAt, stamp);
    }
  }

  // ---- two batches after one another -----------------------------------------

  lemma LatestAreRows<R, K(!new)>(rows: seq<R>, keyAt: (R, int) -> K, stamp: R -> Stamp)
    ensures forall k :: k in Latest(rows, keyAt, stamp) ==> Latest(rows, keyAt, stamp)[k] in rows
  {
    forall k | k in Latest(rows, keyAt, stamp) ensures Latest(rows, keyAt, stamp)[k] in rows {
      var i := LatestIsWinner(rows, keyAt, stamp, k);
    }
  }

  ghost predicate IsJoin<K>(es: seq<Entry<K>>, fs: seq<Entry<K>>, gs: seq<Entry<K>>) {
    && |gs| == |es| + |fs|
    && (forall i :: 0 <= i < |gs| ==> gs[i] == if i < |es| then es[i] else fs[i - |es|])
  }

  lemma LaterWinnerStays<K>(es: seq<Entry<K>>, fs: seq<Entry<K>>, gs: seq<Entry<K>>, j: int)
    requires IsJoin(es, fs, gs) && IsWinner(fs, |fs|, j)
    requires forall m :: 0 <= m < |es| && es[m].key == fs[j].key ==> NotLater(es[m].stamp, fs[j].stamp)
    ensures IsWinner(gs, |gs|, |es| + j)
  {
  }

  lemma EarlierWinnerStays<K>(es: seq<Entry<K>>, fs: seq<Entry<K>>, gs: seq<Entry<K>>, i: int)
    requires IsJoin(es, fs, gs) && IsWinner(es, |es|, i)
    requires forall m :: 0 <= m < |fs| && fs[m].key == es[i].key ==> !NotLater(es[i].stamp, fs[m].stamp)
    ensures IsWinner(gs, |gs|, i)
  {
    StampTotal(es[i].stamp, es[i].stamp);
    forall m | 0 <= m < |gs| && gs[m].key == gs[i].key ensures NotLater(gs[m].stamp, gs[i].stamp) {
      StampTotal(gs[m].stamp, gs[i].stamp);
    }
  }

  lemma NoneLaterThanKept<K>(es: seq<Entry<K>>, k: K, m: int)
    requires 0 <= m < |es| && es[m].key == k
    ensures k in Winners(es, |es|) && NotLater(es[m].stamp, es[Winners(es, |es|)[k]].stamp)
  {
    KeysSeen(es, |es|, m);
    WinnerIsLeft(es, |es|, k);
  }

  lemma LaterListNewer<K>(es: seq<Entry<K>>, fs: seq<Entry<K>>, k: K)
    requires k in Winners(fs, |fs|)
    requires k in Winners(es, |es|) ==> NotLater(es[Winners(es, |es|)[k]].stamp, fs[Winners(fs, |fs|)[k]].stamp)
    ensures forall m :: 0 <= m < |es| && es[m].key == k ==> NotLater(es[m].stamp, fs[Winners(fs, |fs|)[k]].stamp)
  {
    forall m | 0 <= m < |es| && es[m].key == k ensures NotLater(es[m].stamp, fs[Winners(fs, |fs|)[k]].stamp) {
      NoneLaterThanKept(es, k, m);
      StampTransitive(es[m].stamp, es[Winners(es, |es|)[k]].stamp, fs[Winners(fs, |fs|)[k]].stamp);
    }
  }

  lemma EarlierListNewer<K>(es: seq<Entry<K>>, fs: seq<Entry<K>>, k: K)
    requires k in Winners(es, |es|)
    requires k in Winners(fs, |fs|) ==> !NotLater(es[Winners(es, |es|)[k]].stamp, fs[Winners(fs, |fs|)[k]].stamp)
    ensures forall m :: 0 <= m < |fs| && fs[m].key == k ==> !NotLater(es[Winners(es, |es|)[k]].stamp, fs[m].stamp)
  {
    var i := Winners(es, |es|)[k];
    forall m | 0 <= m < |fs| && fs[m].key == k ensures !NotLater(es[i].stamp, fs[m].stamp) {
      NoneLaterThanKept(fs, k, m);
      if NotLater(es[i].stamp, fs[m].stamp) {
        StampTransitive(es[i].stamp, fs[m].stamp, fs[Winners(fs, |fs|)[k]].stamp);
      }
    }
  }

  lemma LaterListWins<K>(es: seq<Entry<K>>, fs: seq<Entry<K>>, gs: seq<Entry<K>>, k: K)
    requires IsJoin(es, fs, gs) && k in Winners(fs, |fs|)
    requires k in Winners(es, |es|) ==> NotLater(es[Winners(es, |es|)[k]].stamp, fs[Winners(fs, |fs|)[k]].stamp)
    ensures k in Winners(gs, |gs|) && Winners(gs, |gs|)[k] == |es| + Winners(fs, |fs|)[k]
  {
    var j := Winners(fs, |fs|)[k];
    WinnerIsLeft(fs, |fs|, k);
    LaterListNewer(es, fs, k);
    LaterWinnerStays(es, fs, gs, j);
    assert gs[|es| + j] == fs[j];
    WinnerUnique(gs, |gs|, |es| + j);
  }

  lemma EarlierListWins<K>(es: seq<Entry<K>>, fs: seq<Entry<K>>, gs: seq<Entry<K>>, k: K)
    requires IsJoin(es, fs, gs) && k in Winners(es, |es|)
    requires k in Winners(fs, |fs|) ==> !NotLater(es[Winners(es, |es|)[k]].stamp, fs[Winners(fs, |fs|)[k]].stamp)
    ensures k in Winners(gs, |gs|) && Winners(gs, |gs|)[k] == Winners(es, |es|)[k]
  {
    var i := Winners(es, |es|)[k];
    WinnerIsLeft(es, |es|, k);
    EarlierListNewer(es, fs, k);
    EarlierWinnerStays(es, fs, gs, i);
    assert gs[i] == es[i];
    WinnerUnique(gs, |gs|, i);
  }

  lemma NeitherListWins<K>(es: seq<Entry<K>>, fs: seq<Entry<K>>, gs: seq<Entry<K>>, k: K)
    requires IsJoin(es, fs, gs) && k in Winners(gs, |gs|)
    ensures k in Winners(es, |es|) || k in Winners(fs, |fs|)
  {
    var m := Winners(gs, |gs|)[k];
    if m < |es| {
      KeysSeen(es, |es|, m);
    } else {
      KeysSeen(fs, |fs|, m - |es|);
    }
  }

  /** The entry kept for a key out of two lists: the later list wins unless the earlier entry is strictly newer. */
  lemma WinnersOfJoin<K>(es: seq<Entry<K>>, fs: seq<Entry<K>>, gs: seq<Entry<K>>, k: K)
    requires IsJoin(es, fs, gs)
    ensures var we, wf, wg := Winners(es, |es|), Winners(fs, |fs|), Winners(gs, |gs|);
      && (k in wg <==> k in we || k in wf)
      && (k in wg ==>
            wg[k] == if k in wf && (k !in we || NotLater(es[we[k]].stamp, fs[wf[k]].stamp)) then |es| + wf[k]
                     else we[k])
  {
    var we, wf := Winners(es, |es|), Winners(fs, |fs|);
    if k in wf && (k in we ==> NotLater(es[we[k]].stamp, fs[wf[k]].stamp)) {
      LaterListWins(es, fs, gs, k);
    } else if k in we {
      EarlierListWins(es, fs, gs, k);
    } else if k in Winners(gs, |gs|) {
      NeitherListWins(es, fs, gs, k);
    }
  }

  lemma EntriesOfConcat<R, K>(a: seq<R>, b: seq<R>, keyAt: (R, int) -> K, stamp: R -> Stamp)
    requires PositionFree(a + b, keyAt)
    ensures IsJoin(Entries(a, keyAt, stamp), Entries(b, keyAt, stamp), Entries(a + b, keyAt, stamp))
  {
    forall i | 0 <= i < |a + b| ensures (a + b)[i] in a + b {
    }
  }

  /** The stamp compared is that of the row kept. */
  lemma StampsOfEntries<R, K>(rows: seq<R>, keyAt: (R, int) -> K, stamp: R -> Stamp)
    ensures var es, w := Entries(rows, keyAt, stamp), Winners(Entries(rows, keyAt, stamp), |rows|);
      forall k :: k in w ==> es[w[k]].stamp == stamp(rows[w[k]]) && Latest(rows, keyAt, stamp)[k] == rows[w[k]]
  {
  }

  lemma AtJoin<R>(a: seq<R>, b: seq<R>, i: nat, late: bool)
    requires if late then i < |b| else i < |a|
    ensures (a + b)[if late then |a| + i else i] == if late then b[i] else a[i]
  {
  }

  /** The row kept out of two lists appended, through the entries of each. */
  lemma KeptOfJoin<R, K>(a: seq<R>, b: seq<R>, es: seq<Entry<K>>, fs: seq<Entry<K>>, gs: seq<Entry<K>>, k: K)
    requires IsJoin(es, fs, gs) && |a| == |es| && |b| == |fs|
    ensures var we, wf, wg := Winners(es, |es|), Winners(fs, |fs|), Winners(gs, |gs|);
      && (k in wg <==> k in we || k in wf)
      && (k in wg ==>
            (a + b)[wg[k]] == if k in wf && (k !in we || NotLater(es[we[k]].stamp, fs[wf[k]].stamp)) then b[wf[k]]
                              else a[we[k]])
  {
    var we, wf := Winners(es, |es|), Winners(fs, |fs|);
    WinnersOfJoin(es, fs, gs, k);
    if k in wf && (k !in we || NotLater(es[we[k]].stamp, fs[wf[k]].stamp)) {
      AtJoin(a, b, wf[k], true);
    } else if k in we {
      AtJoin(a, b, we[k], false);
    }
  }

  lemma LatestOfConcat<R, K>(a: seq<R>, b: seq<R>, keyAt: (R, int) -> K, stamp: R -> Stamp, k: K)
    requires PositionFree(a + b, keyAt)
    ensures var la, lb, lab := Latest(a, keyAt, stamp), Latest(b, keyAt, stamp), Latest(a + b, keyAt, stamp);
      && (k in lab <==> k in la || k in lb)
      && (k in lab ==> lab[k] == if k in lb && (k !in la || NotLater(stamp(la[k]), stamp(lb[k]))) then lb[k] else la[k])
  {
    EntriesOfConcat(a, b, keyAt, stamp);
    KeptOfJoin(a, b, Entries(a, keyAt, stamp), Entries(b, keyAt, stamp), Entries(a + b, keyAt, stamp), k);
    StampsOfEntries(a, keyAt, stamp);
    StampsOfEntries(b, keyAt, stamp);
  }

  /** Keys both tables have, whose row in the second is not older than the row in the first. */
  function NotOlder<R, K(==)>(la: map<K, R>, lb: map<K, R>, stamp: R -> Stamp): K -> bool {
    k => k in la && k in lb && NotLater(stamp(la[k]), stamp(lb[k]))
  }

  lemma LatestMapOfConcat<R, K(!new)>(a: seq<R>, b: seq<R>, keyAt: (R, int) -> K, stamp: R -> Stamp)
    requires PositionFree(a + b, keyAt)
    ensures Latest(a + b, keyAt, stamp).Keys == Latest(a, keyAt, stamp).Keys + Latest(b, keyAt, stamp).Keys
    ensures var la, lb, lab := Latest(a, keyAt, stamp), Latest(b, keyAt, stamp), Latest(a + b, keyAt, stamp);
      forall k :: k in lab ==> lab[k] == if k in lb && (k !in la || NotOlder(la, lb, stamp)(k)) then lb[k] else la[k]
  {
    forall k { LatestOfConcat(a, b, keyAt, stamp, k); }
    var la, lb, lab := Latest(a, keyAt, stamp), Latest(b, keyAt, stamp), Latest(a + b, keyAt, stamp);
    assert forall k :: k in lab <==> k in la || k in lb;
  }
}
