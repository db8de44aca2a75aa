/**
 * The MERGE statement on plain row lists, and the one-row-per-key table it refines.
 * `key` gives the key a row can be matched by (`None`: it can never match), `upd` the updated row.
 */
module KeyedMerge {
  import opened Text

  predicate Same<R, K(==)>(t: R, s: R, key: R -> Option<K>) {
    key(t).Some? && key(t) == key(s)
  }

  function MatchIn<R, K(==)>(t: R, source: seq<R>, n: nat, key: R -> Option<K>): Option<R>
    requires n <= |source|
  {
    if n == 0 then None
    else if Same(t, source[n - 1], key) then Some(source[n - 1])
    else MatchIn(t, source, n - 1, key)
  }

  predicate MatchesAny<R, K(==)>(s: R, target: seq<R>, key: R -> Option<K>) {
    exists i :: 0 <= i < |target| && Same(target[i], s, key)
  }

  /** `WHEN NOT MATCHED THEN INSERT`: the rows, among the first `n` of the source, that match no target row. */
  function Inserts<R, K(==)>(target: seq<R>, source: seq<R>, n: nat, key: R -> Option<K>): seq<R>
    requires n <= |source|
  {
    if n == 0 then []
    else
      var ins := Inserts(target, source, n - 1, key);
      if MatchesAny(source[n - 1], target, key) then ins else ins + [source[n - 1]]
  }

  /** `WHEN MATCHED THEN UPDATE`. */
  function UpdateAll<R, K(==)>(target: seq<R>, source: seq<R>, key: R -> Option<K>, upd: (R, R) -> R): (u: seq<R>)
    ensures |u| == |target|
  {
    seq(|target|, i requires 0 <= i < |target| =>
      match MatchIn(target[i], source, |source|, key)
      case Some(s) => upd(target[i], s)
      case None => target[i])
  }

  function MergeRows<R, K(==)>(target: seq<R>, source: seq<R>, key: R -> Option<K>, upd: (R, R) -> R): seq<R> {
    UpdateAll(target, source, key, upd) + Inserts(target, source, |source|, key)
  }

  /** BigQuery rejects a MERGE in which two source rows match one target row. */
  predicate Ambiguous<R, K(==)>(target: seq<R>, source: seq<R>, key: R -> Option<K>) {
    exists i, j, k :: 0 <= i < |target| && 0 <= j < k < |source|
      && Same(target[i], source[j], key) && Same(target[i], source[k], key)
  }

  // ---- the keyed view ----------------------------------------------------------

  /** The first `n` rows as a table with one row per key. */
  function View<R, K>(rows: seq<R>, n: nat, key: R -> Option<K>): map<K, R>
    requires n <= |rows|
  {
    if n == 0 then map[]
    else
      var v := View(rows, n - 1, key);
      match key(rows[n - 1]) case Some(k) => v[k := rows[n - 1]] case None => v
  }

  /** Among the first `n` rows every row has a usable key, and no two rows share one. */
  ghost predicate Keyed<R, K>(rows: seq<R>, n: nat, key: R -> Option<K>)
    requires n <= |rows|
  {
    n == 0 || (Keyed(rows, n - 1, key) && key(rows[n - 1]).Some? && key(rows[n - 1]).value !in View(rows, n - 1, key))
  }

  /** `Keyed` by positions. */
  lemma {:induction false} KeyedMeans<R, K>(rows: seq<R>, n: nat, key: R -> Option<K>)
    requires n <= |rows|
    ensures Keyed(rows, n, key) <==>
              && (forall i :: 0 <= i < n ==> key(rows[i]).Some?)
              && (forall i, j :: 0 <= i < j < n ==> key(rows[i]) != key(rows[j]))
  {
    if n > 0 {
      KeyedMeans(rows, n - 1, key);
      if key(rows[n - 1]).Some? {
        var k := key(rows[n - 1]).value;
        var i := KeyPosition(rows, n - 1, key, k);
      }
    }
  }

  /** A key is in the view exactly when some row has it. */
  lemma {:induction false} KeyPosition<R, K>(rows: seq<R>, n: nat, key: R -> Option<K>, k: K) returns (i: int)
    requires n <= |rows|
    ensures if k in View(rows, n, key) then 0 <= i < n && rows[i] == View(rows, n, key)[k] && key(rows[i]) == Some(k)
            else forall j :: 0 <= j < n ==> key(rows[j]) != Some(k)
  {
    i := -1;
    if n > 0 {
      i := KeyPosition(rows, n - 1, key, k);
      if key(rows[n - 1]) == Some(k) {
        i := n - 1;
      }
    }
  }

  /** The upsert on one-row-per-key tables. */
  function MergeMaps<R, K>(m: map<K, R>, batch: map<K, R>, upd: (R, R) -> R): map<K, R> {
    map k | k in m.Keys + batch.Keys ::
      if k !in batch then m[k] else if k in m then upd(m[k], batch[k]) else batch[k]
  }

  ghost predicate KeepsKeys<R(!new), K>(key: R -> Option<K>, upd: (R, R) -> R) {
    forall t, s :: Same(t, s, key) ==> key(upd(t, s)) == key(t)
  }

  lemma {:induction false} MatchIsLookup<R, K>(t: R, source: seq<R>, n: nat, key: R -> Option<K>)
    requires n <= |source| && key(t).Some?
    ensures MatchIn(t, source, n, key)
            == if key(t).value in View(source, n, key) then Some(View(source, n, key)[key(t).value]) else None
    ensures MatchIn(t, source, n, key).Some? ==> Same(t, MatchIn(t, source, n, key).value, key)
  {
    if n > 0 {
      MatchIsLookup(t, source, n - 1, key);
    }
  }

  lemma {:induction false} UpdatesView<R(!new), K>(target: seq<R>, n: nat, source: seq<R>, key: R -> Option<K>,
      upd: (R, R) -> R)
    requires n <= |target| && Keyed(target, n, key) && KeepsKeys(key, upd)
    ensures Keyed(UpdateAll(target, source, key, upd), n, key)
    ensures View(UpdateAll(target, source, key, upd), n, key).Keys == View(target, n, key).Keys
    ensures var was, now := View(target, n, key), View(UpdateAll(target, source, key, upd), n, key);
      forall k :: k in was ==> now[k] == MergeMaps(was, View(source, |source|, key), upd)[k]
  {
    if n > 0 {
      UpdatesView(target, n - 1, source, key, upd);
      MatchIsLookup(target[n - 1], source, |source|, key);
    }
  }

  lemma MatchesAnyIsMembership<R, K>(s: R, target: seq<R>, key: R -> Option<K>)
    requires key(s).Some?
    ensures MatchesAny(s, target, key) <==> key(s).value in View(target, |target|, key)
  {
    var i := KeyPosition(target, |target|, key, key(s).value);
  }

  lemma ViewOfOneMore<R, K>(rows: seq<R>, r: R, key: R -> Option<K>)
    requires key(r).Some? && Keyed(rows, |rows|, key) && key(r).value !in View(rows, |rows|, key)
    ensures Keyed(rows + [r], |rows + [r]|, key)
    ensures View(rows + [r], |rows + [r]|, key) == View(rows, |rows|, key)[key(r).value := r]
  {
    ViewOfPrefix(rows, [r], |rows|, key);
  }

  lemma {:induction false} InsertsView<R, K>(target: seq<R>, source: seq<R>, n: nat, key: R -> Option<K>)
    requires n <= |source| && Keyed(source, n, key)
    ensures var ins := Inserts(target, source, n, key);
      && Keyed(ins, |ins|, key)
      && View(ins, |ins|, key) == View(source, n, key) - View(target, |target|, key).Keys
  {
    if n > 0 {
      InsertsView(target, source, n - 1, key);
      MatchesAnyIsMembership(source[n - 1], target, key);
      if !MatchesAny(source[n - 1], target, key) {
        ViewOfOneMore(Inserts(target, source, n - 1, key), source[n - 1], key);
      }
    }
  }

  lemma {:induction false} ViewOfPrefix<R, K>(a: seq<R>, b: seq<R>, n: nat, key: R -> Option<K>)
    requires n <= |a|
    ensures View(a + b, n, key) == View(a, n, key)
    ensures Keyed(a + b, n, key) <==> Keyed(a, n, key)
  {
    if n > 0 {
      ViewOfPrefix(a, b, n - 1, key);
    }
  }

  lemma {:induction false} ViewOfConcat<R, K>(a: seq<R>, b: seq<R>, n: nat, key: R -> Option<K>)
    requires n <= |b| && Keyed(a, |a|, key) && Keyed(b, n, key)
    requires View(a, |a|, key).Keys !! View(b, n, key).Keys
    ensures Keyed(a + b, |a| + n, key)
    ensures View(a + b, |a| + n, key) == View(a, |a|, key) + View(b, n, key)
  {
    if n == 0 {
      ViewOfPrefix(a, b, |a|, key);
    } else {
      ViewOfConcat(a, b, n - 1, key);
      assert (a + b)[|a| + n - 1] == b[n - 1];
    }
  }

  /** Rows changed one by one, keys left alone: the view changes row by row. */
  lemma {:induction false} ViewOfImages<R, K>(rows: seq<R>, images: seq<R>, n: nat, key: R -> Option<K>, f: R -> R)
    requires n <= |rows| == |images|
    requires forall i :: 0 <= i < n ==> images[i] == f(rows[i]) && key(images[i]) == key(rows[i])
    ensures Keyed(images, n, key) <==> Keyed(rows, n, key)
    ensures View(images, n, key).Keys == View(rows, n, key).Keys
    ensures forall k :: k in View(rows, n, key) ==> View(images, n, key)[k] == f(View(rows, n, key)[k])
  {
    if n > 0 {
      ViewOfImages(rows, images, n - 1, key, f);
    }
  }

  /** Source rows changed one by one, keys left alone: a target row matches the changed row. */
  lemma {:induction false} MatchInImages<R, K>(t: R, source: seq<R>, images: seq<R>, n: nat, key: R -> Option<K>,
                                               f: R -> R)
    requires n <= |source| == |images|
    requires forall i :: 0 <= i < n ==> images[i] == f(source[i]) && key(images[i]) == key(source[i])
    ensures var m := MatchIn(t, source, n, key);
      MatchIn(t, images, n, key) == if m.Some? then Some(f(m.value)) else None
  {
    if n > 0 {
      MatchInImages(t, source, images, n - 1, key, f);
    }
  }

  /** The inserted rows are the changed ones. */
  lemma {:induction false} InsertsOfImages<R, K>(target: seq<R>, source: seq<R>, images: seq<R>, n: nat,
                                                 key: R -> Option<K>, f: R -> R)
    requires n <= |source| == |images|
    requires forall i :: 0 <= i < n ==> images[i] == f(source[i]) && key(images[i]) == key(source[i])
    ensures |Inserts(target, images, n, key)| == |Inserts(target, source, n, key)|
    ensures forall i :: 0 <= i < |Inserts(target, source, n, key)| ==>
              Inserts(target, images, n, key)[i] == f(Inserts(target, source, n, key)[i])
  {
    if n > 0 {
      InsertsOfImages(target, source, images, n - 1, key, f);
      MatchesAlike(target, source[n - 1], images[n - 1], key);
    }
  }

  lemma MatchesAlike<R, K>(target: seq<R>, s: R, image: R, key: R -> Option<K>)
    requires key(s) == key(image)
    ensures MatchesAny(s, target, key) <==> MatchesAny(image, target, key)
  {
    if i :| 0 <= i < |target| && Same(target[i], s, key) {
      assert Same(target[i], image, key);
    }
    if i :| 0 <= i < |target| && Same(target[i], image, key) {
      assert Same(target[i], s, key);
    }
  }

  lemma KeyedIsUnambiguous<R, K>(target: seq<R>, source: seq<R>, key: R -> Option<K>)
    requires Keyed(source, |source|, key)
    ensures !Ambiguous(target, source, key)
  {
    KeyedMeans(source, |source|, key);
  }

  /** An upsert is the updated old rows followed by the new ones. */
  lemma UpdatesThenInserts<R, K>(u: seq<R>, ins: seq<R>, key: R -> Option<K>, upd: (R, R) -> R, m: map<K, R>,
                                 batch: map<K, R>)
    requires Keyed(u, |u|, key) && View(u, |u|, key).Keys == m.Keys
    requires forall k :: k in m ==> View(u, |u|, key)[k] == MergeMaps(m, batch, upd)[k]
    requires Keyed(ins, |ins|, key) && View(ins, |ins|, key) == batch - m.Keys
    ensures Keyed(u + ins, |u + ins|, key)
    ensures View(u + ins, |u + ins|, key) == MergeMaps(m, batch, upd)
  {
    ViewOfConcat(u, ins, |ins|, key);
  }

  /** The MERGE statement on keyed tables: keys stay unique, and the view is upserted. */
  lemma MergeRefinesView<R(!new), K>(target: seq<R>, source: seq<R>, key: R -> Option<K>, upd: (R, R) -> R)
    requires Keyed(target, |target|, key) && Keyed(source, |source|, key) && KeepsKeys(key, upd)
    ensures var merged := MergeRows(target, source, key, upd);
      && Keyed(merged, |merged|, key)
      && View(merged, |merged|, key)
         == MergeMaps(View(target, |target|, key), View(source, |source|, key), upd)
  {
    UpdatesView(target, |target|, source, key, upd);
    InsertsView(target, source, |source|, key);
    UpdatesThenInserts(UpdateAll(target, source, key, upd), Inserts(target, source, |source|, key), key, upd,
                       View(target, |target|, key), View(source, |source|, key));
  }

  // ---- merging twice -----------------------------------------------------------

  /** Updating from the same row again changes nothing. */
  ghost predicate Settles<R(!new)>(upd: (R, R) -> R) {
    (forall t, s :: upd(upd(t, s), s) == upd(t, s)) && (forall s :: upd(s, s) == s)
  }

  /** A row no key can match is inserted again by every MERGE. */
  lemma {:induction false} UnmatchableInserted<R, K>(target: seq<R>, source: seq<R>, n: nat, key: R -> Option<K>,
      i: nat)
    requires i < n <= |source| && key(source[i]).None?
    ensures |Inserts(target, source, n, key)| > 0
  {
    if i < n - 1 {
      UnmatchableInserted(target, source, n - 1, key, i);
    }
  }

  lemma {:induction false} NothingLeftToInsert<R, K>(target: seq<R>, source: seq<R>, n: nat, key: R -> Option<K>)
    requires n <= |source|
    requires forall i :: 0 <= i < n ==> key(source[i]).Some? && key(source[i]).value in View(target, |target|, key)
    ensures Inserts(target, source, n, key) == []
  {
    if n > 0 {
      NothingLeftToInsert(target, source, n - 1, key);
      MatchesAnyIsMembership(source[n - 1], target, key);
    }
  }

  lemma SecondMergeIsIdle<R(!new), K>(target: seq<R>, source: seq<R>, key: R -> Option<K>, upd: (R, R) -> R)
    requires Keyed(target, |target|, key) && Keyed(source, |source|, key) && KeepsKeys(key, upd) && Settles(upd)
    ensures var merged := MergeRows(target, source, key, upd); MergeRows(merged, source, key, upd) == merged
  {
    var merged := MergeRows(target, source, key, upd);
    var mv, sv := View(merged, |merged|, key), View(source, |source|, key);
    MergeRefinesView(target, source, key, upd);
    KeyedMeans(merged, |merged|, key);
    KeyedMeans(source, |source|, key);
    forall i | 0 <= i < |source| ensures key(source[i]).value in mv {
      var j := KeyPosition(source, |source|, key, key(source[i]).value);
    }
    NothingLeftToInsert(merged, source, |source|, key);
    forall i | 0 <= i < |merged| ensures UpdateAll(merged, source, key, upd)[i] == merged[i] {
      var k := key(merged[i]).value;
      var j := KeyPosition(merged, |merged|, key, k);
      assert j == i && mv[k] == merged[i];
      MatchIsLookup(merged[i], source, |source|, key);
    }
  }

  /**
   * For a batch whose usable keys are distinct, merging it twice equals merging it once exactly when
   * every row has a usable key: `T.c = S.c` never matches NULL.
   */
  lemma MergeTwiceIsOnceIffKeysUsable<R(!new), K>(target: seq<R>, source: seq<R>, key: R -> Option<K>, upd: (R, R) -> R)
    requires Keyed(target, |target|, key) && KeepsKeys(key, upd) && Settles(upd)
    requires forall i, j :: 0 <= i < j < |source| ==> !Same(source[i], source[j], key)
    ensures var merged := MergeRows(target, source, key, upd);
      MergeRows(merged, source, key, upd) == merged <==> forall i :: 0 <= i < |source| ==> key(source[i]).Some?
  {
    var merged := MergeRows(target, source, key, upd);
    if i :| 0 <= i < |source| && key(source[i]).None? {
      UnmatchableInserted(merged, source, |source|, key, i);
      assert |MergeRows(merged, source, key, upd)| > |merged|;
    } else {
      KeyedMeans(source, |source|, key);
      SecondMergeIsIdle(target, source, key, upd);
    }
  }
}
