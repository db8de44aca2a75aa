/**
 * Rows delivered file by file, in whatever order the downloads finish: when the row kept for every key does not depend
 * on that order.
 */
module FileOrder {
  import opened Text
  import opened Blocks
  import opened LatestPerKey

  /** The row a file would keep for a key by itself. */
  function KeptIn<R, K(==)>(rows: seq<R>, keyAt: (R, int) -> K, stamp: R -> Stamp, k: K): Option<R> {
    var kept := Latest(rows, keyAt, stamp);
    if k in kept then Some(kept[k]) else None
  }

  function Collected<R>(files: seq<seq<R>>): seq<R> {
    Joined(files, |files|)
  }

  /** No file's row for the key is later than that of file `i`. */
  ghost predicate HoldsTop<R, K>(files: seq<seq<R>>, keyAt: (R, int) -> K, stamp: R -> Stamp, k: K, i: int) {
    && 0 <= i < |files| && KeptIn(files[i], keyAt, stamp, k).Some?
    && forall j :: 0 <= j < |files| && KeptIn(files[j], keyAt, stamp, k).Some? ==>
         NotLater(stamp(KeptIn(files[j], keyAt, stamp, k).value), stamp(KeptIn(files[i], keyAt, stamp, k).value))
  }

  /** For every key, any two files that hold a top row of it would keep the same row. */
  ghost predicate FilesAgree<R, K(!new)>(files: seq<seq<R>>, keyAt: (R, int) -> K, stamp: R -> Stamp) {
    forall k, i, j :: HoldsTop(files, keyAt, stamp, k, i) && HoldsTop(files, keyAt, stamp, k, j) ==>
      KeptIn(files[i], keyAt, stamp, k) == KeptIn(files[j], keyAt, stamp, k)
  }

  // ---- one candidate row per file ------------------------------------------------------

  function Candidate<R, K(==)>(keyAt: (R, int) -> K, stamp: R -> Stamp, k: K): seq<R> -> Option<R> {
    (file: seq<R>) => KeptIn(file, keyAt, stamp, k)
  }

  function Candidates<R, K(==)>(files: seq<seq<R>>, keyAt: (R, int) -> K, stamp: R -> Stamp, k: K): seq<Option<R>> {
    Image(files, Candidate(keyAt, stamp, k))
  }

  function HasRow<R>(): (Option<R>, int) -> bool {
    (o: Option<R>, i: int) => o.Some?
  }

  function CandidateStamp<R>(stamp: R -> Stamp): Option<R> -> Stamp {
    (o: Option<R>) => if o.Some? then stamp(o.value) else InText("")
  }

  /** The candidate that is kept. */
  function Best<R>(os: seq<Option<R>>, stamp: R -> Stamp): Option<R> {
    var kept := Latest(os, HasRow(), CandidateStamp(stamp));
    if true in kept then kept[true] else None
  }

  lemma BestOfOne<R>(o: Option<R>, stamp: R -> Stamp)
    ensures true in Latest([o], HasRow(), CandidateStamp(stamp)) <==> o.Some?
    ensures o.Some? ==> Latest([o], HasRow(), CandidateStamp(stamp))[true] == o
  {
    var es := Entries([o], HasRow(), CandidateStamp(stamp));
    assert Winners(es, 0) == map[];
    assert es[0].key == o.Some?;
  }

  lemma KeptTrueIsRow<R>(os: seq<Option<R>>, stamp: R -> Stamp)
    requires true in Latest(os, HasRow(), CandidateStamp(stamp))
    ensures Latest(os, HasRow(), CandidateStamp(stamp))[true].Some?
  {
    var i := LatestIsWinner(os, HasRow(), CandidateStamp(stamp), true);
  }

  /** The next candidate wins unless the best so far is strictly later. */
  function Better<R>(best: Option<R>, o: Option<R>, stamp: R -> Stamp): Option<R> {
    if o.Some? && (best.None? || NotLater(stamp(best.value), stamp(o.value))) then o else best
  }

  lemma BestOfOneMore<R>(os: seq<Option<R>>, o: Option<R>, stamp: R -> Stamp)
    ensures Best(os + [o], stamp) == Better(Best(os, stamp), o, stamp)
  {
    LatestOfConcat(os, [o], HasRow(), CandidateStamp(stamp), true);
    BestOfOne(o, stamp);
    if true in Latest(os, HasRow(), CandidateStamp(stamp)) {
      KeptTrueIsRow(os, stamp);
    }
  }

  /** The same for the rows of one more file. */
  lemma KeptOfOneMore<R, K>(rows: seq<R>, file: seq<R>, keyAt: (R, int) -> K, stamp: R -> Stamp, k: K)
    requires PositionFree(rows + file, keyAt)
    ensures KeptIn(rows + file, keyAt, stamp, k)
            == Better(KeptIn(rows, keyAt, stamp, k), KeptIn(file, keyAt, stamp, k), stamp)
  {
    LatestOfConcat(rows, file, keyAt, stamp, k);
  }

  lemma {:induction false} PartIsPositionFree<R(!new), K(!new)>(files: seq<seq<R>>, n: nat, keyAt: (R, int) -> K)
    requires n <= |files| && PositionFree(Collected(files), keyAt)
    ensures PositionFree(Joined(files, n), keyAt)
  {
    forall r, i, j | r in Joined(files, n) ensures keyAt(r, i) == keyAt(r, j) {
      JoinedInWhole(files, n, |files|, r);
    }
  }

  /** The candidates taken one after another. */
  function BestOfFirst<R>(os: seq<Option<R>>, n: nat, stamp: R -> Stamp): Option<R>
    requires n <= |os|
  {
    if n == 0 then None else Better(BestOfFirst(os, n - 1, stamp), os[n - 1], stamp)
  }

  /** `kept(m)` is what the first `m` files keep. */
  ghost predicate StepsAt<R>(kept: nat -> Option<R>, os: seq<Option<R>>, m: nat, stamp: R -> Stamp)
    requires m < |os|
  {
    kept(m + 1) == Better(kept(m), os[m], stamp)
  }

  lemma {:induction false} KeptIsStepwise<R>(kept: nat -> Option<R>, os: seq<Option<R>>, n: nat, stamp: R -> Stamp)
    requires n <= |os| && kept(0) == None && forall m: nat :: m < |os| ==> StepsAt(kept, os, m, stamp)
    ensures kept(n) == BestOfFirst(os, n, stamp)
  {
    if n > 0 {
      KeptIsStepwise(kept, os, n - 1, stamp);
      assert StepsAt(kept, os, n - 1, stamp);
    }
  }

  lemma NoneKept<R, K>(rows: seq<R>, keyAt: (R, int) -> K, stamp: R -> Stamp, k: K)
    requires rows == []
    ensures KeptIn(rows, keyAt, stamp, k) == None
  {
    assert Winners(Entries(rows, keyAt, stamp), 0) == map[];
  }

  lemma NoneBest<R>(os: seq<Option<R>>, stamp: R -> Stamp)
    requires os == []
    ensures Best(os, stamp) == None
  {
    assert Winners(Entries(os, HasRow(), CandidateStamp(stamp)), 0) == map[];
  }

  function KeptOfFiles<R, K(==)>(files: seq<seq<R>>, keyAt: (R, int) -> K, stamp: R -> Stamp, k: K): nat -> Option<R> {
    (n: nat) => if n <= |files| then KeptIn(Joined(files, n), keyAt, stamp, k) else None
  }

  lemma {:induction false} FilesStep<R(!new), K(!new)>(files: seq<seq<R>>, keyAt: (R, int) -> K, stamp: R -> Stamp,
                                                       k: K, m: nat)
    requires m < |files| && PositionFree(Collected(files), keyAt)
    ensures StepsAt(KeptOfFiles(files, keyAt, stamp, k), Candidates(files, keyAt, stamp, k), m, stamp)
  {
    PartIsPositionFree(files, m + 1, keyAt);
    KeptOfOneMore(Joined(files, m), files[m], keyAt, stamp, k);
  }

  function BestOfPrefix<R>(os: seq<Option<R>>, stamp: R -> Stamp): nat -> Option<R> {
    (n: nat) => if n <= |os| then Best(os[..n], stamp) else None
  }

  lemma PrefixStep<R>(os: seq<Option<R>>, stamp: R -> Stamp, m: nat)
    requires m < |os|
    ensures StepsAt(BestOfPrefix(os, stamp), os, m, stamp)
  {
    assert os[..m + 1] == os[..m] + [os[m]];
    BestOfOneMore(os[..m], os[m], stamp);
  }

  /** What is kept of all files together is the best of what each keeps by itself. */
  lemma {:induction false} CollectedKeeps<R(!new), K(!new)>(files: seq<seq<R>>, keyAt: (R, int) -> K,
                                                            stamp: R -> Stamp, k: K)
    requires PositionFree(Collected(files), keyAt)
    ensures KeptIn(Collected(files), keyAt, stamp, k) == Best(Candidates(files, keyAt, stamp, k), stamp)
  {
    var os := Candidates(files, keyAt, stamp, k);
    forall m: nat | m < |files| { FilesStep(files, keyAt, stamp, k, m); }
    NoneKept(Joined(files, 0), keyAt, stamp, k);
    KeptIsStepwise(KeptOfFiles(files, keyAt, stamp, k), os, |files|, stamp);
    forall m: nat | m < |files| { PrefixStep(os, stamp, m); }
    NoneBest(os[..0], stamp);
    KeptIsStepwise(BestOfPrefix(os, stamp), os, |files|, stamp);
    assert os[..|files|] == os;
  }

  // ---- the order of the files ------------------------------------------------------------

  /** The top candidates of a key are the files that hold a top row of it. */
  lemma {:induction false} TopCandidate<R, K>(files: seq<seq<R>>, keyAt: (R, int) -> K, stamp: R -> Stamp, k: K, i: int)
    requires 0 <= i < |files| && KeptIn(files[i], keyAt, stamp, k).Some?
    ensures HoldsTop(files, keyAt, stamp, k, i) <==>
              IsTop(Entries(Candidates(files, keyAt, stamp, k), HasRow(), CandidateStamp(stamp)), |files|, i)
  {
    var os := Candidates(files, keyAt, stamp, k);
    var es := Entries(os, HasRow(), CandidateStamp(stamp));
    assert forall j :: 0 <= j < |files| ==> es[j].key == KeptIn(files[j], keyAt, stamp, k).Some?;
    assert forall j :: 0 <= j < |files| && es[j].key ==> es[j].stamp == stamp(KeptIn(files[j], keyAt, stamp, k).value);
  }

  lemma {:induction false} AgreeingCandidates<R, K(!new)>(files: seq<seq<R>>, keyAt: (R, int) -> K,
                                                         stamp: R -> Stamp, k: K)
    requires FilesAgree(files, keyAt, stamp)
    ensures TopsAgree(Candidates(files, keyAt, stamp, k), HasRow(), CandidateStamp(stamp))
  {
    var os := Candidates(files, keyAt, stamp, k);
    var es := Entries(os, HasRow(), CandidateStamp(stamp));
    forall i, j | IsTop(es, |es|, i) && IsTop(es, |es|, j) && es[i].key == es[j].key ensures os[i] == os[j] {
      if os[i].Some? {
        TopCandidate(files, keyAt, stamp, k, i);
        TopCandidate(files, keyAt, stamp, k, j);
      }
    }
  }

  /** Where files agree, another order keeps the same row of a key. */
  lemma {:induction false} ReorderedKeeps<R(!new), K(!new)>(files: seq<seq<R>>, order: seq<seq<R>>,
                                                           keyAt: (R, int) -> K, stamp: R -> Stamp, k: K)
    requires PositionFree(Collected(files), keyAt) && multiset(order) == multiset(files)
    requires FilesAgree(files, keyAt, stamp)
    ensures KeptIn(Collected(order), keyAt, stamp, k) == KeptIn(Collected(files), keyAt, stamp, k)
  {
    var os, ps := Candidates(files, keyAt, stamp, k), Candidates(order, keyAt, stamp, k);
    JoinedPermuted(order, files);
    ReorderedIsPositionFree(Collected(files), Collected(order), keyAt);
    CollectedKeeps(files, keyAt, stamp, k);
    CollectedKeeps(order, keyAt, stamp, k);
    ImagePermuted(order, files, Candidate(keyAt, stamp, k));
    AgreeingCandidates(files, keyAt, stamp, k);
    LatestSameWhenTopsAgree(os, ps, HasRow(), CandidateStamp(stamp));
  }

  lemma CandidatesMoved<R, K>(files: seq<seq<R>>, keyAt: (R, int) -> K, stamp: R -> Stamp, k: K, i: int)
    requires 0 <= i < |files|
    ensures Candidates(MovedLast(files, i), keyAt, stamp, k) == MovedLast(Candidates(files, keyAt, stamp, k), i)
  {
  }

  lemma {:induction false} MovedIsPositionFree<R(!new), K(!new)>(files: seq<seq<R>>, keyAt: (R, int) -> K, i: int)
    requires 0 <= i < |files| && PositionFree(Collected(files), keyAt)
    ensures multiset(MovedLast(files, i)) == multiset(files) && PositionFree(Collected(MovedLast(files, i)), keyAt)
  {
    MovedLastIsPermutation(files, i);
    JoinedPermuted(MovedLast(files, i), files);
    ReorderedIsPositionFree(Collected(files), Collected(MovedLast(files, i)), keyAt);
  }

  /** A file that holds a top row, delivered last, gives the row that is kept. */
  lemma {:induction false} TopFileMovedLastWins<R(!new), K(!new)>(files: seq<seq<R>>, keyAt: (R, int) -> K,
                                                                  stamp: R -> Stamp, k: K, i: int)
    requires PositionFree(Collected(files), keyAt) && HoldsTop(files, keyAt, stamp, k, i)
    ensures multiset(MovedLast(files, i)) == multiset(files)
    ensures KeptIn(Collected(MovedLast(files, i)), keyAt, stamp, k) == KeptIn(files[i], keyAt, stamp, k)
  {
    var os := Candidates(files, keyAt, stamp, k);
    MovedIsPositionFree(files, keyAt, i);
    CollectedKeeps(MovedLast(files, i), keyAt, stamp, k);
    CandidatesMoved(files, keyAt, stamp, k, i);
    TopCandidate(files, keyAt, stamp, k, i);
    TopMovedLastWins(os, HasRow(), CandidateStamp(stamp), i);
  }

  lemma SameKeptIsSameLatest<R, K(!new)>(a: seq<R>, b: seq<R>, keyAt: (R, int) -> K, stamp: R -> Stamp)
    requires forall k :: KeptIn(a, keyAt, stamp, k) == KeptIn(b, keyAt, stamp, k)
    ensures Latest(a, keyAt, stamp) == Latest(b, keyAt, stamp)
  {
    var x, y := Latest(a, keyAt, stamp), Latest(b, keyAt, stamp);
    forall k ensures (k in x <==> k in y) && (k in x ==> x[k] == y[k]) {
      assert KeptIn(a, keyAt, stamp, k) == KeptIn(b, keyAt, stamp, k);
    }
    assert x.Keys == y.Keys;
  }

  /**
   * The order in which files are delivered does not matter exactly when, for every key, the files that hold a top row
   * of it would keep the same one. Ties inside one file do no harm: its rows keep their order.
   */
  lemma {:induction false} FileOrderIrrelevantIffFilesAgree<R(!new), K(!new)>(
      files: seq<seq<R>>, keyAt: (R, int) -> K, stamp: R -> Stamp)
    requires PositionFree(Collected(files), keyAt)
    ensures (forall order :: multiset(order) == multiset(files) ==>
               Latest(Collected(order), keyAt, stamp) == Latest(Collected(files), keyAt, stamp))
            <==> FilesAgree(files, keyAt, stamp)
  {
    if FilesAgree(files, keyAt, stamp) {
      forall order | multiset(order) == multiset(files)
        ensures Latest(Collected(order), keyAt, stamp) == Latest(Collected(files), keyAt, stamp)
      {
        forall k { ReorderedKeeps(files, order, keyAt, stamp, k); }
        SameKeptIsSameLatest(Collected(order), Collected(files), keyAt, stamp);
      }
    } else {
      var k, i, j :| HoldsTop(files, keyAt, stamp, k, i) && HoldsTop(files, keyAt, stamp, k, j)
        && KeptIn(files[i], keyAt, stamp, k) != KeptIn(files[j], keyAt, stamp, k);
      TopFileMovedLastWins(files, keyAt, stamp, k, i);
      TopFileMovedLastWins(files, keyAt, stamp, k, j);
      var a, b := Collected(MovedLast(files, i)), Collected(MovedLast(files, j));
      assert Latest(a, keyAt, stamp) != Latest(b, keyAt, stamp);
    }
  }

  /** Rows that never tie at all are the simplest case. */
  lemma {:induction false} NoTiesMeansFilesAgree<R(!new), K(!new)>(
      files: seq<seq<R>>, keyAt: (R, int) -> K, stamp: R -> Stamp)
    requires PositionFree(Collected(files), keyAt) && TopsAgree(Collected(files), keyAt, stamp)
    ensures FilesAgree(files, keyAt, stamp)
  {
    FileOrderIrrelevantIffFilesAgree(files, keyAt, stamp);
    forall order | multiset(order) == multiset(files)
      ensures Latest(Collected(order), keyAt, stamp) == Latest(Collected(files), keyAt, stamp)
    {
      JoinedPermuted(order, files);
      LatestSameWhenTopsAgree(Collected(files), Collected(order), keyAt, stamp);
    }
  }
}
