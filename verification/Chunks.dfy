/** `backfill_chunks`: a date range cut into windows of whole months, over the real calendar. */
module Chunks {
  import opened Text
  import opened Dates

  datatype Chunk = Chunk(from: Day, to: Day)

  /** `checked_add_months(..).unwrap_or(NaiveDate::MAX)`. */
  function NextStart(cursor: Day, months: nat): Day {
    match AddMonths(cursor, months) case Some(d) => d case None => MAX
  }

  /** `checked_sub_days(1).unwrap_or(next_start)`. */
  function DayBefore(next: Day): Day {
    match Pred(next) case Some(p) => p case None => next
  }

  function AtLeastOne(months: nat): (m: nat)
    ensures m > 0 && (months > 0 ==> m == months)
  {
    if months < 1 then 1 else months
  }

  /** The loop's cursor after `k` rounds. */
  function Cursor(from: Day, months: nat, k: nat): Day {
    if k == 0 then from else NextStart(Cursor(from, months, k - 1), months)
  }

  /** Successive positions of the cursor. */
  ghost predicate Cursors(cursors: seq<Day>, from: Day, months: nat) {
    && cursors != [] && cursors[0] == from
    && forall k, l :: 0 <= k && l == k + 1 && l < |cursors| ==> cursors[l] == NextStart(cursors[k], months)
  }

  predicate ChunkAt(chunks: seq<Chunk>, cursors: seq<Day>, to: Day, k: int)
    requires 0 <= k < |chunks| && |cursors| == |chunks| + 1
  {
    NotAfter(cursors[k], to) && chunks[k] == Chunk(cursors[k], MinDay(DayBefore(cursors[k + 1]), to))
  }

  /** Each chunk runs from a cursor to the day before the next, cut off at `to`. */
  ghost predicate ChunksAt(chunks: seq<Chunk>, cursors: seq<Day>, to: Day) {
    && |cursors| == |chunks| + 1
    && forall k :: 0 <= k < |chunks| ==> ChunkAt(chunks, cursors, to, k)
  }

  /** What the loop returns: chunks up to the first cursor past `to`. */
  ghost predicate ChunkList(chunks: seq<Chunk>, cursors: seq<Day>, from: Day, to: Day, months: nat) {
    ChunksAt(chunks, cursors, to) && Cursors(cursors, from, months) && Before(to, cursors[|chunks|])
  }

  /** `chunks` is the list for the range, for some positions of the cursor. */
  ghost predicate Chunked(chunks: seq<Chunk>, from: Day, to: Day, months: nat) {
    months > 0 && to != MAX && exists cursors :: ChunkList(chunks, cursors, from, to, months)
  }

  lemma StepAdvances(cursor: Day, to: Day, months: nat)
    requires months > 0 && NotAfter(cursor, to) && to != MAX
    ensures DayNumber(cursor) < DayNumber(NextStart(cursor, months)) <= DayNumber(MAX)
  {
    if AddMonths(cursor, months).Some? {
      AddMonthsAdvances(cursor, months);
    }
    OrderIsDayOrder(cursor, NextStart(cursor, months));
    OrderIsDayOrder(NextStart(cursor, months), MAX);
  }

  lemma OneMoreChunk(chunks: seq<Chunk>, cursors: seq<Day>, from: Day, to: Day, months: nat, cursor: Day, next: Day,
                     end: Day)
    requires ChunksAt(chunks, cursors, to) && Cursors(cursors, from, months)
    requires cursor == cursors[|chunks|] && NotAfter(cursor, to)
    requires next == NextStart(cursor, months) && end == MinDay(DayBefore(next), to)
    ensures ChunksAt(chunks + [Chunk(cursor, end)], cursors + [next], to) && Cursors(cursors + [next], from, months)
  {
    forall k | 0 <= k < |chunks| ensures ChunkAt(chunks + [Chunk(cursor, end)], cursors + [next], to, k) {
      assert ChunkAt(chunks, cursors, to, k);
    }
  }

  /** `backfill_chunks`; a loop that never ends when `to` is the last representable day. */
  method BackfillChunks(from: Day, to: Day, months: nat) returns (chunks: seq<Chunk>)
    requires to != MAX
    ensures Chunked(chunks, from, to, AtLeastOne(months))
  {
    var size := AtLeastOne(months);
    var cursor := from;
    chunks := [];
    ghost var cursors := [from];
    ghost var left := DayNumber(MAX) - DayNumber(cursor);
    OrderIsDayOrder(cursor, MAX);
    while NotAfter(cursor, to)
      invariant ChunksAt(chunks, cursors, to) && Cursors(cursors, from, size) && cursor == cursors[|chunks|]
      invariant left == DayNumber(MAX) - DayNumber(cursor) >= 0
      decreases left
    {
      var nextStart := NextStart(cursor, size);
      var chunkEnd := MinDay(DayBefore(nextStart), to);
      OneMoreChunk(chunks, cursors, from, to, size, cursor, nextStart, chunkEnd);
      StepAdvances(cursor, to, size);
      chunks := chunks + [Chunk(cursor, chunkEnd)];
      cursors := cursors + [nextStart];
      cursor := nextStart;
      left := DayNumber(MAX) - DayNumber(cursor);
    }
    assert ChunkList(chunks, cursors, from, to, size);
  }

  lemma {:induction false} SameCursor(a: seq<Day>, b: seq<Day>, from: Day, months: nat, k: nat)
    requires Cursors(a, from, months) && Cursors(b, from, months) && k < |a| && k < |b|
    ensures a[k] == b[k]
  {
    if k > 0 {
      SameCursor(a, b, from, months, k - 1);
      assert a[k] == NextStart(a[k - 1], months) && b[k] == NextStart(b[k - 1], months);
    }
  }

  lemma NoShorterList(c: seq<Chunk>, a: seq<Day>, d: seq<Chunk>, b: seq<Day>, from: Day, to: Day, months: nat)
    requires ChunkList(c, a, from, to, months) && ChunkList(d, b, from, to, months)
    ensures |c| >= |d|
  {
    if |c| < |d| {
      SameCursor(a, b, from, months, |c|);
      NotPassed(d, b, to, |c|);
    }
  }

  lemma NotPassed(chunks: seq<Chunk>, cursors: seq<Day>, to: Day, k: nat)
    requires ChunksAt(chunks, cursors, to) && k < |chunks|
    ensures !Before(to, cursors[k])
  {
    assert ChunkAt(chunks, cursors, to, k);
  }

  /** A range has one chunk list. */
  lemma ChunkListIsUnique(c: seq<Chunk>, d: seq<Chunk>, from: Day, to: Day, months: nat)
    requires Chunked(c, from, to, months) && Chunked(d, from, to, months)
    ensures c == d
  {
    var a :| ChunkList(c, a, from, to, months);
    var b :| ChunkList(d, b, from, to, months);
    NoShorterList(c, a, d, b, from, to, months);
    NoShorterList(d, b, c, a, from, to, months);
    forall k: nat | k < |c| ensures c[k] == d[k] {
      SameCursor(a, b, from, months, k);
      SameCursor(a, b, from, months, k + 1);
      assert ChunkAt(c, a, to, k) && ChunkAt(d, b, to, k);
    }
  }

  // ---- termination -----------------------------------------------------------------

  /** The loop would stop after `n` rounds. */
  predicate Passes(from: Day, to: Day, months: nat, n: nat) {
    Before(to, Cursor(from, months, n))
  }

  /** While `to` is not the last day, some cursor passes it. */
  lemma {:induction false} CursorPasses(from: Day, to: Day, months: nat, k: nat) returns (n: nat)
    requires months > 0 && to != MAX
    ensures Passes(from, to, months, n)
    decreases DayNumber(MAX) - DayNumber(Cursor(from, months, k))
  {
    n := k;
    if NotAfter(Cursor(from, months, k), to) {
      StepAdvances(Cursor(from, months, k), to, months);
      n := CursorPasses(from, to, months, k + 1);
    }
  }

  lemma NothingAfterLastDay(d: Day)
    ensures !Before(MAX, d)
  {
  }

  /** The loop ends exactly when `to` is not `NaiveDate::MAX`: no cursor can pass the last representable day. */
  lemma EndsIffToIsNotLastDay(from: Day, to: Day, months: nat)
    requires months > 0
    ensures (exists n: nat :: Passes(from, to, months, n)) <==> to != MAX
  {
    if to != MAX {
      var n := CursorPasses(from, to, months, 0);
    } else {
      forall n: nat ensures !Passes(from, to, months, n) {
        NothingAfterLastDay(Cursor(from, months, n));
      }
    }
  }

  // ---- partition, on day numbers -----------------------------------------------------

  predicate CutAt(starts: seq<int>, ends: seq<int>, to: int, k: int)
    requires 0 <= k < |ends| && |starts| == |ends| + 1
  {
    starts[k] <= to && starts[k] < starts[k + 1] && ends[k] == if starts[k + 1] - 1 < to then starts[k + 1] - 1 else to
  }

  /** Intervals that start where the one before ended, the last cut off at `to`. */
  ghost predicate Cuts(starts: seq<int>, ends: seq<int>, to: int) {
    && |starts| == |ends| + 1 && to < starts[|ends|]
    && forall k :: 0 <= k < |ends| ==> CutAt(starts, ends, to, k)
  }

  lemma {:induction false} StartsIncrease(starts: seq<int>, ends: seq<int>, to: int, k: nat, l: nat)
    requires Cuts(starts, ends, to) && k < l < |starts|
    ensures starts[k] < starts[l]
  {
    if k < l - 1 {
      StartsIncrease(starts, ends, to, k, l - 1);
    }
    assert CutAt(starts, ends, to, l - 1);
  }

  lemma {:induction false} CutContaining(starts: seq<int>, ends: seq<int>, to: int, d: int, n: nat) returns (k: nat)
    requires Cuts(starts, ends, to) && n <= |ends| && starts[0] <= d <= to && d < starts[n]
    ensures k < n && starts[k] <= d <= ends[k]
  {
    if d < starts[n - 1] {
      k := CutContaining(starts, ends, to, d, n - 1);
    } else {
      k := n - 1;
      assert CutAt(starts, ends, to, n - 1);
    }
  }

  lemma CutsApart(starts: seq<int>, ends: seq<int>, to: int, k: nat, l: nat)
    requires Cuts(starts, ends, to) && k < l < |ends|
    ensures ends[k] < starts[l] <= ends[l]
  {
    if k + 1 < l {
      StartsIncrease(starts, ends, to, k + 1, l);
    }
    assert CutAt(starts, ends, to, k) && CutAt(starts, ends, to, l);
  }

  /** The chunks as intervals of day numbers. */
  lemma ChunkNumbers(chunks: seq<Chunk>, from: Day, to: Day, months: nat) returns (starts: seq<int>, ends: seq<int>)
    requires Chunked(chunks, from, to, months)
    ensures Cuts(starts, ends, DayNumber(to)) && |ends| == |chunks|
    ensures starts[0] == DayNumber(from)
    ensures forall k :: 0 <= k < |chunks| ==>
        starts[k] == DayNumber(chunks[k].from) && ends[k] == DayNumber(chunks[k].to)
    ensures chunks != [] ==> chunks[0].from == from
  {
    var cursors :| ChunkList(chunks, cursors, from, to, months);
    starts := seq(|cursors|, k requires 0 <= k < |cursors| => DayNumber(cursors[k]));
    ends := seq(|chunks|, k requires 0 <= k < |chunks| => DayNumber(chunks[k].to));
    OrderIsDayOrder(to, cursors[|chunks|]);
    if chunks != [] { assert ChunkAt(chunks, cursors, to, 0); }
    forall k | 0 <= k < |chunks| ensures CutAt(starts, ends, DayNumber(to), k) && chunks[k].from == cursors[k] {
      ChunkCut(chunks, cursors, from, to, months, k);
    }
  }

  /** One chunk in day numbers. */
  lemma ChunkCut(chunks: seq<Chunk>, cursors: seq<Day>, from: Day, to: Day, months: nat, k: nat)
    requires months > 0 && to != MAX && ChunkList(chunks, cursors, from, to, months) && k < |chunks|
    ensures chunks[k].from == cursors[k]
    ensures var start, next, last := DayNumber(cursors[k]), DayNumber(cursors[k + 1]), DayNumber(to);
      start <= last && start < next && DayNumber(chunks[k].to) == if next - 1 < last then next - 1 else last
  {
    assert ChunkAt(chunks, cursors, to, k);
    OneChunkNumbers(cursors[k], to, months);
  }

  lemma OneChunkNumbers(cursor: Day, to: Day, months: nat)
    requires months > 0 && to != MAX && NotAfter(cursor, to)
    ensures var next := NextStart(cursor, months);
      && DayNumber(cursor) <= DayNumber(to) && DayNumber(cursor) < DayNumber(next)
      && DayNumber(MinDay(DayBefore(next), to)) == if DayNumber(next) - 1 < DayNumber(to) then DayNumber(next) - 1
        else DayNumber(to)
  {
    var next := NextStart(cursor, months);
    StepAdvances(cursor, to, months);
    OrderIsDayOrder(cursor, to);
    DayBeforeNumber(cursor, next);
    OrderIsDayOrder(to, DayBefore(next));
  }

  lemma DayBeforeNumber(cursor: Day, next: Day)
    requires DayNumber(cursor) < DayNumber(next)
    ensures DayNumber(DayBefore(next)) == DayNumber(next) - 1
  {
    PredIsDayBefore(next);
    OrderIsDayOrder(cursor, next);
  }

  predicate Within(d: Day, c: Chunk) {
    NotAfter(c.from, d) && NotAfter(d, c.to)
  }

  lemma WithinIsNumeric(d: Day, c: Chunk)
    ensures Within(d, c) <==> DayNumber(c.from) <= DayNumber(d) <= DayNumber(c.to)
  {
    OrderIsDayOrder(c.from, d);
    OrderIsDayOrder(d, c.to);
  }

  /** Every day of `[from, to]` lies in exactly one chunk, and no other day lies in any. */
  lemma EveryDayInOneChunk(chunks: seq<Chunk>, from: Day, to: Day, months: nat, d: Day)
    requires Chunked(chunks, from, to, months)
    ensures (exists k :: 0 <= k < |chunks| && Within(d, chunks[k])) <==> NotAfter(from, d) && NotAfter(d, to)
    ensures forall k, l :: 0 <= k < l < |chunks| ==> !(Within(d, chunks[k]) && Within(d, chunks[l]))
  {
    var starts, ends := ChunkNumbers(chunks, from, to, months);
    var x, n := DayNumber(d), |chunks|;
    WithinIsNumeric(d, Chunk(from, to));
    forall k | 0 <= k < n ensures Within(d, chunks[k]) <==> starts[k] <= x <= ends[k] {
      WithinIsNumeric(d, chunks[k]);
    }
    if starts[0] <= x <= DayNumber(to) {
      var k := CutContaining(starts, ends, DayNumber(to), x, n);
      assert Within(d, chunks[k]);
    }
    forall k | 0 <= k < n && Within(d, chunks[k]) ensures starts[0] <= x <= DayNumber(to) {
      assert CutAt(starts, ends, DayNumber(to), k);
      if k > 0 { StartsIncrease(starts, ends, DayNumber(to), 0, k); }
    }
    forall k, l | 0 <= k < l < n ensures !(Within(d, chunks[k]) && Within(d, chunks[l])) {
      CutsApart(starts, ends, DayNumber(to), k, l);
    }
  }

  /** Chunks are nonempty, start at `from` and end at `to`. */
  lemma ChunksSpanRange(chunks: seq<Chunk>, from: Day, to: Day, months: nat, k: nat)
    requires Chunked(chunks, from, to, months) && k < |chunks|
    ensures chunks[0].from == from && chunks[|chunks| - 1].to == to
    ensures NotAfter(chunks[k].from, chunks[k].to)
  {
    var starts, ends := ChunkNumbers(chunks, from, to, months);
    var last := |chunks| - 1;
    assert CutAt(starts, ends, DayNumber(to), k) && CutAt(starts, ends, DayNumber(to), last);
    WithinIsNumeric(chunks[k].from, chunks[k]);
    OrderIsDayOrder(chunks[last].to, to);
  }

  /** Each chunk starts the day after the one before it ends. */
  lemma ChunksAreConsecutive(chunks: seq<Chunk>, from: Day, to: Day, months: nat, k: nat)
    requires Chunked(chunks, from, to, months) && k + 1 < |chunks|
    ensures DayNumber(chunks[k + 1].from) == DayNumber(chunks[k].to) + 1
  {
    var starts, ends := ChunkNumbers(chunks, from, to, months);
    assert CutAt(starts, ends, DayNumber(to), k) && CutAt(starts, ends, DayNumber(to), k + 1);
  }

  /** The end dates, which date a chunk's objects, strictly increase. */
  lemma EndsIncrease(chunks: seq<Chunk>, from: Day, to: Day, months: nat, k: nat, l: nat)
    requires Chunked(chunks, from, to, months) && k < l < |chunks|
    ensures Before(chunks[k].to, chunks[l].to)
  {
    var starts, ends := ChunkNumbers(chunks, from, to, months);
    CutsApart(starts, ends, DayNumber(to), k, l);
    OrderIsDayOrder(chunks[k].to, chunks[l].to);
  }

  // ---- months -----------------------------------------------------------------------

  /**
   * Until the calendar ends, the `k`-th start lies `k * months` months after `from`, on a day of the month no later.
   */
  lemma {:induction false} StartMonth(cursors: seq<Day>, from: Day, months: nat, k: nat)
    requires months > 0 && Cursors(cursors, from, months) && k < |cursors|
    ensures MonthIndex(from) + k * months <= MAX_YEAR * 12 + 11 ==>
      MonthIndex(cursors[k]) == MonthIndex(from) + k * months && cursors[k].day <= from.day
    ensures MonthIndex(from) + k * months > MAX_YEAR * 12 + 11 ==> cursors[k] == MAX
  {
    if k > 0 {
      StartMonth(cursors, from, months, k - 1);
      assert k * months == (k - 1) * months + months;
      assert cursors[k - 1 + 1] == NextStart(cursors[k - 1], months);
      if AddMonths(cursors[k - 1], months).Some? {
        AddMonthsAdvances(cursors[k - 1], months);
      }
    }
  }

  lemma LaterDayLaterMonth(a: Day, b: Day)
    requires NotAfter(a, b)
    ensures MonthIndex(a) <= MonthIndex(b)
  {
  }

  lemma {:induction false} TimesMonotone(a: nat, b: nat, m: nat)
    requires a <= b
    ensures a * m <= b * m
    decreases b
  {
    if a < b {
      TimesMonotone(a, b - 1, m);
    }
  }

  lemma Quotient(d: nat, m: nat)
    requires m > 0
    ensures (d / m) * m <= d < (d / m + 1) * m
  {
  }

  lemma QuotientAbove(d: nat, m: nat, n: nat)
    requires m > 0 && n * m <= d
    ensures n <= d / m
  {
    Quotient(d, m);
    if d / m + 1 <= n {
      TimesMonotone(d / m + 1, n, m);
    }
  }

  lemma QuotientBelow(d: nat, m: nat, n: nat)
    requires m > 0 && d < n * m
    ensures d / m < n
  {
    Quotient(d, m);
    if n <= d / m {
      TimesMonotone(n, d / m, m);
    }
  }

  /** `n` steps of `m` that reach `d`, and not before the last one. */
  lemma QuotientBounds(d: nat, m: nat, n: nat)
    requires m > 0 && n > 0 && (n - 1) * m <= d <= n * m
    ensures d / m <= n <= d / m + 1
  {
    QuotientAbove(d, m, n - 1);
    assert n * m + m == (n + 1) * m;
    QuotientBelow(d, m, n + 1);
  }

  lemma StartBefore(cursors: seq<Day>, from: Day, to: Day, months: nat, k: nat)
    requires months > 0 && to != MAX && Cursors(cursors, from, months) && k < |cursors| && NotAfter(cursors[k], to)
    ensures MonthIndex(cursors[k]) == MonthIndex(from) + k * months <= MonthIndex(to)
    ensures cursors[k].day <= from.day
  {
    StartMonth(cursors, from, months, k);
    LaterDayLaterMonth(cursors[k], to);
    NothingAfterLastDay(to);
  }

  lemma StartAfter(cursors: seq<Day>, from: Day, to: Day, months: nat, n: nat)
    requires months > 0 && Cursors(cursors, from, months) && n < |cursors| && Before(to, cursors[n])
    ensures MonthIndex(to) <= MonthIndex(from) + n * months
  {
    StartMonth(cursors, from, months, n);
    LaterDayLaterMonth(to, cursors[n]);
  }

  /** Chunk `k` starts in the month `k * months` after that of `from`, on a day of the month no later. */
  lemma ChunkStartMonth(chunks: seq<Chunk>, from: Day, to: Day, months: nat, k: nat)
    requires Chunked(chunks, from, to, months) && k < |chunks|
    ensures MonthIndex(chunks[k].from) == MonthIndex(from) + k * months <= MonthIndex(to)
        && chunks[k].from.day <= from.day
  {
    var cursors :| ChunkList(chunks, cursors, from, to, months);
    assert ChunkAt(chunks, cursors, to, k);
    StartBefore(cursors, from, to, months, k);
  }

  /** The chunk count is the number of whole steps between the months of `from` and `to`, or one more. */
  lemma ChunkCount(chunks: seq<Chunk>, from: Day, to: Day, months: nat)
    requires Chunked(chunks, from, to, months) && chunks != []
    ensures var span := MonthIndex(to) - MonthIndex(from);
      span >= 0 && span / months <= |chunks| <= span / months + 1
  {
    var n := |chunks|;
    var cursors :| ChunkList(chunks, cursors, from, to, months);
    ChunkStartMonth(chunks, from, to, months, 0);
    ChunkStartMonth(chunks, from, to, months, n - 1);
    StartAfter(cursors, from, to, months, n);
    QuotientBounds(MonthIndex(to) - MonthIndex(from), months, n);
  }
}
