/**
 * Offset pagination of the Journals endpoint, raw and parsed. The server may answer each request as it likes: its
 * reply depends on how many requests came before and on the offset asked for.
 */
module Journals {
  import opened Text
  import opened Pagination

  const I64_MAX := 0x7FFF_FFFF_FFFF_FFFF

  type Number = n: int | -I64_MAX - 1 <= n <= I64_MAX

  /** A journal; `number` is absent when `JournalNumber` is missing or does not parse. */
  datatype Journal = Journal(id: string, number: Option<Number>)

  type Server = (nat, Number) -> Reply<Journal>

  function MaxNumber(js: seq<Journal>, n: nat): (m: Option<Number>)
    requires n <= |js|
  {
    if n == 0 then None
    else
      var before, last := MaxNumber(js, n - 1), js[n - 1].number;
      if before.None? || (last.Some? && last.value > before.value) then last else before
  }

  /** The offset after a page: its largest journal number, or the same offset when it has none. */
  function NextOffset(body: PageBody<Journal>, offset: Number): Number {
    if body.Records? && MaxNumber(body.records, |body.records|).Some? then MaxNumber(body.records, |body.records|).value
      else offset
  }

  lemma {:induction false} MaxNumberIs(js: seq<Journal>, n: nat)
    requires n <= |js|
    ensures MaxNumber(js, n).None? <==> forall i :: 0 <= i < n ==> js[i].number.None?
    ensures MaxNumber(js, n).Some? ==>
      && (exists i :: 0 <= i < n && js[i].number == MaxNumber(js, n))
      && forall i :: 0 <= i < n && js[i].number.Some? ==> js[i].number.value <= MaxNumber(js, n).value
  {
    if n > 0 {
      MaxNumberIs(js, n - 1);
    }
  }

  /** The next offset is the largest journal number on the page, in whatever order it lists its journals. */
  lemma NextOffsetIsLargest(js: seq<Journal>, offset: Number)
    ensures var next := NextOffset(Records(js), offset);
      if forall i :: 0 <= i < |js| ==> js[i].number.None? then next == offset
      else
        && (exists i :: 0 <= i < |js| && js[i].number == Some(next))
        && forall i :: 0 <= i < |js| && js[i].number.Some? ==> js[i].number.value <= next
    ensures NextOffset(Unmodified, offset) == NextOffset(Garbage, offset) == NextOffset(NoArray, offset) == offset
  {
    MaxNumberIs(js, |js|);
  }

  predicate StopOffset(count: nat, offset: Number, next: Number) {
    count == 0 || next <= offset
  }

  // ---- the loops -----------------------------------------------------------------

  /** Page `i` was served, had records, and moved the offset forward. */
  predicate Advances(server: Server, i: nat, offset: Number) {
    && server(i, offset).Served?
    && !StopOffset(RecordCount(server(i, offset).body), offset, NextOffset(server(i, offset).body, offset))
  }

  /** Page `i` advanced, to the next offset asked for. */
  ghost predicate StepAt(server: Server, offsets: seq<Number>, i: nat)
    requires i + 1 < |offsets|
  {
    Advances(server, i, offsets[i]) && offsets[i + 1] == NextOffset(server(i, offsets[i]).body, offsets[i])
  }

  /** The offsets asked for: from 0, each the next offset of the page before, which advanced. */
  ghost predicate Asked(server: Server, offsets: seq<Number>) {
    && (offsets != [] ==> offsets[0] == 0)
    && forall i: nat :: i + 1 < |offsets| ==> StepAt(server, offsets, i)
  }

  /** `offset` is what to ask for after `offsets`. */
  ghost predicate Continues(server: Server, offsets: seq<Number>, offset: Number) {
    if offsets == [] then offset == 0
    else
      var i: nat := |offsets| - 1;
      Advances(server, i, offsets[i]) && offset == NextOffset(server(i, offsets[i]).body, offsets[i])
  }

  lemma AskNext(server: Server, offsets: seq<Number>, offset: Number)
    requires Asked(server, offsets) && Continues(server, offsets, offset)
    ensures Asked(server, offsets + [offset])
  {
    var more := offsets + [offset];
    forall i: nat | i + 1 < |more| ensures StepAt(server, more, i) {
      if i + 1 < |offsets| {
        assert StepAt(server, offsets, i);
      }
    }
  }

  /** How the last page stopped the loop. `garbageFails`: the parsed loop rejects a body that is not JSON. */
  ghost predicate Stopped<T>(server: Server, cap: nat, offsets: seq<Number>, out: Fetch<T>, garbageFails: bool) {
    && 0 < |offsets| <= cap
    && var i: nat := |offsets| - 1;
       var reply := server(i, offsets[i]);
       match out
       case Done(_, pages, HitMaxPagesCap) => pages == |offsets| == cap && Advances(server, i, offsets[i])
       case Done(_, pages, EndedOnEmptyPage) =>
         pages == |offsets| && reply.Served? && RecordCount(reply.body) == 0 && !(garbageFails && reply.body.Garbage?)
       case Done(_, pages, OffsetNotAdvancing) =>
         pages == |offsets| && reply.Served? && RecordCount(reply.body) > 0
           && NextOffset(reply.body, offsets[i]) <= offsets[i]
       case Failed => reply.Refused? || (garbageFails && reply.body.Garbage?)
       case Overflowed => false
  }

  ghost predicate Bodies(server: Server, offsets: seq<Number>, all: seq<RawPage<Journal>>) {
    |all| == |offsets| && forall i :: 0 <= i < |all| ==>
      server(i, offsets[i]).Served? && all[i] == RawPage(i + 1, server(i, offsets[i]).body)
  }

  /** `fetch_raw_journals`. It ends for every server even without the cap: the offset only grows, within `i64`. */
  method FetchRawJournals(server: Server, cap: nat) returns (out: Fetch<RawPage<Journal>>, offsets: seq<Number>)
    requires cap >= 1
    ensures Asked(server, offsets) && Stopped(server, cap, offsets, out, false)
    ensures out.Done? ==> Bodies(server, offsets, out.all)
  {
    var all: seq<RawPage<Journal>> := [];
    var offset: Number := 0;
    var pages := 0;
    offsets := [];
    while true
      invariant |offsets| == pages <= cap && Asked(server, offsets) && Continues(server, offsets, offset)
          && Bodies(server, offsets, all)
      decreases I64_MAX - offset
    {
      if pages >= cap {
        return Done(all, pages, HitMaxPagesCap), offsets;
      }
      pages := pages + 1;
      var reply := server(pages - 1, offset);
      AskNext(server, offsets, offset);
      offsets := offsets + [offset];
      if reply.Refused? {
        return Failed, offsets;
      }
      var next := NextOffset(reply.body, offset);
      var stopEmpty := RecordCount(reply.body) == 0;
      var stopOffset := !stopEmpty && StopOffset(RecordCount(reply.body), offset, next);
      all := all + [RawPage(pages, reply.body)];
      if stopEmpty {
        return Done(all, pages, EndedOnEmptyPage), offsets;
      }
      if stopOffset {
        return Done(all, pages, OffsetNotAdvancing), offsets;
      }
      offset := next;
    }
  }

  function PageJournals(reply: Reply<Journal>): seq<Journal> {
    if reply.Served? && reply.body.Records? then reply.body.records else []
  }

  /** The journals on the first `n` pages. */
  function JournalsOn(server: Server, offsets: seq<Number>, n: nat): seq<Journal>
    requires n <= |offsets|
  {
    if n == 0 then [] else JournalsOn(server, offsets, n - 1) + PageJournals(server(n - 1, offsets[n - 1]))
  }

  lemma {:induction false} JournalsOnPrefix(server: Server, offsets: seq<Number>, more: seq<Number>, n: nat)
    requires n <= |offsets|
    ensures JournalsOn(server, offsets + more, n) == JournalsOn(server, offsets, n)
  {
    if n > 0 {
      JournalsOnPrefix(server, offsets, more, n - 1);
    }
  }

  lemma OneMorePage(server: Server, offsets: seq<Number>, offset: Number)
    ensures JournalsOn(server, offsets + [offset], |offsets| + 1)
        == JournalsOn(server, offsets, |offsets|) + PageJournals(server(|offsets|, offset))
  {
    JournalsOnPrefix(server, offsets, [offset], |offsets|);
  }

  /** What the parsed loop reads off a page is what the raw loop reads off its body. */
  lemma ParsedPage(reply: Reply<Journal>, offset: Number)
    requires reply.Served? && Parse(reply.body).Some?
    ensures var records := Parse(reply.body).value; var max := MaxNumber(records, |records|);
      && records == PageJournals(reply) && |records| == RecordCount(reply.body)
      && NextOffset(reply.body, offset) == if max.Some? then max.value else offset
  {
  }

  /** `fetch_journals`. */
  method FetchJournals(server: Server, cap: nat) returns (out: Fetch<Journal>, offsets: seq<Number>)
    requires cap >= 1
    ensures Asked(server, offsets) && Stopped(server, cap, offsets, out, true)
    ensures out.Done? ==> out.all == JournalsOn(server, offsets, |offsets|)
  {
    var all: seq<Journal> := [];
    var offset: Number := 0;
    var pages := 0;
    offsets := [];
    while true
      invariant |offsets| == pages <= cap && Asked(server, offsets) && Continues(server, offsets, offset)
          && all == JournalsOn(server, offsets, pages)
      decreases I64_MAX - offset
    {
      if pages >= cap {
        return Done(all, pages, HitMaxPagesCap), offsets;
      }
      pages := pages + 1;
      var reply := server(pages - 1, offset);
      OneMorePage(server, offsets, offset);
      AskNext(server, offsets, offset);
      offsets := offsets + [offset];
      assert offsets[pages - 1] == offset;
      if reply.Refused? {
        return Failed, offsets;
      }
      var parsed := Parse(reply.body);
      if parsed.None? {
        return Failed, offsets;
      }
      var records := parsed.value;
      var max := MaxNumber(records, |records|);
      var next := if max.Some? then max.value else offset;
      ParsedPage(reply, offset);
      var stopEmpty := records == [];
      var stopOffset := !stopEmpty && StopOffset(|records|, offset, next);
      all := all + records;
      if stopEmpty {
        return Done(all, pages, EndedOnEmptyPage), offsets;
      }
      if stopOffset {
        return Done(all, pages, OffsetNotAdvancing), offsets;
      }
      offset := next;
    }
  }

  // ---- any server ----------------------------------------------------------------

  /** The offset grows with every request, so their number is bounded by the range of `i64` alone. */
  lemma {:induction false} OffsetsIncrease(server: Server, offsets: seq<Number>, n: nat)
    requires Asked(server, offsets) && n < |offsets|
    ensures n <= offsets[n] && forall i :: 0 <= i < n ==> offsets[i] < offsets[n]
  {
    if n > 0 {
      OffsetsIncrease(server, offsets, n - 1);
      assert StepAt(server, offsets, n - 1);
    }
  }

  lemma {:induction false} SameOffsets(server: Server, a: seq<Number>, b: seq<Number>, n: nat)
    requires Asked(server, a) && Asked(server, b) && n < |a| && n < |b|
    ensures a[n] == b[n]
  {
    if n > 0 {
      SameOffsets(server, a, b, n - 1);
      assert StepAt(server, a, n - 1) && StepAt(server, b, n - 1);
    }
  }

  lemma LongerMeansAdvanced(server: Server, a: seq<Number>, b: seq<Number>)
    requires Asked(server, a) && Asked(server, b) && 0 < |a| < |b|
    ensures Advances(server, |a| - 1, a[|a| - 1])
  {
    var i: nat := |a| - 1;
    SameOffsets(server, a, b, i);
    assert StepAt(server, b, i);
  }

  /** The offset of request number `n`, if the requests before it all advance. */
  function OffsetAt(server: Server, n: nat): Number {
    if n == 0 then 0
    else
      var offset := OffsetAt(server, n - 1);
      var reply := server(n - 1, offset);
      if reply.Served? then NextOffset(reply.body, offset) else offset
  }

  ghost predicate AdvancesUpTo(server: Server, n: nat) {
    forall i: nat :: i < n ==> Advances(server, i, OffsetAt(server, i))
  }

  lemma {:induction false} AskedIsOffsetAt(server: Server, offsets: seq<Number>, n: nat)
    requires Asked(server, offsets) && n < |offsets|
    ensures offsets[n] == OffsetAt(server, n) && AdvancesUpTo(server, n)
  {
    if n > 0 {
      AskedIsOffsetAt(server, offsets, n - 1);
      assert StepAt(server, offsets, n - 1);
    }
  }

  ghost predicate GarbageAt(server: Server, n: nat) {
    var reply := server(n, OffsetAt(server, n));
    AdvancesUpTo(server, n) && reply.Served? && reply.body.Garbage?
  }

  /** Within the cap, after replies that advance only, the server sends a body that is not JSON. */
  ghost predicate SendsGarbage(server: Server, cap: nat) {
    exists n: nat :: n < cap && GarbageAt(server, n)
  }

  lemma StoppedEarly<T>(server: Server, cap: nat, offsets: seq<Number>, out: Fetch<T>, garbageFails: bool)
    requires Asked(server, offsets) && Stopped(server, cap, offsets, out, garbageFails) && |offsets| < cap
    ensures !AdvancesUpTo(server, |offsets|)
  {
    var last: nat := |offsets| - 1;
    AskedIsOffsetAt(server, offsets, last);
    assert !Advances(server, last, OffsetAt(server, last));
  }

  /** Both loops stop on it. */
  lemma GarbageIsLast<T>(server: Server, cap: nat, offsets: seq<Number>, out: Fetch<T>, garbageFails: bool, n: nat)
    requires Asked(server, offsets) && Stopped(server, cap, offsets, out, garbageFails)
    requires n < cap && GarbageAt(server, n)
    ensures |offsets| == n + 1 && offsets[n] == OffsetAt(server, n)
  {
    var last: nat := |offsets| - 1;
    AskedIsOffsetAt(server, offsets, last);
    if last < n {
      StoppedEarly(server, cap, offsets, out, garbageFails);
    }
  }

  /**
   * The raw and the parsed loop ask for the same offsets. They report the same outcome exactly when no body that is not
   * JSON follows the replies that advance.
   */
  lemma JournalLoopsAgreeIffNoGarbage(server: Server, cap: nat, raw: Fetch<RawPage<Journal>>, a: seq<Number>,
                                      parsed: Fetch<Journal>, b: seq<Number>)
    requires Asked(server, a) && Stopped(server, cap, a, raw, false)
    requires Asked(server, b) && Stopped(server, cap, b, parsed, true)
    ensures a == b
    ensures SameReport(raw, parsed) <==> !SendsGarbage(server, cap)
  {
    if |a| < |b| {
      LongerMeansAdvanced(server, a, b);
    } else if |b| < |a| {
      LongerMeansAdvanced(server, b, a);
    }
    forall i: nat | i < |a| ensures a[i] == b[i] {
      SameOffsets(server, a, b, i);
    }
    var last: nat := |a| - 1;
    AskedIsOffsetAt(server, a, last);
    if n: nat :| n < cap && GarbageAt(server, n) {
      GarbageIsLast(server, cap, a, raw, false, n);
    } else {
      assert !GarbageAt(server, last);
    }
  }

  /** One journal on each of the first `n` pages, and then bodies that are not JSON. */
  function BrokenServer(n: nat): Server {
    (i: nat, offset: Number) =>
      Served(if i < n && offset < I64_MAX then Records([Journal("", Some(offset + 1))]) else Garbage)
  }

  lemma {:induction false} BrokenServerAdvances(n: nat, m: nat)
    requires m <= n <= I64_MAX
    ensures OffsetAt(BrokenServer(n), m) == m && AdvancesUpTo(BrokenServer(n), m)
  {
    if m > 0 {
      BrokenServerAdvances(n, m - 1);
      assert MaxNumber([Journal("", Some(m))], 1) == Some(m);
    }
  }

  /** Against it the raw loop reports a complete fetch, and the parsed loop an error. */
  lemma JournalLoopsDiffer(n: nat, cap: nat, raw: Fetch<RawPage<Journal>>, a: seq<Number>, parsed: Fetch<Journal>,
                           b: seq<Number>)
    requires n < cap && n <= I64_MAX
    requires Asked(BrokenServer(n), a) && Stopped(BrokenServer(n), cap, a, raw, false)
    requires Asked(BrokenServer(n), b) && Stopped(BrokenServer(n), cap, b, parsed, true)
    ensures raw.Done? && raw.termination == EndedOnEmptyPage && raw.pagesFetched == n + 1
    ensures parsed.Failed?
  {
    BrokenServerAdvances(n, n);
    GarbageIsLast(BrokenServer(n), cap, a, raw, false, n);
    GarbageIsLast(BrokenServer(n), cap, b, parsed, true, n);
  }

  // ---- a server that keeps the contract --------------------------------------------

  /** Journals in strictly increasing order of positive numbers. */
  ghost predicate Ledger(js: seq<Journal>) {
    && (forall i :: 0 <= i < |js| ==> js[i].number.Some? && js[i].number.value > 0)
    && forall i, j :: 0 <= i < j < |js| ==> js[i].number.value < js[j].number.value
  }

  /** The journals from position `k` on are those above the offset. */
  ghost predicate Above(js: seq<Journal>, offset: Number, k: nat)
    requires Ledger(js)
  {
    && k <= |js|
    && (forall i :: 0 <= i < k ==> js[i].number.value <= offset)
    && (forall i :: k <= i < |js| ==> js[i].number.value > offset)
  }

  ghost predicate Segment(reply: Reply<Journal>, js: seq<Journal>, k: nat)
    requires k <= |js|
  {
    && reply.Served? && reply.body.Records? && |reply.body.records| <= |js| - k
    && reply.body.records == js[k..k + |reply.body.records|]
    && (k < |js| ==> reply.body.records != [])
  }

  /**
   * Every request is answered with a nonempty initial segment of the journals above the offset, or with nothing if
   * there are none.
   */
  ghost predicate Honest(server: Server, js: seq<Journal>)
    requires Ledger(js)
  {
    forall i: nat, offset: Number, k: nat :: Above(js, offset, k) ==> Segment(server(i, offset), js, k)
  }

  lemma {:induction false} MaxOfSegment(js: seq<Journal>, n: nat)
    requires Ledger(js) && n <= |js|
    ensures MaxNumber(js, n) == if n == 0 then None else js[n - 1].number
  {
    if n > 0 {
      MaxOfSegment(js, n - 1);
    }
  }

  lemma PageMovesOn(server: Server, js: seq<Journal>, i: nat, offset: Number, k: nat) returns (m: nat)
    requires Ledger(js) && Honest(server, js) && Above(js, offset, k)
    ensures var reply := server(i, offset); Segment(reply, js, k) && m == |reply.body.records|
    ensures k < |js| ==> Advances(server, i, offset) && Above(js, NextOffset(server(i, offset).body, offset), k + m)
  {
    assert Segment(server(i, offset), js, k);
    var records := server(i, offset).body.records;
    m := |records|;
    assert forall x :: 0 <= x < m ==> records[x] == js[k + x];
    MaxOfSegment(records, m);
  }

  /** After `n` pages the journals collected are exactly those up to the offset. */
  lemma {:induction false} Progress(server: Server, js: seq<Journal>, offsets: seq<Number>, n: nat) returns (k: nat)
    requires Ledger(js) && Honest(server, js) && Asked(server, offsets) && n < |offsets|
    ensures Above(js, offsets[n], k) && JournalsOn(server, offsets, n) == js[..k]
  {
    if n == 0 {
      k := 0;
    } else {
      var before := Progress(server, js, offsets, n - 1);
      assert StepAt(server, offsets, n - 1);
      k := OnePageOn(server, js, offsets, n - 1, before);
    }
  }

  lemma OnePageOn(server: Server, js: seq<Journal>, offsets: seq<Number>, n: nat, before: nat) returns (k: nat)
    requires Ledger(js) && Honest(server, js) && n + 1 < |offsets| && StepAt(server, offsets, n)
    requires Above(js, offsets[n], before) && JournalsOn(server, offsets, n) == js[..before]
    ensures Above(js, offsets[n + 1], k) && JournalsOn(server, offsets, n + 1) == js[..k]
  {
    var m := PageMovesOn(server, js, n, offsets[n], before);
    k := before + m;
    assert js[..before] + js[before..k] == js[..k];
  }

  /**
   * Against a server that keeps the contract every journal is returned exactly once, in order, and the loop stops on
   * the empty page; only the cap can cut it short, and then what was returned is still an initial segment.
   */
  lemma EveryJournalOnce(server: Server, js: seq<Journal>, cap: nat, out: Fetch<Journal>, offsets: seq<Number>)
    requires Ledger(js) && Honest(server, js)
    requires Asked(server, offsets) && Stopped(server, cap, offsets, out, true)
    requires out.Done? ==> out.all == JournalsOn(server, offsets, |offsets|)
    ensures out.Done? && out.all <= js
    ensures out.termination
        == (if |offsets| == cap && Advances(server, cap - 1, offsets[cap - 1]) then HitMaxPagesCap
          else EndedOnEmptyPage)
    ensures out.termination == EndedOnEmptyPage ==> out.all == js
  {
    var k, m := LastPage(server, js, offsets);
  }

  /** What had been collected before the last page, and how many journals the last page brought. */
  lemma LastPage(server: Server, js: seq<Journal>, offsets: seq<Number>) returns (k: nat, m: nat)
    requires Ledger(js) && Honest(server, js) && Asked(server, offsets) && offsets != []
    ensures k <= |js|
    ensures var i: nat := |offsets| - 1; var reply := server(i, offsets[i]);
      && Segment(reply, js, k) && m == |reply.body.records|
      && (k < |js| ==> Advances(server, i, offsets[i]))
      && JournalsOn(server, offsets, |offsets|) == js[..k + m]
  {
    var i: nat := |offsets| - 1;
    k := Progress(server, js, offsets, i);
    m := PageMovesOn(server, js, i, offsets[i], k);
    assert js[..k] + js[k..k + m] == js[..k + m];
  }
}
