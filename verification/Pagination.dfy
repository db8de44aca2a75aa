/**
 * Page-by-page fetching against any server, in the form that keeps raw bodies and the form that parses records, and the
 * upload loop that follows. A server gives, for each page number, the outcome of its request loop.
 */
module Pagination {
  import opened Text

  const U32_MAX := 0xFFFF_FFFF

  /** A response body: 304 carries none; a body that is not JSON; JSON without the entity's array; JSON with it. */
  datatype PageBody<+R> = Unmodified | Garbage | NoArray | Records(records: seq<R>)

  datatype Reply<+R> = Refused | Served(body: PageBody<R>)

  datatype Termination = EndedOnEmptyPage | HitMaxPagesCap | OffsetNotAdvancing

  datatype RawPage<+R> = RawPage(page: nat, body: PageBody<R>)

  /** `Overflowed`: the unchecked `page += 1` left the range of `u32`. */
  datatype Fetch<+T> = Done(all: seq<T>, pagesFetched: nat, termination: Termination) | Failed | Overflowed

  /** `record_count_from_bytes`: anything but a readable array counts as no records. */
  function RecordCount<R>(body: PageBody<R>): nat {
    if body.Records? then |body.records| else 0
  }

  /** The parsed form: a body that is not JSON is an error. */
  function Parse<R>(body: PageBody<R>): Option<seq<R>> {
    match body
    case Garbage => None
    case Records(records) => Some(records)
    case _ => Some([])
  }

  // ---- the loops -----------------------------------------------------------------

  ghost predicate DataPages<R>(server: nat -> Reply<R>, n: nat) {
    forall p :: 1 <= p <= n ==> server(p).Served? && RecordCount(server(p).body) > 0
  }

  ghost predicate RawPages<R>(server: nat -> Reply<R>, all: seq<RawPage<R>>, n: nat) {
    |all| == n && forall p :: 1 <= p <= n ==> server(p).Served? && all[p - 1] == RawPage(p, server(p).body)
  }

  /** What the raw loop must report: how it stopped, after which page, with which bodies. */
  ghost predicate RawOutcome<R>(server: nat -> Reply<R>, cap: nat, out: Fetch<RawPage<R>>, asked: nat) {
    match out
    case Done(all, fetched, EndedOnEmptyPage) =>
      && asked == fetched + 1 <= cap && DataPages(server, fetched)
      && server(asked).Served? && RecordCount(server(asked).body) == 0
      && RawPages(server, all, asked)
    case Done(all, fetched, HitMaxPagesCap) =>
      asked == fetched == cap < U32_MAX && DataPages(server, cap) && RawPages(server, all, cap)
    case Done(_, _, OffsetNotAdvancing) => false
    case Failed => 1 <= asked <= cap && DataPages(server, asked - 1) && server(asked).Refused?
    case Overflowed => asked == cap == U32_MAX && DataPages(server, U32_MAX)
  }

  /** What the raw form must report; an entity without pages is asked for once, and its body is page 1. */
  ghost predicate RawFetch<R>(server: nat -> Reply<R>, paginated: bool, cap: nat, out: Fetch<RawPage<R>>, asked: nat) {
    if paginated then RawOutcome(server, cap, out, asked)
    else asked == 1 && match server(1)
      case Refused => out == Failed
      case Served(body) => out == Done([RawPage(1, body)], 1, EndedOnEmptyPage)
  }

  /**
   * `fetch_raw_pages`: one request for an entity without pages, else pages 1, 2, ... with every body kept. `asked` is
   * the last page asked for.
   */
  method FetchRawPages<R>(server: nat -> Reply<R>, paginated: bool, cap: nat)
    returns (out: Fetch<RawPage<R>>, asked: nat)
    requires 1 <= cap <= U32_MAX
    ensures RawFetch(server, paginated, cap, out, asked)
  {
    if !paginated {
      if server(1).Refused? {
        return Failed, 1;
      }
      return Done([RawPage(1, server(1).body)], 1, EndedOnEmptyPage), 1;
    }
    var all: seq<RawPage<R>> := [];
    var page := 1;
    asked := 0;
    while true
      invariant asked == page - 1 <= cap && DataPages(server, asked) && RawPages(server, all, asked)
      invariant page <= U32_MAX
      decreases cap + 1 - page
    {
      if page > cap {
        return Done(all, page - 1, HitMaxPagesCap), asked;
      }
      var reply := server(page);
      asked := page;
      if reply.Refused? {
        return Failed, asked;
      }
      all := all + [RawPage(page, reply.body)];
      if RecordCount(reply.body) == 0 {
        return Done(all, page - 1, EndedOnEmptyPage), asked;
      }
      if page == U32_MAX {
        return Overflowed, asked;
      }
      page := page + 1;
    }
  }

  /** The records of pages 1 to `n`. */
  function RecordsUpTo<R>(server: nat -> Reply<R>, n: nat): seq<R> {
    if n == 0 then []
    else RecordsUpTo(server, n - 1) + if server(n).Served? && server(n).body.Records? then server(n).body.records
      else []
  }

  ghost predicate ParsedOutcome<R>(server: nat -> Reply<R>, cap: nat, out: Fetch<R>, asked: nat) {
    match out
    case Done(all, fetched, EndedOnEmptyPage) =>
      && asked == fetched + 1 <= cap && DataPages(server, fetched)
      && server(asked).Served? && RecordCount(server(asked).body) == 0 && !server(asked).body.Garbage?
      && all == RecordsUpTo(server, fetched)
    case Done(all, fetched, HitMaxPagesCap) =>
      asked == fetched == cap < U32_MAX && DataPages(server, cap) && all == RecordsUpTo(server, cap)
    case Done(_, _, OffsetNotAdvancing) => false
    case Failed => 1 <= asked <= cap && DataPages(server, asked - 1)
      && (server(asked).Refused? || server(asked).body.Garbage?)
    case Overflowed => asked == cap == U32_MAX && DataPages(server, U32_MAX)
  }

  /** The parsed form likewise, with the records of the one body. */
  ghost predicate ParsedFetch<R>(server: nat -> Reply<R>, paginated: bool, cap: nat, out: Fetch<R>, asked: nat) {
    if paginated then ParsedOutcome(server, cap, out, asked)
    else asked == 1 && match server(1)
      case Refused => out == Failed
      case Served(Garbage) => out == Failed
      case Served(Records(records)) => out == Done(records, 1, EndedOnEmptyPage)
      case Served(_) => out == Done([], 1, EndedOnEmptyPage)
  }

  /** `fetch_inner`: the same requests, keeping records. */
  method FetchInner<R>(server: nat -> Reply<R>, paginated: bool, cap: nat) returns (out: Fetch<R>, asked: nat)
    requires 1 <= cap <= U32_MAX
    ensures ParsedFetch(server, paginated, cap, out, asked)
  {
    if !paginated {
      if server(1).Refused? || Parse(server(1).body).None? {
        return Failed, 1;
      }
      return Done(Parse(server(1).body).value, 1, EndedOnEmptyPage), 1;
    }
    var all: seq<R> := [];
    var page := 1;
    asked := 0;
    while true
      invariant asked == page - 1 <= cap && DataPages(server, asked) && all == RecordsUpTo(server, asked)
      invariant page <= U32_MAX
      decreases cap + 1 - page
    {
      if page > cap {
        return Done(all, page - 1, HitMaxPagesCap), asked;
      }
      var reply := server(page);
      asked := page;
      if reply.Refused? {
        return Failed, asked;
      }
      var parsed := Parse(reply.body);
      if parsed.None? {
        return Failed, asked;
      }
      var records := parsed.value;
      all := all + records;
      if |records| == 0 {
        return Done(all, page - 1, EndedOnEmptyPage), asked;
      }
      if page == U32_MAX {
        return Overflowed, asked;
      }
      page := page + 1;
    }
  }

  // ---- the two loops compared ----------------------------------------------------

  predicate SameReport<T, U>(a: Fetch<T>, b: Fetch<U>) {
    match (a, b)
    case (Done(_, n, t), Done(_, m, u)) => n == m && t == u
    case (Failed, Failed) => true
    case (Overflowed, Overflowed) => true
    case _ => false
  }

  /** Within the cap, after pages with data only, the server sends a body that is not JSON. */
  ghost predicate SendsGarbage<R>(server: nat -> Reply<R>, cap: nat) {
    exists p :: 1 <= p <= cap && DataPages(server, p - 1) && server(p).Served? && server(p).body.Garbage?
  }

  /** The last page that may be asked for. */
  function LastPage(paginated: bool, cap: nat): nat {
    if paginated then cap else 1
  }

  /**
   * Both forms ask for the same pages. They report the same outcome exactly when no body that is not JSON follows the
   * pages with data: the raw form takes it for the empty last page, or for the one page, and the parsed form fails.
   */
  lemma LoopsAgreeIffNoGarbage<R>(server: nat -> Reply<R>, paginated: bool, cap: nat, raw: Fetch<RawPage<R>>,
                                  parsed: Fetch<R>, asked: nat, asked': nat)
    requires RawFetch(server, paginated, cap, raw, asked) && ParsedFetch(server, paginated, cap, parsed, asked')
    ensures asked == asked'
    ensures SameReport(raw, parsed) <==> !SendsGarbage(server, LastPage(paginated, cap))
    ensures !SameReport(raw, parsed) ==> raw.Done? && raw.termination == EndedOnEmptyPage && parsed.Failed?
  {
    if paginated {
      PagedLoopsAgree(server, cap, raw, parsed, asked, asked');
    } else {
      assert DataPages(server, 0);
    }
  }

  lemma PagedLoopsAgree<R>(server: nat -> Reply<R>, cap: nat, raw: Fetch<RawPage<R>>, parsed: Fetch<R>, asked: nat,
                           asked': nat)
    requires RawOutcome(server, cap, raw, asked) && ParsedOutcome(server, cap, parsed, asked')
    ensures asked == asked'
    ensures SameReport(raw, parsed) <==> !SendsGarbage(server, cap)
    ensures !SameReport(raw, parsed) ==> raw.Done? && raw.termination == EndedOnEmptyPage && parsed.Failed?
  {
    if asked < asked' {
      StopsAt(server, cap, raw, asked);
    } else if asked' < asked {
      ParsedStopsAt(server, cap, parsed, asked');
    }
    if p :| 1 <= p <= cap && DataPages(server, p - 1) && server(p).Served? && server(p).body.Garbage? {
      GarbageIsLast(server, cap, raw, asked, p);
    }
  }

  /** The raw loop stops on it. */
  lemma GarbageIsLast<R>(server: nat -> Reply<R>, cap: nat, raw: Fetch<RawPage<R>>, asked: nat, p: nat)
    requires RawOutcome(server, cap, raw, asked)
    requires 1 <= p <= cap && DataPages(server, p - 1) && server(p).Served? && server(p).body.Garbage?
    ensures asked == p && raw.Done? && raw.termination == EndedOnEmptyPage
  {
    if asked < p {
      StopsAt(server, cap, raw, asked);
    }
  }

  /** `n` pages with one record each, and then bodies that are not JSON. */
  function BrokenServer<R>(n: nat, record: R): nat -> Reply<R> {
    p => Served(if p <= n then Records([record]) else Garbage)
  }

  /** Against it the raw loop reports a complete fetch of `n` pages, and the parsed loop an error. */
  lemma LoopsDiffer<R>(n: nat, record: R, cap: nat, raw: Fetch<RawPage<R>>, parsed: Fetch<R>, asked: nat, asked': nat)
    requires n < cap
    requires RawOutcome(BrokenServer(n, record), cap, raw, asked)
        && ParsedOutcome(BrokenServer(n, record), cap, parsed, asked')
    ensures raw.Done? && raw.termination == EndedOnEmptyPage && raw.pagesFetched == n
    ensures parsed.Failed?
  {
    var server := BrokenServer(n, record);
    assert forall p :: 1 <= p <= n ==> server(p) == Served(Records([record]));
    GarbageIsLast(server, cap, raw, asked, n + 1);
    LoopsAgreeIffNoGarbage(server, true, cap, raw, parsed, asked, asked');
  }

  lemma StopsAt<R>(server: nat -> Reply<R>, cap: nat, raw: Fetch<RawPage<R>>, asked: nat)
    requires RawOutcome(server, cap, raw, asked) && asked < cap
    ensures asked > 0 && !DataPages(server, asked)
  {
  }

  lemma ParsedStopsAt<R>(server: nat -> Reply<R>, cap: nat, parsed: Fetch<R>, asked: nat)
    requires ParsedOutcome(server, cap, parsed, asked) && asked < cap
    ensures asked > 0 && !DataPages(server, asked)
  {
  }

  /**
   * The page counter overflows exactly when the cap is `u32::MAX` and no page up to it is empty, refused or
   * unreadable.
   */
  lemma OverflowsIffNoPageStops<R>(server: nat -> Reply<R>, cap: nat, raw: Fetch<RawPage<R>>, asked: nat)
    requires 1 <= cap <= U32_MAX && RawOutcome(server, cap, raw, asked)
    ensures raw.Overflowed? <==> cap == U32_MAX && DataPages(server, U32_MAX)
  {
    if asked < cap {
      StopsAt(server, cap, raw, asked);
    }
  }

  lemma DataEndsBefore<R>(server: nat -> Reply<R>, k: nat, p: nat)
    requires DataPages(server, k) && 1 <= p && server(p).Served? && RecordCount(server(p).body) == 0
    ensures k < p
  {
  }

  /** A stop that is not suspect has every page with data: pages 1 to k, all nonempty, then an empty one. */
  lemma HealthyStopMissesNothing<R>(server: nat -> Reply<R>, cap: nat, raw: Fetch<RawPage<R>>, asked: nat, more: nat)
    requires 1 <= cap && RawOutcome(server, cap, raw, asked) && raw.Done?
    requires forall p: nat :: 1 <= p <= more + 1 ==>
        server(p).Served? && (p <= more <==> RecordCount(server(p).body) > 0)
    ensures raw.termination != HitMaxPagesCap ==> raw.pagesFetched == more && |raw.all| == more + 1
    ensures raw.termination == HitMaxPagesCap ==> raw.pagesFetched == cap <= more
  {
    var k: nat := raw.pagesFetched;
    if k > 0 { assert server(k).Served? && RecordCount(server(k).body) > 0; }
    DataEndsBefore(server, k, more + 1);
    assert asked >= 1 && server(asked).Served?;
  }

  // ---- uploading -----------------------------------------------------------------

  function TotalRecords<R>(pages: seq<RawPage<R>>, n: nat): nat
    requires n <= |pages|
  {
    if n == 0 then 0 else TotalRecords(pages, n - 1) + RecordCount(pages[n - 1].body)
  }

  /**
   * The upload loop of `run_entity`: `put(i)` says whether the sink accepts page `i`; the first refusal ends the unit.
   */
  method UploadPages<R, K>(pages: seq<RawPage<R>>, key: nat -> K, put: nat -> bool)
    returns (records: Option<nat>, written: seq<(K, PageBody<R>)>)
    ensures |written| <= |pages| && forall i :: 0 <= i < |written| ==>
        written[i] == (key(pages[i].page), pages[i].body) && put(i)
    ensures records == if |written| == |pages| then Some(TotalRecords(pages, |pages|)) else None
    ensures |written| < |pages| ==> !put(|written|)
  {
    var total := 0;
    written := [];
    for i := 0 to |pages|
      invariant total == TotalRecords(pages, i) && |written| == i
      invariant forall j :: 0 <= j < i ==> written[j] == (key(pages[j].page), pages[j].body) && put(j)
    {
      total := total + RecordCount(pages[i].body);
      if !put(i) {
        return None, written;
      }
      written := written + [(key(pages[i].page), pages[i].body)];
    }
    records := Some(total);
  }

  lemma {:induction false} TotalIsRecords<R>(server: nat -> Reply<R>, pages: seq<RawPage<R>>, n: nat)
    requires n <= |pages| && RawPages(server, pages, |pages|)
    ensures TotalRecords(pages, n) == |RecordsUpTo(server, n)|
  {
    if n > 0 {
      TotalIsRecords(server, pages, n - 1);
      assert pages[n - 1] == RawPage(n, server(n).body);
    }
  }

  /** The record count of the pages kept is the number of records on the pages with data. */
  lemma PagesCountRecords<R>(server: nat -> Reply<R>, cap: nat, raw: Fetch<RawPage<R>>, asked: nat)
    requires RawOutcome(server, cap, raw, asked) && raw.Done?
    ensures TotalRecords(raw.all, |raw.all|) == |RecordsUpTo(server, raw.pagesFetched)|
  {
    TotalIsRecords(server, raw.all, |raw.all|);
  }

  /**
   * The manifest's record count is the number of records the parsed form would return. Its page count is the number of
   * pages with data, or one for an entity without pages; the pages kept are those asked for, under their numbers.
   */
  lemma ManifestCountsRecords<R>(server: nat -> Reply<R>, paginated: bool, cap: nat, raw: Fetch<RawPage<R>>, asked: nat,
                                 parsed: Fetch<R>, asked': nat)
    requires RawFetch(server, paginated, cap, raw, asked) && raw.Done?
    requires ParsedFetch(server, paginated, cap, parsed, asked')
    ensures parsed.Done? ==> TotalRecords(raw.all, |raw.all|) == |parsed.all|
    ensures TotalRecords(raw.all, |raw.all|) == |RecordsUpTo(server, raw.pagesFetched)|
    ensures |raw.all| == asked
    ensures forall i :: 0 <= i < |raw.all| ==> server(i + 1).Served? && raw.all[i] == RawPage(i + 1, server(i + 1).body)
    ensures if paginated
            then forall i :: 0 <= i < |raw.all| ==> (RecordCount(raw.all[i].body) > 0 <==> i < raw.pagesFetched)
            else raw.pagesFetched == 1
  {
    if paginated {
      LoopsAgreeIffNoGarbage(server, true, cap, raw, parsed, asked, asked');
      PagesCountRecords(server, cap, raw, asked);
      forall i | 0 <= i < |raw.all|
        ensures server(i + 1).Served? && raw.all[i] == RawPage(i + 1, server(i + 1).body)
        ensures RecordCount(raw.all[i].body) > 0 <==> i < raw.pagesFetched
      {
        assert raw.all[i + 1 - 1] == RawPage(i + 1, server(i + 1).body);
      }
    } else {
      assert TotalRecords(raw.all, 1) == TotalRecords(raw.all, 0) + RecordCount(raw.all[0].body);
      assert RecordsUpTo(server, 0) == [];
    }
  }
}
