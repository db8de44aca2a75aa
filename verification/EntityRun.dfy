/** `run_entity`: one unit from its fetch to the objects it writes and what it reports about them. */
module EntityRun {
  import opened Text
  import opened Positions
  import opened Pagination
  import opened Journals
  import opened SyncRun

  /** `TerminationReason::as_str`. */
  function Label(t: Termination): string {
    match t
    case EndedOnEmptyPage => "ended_on_empty_page"
    case HitMaxPagesCap => "hit_max_pages_cap"
    case OffsetNotAdvancing => "offset_not_advancing"
  }

  /** The text names the stop: two stops are never printed alike, nor as the text of a failed unit. */
  lemma LabelIdentifies(t: Termination, u: Termination)
    ensures Label(t) == Label(u) <==> t == u
    ensures Label(t) != "error"
    ensures Label(t) == "hit_max_pages_cap" <==> t == HitMaxPagesCap
  {
    assert Label(t)[0] == 'e' <==> t == EndedOnEmptyPage;
    assert Label(t)[0] == 'h' <==> t == HitMaxPagesCap;
    assert Label(u)[0] == 'e' <==> u == EndedOnEmptyPage;
    assert Label(u)[0] == 'h' <==> u == HitMaxPagesCap;
    assert Label(t)[1] != 'r';
  }

  /** The records in the bodies written. */
  function RecordsWritten<K, R>(written: seq<(K, PageBody<R>)>): seq<R> {
    if written == [] then []
    else
      var body := written[|written| - 1].1;
      RecordsWritten(written[..|written| - 1]) + if body.Records? then body.records else []
  }

  /** The first pages of `pages`, each under its own key. */
  ghost predicate WrittenAs<K, R>(written: seq<(K, PageBody<R>)>, pages: seq<RawPage<R>>, key: nat -> K) {
    |written| <= |pages| && forall i :: 0 <= i < |written| ==> written[i] == (key(pages[i].page), pages[i].body)
  }

  lemma {:induction false} CountIsRecordsWritten<K, R>(written: seq<(K, PageBody<R>)>, pages: seq<RawPage<R>>,
                                                       key: nat -> K)
    requires WrittenAs(written, pages, key)
    ensures TotalRecords(pages, |written|) == |RecordsWritten(written)|
  {
    if written != [] {
      CountIsRecordsWritten(written[..|written| - 1], pages, key);
    }
  }

  /**
   * What a unit reports of a fetch: it succeeds exactly when the fetch does and the sink takes every page. Then all
   * pages are written, and it reports the records written, the pages fetched and the reason paging stopped. Otherwise
   * the pages before the first refusal are written, and none after a failed fetch.
   */
  ghost predicate Uploaded<K, R>(fetched: Fetch<RawPage<R>>, key: nat -> K, put: nat -> bool, result: Result,
                                 written: seq<(K, PageBody<R>)>) {
    && (result.Ok? <==> fetched.Done? && forall i: nat :: i < |fetched.all| ==> put(i))
    && (fetched.Done? ==> WrittenAs(written, fetched.all, key) && (result.Ok? ==> |written| == |fetched.all|))
    && (fetched.Done? && !result.Ok? ==>
          |written| < |fetched.all| && !put(|written|) && forall i: nat :: i < |written| ==> put(i))
    && (!fetched.Done? ==> written == [])
    && (result.Ok? ==>
          && result.records == |RecordsWritten(written)| && result.pages == fetched.pagesFetched
          && result.termination == Label(fetched.termination))
  }

  /** The part of `run_entity` after the fetch; `None` where the page counter overflowed. */
  method Upload<K, R>(fetched: Fetch<RawPage<R>>, key: nat -> K, put: nat -> bool, error: string)
    returns (result: Option<Result>, written: seq<(K, PageBody<R>)>)
    ensures result.None? <==> fetched.Overflowed?
    ensures result.Some? ==> Uploaded(fetched, key, put, result.value, written)
    ensures result.None? ==> written == []
  {
    written := [];
    match fetched
    case Overflowed => result := None;
    case Failed => result := Some(Err(error));
    case Done(all, pagesFetched, termination) =>
      var records;
      records, written := UploadPages(all, key, put);
      if records.None? {
        return Some(Err(error)), written;
      }
      CountIsRecordsWritten(written, all, key);
      result := Some(Ok(pagesFetched, records.value, Label(termination)));
  }

  /** A unit's result and its writes are those of some fetch the server allows. */
  ghost predicate Ran<K, R(!new)>(server: nat -> Reply<R>, paginated: bool, cap: nat, key: nat -> K, put: nat -> bool,
                                  result: Result, written: seq<(K, PageBody<R>)>) {
    exists fetched, asked :: RawFetch(server, paginated, cap, fetched, asked)
      && Uploaded(fetched, key, put, result, written)
  }

  /**
   * `run_entity` for an entity that is not `Journals` or a report; `None` where the page counter overflowed, which
   * takes data on every page up to `u32::MAX`.
   */
  method RunEntity<K, R(!new)>(server: nat -> Reply<R>, paginated: bool, cap: nat, key: nat -> K, put: nat -> bool,
                               error: string)
    returns (result: Option<Result>, written: seq<(K, PageBody<R>)>)
    requires 1 <= cap <= U32_MAX
    ensures result.None? <==> paginated && cap == U32_MAX && DataPages(server, U32_MAX)
    ensures result.None? ==> written == []
    ensures result.Some? ==> Ran(server, paginated, cap, key, put, result.value, written)
  {
    var fetched, asked := FetchRawPages(server, paginated, cap);
    if paginated {
      OverflowsIffNoPageStops(server, cap, fetched, asked);
    }
    result, written := Upload(fetched, key, put, error);
  }

  /** The same for a fetch of journals. */
  ghost predicate JournalsRan<K>(server: Server, cap: nat, key: nat -> K, put: nat -> bool, result: Result,
                                 written: seq<(K, PageBody<Journal>)>) {
    exists fetched, offsets :: Fetched(server, cap, fetched, offsets) && Uploaded(fetched, key, put, result, written)
  }

  ghost predicate Fetched(server: Server, cap: nat, fetched: Fetch<RawPage<Journal>>, offsets: seq<Number>) {
    && Asked(server, offsets) && Stopped(server, cap, offsets, fetched, false)
    && (fetched.Done? ==> Bodies(server, offsets, fetched.all))
  }

  /** `run_entity` for `Journals`. */
  method RunJournals<K>(server: Server, cap: nat, key: nat -> K, put: nat -> bool, error: string)
    returns (result: Result, written: seq<(K, PageBody<Journal>)>)
    requires cap >= 1
    ensures JournalsRan(server, cap, key, put, result, written)
  {
    var fetched, offsets := FetchRawJournals(server, cap);
    var r;
    r, written := Upload(fetched, key, put, error);
    result := r.value;
    assert Fetched(server, cap, fetched, offsets);
  }

  // ---- from the server to the manifest -------------------------------------------------

  lemma FetchReported<K, R>(server: nat -> Reply<R>, paginated: bool, cap: nat, key: nat -> K, put: nat -> bool,
                            result: Result, written: seq<(K, PageBody<R>)>, fetched: Fetch<RawPage<R>>, asked: nat)
    requires RawFetch(server, paginated, cap, fetched, asked) && Uploaded(fetched, key, put, result, written)
    requires result.Ok?
    ensures |written| == asked
    ensures forall i :: 0 <= i < asked ==> server(i + 1).Served? && written[i] == (key(i + 1), server(i + 1).body)
    ensures result.records == |RecordsUpTo(server, result.pages)|
    ensures if paginated then DataPages(server, result.pages) else result.pages == 1
    ensures paginated && result.termination != "hit_max_pages_cap" ==>
      asked == result.pages + 1 && RecordCount(server(asked).body) == 0
    ensures result.termination == "hit_max_pages_cap" ==> asked == result.pages == cap
  {
    LabelIdentifies(fetched.termination, HitMaxPagesCap);
    CountIsRecordsWritten(written, fetched.all, key);
    if paginated {
      PagesCountRecords(server, cap, fetched, asked);
      forall i | 0 <= i < asked ensures server(i + 1).Served? && written[i] == (key(i + 1), server(i + 1).body) {
        assert fetched.all[i + 1 - 1] == RawPage(i + 1, server(i + 1).body);
      }
    } else {
      assert RecordsUpTo(server, 0) == [] && TotalRecords(fetched.all, 0) == 0;
    }
  }

  /**
   * A unit that succeeds has written the server's bodies page by page under the keys of their numbers, up to the empty
   * page unless it reports the cap, and reports as many records as the parsed form reads off the pages it counts: those
   * with data, or the one page of an entity without pages.
   */
  lemma UnitReportsServer<K, R(!new)>(server: nat -> Reply<R>, paginated: bool, cap: nat, key: nat -> K,
                                      put: nat -> bool, result: Result, written: seq<(K, PageBody<R>)>)
    requires Ran(server, paginated, cap, key, put, result, written) && result.Ok?
    ensures |written|
        == if paginated && result.termination != "hit_max_pages_cap" then result.pages + 1 else result.pages
    ensures forall i :: 0 <= i < |written| ==> server(i + 1).Served? && written[i] == (key(i + 1), server(i + 1).body)
    ensures result.records == |RecordsUpTo(server, result.pages)|
    ensures if paginated then DataPages(server, result.pages) else result.pages == 1
    ensures paginated && result.termination != "hit_max_pages_cap" ==> RecordCount(server(result.pages + 1).body) == 0
    ensures result.termination == "hit_max_pages_cap" ==> result.pages == cap
  {
    var fetched, asked :| RawFetch(server, paginated, cap, fetched, asked)
      && Uploaded(fetched, key, put, result, written);
    FetchReported(server, paginated, cap, key, put, result, written, fetched, asked);
    if !paginated {
      LabelIdentifies(EndedOnEmptyPage, HitMaxPagesCap);
    }
  }

  /** The entries of a list, one per unit, of the units that succeeded. */
  function OfSuccesses<T>(results: seq<Result>, list: seq<T>): seq<T>
    requires |list| == |results|
  {
    if list == [] then []
    else
      var last := |list| - 1;
      OfSuccesses(results[..last], list[..last]) + if results[last].Ok? then [list[last]] else []
  }

  lemma {:induction false} SuccessesTotal<T>(results: seq<Result>, list: seq<T>, size: T -> int)
    requires |list| == |results|
    requires forall u :: 0 <= u < |list| && results[u].Ok? ==> results[u].records == size(list[u])
    ensures Total(results, (r: Result) => if r.Ok? then r.records else 0) == Total(OfSuccesses(results, list), size)
  {
    if list != [] {
      var last := |list| - 1;
      SuccessesTotal(results[..last], list[..last], size);
      TotalOfConcat(OfSuccesses(results[..last], list[..last]), if results[last].Ok? then [list[last]] else [], size);
      TotalOfOne(list[last], size);
    }
  }

  lemma TotalOfOne<T>(x: T, f: T -> int)
    ensures Total([x], f) == f(x)
    ensures Total([], f) == 0
  {
    assert [x][..0] == [];
  }

  /**
   * The manifest counts what was written: whatever the completion order of the units, its record total is the number of
   * records in the objects of the units that succeeded.
   */
  lemma {:induction false} ManifestCountsWrites<K, R>(
      outcomes: seq<Outcome>, units: seq<(string, string)>, results: seq<Result>, fetched: seq<Fetch<RawPage<R>>>,
      keys: seq<nat -> K>, puts: seq<nat -> bool>, written: seq<seq<(K, PageBody<R>)>>)
    requires |results| == |fetched| == |keys| == |puts| == |written| == |units| && OnePerUnit(outcomes, units, results)
    requires forall u :: 0 <= u < |units| ==> Uploaded(fetched[u], keys[u], puts[u], results[u], written[u])
    ensures Total(outcomes, (o: Outcome) => o.records)
        == Total(OfSuccesses(results, written), (w: seq<(K, PageBody<R>)>) => |RecordsWritten(w)|)
  {
    ManifestTotals(outcomes, units, results);
    SuccessesTotal(results, written, (w: seq<(K, PageBody<R>)>) => |RecordsWritten(w)|);
  }
}
