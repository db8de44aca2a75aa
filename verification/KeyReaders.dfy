/**
 * The readers of printed keys: `split('/')` in the bucket scan, the path pattern, and the two ways of listing an
 * endpoint's sidecars.
 */
module KeyReaders {
  import opened Text
  import opened Dates
  import opened ObjectKeys

  /** The seven segments of a key under `raw/xero`. */
  ghost predicate Segments(name: string, tenant: string, endpoint: string, date: string, file: string) {
    && name == "raw/xero/" + (tenant + ['/'] + ("2.0/" + (endpoint + ['/'] + (date + ['/'] + file))))
    && Without(tenant, '/') && Without(endpoint, '/') && Without(date, '/') && Without(file, '/')
    && tenant != "" && endpoint != "" && date != "" && file != ""
  }

  lemma SplitRecoversSegments(name: string, tenant: string, endpoint: string, date: string, file: string)
    requires Segments(name, tenant, endpoint, date, file)
    ensures Split(name, '/') == ["raw", "xero", tenant, "2.0", endpoint, date, file]
  {
    var r4 := endpoint + ['/'] + (date + ['/'] + file);
    SplitHead(endpoint, date + ['/'] + file, '/');
    SplitHead(date, file, '/');
    SplitWhole(file, '/');
    SplitOuter(tenant, r4);
    assert name == "raw/xero/" + (tenant + ['/'] + ("2.0/" + r4));
  }

  lemma SplitRoot(rest: string)
    ensures Split("raw/xero/" + rest, '/') == ["raw", "xero"] + Split(rest, '/')
  {
    SplitHead("xero", rest, '/');
    SplitHead("raw", "xero" + ['/'] + rest, '/');
    assert "raw/xero/" + rest == "raw" + ['/'] + ("xero" + ['/'] + rest);
  }

  lemma SplitTenant(tenant: string, rest: string)
    requires Without(tenant, '/')
    ensures Split(tenant + ['/'] + ("2.0/" + rest), '/') == [tenant, "2.0"] + Split(rest, '/')
  {
    assert "2.0/" + rest == "2.0" + ['/'] + rest;
    SplitHead("2.0", rest, '/');
    SplitHead(tenant, "2.0/" + rest, '/');
    var tail := Split(rest, '/');
    assert [tenant] + (["2.0"] + tail) == [tenant, "2.0"] + tail;
  }

  lemma SplitOuter(tenant: string, rest: string)
    requires Without(tenant, '/')
    ensures Split("raw/xero/" + (tenant + ['/'] + ("2.0/" + rest)), '/')
        == ["raw", "xero", tenant, "2.0"] + Split(rest, '/')
  {
    SplitTenant(tenant, rest);
    SplitRoot(tenant + ['/'] + ("2.0/" + rest));
    assert ["raw", "xero"] + ([tenant, "2.0"] + Split(rest, '/')) == ["raw", "xero", tenant, "2.0"] + Split(rest, '/');
  }

  // ---- the path pattern --------------------------------------------------------------

  datatype Groups = Groups(vendor: string, tenant: string, endpoint: string, date: string, file: string)

  /** `\d+\.\d+` */
  predicate Version(s: string) {
    exists i :: 0 < i < |s| - 1 && s[i] == '.' && AllDigits(s[..i]) && AllDigits(s[i + 1..])
  }

  /** A version is two numbers with a dot between them, whichever numbers they are. */
  lemma VersionIsTwoNumbers(s: string)
    ensures Version(s) <==> var parts := Split(s, '.');
      |parts| == 2 && parts[0] != "" && parts[1] != "" && AllDigits(parts[0]) && AllDigits(parts[1])
  {
    var parts := Split(s, '.');
    if i :| 0 < i < |s| - 1 && s[i] == '.' && AllDigits(s[..i]) && AllDigits(s[i + 1..]) {
      DigitsWithout(s[..i], '.');
      DigitsWithout(s[i + 1..], '.');
      SplitHead(s[..i], s[i + 1..], '.');
      SplitWhole(s[i + 1..], '.');
      assert s == s[..i] + ['.'] + s[i + 1..];
    }
    if |parts| == 2 && parts[0] != "" && parts[1] != "" && AllDigits(parts[0]) && AllDigits(parts[1]) {
      JoinOfSplit(s, '.');
      assert parts[1..] == [parts[1]];
      assert s == parts[0] + ['.'] + parts[1];
      var i := |parts[0]|;
      assert s[..i] == parts[0] && s[i + 1..] == parts[1] && s[i] == '.';
    }
  }

  predicate Group(s: string) {
    s != "" && Without(s, '/')
  }

  /** The pattern's parts: the literal "raw", then its groups. */
  function PartsOf(g: Groups, version: string): seq<string> {
    ["raw", g.vendor, g.tenant, version, g.endpoint, g.date, g.file]
  }

  /**
   * `_PATH_RE` matches at the start of `s` with these groups: they are nonempty, free of '/', separated by '/', and the
   * last one takes all it can.
   */
  ghost predicate Matches(s: string, g: Groups, version: string, rest: string) {
    && Group(g.vendor) && Group(g.tenant) && Version(version) && Group(g.endpoint) && Group(g.date) && Group(g.file)
    && (rest == "" || rest[0] == '/')
    && s == Join(PartsOf(g, version), '/') + rest
  }

  ghost predicate MatchesAtStart(s: string, g: Groups) {
    exists version, rest :: Matches(s, g, version, rest)
  }

  /** How a match is found: by the segments of the text. */
  function MatchHere(s: string): Option<Groups> {
    var p := Split(s, '/');
    if && |p| >= 7 && p[0] == "raw" && p[1] != "" && p[2] != "" && Version(p[3])
       && p[4] != "" && p[5] != "" && p[6] != ""
    then Some(Groups(p[1], p[2], p[4], p[5], p[6]))
    else None
  }

  lemma VersionIsGroup(s: string)
    requires Version(s)
    ensures Group(s)
  {
    var i :| 0 < i < |s| - 1 && s[i] == '.' && AllDigits(s[..i]) && AllDigits(s[i + 1..]);
    DigitsWithout(s[..i], '/');
    DigitsWithout(s[i + 1..], '/');
    forall k | 0 <= k < |s| ensures s[k] != '/' {
      assert k < i ==> s[k] == s[..i][k];
      assert k > i ==> s[k] == s[i + 1..][k - i - 1];
    }
  }

  lemma MatchHasSegments(s: string, g: Groups, version: string, rest: string)
    requires Matches(s, g, version, rest)
    ensures MatchHere(s) == Some(g)
  {
    VersionIsGroup(version);
    SplitStartsWith(PartsOf(g, version), rest, '/');
  }

  lemma SegmentsMatch(s: string)
    requires MatchHere(s).Some?
    ensures MatchesAtStart(s, MatchHere(s).value)
  {
    var p, g := Split(s, '/'), MatchHere(s).value;
    JoinOfSplit(s, '/');
    assert p[..7] == PartsOf(g, p[3]);
    if |p| == 7 {
      assert p == p[..7] && Matches(s, g, p[3], "");
    } else {
      JoinAt(p, 7, '/');
      assert s == Join(p[..7], '/') + (['/'] + Join(p[7..], '/'));
      assert Matches(s, g, p[3], ['/'] + Join(p[7..], '/'));
    }
  }

  /** Segments decide the pattern: it matches at the start of a text in at most one way, and `MatchHere` finds it. */
  lemma MatchHereIsPattern(s: string, g: Groups)
    ensures MatchHere(s) == Some(g) <==> MatchesAtStart(s, g)
  {
    if version, rest :| Matches(s, g, version, rest) {
      MatchHasSegments(s, g, version, rest);
    } else if MatchHere(s).Some? {
      SegmentsMatch(s);
    }
  }

  /** `search`: the leftmost match. */
  function Search(s: string, from: nat): Option<Groups>
    requires from <= |s|
    decreases |s| - from
  {
    if MatchHere(s[from..]).Some? then MatchHere(s[from..])
    else if from == |s| then None
    else Search(s, from + 1)
  }

  /** The pattern matches from position `i` of `s` on, and from no earlier one. */
  ghost predicate LeftmostMatch(s: string, from: nat, i: nat, g: Groups)
    requires from <= |s|
  {
    from <= i <= |s| && MatchesAtStart(s[i..], g) && forall j, h :: from <= j < i ==> !MatchesAtStart(s[j..], h)
  }

  ghost predicate Finds(s: string, from: nat, g: Groups)
    requires from <= |s|
  {
    exists i :: LeftmostMatch(s, from, i, g)
  }

  /** No match here: the leftmost match is the leftmost one further on. */
  lemma MatchIsLater(s: string, from: nat, g: Groups)
    requires from <= |s| && forall h :: !MatchesAtStart(s[from..], h)
    ensures Finds(s, from, g) <==> from < |s| && Finds(s, from + 1, g)
  {
    if i :| LeftmostMatch(s, from, i, g) {
      assert from < |s| ==> LeftmostMatch(s, from + 1, i, g);
    }
    if from < |s| && Finds(s, from + 1, g) {
      var i :| LeftmostMatch(s, from + 1, i, g);
      assert LeftmostMatch(s, from, i, g);
    }
  }

  /** `Search` returns the groups of the leftmost match, and nothing only if the pattern matches nowhere. */
  lemma {:induction false} SearchIsLeftmost(s: string, from: nat, g: Groups)
    requires from <= |s|
    ensures Search(s, from) == Some(g) <==> Finds(s, from, g)
    decreases |s| - from
  {
    if MatchHere(s[from..]).Some? {
      MatchIsHere(s, from, g);
    } else {
      forall h ensures !MatchesAtStart(s[from..], h) {
        MatchHereIsPattern(s[from..], h);
      }
      MatchIsLater(s, from, g);
      if from < |s| {
        SearchIsLeftmost(s, from + 1, g);
      }
    }
  }

  lemma MatchIsHere(s: string, from: nat, g: Groups)
    requires from <= |s| && MatchHere(s[from..]).Some?
    ensures Finds(s, from, g) <==> MatchHere(s[from..]) == Some(g)
  {
    var h := MatchHere(s[from..]).value;
    MatchHereIsPattern(s[from..], g);
    MatchHereIsPattern(s[from..], h);
    assert LeftmostMatch(s, from, from, h);
    if i :| LeftmostMatch(s, from, i, g) {
      assert i == from;
    }
  }

  /** On a printed key the pattern and `split` recover vendor, tenant, endpoint, date and file. */
  lemma PatternRecoversSegments(name: string, tenant: string, endpoint: string, date: string, file: string)
    requires Segments(name, tenant, endpoint, date, file)
    ensures var g := Groups("xero", tenant, endpoint, date, file);
      && Matches(name, g, "2.0", "")
      && (forall h :: Finds(name, 0, h) <==> h == g)
      && Search(name, 0) == Some(g)
    ensures |Split(name, '/')| > 4 && Split(name, '/')[2] == tenant && Split(name, '/')[4] == endpoint
  {
    var g := Groups("xero", tenant, endpoint, date, file);
    SplitRecoversSegments(name, tenant, endpoint, date, file);
    assert name[0..] == name;
    TwoDotZeroIsVersion();
    assert Split(name, '/') == PartsOf(g, "2.0");
    JoinOfSplit(name, '/');
    assert name == name + "";
    assert Matches(name, g, "2.0", "");
    forall h ensures Finds(name, 0, h) <==> h == g {
      SearchIsLeftmost(name, 0, h);
    }
  }

  lemma TwoDotZeroIsVersion()
    ensures Version("2.0")
  {
    var v := "2.0";
    assert v[1] == '.' && AllDigits(v[..1]) && AllDigits(v[2..]);
  }

  lemma Regroup(t: string, e: string, d: string, f: string)
    ensures "raw/xero" + "/" + t + "/" + "2.0" + "/" + e + "/" + d + "/" + f
            == "raw/xero/" + (t + ['/'] + ("2.0/" + (e + ['/'] + (d + ['/'] + f))))
  {
    var dated := d + ['/'] + f;
    assert e + "/" + d + "/" + f == e + ['/'] + dated;
    assert "2.0" + "/" + (e + ['/'] + dated) == "2.0/" + (e + ['/'] + dated);
    assert "raw/xero" + "/" == "raw/xero/";
  }

  lemma PrintedKeyHasSegments(tenant: string, endpoint: string, date: Day, file: string)
    requires tenant != "" && Without(tenant, '/') && endpoint != "" && file != "" && Without(file, '/')
    ensures Segments(KeyOfFile("raw/xero", tenant, endpoint, date, file), tenant, Sanitize(endpoint), DateText(date),
        file)
  {
    var e, d := Sanitize(endpoint), DateText(date);
    SanitizeIsSnakeCase(endpoint);
    DateTextHasNoSlash(date);
    Regroup(tenant, e, d, file);
  }

  /** Names the uploader prints under `raw/xero`, with their sidecars, have the seven segments. */
  lemma PrintedKeysHaveSegments(tenant: string, endpoint: string, date: Day, file: string)
    requires tenant != "" && Without(tenant, '/') && endpoint != "" && file != "" && Without(file, '/')
    ensures var key := KeyOfFile("raw/xero", tenant, endpoint, date, file);
      && Segments(key, tenant, Sanitize(endpoint), DateText(date), file)
      && Segments(SidecarKey(key), tenant, Sanitize(endpoint), DateText(date), file + ".meta.json")
  {
    PrintedKeyHasSegments(tenant, endpoint, date, file);
    PrintedKeyHasSegments(tenant, endpoint, date, file + ".meta.json");
    assert SidecarKey(KeyOfFile("raw/xero", tenant, endpoint, date, file))
        == KeyOfFile("raw/xero", tenant, endpoint, date, file + ".meta.json");
  }

  // ---- listings ----------------------------------------------------------------------

  /** A name in the bucket under `raw/xero/`, with its segments. */
  datatype Item = Item(name: string, tenant: string, endpoint: string, date: string, file: string)

  ghost predicate Printed(bucket: seq<Item>) {
    forall i :: 0 <= i < |bucket| ==>
      Segments(bucket[i].name, bucket[i].tenant, bucket[i].endpoint, bucket[i].date, bucket[i].file)
  }

  predicate HasSuffix(s: string, suffix: string) {
    |suffix| <= |s| && s[|s| - |suffix|..] == suffix
  }

  /** No date is asked for, or this one; an empty text asks for none. */
  predicate OfDate(d: string, date: Option<string>) {
    date.Some? && date.value != "" ==> d == date.value
  }

  /** The filter of `iter_records` on a listed name. */
  predicate Wanted(name: string, endpoint: string, date: Option<string>) {
    && HasSuffix(name, ".meta.json")
    && Search(name, 0).Some?
    && Search(name, 0).value.endpoint == endpoint
    && OfDate(Search(name, 0).value.date, date)
  }

  /** The positions of the names listed under a prefix that pass the filter. */
  ghost predicate Selects(at: seq<nat>, names: seq<string>, n: nat, prefix: string, endpoint: string,
                          date: Option<string>)
    requires n <= |names|
  {
    && (forall k, l :: 0 <= k < l < |at| ==> at[k] < at[l])
    && forall i: nat :: i in at <==> i < n && prefix <= names[i] && Wanted(names[i], endpoint, date)
  }

  /** The names read at these positions. */
  ghost predicate ReadAt(metaPaths: seq<string>, at: seq<nat>, names: seq<string>) {
    |metaPaths| == |at| && forall k :: 0 <= k < |at| ==> at[k] < |names| && metaPaths[k] == names[at[k]]
  }

  /** The names listed under a prefix that pass the filter: one for each position where one stands, in listing order. */
  method Listing(names: seq<string>, prefix: string, endpoint: string, date: Option<string>)
    returns (metaPaths: seq<string>)
    ensures exists at :: Selects(at, names, |names|, prefix, endpoint, date) && ReadAt(metaPaths, at, names)
    ensures forall name :: name in metaPaths <==> name in names && prefix <= name && Wanted(name, endpoint, date)
  {
    metaPaths := [];
    ghost var at: seq<nat> := [];
    for i := 0 to |names|
      invariant Selects(at, names, i, prefix, endpoint, date)
      invariant ReadAt(metaPaths, at, names)
    {
      if prefix <= names[i] && Wanted(names[i], endpoint, date) {
        metaPaths, at := metaPaths + [names[i]], at + [i];
      }
    }
    forall name ensures name in metaPaths <==> name in names && prefix <= name && Wanted(name, endpoint, date) {
      SelectedName(metaPaths, at, names, prefix, endpoint, date, name);
    }
  }

  lemma SelectedName(metaPaths: seq<string>, at: seq<nat>, names: seq<string>, prefix: string, endpoint: string,
                     date: Option<string>, name: string)
    requires Selects(at, names, |names|, prefix, endpoint, date) && ReadAt(metaPaths, at, names)
    ensures name in metaPaths <==> name in names && prefix <= name && Wanted(name, endpoint, date)
  {
    if name in metaPaths {
      var k: nat :| k < |metaPaths| && metaPaths[k] == name;
      assert at[k] in at;
    }
    if name in names && prefix <= name && Wanted(name, endpoint, date) {
      var i: nat :| i < |names| && names[i] == name;
      assert i in at;
      var k :| 0 <= k < |at| && at[k] == i;
      assert metaPaths[k] == name;
    }
  }

  /** The tightest prefix: of a tenant's endpoint, and of the date if one is given. */
  function TenantPrefix(tenant: string, endpoint: string, date: Option<string>): string {
    "raw/xero/" + tenant + "/2.0/" + endpoint + "/"
      + if date.Some? && date.value != "" then date.value + "/" else ""
  }

  /** Among the first `n` names, one with more than four segments has this text at this place. */
  ghost predicate SegmentSeen(names: seq<string>, n: nat, segment: nat, text: string)
    requires n <= |names| && segment <= 4
  {
    exists i :: 0 <= i < n && |Split(names[i], '/')| > 4 && Split(names[i], '/')[segment] == text
  }

  /** `_scan_bucket`: the tenants and endpoints seen in names with more than four segments. */
  method ScanBucket(names: seq<string>) returns (endpoints: set<string>, tenants: set<string>)
    ensures forall t :: t in tenants <==> SegmentSeen(names, |names|, 2, t)
    ensures forall e :: e in endpoints <==> SegmentSeen(names, |names|, 4, e)
  {
    endpoints, tenants := {}, {};
    for n := 0 to |names|
      invariant forall t :: t in tenants <==> SegmentSeen(names, n, 2, t)
      invariant forall e :: e in endpoints <==> SegmentSeen(names, n, 4, e)
    {
      var parts := Split(names[n], '/');
      if |parts| > 4 {
        tenants := tenants + {parts[2]};
        endpoints := endpoints + {parts[4]};
      }
    }
  }

  lemma PrefixFirst(a: string, x: string, b: string, y: string, c: char)
    requires Without(a, c) && Without(b, c)
    ensures a + [c] + x <= b + [c] + y <==> a == b && x <= y
  {
    var s, t := a + [c] + x, b + [c] + y;
    assert a == b && x <= y ==> t == s + y[|x|..];
    if s <= t {
      var rest := t[|s|..];
      assert t == a + [c] + (x + rest);
      SplitFirst(a, x + rest, b, y, c);
    }
  }

  lemma PrefixAfter(p: string, x: string, y: string)
    ensures p + x <= p + y <==> x <= y
  {
    if p + x <= p + y {
      assert x == (p + x)[|p|..] && y == (p + y)[|p|..];
    }
  }

  lemma PrefixOfOne(segment: string, s: string, rest: string)
    requires Without(segment, '/') && Without(s, '/')
    ensures segment + ['/'] <= s + ['/'] + rest <==> segment == s
  {
    PrefixFirst(segment, "", s, rest, '/');
    assert segment + ['/'] + "" == segment + ['/'];
  }

  /** The part of the prefix after the version. */
  function EndpointPrefix(endpoint: string, date: Option<string>): string {
    endpoint + ['/'] + if date.Some? && date.value != "" then date.value + ['/'] else ""
  }

  lemma PrefixOfEndpoint(endpoint: string, date: Option<string>, e: string, d: string, file: string)
    requires Without(endpoint, '/') && Without(e, '/') && Without(d, '/') && (date.Some? ==> Without(date.value, '/'))
    ensures EndpointPrefix(endpoint, date) <= e + ['/'] + (d + ['/'] + file) <==> endpoint == e && OfDate(d, date)
  {
    if date.Some? && date.value != "" {
      PrefixFirst(endpoint, date.value + ['/'], e, d + ['/'] + file, '/');
      PrefixOfOne(date.value, d, file);
    } else {
      PrefixOfOne(endpoint, e, d + ['/'] + file);
      assert EndpointPrefix(endpoint, date) == endpoint + ['/'];
    }
  }

  lemma PrefixIsSegments(item: Item, tenant: string, endpoint: string, date: Option<string>)
    requires Segments(item.name, item.tenant, item.endpoint, item.date, item.file)
    requires Without(tenant, '/') && Without(endpoint, '/') && (date.Some? ==> Without(date.value, '/'))
    ensures TenantPrefix(tenant, endpoint, date) <= item.name
        <==> item.tenant == tenant && item.endpoint == endpoint && OfDate(item.date, date)
  {
    var x, y := EndpointPrefix(endpoint, date), item.endpoint + ['/'] + (item.date + ['/'] + item.file);
    PrefixOfEndpoint(endpoint, date, item.endpoint, item.date, item.file);
    PrefixAfter("2.0/", x, y);
    PrefixFirst(tenant, "2.0/" + x, item.tenant, "2.0/" + y, '/');
    PrefixAfter("raw/xero/", tenant + ['/'] + ("2.0/" + x), item.tenant + ['/'] + ("2.0/" + y));
    TenantPrefixIs(tenant, endpoint, date);
  }

  lemma TenantPrefixIs(tenant: string, endpoint: string, date: Option<string>)
    ensures TenantPrefix(tenant, endpoint, date)
        == "raw/xero/" + (tenant + ['/'] + ("2.0/" + EndpointPrefix(endpoint, date)))
  {
  }

  /**
   * A name is under the tight prefix of its own tenant, endpoint and date only, and the pattern reads that endpoint and
   * date off it.
   */
  lemma OwnPrefixOnly(item: Item, tenant: string, endpoint: string, date: Option<string>)
    requires Segments(item.name, item.tenant, item.endpoint, item.date, item.file)
    requires Without(tenant, '/') && Without(endpoint, '/') && (date.Some? ==> Without(date.value, '/'))
    ensures "raw/xero/" <= item.name
    ensures Search(item.name, 0).Some? && Search(item.name, 0).value.endpoint == item.endpoint
    ensures Search(item.name, 0).value.date == item.date
    ensures TenantPrefix(tenant, endpoint, date) <= item.name
        <==> item.tenant == tenant && item.endpoint == endpoint && OfDate(item.date, date)
  {
    PrefixIsSegments(item, tenant, endpoint, date);
    PatternRecoversSegments(item.name, item.tenant, item.endpoint, item.date, item.file);
  }

  /** A printed name ends like a sidecar exactly when its file does. */
  lemma SuffixOfFile(item: Item)
    requires Segments(item.name, item.tenant, item.endpoint, item.date, item.file)
    ensures HasSuffix(item.name, ".meta.json") <==> HasSuffix(item.file, ".meta.json")
  {
    var head := "raw/xero/" + (item.tenant + ['/'] + ("2.0/" + (item.endpoint + ['/'] + (item.date + ['/']))));
    assert item.name == head + item.file && head[|head| - 1] == '/';
    SuffixAfterSlash(head, item.file, ".meta.json");
  }

  lemma SuffixAfterSlash(head: string, file: string, suffix: string)
    requires head != [] && head[|head| - 1] == '/' && Without(suffix, '/')
    ensures HasSuffix(head + file, suffix) <==> HasSuffix(file, suffix)
  {
    var s := head + file;
    if |suffix| <= |file| {
      assert s[|s| - |suffix|..] == file[|file| - |suffix|..];
    } else if |suffix| <= |s| {
      assert s[|s| - |suffix|..][|suffix| - |file| - 1] == s[|head| - 1] == '/';
    }
  }

  /**
   * What the tight listing of a tenant's endpoint finds among printed names: the sidecars of that tenant and endpoint
   * and, if a date is given, of that date.
   */
  lemma ListingFindsSidecars(item: Item, tenant: string, endpoint: string, date: Option<string>)
    requires Segments(item.name, item.tenant, item.endpoint, item.date, item.file)
    requires Without(tenant, '/') && Without(endpoint, '/') && (date.Some? ==> Without(date.value, '/'))
    ensures TenantPrefix(tenant, endpoint, date) <= item.name && Wanted(item.name, endpoint, date)
        <==> && item.tenant == tenant && item.endpoint == endpoint
             && (date.Some? && date.value != "" ==> item.date == date.value)
             && |item.file| >= 10 && item.file[|item.file| - 10..] == ".meta.json"
  {
    OwnPrefixOnly(item, tenant, endpoint, date);
    SuffixOfFile(item);
    assert |".meta.json"| == 10;
  }

  /** What the vendor-wide listing finds: the sidecars of the endpoint and, if one is given, of the date. */
  lemma ScanFindsSidecars(item: Item, endpoint: string, date: Option<string>)
    requires Segments(item.name, item.tenant, item.endpoint, item.date, item.file)
    ensures "raw/xero/" <= item.name && Wanted(item.name, endpoint, date)
        <==> && item.endpoint == endpoint && (date.Some? && date.value != "" ==> item.date == date.value)
             && |item.file| >= 10 && item.file[|item.file| - 10..] == ".meta.json"
  {
    PatternRecoversSegments(item.name, item.tenant, item.endpoint, item.date, item.file);
    SuffixOfFile(item);
    assert |".meta.json"| == 10;
  }

  function NamesOf(bucket: seq<Item>): (names: seq<string>)
    ensures |names| == |bucket|
  {
    seq(|bucket|, i requires 0 <= i < |bucket| => bucket[i].name)
  }

  /** The names `Listing` returns. */
  function Listed(names: seq<string>, prefix: string, endpoint: string, date: Option<string>): set<string> {
    set name | name in names && prefix <= name && Wanted(name, endpoint, date)
  }

  lemma TenantIsScanned(bucket: seq<Item>, tenants: set<string>, i: nat)
    requires Printed(bucket) && i < |bucket|
    requires forall t :: t in tenants <==> SegmentSeen(NamesOf(bucket), |bucket|, 2, t)
    ensures bucket[i].tenant in tenants
  {
    var item := bucket[i];
    PatternRecoversSegments(item.name, item.tenant, item.endpoint, item.date, item.file);
    assert NamesOf(bucket)[i] == item.name;
  }

  /**
   * Fast listing: over a bucket of printed names the tight per-tenant listings of the scanned tenants together find
   * exactly what the vendor-wide scan filtered by endpoint finds, and no name is found under two tenants.
   */
  lemma FastListingIsTheScan(bucket: seq<Item>, tenants: set<string>, endpoint: string, date: Option<string>)
    requires Printed(bucket) && Without(endpoint, '/') && (date.Some? ==> Without(date.value, '/'))
    requires forall t :: t in tenants ==> Without(t, '/')
    requires forall t :: t in tenants <==> SegmentSeen(NamesOf(bucket), |bucket|, 2, t)
    ensures var names := NamesOf(bucket);
      forall name :: name in Listed(names, "raw/xero/", endpoint, date)
        <==> exists t :: t in tenants && name in Listed(names, TenantPrefix(t, endpoint, date), endpoint, date)
    ensures var names := NamesOf(bucket);
      forall t, u :: t in tenants && u in tenants && t != u ==>
        Listed(names, TenantPrefix(t, endpoint, date), endpoint, date)
          !! Listed(names, TenantPrefix(u, endpoint, date), endpoint, date)
  {
    var names := NamesOf(bucket);
    forall name | name in Listed(names, "raw/xero/", endpoint, date)
      ensures exists t :: t in tenants && name in Listed(names, TenantPrefix(t, endpoint, date), endpoint, date)
    {
      var i :| 0 <= i < |names| && names[i] == name;
      OwnPrefixOnly(bucket[i], bucket[i].tenant, endpoint, date);
      TenantIsScanned(bucket, tenants, i);
      assert name in Listed(names, TenantPrefix(bucket[i].tenant, endpoint, date), endpoint, date);
    }
    forall t, name | t in tenants && name in Listed(names, TenantPrefix(t, endpoint, date), endpoint, date)
      ensures name in Listed(names, "raw/xero/", endpoint, date)
    {
      var i :| 0 <= i < |names| && names[i] == name;
      OwnPrefixOnly(bucket[i], t, endpoint, date);
    }
    forall t, u, name | t in tenants && u in tenants
        && name in Listed(names, TenantPrefix(t, endpoint, date), endpoint, date)
        && name in Listed(names, TenantPrefix(u, endpoint, date), endpoint, date)
      ensures t == u
    {
      var i :| 0 <= i < |names| && names[i] == name;
      OwnPrefixOnly(bucket[i], t, endpoint, date);
      OwnPrefixOnly(bucket[i], u, endpoint, date);
    }
  }
}
