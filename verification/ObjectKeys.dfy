/** `key.rs`, `meta.rs` and `manifest.rs`: the object names the uploader writes under. */
module ObjectKeys {
  import opened Text
  import opened Dates

  const API_VERSION := "2.0"

  function Lower(c: char): char {
    if 'A' <= c <= 'Z' then (c as int + 32) as char else c
  }

  predicate Alphanumeric(c: char) {
    '0' <= c <= '9' || 'a' <= c <= 'z' || 'A' <= c <= 'Z'
  }

  function SanitizeChar(c: char): char {
    if Alphanumeric(c) then Lower(c) else '_'
  }

  function Sanitize(s: string): (r: string)
    ensures |r| == |s| && forall i :: 0 <= i < |s| ==> r[i] == SanitizeChar(s[i])
  {
    if s == [] then [] else [SanitizeChar(s[0])] + Sanitize(s[1..])
  }

  predicate SnakeCase(s: string) {
    forall i :: 0 <= i < |s| ==> '0' <= s[i] <= '9' || 'a' <= s[i] <= 'z' || s[i] == '_'
  }

  /** The output is always snake case, so never has a '/'; snake-case names, and only those, pass through unchanged. */
  lemma SanitizeIsSnakeCase(s: string)
    ensures SnakeCase(Sanitize(s)) && Without(Sanitize(s), '/')
    ensures Sanitize(s) == s <==> SnakeCase(s)
  {
  }

  lemma SanitizedChar(c: char)
    ensures if 'A' <= c <= 'Z' then SanitizeChar(c) as int == c as int + 32
            else if '0' <= c <= '9' || 'a' <= c <= 'z' then SanitizeChar(c) == c
            else SanitizeChar(c) == '_'
  {
  }

  /** Character by character: capital letters become small, and what is no ASCII letter or digit an underscore. */
  lemma {:induction false} SanitizeReplaces(s: string, i: nat)
    requires i < |s|
    ensures var c, d := s[i], Sanitize(s)[i];
      if 'A' <= c <= 'Z' then d as int == c as int + 32
      else if '0' <= c <= '9' || 'a' <= c <= 'z' then d == c
      else d == '_'
  {
    SanitizedChar(s[i]);
  }

  /** chrono's `%Y`: four digits, with a sign outside 0..9999. */
  function YearText(y: int): string {
    if 0 <= y <= 9999 then PadMin(y, 4) else if y > 0 then "+" + PadMin(y, 4) else "-" + PadMin(-y, 4)
  }

  /** `%Y-%m-%d`. */
  function DateText(d: Day): string {
    YearText(d.year) + ("-" + Pad(d.month, 2) + "-" + Pad(d.day, 2))
  }

  lemma YearTextIdentifies(y: int, z: int)
    requires YearText(y) == YearText(z)
    ensures y == z
  {
    PadMinValue(if y < 0 then -y else y, 4);
    PadMinValue(if z < 0 then -z else z, 4);
    var a, b := PadMin(if y < 0 then -y else y, 4), PadMin(if z < 0 then -z else z, 4);
    assert a[0] in a && b[0] in b;
    assert ("+" + a)[1..] == a && ("+" + b)[1..] == b && ("-" + a)[1..] == a && ("-" + b)[1..] == b;
    assert ("+" + a)[0] == '+' && ("+" + b)[0] == '+' && ("-" + a)[0] == '-' && ("-" + b)[0] == '-';
  }

  lemma TwoDigits(a: nat, b: nat)
    requires a < 100 && b < 100 && Pad(a, 2) == Pad(b, 2)
    ensures a == b
  {
    assert Pow10(2) == 100;
    PadValue(a, 2);
    PadValue(b, 2);
  }

  lemma DateTextIdentifies(a: Day, b: Day)
    ensures DateText(a) == DateText(b) <==> a == b
  {
    if DateText(a) == DateText(b) {
      var am, ad, bm, bd := Pad(a.month, 2), Pad(a.day, 2), Pad(b.month, 2), Pad(b.day, 2);
      CutSuffix(YearText(a.year), "-" + am + "-" + ad, YearText(b.year), "-" + bm + "-" + bd);
      CutSuffix("-" + am + "-", ad, "-" + bm + "-", bd);
      assert ("-" + am + "-")[1..3] == am && ("-" + bm + "-")[1..3] == bm;
      YearTextIdentifies(a.year, b.year);
      TwoDigits(a.month, b.month);
      TwoDigits(a.day, b.day);
    }
  }

  /** `digits` is the number in decimal, on at least `width` places. */
  ghost predicate Reads(digits: string, n: nat, width: nat) {
    AllDigits(digits) && DecimalValue(digits) == n && |digits| >= width
  }

  /**
   * The printed date read back from its end: two digits of day, two of month, and before them the year on four digits,
   * with a sign if four digits are not enough.
   */
  lemma DateTextReads(d: Day)
    ensures var t := DateText(d);
      var n := |t|;
      && n >= 10 && t[n - 6] == '-' && t[n - 3] == '-'
      && Reads(t[n - 2..], d.day, 2) && Reads(t[n - 5..n - 3], d.month, 2)
      && if 0 <= d.year <= 9999 then n == 10 && Reads(t[..4], d.year, 4)
         else t[0] == (if d.year > 0 then '+' else '-') && Reads(t[1..n - 6], if d.year > 0 then d.year else -d.year, 4)
  {
    YearTextReads(d.year);
    assert Pow10(2) == 100;
    PadValue(d.month, 2);
    PadValue(d.day, 2);
    DateParts(YearText(d.year), Pad(d.month, 2), Pad(d.day, 2));
  }

  lemma DateParts(y: string, m: string, day: string)
    requires |y| > 0 && |m| == 2 && |day| == 2
    ensures var t := y + ("-" + m + "-" + day);
      var n := |t|;
      && n == |y| + 6 && t[n - 6] == '-' && t[n - 3] == '-'
      && t[n - 2..] == day && t[n - 5..n - 3] == m && t[..n - 6] == y && t[1..n - 6] == y[1..] && t[0] == y[0]
  {
    var t, rest := y + ("-" + m + "-" + day), "-" + m + "-" + day;
    assert rest[0] == '-' && rest[3] == '-' && rest[1..3] == m && rest[4..] == day;
    assert t[..|y|] == y && t[|y|..] == rest;
    assert t[1..|y|] == t[..|y|][1..];
    assert t[|y| + 1..|y| + 3] == rest[1..3] && t[|y| + 4..] == rest[4..];
  }

  lemma YearTextReads(y: int)
    ensures var t := YearText(y);
      if 0 <= y <= 9999 then |t| == 4 && Reads(t, y, 4)
      else |t| > 4 && t[0] == (if y > 0 then '+' else '-') && Reads(t[1..], if y > 0 then y else -y, 4)
  {
    var digits := PadMin(if y < 0 then -y else y, 4);
    PadMinValue(if y < 0 then -y else y, 4);
    assert ("+" + digits)[1..] == digits && ("-" + digits)[1..] == digits;
    if 0 <= y <= 9999 {
      FourDigits(y);
    }
  }

  lemma FourDigits(y: nat)
    requires y <= 9999
    ensures |PadMin(y, 4)| == 4
  {
    assert |PadMin(y / 10 / 10 / 10, 1)| == 1;
    assert |PadMin(y / 10 / 10, 2)| == 2;
    assert |PadMin(y / 10, 3)| == 3;
  }

  lemma DateTextHasNoSlash(d: Day)
    ensures Without(DateText(d), '/') && DateText(d) != []
  {
    var y := PadMin(if d.year < 0 then -d.year else d.year, 4);
    DigitsWithout(y, '/');
    DigitsWithout(Pad(d.month, 2), '/');
    DigitsWithout(Pad(d.day, 2), '/');
  }

  // ---- object keys -------------------------------------------------------------------

  function PageFile(ts: string, runIdShort: string, page: nat): string {
    ts + "_" + Sanitize(runIdShort) + "_p" + PadMin(page, 3) + ".json"
  }

  function ReportFile(ts: string, runIdShort: string, periodKey: string): string {
    ts + "_" + Sanitize(runIdShort) + "__" + Sanitize(periodKey) + ".json"
  }

  /**
   * A page's file name read back: the timestamp, the run id with everything but letters and digits replaced, the page
   * number on three digits or more, and the extension, set apart by '_', '_p' and '.'.
   */
  lemma PageFileReads(ts: string, runIdShort: string, page: nat)
    ensures var f, r := PageFile(ts, runIdShort, page), |ts| + 1 + |runIdShort|;
      && |f| >= r + 10 && f[..|ts|] == ts && f[|ts|] == '_' && f[|ts| + 1..r] == Sanitize(runIdShort)
      && f[r..r + 2] == "_p" && Reads(f[r + 2..|f| - 5], page, 3) && f[|f| - 5..] == ".json"
  {
    PadMinValue(page, 3);
    FileParts(ts, Sanitize(runIdShort), "_p", PadMin(page, 3));
  }

  lemma FileParts(ts: string, run: string, mark: string, last: string)
    ensures var f, r := ts + "_" + run + mark + last + ".json", |ts| + 1 + |run|;
      && f[..|ts|] == ts && f[|ts|] == '_' && f[|ts| + 1..r] == run && f[r..r + |mark|] == mark
      && f[r + |mark|..|f| - 5] == last && f[|f| - 5..] == ".json"
  {
  }

  /** A report snapshot's file name read back: its period, sanitized as the run id is, in place of a page number. */
  lemma ReportFileReads(ts: string, runIdShort: string, periodKey: string)
    ensures var f, r := ReportFile(ts, runIdShort, periodKey), |ts| + 1 + |runIdShort|;
      && |f| == r + 2 + |periodKey| + 5 && f[..|ts|] == ts && f[|ts|] == '_' && f[|ts| + 1..r] == Sanitize(runIdShort)
      && f[r..r + 2] == "__" && f[r + 2..|f| - 5] == Sanitize(periodKey) && f[|f| - 5..] == ".json"
  {
    FileParts(ts, Sanitize(runIdShort), "__", Sanitize(periodKey));
  }

  /** The common layout: `{prefix}/{tenant}/2.0/{endpoint}/{date}/{file}`. */
  function KeyOfFile(prefix: string, tenant: string, endpoint: string, date: Day, file: string): string {
    prefix + "/" + tenant + "/" + API_VERSION + "/" + Sanitize(endpoint) + "/" + DateText(date) + "/" + file
  }

  function ObjectKey(prefix: string, tenant: string, endpoint: string, date: Day, ts: string, runIdShort: string,
                     page: nat): string {
    KeyOfFile(prefix, tenant, endpoint, date, PageFile(ts, runIdShort, page))
  }

  function ReportObjectKey(prefix: string, tenant: string, endpoint: string, date: Day, ts: string,
                           runIdShort: string, periodKey: string): string {
    KeyOfFile(prefix, tenant, endpoint, date, ReportFile(ts, runIdShort, periodKey))
  }

  function SidecarKey(key: string): string {
    key + ".meta.json"
  }

  function ManifestKey(date: Day, runId: string): string {
    "_manifests/xero/" + DateText(date) + "/" + runId + ".json"
  }

  /** A manifest is found under its date and its run. */
  lemma ManifestKeyReads(date: Day, runId: string)
    requires Without(runId, '/')
    ensures Split(ManifestKey(date, runId), '/') == ["_manifests", "xero", DateText(date), runId + ".json"]
  {
    var d, f := DateText(date), runId + ".json";
    DateTextHasNoSlash(date);
    ManifestRegroup(d, runId);
    SplitHead(d, f, '/');
    SplitWhole(f, '/');
    SplitTwo("_manifests", "xero", d + ['/'] + f);
  }

  lemma ManifestRegroup(d: string, runId: string)
    ensures "_manifests/xero/" + d + "/" + runId + ".json"
        == "_manifests" + ['/'] + ("xero" + ['/'] + (d + ['/'] + (runId + ".json")))
  {
    assert "_manifests/xero/" == "_manifests" + ['/'] + "xero" + ['/'];
  }

  lemma SplitTwo(a: string, b: string, rest: string)
    requires Without(a, '/') && Without(b, '/')
    ensures Split(a + ['/'] + (b + ['/'] + rest), '/') == [a, b] + Split(rest, '/')
  {
    SplitHead(a, b + ['/'] + rest, '/');
    SplitHead(b, rest, '/');
  }

  /** Python's `removesuffix`. */
  function RemoveSuffix(s: string, suffix: string): string {
    if |suffix| <= |s| && s[|s| - |suffix|..] == suffix then s[..|s| - |suffix|] else s
  }

  lemma RemoveSuffixInvertsSidecar(key: string)
    ensures RemoveSuffix(SidecarKey(key), ".meta.json") == key
  {
    assert SidecarKey(key)[|key|..] == ".meta.json" && SidecarKey(key)[..|key|] == key;
  }

  // ---- injectivity -------------------------------------------------------------------

  /** The last two segments of a name, read from the right. */
  lemma LastTwoSegments(x: string, d: string, f: string, x': string, d': string, f': string)
    requires Without(d, '/') && Without(f, '/') && Without(d', '/') && Without(f', '/')
    requires x + "/" + d + "/" + f == x' + "/" + d' + "/" + f'
    ensures x == x' && d == d' && f == f'
  {
    SplitLast(x + "/" + d, f, x' + "/" + d', f', '/');
    SplitLast(x, d, x', d', '/');
  }

  lemma SegmentsDetermined(prefix: string, t: string, v: string, e: string, d: string, f: string,
                           t': string, e': string, d': string, f': string)
    requires Without(v, '/') && Without(e, '/') && Without(d, '/') && Without(f, '/')
    requires Without(e', '/') && Without(d', '/') && Without(f', '/')
    requires prefix + "/" + t + "/" + v + "/" + e + "/" + d + "/" + f
             == prefix + "/" + t' + "/" + v + "/" + e' + "/" + d' + "/" + f'
    ensures t == t' && e == e' && d == d' && f == f'
  {
    var a0, b0 := prefix + "/" + t, prefix + "/" + t';
    LastTwoSegments(a0 + "/" + v + "/" + e, d, f, b0 + "/" + v + "/" + e', d', f');
    LastTwoSegments(a0, v, e, b0, v, e');
    assert a0[|prefix| + 1..] == t && b0[|prefix| + 1..] == t';
  }

  lemma KeyPartsHaveNoSlash(e: string, d: Day)
    ensures Without(Sanitize(e), '/') && Without(DateText(d), '/')
  {
    DateTextHasNoSlash(d);
    SanitizeIsSnakeCase(e);
  }

  /** A key determines everything but the prefix-tenant boundary: read from the right, segments have no '/'. */
  lemma KeyDetermines(prefix: string, t: string, e: string, d: Day, f: string, t': string, e': string, d': Day,
                      f': string)
    requires Without(f, '/') && Without(f', '/')
    requires KeyOfFile(prefix, t, e, d, f) == KeyOfFile(prefix, t', e', d', f')
    ensures t == t' && Sanitize(e) == Sanitize(e') && d == d' && f == f'
  {
    KeyPartsHaveNoSlash(e, d);
    KeyPartsHaveNoSlash(e', d');
    SegmentsDetermined(prefix, t, API_VERSION, Sanitize(e), DateText(d), f, t', Sanitize(e'), DateText(d'), f');
    DateTextIdentifies(d, d');
  }

  lemma PageFileDetermines(ts: string, run: string, p: nat, ts': string, run': string, p': nat)
    requires PageFile(ts, run, p) == PageFile(ts', run', p')
    ensures p == p'
  {
    var a, b := ts + "_" + Sanitize(run) + "_", ts' + "_" + Sanitize(run') + "_";
    assert PageFile(ts, run, p) == (a + ['p'] + PadMin(p, 3)) + ".json";
    assert PageFile(ts', run', p') == (b + ['p'] + PadMin(p', 3)) + ".json";
    CutSuffix(a + ['p'] + PadMin(p, 3), ".json", b + ['p'] + PadMin(p', 3), ".json");
    DigitsWithout(PadMin(p, 3), 'p');
    DigitsWithout(PadMin(p', 3), 'p');
    SplitLast(a, PadMin(p, 3), b, PadMin(p', 3), 'p');
    PadMinValue(p, 3);
    PadMinValue(p', 3);
  }

  lemma PageFileHasNoSlash(ts: string, run: string, page: nat)
    requires Without(ts, '/')
    ensures Without(PageFile(ts, run, page), '/')
  {
    SanitizeIsSnakeCase(run);
    DigitsWithout(PadMin(page, 3), '/');
  }

  /**
   * The printed key is injective in (tenant, endpoint, date, page), whatever the timestamps and run ids, as long as
   * timestamps have no '/' and endpoint names are snake case. Tenants may contain anything.
   */
  lemma ObjectKeyIdentifies(prefix: string, t: string, e: string, d: Day, ts: string, run: string, p: nat,
                            t': string, e': string, d': Day, ts': string, run': string, p': nat)
    requires Without(ts, '/') && Without(ts', '/') && SnakeCase(e) && SnakeCase(e')
    requires ObjectKey(prefix, t, e, d, ts, run, p) == ObjectKey(prefix, t', e', d', ts', run', p')
    ensures t == t' && e == e' && d == d' && p == p'
  {
    PageFileHasNoSlash(ts, run, p);
    PageFileHasNoSlash(ts', run', p');
    KeyDetermines(prefix, t, e, d, PageFile(ts, run, p), t', e', d', PageFile(ts', run', p'));
    SanitizeIsSnakeCase(e);
    SanitizeIsSnakeCase(e');
    PageFileDetermines(ts, run, p, ts', run', p');
  }

  // ---- three kinds of objects ----------------------------------------------------------

  function TrimSlashes(s: string): string {
    if s != [] && s[0] == '/' then TrimSlashes(s[1..]) else s
  }

  /** `GCS_PREFIX` as configuration accepts it. */
  predicate AcceptedPrefix(prefix: string) {
    !("_manifests" <= TrimSlashes(prefix))
  }

  predicate SlashesUpTo(s: string, n: int) {
    0 <= n <= |s| && forall i :: 0 <= i < n ==> s[i] == '/'
  }

  /** Configuration refuses exactly the prefixes that begin, after any number of slashes, with the manifests' root. */
  lemma {:induction false} RefusedPrefixes(prefix: string)
    ensures AcceptedPrefix(prefix) <==> forall n :: SlashesUpTo(prefix, n) ==> !("_manifests" <= prefix[n..])
  {
    assert SlashesUpTo(prefix, 0) && prefix[0..] == prefix;
    if prefix != [] && prefix[0] == '/' {
      var rest := prefix[1..];
      RefusedPrefixes(rest);
      forall n | SlashesUpTo(rest, n) ensures SlashesUpTo(prefix, n + 1) && prefix[n + 1..] == rest[n..] {
      }
      forall n | SlashesUpTo(prefix, n) && n > 0 ensures SlashesUpTo(rest, n - 1) && prefix[n..] == rest[n - 1..] {
        forall i | 0 <= i < n - 1 ensures rest[i] == '/' {
          assert prefix[i + 1] == '/';
        }
      }
    }
  }

  lemma DataIsNotManifest(prefix: string, rest: string, date: Day, runId: string)
    requires AcceptedPrefix(prefix)
    ensures prefix + "/" + rest != ManifestKey(date, runId)
  {
    var root := "_manifests";
    var key, manifest := prefix + "/" + rest, ManifestKey(date, runId);
    assert manifest[..10] == root;
    assert |prefix| >= 10 ==> key[..10] == prefix[..10];
    assert |prefix| < 10 ==> key[|prefix|] == '/' && root[|prefix|] != '/' && manifest[|prefix|] == root[|prefix|];
  }

  /** A key with a page or a period never ends like a sidecar. */
  lemma DataIsNotSidecar(stem: string, last: char, key: string)
    requires last != 'a'
    ensures stem + [last] + ".json" != SidecarKey(key)
  {
    var a, b := stem + [last], key + ".met" + ['a'];
    assert SidecarKey(key) == b + ".json";
    if a + ".json" == b + ".json" {
      CutSuffix(a, ".json", b, ".json");
    }
    assert a[|a| - 1] != b[|b| - 1];
  }

  /**
   * Page objects, their sidecars and manifests are three disjoint sets of names, under every prefix configuration
   * accepts.
   */
  lemma KindsAreDisjoint(prefix: string, t: string, e: string, d: Day, ts: string, run: string, p: nat,
                         other: string, date: Day, runId: string)
    requires AcceptedPrefix(prefix)
    ensures ObjectKey(prefix, t, e, d, ts, run, p) != SidecarKey(other)
    ensures ObjectKey(prefix, t, e, d, ts, run, p) != ManifestKey(date, runId)
    ensures SidecarKey(ObjectKey(prefix, t, e, d, ts, run, p)) != ManifestKey(date, runId)
  {
    var key := ObjectKey(prefix, t, e, d, ts, run, p);
    var rest := key[|prefix| + 1..];
    assert key == prefix + "/" + rest;
    DataIsNotManifest(prefix, rest, date, runId);
    assert SidecarKey(key) == prefix + "/" + (rest + ".meta.json");
    DataIsNotManifest(prefix, rest + ".meta.json", date, runId);
    var digits := PadMin(p, 3);
    var n := |digits| - 1;
    assert digits[n] in digits;
    var stem := key[..|key| - 6];
    assert key == stem + [digits[n]] + ".json";
    DataIsNotSidecar(stem, digits[n], other);
  }

  /** A report snapshot's name never ends like a sidecar's either. */
  lemma ReportIsNotSidecar(stem: string, period: string, key: string)
    ensures stem + "__" + Sanitize(period) + ".json" != SidecarKey(key)
  {
    var san, meta := Sanitize(period), ".meta";
    var a, b := stem + "__" + san, key + meta;
    assert SidecarKey(key) == b + ".json";
    SanitizeIsSnakeCase(period);
    assert b[|b| - 5..] == meta;
    if |san| >= 5 {
      assert a[|a| - 5] == san[|san| - 5] != '.' == b[|b| - 5];
    } else {
      assert a[|a| - |san| - 1] == '_' != meta[4 - |san|];
      assert |b| >= |san| + 1 && b[|b| - |san| - 1] == b[|b| - 5..][4 - |san|];
    }
    if a + ".json" == b + ".json" {
      CutSuffix(a, ".json", b, ".json");
    }
  }

  lemma ReportKeyEnds(folder: string, ts: string, run: string, period: string, other: string)
    ensures folder + ReportFile(ts, run, period) != SidecarKey(other)
  {
    var stem := folder + (ts + "_" + Sanitize(run));
    assert folder + ReportFile(ts, run, period) == stem + "__" + Sanitize(period) + ".json";
    ReportIsNotSidecar(stem, period, other);
  }

  lemma ReportKindIsDisjoint(prefix: string, t: string, e: string, d: Day, ts: string, run: string, period: string,
                             other: string, date: Day, runId: string)
    requires AcceptedPrefix(prefix)
    ensures ReportObjectKey(prefix, t, e, d, ts, run, period) != SidecarKey(other)
    ensures ReportObjectKey(prefix, t, e, d, ts, run, period) != ManifestKey(date, runId)
  {
    var key := ReportObjectKey(prefix, t, e, d, ts, run, period);
    assert key == prefix + "/" + key[|prefix| + 1..];
    DataIsNotManifest(prefix, key[|prefix| + 1..], date, runId);
    ReportKeyEnds(prefix + "/" + t + "/" + API_VERSION + "/" + Sanitize(e) + "/" + DateText(d) + "/", ts, run, period,
      other);
  }
}
