/** `loader.py`: deduplication on a composite primary key before a NULL-safe MERGE. */
module Loader {
  import opened Text
  import opened LatestPerKey
  import opened KeyedMerge
  import opened Upsert

  /** A JSON value; a number is its text. */
  datatype Json =
    | JNull
    | JBool(b: bool)
    | JNumber(text: string)
    | JString(s: string)
    | JArray(items: seq<Json>)
    | JObject(fields: map<string, Json>)

  type Record = map<string, Json>

  // ---- primary keys --------------------------------------------------------------------

  /** The value a path of field names leads to; null as soon as it leads nowhere. */
  function ValueAt(v: Json, path: seq<string>): Json {
    if path == [] then v
    else if v.JObject? && path[0] in v.fields then ValueAt(v.fields[path[0]], path[1..])
    else JNull
  }

  lemma NullStaysNull(path: seq<string>)
    ensures ValueAt(JNull, path) == JNull
  {
  }

  /** A dotted primary-key path inside a record. */
  function Field(record: Record, pk: string): Json {
    ValueAt(JObject(record), Split(pk, '.'))
  }

  /** `_get_path`. */
  method GetPath(record: Record, pk: string) returns (v: Json)
    ensures v == Field(record, pk)
  {
    var path := Split(pk, '.');
    v := JObject(record);
    for i := 0 to |path|
      invariant ValueAt(v, path[i..]) == Field(record, pk)
    {
      assert path[i..][1..] == path[i + 1..];
      if !v.JObject? || path[i] !in v.fields {
        return JNull;
      }
      v := v.fields[path[i]];
      if v == JNull {
        NullStaysNull(path[i + 1..]);
        return JNull;
      }
    }
  }

  /** A path without a dot leads to the field; one with a dot leads on from the field before it, if it is an object. */
  lemma FieldDescends(record: Record, a: string, rest: string)
    requires Without(a, '.')
    ensures Field(record, a) == if a in record then record[a] else JNull
    ensures Field(record, a + ['.'] + rest)
        == if a in record && record[a].JObject? then Field(record[a].fields, rest) else JNull
  {
    SplitWhole(a, '.');
    SplitHead(a, rest, '.');
    var path := Split(rest, '.');
    assert [a][1..] == [] && ([a] + path)[1..] == path;
    if a in record {
      assert ValueAt(JObject(record), [a]) == ValueAt(record[a], []);
      assert ValueAt(JObject(record), [a] + path) == ValueAt(record[a], path);
      if record[a].JObject? {
        assert JObject(record[a].fields) == record[a];
      }
    }
  }

  const SEPARATOR := 0x1F as char

  /** What Python's `strip()` takes off, the separator included. */
  predicate Space(c: char) {
    var n := c as int;
    || 9 <= n <= 13 || 28 <= n <= 32 || n == 0x85 || n == 0xA0 || n == 0x1680 || 0x2000 <= n <= 0x200A
    || n == 0x2028 || n == 0x2029 || n == 0x202F || n == 0x205F || n == 0x3000
  }

  predicate Blank(s: string) {
    forall c :: c in s ==> Space(c)
  }

  /** `_stringify_pk_value`; `None` where it raises. `dump` is how other values are printed. */
  function Stringify(v: Json, dump: Json -> string): Option<string> {
    match v
    case JNull => None
    case JString(s) => if Blank(s) then None else Some(s)
    case _ => Some(dump(v))
  }

  /** Every key column's value as text. */
  function Texts(record: Record, pks: seq<string>, dump: Json -> string): (texts: seq<Option<string>>)
    ensures |texts| == |pks|
  {
    seq(|pks|, i requires 0 <= i < |pks| => Stringify(Field(record, pks[i]), dump))
  }

  /** All of the values, or nothing if one is missing. */
  function Gather(texts: seq<Option<string>>): (parts: Option<seq<string>>)
    ensures parts.Some? <==> None !in texts
    ensures parts.Some? ==> |parts.value| == |texts| && forall i :: 0 <= i < |texts| ==>
        texts[i] == Some(parts.value[i])
  {
    if None in texts then None
    else
      assert forall i :: 0 <= i < |texts| ==> texts[i] in texts && texts[i].Some?;
      Some(seq(|texts|, i requires 0 <= i < |texts| => texts[i].value))
  }

  /** The components of a record's key; `None` if one of them raises. */
  function Components(record: Record, pks: seq<string>, dump: Json -> string): Option<seq<string>> {
    Gather(Texts(record, pks, dump))
  }

  /** The components as one text. */
  function KeyText(parts: seq<string>): string {
    Join(parts, SEPARATOR)
  }

  function PkOf(pks: seq<string>, dump: Json -> string): Record -> Option<string> {
    (record: Record) =>
      var parts := Components(record, pks, dump);
      if parts.Some? then Some(KeyText(parts.value)) else None
  }

  /** `_record_pk`. */
  method RecordPk(record: Record, pks: seq<string>, dump: Json -> string) returns (key: Option<string>)
    ensures key == PkOf(pks, dump)(record)
  {
    var parts: seq<string> := [];
    for i := 0 to |pks|
      invariant |parts| == i
      invariant forall j :: 0 <= j < i ==> Stringify(Field(record, pks[j]), dump) == Some(parts[j])
    {
      var v := GetPath(record, pks[i]);
      var part := Stringify(v, dump);
      assert Texts(record, pks, dump)[i] == part;
      if part.None? {
        return None;
      }
      parts := parts + [part.value];
    }
    assert Components(record, pks, dump).value == parts;
    key := Some(KeyText(parts));
  }

  /** `_record_pk` refuses a record exactly when a key path leads to null, to nothing, or to a string of whitespace. */
  lemma KeyRefusedIffNullOrBlank(record: Record, pks: seq<string>, dump: Json -> string)
    ensures PkOf(pks, dump)(record).None?
        <==> exists i :: 0 <= i < |pks| && var v := Field(record, pks[i]);
          v.JNull? || (v.JString? && forall c :: c in v.s ==> Space(c))
  {
    var texts := Texts(record, pks, dump);
    if None in texts {
      var i :| 0 <= i < |texts| && texts[i] == None;
      assert Stringify(Field(record, pks[i]), dump) == None;
    }
    forall i | 0 <= i < |pks| && var v := Field(record, pks[i]); v.JNull? || (v.JString? && forall c :: c in v.s ==>
        Space(c))
      ensures None in texts
    {
      assert texts[i] == None;
    }
  }

  /** Otherwise the key joins, with the separator, strings as they are and other values as they are printed. */
  lemma KeyJoinsTexts(record: Record, pks: seq<string>, dump: Json -> string, parts: seq<string>)
    requires |parts| == |pks|
    requires forall i :: 0 <= i < |pks| ==> var v := Field(record, pks[i]);
      !v.JNull? && if v.JString? then v.s == parts[i] && !Blank(parts[i]) else dump(v) == parts[i]
    ensures PkOf(pks, dump)(record) == Some(Join(parts, 0x1F as char))
  {
    var texts := Texts(record, pks, dump);
    forall i | 0 <= i < |texts| ensures texts[i] == Some(parts[i]) {
    }
    assert Components(record, pks, dump).value == parts;
  }

  // ---- when the key tells records apart --------------------------------------------------

  /** Only the component at `free`, if any, may contain the separator. */
  predicate CleanBut(parts: seq<string>, free: int) {
    forall i :: 0 <= i < |parts| && i != free ==> Without(parts[i], SEPARATOR)
  }

  /** The text determines the components: read from the front up to the free one, and from the back down to it. */
  lemma {:induction false} JoinDetermines(a: seq<string>, b: seq<string>, free: int)
    requires |a| == |b| && CleanBut(a, free) && CleanBut(b, free) && KeyText(a) == KeyText(b)
    ensures a == b
    decreases |a|
  {
    var last := |a| - 1;
    if last > 0 && free != 0 {
      SplitFirst(a[0], KeyText(a[1..]), b[0], KeyText(b[1..]), SEPARATOR);
      JoinDetermines(a[1..], b[1..], free - 1);
      assert a == [a[0]] + a[1..] && b == [b[0]] + b[1..];
    } else if last > 0 {
      JoinAt(a, last, SEPARATOR);
      JoinAt(b, last, SEPARATOR);
      SplitLast(KeyText(a[..last]), a[last], KeyText(b[..last]), b[last], SEPARATOR);
      JoinDetermines(a[..last], b[..last], 0);
      assert a == a[..last] + [a[last]] && b == b[..last] + [b[last]];
    }
  }

  /** Components as `_stringify_pk_value` lets them through, the separator only at the positions in `free`. */
  predicate Admits(free: set<nat>, parts: seq<string>) {
    forall i :: 0 <= i < |parts| ==> !Blank(parts[i]) && (i in free || Without(parts[i], SEPARATOR))
  }

  /** `n` components "x", the one at `i` made of two. */
  function Doubled(n: nat, i: int): seq<string> {
    seq(n, k => if k == i then ['x', SEPARATOR, 'x'] else "x")
  }

  lemma FirstThenRest(parts: seq<string>, rest: seq<string>)
    requires |parts| > 1 && rest == parts[1..]
    ensures KeyText(parts) == parts[0] + [SEPARATOR] + KeyText(rest)
  {
  }

  lemma {:induction false} DoubledReadsAsOneMore(n: nat, i: nat)
    requires i < n
    ensures KeyText(Doubled(n, i)) == KeyText(Doubled(n + 1, -1))
  {
    FirstThenRest(Doubled(n + 1, -1), Doubled(n, -1));
    if i > 0 {
      FirstThenRest(Doubled(n, i), Doubled(n - 1, i - 1));
      DoubledReadsAsOneMore(n - 1, i - 1);
    } else if n > 1 {
      FirstThenRest(Doubled(n, 0), Doubled(n - 1, -1));
      FirstThenRest(Doubled(n, -1), Doubled(n - 1, -1));
    }
  }

  lemma DoubledIsAdmitted(n: nat, i: nat, free: set<nat>)
    requires i in free
    ensures Admits(free, Doubled(n, i))
  {
    assert !Space('x');
    forall k | 0 <= k < n ensures !Blank(Doubled(n, i)[k]) {
      assert Doubled(n, i)[k][0] == 'x';
    }
  }

  /** Two positions that may hold the separator: two keys of one length, different and printed alike. */
  lemma TwoFreePositionsCollide(n: nat, i: nat, j: nat, free: set<nat>)
    requires i < j < n && i in free && j in free
    ensures var a, b := Doubled(n, i), Doubled(n, j);
      Admits(free, a) && Admits(free, b) && |a| == |b| == n && a != b && KeyText(a) == KeyText(b)
  {
    DoubledIsAdmitted(n, i, free);
    DoubledIsAdmitted(n, j, free);
    DoubledReadsAsOneMore(n, i);
    DoubledReadsAsOneMore(n, j);
    assert Doubled(n, i)[j] != Doubled(n, j)[j];
  }

  /**
   * Keys of `n` components whose separators stand only at the positions in `free` are told apart by their text exactly
   * when at most one of the `n` positions is in `free`.
   */
  lemma KeyTextIdentifiesIffOneFree(n: nat, free: set<nat>)
    ensures (forall a, b :: |a| == |b| == n && Admits(free, a) && Admits(free, b) && KeyText(a) == KeyText(b) ==>
        a == b)
            <==> forall i, j :: i in free && j in free && i < n && j < n ==> i == j
  {
    if i, j :| i in free && j in free && i < j < n {
      TwoFreePositionsCollide(n, i, j, free);
    } else {
      var f: int := if i :| i in free && i < n then i else -1;
      forall a, b | |a| == |b| == n && Admits(free, a) && Admits(free, b) && KeyText(a) == KeyText(b) ensures a == b {
        JoinDetermines(a, b, f);
      }
    }
  }

  // ---- values and their texts --------------------------------------------------------------

  /** A value `_stringify_pk_value` does not refuse. */
  predicate Keyable(v: Json, dump: Json -> string) {
    Stringify(v, dump).Some?
  }

  function TextOf(v: Json, dump: Json -> string): string {
    if Keyable(v, dump) then Stringify(v, dump).value else ""
  }

  function TextsOf(vs: seq<Json>, dump: Json -> string): (texts: seq<string>)
    ensures |texts| == |vs|
  {
    seq(|vs|, i requires 0 <= i < |vs| => TextOf(vs[i], dump))
  }

  /** The values a key column may hold are told apart by their texts. */
  ghost predicate TextsDiffer(values: iset<Json>, dump: Json -> string) {
    forall v, w :: v in values && w in values && Keyable(v, dump) && Keyable(w, dump) ==>
      TextOf(v, dump) == TextOf(w, dump) ==> v == w
  }

  /** A key with one value out of every column. */
  ghost predicate Drawn(vs: seq<Json>, columns: seq<iset<Json>>, dump: Json -> string) {
    |vs| == |columns| && forall i :: 0 <= i < |columns| ==> vs[i] in columns[i] && Keyable(vs[i], dump)
  }

  /** Only column `free`, if any, holds values whose text contains the separator. */
  ghost predicate ColumnsCleanBut(columns: seq<iset<Json>>, free: int, dump: Json -> string) {
    forall i, v :: 0 <= i < |columns| && i != free && v in columns[i] && Keyable(v, dump) ==>
      Without(TextOf(v, dump), SEPARATOR)
  }

  lemma DrawnTextsAreClean(vs: seq<Json>, columns: seq<iset<Json>>, free: int, dump: Json -> string)
    requires Drawn(vs, columns, dump) && ColumnsCleanBut(columns, free, dump)
    ensures CleanBut(TextsOf(vs, dump), free)
  {
    forall i | 0 <= i < |vs| && i != free ensures Without(TextsOf(vs, dump)[i], SEPARATOR) {
      assert vs[i] in columns[i];
    }
  }

  /** Two values of one column with one text, put into the same key, make two keys of one text. */
  lemma SameTextCollides(d: seq<Json>, columns: seq<iset<Json>>, dump: Json -> string, i: nat, v: Json, w: Json)
    requires Drawn(d, columns, dump) && i < |columns| && v in columns[i] && w in columns[i] && v != w
    requires Keyable(v, dump) && Keyable(w, dump) && TextOf(v, dump) == TextOf(w, dump)
    ensures var a, b := d[i := v], d[i := w];
      Drawn(a, columns, dump) && Drawn(b, columns, dump) && a != b
        && KeyText(TextsOf(a, dump)) == KeyText(TextsOf(b, dump))
  {
    assert d[i := v][i] != d[i := w][i];
    assert TextsOf(d[i := v], dump) == TextsOf(d[i := w], dump);
  }

  lemma TextsDetermineValues(a: seq<Json>, b: seq<Json>, columns: seq<iset<Json>>, free: int, dump: Json -> string)
    requires Drawn(a, columns, dump) && Drawn(b, columns, dump) && ColumnsCleanBut(columns, free, dump)
    requires forall i :: 0 <= i < |columns| ==> TextsDiffer(columns[i], dump)
    requires KeyText(TextsOf(a, dump)) == KeyText(TextsOf(b, dump))
    ensures a == b
  {
    DrawnTextsAreClean(a, columns, free, dump);
    DrawnTextsAreClean(b, columns, free, dump);
    JoinDetermines(TextsOf(a, dump), TextsOf(b, dump), free);
    forall i | 0 <= i < |a| ensures a[i] == b[i] {
      assert TextsOf(a, dump)[i] == TextsOf(b, dump)[i];
      assert TextsDiffer(columns[i], dump);
    }
  }

  /**
   * With at most one column that may hold the separator, the key text identifies the key's values exactly when in every
   * column different values have different texts. The number 1 and the string "1" do not.
   */
  lemma KeyTextIdentifiesValuesIff(columns: seq<iset<Json>>, free: int, dump: Json -> string, d: seq<Json>)
    requires ColumnsCleanBut(columns, free, dump) && Drawn(d, columns, dump)
    ensures (forall a, b :: Drawn(a, columns, dump) && Drawn(b, columns, dump) ==>
               KeyText(TextsOf(a, dump)) == KeyText(TextsOf(b, dump)) ==> a == b)
            <==> forall i :: 0 <= i < |columns| ==> TextsDiffer(columns[i], dump)
  {
    if forall i :: 0 <= i < |columns| ==> TextsDiffer(columns[i], dump) {
      forall a, b | Drawn(a, columns, dump) && Drawn(b, columns, dump)
          && KeyText(TextsOf(a, dump)) == KeyText(TextsOf(b, dump))
        ensures a == b
      {
        TextsDetermineValues(a, b, columns, free, dump);
      }
    } else {
      var i: nat :| i < |columns| && !TextsDiffer(columns[i], dump);
      var v, w :| v in columns[i] && w in columns[i] && Keyable(v, dump) && Keyable(w, dump)
        && TextOf(v, dump) == TextOf(w, dump) && v != w;
      SameTextCollides(d, columns, dump, i, v, w);
    }
  }

  /** The smallest case: one call's two-column key, two records, one text. */
  lemma TwoKeysOneText(x: string, y: string, z: string)
    ensures KeyText([x + [SEPARATOR] + y, z]) == KeyText([x, y + [SEPARATOR] + z])
  {
    FirstThenRest([x, y + [SEPARATOR] + z], [y + [SEPARATOR] + z]);
    FirstThenRest([x + [SEPARATOR] + y, z], [z]);
    assert x + [SEPARATOR] + (y + [SEPARATOR] + z) == (x + [SEPARATOR] + y) + [SEPARATOR] + z;
  }

  // ---- dedup -------------------------------------------------------------------------

  datatype Deduped<R> = Deduped(out: seq<R>, dropped: nat) | BadKey(at: nat) | Conflict(at: nat)

  /** Record `i` has a key, and equals every earlier record of that key. */
  predicate Fine<R(==)>(records: seq<R>, pk: R -> Option<string>, i: int)
    requires 0 <= i < |records|
  {
    pk(records[i]).Some? && forall j :: 0 <= j < i && pk(records[j]) == pk(records[i]) ==> records[j] == records[i]
  }

  predicate AllFine<R(==)>(records: seq<R>, pk: R -> Option<string>, n: nat)
    requires n <= |records|
  {
    forall i :: 0 <= i < n ==> Fine(records, pk, i)
  }

  function PkAt<R>(pk: R -> Option<string>): (R, int) -> string {
    (r: R, i: int) => if pk(r).Some? then pk(r).value else ""
  }

  /** The list built so far: for each key, in order of first appearance, its record. */
  ghost predicate KeptIn<R, K>(rows: seq<R>, es: seq<Entry<K>>, n: nat, out: seq<R>, seen: map<K, R>)
    requires n <= |rows| == |es|
  {
    && seen.Keys == Winners(es, n).Keys
    && (forall k :: k in seen ==> seen[k] == rows[Winners(es, n)[k]])
    && |out| == |Order(es, n)| && forall m :: 0 <= m < |out| ==>
      Order(es, n)[m] in seen && out[m] == seen[Order(es, n)[m]]
  }

  lemma NewKeyKept<R, K>(rows: seq<R>, es: seq<Entry<K>>, n: nat, out: seq<R>, seen: map<K, R>)
    requires n < |rows| == |es| && KeptIn(rows, es, n, out, seen) && es[n].key !in seen
    ensures KeptIn(rows, es, n + 1, out + [rows[n]], seen[es[n].key := rows[n]])
  {
  }

  lemma RepeatKept<R, K>(rows: seq<R>, es: seq<Entry<K>>, n: nat, out: seq<R>, seen: map<K, R>)
    requires n < |rows| == |es| && KeptIn(rows, es, n, out, seen) && es[n].key in seen && seen[es[n].key] == rows[n]
    ensures KeptIn(rows, es, n + 1, out, seen)
  {
    assert Order(es, n + 1) == Order(es, n);
  }

  lemma KeptIsDedup<R>(records: seq<R>, keyAt: (R, int) -> string, stamp: R -> Stamp, out: seq<R>,
                       seen: map<string, R>)
    requires KeptIn(records, Entries(records, keyAt, stamp), |records|, out, seen)
    ensures out == Dedup(records, keyAt, stamp)
  {
  }

  /** The entries carry the records' keys. */
  ghost predicate KeysOf<R>(records: seq<R>, pk: R -> Option<string>, es: seq<Entry<string>>) {
    |es| == |records| && forall i :: 0 <= i < |records| ==> es[i].key == PkAt(pk)(records[i], i)
  }

  lemma SeenHasKey<R>(records: seq<R>, pk: R -> Option<string>, es: seq<Entry<string>>, n: nat, out: seq<R>,
                      seen: map<string, R>, key: string)
    returns (i: nat)
    requires n <= |records| && KeysOf(records, pk, es) && KeptIn(records, es, n, out, seen) && key in seen
    requires AllFine(records, pk, n)
    ensures i < n && seen[key] == records[i] && pk(records[i]) == Some(key)
  {
    i := Winners(es, n)[key];
    assert es[i].key == key && Fine(records, pk, i);
  }

  /** Whether record `n` agrees with its predecessors shows in the record seen for its key. */
  lemma FineShows<R>(records: seq<R>, pk: R -> Option<string>, stamp: R -> Stamp, n: nat, out: seq<R>,
                     seen: map<string, R>)
    requires n < |records| && KeptIn(records, Entries(records, PkAt(pk), stamp), n, out, seen) && pk(records[n]).Some?
    requires AllFine(records, pk, n)
    ensures var key := pk(records[n]).value; Fine(records, pk, n) <==> (key in seen ==> seen[key] == records[n])
    ensures Entries(records, PkAt(pk), stamp)[n].key == pk(records[n]).value
  {
    FineShowsInSeen(records, pk, Entries(records, PkAt(pk), stamp), n, out, seen);
  }

  lemma FineShowsInSeen<R>(records: seq<R>, pk: R -> Option<string>, es: seq<Entry<string>>, n: nat, out: seq<R>,
                           seen: map<string, R>)
    requires n < |records| && KeysOf(records, pk, es) && KeptIn(records, es, n, out, seen) && pk(records[n]).Some?
    requires AllFine(records, pk, n)
    ensures var key := pk(records[n]).value; Fine(records, pk, n) <==> (key in seen ==> seen[key] == records[n])
  {
    var key := pk(records[n]).value;
    if key in seen {
      var i := SeenHasKey(records, pk, es, n, out, seen, key);
      FineIffLikeEarlier(records, pk, n, i);
    } else {
      forall j | 0 <= j < n ensures pk(records[j]) != pk(records[n]) {
        KeysSeen(es, n, j);
        assert Fine(records, pk, j);
      }
    }
  }

  /** Records of one key that agreed so far: agreeing with one of them is agreeing with all. */
  lemma FineIffLikeEarlier<R>(records: seq<R>, pk: R -> Option<string>, n: nat, i: nat)
    requires i < n < |records| && AllFine(records, pk, n) && pk(records[n]).Some? && pk(records[i]) == pk(records[n])
    ensures Fine(records, pk, n) <==> records[i] == records[n]
  {
    forall j | 0 <= j < n && pk(records[j]) == pk(records[n]) ensures records[j] == records[i] {
      assert Fine(records, pk, i) && Fine(records, pk, j);
    }
  }

  /** The loop after `n` records, none of which breaks the rule. */
  ghost predicate Passed<R>(records: seq<R>, pk: R -> Option<string>, stamp: R -> Stamp, n: nat, out: seq<R>,
                            seen: map<string, R>, dropped: nat)
  {
    && n <= |records| && |out| + dropped == n
    && AllFine(records, pk, n) && KeptIn(records, Entries(records, PkAt(pk), stamp), n, out, seen)
  }

  /** One round of the loop: the next record has no key, or is new, or repeats the one seen, or contradicts it. */
  lemma PassOneMore<R>(records: seq<R>, pk: R -> Option<string>, stamp: R -> Stamp, n: nat, out: seq<R>,
                       seen: map<string, R>, dropped: nat)
    requires n < |records| && Passed(records, pk, stamp, n, out, seen, dropped)
    ensures var r, key := records[n], pk(records[n]);
      if key.None? || (key.value in seen && seen[key.value] != r)
      then AllFine(records, pk, n) && !Fine(records, pk, n) && !AllFine(records, pk, |records|)
      else if key.value in seen then Passed(records, pk, stamp, n + 1, out, seen, dropped + 1)
      else Passed(records, pk, stamp, n + 1, out + [r], seen[key.value := r], dropped)
  {
    var r, key := records[n], pk(records[n]);
    if key.Some? {
      FineShows(records, pk, stamp, n, out, seen);
      if key.value !in seen {
        NewKeyKept(records, Entries(records, PkAt(pk), stamp), n, out, seen);
      } else if seen[key.value] == r {
        RepeatKept(records, Entries(records, PkAt(pk), stamp), n, out, seen);
      }
    }
  }

  lemma PassedAll<R>(records: seq<R>, pk: R -> Option<string>, stamp: R -> Stamp, out: seq<R>, seen: map<string, R>,
                     dropped: nat)
    requires Passed(records, pk, stamp, |records|, out, seen, dropped)
    ensures AllFine(records, pk, |records|) && |out| + dropped == |records| && out == Dedup(records, PkAt(pk), stamp)
  {
    KeptIsDedup(records, PkAt(pk), stamp, out, seen);
  }

  /**
   * The loop of `_dedupe_records_by_pk` for any way of finding a record's key: it succeeds exactly when every record
   * has a key and records sharing one are identical, and otherwise stops at the first that breaks this. What it keeps
   * is what the staging writer's dedup keeps, whatever the timestamps.
   */
  method DedupeBy<R(==)>(records: seq<R>, pk: R -> Option<string>, ghost stamp: R -> Stamp) returns (res: Deduped<R>)
    ensures res.Deduped? <==> AllFine(records, pk, |records|)
    ensures res.Deduped? ==> |res.out| + res.dropped == |records| && res.out == Dedup(records, PkAt(pk), stamp)
    ensures res.BadKey? ==> res.at < |records| && pk(records[res.at]).None? && AllFine(records, pk, res.at)
    ensures res.Conflict? ==>
      && res.at < |records| && pk(records[res.at]).Some? && !Fine(records, pk, res.at) && AllFine(records, pk, res.at)
  {
    var out: seq<R> := [];
    var seen: map<string, R> := map[];
    var dropped := 0;
    for i := 0 to |records|
      invariant Passed(records, pk, stamp, i, out, seen, dropped)
    {
      var record := records[i];
      var key := pk(record);
      PassOneMore(records, pk, stamp, i, out, seen, dropped);
      if key.None? {
        return BadKey(i);
      }
      if key.value !in seen {
        seen := seen[key.value := record];
        out := out + [record];
      } else if seen[key.value] == record {
        dropped := dropped + 1;
      } else {
        return Conflict(i);
      }
    }
    PassedAll(records, pk, stamp, out, seen, dropped);
    res := Deduped(out, dropped);
  }

  /** `_dedupe_records_by_pk`. */
  method DedupeRecords(records: seq<Record>, pks: seq<string>, dump: Json -> string, ghost stamp: Record -> Stamp)
    returns (res: Deduped<Record>)
    ensures res.Deduped? <==> AllFine(records, PkOf(pks, dump), |records|)
    ensures res.Deduped? ==>
      |res.out| + res.dropped == |records| && res.out == Dedup(records, PkAt(PkOf(pks, dump)), stamp)
    ensures res.BadKey? ==>
      && res.at < |records| && Components(records[res.at], pks, dump).None?
      && AllFine(records, PkOf(pks, dump), res.at)
    ensures res.Conflict? ==>
      && res.at < |records| && Components(records[res.at], pks, dump).Some?
      && !Fine(records, PkOf(pks, dump), res.at) && AllFine(records, PkOf(pks, dump), res.at)
  {
    res := DedupeBy(records, PkOf(pks, dump), stamp);
  }

  // ---- the NULL-safe MERGE -------------------------------------------------------------

  /** `T.path IS NOT DISTINCT FROM S.path` for every primary-key path. */
  predicate NotDistinct(t: Record, s: Record, pks: seq<string>) {
    forall pk :: pk in pks ==> Field(t, pk) == Field(s, pk)
  }

  function Fields(record: Record, pks: seq<string>): (k: seq<Json>)
    ensures |k| == |pks|
  {
    seq(|pks|, i requires 0 <= i < |pks| => Field(record, pks[i]))
  }

  function NullSafeKey(pks: seq<string>): Record -> Option<seq<Json>> {
    (record: Record) => Some(Fields(record, pks))
  }

  /** The top-level columns the paths start in. */
  function TopColumns(pks: seq<string>): set<string> {
    set pk | pk in pks :: Split(pk, '.')[0]
  }

  /** `UPDATE SET` for every column no primary-key path starts in. */
  function SetColumns(pks: seq<string>): (Record, Record) -> Record {
    (t: Record, s: Record) => t + (s - TopColumns(pks))
  }

  lemma NotDistinctIsKeyMatch(t: Record, s: Record, pks: seq<string>)
    ensures NotDistinct(t, s, pks) <==> Same(t, s, NullSafeKey(pks))
  {
    if NotDistinct(t, s, pks) {
      assert Fields(t, pks) == Fields(s, pks);
    }
    if Same(t, s, NullSafeKey(pks)) {
      forall pk | pk in pks ensures Field(t, pk) == Field(s, pk) {
        var i :| 0 <= i < |pks| && pks[i] == pk;
        assert Fields(t, pks)[i] == Fields(s, pks)[i];
      }
    }
  }

  /** A path's value depends on the column it starts in only. */
  lemma FieldOfTop(t: Record, u: Record, pk: string)
    requires var top := Split(pk, '.')[0]; (top in t <==> top in u) && (top in t ==> t[top] == u[top])
    ensures Field(t, pk) == Field(u, pk)
  {
  }

  lemma KeysSurviveSetColumns(pks: seq<string>)
    ensures KeepsKeys(NullSafeKey(pks), SetColumns(pks)) && Settles(SetColumns(pks))
  {
    forall t: Record, s: Record ensures NullSafeKey(pks)(SetColumns(pks)(t, s)) == NullSafeKey(pks)(t) {
      forall i | 0 <= i < |pks| ensures Field(SetColumns(pks)(t, s), pks[i]) == Field(t, pks[i]) {
        FieldOfTop(SetColumns(pks)(t, s), t, pks[i]);
      }
      assert Fields(SetColumns(pks)(t, s), pks) == Fields(t, pks);
    }
    forall t: Record, s: Record ensures SetColumns(pks)(SetColumns(pks)(t, s), s) == SetColumns(pks)(t, s) {
      var sets := s - TopColumns(pks);
      assert (t + sets) + sets == t + sets;
    }
    forall s: Record ensures SetColumns(pks)(s, s) == s {
      assert s + (s - TopColumns(pks)) == s;
    }
  }

  // ---- dedup and MERGE together ----------------------------------------------------------

  /** The columns of the temp table: every field of any record. */
  function AllColumns(records: seq<Record>): set<string> {
    set r, c | r in records && c in r :: c
  }

  /** A record as a row of the temp table: NULL where it lacks a column. */
  function Loaded(record: Record, columns: set<string>): Record {
    map c | c in columns :: if c in record then record[c] else JNull
  }

  function LoadAll(records: seq<Record>): (rows: seq<Record>)
    ensures |rows| == |records|
  {
    seq(|records|, i requires 0 <= i < |records| => Loaded(records[i], AllColumns(records)))
  }

  lemma LoadingKeepsField(record: Record, columns: set<string>, pk: string)
    requires record.Keys <= columns
    ensures Field(Loaded(record, columns), pk) == Field(record, pk)
  {
    var path, row := Split(pk, '.'), Loaded(record, columns);
    if path[0] in record {
      FieldOfTop(row, record, pk);
    } else {
      NullStaysNull(path[1..]);
    }
  }

  /** Different texts come from different values. */
  lemma KeyTextOfFields(r: Record, s: Record, pks: seq<string>, dump: Json -> string)
    requires Fields(r, pks) == Fields(s, pks)
    ensures PkOf(pks, dump)(r) == PkOf(pks, dump)(s)
  {
    forall i | 0 <= i < |pks| ensures Field(r, pks[i]) == Field(s, pks[i]) {
      assert Fields(r, pks)[i] == Fields(s, pks)[i];
    }
    assert Texts(r, pks, dump) == Texts(s, pks, dump);
  }

  lemma LoadedFields(records: seq<Record>, i: nat, pks: seq<string>)
    requires i < |records|
    ensures Fields(LoadAll(records)[i], pks) == Fields(records[i], pks)
  {
    assert records[i] in records;
    assert records[i].Keys <= AllColumns(records);
    forall j | 0 <= j < |pks| ensures Field(LoadAll(records)[i], pks[j]) == Field(records[i], pks[j]) {
      LoadingKeepsField(records[i], AllColumns(records), pks[j]);
    }
  }

  /** Records with distinct key texts load into rows with distinct key values. */
  lemma LoadedIsKeyed(records: seq<Record>, pks: seq<string>, dump: Json -> string)
    requires Keyed(records, |records|, PkOf(pks, dump))
    ensures Keyed(LoadAll(records), |records|, NullSafeKey(pks))
  {
    var rows := LoadAll(records);
    KeyedMeans(records, |records|, PkOf(pks, dump));
    forall i, j | 0 <= i < j < |rows| ensures NullSafeKey(pks)(rows[i]) != NullSafeKey(pks)(rows[j]) {
      LoadedFields(records, i, pks);
      LoadedFields(records, j, pks);
      if Fields(rows[i], pks) == Fields(rows[j], pks) {
        KeyTextOfFields(records[i], records[j], pks, dump);
      }
    }
    KeyedMeans(rows, |rows|, NullSafeKey(pks));
  }

  lemma DedupedIsKeyed(records: seq<Record>, pks: seq<string>, dump: Json -> string, stamp: Record -> Stamp)
    requires AllFine(records, PkOf(pks, dump), |records|)
    ensures var out := Dedup(records, PkAt(PkOf(pks, dump)), stamp); Keyed(out, |out|, PkOf(pks, dump))
  {
    var pk := PkOf(pks, dump);
    forall r, i | r in records ensures pk(r) == Some(PkAt(pk)(r, i)) {
      var n :| 0 <= n < |records| && records[n] == r;
      assert Fine(records, pk, n);
    }
    DedupRowsAreLatest(records, PkAt(pk), stamp, pk);
  }

  /**
   * What the dedup is for: once it succeeds, no target row matches two source rows, keys stay unique, the table is
   * upserted, and loading the same records again changes nothing, NULL in the target's keys or not.
   */
  lemma LoadIsIdempotentUpsert(target: seq<Record>, records: seq<Record>, pks: seq<string>, dump: Json -> string,
                               stamp: Record -> Stamp)
    requires Keyed(target, |target|, NullSafeKey(pks)) && AllFine(records, PkOf(pks, dump), |records|)
    ensures var source := LoadAll(Dedup(records, PkAt(PkOf(pks, dump)), stamp));
      var merged := MergeRows(target, source, NullSafeKey(pks), SetColumns(pks));
      && !Ambiguous(target, source, NullSafeKey(pks))
      && Keyed(merged, |merged|, NullSafeKey(pks))
      && View(merged, |merged|, NullSafeKey(pks))
         == MergeMaps(View(target, |target|, NullSafeKey(pks)), View(source, |source|, NullSafeKey(pks)),
           SetColumns(pks))
      && MergeRows(merged, source, NullSafeKey(pks), SetColumns(pks)) == merged
  {
    var out := Dedup(records, PkAt(PkOf(pks, dump)), stamp);
    var source := LoadAll(out);
    DedupedIsKeyed(records, pks, dump, stamp);
    LoadedIsKeyed(out, pks, dump);
    KeysSurviveSetColumns(pks);
    KeyedIsUnambiguous(target, source, NullSafeKey(pks));
    MergeRefinesView(target, source, NullSafeKey(pks), SetColumns(pks));
    SecondMergeIsIdle(target, source, NullSafeKey(pks), SetColumns(pks));
  }

  // ---- what a load writes ------------------------------------------------------------------

  /** The path is the column, or goes on after it with a dot. */
  predicate StartsIn(pk: string, column: string) {
    Without(column, '.') && column <= pk && (|column| < |pk| ==> pk[|column|] == '.')
  }

  lemma {:induction false} TopIsStart(pk: string, column: string)
    ensures Split(pk, '.')[0] == column <==> StartsIn(pk, column)
  {
    if pk != [] && pk[0] != '.' && column != [] {
      TopIsStart(pk[1..], column[1..]);
      assert pk == [pk[0]] + pk[1..] && column == [column[0]] + column[1..];
      assert Without(column, '.') <==> column[0] != '.' && Without(column[1..], '.');
      assert column <= pk <==> column[0] == pk[0] && column[1..] <= pk[1..];
    }
  }

  /** A column some record of the call has, and in which no key path starts. */
  ghost predicate Written(records: seq<Record>, pks: seq<string>, column: string) {
    (exists r :: r in records && column in r) && forall pk :: pk in pks ==> !StartsIn(pk, column)
  }

  lemma WrittenColumns(records: seq<Record>, pks: seq<string>, column: string)
    ensures Written(records, pks, column) <==> column in AllColumns(records) - TopColumns(pks)
  {
    forall pk | pk in pks ensures Split(pk, '.')[0] == column <==> StartsIn(pk, column) {
      TopIsStart(pk, column);
    }
  }

  /** An update writes the columns of the batch in which no key path starts, and no other. */
  lemma UpdateWrites(records: seq<Record>, pks: seq<string>, t: Record, s: Record, c: string)
    ensures var now := SetColumns(pks)(t, Loaded(s, AllColumns(records)));
      if Written(records, pks, c) then c in now && now[c] == if c in s then s[c] else JNull
      else (c in now <==> c in t) && (c in t ==> now[c] == t[c])
  {
    WrittenColumns(records, pks, c);
  }

  /** The dedup drops only copies, so it keeps every record. */
  lemma DedupKeepsRecords(records: seq<Record>, pk: Record -> Option<string>, stamp: Record -> Stamp)
    requires AllFine(records, pk, |records|)
    ensures forall r :: r in Dedup(records, PkAt(pk), stamp) <==> r in records
    ensures AllColumns(Dedup(records, PkAt(pk), stamp)) == AllColumns(records)
  {
    var out := Dedup(records, PkAt(pk), stamp);
    KeptAreRows(records, PkAt(pk), stamp);
    forall r | r in records ensures r in out {
      var j: nat :| j < |records| && records[j] == r;
      var n, i := DedupLosesNoKey(records, PkAt(pk), stamp, j);
      assert Fine(records, pk, i) && Fine(records, pk, j);
      assert out[n] == records[i] && records[i] == r;
    }
    forall c ensures c in AllColumns(out) <==> c in AllColumns(records) {
    }
  }

  /** Each record is loaded under its key values. */
  lemma LoadedUnderKey(records: seq<Record>, pks: seq<string>, dump: Json -> string, stamp: Record -> Stamp, s: Record)
    requires AllFine(records, PkOf(pks, dump), |records|) && s in records
    ensures var source := LoadAll(Dedup(records, PkAt(PkOf(pks, dump)), stamp));
      var v := View(source, |source|, NullSafeKey(pks));
      Fields(s, pks) in v && v[Fields(s, pks)] == Loaded(s, AllColumns(records))
  {
    var out := Dedup(records, PkAt(PkOf(pks, dump)), stamp);
    var source := LoadAll(out);
    DedupKeepsRecords(records, PkOf(pks, dump), stamp);
    DedupedIsKeyed(records, pks, dump, stamp);
    LoadedIsKeyed(out, pks, dump);
    KeyedMeans(source, |source|, NullSafeKey(pks));
    var n: nat :| n < |out| && out[n] == s;
    LoadedFields(out, n, pks);
    var i := KeyPosition(source, |source|, NullSafeKey(pks), Fields(s, pks));
    assert i == n;
  }

  lemma LoadedKeyIsRecords(records: seq<Record>, pks: seq<string>, dump: Json -> string, stamp: Record -> Stamp,
                           k: seq<Json>)
    requires AllFine(records, PkOf(pks, dump), |records|)
    requires forall s :: s in records ==> Fields(s, pks) != k
    ensures var source := LoadAll(Dedup(records, PkAt(PkOf(pks, dump)), stamp));
      k !in View(source, |source|, NullSafeKey(pks))
  {
    var out := Dedup(records, PkAt(PkOf(pks, dump)), stamp);
    var source := LoadAll(out);
    KeptAreRows(records, PkAt(PkOf(pks, dump)), stamp);
    forall n | 0 <= n < |source| ensures NullSafeKey(pks)(source[n]) != Some(k) {
      LoadedFields(out, n, pks);
      assert out[n] in out;
    }
    var i := KeyPosition(source, |source|, NullSafeKey(pks), k);
  }

  /**
   * What a load leaves under the key values of a record of the call. A row stored there takes the record's value, NULL
   * if it lacks it, in every column some record has and no key path starts in, and keeps every other column; without
   * such a row the record itself is inserted, NULL where another record has a column and it has not.
   */
  lemma LoadWritesRecord(target: seq<Record>, records: seq<Record>, pks: seq<string>, dump: Json -> string,
                         stamp: Record -> Stamp, s: Record, c: string)
    requires Keyed(target, |target|, NullSafeKey(pks)) && AllFine(records, PkOf(pks, dump), |records|) && s in records
    ensures var source := LoadAll(Dedup(records, PkAt(PkOf(pks, dump)), stamp));
      var merged := MergeRows(target, source, NullSafeKey(pks), SetColumns(pks));
      var was, now := View(target, |target|, NullSafeKey(pks)), View(merged, |merged|, NullSafeKey(pks));
      var k, brought := Fields(s, pks), if c in s then s[c] else JNull;
      && k in now
      && (k in was && Written(records, pks, c) ==> c in now[k] && now[k][c] == brought)
      && (k in was && !Written(records, pks, c) ==>
            (c in now[k] <==> c in was[k]) && (c in was[k] ==> now[k][c] == was[k][c]))
      && (k !in was ==> (c in now[k] <==> exists r :: r in records && c in r) && (c in now[k] ==> now[k][c] == brought))
  {
    LoadIsIdempotentUpsert(target, records, pks, dump, stamp);
    LoadedUnderKey(records, pks, dump, stamp, s);
    var was := View(target, |target|, NullSafeKey(pks));
    if Fields(s, pks) in was {
      UpdateWrites(records, pks, was[Fields(s, pks)], s, c);
    }
  }

  /** Rows under key values of no record stay as they are. */
  lemma LoadTouchesNothingElse(target: seq<Record>, records: seq<Record>, pks: seq<string>, dump: Json -> string,
                               stamp: Record -> Stamp, k: seq<Json>)
    requires Keyed(target, |target|, NullSafeKey(pks)) && AllFine(records, PkOf(pks, dump), |records|)
    requires forall s :: s in records ==> Fields(s, pks) != k
    ensures var source := LoadAll(Dedup(records, PkAt(PkOf(pks, dump)), stamp));
      var merged := MergeRows(target, source, NullSafeKey(pks), SetColumns(pks));
      var was, now := View(target, |target|, NullSafeKey(pks)), View(merged, |merged|, NullSafeKey(pks));
      (k in now <==> k in was) && (k in was ==> now[k] == was[k])
  {
    LoadIsIdempotentUpsert(target, records, pks, dump, stamp);
    LoadedKeyIsRecords(records, pks, dump, stamp, k);
  }

  /**
   * A second way to be refused, without any separator: a value that is not a string, and the string it is printed as.
   * Their keys differ for the MERGE, and not for the dedup.
   */
  lemma PrintedValueRefused(a: string, v: Json, dump: Json -> string)
    requires Without(a, '.') && !v.JNull? && !v.JString? && !Blank(dump(v))
    ensures var records := [map[a := v], map[a := JString(dump(v))]];
      && PkOf([a], dump)(records[0]) == Some(dump(v)) == PkOf([a], dump)(records[1])
      && !Fine(records, PkOf([a], dump), 1) && AllFine(records, PkOf([a], dump), 1)
      && !NotDistinct(records[0], records[1], [a])
  {
    var r: Record, s: Record := map[a := v], map[a := JString(dump(v))];
    OneColumnKey(r, a, dump);
    OneColumnKey(s, a, dump);
    var records, pk := [r, s], PkOf([a], dump);
    assert r[a] != s[a] && a in [a];
    assert pk(records[0]) == pk(records[1]) && records[0] != records[1];
    assert Fine(records, pk, 0);
  }

  lemma OneColumnKey(record: Record, a: string, dump: Json -> string)
    requires Without(a, '.') && a in record && Keyable(record[a], dump)
    ensures Field(record, a) == record[a]
    ensures PkOf([a], dump)(record) == Some(TextOf(record[a], dump))
  {
    SplitWhole(a, '.');
    assert Field(record, a) == ValueAt(record[a], [a][1..]);
    assert [a][1..] == [];
    assert Components(record, [a], dump).value == [TextOf(record[a], dump)];
  }

  /**
   * Two records of one call whose different two-column keys are printed alike: the dedup stops with an error although
   * the MERGE would tell them apart.
   */
  lemma DifferentKeysRefused(a: string, b: string, dump: Json -> string)
    requires a != b && Without(a, '.') && Without(b, '.')
    ensures var records := [CollidingRecord(a, b, true), CollidingRecord(a, b, false)];
      && PkOf([a, b], dump)(records[1]).Some?
      && !Fine(records, PkOf([a, b], dump), 1) && AllFine(records, PkOf([a, b], dump), 1)
      && !NotDistinct(records[0], records[1], [a, b])
  {
    var double := "x" + [SEPARATOR] + "x";
    var r, s := CollidingRecord(a, b, true), CollidingRecord(a, b, false);
    TopLevelKey(r, a, b, dump, double, "x");
    TopLevelKey(s, a, b, dump, "x", double);
    TwoKeysOneText("x", "x", "x");
    assert double[0] == 'x' && |double| == 3;
    assert r[a] != s[a] && a in [a, b];
    var records, pk := [r, s], PkOf([a, b], dump);
    assert pk(records[0]) == pk(records[1]) && records[0] != records[1];
    assert Fine(records, pk, 0);
  }

  /** Two columns holding "x" and "x", a separator and "x" in one or the other order. */
  function CollidingRecord(a: string, b: string, doubleFirst: bool): Record {
    var double, plain := JString("x" + [SEPARATOR] + "x"), JString("x");
    if doubleFirst then map[a := double, b := plain] else map[a := plain, b := double]
  }

  lemma TopLevelKey(record: Record, a: string, b: string, dump: Json -> string, x: string, y: string)
    requires Without(a, '.') && Without(b, '.') && a in record && b in record
    requires record[a] == JString(x) && record[b] == JString(y) && x != "" && y != "" && !Space(x[0]) && !Space(y[0])
    ensures PkOf([a, b], dump)(record) == Some(KeyText([x, y]))
    ensures Field(record, a) == JString(x)
  {
    SplitWhole(a, '.');
    SplitWhole(b, '.');
    assert x[0] in x && y[0] in y;
    assert Field(record, a) == ValueAt(record[a], [a][1..]) && Field(record, b) == ValueAt(record[b], [b][1..]);
    assert [a][1..] == [] && [b][1..] == [];
    assert Field(record, a) == JString(x) && Field(record, b) == JString(y);
    assert Components(record, [a, b], dump).value == [x, y];
  }
}
