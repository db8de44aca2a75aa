/**
 * `BI_FinanceTable.sql`: amounts with fallbacks, six left joins, one row per posting line. Tables are lists of rows,
 * NULL is an absent column, ROW_NUMBER breaks ties as it likes.
 */
module FinanceQuery {
  import opened Blocks
  import opened Positions
  import opened Text

  type DimRow = map<string, string>

  /** A ledger row: text columns, amounts and rates; `None` is NULL. */
  datatype Fact = Fact(
    cols: map<string, string>,
    debit: Option<real>, credit: Option<real>,
    debitCurrency: Option<real>, creditCurrency: Option<real>,
    baseRate: Option<real>, marketRate: Option<real>)

  function Col(row: map<string, string>, c: string): Option<string> {
    if c in row then Some(row[c]) else None
  }

  /** SQL `=`: never true of NULL. */
  predicate SqlEq(a: Option<string>, b: Option<string>) {
    a.Some? && a == b
  }

  // ---- finance_base ------------------------------------------------------------------

  function Coalesce<T>(a: Option<T>, b: Option<T>): Option<T> {
    if a.Some? then a else b
  }

  function OrZero(a: Option<real>): real {
    if a.Some? then a.value else 0.0
  }

  /** `SAFE_MULTIPLY`: NULL on NULL, and NULL where `product` says the result overflows. */
  function SafeMultiply(a: real, b: Option<real>, product: (real, real) -> Option<real>): Option<real> {
    if b.None? then None else product(a, b.value)
  }

  predicate HasBaseAmount(f: Fact) {
    OrZero(f.debit) != 0.0 || OrZero(f.credit) != 0.0
  }

  predicate BaseIsNok(f: Fact) {
    Coalesce(Col(f.cols, "base_currency"), Some("NOK")) == Some("NOK")
  }

  function LocalAmount(f: Fact): real {
    OrZero(f.debitCurrency) - OrZero(f.creditCurrency)
  }

  function AmountNok(f: Fact, product: (real, real) -> Option<real>): Option<real> {
    var fromBase :=
      if BaseIsNok(f) && HasBaseAmount(f) then Some(OrZero(f.debit) - OrZero(f.credit))
      else if !BaseIsNok(f) && HasBaseAmount(f)
        then SafeMultiply(OrZero(f.debit) - OrZero(f.credit), f.baseRate, product)
      else None;
    Coalesce(fromBase, Coalesce(SafeMultiply(LocalAmount(f), f.marketRate, product), Some(LocalAmount(f))))
  }

  /** An amount column read as `x`: NULL counts as zero. */
  predicate ReadsAs(column: Option<real>, x: real) {
    if column.Some? then column.value == x else x == 0.0
  }

  /**
   * `amount_nok` is never NULL, whatever is NULL or overflows. NOK books, the default, use a nonzero base amount as it
   * is, whatever the rates; other books' base amount enters only through their base rate; in every other case the
   * currency amount counts, converted if there is a market rate and the product does not overflow.
   */
  lemma AmountNokNeverNull(f: Fact, product: (real, real) -> Option<real>, debit: real, credit: real,
                           debitCurrency: real, creditCurrency: real)
    requires ReadsAs(f.debit, debit) && ReadsAs(f.credit, credit)
    requires ReadsAs(f.debitCurrency, debitCurrency) && ReadsAs(f.creditCurrency, creditCurrency)
    ensures var nok := "base_currency" in f.cols ==> f.cols["base_currency"] == "NOK";
      var based, base, local := debit != 0.0 || credit != 0.0, debit - credit, debitCurrency - creditCurrency;
      AmountNok(f, product) == Some(
        if based && nok then base
        else if based && f.baseRate.Some? && product(base, f.baseRate.value).Some?
          then product(base, f.baseRate.value).value
        else if f.marketRate.Some? && product(local, f.marketRate.value).Some?
          then product(local, f.marketRate.value).value
        else local)
  {
    assert OrZero(f.debit) == debit && OrZero(f.credit) == credit;
    assert LocalAmount(f) == debitCurrency - creditCurrency;
  }

  // ---- joins -------------------------------------------------------------------------

  function Matches<L, R>(l: L, rs: seq<R>, n: nat, on: (L, R) -> bool): seq<R>
    requires n <= |rs|
  {
    if n == 0 then [] else Matches(l, rs, n - 1, on) + if on(l, rs[n - 1]) then [rs[n - 1]] else []
  }

  function JoinRow<L, R>(l: L, ms: seq<R>, add: (L, Option<R>) -> L): seq<L> {
    if ms == [] then [add(l, None)] else seq(|ms|, k requires 0 <= k < |ms| => add(l, Some(ms[k])))
  }

  /** LEFT JOIN: every left row once per match, or once without. */
  function LeftJoin<L, R>(ls: seq<L>, rs: seq<R>, on: (L, R) -> bool, add: (L, Option<R>) -> L): seq<L> {
    Joined(JoinBlocks(ls, rs, on, add), |ls|)
  }

  function JoinBlocks<L, R>(ls: seq<L>, rs: seq<R>, on: (L, R) -> bool, add: (L, Option<R>) -> L): (blocks: seq<seq<L>>)
    ensures |blocks| == |ls|
  {
    seq(|ls|, i requires 0 <= i < |ls| => JoinRow(ls[i], Matches(ls[i], rs, |rs|, on), add))
  }

  /** What a left row is, apart from what joins add to it. */
  ghost predicate Keeps<L(!new), R(!new), F>(add: (L, Option<R>) -> L, core: L -> F) {
    forall l, r :: core(add(l, r)) == core(l)
  }

  /** What the first `n` rows are, apart from what joins added. */
  function Cores<L, F(==)>(ls: seq<L>, n: nat, core: L -> F): set<F>
    requires n <= |ls|
  {
    if n == 0 then {} else Cores(ls, n - 1, core) + {core(ls[n - 1])}
  }

  lemma {:induction false} CoresOfPrefix<L, F>(a: seq<L>, b: seq<L>, n: nat, core: L -> F)
    requires n <= |a|
    ensures Cores(a + b, n, core) == Cores(a, n, core)
  {
    if n > 0 {
      CoresOfPrefix(a, b, n - 1, core);
    }
  }

  lemma {:induction false} CoresOfConcat<L, F>(a: seq<L>, b: seq<L>, n: nat, core: L -> F)
    requires n <= |b|
    ensures Cores(a + b, |a| + n, core) == Cores(a, |a|, core) + Cores(b, n, core)
  {
    if n == 0 {
      CoresOfPrefix(a, b, |a|, core);
    } else {
      CoresOfConcat(a, b, n - 1, core);
      assert (a + b)[|a| + n - 1] == b[n - 1];
    }
  }

  lemma {:induction false} CoresAlike<L, F>(ls: seq<L>, n: nat, core: L -> F, x: F)
    requires 0 < n <= |ls| && forall i :: 0 <= i < n ==> core(ls[i]) == x
    ensures Cores(ls, n, core) == {x}
  {
    if n > 1 {
      CoresAlike(ls, n - 1, core, x);
    } else {
      assert Cores(ls, 0, core) == {};
    }
  }

  lemma {:induction false} CoreOfRow<L, F>(ls: seq<L>, n: nat, core: L -> F, i: nat)
    requires i < n <= |ls|
    ensures core(ls[i]) in Cores(ls, n, core)
  {
    if i < n - 1 {
      CoreOfRow(ls, n - 1, core, i);
    }
  }

  lemma {:induction false} RowOfCore<L, F>(ls: seq<L>, n: nat, core: L -> F, x: F) returns (i: nat)
    requires n <= |ls| && x in Cores(ls, n, core)
    ensures i < n && core(ls[i]) == x
  {
    i := n - 1;
    if core(ls[n - 1]) != x {
      i := RowOfCore(ls, n - 1, core, x);
    }
  }

  lemma JoinRowCores<L(!new), R(!new), F>(l: L, ms: seq<R>, add: (L, Option<R>) -> L, core: L -> F)
    requires Keeps(add, core)
    ensures Cores(JoinRow(l, ms, add), |JoinRow(l, ms, add)|, core) == {core(l)}
  {
    CoresAlike(JoinRow(l, ms, add), |JoinRow(l, ms, add)|, core, core(l));
  }

  lemma {:induction false} CoresOfBlocks<L, F>(ls: seq<L>, blocks: seq<seq<L>>, n: nat, core: L -> F)
    requires n <= |ls| == |blocks| && forall i :: 0 <= i < n ==> Cores(blocks[i], |blocks[i]|, core) == {core(ls[i])}
    ensures Cores(Joined(blocks, n), |Joined(blocks, n)|, core) == Cores(ls, n, core)
  {
    if n > 0 {
      CoresOfBlocks(ls, blocks, n - 1, core);
      CoresOfConcat(Joined(blocks, n - 1), blocks[n - 1], |blocks[n - 1]|, core);
    }
  }

  /** A left join loses no row and invents none. */
  lemma LeftJoinKeepsRows<L(!new), R(!new), F>(ls: seq<L>, rs: seq<R>, on: (L, R) -> bool, add: (L, Option<R>) -> L,
      core: L -> F)
    requires Keeps(add, core)
    ensures Cores(LeftJoin(ls, rs, on, add), |LeftJoin(ls, rs, on, add)|, core) == Cores(ls, |ls|, core)
  {
    var blocks := JoinBlocks(ls, rs, on, add);
    forall i | 0 <= i < |ls| ensures Cores(blocks[i], |blocks[i]|, core) == {core(ls[i])} {
      JoinRowCores(ls[i], Matches(ls[i], rs, |rs|, on), add, core);
    }
    CoresOfBlocks(ls, blocks, |ls|, core);
  }

  lemma {:induction false} MatchesAre<L, R>(l: L, rs: seq<R>, n: nat, on: (L, R) -> bool, r: R)
    requires n <= |rs|
    ensures r in Matches(l, rs, n, on) <==> r in rs[..n] && on(l, r)
  {
    if n > 0 {
      MatchesAre(l, rs, n - 1, on, r);
      assert rs[..n] == rs[..n - 1] + [rs[n - 1]];
    }
  }

  /** A left join pairs a left row with every match. */
  lemma LeftJoinHasMatch<L, R>(ls: seq<L>, rs: seq<R>, on: (L, R) -> bool, add: (L, Option<R>) -> L, i: nat, r: R)
    requires i < |ls| && r in rs && on(ls[i], r)
    ensures add(ls[i], Some(r)) in LeftJoin(ls, rs, on, add)
  {
    var ms := Matches(ls[i], rs, |rs|, on);
    MatchesAre(ls[i], rs, |rs|, on, r);
    assert rs[..|rs|] == rs;
    var k :| 0 <= k < |ms| && ms[k] == r;
    assert JoinRow(ls[i], ms, add)[k] == add(ls[i], Some(r));
    JoinedHas(JoinBlocks(ls, rs, on, add), |ls|, i, add(ls[i], Some(r)));
  }

  /** Every joined row is a left row with a match, or one without any. */
  lemma LeftJoinIsMatch<L, R>(ls: seq<L>, rs: seq<R>, on: (L, R) -> bool, add: (L, Option<R>) -> L, o: L)
    returns (i: nat, r: Option<R>)
    requires o in LeftJoin(ls, rs, on, add)
    ensures i < |ls| && o == add(ls[i], r)
    ensures r.Some? ==> r.value in rs && on(ls[i], r.value)
    ensures r.None? ==> forall x :: x in rs ==> !on(ls[i], x)
  {
    i := JoinedOrigin(JoinBlocks(ls, rs, on, add), |ls|, o);
    var ms := Matches(ls[i], rs, |rs|, on);
    assert rs[..|rs|] == rs;
    forall x | x in rs ensures on(ls[i], x) <==> x in ms {
      MatchesAre(ls[i], rs, |rs|, on, x);
    }
    r := None;
    if ms != [] {
      var k :| 0 <= k < |ms| && o == add(ls[i], Some(ms[k]));
      MatchesAre(ls[i], rs, |rs|, on, ms[k]);
      r := Some(ms[k]);
    }
  }

  // ---- finance_enriched ----------------------------------------------------------------

  datatype Dims = Dims(date: seq<DimRow>, company: seq<DimRow>, entity: seq<DimRow>, unit: seq<DimRow>,
    account: seq<DimRow>, sub: seq<DimRow>)

  /** `at` is the position of the fact row. */
  datatype Enriched = Enriched(
    at: nat, fact: Fact, date: Option<DimRow>, company: Option<DimRow>, entity: Option<DimRow>,
    unit: Option<DimRow>, account: Option<DimRow>, sub: Option<DimRow>)

  function OptCol(row: Option<DimRow>, c: string): Option<string> {
    if row.None? then None else Col(row.value, c)
  }

  function Core(): Enriched -> (nat, Fact) {
    (r: Enriched) => (r.at, r.fact)
  }

  function Start(facts: seq<Fact>): (rows: seq<Enriched>)
    ensures |rows| == |facts|
  {
    seq(|facts|, i requires 0 <= i < |facts| => Enriched(i, facts[i], None, None, None, None, None, None))
  }

  datatype Dim = DateDim | CompanyDim | EntityDim | UnitDim | AccountDim | SubaccountDim

  predicate SameIn(r: Enriched, d: DimRow, c: string) {
    SqlEq(Col(d, c), Col(r.fact.cols, c))
  }

  /** The ON clause of each join. */
  function On(dim: Dim): (Enriched, DimRow) -> bool {
    (r: Enriched, d: DimRow) =>
      match dim
      case DateDim => SameIn(r, d, "date_key")
      case CompanyDim => SameIn(r, d, "company_key")
      case EntityDim => SqlEq(Col(d, "entity_code"), OptCol(r.company, "entity_code"))
      case UnitDim => SameIn(r, d, "tenant_id") && SameIn(r, d, "business_unit_id")
      case AccountDim => SameIn(r, d, "account_key")
      case SubaccountDim =>
        SameIn(r, d, "tenant_id")
          && (SameIn(r, d, "subaccount_id") || SqlEq(Col(d, "subaccount_number"), Col(r.fact.cols, "subaccount_id")))
  }

  function Add(dim: Dim): (Enriched, Option<DimRow>) -> Enriched {
    (r: Enriched, d: Option<DimRow>) =>
      match dim
      case DateDim => r.(date := d)
      case CompanyDim => r.(company := d)
      case EntityDim => r.(entity := d)
      case UnitDim => r.(unit := d)
      case AccountDim => r.(account := d)
      case SubaccountDim => r.(sub := d)
  }

  function Join(rows: seq<Enriched>, dim: Dim, table: seq<DimRow>): seq<Enriched> {
    LeftJoin(rows, table, On(dim), Add(dim))
  }

  /** All joins but the last. */
  function EnrichToAccount(facts: seq<Fact>, dims: Dims): seq<Enriched> {
    Join(Join(Join(Join(Join(Start(facts), DateDim, dims.date), CompanyDim, dims.company), EntityDim, dims.entity),
              UnitDim, dims.unit), AccountDim, dims.account)
  }

  function Enrich(facts: seq<Fact>, dims: Dims): seq<Enriched> {
    Join(EnrichToAccount(facts, dims), SubaccountDim, dims.sub)
  }

  function CoresOf(rows: seq<Enriched>): set<(nat, Fact)> {
    Cores(rows, |rows|, Core())
  }

  lemma JoinKeepsFacts(rows: seq<Enriched>, dim: Dim, table: seq<DimRow>)
    ensures CoresOf(Join(rows, dim, table)) == CoresOf(rows)
  {
    assert Keeps(Add(dim), Core());
    LeftJoinKeepsRows(rows, table, On(dim), Add(dim), Core());
  }

  lemma {:induction false} StartCores(facts: seq<Fact>, n: nat, x: (nat, Fact))
    requires n <= |facts|
    ensures x in Cores(Start(facts), n, Core()) <==> x.0 < n && facts[x.0] == x.1
  {
    if n > 0 {
      StartCores(facts, n - 1, x);
      assert Core()(Start(facts)[n - 1]) == (n - 1, facts[n - 1]);
    }
  }

  /** The joins fan out, but every fact row is still there at least once, and nothing else is. */
  lemma EnrichKeepsFacts(facts: seq<Fact>, dims: Dims, x: (nat, Fact))
    ensures x in CoresOf(Enrich(facts, dims)) <==> x.0 < |facts| && facts[x.0] == x.1
  {
    var r0 := Start(facts);
    var r1 := Join(r0, DateDim, dims.date);
    var r2 := Join(r1, CompanyDim, dims.company);
    var r3 := Join(r2, EntityDim, dims.entity);
    var r4 := Join(r3, UnitDim, dims.unit);
    var r5 := Join(r4, AccountDim, dims.account);
    JoinKeepsFacts(r0, DateDim, dims.date);
    JoinKeepsFacts(r1, CompanyDim, dims.company);
    JoinKeepsFacts(r2, EntityDim, dims.entity);
    JoinKeepsFacts(r3, UnitDim, dims.unit);
    JoinKeepsFacts(r4, AccountDim, dims.account);
    JoinKeepsFacts(r5, SubaccountDim, dims.sub);
    StartCores(facts, |facts|, x);
  }

  // ---- one row per partition -----------------------------------------------------------

  type LineKey = seq<Option<string>>

  /** PARTITION BY puts NULLs together. */
  function KeyOf(f: Fact): LineKey {
    [Col(f.cols, "tenant_id"), Col(f.cols, "batch_number"), Col(f.cols, "ref_number"), Col(f.cols, "line_number")]
  }

  /** Both rows have the same value in the column, or neither has one. */
  predicate SameOrBothNull(a: map<string, string>, b: map<string, string>, c: string) {
    (c in a <==> c in b) && (c in a ==> a[c] == b[c])
  }

  /** Two postings the result must not tell apart: one tenant, batch, reference and line, NULL with NULL. */
  predicate SameLine(f: Fact, g: Fact) {
    && SameOrBothNull(f.cols, g.cols, "tenant_id") && SameOrBothNull(f.cols, g.cols, "batch_number")
    && SameOrBothNull(f.cols, g.cols, "ref_number") && SameOrBothNull(f.cols, g.cols, "line_number")
  }

  /** The window's partitions are these lines. */
  lemma PartitionIsLine(f: Fact, g: Fact)
    ensures KeyOf(f) == KeyOf(g) <==> SameLine(f, g)
  {
    var x, y := KeyOf(f), KeyOf(g);
    assert x == y <==> x[0] == y[0] && x[1] == y[1] && x[2] == y[2] && x[3] == y[3];
  }

  function MatchRank(r: Enriched): nat {
    if SqlEq(OptCol(r.sub, "subaccount_number"), Col(r.fact.cols, "subaccount_id")) then 0 else 1
  }

  /** NULLs come first in ascending order and last in descending order. */
  predicate AscLe(a: Option<string>, b: Option<string>) {
    a.None? || (b.Some? && Le(a.value, b.value))
  }

  /** The window's ORDER BY: matching number first, then latest modification, then smallest id. */
  predicate NotBehind(r: Enriched, s: Enriched) {
    || MatchRank(r) < MatchRank(s)
    || (MatchRank(r) == MatchRank(s)
        && AscLe(OptCol(s.sub, "last_modified_at"), OptCol(r.sub, "last_modified_at"))
        && (OptCol(s.sub, "last_modified_at") == OptCol(r.sub, "last_modified_at") ==>
          AscLe(OptCol(r.sub, "subaccount_id"), OptCol(s.sub, "subaccount_id"))))
  }

  ghost predicate HasRow(out: seq<Enriched>, key: LineKey) {
    exists k :: 0 <= k < |out| && KeyOf(out[k].fact) == key
  }

  /** A result of `WHERE subaccount_match_rank = 1`: of every partition one row that no other is ahead of. */
  ghost predicate RankOne(rows: seq<Enriched>, out: seq<Enriched>) {
    && (forall o :: o in out ==> o in rows && forall r :: r in rows && KeyOf(r.fact) == KeyOf(o.fact) ==>
      NotBehind(o, r))
    && (forall r :: r in rows ==> HasRow(out, KeyOf(r.fact)))
    && (forall k, l :: 0 <= k < l < |out| ==> KeyOf(out[k].fact) != KeyOf(out[l].fact))
  }

  /** The fact rows the result rows stand for. */
  ghost predicate StandsFor(out: seq<Enriched>, facts: seq<Fact>) {
    forall k :: 0 <= k < |out| ==> out[k].at < |facts| && out[k].fact == facts[out[k].at]
  }

  lemma ResultStandsForFacts(facts: seq<Fact>, dims: Dims, out: seq<Enriched>)
    requires RankOne(Enrich(facts, dims), out)
    ensures StandsFor(out, facts)
  {
    var rows := Enrich(facts, dims);
    forall k | 0 <= k < |out| ensures out[k].at < |facts| && out[k].fact == facts[out[k].at] {
      assert out[k] in rows;
      var i :| 0 <= i < |rows| && rows[i] == out[k];
      CoreOfRow(rows, |rows|, Core(), i);
      EnrichKeepsFacts(facts, dims, (out[k].at, out[k].fact));
    }
  }

  /** Every line of the ledger has exactly one row in the result, which stands for one of its postings. */
  lemma EveryLineHasOneRow(facts: seq<Fact>, dims: Dims, out: seq<Enriched>, i: nat) returns (k: nat)
    requires RankOne(Enrich(facts, dims), out) && i < |facts|
    ensures k < |out| && out[k].at < |facts| && out[k].fact == facts[out[k].at] && SameLine(out[k].fact, facts[i])
    ensures forall l :: 0 <= l < |out| && l != k ==> !SameLine(out[l].fact, facts[i])
  {
    k := EveryKeyHasARow(facts, dims, out, i);
    ResultStandsForFacts(facts, dims, out);
    PartitionIsLine(out[k].fact, facts[i]);
    forall l | 0 <= l < |out| && l != k ensures !SameLine(out[l].fact, facts[i]) {
      PartitionIsLine(out[l].fact, facts[i]);
      assert KeyOf(out[l].fact) != KeyOf(out[k].fact) by {
        assert l < k || k < l;
      }
    }
  }

  lemma EveryKeyHasARow(facts: seq<Fact>, dims: Dims, out: seq<Enriched>, i: nat) returns (k: nat)
    requires RankOne(Enrich(facts, dims), out) && i < |facts|
    ensures k < |out| && KeyOf(out[k].fact) == KeyOf(facts[i])
  {
    var rows := Enrich(facts, dims);
    EnrichKeepsFacts(facts, dims, (i, facts[i]));
    var j := RowOfCore(rows, |rows|, Core(), (i, facts[i]));
    assert rows[j] in rows && HasRow(out, KeyOf(rows[j].fact));
    k :| 0 <= k < |out| && KeyOf(out[k].fact) == KeyOf(rows[j].fact);
  }

  function Origins(out: seq<Enriched>): (p: seq<nat>)
    ensures |p| == |out|
  {
    seq(|out|, k requires 0 <= k < |out| => out[k].at)
  }

  ghost predicate LinesAreUnique(facts: seq<Fact>) {
    forall i, j :: 0 <= i < j < |facts| ==> !SameLine(facts[i], facts[j])
  }

  ghost predicate KeyIsUnique(facts: seq<Fact>) {
    forall i, j :: 0 <= i < j < |facts| ==> KeyOf(facts[i]) != KeyOf(facts[j])
  }

  lemma UniqueKeysAreUniqueLines(facts: seq<Fact>)
    ensures KeyIsUnique(facts) <==> LinesAreUnique(facts)
  {
    forall i, j | 0 <= i < j < |facts| ensures KeyOf(facts[i]) == KeyOf(facts[j]) <==> SameLine(facts[i], facts[j]) {
      PartitionIsLine(facts[i], facts[j]);
    }
  }

  lemma OriginsDistinct(facts: seq<Fact>, dims: Dims, out: seq<Enriched>)
    requires RankOne(Enrich(facts, dims), out)
    ensures StandsFor(out, facts) && DistinctBelow(Origins(out), |facts|)
  {
    ResultStandsForFacts(facts, dims, out);
    forall k, l | 0 <= k < l < |out| ensures out[k].at != out[l].at {
      assert KeyOf(out[k].fact) != KeyOf(out[l].fact);
    }
  }

  lemma UniqueKeysAllPresent(facts: seq<Fact>, dims: Dims, out: seq<Enriched>)
    requires RankOne(Enrich(facts, dims), out) && KeyIsUnique(facts)
    ensures forall i: nat :: i < |facts| ==> i in Origins(out)
  {
    ResultStandsForFacts(facts, dims, out);
    forall i: nat | i < |facts| ensures i in Origins(out) {
      var k := EveryKeyHasARow(facts, dims, out, i);
      assert out[k].at == i;
      assert Origins(out)[k] == i;
    }
  }

  /** Two ledger rows of one key are never both in the result. */
  lemma OnlyOneOf(facts: seq<Fact>, out: seq<Enriched>, i: nat, j: nat)
    requires i < j < |facts| && KeyOf(facts[i]) == KeyOf(facts[j]) && StandsFor(out, facts)
    requires forall k, l :: 0 <= k < l < |out| ==> KeyOf(out[k].fact) != KeyOf(out[l].fact)
    ensures i !in Origins(out) || j !in Origins(out)
  {
    forall k, l | 0 <= k < |out| && 0 <= l < |out| ensures !(out[k].at == i && out[l].at == j) {
      if k < l {
        assert KeyOf(out[k].fact) != KeyOf(out[l].fact);
      } else if l < k {
        assert KeyOf(out[l].fact) != KeyOf(out[k].fact);
      }
    }
  }

  /** The result has as many rows as the ledger exactly when no two postings of the ledger are of one line. */
  lemma RowsConservedIffLinesUnique(facts: seq<Fact>, dims: Dims, out: seq<Enriched>)
    requires RankOne(Enrich(facts, dims), out)
    ensures |out| <= |facts|
    ensures |out| == |facts| <==> LinesAreUnique(facts)
  {
    UniqueKeysAreUniqueLines(facts);
    OriginsDistinct(facts, dims, out);
    AtMost(Origins(out), |facts|);
    if KeyIsUnique(facts) {
      UniqueKeysAllPresent(facts, dims, out);
      AllPresent(Origins(out), |facts|);
    } else {
      var i: nat, j: nat :| i < j < |facts| && KeyOf(facts[i]) == KeyOf(facts[j]);
      OnlyOneOf(facts, out, i, j);
      assert exists m: nat :: m < |facts| && m !in Origins(out);
    }
  }

  /** The amount of the fact row at a position. */
  function AmountAt(facts: seq<Fact>, product: (real, real) -> Option<real>): nat -> real {
    (i: nat) => if i < |facts| && AmountNok(facts[i], product).Some? then AmountNok(facts[i], product).value else 0.0
  }

  function ResultSum(out: seq<Enriched>, n: nat, product: (real, real) -> Option<real>): real
    requires n <= |out|
  {
    if n == 0 then 0.0
    else ResultSum(out, n - 1, product) + if AmountNok(out[n - 1].fact, product).Some?
      then AmountNok(out[n - 1].fact, product).value else 0.0
  }

  lemma {:induction false} ResultSumIsSumAt(facts: seq<Fact>, out: seq<Enriched>, n: nat,
                                            product: (real, real) -> Option<real>)
    requires n <= |out| && StandsFor(out, facts)
    ensures ResultSum(out, n, product) == SumAt(Origins(out), n, AmountAt(facts, product))
  {
    if n > 0 {
      ResultSumIsSumAt(facts, out, n - 1, product);
    }
  }

  /**
   * On any ledger the result's `amount_nok` and the amounts of the postings the window drops add up to the ledger's,
   * whatever the joins' fan-out and whichever tied row the window picks.
   */
  lemma LedgerIsResultPlusDropped(facts: seq<Fact>, dims: Dims, out: seq<Enriched>,
                                  product: (real, real) -> Option<real>)
    requires RankOne(Enrich(facts, dims), out)
    ensures ResultSum(out, |out|, product) + SumOutside(Origins(out), |facts|, AmountAt(facts, product))
            == SumTo(|facts|, AmountAt(facts, product))
  {
    OriginsDistinct(facts, dims, out);
    SumSplits(Origins(out), |facts|, AmountAt(facts, product));
    ResultSumIsSumAt(facts, out, |out|, product);
  }

  /** Money is conserved: if no two postings are of one line, nothing is dropped. */
  lemma MoneyConserved(facts: seq<Fact>, dims: Dims, out: seq<Enriched>, product: (real, real) -> Option<real>)
    requires RankOne(Enrich(facts, dims), out) && LinesAreUnique(facts)
    ensures ResultSum(out, |out|, product) == SumTo(|facts|, AmountAt(facts, product))
  {
    UniqueKeysAreUniqueLines(facts);
    LedgerIsResultPlusDropped(facts, dims, out, product);
    UniqueKeysAllPresent(facts, dims, out);
    NothingOutside(Origins(out), |facts|, AmountAt(facts, product));
  }

  /** Of the postings of one line, in any ledger, exactly one is counted, and all others are dropped. */
  lemma RepeatedPostingCountedOnce(facts: seq<Fact>, dims: Dims, out: seq<Enriched>, i: nat) returns (kept: nat)
    requires RankOne(Enrich(facts, dims), out) && i < |facts|
    ensures kept < |facts| && kept in Origins(out) && SameLine(facts[kept], facts[i])
    ensures forall j: nat :: j < |facts| && j != kept && SameLine(facts[j], facts[i]) ==> j !in Origins(out)
  {
    ResultStandsForFacts(facts, dims, out);
    var k := EveryKeyHasARow(facts, dims, out, i);
    kept := out[k].at;
    assert Origins(out)[k] == kept;
    PartitionIsLine(facts[kept], facts[i]);
    forall j: nat | j < |facts| && j != kept && SameLine(facts[j], facts[i]) ensures j !in Origins(out) {
      PartitionIsLine(facts[j], facts[i]);
      if j < kept {
        OnlyOneOf(facts, out, j, kept);
      } else {
        OnlyOneOf(facts, out, kept, j);
      }
    }
  }

  // ---- a result always exists ----------------------------------------------------------

  lemma AscTotal(a: Option<string>, b: Option<string>)
    ensures AscLe(a, a) && (AscLe(a, b) || AscLe(b, a)) && (AscLe(a, b) && AscLe(b, a) ==> a == b)
  {
    if a.Some? { LeTotal(a.value, a.value); }
    if a.Some? && b.Some? { LeTotal(a.value, b.value); }
  }

  lemma AscTransitive(a: Option<string>, b: Option<string>, c: Option<string>)
    requires AscLe(a, b) && AscLe(b, c)
    ensures AscLe(a, c)
  {
    if a.Some? { LeTransitive(a.value, b.value, c.value); }
  }

  lemma NotBehindTotal(r: Enriched, s: Enriched)
    ensures NotBehind(r, r) && (NotBehind(r, s) || NotBehind(s, r))
  {
    AscTotal(OptCol(r.sub, "last_modified_at"), OptCol(s.sub, "last_modified_at"));
    AscTotal(OptCol(r.sub, "subaccount_id"), OptCol(s.sub, "subaccount_id"));
  }

  lemma NotBehindTransitive(r: Enriched, s: Enriched, t: Enriched)
    requires NotBehind(r, s) && NotBehind(s, t)
    ensures NotBehind(r, t)
  {
    var a, b, c := OptCol(r.sub, "last_modified_at"), OptCol(s.sub, "last_modified_at"),
        OptCol(t.sub, "last_modified_at");
    var x, y, z := OptCol(r.sub, "subaccount_id"), OptCol(s.sub, "subaccount_id"), OptCol(t.sub, "subaccount_id");
    if MatchRank(r) == MatchRank(s) == MatchRank(t) {
      AscTransitive(c, b, a);
      AscTotal(a, b);
      AscTotal(b, c);
      if a == b == c { AscTransitive(x, y, z); }
    }
  }

  /** A row no row of its partition is ahead of. */
  lemma {:induction false} FirstOfPartition(rows: seq<Enriched>, n: nat, key: LineKey) returns (m: int)
    requires n <= |rows|
    ensures if m < 0 then forall i :: 0 <= i < n ==> KeyOf(rows[i].fact) != key
            else m < n && KeyOf(rows[m].fact) == key && forall i :: 0 <= i < n && KeyOf(rows[i].fact) == key ==>
              NotBehind(rows[m], rows[i])
  {
    m := -1;
    if n > 0 {
      m := FirstOfPartition(rows, n - 1, key);
      var last := rows[n - 1];
      NotBehindTotal(last, last);
      if KeyOf(last.fact) == key {
        if m < 0 {
          m := n - 1;
        } else {
          var best := rows[m];
          NotBehindTotal(best, last);
          if !NotBehind(best, last) {
            forall i | 0 <= i < n - 1 && KeyOf(rows[i].fact) == key ensures NotBehind(last, rows[i]) {
              NotBehindTransitive(last, best, rows[i]);
            }
            m := n - 1;
          }
        }
      }
    }
  }

  /** The first `n` rows' partitions each have their row in `out`. */
  ghost predicate Ranked(rows: seq<Enriched>, n: nat, out: seq<Enriched>)
    requires n <= |rows|
  {
    && (forall o :: o in out ==> o in rows && forall r :: r in rows && KeyOf(r.fact) == KeyOf(o.fact) ==>
      NotBehind(o, r))
    && (forall i :: 0 <= i < n ==> HasRow(out, KeyOf(rows[i].fact)))
    && (forall k, l :: 0 <= k < l < |out| ==> KeyOf(out[k].fact) != KeyOf(out[l].fact))
  }

  lemma {:induction false} RankedExists(rows: seq<Enriched>, n: nat) returns (out: seq<Enriched>)
    requires n <= |rows|
    ensures Ranked(rows, n, out)
  {
    out := [];
    if n > 0 {
      out := RankedExists(rows, n - 1);
      var key := KeyOf(rows[n - 1].fact);
      if !HasRow(out, key) {
        var m := FirstOfPartition(rows, |rows|, key);
        assert m >= 0 && rows[m] in rows;
        out := RankOneMore(rows, n, out, rows[m]);
      }
    }
  }

  lemma RankOneMore(rows: seq<Enriched>, n: nat, out: seq<Enriched>, o: Enriched) returns (more: seq<Enriched>)
    requires 0 < n <= |rows| && Ranked(rows, n - 1, out)
    requires o in rows && KeyOf(o.fact) == KeyOf(rows[n - 1].fact)
    requires forall i :: 0 <= i < |rows| && KeyOf(rows[i].fact) == KeyOf(o.fact) ==> NotBehind(o, rows[i])
    requires forall k :: 0 <= k < |out| ==> KeyOf(out[k].fact) != KeyOf(o.fact)
    ensures Ranked(rows, n, more)
  {
    more := out + [o];
    forall i | 0 <= i < n ensures HasRow(more, KeyOf(rows[i].fact)) {
      if i < n - 1 {
        assert HasRow(out, KeyOf(rows[i].fact));
        var k :| 0 <= k < |out| && KeyOf(out[k].fact) == KeyOf(rows[i].fact);
        assert more[k] == out[k];
      } else {
        assert more[|out|] == o;
      }
    }
  }

  /** Some row order resolves every tie: the query has a result on every input. */
  lemma ResultExists(facts: seq<Fact>, dims: Dims) returns (out: seq<Enriched>)
    ensures RankOne(Enrich(facts, dims), out)
  {
    var rows := Enrich(facts, dims);
    out := RankedExists(rows, |rows|);
    forall r | r in rows ensures HasRow(out, KeyOf(r.fact)) {
      var i :| 0 <= i < |rows| && rows[i] == r;
    }
  }

  // ---- which dimension rows a result row shows -----------------------------------------

  /** Column `c` of the dimension row equals column `e` of the other; NULL equals nothing. */
  predicate Agree(d: DimRow, c: string, row: map<string, string>, e: string) {
    c in d && e in row && d[c] == row[e]
  }

  predicate IdMatches(f: Fact, d: DimRow) {
    Agree(d, "tenant_id", f.cols, "tenant_id") && Agree(d, "subaccount_id", f.cols, "subaccount_id")
  }

  predicate NumberMatches(f: Fact, d: DimRow) {
    Agree(d, "tenant_id", f.cols, "tenant_id") && Agree(d, "subaccount_number", f.cols, "subaccount_id")
  }

  /** What the ON clause of each join asks for. */
  predicate Fits(dim: Dim, f: Fact, company: Option<DimRow>, d: DimRow) {
    match dim
    case DateDim => Agree(d, "date_key", f.cols, "date_key")
    case CompanyDim => Agree(d, "company_key", f.cols, "company_key")
    case EntityDim => company.Some? && Agree(d, "entity_code", company.value, "entity_code")
    case UnitDim =>
      Agree(d, "tenant_id", f.cols, "tenant_id") && Agree(d, "business_unit_id", f.cols, "business_unit_id")
    case AccountDim => Agree(d, "account_key", f.cols, "account_key")
    case SubaccountDim => IdMatches(f, d) || NumberMatches(f, d)
  }

  lemma OnMeansFits(dim: Dim, r: Enriched, d: DimRow)
    ensures On(dim)(r, d) <==> Fits(dim, r.fact, r.company, d)
  {
  }

  /** A dimension row shown is in its table and fits; none is shown only if none fits. */
  ghost predicate Shows(o: Enriched, dim: Dim, shown: Option<DimRow>, table: seq<DimRow>) {
    if shown.Some? then shown.value in table && Fits(dim, o.fact, o.company, shown.value)
    else forall d :: d in table ==> !Fits(dim, o.fact, o.company, d)
  }

  lemma JoinShows(rows: seq<Enriched>, dim: Dim, table: seq<DimRow>, o: Enriched)
    returns (r: Enriched, d: Option<DimRow>)
    requires o in Join(rows, dim, table)
    ensures r in rows && o == Add(dim)(r, d) && Shows(r, dim, d, table)
  {
    var i;
    i, d := LeftJoinIsMatch(rows, table, On(dim), Add(dim), o);
    r := rows[i];
    forall x ensures On(dim)(r, x) <==> Fits(dim, r.fact, r.company, x) {
      OnMeansFits(dim, r, x);
    }
  }

  /** Every row shows, for its posting, a date, company, unit, account and subaccount that fit, and its entity. */
  lemma DimensionsAreGenuine(facts: seq<Fact>, dims: Dims, o: Enriched)
    requires o in Enrich(facts, dims)
    ensures Shows(o, DateDim, o.date, dims.date) && Shows(o, CompanyDim, o.company, dims.company)
    ensures Shows(o, EntityDim, o.entity, dims.entity) && Shows(o, UnitDim, o.unit, dims.unit)
    ensures Shows(o, AccountDim, o.account, dims.account) && Shows(o, SubaccountDim, o.sub, dims.sub)
  {
    var r1 := Join(Start(facts), DateDim, dims.date);
    var r2 := Join(r1, CompanyDim, dims.company);
    var r3 := Join(r2, EntityDim, dims.entity);
    var r4 := Join(r3, UnitDim, dims.unit);
    var r5 := Join(r4, AccountDim, dims.account);
    var o5, d6 := JoinShows(r5, SubaccountDim, dims.sub, o);
    var o4, d5 := JoinShows(r4, AccountDim, dims.account, o5);
    var o3, d4 := JoinShows(r3, UnitDim, dims.unit, o4);
    var o2, d3 := JoinShows(r2, EntityDim, dims.entity, o3);
    var o1, d2 := JoinShows(r1, CompanyDim, dims.company, o2);
    var o0, d1 := JoinShows(Start(facts), DateDim, dims.date, o1);
  }

  /** The joined row of the same posting with another subaccount that fits. */
  lemma OtherMatchIsJoined(facts: seq<Fact>, dims: Dims, o: Enriched, d: DimRow)
    requires o in Enrich(facts, dims) && d in dims.sub && Fits(SubaccountDim, o.fact, o.company, d)
    ensures o.(sub := Some(d)) in Enrich(facts, dims)
  {
    var rows := EnrichToAccount(facts, dims);
    var i, was := LeftJoinIsMatch(rows, dims.sub, On(SubaccountDim), Add(SubaccountDim), o);
    OnMeansFits(SubaccountDim, rows[i], d);
    LeftJoinHasMatch(rows, dims.sub, On(SubaccountDim), Add(SubaccountDim), i, d);
    assert Add(SubaccountDim)(rows[i], Some(d)) == o.(sub := Some(d));
  }

  /**
   * Of the subaccounts that fit a posting none beats the one shown: a number match beats an id match, then the later
   * modification wins, a missing one being earliest, then the smaller id, a missing one being smallest.
   */
  lemma BestSubaccountIsShown(facts: seq<Fact>, dims: Dims, out: seq<Enriched>, k: nat, d: DimRow)
    requires RankOne(Enrich(facts, dims), out) && k < |out|
    requires d in dims.sub && (IdMatches(out[k].fact, d) || NumberMatches(out[k].fact, d))
    ensures out[k].sub.Some?
    ensures var f, s := out[k].fact, out[k].sub.value;
      && (NumberMatches(f, d) ==> NumberMatches(f, s))
      && (NumberMatches(f, d) == NumberMatches(f, s) ==>
            && ("last_modified_at" in d ==> "last_modified_at" in s && Le(d["last_modified_at"], s["last_modified_at"]))
            && (SameOrBothNull(d, s, "last_modified_at") && "subaccount_id" in s ==>
                  "subaccount_id" in d && Le(s["subaccount_id"], d["subaccount_id"])))
  {
    var o := out[k];
    assert o in out && o in Enrich(facts, dims);
    DimensionsAreGenuine(facts, dims, o);
    OtherMatchIsJoined(facts, dims, o, d);
    var other := o.(sub := Some(d));
    assert KeyOf(other.fact) == KeyOf(o.fact) && NotBehind(o, other);
    RankMeansNumberMatch(o);
    RankMeansNumberMatch(other);
  }

  lemma RankMeansNumberMatch(o: Enriched)
    requires o.sub.Some? && (IdMatches(o.fact, o.sub.value) || NumberMatches(o.fact, o.sub.value))
    ensures MatchRank(o) == if NumberMatches(o.fact, o.sub.value) then 0 else 1
  {
  }
}
