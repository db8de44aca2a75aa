/**
 * Xero report trees and their long form: one flat row per data cell. `Places` lists where the data
 * cells are; `FactAt` says what a flat row must record about the cell at one place.
 */
module ReportFlatten {
  import opened Text
  import opened Blocks
  import opened LatestPerKey
  import opened KeyedMerge
  import opened Upsert

  datatype Attribute = Attribute(id: Option<string>, value: Option<string>)
  datatype Cell = Cell(value: Option<string>, attributes: seq<Attribute>)
  datatype Node = Node(rowType: Option<string>, title: Option<string>, cells: seq<Cell>, rows: seq<Node>)

  /** `row` is -1 for a data row that stands at top level, outside any section. */
  datatype Place = Place(section: int, row: int, cell: int)

  datatype FlatCell = FlatCell(
    reportIndex: nat, place: Place, sectionTitle: Option<string>, rowType: Option<string>, rowLabel: Option<string>,
    columnHeader: Option<string>, value: Option<string>,
    attributeId: Option<string>, attributeValue: Option<string>, attributes: seq<Attribute>)

  // ---- what has to come out ----------------------------------------------------

  /** The data row a section index and a row index point at. */
  function RowAt(rows: seq<Node>, section: int, row: int): Option<Node> {
    if !(0 <= section < |rows|) || rows[section].rowType == Some("Header") then None
    else if rows[section].rowType == Some("Section") then
      if 0 <= row < |rows[section].rows| then Some(rows[section].rows[row]) else None
    else if row == -1 then Some(rows[section])
    else None
  }

  predicate Located(rows: seq<Node>, p: Place) {
    RowAt(rows, p.section, p.row).Some? && 0 <= p.cell < |RowAt(rows, p.section, p.row).value.cells|
  }

  /** The label of a column: that of the last header row that has it. */
  function LabelAt(rows: seq<Node>, n: nat, column: int): Option<string>
    requires n <= |rows|
  {
    if n == 0 then None
    else if rows[n - 1].rowType == Some("Header") && 0 <= column < |rows[n - 1].cells|
      then rows[n - 1].cells[column].value
    else LabelAt(rows, n - 1, column)
  }

  /** Row `h` is a header row that has the column. */
  predicate Labels(rows: seq<Node>, h: int, column: int) {
    0 <= h < |rows| && rows[h].rowType == Some("Header") && 0 <= column < |rows[h].cells|
  }

  /**
   * A later header row overrides an earlier one, but only for the columns it has: if `h` is the last with the column,
   * the label is its cell, and there is none if no header row has the column, for which `h` is -1.
   */
  lemma {:induction false} LastHeaderLabels(rows: seq<Node>, n: nat, column: int, h: int)
    requires n <= |rows| && -1 <= h < n && (h >= 0 ==> Labels(rows, h, column))
    requires forall g :: h < g < n ==> !Labels(rows, g, column)
    ensures LabelAt(rows, n, column) == if h < 0 then None else rows[h].cells[column].value
  {
    if h < n - 1 {
      assert !Labels(rows, n - 1, column);
      LastHeaderLabels(rows, n - 1, column, h);
    }
  }

  function FirstAttribute(cell: Cell): (Option<string>, Option<string>) {
    if cell.attributes == [] then (None, None) else (cell.attributes[0].id, cell.attributes[0].value)
  }

  function FactAt(rows: seq<Node>, reportIndex: nat, p: Place): FlatCell
    requires Located(rows, p)
  {
    var row := RowAt(rows, p.section, p.row).value;
    var cell := row.cells[p.cell];
    FlatCell(reportIndex, p, if p.row == -1 then None else rows[p.section].title, row.rowType, row.cells[0].value,
             LabelAt(rows, |rows|, p.cell), cell.value, FirstAttribute(cell).0, FirstAttribute(cell).1, cell.attributes)
  }

  function RowPlaces(row: Node, section: int, index: int): (ps: seq<Place>) {
    seq(|row.cells|, c => Place(section, index, c))
  }

  function InnerPlaces(inner: seq<Node>, n: nat, section: int): seq<Place>
    requires n <= |inner|
  {
    if n == 0 then [] else InnerPlaces(inner, n - 1, section) + RowPlaces(inner[n - 1], section, n - 1)
  }

  function SectionPlaces(row: Node, section: int): seq<Place> {
    if row.rowType == Some("Header") then []
    else if row.rowType == Some("Section") then InnerPlaces(row.rows, |row.rows|, section)
    else RowPlaces(row, section, -1)
  }

  /** The places of the data cells under the first `n` top-level rows, in reading order. */
  function Places(rows: seq<Node>, n: nat): seq<Place>
    requires n <= |rows|
  {
    if n == 0 then [] else Places(rows, n - 1) + SectionPlaces(rows[n - 1], n - 1)
  }

  // ---- the walk ------------------------------------------------------------------

  function Get(labels: map<nat, Option<string>>, column: nat): Option<string> {
    if column in labels then labels[column] else None
  }

  method HeaderLabels(rows: seq<Node>) returns (labels: map<nat, Option<string>>)
    ensures forall c: nat :: Get(labels, c) == LabelAt(rows, |rows|, c)
  {
    labels := map[];
    for s := 0 to |rows|
      invariant forall c: nat :: Get(labels, c) == LabelAt(rows, s, c)
    {
      if rows[s].rowType == Some("Header") {
        for i := 0 to |rows[s].cells|
          invariant forall c: nat :: Get(labels, c) == if c < i then rows[s].cells[c].value else LabelAt(rows, s, c)
        {
          labels := labels[i := rows[s].cells[i].value];
        }
      }
    }
  }

  /** The flat rows record exactly the cells at `ps`, in that order. */
  ghost predicate Records(flat: seq<FlatCell>, rows: seq<Node>, reportIndex: nat, ps: seq<Place>) {
    |flat| == |ps| && forall n :: 0 <= n < |ps| ==> Located(rows, ps[n]) && flat[n] == FactAt(rows, reportIndex, ps[n])
  }

  method EmitDataRow(ghost rows: seq<Node>, dataRow: Node, section: int, title: Option<string>, index: int,
                     labels: map<nat, Option<string>>, reportIndex: nat) returns (flat: seq<FlatCell>)
    requires RowAt(rows, section, index) == Some(dataRow)
        && (title == if index == -1 then None else rows[section].title)
    requires forall c: nat :: Get(labels, c) == LabelAt(rows, |rows|, c)
    ensures Records(flat, rows, reportIndex, RowPlaces(dataRow, section, index))
  {
    flat := [];
    var rowLabel := if dataRow.cells == [] then None else dataRow.cells[0].value;
    for c := 0 to |dataRow.cells|
      invariant |flat| == c
      invariant forall n :: 0 <= n < c ==> flat[n] == FactAt(rows, reportIndex, Place(section, index, n))
    {
      var cell := dataRow.cells[c];
      var first := FirstAttribute(cell);
      flat := flat + [FlatCell(reportIndex, Place(section, index, c), title, dataRow.rowType, rowLabel, Get(labels, c),
                               cell.value, first.0, first.1, cell.attributes)];
    }
  }

  lemma RecordsJoin(flat: seq<FlatCell>, more: seq<FlatCell>, rows: seq<Node>, reportIndex: nat, ps: seq<Place>,
                    qs: seq<Place>)
    requires Records(flat, rows, reportIndex, ps) && Records(more, rows, reportIndex, qs)
    ensures Records(flat + more, rows, reportIndex, ps + qs)
  {
  }

  method EmitSection(ghost rows: seq<Node>, section: nat, row: Node, labels: map<nat, Option<string>>, reportIndex: nat)
    returns (flat: seq<FlatCell>)
    requires section < |rows| && row == rows[section] && row.rowType == Some("Section")
    requires forall c: nat :: Get(labels, c) == LabelAt(rows, |rows|, c)
    ensures Records(flat, rows, reportIndex, InnerPlaces(row.rows, |row.rows|, section))
  {
    flat := [];
    for r := 0 to |row.rows|
      invariant Records(flat, rows, reportIndex, InnerPlaces(row.rows, r, section))
    {
      var emitted := EmitDataRow(rows, row.rows[r], section, row.title, r, labels, reportIndex);
      RecordsJoin(flat, emitted, rows, reportIndex, InnerPlaces(row.rows, r, section),
        RowPlaces(row.rows[r], section, r));
      flat := flat + emitted;
    }
  }

  /** `_flatten_report_rows`: one flat row for every data cell, each recording its own cell. */
  method FlattenReportRows(rows: seq<Node>, reportIndex: nat) returns (flat: seq<FlatCell>)
    ensures Records(flat, rows, reportIndex, Places(rows, |rows|))
  {
    var labels := HeaderLabels(rows);
    flat := [];
    for s := 0 to |rows|
      invariant Records(flat, rows, reportIndex, Places(rows, s))
    {
      var row := rows[s];
      if row.rowType == Some("Header") {
        continue;
      }
      var emitted;
      if row.rowType == Some("Section") {
        emitted := EmitSection(rows, s, row, labels, reportIndex);
      } else {
        emitted := EmitDataRow(rows, row, s, None, -1, labels, reportIndex);
      }
      RecordsJoin(flat, emitted, rows, reportIndex, Places(rows, s), SectionPlaces(row, s));
      flat := flat + emitted;
    }
  }

  // ---- nothing twice, nothing lost -----------------------------------------------

  predicate PlaceBefore(p: Place, q: Place) {
    p.section < q.section || (p.section == q.section && (p.row < q.row || (p.row == q.row && p.cell < q.cell)))
  }

  ghost predicate Increasing(ps: seq<Place>) {
    forall i, j :: 0 <= i < j < |ps| ==> PlaceBefore(ps[i], ps[j])
  }

  lemma IncreasingJoin(ps: seq<Place>, qs: seq<Place>)
    requires Increasing(ps) && Increasing(qs) && forall i, j :: 0 <= i < |ps| && 0 <= j < |qs| ==>
        PlaceBefore(ps[i], qs[j])
    ensures Increasing(ps + qs)
  {
  }

  lemma {:induction false} InnerPlacesIncrease(inner: seq<Node>, n: nat, section: int)
    requires n <= |inner|
    ensures Increasing(InnerPlaces(inner, n, section))
    ensures forall i :: 0 <= i < |InnerPlaces(inner, n, section)| ==>
      InnerPlaces(inner, n, section)[i].section == section && InnerPlaces(inner, n, section)[i].row < n
  {
    if n > 0 {
      InnerPlacesIncrease(inner, n - 1, section);
      IncreasingJoin(InnerPlaces(inner, n - 1, section), RowPlaces(inner[n - 1], section, n - 1));
    }
  }

  lemma SectionPlacesIncrease(row: Node, section: int)
    ensures Increasing(SectionPlaces(row, section))
    ensures forall i :: 0 <= i < |SectionPlaces(row, section)| ==> SectionPlaces(row, section)[i].section == section
  {
    InnerPlacesIncrease(row.rows, |row.rows|, section);
  }

  /** Places are visited in strictly increasing (section, row, cell) order: no two flat rows share one. */
  lemma {:induction false} PlacesIncrease(rows: seq<Node>, n: nat)
    requires n <= |rows|
    ensures Increasing(Places(rows, n))
    ensures forall i :: 0 <= i < |Places(rows, n)| ==> Places(rows, n)[i].section < n
  {
    if n > 0 {
      PlacesIncrease(rows, n - 1);
      SectionPlacesIncrease(rows[n - 1], n - 1);
      IncreasingJoin(Places(rows, n - 1), SectionPlaces(rows[n - 1], n - 1));
    }
  }

  lemma {:induction false} InnerPlaceVisited(inner: seq<Node>, n: nat, section: int, p: Place)
    requires n <= |inner| && p.section == section && 0 <= p.row < n && 0 <= p.cell < |inner[p.row].cells|
    ensures p in InnerPlaces(inner, n, section)
  {
    if p.row == n - 1 {
      assert RowPlaces(inner[n - 1], section, n - 1)[p.cell] == p;
    } else {
      InnerPlaceVisited(inner, n - 1, section, p);
    }
  }

  lemma SectionPlaceVisited(rows: seq<Node>, p: Place)
    requires Located(rows, p)
    ensures p in SectionPlaces(rows[p.section], p.section)
  {
    var row := rows[p.section];
    if row.rowType == Some("Section") {
      InnerPlaceVisited(row.rows, |row.rows|, p.section, p);
    } else {
      assert RowPlaces(row, p.section, -1)[p.cell] == p;
    }
  }

  /** The places of every top-level row. */
  function PlaceBlocks(rows: seq<Node>): (blocks: seq<seq<Place>>)
    ensures |blocks| == |rows|
  {
    seq(|rows|, s requires 0 <= s < |rows| => SectionPlaces(rows[s], s))
  }

  lemma {:induction false} PlacesAreJoined(rows: seq<Node>, n: nat)
    requires n <= |rows|
    ensures Places(rows, n) == Joined(PlaceBlocks(rows), n)
  {
    if n > 0 {
      PlacesAreJoined(rows, n - 1);
    }
  }

  /** Every data cell of the tree is visited. */
  lemma EveryPlaceVisited(rows: seq<Node>, p: Place)
    requires Located(rows, p)
    ensures p in Places(rows, |rows|)
  {
    SectionPlaceVisited(rows, p);
    JoinedHas(PlaceBlocks(rows), |rows|, p.section, p);
    PlacesAreJoined(rows, |rows|);
  }

  lemma {:induction false} InnerPlaceIsCell(inner: seq<Node>, n: nat, section: int, p: Place)
    requires n <= |inner| && p in InnerPlaces(inner, n, section)
    ensures p.section == section && 0 <= p.row < n && 0 <= p.cell < |inner[p.row].cells|
  {
    if p !in RowPlaces(inner[n - 1], section, n - 1) {
      InnerPlaceIsCell(inner, n - 1, section, p);
    }
  }

  lemma {:induction false} VisitedPlaceIsCell(rows: seq<Node>, n: nat, p: Place)
    requires n <= |rows| && p in Places(rows, n)
    ensures Located(rows, p) && p.section < n
  {
    if p in SectionPlaces(rows[n - 1], n - 1) {
      if rows[n - 1].rowType == Some("Section") {
        InnerPlaceIsCell(rows[n - 1].rows, |rows[n - 1].rows|, n - 1, p);
      }
    } else {
      VisitedPlaceIsCell(rows, n - 1, p);
    }
  }

  /** Flattening is a bijection: places are visited once each, and they are exactly the places of data cells. */
  lemma FlatteningIsBijective(rows: seq<Node>)
    ensures Increasing(Places(rows, |rows|))
    ensures forall p :: p in Places(rows, |rows|) <==> Located(rows, p)
  {
    PlacesIncrease(rows, |rows|);
    forall p ensures p in Places(rows, |rows|) <==> Located(rows, p) {
      if Located(rows, p) { EveryPlaceVisited(rows, p); }
      if p in Places(rows, |rows|) { VisitedPlaceIsCell(rows, |rows|, p); }
    }
  }

  // ---- cells the walk does not reach ---------------------------------------------

  /** All cells of a list of nodes, at any depth. */
  function CellsIn(nodes: seq<Node>): nat {
    if nodes == [] then 0 else |nodes[0].cells| + CellsIn(nodes[0].rows) + CellsIn(nodes[1..])
  }

  /** All cells of a report that are not column labels. */
  function DataCells(rows: seq<Node>, n: nat): nat
    requires n <= |rows|
  {
    if n == 0 then 0
    else DataCells(rows, n - 1) + CellsIn(rows[n - 1].rows) + if rows[n - 1].rowType == Some("Header") then 0
      else |rows[n - 1].cells|
  }

  predicate Bare(nodes: seq<Node>) {
    forall i :: 0 <= i < |nodes| ==> nodes[i].cells == [] && Bare(nodes[i].rows)
  }

  lemma {:induction false} BareMeansNoCells(nodes: seq<Node>)
    ensures Bare(nodes) <==> CellsIn(nodes) == 0
  {
    if nodes != [] {
      BareMeansNoCells(nodes[0].rows);
      BareMeansNoCells(nodes[1..]);
      assert nodes == [nodes[0]] + nodes[1..];
      assert Bare(nodes) <==> nodes[0].cells == [] && Bare(nodes[0].rows) && Bare(nodes[1..]);
    }
  }

  /** The shape the walk relies on: a section has no cells of its own, and data rows hold no rows with cells. */
  predicate Shallow(row: Node) {
    if row.rowType == Some("Section") then row.cells == [] && forall r :: 0 <= r < |row.rows| ==> Bare(row.rows[r].rows)
    else Bare(row.rows)
  }

  lemma {:induction false} CellsOfPrefix(nodes: seq<Node>, n: nat)
    requires n < |nodes|
    ensures CellsIn(nodes[..n + 1]) == CellsIn(nodes[..n]) + |nodes[n].cells| + CellsIn(nodes[n].rows)
  {
    if n == 0 {
      assert nodes[..1] == [nodes[0]] && nodes[..0] == [];
      assert [nodes[0]][1..] == [];
    } else {
      CellsOfPrefix(nodes[1..], n - 1);
      assert nodes[..n + 1][1..] == nodes[1..][..n] && nodes[..n][1..] == nodes[1..][..n - 1];
    }
  }

  lemma {:induction false} InnerPlacesMissOnlyDeepCells(inner: seq<Node>, n: nat, section: int)
    requires n <= |inner|
    ensures |InnerPlaces(inner, n, section)| <= CellsIn(inner[..n])
    ensures |InnerPlaces(inner, n, section)| == CellsIn(inner[..n]) <==> forall r :: 0 <= r < n ==> Bare(inner[r].rows)
  {
    if n > 0 {
      InnerPlacesMissOnlyDeepCells(inner, n - 1, section);
      CellsOfPrefix(inner, n - 1);
      BareMeansNoCells(inner[n - 1].rows);
    }
  }

  lemma SectionMissesNothingIffShallow(row: Node, section: int)
    ensures var all := CellsIn(row.rows) + if row.rowType == Some("Header") then 0 else |row.cells|;
      |SectionPlaces(row, section)| <= all && (|SectionPlaces(row, section)| == all <==> Shallow(row))
  {
    BareMeansNoCells(row.rows);
    InnerPlacesMissOnlyDeepCells(row.rows, |row.rows|, section);
    assert row.rows[..|row.rows|] == row.rows;
  }

  predicate ShallowUpTo(rows: seq<Node>, n: nat)
    requires n <= |rows|
  {
    n == 0 || (ShallowUpTo(rows, n - 1) && Shallow(rows[n - 1]))
  }

  lemma {:induction false} ShallowUpToMeans(rows: seq<Node>, n: nat)
    requires n <= |rows|
    ensures ShallowUpTo(rows, n) <==> forall s :: 0 <= s < n ==> Shallow(rows[s])
  {
    if n > 0 {
      ShallowUpToMeans(rows, n - 1);
    }
  }

  lemma {:induction false} PlacesMissNothing(rows: seq<Node>, n: nat)
    requires n <= |rows|
    ensures |Places(rows, n)| <= DataCells(rows, n)
    ensures |Places(rows, n)| == DataCells(rows, n) <==> ShallowUpTo(rows, n)
  {
    if n > 0 {
      PlacesMissNothing(rows, n - 1);
      SectionMissesNothingIffShallow(rows[n - 1], n - 1);
    }
  }

  /** No cell of the report is lost exactly when every top-level row has the shape the walk relies on. */
  lemma NoCellLostIffShallow(rows: seq<Node>, n: nat)
    requires n <= |rows|
    ensures |Places(rows, n)| <= DataCells(rows, n)
    ensures |Places(rows, n)| == DataCells(rows, n) <==> forall s :: 0 <= s < n ==> Shallow(rows[s])
  {
    PlacesMissNothing(rows, n);
    ShallowUpToMeans(rows, n);
  }
}
