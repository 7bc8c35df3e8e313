/** The write-path reconciliation of `SmartsheetWriterNode.execute` (writer.py):
    the chunked clear, the reference index, the missing references, and the update
    and new rows built from them. Each step is a specification function; the loops
    of the source are methods proved equal to those functions. */
module Reconcile {
  import opened Wrappers
  import opened Errors
  import opened Coercion
  import opened Sheets

  // ---------------------------------------------------------------------------
  // Clear sheet first

  /** Row ids deleted per `delete_rows` call. */
  const DeleteChunkSize: nat := 300

  /** `[ids[i:i + size] for i in range(0, len(ids), size)]`. */
  function Chunks(ids: seq<RowId>, size: nat): (chunks: seq<seq<RowId>>)
    requires size > 0
    ensures forall k :: 0 <= k < |chunks| ==> 0 < |chunks[k]| <= size
    decreases |ids|
  {
    if ids == [] then []
    else
      var m := Min(size, |ids|);
      [ids[..m]] + Chunks(ids[m..], size)
  }

  /** The concatenation of a list of chunks. */
  function Flatten(chunks: seq<seq<RowId>>): seq<RowId>
  {
    if chunks == [] then [] else chunks[0] + Flatten(chunks[1..])
  }

  /** The delete calls of "Clear sheet first", one per chunk. */
  function ClearCalls(sheetId: string, rows: seq<Row>): (calls: seq<Call>)
    ensures |calls| == |Chunks(RowIds(rows), DeleteChunkSize)|
    ensures forall k :: 0 <= k < |calls| ==>
      calls[k] == DeleteRowsCall(sheetId, Chunks(RowIds(rows), DeleteChunkSize)[k])
  {
    var chunks := Chunks(RowIds(rows), DeleteChunkSize);
    seq(|chunks|, k requires 0 <= k < |chunks| => DeleteRowsCall(sheetId, chunks[k]))
  }

  // ---------------------------------------------------------------------------
  // Reference index

  /** A non-empty cell of the reference column: its value, and the row (and
      the row's position in the sheet) it was found in. */
  datatype RefHit = RefHit(value: Value, at: nat, row: Row)

  /** Is `c` a reference cell, as the nested loop tests it? */
  predicate IsRefCell(c: Cell, refColId: ColumnId)
  {
    c.value != Null && c.columnId == refColId
  }

  /** The reference cells among `cells` (a prefix of the cells of `row`, found at `at`). */
  function RowHits(row: Row, at: nat, cells: seq<Cell>, refColId: ColumnId): seq<RefHit>
  {
    if cells == [] then []
    else
      var c := cells[|cells| - 1];
      RowHits(row, at, cells[..|cells| - 1], refColId)
        + (if IsRefCell(c, refColId) then [RefHit(c.value, at, row)] else [])
  }

  /** The reference cells of the rows, in the order the nested loop visits them. */
  function SheetHits(rows: seq<Row>, refColId: ColumnId): seq<RefHit>
  {
    if rows == [] then []
    else
      var last := rows[|rows| - 1];
      SheetHits(rows[..|rows| - 1], refColId) + RowHits(last, |rows| - 1, last.cells, refColId)
  }

  /** The three collections the loop fills: `output_ref_to_be_synced` (an insertion
      ordered dict, as `keys` and `synced`), `output_data_to_be_synced` (`data`)
      and `output_ref_no_match` (`noMatch`). */
  datatype RefIndex = RefIndex(keys: seq<Value>, synced: map<Value, RowId>,
                               data: map<RowId, Row>, noMatch: seq<Value>)

  const EmptyIndex := RefIndex([], map[], map[], [])

  /** One visit of the inner loop: a reference found in the input is matched to the
      row (a key already present keeps its place and takes the new row id); any
      other reference is recorded as having no match. */
  function AddHit(idx: RefIndex, h: RefHit, refs: seq<Value>): (r: RefIndex)
  {
    if h.value in refs then
      RefIndex(if h.value in idx.synced then idx.keys else idx.keys + [h.value],
               idx.synced[h.value := h.row.id], idx.data[h.row.id := h.row], idx.noMatch)
    else
      idx.(noMatch := idx.noMatch + [h.value])
  }

  /** The index after visiting all of `hits`. */
  function IndexHits(hits: seq<RefHit>, refs: seq<Value>): (idx: RefIndex)
  {
    if hits == [] then EmptyIndex
    else AddHit(IndexHits(hits[..|hits| - 1], refs), hits[|hits| - 1], refs)
  }

  lemma IndexHitsAppend(hits: seq<RefHit>, h: RefHit, refs: seq<Value>)
    ensures IndexHits(hits + [h], refs) == AddHit(IndexHits(hits, refs), h, refs)
  {
    assert (hits + [h])[..|hits|] == hits;
  }

  /** The nested loop over `sheet.rows` and their non-empty cells. */
  method BuildIndex(rows: seq<Row>, refColId: ColumnId, refs: seq<Value>) returns (idx: RefIndex)
    ensures idx == IndexHits(SheetHits(rows, refColId), refs)
  {
    idx := EmptyIndex;
    for i := 0 to |rows|
      invariant idx == IndexHits(SheetHits(rows[..i], refColId), refs)
    {
      var row := rows[i];
      ghost var done := SheetHits(rows[..i], refColId);
      assert row.cells[..0] == [] && done + [] == done;
      for j := 0 to |row.cells|
        invariant idx == IndexHits(done + RowHits(row, i, row.cells[..j], refColId), refs)
      {
        var cell := row.cells[j];
        ghost var before := RowHits(row, i, row.cells[..j], refColId);
        assert row.cells[..j + 1][..j] == row.cells[..j];
        if cell.value != Null && cell.columnId == refColId {
          assert RowHits(row, i, row.cells[..j + 1], refColId) == before + [RefHit(cell.value, i, row)];
          assert done + (before + [RefHit(cell.value, i, row)]) == (done + before) + [RefHit(cell.value, i, row)];
          IndexHitsAppend(done + before, RefHit(cell.value, i, row), refs);
          if cell.value in refs {
            var rowId := row.id;
            idx := RefIndex(if cell.value in idx.synced then idx.keys else idx.keys + [cell.value],
                            idx.synced[cell.value := rowId], idx.data[rowId := row], idx.noMatch);
          } else {
            idx := idx.(noMatch := idx.noMatch + [cell.value]);
          }
        } else {
          assert RowHits(row, i, row.cells[..j + 1], refColId) == before;
        }
      }
      assert row.cells[..|row.cells|] == row.cells;
      assert rows[..i + 1][..i] == rows[..i];
    }
    assert rows[..|rows|] == rows;
  }

  // ---------------------------------------------------------------------------
  // Missing references

  /** The elements of `s` outside `excluded`, in their order in `s`: for the input
      references and the matched keys, `output_ref_missing`. */
  function Without(s: seq<Value>, excluded: set<Value>): (r: seq<Value>)
    ensures forall x :: x in r <==> x in s && x !in excluded
  {
    if s == [] then []
    else
      Without(s[..|s| - 1], excluded)
        + (if s[|s| - 1] in excluded then [] else [s[|s| - 1]])
  }

  // ---------------------------------------------------------------------------
  // Shape of the index

  /** Every reference cell found lies in the sheet: in row `at`, in the reference
      column, with a value. */
  lemma {:induction false} HitsLieInRows(rows: seq<Row>, refColId: ColumnId)
    ensures forall h :: h in SheetHits(rows, refColId) ==>
      h.at < |rows| && h.row == rows[h.at] && h.value != Null && Cell(refColId, h.value) in h.row.cells
  {
    if rows != [] {
      var n := |rows| - 1;
      HitsLieInRows(rows[..n], refColId);
      RowHitsLieInCells(rows[n], n, rows[n].cells, refColId);
    }
  }

  lemma {:induction false} RowHitsLieInCells(row: Row, at: nat, cells: seq<Cell>, refColId: ColumnId)
    ensures forall h :: h in RowHits(row, at, cells, refColId) ==>
      h.at == at && h.row == row && h.value != Null && Cell(refColId, h.value) in cells
  {
    if cells != [] {
      RowHitsLieInCells(row, at, cells[..|cells| - 1], refColId);
    }
  }

  /** The dict invariants of the index: the ordered keys are exactly the matched
      references, each matched reference is an input reference whose row is stored,
      and every stored row is one where a reference was found. */
  lemma {:induction false} IndexShape(hits: seq<RefHit>, refs: seq<Value>)
    ensures var idx := IndexHits(hits, refs);
      && Distinct(idx.keys)
      && (forall k :: k in idx.keys <==> k in idx.synced)
      && (forall k :: k in idx.synced ==> k in refs && idx.synced[k] in idx.data)
      && (forall id :: id in idx.data ==> idx.data[id].id == id && idx.data[id] in HitRows(hits))
  {
    if hits != [] {
      var prefix := hits[..|hits| - 1];
      IndexShape(prefix, refs);
      assert forall r :: r in HitRows(prefix) ==> r in HitRows(hits);
    }
  }

  /** The rows of the hits. */
  function HitRows(hits: seq<RefHit>): (rows: seq<Row>)
    ensures |rows| == |hits| && forall j :: 0 <= j < |hits| ==> rows[j] == hits[j].row
  {
    seq(|hits|, j requires 0 <= j < |hits| => hits[j].row)
  }

  // ---------------------------------------------------------------------------
  // Update rows

  /** A column the update writes: an input column other than the reference column
      (`synced_columns`). */
  predicate IsSyncedColumn(col: Column, input: Table, refColumn: string)
  {
    col.title in input.columns && col.title != refColumn
  }

  /** The new cells for the existing `cells` of a target row, from the input row
      `source`: one per cell whose column is synced, coerced to the column type. */
  function UpdateCells(cols: seq<Column>, input: Table, refColumn: string,
                       source: seq<Value>, cells: seq<Cell>): (r: seq<OutCell>)
    requires |source| == |input.columns|
    requires forall c :: c in cells ==> c.columnId in ColumnIds(cols)
    ensures |r| <= |cells|
  {
    if cells == [] then []
    else
      var c := cells[|cells| - 1];
      var col := ColumnById(cols, c.columnId);
      UpdateCells(cols, input, refColumn, source, cells[..|cells| - 1])
        + (if IsSyncedColumn(col, input, refColumn)
           then [OutCell(c.columnId, CellValue(source[Position(input.columns, col.title)], col.colType))]
           else [])
  }

  /** What the update loop needs of an index: every key is matched to a stored row,
      every key is an input reference, and the stored rows' cells lie in the columns. */
  predicate IndexFits(idx: RefIndex, cols: seq<Column>, input: Table, refColumn: string)
    requires ValidTable(input) && refColumn in input.columns
  {
    && (forall k :: k in idx.keys ==> k in idx.synced && k in RefValues(input, refColumn))
    && (forall k :: k in idx.synced ==> idx.synced[k] in idx.data)
    && (forall id, c :: id in idx.data && c in idx.data[id].cells ==> c.columnId in ColumnIds(cols))
  }

  /** The update row for one matched reference. */
  function UpdateFor(cols: seq<Column>, input: Table, refColumn: string, idx: RefIndex, key: Value): (u: UpdateRow)
    requires ValidTable(input) && refColumn in input.columns && IndexFits(idx, cols, input, refColumn)
    requires key in idx.keys
    ensures u.id == idx.synced[key] && |u.cells| <= |idx.data[u.id].cells|
  {
    var rowId := idx.synced[key];
    UpdateRow(rowId, UpdateCells(cols, input, refColumn, LocRow(input, refColumn, key), idx.data[rowId].cells))
  }

  /** The update rows for `keys`, in order. */
  function UpdatesFor(cols: seq<Column>, input: Table, refColumn: string, idx: RefIndex,
                      keys: seq<Value>): (u: seq<UpdateRow>)
    requires ValidTable(input) && refColumn in input.columns && IndexFits(idx, cols, input, refColumn)
    requires forall k :: k in keys ==> k in idx.keys
    ensures |u| == |keys|
  {
    if keys == [] then []
    else UpdatesFor(cols, input, refColumn, idx, keys[..|keys| - 1])
           + [UpdateFor(cols, input, refColumn, idx, keys[|keys| - 1])]
  }

  /** The inner loop of "sync existing rows": the new cells of one target row. */
  method BuildUpdateCells(cols: seq<Column>, input: Table, refColumn: string,
                          source: seq<Value>, target: seq<Cell>)
    returns (cells: seq<OutCell>)
    requires |source| == |input.columns|
    requires forall c :: c in target ==> c.columnId in ColumnIds(cols)
    ensures cells == UpdateCells(cols, input, refColumn, source, target)
  {
    cells := [];
    for j := 0 to |target|
      invariant cells == UpdateCells(cols, input, refColumn, source, target[..j])
    {
      var oldCell := target[j];
      var col := ColumnById(cols, oldCell.columnId);
      assert target[..j + 1][..j] == target[..j];
      if col.title in input.columns && col.title != refColumn {
        var value := source[Position(input.columns, col.title)];
        cells := cells + [OutCell(oldCell.columnId, CellValue(value, col.colType))];
      }
    }
    assert target[..|target|] == target;
  }

  /** The loop "sync existing rows": one update row per matched reference. */
  method BuildUpdates(cols: seq<Column>, input: Table, refColumn: string, idx: RefIndex)
    returns (updated: seq<UpdateRow>)
    requires ValidTable(input) && refColumn in input.columns && IndexFits(idx, cols, input, refColumn)
    ensures updated == UpdatesFor(cols, input, refColumn, idx, idx.keys)
  {
    updated := [];
    for i := 0 to |idx.keys|
      invariant updated == UpdatesFor(cols, input, refColumn, idx, idx.keys[..i])
    {
      var ref := idx.keys[i];
      var rowId := idx.synced[ref];
      var source := LocRow(input, refColumn, ref);
      var cells := BuildUpdateCells(cols, input, refColumn, source, idx.data[rowId].cells);
      assert idx.keys[..i + 1][..i] == idx.keys[..i];
      updated := updated + [UpdateRow(rowId, cells)];
    }
    assert idx.keys[..|idx.keys|] == idx.keys;
  }

  // ---------------------------------------------------------------------------
  // New rows

  /** The cell of a new row in column `col`: the input value of that column,
      except in the reference column, which gets `ref` itself. */
  function NewCellFor(col: Column, input: Table, refColumn: string, ref: Value,
                      source: seq<Value>): (c: OutCell)
    requires |source| == |input.columns| && col.title in input.columns
    ensures c.columnId == col.id
    ensures col.title == refColumn ==> c.value == CellValue(ref, col.colType)
  {
    OutCell(col.id, CellValue(if col.title != refColumn
                              then source[Position(input.columns, col.title)]
                              else ref, col.colType))
  }

  /** The cells of a new row: one per sheet column (in sheet order) whose title is
      an input column. */
  function NewCells(cols: seq<Column>, input: Table, refColumn: string, ref: Value,
                    source: seq<Value>): (r: seq<OutCell>)
    requires |source| == |input.columns|
    ensures |r| <= |cols|
  {
    if cols == [] then []
    else
      var col := cols[|cols| - 1];
      NewCells(cols[..|cols| - 1], input, refColumn, ref, source)
        + (if col.title in input.columns then [NewCellFor(col, input, refColumn, ref, source)] else [])
  }

  /** The new row for one missing reference, appended at the bottom. */
  function NewRowFor(cols: seq<Column>, input: Table, refColumn: string, ref: Value): (row: NewRow)
    requires ValidTable(input) && refColumn in input.columns && ref in RefValues(input, refColumn)
    ensures row.toBottom && |row.cells| <= |cols|
  {
    NewRow(true, NewCells(cols, input, refColumn, ref, LocRow(input, refColumn, ref)))
  }

  /** The new rows for `missing`, in order. */
  function NewRowsFor(cols: seq<Column>, input: Table, refColumn: string, missing: seq<Value>): (rows: seq<NewRow>)
    requires ValidTable(input) && refColumn in input.columns
    requires forall r :: r in missing ==> r in RefValues(input, refColumn)
    ensures |rows| == |missing|
  {
    if missing == [] then []
    else NewRowsFor(cols, input, refColumn, missing[..|missing| - 1])
           + [NewRowFor(cols, input, refColumn, missing[|missing| - 1])]
  }

  /** The inner loop of "add new rows": the cells of the row for `ref`. */
  method BuildNewCells(cols: seq<Column>, input: Table, refColumn: string, ref: Value,
                       source: seq<Value>)
    returns (cells: seq<OutCell>)
    requires |source| == |input.columns|
    ensures cells == NewCells(cols, input, refColumn, ref, source)
  {
    cells := [];
    for j := 0 to |cols|
      invariant cells == NewCells(cols[..j], input, refColumn, ref, source)
    {
      var col := cols[j];
      assert cols[..j + 1][..j] == cols[..j];
      if col.title in input.columns {
        var value := if col.title != refColumn then source[Position(input.columns, col.title)] else ref;
        cells := cells + [OutCell(col.id, CellValue(value, col.colType))];
      }
    }
    assert cols[..|cols|] == cols;
  }

  /** The loop "add new rows": one new row per missing reference. */
  method BuildNewRows(cols: seq<Column>, input: Table, refColumn: string, missing: seq<Value>)
    returns (newRows: seq<NewRow>)
    requires ValidTable(input) && refColumn in input.columns
    requires forall r :: r in missing ==> r in RefValues(input, refColumn)
    ensures newRows == NewRowsFor(cols, input, refColumn, missing)
  {
    newRows := [];
    for i := 0 to |missing|
      invariant newRows == NewRowsFor(cols, input, refColumn, missing[..i])
    {
      var ref := missing[i];
      var cells := BuildNewCells(cols, input, refColumn, ref, LocRow(input, refColumn, ref));
      assert missing[..i + 1][..i] == missing[..i];
      newRows := newRows + [NewRow(true, cells)];
    }
    assert missing[..|missing|] == missing;
  }

  // ---------------------------------------------------------------------------
  // The whole pass

  /** What a pass decides: the reference column's id, the index, the missing
      references, and the rows to update and to add. */
  datatype Plan = Plan(refColId: ColumnId, index: RefIndex, missing: seq<Value>,
                       updates: seq<UpdateRow>, inserts: seq<NewRow>)

  /** The index of a sheet, for the input references. */
  function IndexOfSheet(sheet: Sheet, refColId: ColumnId, refs: seq<Value>): RefIndex
  {
    IndexHits(SheetHits(sheet.rows, refColId), refs)
  }

  lemma IndexOfSheetFits(sheet: Sheet, input: Table, refColumn: string, refColId: ColumnId)
    requires WellFormed(sheet) && ValidTable(input) && refColumn in input.columns
    ensures IndexFits(IndexOfSheet(sheet, refColId, RefValues(input, refColumn)), sheet.columns, input, refColumn)
  {
    var hits := SheetHits(sheet.rows, refColId);
    IndexShape(hits, RefValues(input, refColumn));
    HitsLieInRows(sheet.rows, refColId);
  }

  /** The plan once the reference column is known to be `refColId`. */
  function PlanFor(sheet: Sheet, input: Table, refColumn: string, refColId: ColumnId, addMissing: bool)
    : (plan: Plan)
    requires WellFormed(sheet) && ValidTable(input) && refColumn in input.columns
    ensures plan.refColId == refColId
    ensures forall x :: x in plan.missing <==> x in RefValues(input, refColumn) && x !in plan.index.synced
    ensures |plan.updates| == |plan.index.keys|
    ensures |plan.inserts| == if addMissing then |plan.missing| else 0
  {
    var refs := RefValues(input, refColumn);
    var idx := IndexOfSheet(sheet, refColId, refs);
    IndexOfSheetFits(sheet, input, refColumn, refColId);
    var missing := Without(refs, idx.synced.Keys);
    Plan(refColId, idx, missing,
         UpdatesFor(sheet.columns, input, refColumn, idx, idx.keys),
         if addMissing then NewRowsFor(sheet.columns, input, refColumn, missing) else [])
  }

  /** The parts of `PlanFor`, one by one, as the writer computes them. */
  lemma PlanForParts(sheet: Sheet, input: Table, refColumn: string, refColId: ColumnId, addMissing: bool)
    requires WellFormed(sheet) && ValidTable(input) && refColumn in input.columns
    ensures var refs := RefValues(input, refColumn);
      var idx := IndexOfSheet(sheet, refColId, refs);
      var missing := Without(refs, idx.synced.Keys);
      && IndexFits(idx, sheet.columns, input, refColumn)
      && (forall r :: r in missing ==> r in refs)
      && PlanFor(sheet, input, refColumn, refColId, addMissing)
           == Plan(refColId, idx, missing, UpdatesFor(sheet.columns, input, refColumn, idx, idx.keys),
                   if addMissing then NewRowsFor(sheet.columns, input, refColumn, missing) else [])
  {
    IndexOfSheetFits(sheet, input, refColumn, refColId);
  }

  /** The body of `execute` between the reference checks and the mutations: the
      index of the sheet's reference cells, the missing references, the update
      rows and, when asked for, the new rows. */
  method BuildPlan(sheet: Sheet, input: Table, refColumn: string, refColId: ColumnId, addMissing: bool)
    returns (updated: seq<UpdateRow>, newRows: seq<NewRow>)
    requires WellFormed(sheet) && ValidTable(input) && refColumn in input.columns
    ensures var plan := PlanFor(sheet, input, refColumn, refColId, addMissing);
      updated == plan.updates && newRows == plan.inserts
  {
    var refs := RefValues(input, refColumn);
    var idx := BuildIndex(sheet.rows, refColId, refs);
    var missing := Without(refs, idx.synced.Keys);
    PlanForParts(sheet, input, refColumn, refColId, addMissing);
    updated := BuildUpdates(sheet.columns, input, refColumn, idx);
    newRows := [];
    if addMissing {
      newRows := BuildNewRows(sheet.columns, input, refColumn, missing);
    }
  }

  /** Everything after the (optional) clear, on the sheet as then fetched: the two
      reference-column checks, in this order, then the plan. */
  function PlanSync(sheet: Sheet, input: Table, refColumn: string, addMissing: bool)
    : (r: Result<Plan, InvalidParameters>)
    requires WellFormed(sheet) && ValidTable(input)
    ensures refColumn !in input.columns ==> r == Err(RefColumnNotInInput)
    ensures refColumn in input.columns && refColumn !in ColumnTitles(sheet.columns)
            ==> r == Err(RefColumnNotInOutput)
    ensures r.Ok? <==> refColumn in input.columns && refColumn in ColumnTitles(sheet.columns)
  {
    if refColumn !in input.columns then Err(RefColumnNotInInput)
    else
      match ColumnIdByTitle(sheet.columns, refColumn)
      case None => Err(RefColumnNotInOutput)
      case Some(refColId) => Ok(PlanFor(sheet, input, refColumn, refColId, addMissing))
  }

  /** The mutations a plan issues: `update_rows` and `add_rows`, each only when its
      list is non-empty. Rows without a match are never deleted. */
  function SyncCalls(sheetId: string, plan: Plan): (calls: seq<Call>)
    ensures |calls| <= 2
    ensures forall c :: c in calls ==> !c.DeleteRowsCall? && c.sheetId == sheetId
    ensures UpdateRowsCall(sheetId, plan.updates) in calls <==> plan.updates != []
    ensures AddRowsCall(sheetId, plan.inserts) in calls <==> plan.inserts != []
  {
    (if |plan.updates| > 0 then [UpdateRowsCall(sheetId, plan.updates)] else [])
      + (if |plan.inserts| > 0 then [AddRowsCall(sheetId, plan.inserts)] else [])
  }

  /** The outcome of a pass and the mutations it made, in order. */
  datatype PassResult = PassResult(outcome: Outcome<InvalidParameters>, calls: seq<Call>)

  /** What the synchronisation after the clear does with a plan, or with the
      error that stopped it: an error makes no call. */
  function SyncPass(sheetId: string, plan: Result<Plan, InvalidParameters>): (p: PassResult)
    ensures plan.Err? ==> p == PassResult(Fail(plan.error), [])
    ensures plan.Ok? ==> p.outcome == Pass
  {
    match plan
    case Err(e) => PassResult(Fail(e), [])
    case Ok(pl) => PassResult(Pass, SyncCalls(sheetId, pl))
  }

  /** The writer's `execute` once its client exists, on the sheet `found` that
      `get_sheet` returned: not found is an error before anything else; then the
      clear (when asked for), which empties the sheet; then the reference checks
      on the re-fetched sheet; then the updates and inserts. */
  function WritePass(sheetId: string, refColumn: string, clearFirst: bool, addMissing: bool,
                     input: Table, found: Option<Sheet>): (pass: PassResult)
    requires ValidTable(input) && (found.Some? ==> WellFormed(found.value))
    ensures found.None? ==> pass == PassResult(Fail(SheetNotFound), [])
    ensures found.Some? ==>
      var cleared := if clearFirst then ClearCalls(sheetId, found.value.rows) else [];
      |cleared| <= |pass.calls| && pass.calls[..|cleared|] == cleared
  {
    if found.None? then PassResult(Fail(SheetNotFound), [])
    else
      var s := found.value;
      var cleared := if clearFirst then ClearCalls(sheetId, s.rows) else [];
      var current := if clearFirst then Sheet(s.columns, []) else s;
      EmptiedWellFormed(s);
      var p := SyncPass(sheetId, PlanSync(current, input, refColumn, addMissing));
      PassResult(p.outcome, cleared + p.calls)
  }
}
