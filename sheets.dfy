/** The data the writer works on: the remote sheet (columns, rows, cells), the
    input table, the row payloads it sends, and the remote store as an object
    whose mutations are recorded in a call log. */
module Sheets {
  import opened Wrappers
  import opened Coercion

  type RowId = int
  type ColumnId = int

  /** A sheet column: its store-assigned id, its title and its type. */
  datatype Column = Column(id: ColumnId, title: string, colType: ColumnType)

  /** A stored cell; `Null` is a cell whose value is None. */
  datatype Cell = Cell(columnId: ColumnId, value: Value)

  datatype Row = Row(id: RowId, cells: seq<Cell>)

  /** A snapshot of a sheet as `get_sheet` returns it. */
  datatype Sheet = Sheet(columns: seq<Column>, rows: seq<Row>)

  /** A cell of an outgoing row. */
  datatype OutCell = OutCell(columnId: ColumnId, value: Scalar)

  /** A row sent to `update_rows`: the id of the row to change and its new cells. */
  datatype UpdateRow = UpdateRow(id: RowId, cells: seq<OutCell>)

  /** A row sent to `add_rows`; `toBottom` appends it at the end of the sheet. */
  datatype NewRow = NewRow(toBottom: bool, cells: seq<OutCell>)

  /** A mutation sent to the store (`smart.Sheets.*`). */
  datatype Call =
    | DeleteRowsCall(sheetId: string, ids: seq<RowId>)
    | UpdateRowsCall(sheetId: string, updates: seq<UpdateRow>)
    | AddRowsCall(sheetId: string, rows: seq<NewRow>)

  // ---------------------------------------------------------------------------
  // Remote sheet

  function ColumnIds(cols: seq<Column>): (ids: seq<ColumnId>)
    ensures |ids| == |cols| && forall i :: 0 <= i < |cols| ==> ids[i] == cols[i].id
  {
    seq(|cols|, i requires 0 <= i < |cols| => cols[i].id)
  }

  function ColumnTitles(cols: seq<Column>): (titles: seq<string>)
    ensures |titles| == |cols| && forall i :: 0 <= i < |cols| ==> titles[i] == cols[i].title
  {
    seq(|cols|, i requires 0 <= i < |cols| => cols[i].title)
  }

  /** `[r.id for r in sheet.rows]`: the row ids in sheet order. Rows and columns
      are different records, so this projection and `ColumnIds` are kept apart. */
  function RowIds(rows: seq<Row>): (ids: seq<RowId>)
    ensures |ids| == |rows| && forall i :: 0 <= i < |rows| ==> ids[i] == rows[i].id
  {
    seq(|rows|, i requires 0 <= i < |rows| => rows[i].id)
  }

  predicate Distinct<T(==)>(s: seq<T>)
  {
    forall i, j :: 0 <= i < j < |s| ==> s[i] != s[j]
  }

  /** What the store guarantees of a sheet: column ids and titles are unique,
      row ids are unique, and every cell belongs to one of the sheet's columns. */
  predicate WellFormed(s: Sheet)
  {
    && Distinct(ColumnIds(s.columns))
    && Distinct(ColumnTitles(s.columns))
    && Distinct(RowIds(s.rows))
    && forall r, c :: r in s.rows && c in r.cells ==> c.columnId in ColumnIds(s.columns)
  }

  /** Emptying a sheet keeps it well formed. */
  lemma EmptiedWellFormed(s: Sheet)
    requires WellFormed(s)
    ensures WellFormed(Sheet(s.columns, []))
  {
    assert RowIds([]) == [];
  }

  /** The column with a given id (`output_columns_name_by_id`, `columns_type`). */
  function ColumnById(cols: seq<Column>, id: ColumnId): (c: Column)
    requires id in ColumnIds(cols)
    ensures c in cols && c.id == id
  {
    if cols[0].id == id then cols[0] else ColumnById(cols[1..], id)
  }

  /** The id of the column with a given title (`output_columns`), if any. */
  function ColumnIdByTitle(cols: seq<Column>, title: string): (r: Option<ColumnId>)
    ensures r.None? <==> title !in ColumnTitles(cols)
    ensures r.Some? ==> exists i :: 0 <= i < |cols| && cols[i].title == title && cols[i].id == r.value
  {
    if cols == [] then None
    else if cols[0].title == title then Some(cols[0].id)
    else ColumnIdByTitle(cols[1..], title)
  }

  /** With unique ids and titles, the title/id lookups are inverse to each other. */
  lemma TitleIdLookup(cols: seq<Column>, title: string, id: ColumnId)
    requires Distinct(ColumnIds(cols))
    requires ColumnIdByTitle(cols, title) == Some(id)
    ensures id in ColumnIds(cols) && ColumnById(cols, id).title == title
  {
    var i :| 0 <= i < |cols| && cols[i].title == title && cols[i].id == id;
    assert ColumnIds(cols)[i] == id;
    var c := ColumnById(cols, id);
    var j :| 0 <= j < |cols| && cols[j] == c;
    assert ColumnIds(cols)[j] == id;
  }

  /** The rows that remain once the rows with the given ids are deleted. */
  function RemoveRows(rows: seq<Row>, ids: set<RowId>): (r: seq<Row>)
    ensures forall x :: x in r <==> x in rows && x.id !in ids
  {
    if rows == [] then []
    else (if rows[0].id in ids then [] else [rows[0]]) + RemoveRows(rows[1..], ids)
  }

  /** The ids listed in `ids`, as a set (`delete_rows` takes them as a list). */
  function Members(ids: seq<RowId>): (m: set<RowId>)
    ensures forall x :: x in m <==> x in ids
  {
    set x | x in ids
  }

  /** Deleting no ids keeps every row, in order. */
  lemma {:induction false} RemoveNoRows(rows: seq<Row>)
    ensures RemoveRows(rows, {}) == rows
  {
    if rows != [] {
      RemoveNoRows(rows[1..]);
      assert [rows[0]] + rows[1..] == rows;
    }
  }

  /** Deleting a set that holds every row's id leaves no row. */
  lemma {:induction false} RemoveCoveredRows(rows: seq<Row>, ids: set<RowId>)
    requires forall i :: 0 <= i < |rows| ==> rows[i].id in ids
    ensures RemoveRows(rows, ids) == []
  {
    if rows != [] {
      assert rows[0].id in ids;
      RemoveCoveredRows(rows[1..], ids);
    }
  }

  /** Deleting the ids of all rows leaves none. */
  lemma RemoveAllRows(rows: seq<Row>)
    ensures RemoveRows(rows, Members(RowIds(rows))) == []
  {
    RemoveCoveredRows(rows, Members(RowIds(rows)));
  }

  /** Deleting one set of ids and then another is deleting both at once. */
  lemma {:induction false} RemoveRowsTwice(rows: seq<Row>, a: set<RowId>, b: set<RowId>)
    ensures RemoveRows(RemoveRows(rows, a), b) == RemoveRows(rows, a + b)
  {
    if rows != [] {
      RemoveRowsTwice(rows[1..], a, b);
      if rows[0].id in a {
        assert RemoveRows(rows, a) == RemoveRows(rows[1..], a);
      } else {
        assert RemoveRows(rows, a) == [rows[0]] + RemoveRows(rows[1..], a);
        assert RemoveRows(rows, a)[1..] == RemoveRows(rows[1..], a);
      }
    }
  }

  // ---------------------------------------------------------------------------
  // Input table

  /** The input table: column titles and rows of values, one per column. */
  datatype Table = Table(columns: seq<string>, rows: seq<seq<Value>>)

  /** What KNIME guarantees of a table: unique column names, full rows. */
  predicate ValidTable(t: Table)
  {
    && Distinct(t.columns)
    && forall i :: 0 <= i < |t.rows| ==> |t.rows[i]| == |t.columns|
  }

  /** The first position of `x` in `s`; for a column title, where `source_row[title]` reads. */
  function Position<T(==)>(s: seq<T>, x: T): (k: nat)
    requires x in s
    ensures k < |s| && s[k] == x
    ensures forall j :: 0 <= j < k ==> s[j] != x
  {
    if s[0] == x then 0 else 1 + Position(s[1..], x)
  }

  /** `input_pandas[refColumn]`: the reference values, in row order. */
  function RefValues(t: Table, refColumn: string): (refs: seq<Value>)
    requires ValidTable(t) && refColumn in t.columns
    ensures |refs| == |t.rows|
    ensures forall i :: 0 <= i < |t.rows| ==> refs[i] == t.rows[i][Position(t.columns, refColumn)]
  {
    var k := Position(t.columns, refColumn);
    seq(|t.rows|, i requires 0 <= i < |t.rows| => t.rows[i][k])
  }

  /** The documented assumption of the writer: reference values are unique. */
  predicate UniqueRefs(t: Table, refColumn: string)
    requires ValidTable(t)
  {
    refColumn in t.columns ==> Distinct(RefValues(t, refColumn))
  }

  /** `indexed_input.loc[ref]`: the row whose reference value is `ref`. */
  function LocRow(t: Table, refColumn: string, ref: Value): (row: seq<Value>)
    requires ValidTable(t) && refColumn in t.columns
    requires ref in RefValues(t, refColumn)
    ensures row in t.rows && |row| == |t.columns|
    ensures row[Position(t.columns, refColumn)] == ref
  {
    t.rows[Position(RefValues(t, refColumn), ref)]
  }

  /** With unique references, `loc` finds exactly the row holding the reference. */
  lemma LocRowIsTheRow(t: Table, refColumn: string, i: nat)
    requires ValidTable(t) && refColumn in t.columns && UniqueRefs(t, refColumn)
    requires i < |t.rows|
    ensures LocRow(t, refColumn, RefValues(t, refColumn)[i]) == t.rows[i]
  {
    var refs := RefValues(t, refColumn);
    var k := Position(refs, refs[i]);
    assert !(k < i) && !(i < k);
  }

  // ---------------------------------------------------------------------------
  // Remote store

  /** Calls logged in two steps are the calls of both steps, in order. */
  lemma LogAppend(log: seq<Call>, first: seq<Call>, second: seq<Call>)
    ensures log + first + second == log + (first + second)
  {
  }

  /** Every sheet but `sheetId` is as it was, and no sheet appeared or vanished. */
  predicate OthersKept(before: map<string, Sheet>, after: map<string, Sheet>, sheetId: string)
  {
    && after.Keys == before.Keys
    && forall id :: id in before && id != sheetId ==> after[id] == before[id]
  }

  /** The Smartsheet service as far as the writer uses it: the sheets by id and
      the mutations received so far. Every call succeeds. */
  class SheetStore {
    var sheets: map<string, Sheet>
    ghost var log: seq<Call>

    constructor (sheets: map<string, Sheet>)
      ensures this.sheets == sheets && log == []
    {
      this.sheets := sheets;
      log := [];
    }

    /** `get_sheet(sheetId)`; None when there is no such sheet. */
    method GetSheet(sheetId: string) returns (s: Option<Sheet>)
      ensures s == if sheetId in sheets then Some(sheets[sheetId]) else None
    {
      s := if sheetId in sheets then Some(sheets[sheetId]) else None;
    }

    /** `delete_rows(sheetId, ids)`: the rows with those ids are gone. */
    method DeleteRows(sheetId: string, ids: seq<RowId>)
      modifies this
      ensures log == old(log) + [DeleteRowsCall(sheetId, ids)]
      ensures sheets == if sheetId in old(sheets)
        then old(sheets)[sheetId := Sheet(old(sheets)[sheetId].columns,
                                          RemoveRows(old(sheets)[sheetId].rows, Members(ids)))]
        else old(sheets)
    {
      if sheetId in sheets {
        var s := sheets[sheetId];
        sheets := sheets[sheetId := Sheet(s.columns, RemoveRows(s.rows, Members(ids)))];
      }
      log := log + [DeleteRowsCall(sheetId, ids)];
    }

    /** `update_rows(sheetId, updates)`; what the store then holds is its own affair. */
    method UpdateRows(sheetId: string, updates: seq<UpdateRow>)
      modifies this
      ensures log == old(log) + [UpdateRowsCall(sheetId, updates)]
      ensures OthersKept(old(sheets), sheets, sheetId)
    {
      log := log + [UpdateRowsCall(sheetId, updates)];
    }

    /** `add_rows(sheetId, rows)`; what the store then holds is its own affair. */
    method AddRows(sheetId: string, rows: seq<NewRow>)
      modifies this
      ensures log == old(log) + [AddRowsCall(sheetId, rows)]
      ensures OthersKept(old(sheets), sheets, sheetId)
    {
      log := log + [AddRowsCall(sheetId, rows)];
    }
  }
}
