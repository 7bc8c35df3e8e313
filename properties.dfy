/** What the reconciliation promises, proved about its specification functions. */
module ReconcileProperties {
  import opened Wrappers
  import opened Errors
  import opened Coercion
  import opened Sheets
  import opened Reconcile

  // ---------------------------------------------------------------------------
  // Chunked clear

  /** The chunks, concatenated, are exactly the ids, in order. */
  lemma {:induction false} FlattenChunks(ids: seq<RowId>, size: nat)
    requires size > 0
    ensures Flatten(Chunks(ids, size)) == ids
    decreases |ids|
  {
    if ids != [] {
      var m := Min(size, |ids|);
      FlattenChunks(ids[m..], size);
      assert Chunks(ids, size)[1..] == Chunks(ids[m..], size);
      assert ids[..m] + ids[m..] == ids;
    }
  }

  /** Every chunk but the last is full, so no more calls are made than needed. */
  lemma {:induction false} ChunksAreFull(ids: seq<RowId>, size: nat)
    requires size > 0
    ensures var chunks := Chunks(ids, size);
      forall k :: 0 <= k < |chunks| - 1 ==> |chunks[k]| == size
    decreases |ids|
  {
    if ids != [] {
      var m := Min(size, |ids|);
      ChunksAreFull(ids[m..], size);
      assert Chunks(ids, size)[1..] == Chunks(ids[m..], size);
    }
  }

  /** Concatenating one more chunk extends the prefix. */
  lemma {:induction false} FlattenSnoc(chunks: seq<seq<RowId>>, i: nat)
    requires i < |chunks|
    ensures Flatten(chunks[..i + 1]) == Flatten(chunks[..i]) + chunks[i]
  {
    if i == 0 {
      assert chunks[..1][1..] == [];
    } else {
      FlattenSnoc(chunks[1..], i - 1);
      assert chunks[..i + 1][1..] == chunks[1..][..i];
      assert chunks[..i][1..] == chunks[1..][..i - 1];
    }
  }

  /** One more delete call removes one more chunk of the ids. */
  lemma ClearStep(rows: seq<Row>, chunks: seq<seq<RowId>>, i: nat)
    requires i < |chunks|
    ensures RemoveRows(RemoveRows(rows, Members(Flatten(chunks[..i]))), Members(chunks[i]))
         == RemoveRows(rows, Members(Flatten(chunks[..i + 1])))
  {
    FlattenSnoc(chunks, i);
    RemoveRowsTwice(rows, Members(Flatten(chunks[..i])), Members(chunks[i]));
    assert Members(Flatten(chunks[..i])) + Members(chunks[i]) == Members(Flatten(chunks[..i + 1]));
  }

  /** The sheets after the delete calls for chunks 0..i-1 of `sheet`. */
  function AfterDeletes(m: map<string, Sheet>, id: string, sheet: Sheet,
                        chunks: seq<seq<RowId>>, i: nat): map<string, Sheet>
    requires i <= |chunks|
  {
    m[id := Sheet(sheet.columns, RemoveRows(sheet.rows, Members(Flatten(chunks[..i]))))]
  }

  /** The store's view of one more delete call. */
  lemma DeleteChunkStep(m: map<string, Sheet>, id: string, sheet: Sheet,
                        chunks: seq<seq<RowId>>, i: nat)
    requires i < |chunks|
    ensures var before := AfterDeletes(m, id, sheet, chunks, i);
      before[id := Sheet(before[id].columns, RemoveRows(before[id].rows, Members(chunks[i])))]
        == AfterDeletes(m, id, sheet, chunks, i + 1)
  {
    ClearStep(sheet.rows, chunks, i);
  }

  /** Before any delete call the store holds `sheet` unchanged. */
  lemma NoDeletesYet(m: map<string, Sheet>, id: string, sheet: Sheet, chunks: seq<seq<RowId>>)
    requires id in m && m[id] == sheet
    ensures AfterDeletes(m, id, sheet, chunks, 0) == m
  {
    assert Members(Flatten(chunks[..0])) == {};
    RemoveNoRows(sheet.rows);
  }

  /** After the delete calls for every chunk of its row ids, the sheet is empty. */
  lemma AllDeletesDone(m: map<string, Sheet>, id: string, sheet: Sheet)
    ensures var chunks := Chunks(RowIds(sheet.rows), DeleteChunkSize);
      AfterDeletes(m, id, sheet, chunks, |chunks|) == m[id := Sheet(sheet.columns, [])]
  {
    var chunks := Chunks(RowIds(sheet.rows), DeleteChunkSize);
    assert chunks[..|chunks|] == chunks;
    FlattenChunks(RowIds(sheet.rows), DeleteChunkSize);
    RemoveAllRows(sheet.rows);
  }

  /** The delete calls for chunks 0..i. */
  lemma ClearCallsStep(sheetId: string, rows: seq<Row>, i: nat)
    requires i < |Chunks(RowIds(rows), DeleteChunkSize)|
    ensures var calls := ClearCalls(sheetId, rows);
      calls[..i + 1] == calls[..i] + [DeleteRowsCall(sheetId, Chunks(RowIds(rows), DeleteChunkSize)[i])]
  {
    var calls := ClearCalls(sheetId, rows);
    assert calls[..i + 1] == calls[..i] + [calls[i]];
  }

  /** The row ids the clear deletes, call after call, are the sheet's row ids in
      order, each call naming this sheet and between 1 and 300 ids. */
  lemma ClearDeletesEveryRow(sheetId: string, rows: seq<Row>)
    ensures var calls := ClearCalls(sheetId, rows);
      && (forall k :: 0 <= k < |calls| ==>
            calls[k].DeleteRowsCall? && calls[k].sheetId == sheetId && 0 < |calls[k].ids| <= DeleteChunkSize)
      && Flatten(seq(|calls|, k requires 0 <= k < |calls| => calls[k].ids)) == RowIds(rows)
  {
    var calls := ClearCalls(sheetId, rows);
    var chunks := Chunks(RowIds(rows), DeleteChunkSize);
    assert seq(|calls|, k requires 0 <= k < |calls| => calls[k].ids) == chunks;
    FlattenChunks(RowIds(rows), DeleteChunkSize);
  }

  // ---------------------------------------------------------------------------
  // Reference index

  /** A reference is matched exactly when some visited cell holds it and it is an
      input reference; the row it is matched to is that of the LAST such cell
      (a later duplicate overwrites the dict entry). */
  lemma {:induction false} MatchedRowIsLastHit(hits: seq<RefHit>, refs: seq<Value>)
    ensures var idx := IndexHits(hits, refs);
      forall k :: k in idx.synced <==> k in refs && exists j :: 0 <= j < |hits| && hits[j].value == k
    ensures var idx := IndexHits(hits, refs);
      forall k :: k in idx.synced ==>
        exists j :: 0 <= j < |hits| && hits[j].value == k && hits[j].row.id == idx.synced[k]
          && forall j' :: j < j' < |hits| ==> hits[j'].value != k
  {
    if hits != [] {
      var n := |hits| - 1;
      var prefix := hits[..n];
      var h := hits[n];
      MatchedRowIsLastHit(prefix, refs);
      var before := IndexHits(prefix, refs);
      var idx := IndexHits(hits, refs);
      assert forall j :: 0 <= j < n ==> prefix[j] == hits[j];
      forall k | k in idx.synced
        ensures exists j :: (0 <= j < |hits| && hits[j].value == k && hits[j].row.id == idx.synced[k]
          && forall j' :: j < j' < |hits| ==> hits[j'].value != k)
      {
        if h.value in refs && k == h.value {
          assert hits[n].value == k && hits[n].row.id == idx.synced[k];
        } else {
          assert k in before.synced && idx.synced[k] == before.synced[k];
          var j :| 0 <= j < n && prefix[j].value == k && prefix[j].row.id == before.synced[k]
            && forall j' :: j < j' < n ==> prefix[j'].value != k;
          assert hits[j].value == k && hits[n].value != k;
        }
      }
      forall k | k in refs && exists j :: 0 <= j < |hits| && hits[j].value == k
        ensures k in idx.synced
      {
        var j :| 0 <= j < |hits| && hits[j].value == k;
        if j < n {
          assert prefix[j].value == k;
        }
      }
    }
  }

  /** One visit keeps the matched keys in their places: a reference already
      matched keeps its position (only its row changes), a new one goes last. */
  lemma AddHitKeepsKeyOrder(idx: RefIndex, h: RefHit, refs: seq<Value>)
    ensures var r := AddHit(idx, h, refs);
      |idx.keys| <= |r.keys| <= |idx.keys| + 1 && r.keys[..|idx.keys|] == idx.keys
  {
  }

  /** Every visit adds at most one matched key or one unmatched value. */
  lemma {:induction false} IndexSize(hits: seq<RefHit>, refs: seq<Value>)
    ensures var idx := IndexHits(hits, refs);
      |idx.keys| + |idx.noMatch| <= |hits|
  {
    if hits != [] {
      IndexSize(hits[..|hits| - 1], refs);
    }
  }

  /** A visited value that is not an input reference is recorded as unmatched,
      and nothing else is. */
  lemma {:induction false} NoMatchCollects(hits: seq<RefHit>, refs: seq<Value>)
    ensures var idx := IndexHits(hits, refs);
      forall v :: v in idx.noMatch <==> v !in refs && exists j :: 0 <= j < |hits| && hits[j].value == v
  {
    if hits != [] {
      var n := |hits| - 1;
      var prefix := hits[..n];
      NoMatchCollects(prefix, refs);
      assert forall j :: 0 <= j < n ==> prefix[j] == hits[j];
      forall v | v !in refs && exists j :: 0 <= j < |hits| && hits[j].value == v
        ensures v in IndexHits(hits, refs).noMatch
      {
        var j :| 0 <= j < |hits| && hits[j].value == v;
        if j < n {
          assert prefix[j].value == v;
        }
      }
    }
  }

  /** Every non-empty reference cell of the sheet is visited. */
  lemma {:induction false} RefCellsAreHits(rows: seq<Row>, refColId: ColumnId)
    ensures forall i, c :: 0 <= i < |rows| && c in rows[i].cells && IsRefCell(c, refColId) ==>
      RefHit(c.value, i, rows[i]) in SheetHits(rows, refColId)
  {
    if rows != [] {
      var n := |rows| - 1;
      RefCellsAreHits(rows[..n], refColId);
      RowCellsAreHits(rows[n], n, rows[n].cells, refColId);
      assert forall i :: 0 <= i < n ==> rows[..n][i] == rows[i];
    }
  }

  lemma {:induction false} RowCellsAreHits(row: Row, at: nat, cells: seq<Cell>, refColId: ColumnId)
    ensures forall c :: c in cells && IsRefCell(c, refColId) ==>
      RefHit(c.value, at, row) in RowHits(row, at, cells, refColId)
  {
    if cells != [] {
      var n := |cells| - 1;
      RowCellsAreHits(row, at, cells[..n], refColId);
      assert forall c :: c in cells ==> c in cells[..n] || c == cells[n];
    }
  }

  /** Whether the sheet holds `v` in its reference column. */
  predicate InRefColumn(rows: seq<Row>, refColId: ColumnId, v: Value)
  {
    v != Null && exists i :: 0 <= i < |rows| && Cell(refColId, v) in rows[i].cells
  }

  /** The values visited are exactly the values the sheet holds in its
      reference column. */
  lemma HitValues(rows: seq<Row>, refColId: ColumnId, hits: seq<RefHit>)
    requires hits == SheetHits(rows, refColId)
    ensures forall v :: (exists j :: 0 <= j < |hits| && hits[j].value == v) <==> InRefColumn(rows, refColId, v)
  {
    HitsLieInRows(rows, refColId);
    RefCellsAreHits(rows, refColId);
    forall v
      ensures (exists j :: 0 <= j < |hits| && hits[j].value == v) <==> InRefColumn(rows, refColId, v)
    {
      if InRefColumn(rows, refColId, v) {
        var i :| 0 <= i < |rows| && Cell(refColId, v) in rows[i].cells;
        assert IsRefCell(Cell(refColId, v), refColId);
        var j :| 0 <= j < |hits| && hits[j] == RefHit(v, i, rows[i]);
        assert hits[j].value == v;
      }
      if exists j :: 0 <= j < |hits| && hits[j].value == v {
        var j :| 0 <= j < |hits| && hits[j].value == v;
        var h := hits[j];
        assert h in hits;
        assert h.at < |rows| && h.value != Null && Cell(refColId, h.value) in rows[h.at].cells;
      }
    }
  }

  /** A reference is matched (and its row updated) exactly when it is an input
      reference the sheet holds in its reference column. */
  lemma MatchedRefs(rows: seq<Row>, refColId: ColumnId, refs: seq<Value>)
    ensures var idx := IndexHits(SheetHits(rows, refColId), refs);
      forall r :: r in idx.synced <==> r in refs && InRefColumn(rows, refColId, r)
  {
    MatchedRowIsLastHit(SheetHits(rows, refColId), refs);
    HitValues(rows, refColId, SheetHits(rows, refColId));
  }

  /** The input references the sheet does not hold are the missing ones (added
      when asked for), in input order; every input reference is either matched
      or missing, never both. */
  lemma MissingRefs(rows: seq<Row>, refColId: ColumnId, refs: seq<Value>)
    ensures var idx := IndexHits(SheetHits(rows, refColId), refs);
      forall r :: r in Without(refs, idx.synced.Keys) <==> r in refs && !InRefColumn(rows, refColId, r)
  {
    MatchedRefs(rows, refColId, refs);
  }

  /** Filtering distributes over concatenation: the missing references keep
      their input order. */
  lemma {:induction false} WithoutAppend(a: seq<Value>, b: seq<Value>, excluded: set<Value>)
    ensures Without(a + b, excluded) == Without(a, excluded) + Without(b, excluded)
  {
    if b != [] {
      var n := |b| - 1;
      WithoutAppend(a, b[..n], excluded);
      assert (a + b)[..|a + b| - 1] == a + b[..n];
      assert (a + b)[|a + b| - 1] == b[n];
    } else {
      assert a + b == a;
    }
  }

  /** Without excluding anything, every element stays, in order. */
  lemma {:induction false} WithoutNothing(s: seq<Value>)
    ensures Without(s, {}) == s
  {
    if s != [] {
      WithoutNothing(s[..|s| - 1]);
      assert s[..|s| - 1] + [s[|s| - 1]] == s;
    }
  }

  // ---------------------------------------------------------------------------
  // Update rows

  /** One update row per matched reference, in key order, each for the row the
      reference was matched to. */
  lemma {:induction false} UpdatesShape(cols: seq<Column>, input: Table, refColumn: string,
                                        idx: RefIndex, keys: seq<Value>)
    requires ValidTable(input) && refColumn in input.columns && IndexFits(idx, cols, input, refColumn)
    requires forall k :: k in keys ==> k in idx.keys
    ensures var u := UpdatesFor(cols, input, refColumn, idx, keys);
      |u| == |keys| && forall i :: 0 <= i < |keys| ==>
        u[i] == UpdateFor(cols, input, refColumn, idx, keys[i]) && u[i].id == idx.synced[keys[i]]
  {
    if keys != [] {
      var n := |keys| - 1;
      var prefix := keys[..n];
      UpdatesShape(cols, input, refColumn, idx, prefix);
      var u := UpdatesFor(cols, input, refColumn, idx, keys);
      assert u == UpdatesFor(cols, input, refColumn, idx, prefix)
        + [UpdateFor(cols, input, refColumn, idx, keys[n])];
      forall i | 0 <= i < |keys|
        ensures u[i] == UpdateFor(cols, input, refColumn, idx, keys[i])
      {
        if i < n {
          assert prefix[i] == keys[i];
        }
      }
    }
  }

  /** The cells of an update row: each rewrites a cell the target row has, in a
      synced column, with the input row's value coerced to the column type; and
      every cell of the target row in a synced column is rewritten. */
  lemma {:induction false} UpdateCellsSynced(cols: seq<Column>, input: Table, refColumn: string,
                                             source: seq<Value>, cells: seq<Cell>)
    requires |source| == |input.columns|
    requires forall c :: c in cells ==> c.columnId in ColumnIds(cols)
    ensures forall oc :: oc in UpdateCells(cols, input, refColumn, source, cells) ==>
      && (exists c :: c in cells && c.columnId == oc.columnId)
      && IsSyncedColumn(ColumnById(cols, oc.columnId), input, refColumn)
      && oc.value == CellValue(source[Position(input.columns, ColumnById(cols, oc.columnId).title)],
                               ColumnById(cols, oc.columnId).colType)
    ensures forall c :: c in cells && IsSyncedColumn(ColumnById(cols, c.columnId), input, refColumn) ==>
      exists oc :: oc in UpdateCells(cols, input, refColumn, source, cells) && oc.columnId == c.columnId
  {
    if cells != [] {
      var n := |cells| - 1;
      UpdateCellsSynced(cols, input, refColumn, source, cells[..n]);
      assert forall c :: c in cells ==> c in cells[..n] || c == cells[n];
      assert forall c :: c in cells[..n] ==> c in cells;
      var prev := UpdateCells(cols, input, refColumn, source, cells[..n]);
      var all := UpdateCells(cols, input, refColumn, source, cells);
      assert forall oc :: oc in prev ==> oc in all;
      if IsSyncedColumn(ColumnById(cols, cells[n].columnId), input, refColumn) {
        assert all[|all| - 1].columnId == cells[n].columnId;
      }
    }
  }

  /** An update never writes the reference column. */
  lemma UpdateSkipsRefColumn(cols: seq<Column>, input: Table, refColumn: string,
                             source: seq<Value>, cells: seq<Cell>, refColId: ColumnId)
    requires |source| == |input.columns|
    requires forall c :: c in cells ==> c.columnId in ColumnIds(cols)
    requires Distinct(ColumnIds(cols)) && ColumnIdByTitle(cols, refColumn) == Some(refColId)
    ensures forall oc :: oc in UpdateCells(cols, input, refColumn, source, cells) ==> oc.columnId != refColId
  {
    UpdateCellsSynced(cols, input, refColumn, source, cells);
    TitleIdLookup(cols, refColumn, refColId);
  }

  /** The update row for one matched reference never writes the reference column. */
  lemma UpdateForSkipsRefColumn(cols: seq<Column>, input: Table, refColumn: string, idx: RefIndex,
                                key: Value, refColId: ColumnId)
    requires ValidTable(input) && refColumn in input.columns && IndexFits(idx, cols, input, refColumn)
    requires key in idx.keys
    requires Distinct(ColumnIds(cols)) && ColumnIdByTitle(cols, refColumn) == Some(refColId)
    ensures forall oc :: oc in UpdateFor(cols, input, refColumn, idx, key).cells ==> oc.columnId != refColId
  {
    var rowId := idx.synced[key];
    UpdateSkipsRefColumn(cols, input, refColumn, LocRow(input, refColumn, key), idx.data[rowId].cells, refColId);
  }

  /** No update row built from an index writes the reference column. */
  lemma UpdatesSkipRefColumn(cols: seq<Column>, input: Table, refColumn: string, idx: RefIndex, refColId: ColumnId)
    requires ValidTable(input) && refColumn in input.columns && IndexFits(idx, cols, input, refColumn)
    requires Distinct(ColumnIds(cols)) && ColumnIdByTitle(cols, refColumn) == Some(refColId)
    ensures forall u, oc :: u in UpdatesFor(cols, input, refColumn, idx, idx.keys) && oc in u.cells ==>
      oc.columnId != refColId
  {
    var updates := UpdatesFor(cols, input, refColumn, idx, idx.keys);
    UpdatesShape(cols, input, refColumn, idx, idx.keys);
    forall i | 0 <= i < |updates|
      ensures forall oc :: oc in updates[i].cells ==> oc.columnId != refColId
    {
      UpdateForSkipsRefColumn(cols, input, refColumn, idx, idx.keys[i], refColId);
    }
  }

  /** No update row of a pass writes the reference column. */
  lemma PlanSkipsRefColumn(sheet: Sheet, input: Table, refColumn: string, refColId: ColumnId, addMissing: bool)
    requires WellFormed(sheet) && ValidTable(input) && refColumn in input.columns
    requires ColumnIdByTitle(sheet.columns, refColumn) == Some(refColId)
    ensures forall u, oc :: u in PlanFor(sheet, input, refColumn, refColId, addMissing).updates && oc in u.cells ==>
      oc.columnId != refColId
  {
    PlanForParts(sheet, input, refColumn, refColId, addMissing);
    UpdatesSkipRefColumn(sheet.columns, input, refColumn,
                         IndexOfSheet(sheet, refColId, RefValues(input, refColumn)), refColId);
  }

  // ---------------------------------------------------------------------------
  // New rows

  /** A new row has one cell per sheet column that is an input column, each as
      `NewCellFor` builds it, and no other cell. */
  lemma {:induction false} NewCellsShape(cols: seq<Column>, input: Table, refColumn: string,
                                         ref: Value, source: seq<Value>)
    requires |source| == |input.columns|
    ensures forall p :: 0 <= p < |cols| && cols[p].title in input.columns ==>
      NewCellFor(cols[p], input, refColumn, ref, source) in NewCells(cols, input, refColumn, ref, source)
    ensures forall oc :: oc in NewCells(cols, input, refColumn, ref, source) ==>
      exists p :: 0 <= p < |cols| && cols[p].title in input.columns
        && oc == NewCellFor(cols[p], input, refColumn, ref, source)
  {
    if cols != [] {
      var n := |cols| - 1;
      NewCellsShape(cols[..n], input, refColumn, ref, source);
      assert forall p :: 0 <= p < n ==> cols[..n][p] == cols[p];
    }
  }

  /** The new row for a missing reference carries that reference in the sheet's
      reference column. */
  lemma NewRowCarriesRef(cols: seq<Column>, input: Table, refColumn: string, ref: Value, p: nat)
    requires ValidTable(input) && refColumn in input.columns && ref in RefValues(input, refColumn)
    requires p < |cols| && cols[p].title == refColumn
    ensures OutCell(cols[p].id, CellValue(ref, cols[p].colType)) in NewRowFor(cols, input, refColumn, ref).cells
    ensures NewRowFor(cols, input, refColumn, ref).toBottom
  {
    NewCellsShape(cols, input, refColumn, ref, LocRow(input, refColumn, ref));
  }

  /** Every other cell of the new row holds the located input row's value for
      that column, coerced to the column's type. */
  lemma NewRowCopiesInput(cols: seq<Column>, input: Table, refColumn: string, ref: Value, p: nat)
    requires ValidTable(input) && refColumn in input.columns && ref in RefValues(input, refColumn)
    requires p < |cols| && cols[p].title in input.columns && cols[p].title != refColumn
    ensures var source := LocRow(input, refColumn, ref);
      OutCell(cols[p].id, CellValue(source[Position(input.columns, cols[p].title)], cols[p].colType))
        in NewRowFor(cols, input, refColumn, ref).cells
  {
    NewCellsShape(cols, input, refColumn, ref, LocRow(input, refColumn, ref));
  }

  /** One new row per missing reference, in order, each appended at the bottom. */
  lemma {:induction false} NewRowsShape(cols: seq<Column>, input: Table, refColumn: string, missing: seq<Value>)
    requires ValidTable(input) && refColumn in input.columns
    requires forall r :: r in missing ==> r in RefValues(input, refColumn)
    ensures var rows := NewRowsFor(cols, input, refColumn, missing);
      |rows| == |missing| && forall i :: 0 <= i < |missing| ==>
        rows[i] == NewRowFor(cols, input, refColumn, missing[i]) && rows[i].toBottom
  {
    if missing != [] {
      var n := |missing| - 1;
      NewRowsShape(cols, input, refColumn, missing[..n]);
      assert forall i :: 0 <= i < n ==> missing[..n][i] == missing[i];
    }
  }

  // ---------------------------------------------------------------------------
  // The whole pass

  /** A pass that fails makes no call but the deletes of the clear, which come
      first: with "Clear sheet first" off it makes no call at all. With the clear
      off no row is ever deleted (rows without a match stay). */
  lemma FailedPassOnlyClears(sheetId: string, refColumn: string, clearFirst: bool, addMissing: bool,
                             input: Table, found: Option<Sheet>)
    requires ValidTable(input) && (found.Some? ==> WellFormed(found.value))
    ensures var p := WritePass(sheetId, refColumn, clearFirst, addMissing, input, found);
      p.outcome.Fail? ==> forall c :: c in p.calls ==> c.DeleteRowsCall?
    ensures var p := WritePass(sheetId, refColumn, clearFirst, addMissing, input, found);
      !clearFirst ==> forall c :: c in p.calls ==> !c.DeleteRowsCall?
    ensures var p := WritePass(sheetId, refColumn, clearFirst, addMissing, input, found);
      !clearFirst && p.outcome.Fail? ==> p.calls == []
  {
    if found.Some? {
      ClearDeletesEveryRow(sheetId, found.value.rows);
    }
  }

  /** A pass over a sheet that exists: the clear's deletes (when asked for),
      then the synchronisation of the sheet as it then stands. */
  lemma WritePassOfSheet(sheetId: string, refColumn: string, clearFirst: bool, addMissing: bool,
                         input: Table, s: Sheet)
    requires ValidTable(input) && WellFormed(s)
    ensures var current := if clearFirst then Sheet(s.columns, []) else s;
      && WellFormed(current)
      && var p := SyncPass(sheetId, PlanSync(current, input, refColumn, addMissing));
         WritePass(sheetId, refColumn, clearFirst, addMissing, input, Some(s))
           == PassResult(p.outcome, (if clearFirst then ClearCalls(sheetId, s.rows) else []) + p.calls)
  {
    EmptiedWellFormed(s);
  }

  /** The reference checks come after the clear: a missing reference column in
      the input, then in the sheet, fails the pass with the clear already made. */
  lemma ReferenceChecksFollowClear(sheetId: string, refColumn: string, clearFirst: bool, addMissing: bool,
                                   input: Table, s: Sheet)
    requires ValidTable(input) && WellFormed(s)
    ensures var p := WritePass(sheetId, refColumn, clearFirst, addMissing, input, Some(s));
      var cleared := if clearFirst then ClearCalls(sheetId, s.rows) else [];
      && (refColumn !in input.columns ==> p == PassResult(Fail(RefColumnNotInInput), cleared))
      && (refColumn in input.columns && refColumn !in ColumnTitles(s.columns) ==>
            p == PassResult(Fail(RefColumnNotInOutput), cleared))
  {
    EmptiedWellFormed(s);
  }

  /** On an emptied sheet the plan matches nothing: every input reference is
      missing, in input order, and there is no update. */
  lemma PlanForEmptySheet(cols: seq<Column>, input: Table, refColumn: string, refColId: ColumnId,
                          addMissing: bool)
    requires WellFormed(Sheet(cols, [])) && ValidTable(input) && refColumn in input.columns
    ensures var refs := RefValues(input, refColumn);
      PlanFor(Sheet(cols, []), input, refColumn, refColId, addMissing)
        == Plan(refColId, EmptyIndex, refs, [],
                if addMissing then NewRowsFor(cols, input, refColumn, refs) else [])
  {
    var refs := RefValues(input, refColumn);
    assert SheetHits([], refColId) == [];
    var idx := IndexOfSheet(Sheet(cols, []), refColId, refs);
    assert idx == EmptyIndex;
    assert idx.synced.Keys == {};
    WithoutNothing(refs);
    IndexOfSheetFits(Sheet(cols, []), input, refColumn, refColId);
    assert UpdatesFor(cols, input, refColumn, idx, idx.keys) == [];
  }

  /** After "Clear sheet first" nothing matches: no row is updated, and when
      missing references are added every input row is added, in input order. */
  lemma ClearedSheetAddsEveryRow(sheetId: string, refColumn: string, addMissing: bool,
                                 input: Table, s: Sheet)
    requires ValidTable(input) && WellFormed(s)
    requires refColumn in input.columns && refColumn in ColumnTitles(s.columns)
    ensures var refs := RefValues(input, refColumn);
      WritePass(sheetId, refColumn, true, addMissing, input, Some(s))
        == PassResult(Pass, ClearCalls(sheetId, s.rows)
             + if addMissing && |input.rows| > 0
               then [AddRowsCall(sheetId, NewRowsFor(s.columns, input, refColumn, refs))]
               else [])
  {
    WritePassOfSheet(sheetId, refColumn, true, addMissing, input, s);
    var refs := RefValues(input, refColumn);
    var refColId := ColumnIdByTitle(s.columns, refColumn).value;
    PlanForEmptySheet(s.columns, input, refColumn, refColId, addMissing);
    var plan := PlanFor(Sheet(s.columns, []), input, refColumn, refColId, addMissing);
    assert PlanSync(Sheet(s.columns, []), input, refColumn, addMissing) == Ok(plan);
    var adds := if addMissing && |input.rows| > 0
                then [AddRowsCall(sheetId, NewRowsFor(s.columns, input, refColumn, refs))] else [];
    assert SyncCalls(sheetId, plan) == [] + adds;
    assert SyncPass(sheetId, Ok(plan)) == PassResult(Pass, adds);
  }
}
