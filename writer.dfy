/** The Smartsheet Writer node (writer.py): `execute` resolves the credentials,
    fetches the target sheet, optionally clears it, checks the reference column and
    issues the update and insert batches. */
module Writer {
  import opened Wrappers
  import opened Errors
  import opened Coercion
  import opened Credentials
  import opened Sheets
  import opened Reconcile
  import opened ReconcileProperties

  /** The sheets the service holds after a pass that failed: a missing sheet
      changes nothing; otherwise the clear, when it ran, has emptied the sheet
      and kept its columns. */
  function AfterFailedPass(sheets: map<string, Sheet>, sheetId: string, clearFirst: bool)
    : (m: map<string, Sheet>)
    ensures m.Keys == sheets.Keys
    ensures forall id :: id in sheets && (id != sheetId || !clearFirst) ==> m[id] == sheets[id]
    ensures clearFirst && sheetId in sheets ==>
      m[sheetId].columns == sheets[sheetId].columns && m[sheetId].rows == []
  {
    if clearFirst && sheetId in sheets then sheets[sheetId := Sheet(sheets[sheetId].columns, [])]
    else sheets
  }

  /** The writer node. `removeOldRefs` is pinned off in the source and no code path
      reads it, so it has no field here; rows without a match are never deleted. */
  class WriterNode {
    var accessToken: string
    var accessRegion: string
    const sheetId: string
    const referenceColumn: string
    const clearFirst: bool
    const addMissingRefs: bool

    /** `__init__` with the two environment variables, and the node's parameters. */
    constructor (envToken: string, envRegion: string, sheetId: string, referenceColumn: string,
                 clearFirst: bool, addMissingRefs: bool)
      ensures accessToken == envToken && accessRegion == envRegion
      ensures this.sheetId == sheetId && this.referenceColumn == referenceColumn
      ensures this.clearFirst == clearFirst && this.addMissingRefs == addMissingRefs
    {
      accessToken := envToken;
      accessRegion := envRegion;
      this.sheetId := sheetId;
      this.referenceColumn := referenceColumn;
      this.clearFirst := clearFirst;
      this.addMissingRefs := addMissingRefs;
    }

    /** "Clear sheet first": delete every row of `sheet`, 300 ids per call. */
    method ClearSheet(store: SheetStore, sheet: Sheet)
      requires sheetId in store.sheets && store.sheets[sheetId] == sheet
      modifies store
      ensures store.log == old(store.log) + ClearCalls(sheetId, sheet.rows)
      ensures store.sheets == old(store.sheets)[sheetId := Sheet(sheet.columns, [])]
    {
      var chunks := Chunks(RowIds(sheet.rows), DeleteChunkSize);
      NoDeletesYet(store.sheets, sheetId, sheet, chunks);
      for i := 0 to |chunks|
        invariant store.log == old(store.log) + ClearCalls(sheetId, sheet.rows)[..i]
        invariant store.sheets == AfterDeletes(old(store.sheets), sheetId, sheet, chunks, i)
      {
        DeleteChunk(store, old(store.sheets), old(store.log), sheet, i);
      }
      AllDeletesDone(old(store.sheets), sheetId, sheet);
    }

    /** One iteration of the clear: `delete_rows` for chunk `i` of the row ids,
        once the chunks before it were deleted from the sheets `before` and
        logged after `log`. */
    method DeleteChunk(store: SheetStore, ghost before: map<string, Sheet>, ghost log: seq<Call>,
                       sheet: Sheet, i: nat)
      requires i < |Chunks(RowIds(sheet.rows), DeleteChunkSize)|
      requires store.log == log + ClearCalls(sheetId, sheet.rows)[..i]
      requires store.sheets == AfterDeletes(before, sheetId, sheet, Chunks(RowIds(sheet.rows), DeleteChunkSize), i)
      modifies store
      ensures store.log == log + ClearCalls(sheetId, sheet.rows)[..i + 1]
      ensures store.sheets == AfterDeletes(before, sheetId, sheet, Chunks(RowIds(sheet.rows), DeleteChunkSize), i + 1)
    {
      var chunks := Chunks(RowIds(sheet.rows), DeleteChunkSize);
      store.DeleteRows(sheetId, chunks[i]);
      DeleteChunkStep(before, sheetId, sheet, chunks, i);
      ClearCallsStep(sheetId, sheet.rows, i);
    }

    /** The part of `execute` after the (optional) clear, on the sheet as fetched
        then: the reference-column checks, then the updates and inserts. */
    method Synchronise(store: SheetStore, sheet: Sheet, input: Table) returns (r: Outcome<InvalidParameters>)
      requires WellFormed(sheet) && ValidTable(input)
      modifies store
      ensures var p := SyncPass(sheetId, PlanSync(sheet, input, referenceColumn, addMissingRefs));
        r == p.outcome && store.log == old(store.log) + p.calls
      ensures r.Fail? ==> store.sheets == old(store.sheets)
      ensures OthersKept(old(store.sheets), store.sheets, sheetId)
    {
      if referenceColumn !in input.columns {
        return Fail(RefColumnNotInInput);
      }
      var refColumnId := ColumnIdByTitle(sheet.columns, referenceColumn);
      if refColumnId.None? {
        return Fail(RefColumnNotInOutput);
      }
      SendRows(store, sheet, input, refColumnId.value);
      r := Pass;
    }

    /** The index of the sheet's reference cells, then `update_rows` for the
        matched references and, when asked for, `add_rows` for the missing ones. */
    method SendRows(store: SheetStore, sheet: Sheet, input: Table, refColId: ColumnId)
      requires WellFormed(sheet) && ValidTable(input) && referenceColumn in input.columns
      modifies store
      ensures store.log == old(store.log)
        + SyncCalls(sheetId, PlanFor(sheet, input, referenceColumn, refColId, addMissingRefs))
      ensures OthersKept(old(store.sheets), store.sheets, sheetId)
    {
      var updated, newRows := BuildPlan(sheet, input, referenceColumn, refColId, addMissingRefs);
      if |updated| > 0 {
        store.UpdateRows(sheetId, updated);
      }
      ghost var updateCalls := if |updated| > 0 then [UpdateRowsCall(sheetId, updated)] else [];
      if |newRows| > 0 {
        store.AddRows(sheetId, newRows);
      }
      ghost var addCalls := if |newRows| > 0 then [AddRowsCall(sheetId, newRows)] else [];
      LogAppend(old(store.log), updateCalls, addCalls);
    }

    /** `execute` once the client exists: fetch the sheet, clear it when asked
        to and fetch it again, then synchronise it with the input. */
    method WriteSheet(input: Table, store: SheetStore) returns (r: Outcome<InvalidParameters>)
      requires ValidTable(input)
      requires sheetId in store.sheets ==> WellFormed(store.sheets[sheetId])
      modifies store
      ensures var found := if sheetId in old(store.sheets) then Some(old(store.sheets)[sheetId]) else None;
        var pass := WritePass(sheetId, referenceColumn, clearFirst, addMissingRefs, input, found);
        r == pass.outcome && store.log == old(store.log) + pass.calls
      ensures r.Fail? ==> store.sheets == AfterFailedPass(old(store.sheets), sheetId, clearFirst)
      ensures OthersKept(old(store.sheets), store.sheets, sheetId)
    {
      var found := store.GetSheet(sheetId);
      if found.None? {
        return Fail(SheetNotFound);
      }
      var sheet := found.value;
      WritePassOfSheet(sheetId, referenceColumn, clearFirst, addMissingRefs, input, sheet);
      EmptiedWellFormed(sheet);
      if clearFirst {
        r := ClearThenSynchronise(store, sheet, input);
      } else {
        r := Synchronise(store, sheet, input);
        ghost var p := SyncPass(sheetId, PlanSync(sheet, input, referenceColumn, addMissingRefs));
        assert [] + p.calls == p.calls;
      }
    }

    /** The clear, the second `get_sheet`, then the synchronisation of the
        emptied sheet. */
    method ClearThenSynchronise(store: SheetStore, sheet: Sheet, input: Table)
      returns (r: Outcome<InvalidParameters>)
      requires ValidTable(input) && WellFormed(sheet) && WellFormed(Sheet(sheet.columns, []))
      requires sheetId in store.sheets && store.sheets[sheetId] == sheet
      modifies store
      ensures var emptied := Sheet(sheet.columns, []);
        var p := SyncPass(sheetId, PlanSync(emptied, input, referenceColumn, addMissingRefs));
        && r == p.outcome
        && store.log == old(store.log) + (ClearCalls(sheetId, sheet.rows) + p.calls)
        && (r.Fail? ==> store.sheets == old(store.sheets)[sheetId := emptied])
      ensures OthersKept(old(store.sheets), store.sheets, sheetId)
    {
      ClearSheet(store, sheet);
      var found := store.GetSheet(sheetId);
      r := Synchronise(store, found.value, input);
      ghost var p := SyncPass(sheetId, PlanSync(found.value, input, referenceColumn, addMissingRefs));
      LogAppend(old(store.log), ClearCalls(sheetId, sheet.rows), p.calls);
    }

    /** `execute`. `credential` is the password of the credentials flow variable
        (None when there is none) and `store` is the service the client reaches. */
    method Execute(credential: Option<string>, input: Table, store: SheetStore)
      returns (client: Option<Connection>, r: Outcome<InvalidParameters>)
      requires ValidTable(input)
      requires sheetId in store.sheets ==> WellFormed(store.sheets[sheetId])
      modifies this, store
      ensures var a := ResolveAccess(old(accessToken), old(accessRegion), credential);
        if a.Err? then
          && r == Fail(a.error) && client == None
          && store.log == old(store.log) && store.sheets == old(store.sheets)
          && accessToken == old(accessToken) && accessRegion == old(accessRegion)
        else
          && accessToken == a.value.token && accessRegion == a.value.region
          && client == Some(Connection(a.value.token, SelectApiBase(a.value.region)))
          && var found := if sheetId in old(store.sheets) then Some(old(store.sheets)[sheetId]) else None;
             var pass := WritePass(sheetId, referenceColumn, clearFirst, addMissingRefs, input, found);
             && r == pass.outcome && store.log == old(store.log) + pass.calls
             && (r.Fail? ==> store.sheets == AfterFailedPass(old(store.sheets), sheetId, clearFirst))
             && OthersKept(old(store.sheets), store.sheets, sheetId)
    {
      var a := ResolveAccess(accessToken, accessRegion, credential);
      if a.Err? {
        return None, Fail(a.error);
      }
      accessToken, accessRegion := a.value.token, a.value.region;
      client := Some(Connection(accessToken, SelectApiBase(accessRegion)));
      r := WriteSheet(input, store);
    }
  }
}
