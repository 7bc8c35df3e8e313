# Smartsheet reader and writer nodes, modelled in Dafny

This project models the two KNIME nodes of the Smartsheet extension:

- The **Smartsheet Writer** (`knime_extension/src/nodes/writer.py`) synchronises an input table into a Smartsheet sheet.
  Its `execute` resolves the access token and region and picks the API base.
  It fetches the sheet and, with "Clear sheet first", deletes every row in batches of 300 ids.
  It checks that the reference ("Ref") column exists in the input and in the sheet.
  It indexes the sheet's reference cells against the input references.
  It sends one `update_rows` batch for the matched references.
  With "Add new", it sends one `add_rows` batch for the missing references.
  Every value sent goes through `get_smartsheet_cell_value`.
- The **Smartsheet Reader** (`knime_extension/src/nodes/reader.py`) reads a sheet or report page by page.
  It shares the token/region logic with the writer.
  It probes the row count with a one-row page, then requests pages `1..k` of 1000 rows.

Layout, one module per file:

| file | module | contents |
|---|---|---|
| `wrappers.dfy` | `Wrappers`, `Errors` | Option/Result/Outcome; the `InvalidParametersError` causes |
| `coercion.dfy` | `Coercion` | input scalars, Python `bool`/`int`/`float`/`int(str)`, `get_smartsheet_cell_value` |
| `credentials.dfy` | `Credentials` | `str.split(":")`, credential password, token/region resolution, API base |
| `sheets.dfy` | `Sheets` | columns, rows, cells, the input table, row payloads, and `SheetStore`: the service as an object with a ghost log of the mutations it received |
| `reconcile.dfy` | `Reconcile` | the writer's steps as specification functions, and the source's loops as methods proved equal to them |
| `properties.dfy` | `ReconcileProperties` | what the writer promises, proved about those functions |
| `reader.dfy` | `Reader` | page arithmetic, the page loop, `SmartsheetReaderNode` |
| `writer.dfy` | `Writer` | `SmartsheetWriterNode`, its state and its `execute` |

Modelling choices:

- The Smartsheet SDK is the `SheetStore` class.
  `get_sheet` reads its map of sheets.
  `delete_rows` removes the rows with the given ids.
  Every mutation is appended to the ghost `log`.
  `update_rows` and `add_rows` only log: what the service then stores is not modelled.
  The writer's `execute` is proved to append exactly the calls of the specification function `Reconcile.WritePass`.
- The input table is a list of column titles and rows of values.
  The sheet is a list of columns `(id, title, type)` and rows `(id, cells)`.
  A cell whose value is None is `Value.Null`.
- Environment variables and the credentials flow variable are parameters of the constructors and of `Execute`.

Four behaviours of the code that a reader might not expect; the model keeps them as written:

- The code deletes all rows ("Clear sheet first") **before** it checks the reference column.
  A misconfigured reference column therefore still empties the sheet.
  Only the "sheet not found" error precedes the deletion.
  `ReconcileProperties.ReferenceChecksFollowClear` states this order.
- Duplicate references in the sheet are not an error, although the node's documentation (writer.py:82-83) says so.
  The last row holding a reference wins the match, as `ReconcileProperties.MatchedRowIsLastHit` states.
- A combined credential is split into region and token only when it has exactly one `:`.
  It is not split at its first colon: a credential with two or more colons is used whole as the token.
- The reader fails on a sheet that has columns but no row.
  Its one page holds no row, so the concatenated frame has no column, and naming its columns raises a length mismatch (reader.py:151).
  `Reader.EmptySheetFails` states this. A report without source sheets fails the same way (reader.py:168).

## Model

| member | source | states |
|---|---|---|
| Coercion.Truthy | knime_extension/src/nodes/writer.py:133 | `bool(v)` is false exactly for `False`, `0`, `0.0` and `""` |
| Coercion.Trunc | knime_extension/src/nodes/writer.py:136 | `int(x)` of a float truncates toward zero: the result is the integer between 0 and `x` that is within 1 of `x` |
| Coercion.IntCast | knime_extension/src/nodes/writer.py:135-136 | `int(v)` raises exactly for a missing value or a text that is not an optionally signed decimal numeral |
| Coercion.ParseInt | knime_extension/src/nodes/writer.py:136 | `int(s)` succeeds exactly on a decimal numeral with an optional leading sign, and an unsigned numeral gives the number it denotes |
| Coercion.ParseIntSigned | knime_extension/src/nodes/writer.py:136 | a numeral after a `+` or `-` sign parses to the number its digits denote, negated after `-` |
| Coercion.FloatCast | knime_extension/src/nodes/writer.py:136-139 | `float(v)` of a float is the float itself; of any other value that `int(v)` accepts it is that integer |
| Coercion.CellValue | knime_extension/src/nodes/writer.py:128-141 | missing → `""` for every column type; otherwise CHECKBOX → `bool(v)`, before any numeric attempt; otherwise, per kind: bool → 0/1, int → itself, integral float → int, other float → float, numeral text → its int, other text → the text; only a CHECKBOX column ever gets a bool |
| Coercion.NumeralOfNatToString | knime_extension/src/nodes/writer.py:136 | the decimal text of a natural number denotes that number |
| Coercion.ParseIntOfString | knime_extension/src/nodes/writer.py:136-137 | `int(str(i)) == i` for every int, negative ones included |
| Coercion.CellValueIdempotent | knime_extension/src/nodes/writer.py:128-141 | coercing a value already sent gives the same value again, except for a missing value in a CHECKBOX column |
| Coercion.CheckboxNullNotIdempotent | knime_extension/src/nodes/writer.py:129-133 | a missing value in a CHECKBOX column is sent as `""`, which coerced again would become `False` |
| Coercion.IntegralValuesSentAsInt | knime_extension/src/nodes/writer.py:135-137 | outside CHECKBOX columns, `i`, `float(i)` and `str(i)` are all sent as the int `i` |
| Credentials.Split | knime_extension/src/nodes/reader.py:105 | `s.split(c)` has one more piece than `s` has separators, and no piece contains the separator |
| Credentials.JoinSplit | knime_extension/src/nodes/reader.py:105 | joining the pieces of a split with the separator gives the original string back |
| Credentials.SplitPrefix | knime_extension/src/nodes/reader.py:105 | a separator-free prefix glued to `t` only extends the first piece of `t`'s split |
| Credentials.SplitJoin | knime_extension/src/nodes/reader.py:105-107 | splitting the join of separator-free pieces gives the pieces back |
| Credentials.CredentialPassword | knime_extension/src/nodes/reader.py:173-190 | the password is returned exactly when the credential exists and is non-empty; otherwise the error is "credentials missing" |
| Credentials.ResolveAccess | knime_extension/src/nodes/reader.py:100-107 | a non-empty environment token is kept with the environment region; otherwise a missing or empty credential is an error; a credential with exactly one `:` gives region and token with `region + ":" + token == credential`; any other credential becomes the token and the region stays |
| Credentials.RegionPrefixedToken | knime_extension/src/nodes/writer.py:72-73 | the documented `eu:<token>` form yields region `eu` and the token |
| Credentials.CheckConfiguration | knime_extension/src/nodes/reader.py:94-97 | `configure` fails exactly when there is no environment token and no non-empty credential |
| Credentials.SelectApiBase | knime_extension/src/nodes/reader.py:109-114 | `"eu"` ↔ EU base, `"gov"` ↔ Gov base, every other region (`""` included) ↔ the default base |
| Reader.TruncDiv | knime_extension/src/nodes/reader.py:141 | `int(a / b)` for b > 0 is the quotient truncated toward zero, with bounds for both signs of `a` |
| Reader.PageCount | knime_extension/src/nodes/reader.py:141 | for a non-negative row count at least one page is requested |
| Reader.PageNumbers | knime_extension/src/nodes/reader.py:140-141 | the requested pages are `1, 2, …` in ascending order |
| Reader.PagesCoverRows | knime_extension/src/nodes/reader.py:140-141 | for n ≥ 1 rows the page count k satisfies `(k-1)*1000 < n <= k*1000`: every row is covered, no page is superfluous |
| Reader.EmptySheetRequestsOnePage | knime_extension/src/nodes/reader.py:141 | an empty sheet still requests exactly page 1 |
| Reader.GetPage | knime_extension/src/nodes/reader.py:121-127 | a page reports the total row count and holds at most `size` rows, and row i of the page is row `(page-1)*size + i` of the source |
| Reader.FrameWidth | knime_extension/src/nodes/reader.py:144-150 | the concatenated frame is as wide as its widest row: every row fits and one row attains the width; without rows it has no column |
| Reader.FullRowsFrameWidth | knime_extension/src/nodes/reader.py:144-151 | when there is at least one row and every row holds one value per column, the frame is exactly as wide as the sheet has columns, so naming its columns succeeds |
| Reader.EmptySheetFails | knime_extension/src/nodes/reader.py:145-151 | a sheet with columns but no row gives a frame with no column, so naming its columns fails |
| Reader.ReadRows | knime_extension/src/nodes/reader.py:118-168 | the requests are `(1,1)` then `(1000, p)` for every page p; the read succeeds exactly when the frame is as wide as the column titles and a report has source sheets, and otherwise fails with a length mismatch; on success the pages concatenate to exactly the source's rows, in order, and source sheets are kept only for a report |
| Reader.ReaderNode.constructor | knime_extension/src/nodes/reader.py:78-80 | token and region start as the environment values |
| Reader.ReaderNode.Execute | knime_extension/src/nodes/reader.py:99-170 | on a credential error nothing changes and the error is returned; otherwise the node keeps the resolved token/region and connects to the selected base; it returns every row of the source, its name, its titles and (for a report) its source sheets exactly when the frame fits them, and otherwise fails with a length mismatch |
| Sheets.ColumnById | knime_extension/src/nodes/writer.py:183-185 | the looked-up column is a sheet column with that id |
| Sheets.ColumnIdByTitle | knime_extension/src/nodes/writer.py:180-182 | no id exactly when no column has the title; otherwise the id of a column with that title |
| Sheets.TitleIdLookup | knime_extension/src/nodes/writer.py:180-185 | with unique column ids, looking up the title of the id found for a title gives that title back |
| Sheets.EmptiedWellFormed | knime_extension/src/nodes/writer.py:177 | the sheet fetched after the clear (same columns, no rows) is still well formed |
| Sheets.RemoveRows | knime_extension/src/nodes/writer.py:176 | after deleting ids, exactly the rows whose id was not deleted remain |
| Sheets.RemoveNoRows | knime_extension/src/nodes/writer.py:173-176 | deleting no id keeps every row, in order |
| Sheets.RemoveRowsTwice | knime_extension/src/nodes/writer.py:173-176 | two successive deletes equal one delete of both id sets |
| Sheets.RemoveCoveredRows | knime_extension/src/nodes/writer.py:173-176 | deleting a set holding every row's id leaves no row |
| Sheets.RemoveAllRows | knime_extension/src/nodes/writer.py:172-176 | deleting the ids of all rows leaves no row |
| Sheets.Position | knime_extension/src/nodes/writer.py:254 | the first position holding the element |
| Sheets.RefValues | knime_extension/src/nodes/writer.py:201-203 | one reference per input row; `MatchedRefs`, `MissingRefs` and `PlanForEmptySheet` state what the writer does with them |
| Sheets.LocRow | knime_extension/src/nodes/writer.py:245 | `loc[ref]` gives an input row whose reference value is `ref` |
| Sheets.LocRowIsTheRow | knime_extension/src/nodes/writer.py:245 | with unique input references, `loc` finds exactly the row holding the reference |
| Sheets.SheetStore.constructor | knime_extension/src/nodes/writer.py:162-164 | the service starts with the given sheets and an empty log |
| Sheets.SheetStore.GetSheet | knime_extension/src/nodes/writer.py:165-167 | the stored sheet, or none when the id is unknown |
| Sheets.SheetStore.DeleteRows | knime_extension/src/nodes/writer.py:176 | logs the call; the sheet loses exactly the rows with those ids |
| Sheets.SheetStore.UpdateRows | knime_extension/src/nodes/writer.py:264 | logs the call; no sheet but the target changes, and no sheet appears or vanishes |
| Sheets.SheetStore.AddRows | knime_extension/src/nodes/writer.py:294 | logs the call; no sheet but the target changes, and no sheet appears or vanishes |
| Reconcile.Chunks | knime_extension/src/nodes/writer.py:171-175 | every chunk is non-empty and holds at most `size` ids |
| Reconcile.ClearCalls | knime_extension/src/nodes/writer.py:169-176 | one `delete_rows` call per chunk of the row ids; `ClearDeletesEveryRow` states that the calls delete every row id once, in order, in batches of 1 to 300 |
| Reconcile.BuildIndex | knime_extension/src/nodes/writer.py:206-217 | the nested loop over rows and non-empty cells builds exactly the index `IndexHits` of the sheet's reference cells |
| Reconcile.Without | knime_extension/src/nodes/writer.py:218-220 | an element is kept exactly when it is in the list and not excluded |
| Reconcile.HitsLieInRows | knime_extension/src/nodes/writer.py:210-212 | every reference cell visited lies in its row, in the reference column, with a value |
| Reconcile.RowHitsLieInCells | knime_extension/src/nodes/writer.py:211-212 | the same, for the cells of one row |
| Reconcile.IndexShape | knime_extension/src/nodes/writer.py:206-217 | the matched keys are distinct and are exactly the matched references (their insertion order is stated one visit at a time by `AddHitKeepsKeyOrder`); every key is an input reference whose row is stored; every stored row is a visited row under its own id |
| Reconcile.IndexOfSheetFits | knime_extension/src/nodes/writer.py:242-250 | the index of a well-formed sheet gives the update loop all the lookups it performs |
| Reconcile.BuildUpdateCells | knime_extension/src/nodes/writer.py:249-259 | the inner loop over the target row's cells builds exactly `UpdateCells` |
| Reconcile.UpdateCells | knime_extension/src/nodes/writer.py:249-259 | at most one updated cell per cell of the target row (`UpdateCellsSynced` says which) |
| Reconcile.UpdateFor | knime_extension/src/nodes/writer.py:242-262 | the update row has the id the reference was matched to, and at most one cell per cell of that row |
| Reconcile.UpdatesFor | knime_extension/src/nodes/writer.py:240-262 | one update row per matched reference (`UpdatesShape` gives their order and ids) |
| Reconcile.BuildUpdates | knime_extension/src/nodes/writer.py:240-262 | the loop over the matched references builds exactly `UpdatesFor` the keys, in key order |
| Reconcile.BuildNewCells | knime_extension/src/nodes/writer.py:275-288 | the loop over the sheet columns builds exactly `NewCells` |
| Reconcile.BuildNewRows | knime_extension/src/nodes/writer.py:268-291 | the loop over the missing references builds exactly `NewRowsFor` them |
| Reconcile.NewCellFor | knime_extension/src/nodes/writer.py:277-286 | the cell belongs to the sheet column it is built for; in the reference column it holds the coerced reference itself |
| Reconcile.NewCells | knime_extension/src/nodes/writer.py:275-288 | at most one cell per sheet column (`NewCellsShape` says which) |
| Reconcile.NewRowFor | knime_extension/src/nodes/writer.py:270-291 | a new row goes to the bottom with at most one cell per sheet column |
| Reconcile.NewRowsFor | knime_extension/src/nodes/writer.py:268-291 | one new row per missing reference |
| Reconcile.PlanFor | knime_extension/src/nodes/writer.py:199-291 | the plan keeps the reference column's id; a reference is missing exactly when it is an input reference that was not matched; one update per matched reference; one insert per missing reference with "Add new", none without |
| Reconcile.BuildPlan | knime_extension/src/nodes/writer.py:201-291 | the index loop, the missing-reference filter and the two row loops build exactly the updates and inserts of `PlanFor` |
| Reconcile.PlanSync | knime_extension/src/nodes/writer.py:190-220 | a reference column missing from the input is the first error, then one missing from the sheet; a plan exists exactly when the column is in both |
| Reconcile.SyncPass | knime_extension/src/nodes/writer.py:190-197 | a reference-column error makes no call; a plan always succeeds |
| Reconcile.SyncCalls | knime_extension/src/nodes/writer.py:263-294 | at most two calls, all on this sheet and none a delete; an `update_rows` exactly when there are updates, an `add_rows` exactly when there are inserts |
| Reconcile.WritePass | knime_extension/src/nodes/writer.py:165-294 | an unknown sheet fails with "sheet not found" and makes no call; otherwise the calls start with the clear's deletes when the clear is asked for |
| ReconcileProperties.FlattenChunks | knime_extension/src/nodes/writer.py:172-176 | the chunks concatenate to exactly the id list, in order |
| ReconcileProperties.ChunksAreFull | knime_extension/src/nodes/writer.py:173-175 | every chunk but the last holds exactly 300 ids, so no more calls are made than needed |
| ReconcileProperties.FlattenSnoc | knime_extension/src/nodes/writer.py:173-176 | the ids of the first i+1 chunks are those of the first i followed by chunk i |
| ReconcileProperties.ClearStep | knime_extension/src/nodes/writer.py:173-176 | after one more delete call, the rows of one more chunk are gone |
| ReconcileProperties.DeleteChunkStep | knime_extension/src/nodes/writer.py:173-176 | the service's sheets after one more delete call are those after one more chunk |
| ReconcileProperties.NoDeletesYet | knime_extension/src/nodes/writer.py:169-172 | before any delete call the service holds the fetched sheet unchanged |
| ReconcileProperties.AllDeletesDone | knime_extension/src/nodes/writer.py:169-177 | after the delete calls for every chunk, the sheet has its columns and no row |
| ReconcileProperties.ClearCallsStep | knime_extension/src/nodes/writer.py:173-176 | the calls for chunks 0..i are those for 0..i-1 followed by the delete of chunk i |
| ReconcileProperties.ClearDeletesEveryRow | knime_extension/src/nodes/writer.py:169-176 | every clear call is a `delete_rows` on this sheet with 1 to 300 ids, and the ids of all calls are the sheet's row ids in order |
| ReconcileProperties.AddHitKeepsKeyOrder | knime_extension/src/nodes/writer.py:213-215 | a visit adds at most one matched reference, at the end; the references matched before keep their order, as in an insertion-ordered dict |
| ReconcileProperties.IndexSize | knime_extension/src/nodes/writer.py:210-217 | each visit adds at most one matched reference or one unmatched value |
| ReconcileProperties.MatchedRowIsLastHit | knime_extension/src/nodes/writer.py:210-215 | a reference is matched exactly when it is an input reference held by a visited cell; it maps to the row of the last such cell |
| ReconcileProperties.NoMatchCollects | knime_extension/src/nodes/writer.py:213-217 | the no-match list holds exactly the visited values that are not input references |
| ReconcileProperties.RefCellsAreHits | knime_extension/src/nodes/writer.py:210-212 | every non-empty cell of the reference column, in every row, is visited |
| ReconcileProperties.RowCellsAreHits | knime_extension/src/nodes/writer.py:211-212 | the same, for the cells of one row |
| ReconcileProperties.HitValues | knime_extension/src/nodes/writer.py:210-212 | the values the nested loop visits are exactly the values the sheet holds in its reference column |
| ReconcileProperties.MatchedRefs | knime_extension/src/nodes/writer.py:210-215 | a reference is matched exactly when it is an input reference the sheet holds in its reference column |
| ReconcileProperties.MissingRefs | knime_extension/src/nodes/writer.py:218-220 | a reference is missing exactly when it is an input reference the sheet does not hold; with `MatchedRefs`, every input reference is matched or missing, never both |
| ReconcileProperties.WithoutAppend | knime_extension/src/nodes/writer.py:218-220 | filtering distributes over concatenation, so the missing references keep input order |
| ReconcileProperties.WithoutNothing | knime_extension/src/nodes/writer.py:218-220 | excluding nothing keeps every reference, in order |
| ReconcileProperties.UpdatesShape | knime_extension/src/nodes/writer.py:242-262 | one update row per matched reference, in key order, with the id of the matched row |
| ReconcileProperties.UpdateCellsSynced | knime_extension/src/nodes/writer.py:241-259 | every updated cell rewrites a cell of the target row in an input column other than the reference column, with the input value coerced to the column type; every such cell of the target row is rewritten |
| ReconcileProperties.UpdateSkipsRefColumn | knime_extension/src/nodes/writer.py:241-250 | an update never writes the reference column |
| ReconcileProperties.UpdateForSkipsRefColumn | knime_extension/src/nodes/writer.py:242-259 | the update row for one matched reference never writes the reference column |
| ReconcileProperties.UpdatesSkipRefColumn | knime_extension/src/nodes/writer.py:240-262 | no update row built from the index writes the reference column |
| ReconcileProperties.PlanSkipsRefColumn | knime_extension/src/nodes/writer.py:199-264 | no update a pass sends writes the reference column |
| ReconcileProperties.NewCellsShape | knime_extension/src/nodes/writer.py:275-288 | a new row has a cell for every sheet column whose title is an input column, and no other cell |
| ReconcileProperties.NewRowCarriesRef | knime_extension/src/nodes/writer.py:272-284 | a new row goes to the bottom and its reference cell holds the coerced reference itself |
| ReconcileProperties.NewRowCopiesInput | knime_extension/src/nodes/writer.py:275-286 | every other cell of a new row, in a sheet column whose title is an input column, holds the located input row's value for that column, coerced to the column type |
| ReconcileProperties.NewRowsShape | knime_extension/src/nodes/writer.py:268-291 | one bottom-appended new row per missing reference, in order |
| ReconcileProperties.FailedPassOnlyClears | knime_extension/src/nodes/writer.py:165-197 | since the "Remove old" option is disabled (writer.py:101-103, `removeOldRefs = False`), a failed pass makes no call but the "Clear sheet first" deletes (writer.py:95-97, 169-175), and none without the clear; without the clear no row is ever deleted, so unmatched rows stay |
| ReconcileProperties.ReferenceChecksFollowClear | knime_extension/src/nodes/writer.py:169-197 | the reference-column errors come after the clear, whose deletes are already made |
| ReconcileProperties.PlanForEmptySheet | knime_extension/src/nodes/writer.py:177-220 | on an emptied sheet nothing matches: no update, every input reference missing, in order |
| ReconcileProperties.ClearedSheetAddsEveryRow | knime_extension/src/nodes/writer.py:169-294 | with the clear and a valid reference column the pass deletes every row, updates none, and (with "Add new") adds one row per input row |
| Writer.WriterNode.constructor | knime_extension/src/nodes/writer.py:105-107 | token and region start as the environment values; the parameters are kept |
| Writer.WriterNode.ClearSheet | knime_extension/src/nodes/writer.py:169-177 | appends exactly the clear's delete calls to the log and leaves the sheet with its columns and no row |
| Writer.WriterNode.DeleteChunk | knime_extension/src/nodes/writer.py:173-176 | one more delete call is logged, and the service holds the sheets as after one more chunk |
| Writer.WriterNode.Synchronise | knime_extension/src/nodes/writer.py:190-294 | outcome and calls are those `SyncPass` gives for `PlanSync` of the sheet; a failed reference check leaves every sheet as it was, and no sheet but the target ever changes |
| Writer.WriterNode.SendRows | knime_extension/src/nodes/writer.py:199-294 | appends exactly the update and insert calls of `PlanFor` the sheet, each only when non-empty; no sheet but the target changes |
| Writer.WriterNode.WriteSheet | knime_extension/src/nodes/writer.py:165-294 | outcome and appended calls are those of `WritePass` on the sheet the service held; after a failure every sheet is as it was, except that the clear has emptied the target sheet; on success too, no sheet but the target changes |
| Writer.WriterNode.ClearThenSynchronise | knime_extension/src/nodes/writer.py:169-294 | the calls are the clear's deletes followed by those of the pass on the emptied sheet; after a failure the target sheet keeps its columns and has no row; no other sheet changes |
| Writer.AfterFailedPass | knime_extension/src/nodes/writer.py:166-197 | after a failed pass every sheet is as before, except that with the clear the target sheet keeps its columns and loses every row |
| Writer.WriterNode.Execute | knime_extension/src/nodes/writer.py:143-297 | on a credential error nothing is sent and neither the node nor the sheets change; otherwise the node keeps the resolved token/region, connects to the selected base, its outcome and calls are those of `WritePass`, after a failure the sheets are those `AfterFailedPass` gives, and no sheet but the target ever changes |

## Left out

- Network I/O of the Smartsheet SDK: every call succeeds. Rejected batches (a `RemoteMutationError`) are not modelled.
- What the service stores after `update_rows` and `add_rows`: only the calls are recorded. After them the target sheet is unconstrained; the other sheets are kept.
- The pandas machinery: `to_pandas`, `set_index`, the dtypes of the reader's DataFrame and its `astype` cascade (reader.py:152-162). The reader returns the raw cell values; of the frame's assembly, only the width check made when its columns are named (reader.py:151, 168) is modelled. A short row padded with missing values is not.
- Floating point: floats are exact reals. `pd.isna` on NaN, `int(inf)` and float rounding are not modelled. The input's missing values are `Value.Null`.
- Python's cross-type equality (`1 == 1.0 == True`) in `cell.value in input_references` and in dict keys: references compare structurally.
- Coercion.IntCast: `int(str)` accepts an optional sign and ASCII digits only. Surrounding whitespace, `_` separators and non-ASCII digits are not modelled.
- Sheets.LocRow: duplicate references in the input are not modelled. There `loc[ref]` returns several rows, and the node's documentation calls this an error. `LocRow` takes the first row holding the reference.
- A sheet with duplicate column titles or ids, or a cell outside the sheet's columns: `Sheets.WellFormed` excludes them. The source's title → id dicts would silently keep the last duplicate.
- KNIME plumbing: decorators, parameters, flow variables, logging, `os.environ`. Environment values and the credential are parameters.
- The reader's `get_sheet` and `get_report` are one `Source` parameter. `include=["sourceSheets"]` is represented by the report's source sheets.
- `smartsheet_writer/extension.py`, `smartsheet_reader/extension.py` and `knime_extension/src/smartsheet_ext.py` hold no logic and are not part of this model.
