/** The Smartsheet Reader node (reader.py): credentials, the page-number list and
    the loop that fetches every page of a sheet or report. */
module Reader {
  import opened Wrappers
  import opened Errors
  import opened Coercion
  import opened Credentials

  /** Rows per page once the row count is known. */
  const PageSize: nat := 1000

  /** Python's `int(a / b)` for b > 0: true division, then truncation toward zero. */
  function TruncDiv(a: int, b: int): (q: int)
    requires b > 0
    ensures 0 <= a ==> 0 <= q && q * b <= a < q * b + b
    ensures a < 0 ==> q <= 0 && q * b - b < a <= q * b
  {
    if a >= 0 then a / b else -((-a) / b)
  }

  /** `int((total_row_count - 1) / page_size) + 1`, the bound of the page range. */
  function PageCount(totalRowCount: int): (k: int)
    ensures totalRowCount >= 0 ==> k >= 1
  {
    TruncDiv(totalRowCount - 1, PageSize) + 1
  }

  /** `[x + 1 for x in range(0, PageCount)]`: the pages requested, in order. */
  function PageNumbers(totalRowCount: int): (pages: seq<int>)
    ensures forall i :: 0 <= i < |pages| ==> pages[i] == i + 1
  {
    var k := PageCount(totalRowCount);
    seq(if k < 0 then 0 else k, i => i + 1)
  }

  /** With at least one row, the pages cover every row and none is superfluous. */
  lemma PagesCoverRows(n: int)
    requires n >= 1
    ensures var k := |PageNumbers(n)|;
      k >= 1 && (k - 1) * PageSize < n <= k * PageSize
  {
    var q := TruncDiv(n - 1, PageSize);
    assert q * PageSize <= n - 1 < q * PageSize + PageSize;
    assert |PageNumbers(n)| == q + 1;
  }

  /** An empty sheet still costs one request: -1 / 1000 truncates to 0. */
  lemma EmptySheetRequestsOnePage()
    ensures PageNumbers(0) == [1]
  {
    assert TruncDiv(-1, PageSize) == 0;
  }

  // ---------------------------------------------------------------------------
  // The remote side, as the reader sees it

  /** A source sheet of a report: `(Sheet ID, Sheet Name)`. */
  datatype SourceSheet = SourceSheet(id: int, name: string)

  /** A sheet or report as stored remotely: its name, its column titles, the cell
      values of its rows in order, and (for a report) its source sheets. */
  datatype Source = Source(name: string, columns: seq<string>, rows: seq<seq<Value>>,
                           sourceSheets: seq<SourceSheet>)

  /** What one `get_sheet` / `get_report` call returns. */
  datatype Response = Response(name: string, totalRowCount: nat, columns: seq<string>,
                               rows: seq<seq<Value>>, sourceSheets: seq<SourceSheet>)

  /** Page `page` (from 1) of `pageSize` rows: the rows at positions
      (page-1)*pageSize up to page*pageSize, clipped to the row count. */
  function GetPage(src: Source, pageSize: nat, page: int): (resp: Response)
    requires pageSize > 0 && page >= 1
    ensures resp.totalRowCount == |src.rows|
    ensures resp.rows == src.rows[Min((page - 1) * pageSize, |src.rows|)..Min(page * pageSize, |src.rows|)]
    ensures |resp.rows| <= pageSize
    ensures forall i :: 0 <= i < |resp.rows| ==> resp.rows[i] == src.rows[(page - 1) * pageSize + i]
  {
    var n := |src.rows|;
    Response(src.name, n, src.columns,
             src.rows[Min((page - 1) * pageSize, n)..Min(page * pageSize, n)], src.sourceSheets)
  }

  /** The tables and flow variable the node produces, before the pandas typing. */
  datatype ReadResult = ReadResult(sourceName: string, columns: seq<string>,
                                   rows: seq<seq<Value>>, sourceSheets: seq<SourceSheet>)

  /** Why the reader's `execute` raises: a credential problem, or pandas refusing
      a list of column names whose length differs from the frame's width. */
  datatype ReadError = Invalid(cause: InvalidParameters) | LengthMismatch

  /** The width of the frame pandas builds from lists of cell values: the longest
      list (shorter ones are padded), and no column at all without a row. */
  function FrameWidth(rows: seq<seq<Value>>): (w: nat)
    ensures forall i :: 0 <= i < |rows| ==> |rows[i]| <= w
    ensures rows == [] ==> w == 0
    ensures rows != [] ==> exists i :: 0 <= i < |rows| && |rows[i]| == w
  {
    if rows == [] then 0
    else
      var w := FrameWidth(rows[..|rows| - 1]);
      assert forall i :: 0 <= i < |rows| - 1 ==> rows[..|rows| - 1][i] == rows[i];
      if |rows[|rows| - 1]| > w then |rows[|rows| - 1]| else w
  }

  /** Rows that all hold one value per column make a frame exactly that wide. */
  lemma FullRowsFrameWidth(rows: seq<seq<Value>>, n: nat)
    requires rows != [] && forall i :: 0 <= i < |rows| ==> |rows[i]| == n
    ensures FrameWidth(rows) == n
  {
  }

  /** Whether the frames accept their column names: the data frame takes one name
      per column title, and for a report the source-sheet frame takes two. */
  predicate FramesFit(src: Source, isReport: bool)
  {
    FrameWidth(src.rows) == |src.columns| && (isReport ==> src.sourceSheets != [])
  }

  /** The body of `execute` after the client is built: a one-row probe for the
      row count, then pages 1..k of 1000 rows, concatenated and given the column
      titles. `requests` lists the (page size, page) of every call made. The pages
      read back every row of the source exactly once, in order. A sheet without
      rows (which has columns) leaves pandas a frame without columns, so naming its
      columns fails; so does naming the columns of a report's empty list of
      source sheets. */
  method ReadRows(src: Source, isReport: bool)
    returns (requests: seq<(nat, int)>, r: Result<ReadResult, ReadError>)
    ensures requests == [(1, 1)] + seq(|PageNumbers(|src.rows|)|, j => (PageSize, j + 1))
    ensures r.Ok? <==> FramesFit(src, isReport)
    ensures r.Err? ==> r.error == LengthMismatch
    ensures r.Ok? ==>
      && r.value.rows == src.rows && r.value.sourceName == src.name && r.value.columns == src.columns
      && r.value.sourceSheets == if isReport then src.sourceSheets else []
  {
    var sheet := GetPage(src, 1, 1);
    var sourceName := sheet.name;
    var total := sheet.totalRowCount;
    var pages := PageNumbers(total);
    var rows: seq<seq<Value>> := [];
    requests := [(1, 1)];
    for i := 0 to |pages|
      invariant requests == [(1, 1)] + seq(i, j => (PageSize, j + 1))
      invariant rows == src.rows[..Min(i * PageSize, total)]
      invariant sheet.columns == src.columns && sheet.sourceSheets == src.sourceSheets
    {
      sheet := GetPage(src, PageSize, pages[i]);
      assert src.rows[..Min((i + 1) * PageSize, total)]
          == src.rows[..Min(i * PageSize, total)] + sheet.rows;
      rows := rows + sheet.rows;
      requests := requests + [(PageSize, pages[i])];
    }
    if total >= 1 {
      PagesCoverRows(total);
    } else {
      EmptySheetRequestsOnePage();
    }
    assert rows == src.rows;
    if FrameWidth(rows) != |sheet.columns| {
      return requests, Err(LengthMismatch);
    }
    if isReport && sheet.sourceSheets == [] {
      return requests, Err(LengthMismatch);
    }
    r := Ok(ReadResult(sourceName, sheet.columns, rows, if isReport then sheet.sourceSheets else []));
  }

  /** A sheet with columns but no row makes the reader fail. */
  lemma EmptySheetFails(src: Source, isReport: bool)
    requires src.rows == [] && src.columns != []
    ensures !FramesFit(src, isReport)
  {
  }

  /** The reader node: the token and region start from the environment and are
      replaced by the credential on the first `execute` that needs it. */
  class ReaderNode {
    var accessToken: string
    var accessRegion: string
    const sheetId: string
    const sheetIsReport: bool

    /** `__init__`, with the two environment variables as parameters. */
    constructor (envToken: string, envRegion: string, sheetId: string, sheetIsReport: bool)
      ensures accessToken == envToken && accessRegion == envRegion
      ensures this.sheetId == sheetId && this.sheetIsReport == sheetIsReport
    {
      accessToken := envToken;
      accessRegion := envRegion;
      this.sheetId := sheetId;
      this.sheetIsReport := sheetIsReport;
    }

    /** `execute`: resolve the credentials, pick the service, read every page.
        `src` is the sheet (or report) `sheetId` names on that service. */
    method Execute(credential: Option<string>, src: Source)
      returns (client: Option<Connection>, r: Result<ReadResult, ReadError>)
      modifies this
      ensures var a := ResolveAccess(old(accessToken), old(accessRegion), credential);
        if a.Err? then
          && r == Err(Invalid(a.error)) && client == None
          && accessToken == old(accessToken) && accessRegion == old(accessRegion)
        else
          && accessToken == a.value.token && accessRegion == a.value.region
          && client == Some(Connection(a.value.token, SelectApiBase(a.value.region)))
          && (r.Ok? <==> FramesFit(src, sheetIsReport))
          && (r.Err? ==> r.error == LengthMismatch)
          && (r.Ok? ==>
                && r.value.rows == src.rows && r.value.sourceName == src.name && r.value.columns == src.columns
                && r.value.sourceSheets == (if sheetIsReport then src.sourceSheets else []))
    {
      var a := ResolveAccess(accessToken, accessRegion, credential);
      if a.Err? {
        return None, Err(Invalid(a.error));
      }
      accessToken, accessRegion := a.value.token, a.value.region;
      client := Some(Connection(accessToken, SelectApiBase(accessRegion)));
      var requests;
      requests, r := ReadRows(src, sheetIsReport);
    }
  }
}
