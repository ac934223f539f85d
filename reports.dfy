/** The reports page: a filtered, paginated table of students loaded from
    the server, and exports of the filtered data as Excel, CSV or PDF. */
module Reports {
  import opened Optional
  import opened Api
  import opened Strings
  import opened Decimal
  import opened Paths

  // ---------------------------------------------------------------------
  // The filter form
  // ---------------------------------------------------------------------

  /** The student-id field is a `type="number"` input: its value is
      absent (`''` at first, `null` once the box is emptied) or the number
      typed. */
  type StudentIdValue = Option<int>

  /** The custom validator: `!value` (absent or 0) is allowed, otherwise
      the number must be greater than zero. */
  predicate ValidateStudentId(value: StudentIdValue) {
    value.None? || value.value == 0 || value.value > 0
  }

  /** The validator that `min="1"` attaches to a number input: an absent
      value passes, a number must be at least 1. */
  predicate MinValid(value: StudentIdValue) {
    value.None? || value.value >= 1
  }

  /** Both validators together accept exactly the empty field and the
      positive numbers; 0 passes the custom validator and is rejected only by
      the `min` one, and a negative number fails both. */
  lemma StudentIdFieldCases(value: StudentIdValue, n: int)
    ensures ValidateStudentId(value) && MinValid(value) <==> value.None? || value.value > 0
    ensures ValidateStudentId(Some(0)) && !MinValid(Some(0))
    ensures n < 0 ==> !ValidateStudentId(Some(n)) && !MinValid(Some(n))
  {
  }

  /** The id sent with a request, `value && !isNaN(Number(value)) ? Number(value)
      : undefined`: the field's number unless the field is empty or 0. */
  function StudentIdFilter(value: StudentIdValue): (id: Option<int>)
    ensures id.Some? <==> value.Some? && value.value != 0
    ensures id.Some? ==> id == value
  {
    if value.Some? && value.value != 0 then value else None
  }

  /** A field both validators accept is sent as it stands, so a present id
      is positive; a 0, which the form rejects, is not sent at all. */
  lemma StudentIdFilterOfValid(value: StudentIdValue)
    ensures ValidateStudentId(value) && MinValid(value) ==>
              StudentIdFilter(value) == value &&
              (StudentIdFilter(value).Some? ==> StudentIdFilter(value).value > 0)
    ensures StudentIdFilter(Some(0)) == None
  {
  }

  /** `className || undefined`. */
  function ClassFilter(className: string): (c: Option<string>)
    ensures c.Some? <==> className != ""
    ensures c.Some? ==> c.value == className
  {
    if className != "" then Some(className) else None
  }

  /** The body of an export request and the fields of a student query. */
  datatype ReportRequest = ReportRequest(page: int, size: int, studentId: Option<int>, className: Option<string>)

  // ---------------------------------------------------------------------
  // Query parameters
  // ---------------------------------------------------------------------

  /** The query string of a student query, as an ordered list of pairs:
      page and size always, then the id when there is one, then the class
      when it is non-empty. */
  function QueryParams(req: ReportRequest): seq<(string, string)> {
    [("page", IntToString(req.page)), ("size", IntToString(req.size))] +
    (if req.studentId.Some? then [("studentId", IntToString(req.studentId.value))] else []) +
    (if req.className.Some? && req.className.value != "" then [("className", req.className.value)] else [])
  }

  /** The value of the first parameter named `key`. */
  function Lookup(params: seq<(string, string)>, key: string): (v: Option<string>)
    ensures v.Some? <==> exists i :: 0 <= i < |params| && params[i].0 == key
  {
    if params == [] then None
    else if params[0].0 == key then Some(params[0].1)
    else
      var v := Lookup(params[1..], key);
      assert forall i :: 0 < i < |params| ==> params[i] == params[1..][i - 1];
      v
  }

  /** What a server reads back from a query string. */
  function DecodeQuery(params: seq<(string, string)>): Option<ReportRequest> {
    var page := Lookup(params, "page");
    var size := Lookup(params, "size");
    if page.None? || size.None? || ParseInt(page.value).None? || ParseInt(size.value).None? then None
    else
      var id := Lookup(params, "studentId");
      Some(ReportRequest(ParseInt(page.value).value, ParseInt(size.value).value,
                         if id.Some? then ParseInt(id.value) else None,
                         Lookup(params, "className")))
  }

  /** The first parameter named `key` is the one found. */
  lemma {:induction false} LookupFirst(params: seq<(string, string)>, key: string, i: int)
    requires 0 <= i < |params| && params[i].0 == key
    requires forall j :: 0 <= j < i ==> params[j].0 != key
    ensures Lookup(params, key) == Some(params[i].1)
  {
    if i > 0 {
      assert params[1..][i - 1] == params[i];
      LookupFirst(params[1..], key, i - 1);
    }
  }

  /** The query string carries the whole request: decoding it gives the
      request back, for every request whose class is absent or non-empty
      (which is every request the page builds). */
  lemma QueryParamsRoundTrip(req: ReportRequest)
    requires req.className != Some("")
    ensures DecodeQuery(QueryParams(req)) == Some(req)
  {
    ParseIntToString(req.page);
    ParseIntToString(req.size);
    if req.studentId.Some? {
      ParseIntToString(req.studentId.value);
    }
    QueryParamsLookups(req);
  }

  /** What each name looks up in the query parameters of `req`. */
  lemma QueryParamsLookups(req: ReportRequest)
    requires req.className != Some("")
    ensures Lookup(QueryParams(req), "page") == Some(IntToString(req.page))
    ensures Lookup(QueryParams(req), "size") == Some(IntToString(req.size))
    ensures Lookup(QueryParams(req), "studentId") ==
              if req.studentId.Some? then Some(IntToString(req.studentId.value)) else None
    ensures Lookup(QueryParams(req), "className") == req.className
  {
    var ps := QueryParams(req);
    var head := [("page", IntToString(req.page)), ("size", IntToString(req.size))];
    var ids := if req.studentId.Some? then [("studentId", IntToString(req.studentId.value))] else [];
    var cls := if req.className.Some? then [("className", req.className.value)] else [];
    assert ps == head + ids + cls;
    LookupFirst(ps, "page", 0);
    LookupFirst(ps, "size", 1);
    if req.studentId.Some? {
      LookupFirst(ps, "studentId", 2);
    } else {
      assert forall i :: 0 <= i < |ps| ==> ps[i].0 != "studentId";
    }
    if req.className.Some? {
      LookupFirst(ps, "className", |ps| - 1);
    } else {
      assert forall i :: 0 <= i < |ps| ==> ps[i].0 != "className";
    }
  }

  /** The position of a parameter name in the order page, size, studentId,
      className. */
  function KeyRank(key: string): int {
    if key == "page" then 0
    else if key == "size" then 1
    else if key == "studentId" then 2
    else if key == "className" then 3
    else 4
  }

  /** The parameters come in the order page, size, studentId, className,
      each at most once, page and size first; the id is there exactly when
      the request has one and the class exactly when it is non-empty. */
  lemma QueryParamsOrder(req: ReportRequest)
    ensures |QueryParams(req)| >= 2
    ensures QueryParams(req)[0].0 == "page" && QueryParams(req)[1].0 == "size"
    ensures forall i, j :: 0 <= i < j < |QueryParams(req)| ==>
              KeyRank(QueryParams(req)[i].0) < KeyRank(QueryParams(req)[j].0)
    ensures (exists i :: 0 <= i < |QueryParams(req)| && QueryParams(req)[i].0 == "studentId") <==>
              req.studentId.Some?
    ensures (exists i :: 0 <= i < |QueryParams(req)| && QueryParams(req)[i].0 == "className") <==>
              req.className.Some? && req.className.value != ""
    ensures req.studentId.Some? ==> QueryParams(req)[2].0 == "studentId"
    ensures req.className.Some? && req.className.value != "" ==>
              QueryParams(req)[|QueryParams(req)| - 1] == ("className", req.className.value)
  {
    var ps := QueryParams(req);
    var hasId := req.studentId.Some?;
    var hasClass := req.className.Some? && req.className.value != "";
    assert |ps| == 2 + (if hasId then 1 else 0) + (if hasClass then 1 else 0);
    assert forall i :: 0 <= i < |ps| ==>
      KeyRank(ps[i].0) == (if i < 2 || hasId then i else i + 1);
    if hasId {
      assert ps[2].0 == "studentId";
    }
    if hasClass {
      assert ps[|ps| - 1].0 == "className";
    }
  }

  // ---------------------------------------------------------------------
  // Downloads of exported files
  // ---------------------------------------------------------------------

  const OctetStream: string := "application/octet-stream"
  const SpreadsheetMime: string := "application/vnd.openxmlformats-officedocument.spreadsheetml.sheet"

  /** The MIME type and file extension of a downloaded export. */
  datatype FormatInfo = FormatInfo(mimeType: string, extension: string)

  /** The format switch: known formats get their own type and extension;
      any other format is an octet stream saved with the format as its
      extension. */
  function FormatInfoOf(format: string): (info: FormatInfo)
    ensures format == "excel" ==> info == FormatInfo(SpreadsheetMime, "xlsx")
    ensures format == "csv" ==> info == FormatInfo("text/csv", "csv")
    ensures format == "pdf" ==> info == FormatInfo("application/pdf", "pdf")
    ensures format != "excel" && format != "csv" && format != "pdf" ==>
              info == FormatInfo(OctetStream, format)
  {
    match format
    case "excel" => FormatInfo(SpreadsheetMime, "xlsx")
    case "csv" => FormatInfo("text/csv", "csv")
    case "pdf" => FormatInfo("application/pdf", "pdf")
    case _ => FormatInfo(OctetStream, format)
  }

  /** Each of the three formats the page exports gets a MIME type of its own
      (never the octet stream), and an extension of its own. */
  lemma KnownFormatsDistinct(f1: string, f2: string)
    requires f1 in ["excel", "csv", "pdf"] && f2 in ["excel", "csv", "pdf"]
    requires f1 != f2
    ensures FormatInfoOf(f1).mimeType != FormatInfoOf(f2).mimeType
    ensures FormatInfoOf(f1).extension != FormatInfoOf(f2).extension
    ensures FormatInfoOf(f1).mimeType != OctetStream
  {
  }

  /** The name a download is saved under: the file name with "." and the
      extension added, unless it already ends with them. */
  function SaveAsName(fileName: string, ext: string): (name: string)
    ensures EndsWith(name, "." + ext)
    ensures StartsWith(name, fileName)
    ensures EndsWith(fileName, "." + ext) <==> name == fileName
    ensures !EndsWith(fileName, "." + ext) ==> name == fileName + "." + ext
  {
    if EndsWith(fileName, "." + ext) then fileName
    else
      var name := fileName + "." + ext;
      assert name[|name| - |"." + ext|..] == "." + ext;
      assert name[..|fileName|] == fileName;
      name
  }

  /** Adding the extension twice is adding it once. */
  lemma SaveAsNameIdempotent(fileName: string, ext: string)
    ensures SaveAsName(SaveAsName(fileName, ext), ext) == SaveAsName(fileName, ext)
  {
  }

  /** What happens to an exported file: the name it is fetched by, its MIME
      type and the name it is saved under. */
  datatype DownloadPlan = DownloadPlan(fetchName: string, mimeType: string, saveAs: string)

  /** The download of an export written at `filePath` in `format`, as
      written: the file is fetched by `split('/').pop() || split('\\').pop()
      || "report.<format>"`, typed by the format's MIME type and saved
      under that name with the format's extension when it lacks it. */
  function ReportDownload(filePath: string, format: string): (plan: DownloadPlan)
    ensures plan.fetchName == SplitPopBaseName(filePath, "report." + format)
    ensures plan.mimeType == FormatInfoOf(format).mimeType
    ensures plan.saveAs == SaveAsName(plan.fetchName, FormatInfoOf(format).extension)
    ensures EndsWith(plan.saveAs, "." + FormatInfoOf(format).extension)
    ensures StartsWith(plan.saveAs, plan.fetchName)
  {
    var fileName := SplitPopBaseName(filePath, "report." + format);
    var info := FormatInfoOf(format);
    DownloadPlan(fileName, info.mimeType, SaveAsName(fileName, info.extension))
  }

  /** The download as evidently intended: the file is fetched by its
      separator-agnostic base name. */
  function IntendedReportDownload(filePath: string, format: string): (plan: DownloadPlan)
    ensures plan.fetchName == BaseName(filePath, "report." + format)
    ensures plan.fetchName == "report." + format ||
              ('/' !in plan.fetchName && '\\' !in plan.fetchName && EndsWith(filePath, plan.fetchName))
    ensures plan.mimeType == FormatInfoOf(format).mimeType
    ensures plan.saveAs == SaveAsName(plan.fetchName, FormatInfoOf(format).extension)
    ensures EndsWith(plan.saveAs, "." + FormatInfoOf(format).extension)
    ensures StartsWith(plan.saveAs, plan.fetchName)
  {
    var fileName := BaseName(filePath, "report." + format);
    var info := FormatInfoOf(format);
    DownloadPlan(fileName, info.mimeType, SaveAsName(fileName, info.extension))
  }

  /** On a path without '\\' whose text after the last '/' is non-empty,
      the page downloads exactly what was intended. */
  lemma ReportDownloadsAgreeOnUnixPaths(filePath: string, format: string)
    requires '\\' !in filePath && LastSegment(filePath, '/') != []
    ensures ReportDownload(filePath, format) == IntendedReportDownload(filePath, format)
  {
    BaseNameAgreesOnUnixPaths(filePath, "report." + format);
  }

  /** What each export button's format means for its download: Excel is a
      spreadsheet saved as ".xlsx", CSV is text saved as ".csv", PDF is saved
      as ".pdf". */
  lemma ExportFormatsDownload(filePath: string)
    ensures ReportDownload(filePath, "excel").mimeType == SpreadsheetMime
    ensures EndsWith(ReportDownload(filePath, "excel").saveAs, ".xlsx")
    ensures ReportDownload(filePath, "csv").mimeType == "text/csv"
    ensures EndsWith(ReportDownload(filePath, "csv").saveAs, ".csv")
    ensures ReportDownload(filePath, "pdf").mimeType == "application/pdf"
    ensures EndsWith(ReportDownload(filePath, "pdf").saveAs, ".pdf")
  {
    assert "." + "xlsx" == ".xlsx";
    assert "." + "csv" == ".csv";
    assert "." + "pdf" == ".pdf";
  }

  /** As written, a PDF export written as "out\\s.pdf" is fetched by its
      whole path and saved under it. */
  lemma ReportDownloadExample()
    ensures ReportDownload("out\\s.pdf", "pdf") ==
              DownloadPlan("out\\s.pdf", "application/pdf", "out\\s.pdf")
  {
    var path := "out\\s.pdf";
    WindowsFetchNames(path);
    PdfSaveAsName(path);
  }

  /** As intended, the same export is fetched and saved as "s.pdf". */
  lemma IntendedReportDownloadExample()
    ensures IntendedReportDownload("out\\s.pdf", "pdf") ==
              DownloadPlan("s.pdf", "application/pdf", "s.pdf")
  {
    WindowsFetchNames("out\\s.pdf");
    PdfSaveAsName("s.pdf");
  }

  /** The two names of "out\\s.pdf": whole as written, "s.pdf" as intended. */
  lemma WindowsFetchNames(path: string)
    requires path == "out\\s.pdf"
    ensures SplitPopBaseName(path, "report.pdf") == path
    ensures BaseName(path, "report.pdf") == "s.pdf"
  {
    assert path == "out" + ['\\'] + "s.pdf";
    SplitPopOfWindowsPath("out", "s.pdf", "report.pdf");
  }

  /** A name already ending in ".pdf" is saved unchanged. */
  lemma PdfSaveAsName(name: string)
    requires name == "s.pdf" || name == "out\\s.pdf"
    ensures SaveAsName(name, "pdf") == name
  {
    assert "." + "pdf" == ".pdf";
    assert name[|name| - 4..] == ".pdf";
  }

  // ---------------------------------------------------------------------
  // The summary line
  // ---------------------------------------------------------------------

  /** The first row number of "Showing first - last of total". */
  function SummaryFirst(page: int, size: int): int {
    page * size + 1
  }

  /** The last row number of "Showing first - last of total". */
  function SummaryLast(page: int, size: int, total: int): (last: int)
    ensures last <= total
    ensures last <= (page + 1) * size
    ensures last == total || last == (page + 1) * size
  {
    if (page + 1) * size < total then (page + 1) * size else total
  }

  /** On a page that starts inside the result set, the summary names a
      non-empty range of at most one page of rows ending no later than the
      total. */
  lemma SummaryRange(page: int, size: int, total: int)
    requires size > 0 && page * size < total
    ensures SummaryFirst(page, size) <= SummaryLast(page, size, total) <= total
    ensures SummaryLast(page, size, total) - SummaryFirst(page, size) + 1 <= size
  {
    assert (page + 1) * size == page * size + size;
  }

  // ---------------------------------------------------------------------
  // The page
  // ---------------------------------------------------------------------

  /** The list response: `success` and, on success, one page of students
      with the paging the server applied. */
  datatype ReportPage = ReportPage(
    success: bool,
    students: seq<Student>,
    totalElements: int,
    currentPage: int,
    pageSize: int)

  /** The export response: `success`, `message` and the written file's path. */
  datatype ExportBody = ExportBody(success: bool, message: string, filePath: string)

  /** An export in flight: the format, which names the endpoint posted to
      and the download that follows, and the request posted. */
  datatype ExportCall = ExportCall(format: string, request: ReportRequest)

  const DefaultPageSize: int := 20

  datatype ReportsState = ReportsState(
    studentId: StudentIdValue,
    classNameFilter: string,
    students: seq<Student>,
    currentPage: int,
    pageSize: int,
    totalElements: int,
    isLoading: bool,
    isExporting: bool)

  class ReportsComponent {
    var studentId: StudentIdValue
    var classNameFilter: string
    var students: seq<Student>
    var currentPage: int
    var pageSize: int
    var totalElements: int
    var isLoading: bool
    var isExporting: bool

    function State(): ReportsState
      reads this
    {
      ReportsState(studentId, classNameFilter, students, currentPage, pageSize,
                   totalElements, isLoading, isExporting)
    }

    constructor()
      ensures State() == ReportsState(None, "", [], 0, DefaultPageSize, 0, false, false)
    {
      studentId := None;
      classNameFilter := "";
      students := [];
      currentPage := 0;
      pageSize := DefaultPageSize;
      totalElements := 0;
      isLoading := false;
      isExporting := false;
    }

    /** The form's validity: the student-id field's two validators (the
        class selector has none). */
    predicate FormValid()
      reads this
    {
      ValidateStudentId(studentId) && MinValid(studentId)
    }

    /** The request the current form and paging describe. */
    function CurrentRequest(): (req: ReportRequest)
      reads this
      ensures req.page == currentPage && req.size == pageSize
      ensures req.studentId == StudentIdFilter(studentId)
      ensures req.className == ClassFilter(classNameFilter)
    {
      ReportRequest(currentPage, pageSize, StudentIdFilter(studentId), ClassFilter(classNameFilter))
    }

    /** The summary line is shown when there is at least one result. */
    predicate ShowsSummary()
      reads this
    {
      totalElements > 0
    }

    /** The "no students found" panel. */
    predicate ShowsNoData()
      reads this
    {
      !isLoading && |students| == 0
    }

    /** The user edits the filter form. */
    method EditFilters(id: StudentIdValue, className: string)
      modifies this
      ensures State() == old(State()).(studentId := id, classNameFilter := className)
    {
      studentId := id;
      classNameFilter := className;
    }

    method OnInit() returns (params: seq<(string, string)>)
      modifies this
      ensures params == QueryParams(old(CurrentRequest()))
      ensures State() == old(State()).(isLoading := true)
    {
      params := LoadStudents();
    }

    /** Applying the filters on a valid form goes back to the first page and
        loads it; on an invalid form nothing is loaded and nothing changes. */
    method ApplyFilters() returns (params: Option<seq<(string, string)>>)
      modifies this
      ensures old(FormValid()) ==>
                (params == Some(QueryParams(old(CurrentRequest()).(page := 0))) &&
                 State() == old(State()).(currentPage := 0, isLoading := true))
      ensures !old(FormValid()) ==> params == None && State() == old(State())
    {
      if !FormValid() {
        return None;
      }
      currentPage := 0;
      var ps := LoadStudents();
      params := Some(ps);
    }

    /** Starts loading a page: busy, and the query string built parameter
        by parameter. Each name is set once, so each `set` appends. */
    method LoadStudents() returns (params: seq<(string, string)>)
      modifies this
      ensures params == QueryParams(old(CurrentRequest()))
      ensures State() == old(State()).(isLoading := true)
    {
      isLoading := true;
      var request := ReportRequest(currentPage, pageSize, StudentIdFilter(studentId),
                                   ClassFilter(classNameFilter));
      params := [];
      params := params + [("page", IntToString(request.page))];
      params := params + [("size", IntToString(request.size))];
      if request.studentId.Some? {
        params := params + [("studentId", IntToString(request.studentId.value))];
      }
      if request.className.Some? && request.className.value != "" {
        params := params + [("className", request.className.value)];
      }
    }

    /** The end of a load: a successful page replaces the rows and the
        paging wholesale; anything else leaves them. Loading ends either
        way, so the no-data panel then shows exactly when there are no rows. */
    method OnStudentsResponse(resp: Response<ReportPage>)
      modifies this
      ensures resp.Ok? && resp.payload.success ==>
                State() == old(State()).(students := resp.payload.students,
                                         totalElements := resp.payload.totalElements,
                                         currentPage := resp.payload.currentPage,
                                         pageSize := resp.payload.pageSize,
                                         isLoading := false)
      ensures !(resp.Ok? && resp.payload.success) ==> State() == old(State()).(isLoading := false)
      ensures ShowsNoData() <==> students == []
    {
      if resp.Ok? && resp.payload.success {
        students := resp.payload.students;
        totalElements := resp.payload.totalElements;
        currentPage := resp.payload.currentPage;
        pageSize := resp.payload.pageSize;
      }
      isLoading := false;
    }

    /** The paginator moves: the new page index and size are taken and that
        page is loaded. */
    method OnPageChange(pageIndex: int, size: int) returns (params: seq<(string, string)>)
      modifies this
      ensures params == QueryParams(old(CurrentRequest()).(page := pageIndex, size := size))
      ensures State() == old(State()).(currentPage := pageIndex, pageSize := size, isLoading := true)
    {
      currentPage := pageIndex;
      pageSize := size;
      params := LoadStudents();
    }

    /** An export button: on a valid form the export in `format` starts and
        its call is returned; on an invalid form nothing happens. */
    method ExportIfValid(format: string) returns (sent: Option<ExportCall>)
      modifies this
      ensures old(FormValid()) ==>
                (sent == Some(ExportCall(format, old(CurrentRequest()))) &&
                 State() == old(State()).(isExporting := true))
      ensures !old(FormValid()) ==> sent == None && State() == old(State())
    {
      if !FormValid() {
        return None;
      }
      var call := ExportData(format);
      sent := Some(call);
    }

    method ExportToExcel() returns (sent: Option<ExportCall>)
      modifies this
      ensures old(FormValid()) ==>
                (sent == Some(ExportCall("excel", old(CurrentRequest()))) &&
                 State() == old(State()).(isExporting := true))
      ensures !old(FormValid()) ==> sent == None && State() == old(State())
    {
      sent := ExportIfValid("excel");
    }

    method ExportToCsv() returns (sent: Option<ExportCall>)
      modifies this
      ensures old(FormValid()) ==>
                (sent == Some(ExportCall("csv", old(CurrentRequest()))) &&
                 State() == old(State()).(isExporting := true))
      ensures !old(FormValid()) ==> sent == None && State() == old(State())
    {
      sent := ExportIfValid("csv");
    }

    method ExportToPdf() returns (sent: Option<ExportCall>)
      modifies this
      ensures old(FormValid()) ==>
                (sent == Some(ExportCall("pdf", old(CurrentRequest()))) &&
                 State() == old(State()).(isExporting := true))
      ensures !old(FormValid()) ==> sent == None && State() == old(State())
    {
      sent := ExportIfValid("pdf");
    }

    /** Starts an export: busy, and the current request posted to the
        export endpoint of `format`. */
    method ExportData(format: string) returns (call: ExportCall)
      modifies this
      ensures call == ExportCall(format, old(CurrentRequest()))
      ensures State() == old(State()).(isExporting := true)
    {
      isExporting := true;
      var request := ReportRequest(currentPage, pageSize, StudentIdFilter(studentId),
                                   ClassFilter(classNameFilter));
      call := ExportCall(format, request);
    }

    /** The end of the export `call`: a successful one is downloaded in the
        call's format; exporting ends on success, on a server failure and on
        a transport failure. */
    method OnExportResponse(call: ExportCall, resp: Response<ExportBody>) returns (download: Option<DownloadPlan>)
      modifies this
      ensures download.Some? <==> resp.Ok? && resp.payload.success
      ensures download.Some? ==> download.value == ReportDownload(resp.payload.filePath, call.format)
      ensures State() == old(State()).(isExporting := false)
    {
      download := None;
      if resp.Ok? && resp.payload.success {
        download := Some(ReportDownload(resp.payload.filePath, call.format));
      }
      isExporting := false;
    }
  }
}
