# Student data front end: a Dafny model of its four pages

The front end has four Angular pages. Each one drives a REST back end for student records:

- **Database**: upload a CSV file into the store, with upload progress. The page shows the record count, lists the stored students, and filters that list by a search term and a class.
- **Data generation**: ask the server for a spreadsheet with a chosen number of generated records, or run a quick performance test that generates several; then download or share the result.
- **Data processing**: upload an Excel workbook and have it converted to CSV.
- **Reports**: a filtered, paginated table of students, and exports of the filtered data as Excel, CSV or PDF, which are then downloaded.

Each page is a Dafny class with the page's fields. Every HTTP call becomes two methods:

- one that starts the operation and returns the request it sends;
- one that receives the outcome as an `Api.Response` value: either the decoded body (`Ok`) or a transport failure with its message (`TransportError`).

Each class has a `State()` snapshot, so every method states its whole new state as `old(State())` with the changed fields. The pure parts of the pages are functions with proved properties:

- the base-name expressions;
- `getFileType`;
- the filter predicate and the sorted class list;
- the student-id validator;
- the query parameters;
- the format switch;
- the summary arithmetic.

Modules, one per file:

- `Optional`, `Api`: shared datatypes.
- `Strings`: prefixes, suffixes, `includes`, `split`/`pop`, and ASCII case mapping.
- `Decimal`: `toString` and `Number()` on integers.
- `Sorting`: JavaScript's default string sort over a set.
- `Paths`: the base names of server paths.
- `Database`, `DataGeneration`, `DataProcessing`, `Reports`: the four pages.

How JavaScript operations are modelled:

- `x || fallback` on a string is "x unless it is empty".
- `Math.round(loaded / total * 100)` is integer rounding, with halves rounded up.
- `Number(text)` is modelled on an optional `-` followed by decimal digits. Other text, including the empty string (which `Number` reads as 0), is `None`, standing for `NaN`.

## Model

| member | source | states |
|---|---|---|
| Strings.ContainsIff | src/app/components/database/database.component.ts:1294-1298 | `includes` holds exactly when the term occurs at some position of the text |
| Strings.JoinSplit | src/app/components/data-generation/data-generation.component.ts:852 | joining the pieces of `split(sep)` with `sep` gives back the string |
| Strings.SplitPiecesFree | src/app/components/data-generation/data-generation.component.ts:852 | no piece of `split(sep)` contains `sep` |
| Strings.LastSegmentSpec | src/app/components/data-generation/data-generation.component.ts:852 | `split(sep).pop()` is a suffix without `sep`; it is the whole string when `sep` is absent, and otherwise it is preceded by `sep` |
| Strings.LastSegmentOfSuffix | src/app/components/data-generation/data-generation.component.ts:852 | a string ending in `sep` then a `sep`-free `q` pops `q` |
| Strings.LastSegmentEmpty | src/app/components/data-generation/data-generation.component.ts:852 | `split(sep).pop()` is empty iff the string is empty or ends in `sep` |
| Strings.CaselessOccurrence | src/app/components/database/database.component.ts:1297 | in a text that has no letters, any term found is equal to every term with the same lower-case form |
| Decimal.NatToString | src/app/components/database/database.component.ts:1297 | the decimal text of a number is non-empty, made of digits, and starts with '0' only for 0 (no leading zero) |
| Decimal.IntToString | src/app/components/database/database.component.ts:1297 | `n.toString()`: digits for n ≥ 0, a '-' then digits for n < 0; `Decimal.ParseIntToString` shows it reads back as n |
| Decimal.ParseInt | src/app/components/reports/reports.component.ts:361-363 | `Number(text)` on an optional '-' and digits, `NaN` otherwise; its partner is `Decimal.ParseIntToString` |
| Decimal.ParseIntToString | src/app/components/reports/reports.component.ts:361-363 | `Number(n.toString())` is `n` for every integer |
| Decimal.DigitsOfNat | src/app/components/reports/reports.component.ts:361-363 | the digits `toString` writes have the number's value |
| Decimal.IntToStringChars | src/app/components/database/database.component.ts:1297 | an id's text holds only digits and a leading minus sign |
| Sorting.LessIrreflexive | src/app/components/database/database.component.ts:1283 | no string sorts before itself |
| Sorting.LessTransitive | src/app/components/database/database.component.ts:1283 | the default string order is transitive |
| Sorting.LessTotal | src/app/components/database/database.component.ts:1283 | any two different strings are ordered one way or the other |
| Sorting.InsertSpec | src/app/components/database/database.component.ts:1283 | inserting into a strictly sorted list keeps it strictly sorted and adds exactly the new value |
| Sorting.SortedDistinct | src/app/components/database/database.component.ts:1283 | `Array.from(new Set(xs)).sort()` is strictly ascending and holds exactly the values of `xs` |
| Sorting.StrictlySortedUnique | src/app/components/database/database.component.ts:1283 | only one list is strictly sorted and holds a given set of values, so any correct sort-of-a-set gives the same list |
| Database.Progress | src/app/components/database/database.component.ts:1202-1204 | the stored percentage is within half a point of loaded·100/total, with halves rounded up |
| Database.ProgressBounds | src/app/components/database/database.component.ts:1202-1204 | for 0 ≤ loaded ≤ total the percentage is in 0..100; it is 0 with nothing sent and 100 with everything sent |
| Database.ProgressMonotone | src/app/components/database/database.component.ts:1202-1204 | sending more never lowers the percentage |
| Database.MatchesSearch | src/app/components/database/database.component.ts:1294-1298 | the search term passes when empty or found, case-insensitively, in the first, last or class name, or found as typed in the decimal id; `Database.SearchIgnoresCase` is its property |
| Database.MatchesClass | src/app/components/database/database.component.ts:1300 | the class passes when the selector is empty or equals the student's class exactly |
| Database.Filtered | src/app/components/database/database.component.ts:1292-1304 | the result is no longer than the list; every kept student passes both filters; with both filters empty the whole list is kept |
| Database.FilteredIsSubsequence | src/app/components/database/database.component.ts:1293 | filtering keeps the students in their original order |
| Database.FilteredCounts | src/app/components/database/database.component.ts:1293-1303 | a passing student is kept as often as it occurs and a failing one is dropped, so the filter keeps exactly the passing students |
| Database.SearchIgnoresCase | src/app/components/database/database.component.ts:1294-1298 | two terms with the same lower-case form select the same students, the id test included |
| Database.FilterExample | src/app/components/database/database.component.ts:1292-1304 | "an" keeps Ann and drops Bob; adding class "Class2" drops both |
| Database.ClassNames | src/app/components/database/database.component.ts:1283 | `students.map(s => s.className)` keeps length and position |
| Database.UniqueClasses | src/app/components/database/database.component.ts:1282-1284 | the class options are strictly sorted and duplicate-free, and contain exactly the classes that occur in the list |
| Database.DatabaseComponent.constructor | src/app/components/database/database.component.ts:1109-1133 | the initial page state |
| Database.DatabaseComponent.HandleFile | src/app/components/database/database.component.ts:1162-1175 | a file is accepted iff its name ends in ".csv"; acceptance selects it and clears the result; a rejected file changes nothing |
| Database.DatabaseComponent.RemoveFile | src/app/components/database/database.component.ts:1177-1180 | clears the selection and the result and changes nothing else |
| Database.DatabaseComponent.ClearResults | src/app/components/database/database.component.ts:1286-1289 | clears the result and the selection and changes nothing else |
| Database.DatabaseComponent.UploadToDatabase | src/app/components/database/database.component.ts:1182-1190 | with no file, no request and no change; otherwise it sends the file, sets busy, and clears the result, progress and count |
| Database.DatabaseComponent.OnUploadProgress | src/app/components/database/database.component.ts:1200-1204 | without a total nothing changes; with a total the percentage is stored, and it is in 0..100 when loaded ≤ total |
| Database.DatabaseComponent.OnUploadResponse | src/app/components/database/database.component.ts:1205-1243 | busy ends; the body is kept as it came, or a transport failure becomes {false, "Network error: "+msg}; success stores `recordsUploaded` (0 when absent) and requests the record count and then the student list |
| Database.DatabaseComponent.LoadDatabaseStats | src/app/components/database/database.component.ts:1247-1248 | issues the record-count request and changes nothing on the page |
| Database.DatabaseComponent.LoadStudents | src/app/components/database/database.component.ts:1260-1261 | issues the student-list request and changes nothing on the page |
| Database.DatabaseComponent.OnStatsLoaded | src/app/components/database/database.component.ts:1247-1258 | a success stores `totalCount` (0 when absent); anything else changes nothing |
| Database.DatabaseComponent.OnStudentsLoaded | src/app/components/database/database.component.ts:1260-1268 | a success replaces the list (empty when absent), shows all of it, recomputes the class options and stamps the time; anything else changes nothing |
| Database.DatabaseComponent.UpdateUniqueClasses | src/app/components/database/database.component.ts:1282-1284 | the class options become the sorted distinct classes of the list |
| Database.DatabaseComponent.EditFilters | src/app/components/database/database.component.ts:285-291 | the search box and the class selector set their two fields only |
| Database.DatabaseComponent.FilterStudents | src/app/components/database/database.component.ts:1292-1304 | the shown list becomes the filtered list; nothing else changes |
| Paths.DownloadBaseName | src/app/components/data-generation/data-generation.component.ts:850-855 | with a '/': "data.xlsx" when the path ends in '/', otherwise the non-empty '/'-free suffix preceded by '/'; else with a '\\': the same for '\\'; else the whole path |
| Paths.DownloadBaseNameCases | src/app/components/data-generation/data-generation.component.ts:850-855 | the '/' split when the path has a '/', else the '\\' split when it has a '\\', else the path itself, an empty piece becoming "data.xlsx" |
| Paths.SplitPopBaseName | src/app/components/data-generation/data-generation.component.ts:960 | the as-written `split('/').pop() \|\| split('\\').pop() \|\| fallback`: the fallback, or a non-empty suffix of the path; '/'-free when the text after the last '/' is non-empty |
| Paths.SplitPopBaseNameCases | src/app/components/data-generation/data-generation.component.ts:960 | as written, a non-empty path with no '/' is returned whole; the '\\' split is used only when the text after the last '/' is empty |
| Paths.SplitPopKeepsWindowsDirectories | src/app/components/data-generation/data-generation.component.ts:960 | as written, "a\\b\\c.csv" comes back unchanged, directories included |
| Paths.SplitPopOfWindowsPath | src/app/components/reports/reports.component.ts:482 | as written, every path without '/' ending in '\\' and a file name comes back whole, and so differs from the corrected base name, which is the file name |
| Paths.BaseName | src/app/components/data-generation/data-generation.component.ts:960 | the corrected base name: the fallback exactly when the path is empty or ends in a separator; otherwise the non-empty suffix with neither separator that is preceded by a separator or is the whole path |
| Paths.BaseNameUnixExample | src/app/components/data-generation/data-generation.component.ts:960 | "a/b/c.csv" gives "c.csv" |
| Paths.BaseNameWindowsExample | src/app/components/data-generation/data-generation.component.ts:960 | "a\\b\\c.csv" gives "c.csv" |
| Paths.BaseNameBareExample | src/app/components/data-generation/data-generation.component.ts:960 | "c.csv" gives "c.csv" |
| Paths.BaseNameOfUnixPath | src/app/components/data-generation/data-generation.component.ts:960 | any directory, then '/', then a separator-free file name gives the file name |
| Paths.BaseNameOfPath | src/app/components/data-generation/data-generation.component.ts:960 | any directory, then '/' or '\\', then a separator-free file name gives the file name |
| Paths.BaseNameOfWindowsPath | src/app/components/data-generation/data-generation.component.ts:960 | any directory, then '\\', then a separator-free file name gives the file name |
| Paths.BaseNameAgreesWithDownload | src/app/components/data-generation/data-generation.component.ts:850-855 | on a non-empty path with only one kind of separator, the corrected base name equals the download's base name |
| Paths.BaseNameAgreesOnUnixPaths | src/app/components/reports/reports.component.ts:482 | on a path without '\\' whose last '/'-segment is non-empty, the as-written and the corrected base names agree |
| Paths.MixedSeparatorPath | src/app/components/data-generation/data-generation.component.ts:850-855 | on a path with a '\\' after its last '/', `downloadFile` keeps the text after the last '/', '\\' included, while the corrected base name is the file name alone |
| DataGeneration.RecordsValidBounds | src/app/components/data-generation/data-generation.component.ts:740 | the record count is valid iff it is present and in 1..1,000,000 |
| DataGeneration.QuickAmountsValid | src/app/components/data-generation/data-generation.component.ts:732-740 | the default 1000 and each of 100, 500, 1000, 5000 and 10000 pass the validators |
| DataGeneration.FileOf | src/app/components/data-generation/data-generation.component.ts:891-900 | a member describes a dataset iff its key starts with "test_" and it has a non-empty path; the size is the key without "test_" and the name is the download base name |
| DataGeneration.AvailableFiles | src/app/components/data-generation/data-generation.component.ts:888-902 | the datasets of the members, never more than the members; `AvailableFilesSingle` and `AvailableFilesAppend` fix it member by member in iteration order, and `AvailableFilesMembers`, `AvailableFilesLast` and `AvailableFilesEmpty` give membership, the last file and emptiness |
| DataGeneration.AvailableFilesAppend | src/app/components/data-generation/data-generation.component.ts:888-902 | the datasets of two runs of members are those of the first followed by those of the second, so the list keeps iteration order |
| DataGeneration.AvailableFilesSingle | src/app/components/data-generation/data-generation.component.ts:891-900 | one member contributes its dataset when it describes one, and nothing otherwise |
| DataGeneration.AvailableFilesMembers | src/app/components/data-generation/data-generation.component.ts:888-902 | a file is listed iff some member describes it |
| DataGeneration.AvailableFilesLast | src/app/components/data-generation/data-generation.component.ts:904-906 | the last listed file comes from the last member that describes one |
| DataGeneration.AvailableFilesEmpty | src/app/components/data-generation/data-generation.component.ts:904 | the list is empty iff no member describes a dataset |
| DataGeneration.CollectAvailableFiles | src/app/components/data-generation/data-generation.component.ts:888-902 | the `for…in` loop builds exactly the list of described datasets, in order |
| DataGeneration.PerformanceChoice | src/app/components/data-generation/data-generation.component.ts:904-946 | the quick-test choice: "no files", or the last listed dataset; `DataGeneration.PerformanceChoiceSpec` characterises it |
| DataGeneration.PerformanceChoiceSpec | src/app/components/data-generation/data-generation.component.ts:904-946 | "no files" iff no member describes a dataset; otherwise the dataset of the last such member is chosen |
| DataGeneration.PerformanceChoiceExample | src/app/components/data-generation/data-generation.component.ts:904-906 | of the 100, 500 and 1000 record datasets, the 1000 one is chosen |
| DataGeneration.DataGenerationComponent.constructor | src/app/components/data-generation/data-generation.component.ts:730-741 | the field holds 1000; the page is not busy and has no result |
| DataGeneration.DataGenerationComponent.SelectAmount | src/app/components/data-generation/data-generation.component.ts:744-746 | sets the record count and nothing else |
| DataGeneration.DataGenerationComponent.OnSubmit | src/app/components/data-generation/data-generation.component.ts:748-752 | a valid form starts a generation with the field's count; an invalid form sends nothing and changes nothing |
| DataGeneration.DataGenerationComponent.GenerateData | src/app/components/data-generation/data-generation.component.ts:754-762 | sets busy, clears the result and sends the count |
| DataGeneration.DataGenerationComponent.OnGenerateResponse | src/app/components/data-generation/data-generation.component.ts:764-798 | busy ends; the response is kept as it came, or a transport failure becomes {false, "Network error: "+msg} |
| DataGeneration.DataGenerationComponent.RunQuickPerformanceTest | src/app/components/data-generation/data-generation.component.ts:801-805 | sets busy and clears the result |
| DataGeneration.DataGenerationComponent.OnQuickTestResponse | src/app/components/data-generation/data-generation.component.ts:807-843 | busy ends in every case; success gives {true, fixed message, performanceResults = response}; a server failure gives {false, "Quick performance test failed: "+message}; a transport failure gives {false, "Error running quick performance test: "+msg} |
| DataGeneration.DataGenerationComponent.DownloadFile | src/app/components/data-generation/data-generation.component.ts:846-955 | a result with a file path downloads its base name; otherwise a quick-test result uses the last dataset, or reports no files; otherwise there is no file path |
| DataGeneration.DataGenerationComponent.ShareResults | src/app/components/data-generation/data-generation.component.ts:957-1069 | like the download, but a direct path is named as written by `split('/').pop() \|\| split('\\').pop() \|\| 'data.xlsx'` |
| DataGeneration.DataGenerationComponent.ShareResultsIntended | src/app/components/data-generation/data-generation.component.ts:957-960 | the share as evidently intended: a direct path is named by the separator-agnostic base name; quick-test results as for the page |
| DataGeneration.DataGenerationComponent.Choose | src/app/components/data-generation/data-generation.component.ts:888-946 | a result with a truthy path names that file by the given naming; else a quick-test result offers its last dataset or "no files"; else there is no file path |
| DataProcessing.GetFileType | src/app/components/data-processing/data-processing.component.ts:927-929 | the upper-cased text after the last '.', which holds no '.'; the whole name upper-cased when there is no '.'; "" for a name ending in '.' |
| DataProcessing.GetFileTypeOfExcel | src/app/components/data-processing/data-processing.component.ts:907-929 | every accepted name shows "XLSX" (".xlsx") or "XLS" (".xls") |
| DataProcessing.GetFileTypeExample | src/app/components/data-processing/data-processing.component.ts:927-929 | "scores.2024.xlsx" shows "XLSX" |
| DataProcessing.DataProcessingComponent.constructor | src/app/components/data-processing/data-processing.component.ts:870-872 | no file, not busy, no result |
| DataProcessing.DataProcessingComponent.HandleFile | src/app/components/data-processing/data-processing.component.ts:907-920 | a file is accepted iff its name ends in ".xlsx" or ".xls"; acceptance selects it and clears the result; a rejected file changes nothing |
| DataProcessing.DataProcessingComponent.RemoveFile | src/app/components/data-processing/data-processing.component.ts:922-925 | clears the selection and result and changes nothing else |
| DataProcessing.DataProcessingComponent.ConvertToCsv | src/app/components/data-processing/data-processing.component.ts:931-942 | with no file, no request and no change; otherwise it sends the file, sets busy and clears the result |
| DataProcessing.DataProcessingComponent.OnConvertResponse | src/app/components/data-processing/data-processing.component.ts:944-978 | busy ends; the response is kept as it came, or a transport failure becomes {false, "Network error: "+msg} |
| Reports.ValidateStudentId | src/app/components/reports/reports.component.ts:316-325 | the custom validator: an absent value or 0 (`!value`) passes, otherwise the number must be > 0 |
| Reports.MinValid | src/app/components/reports/reports.component.ts:62 | the `min="1"` validator of the number input: an absent value passes, a number must be ≥ 1 |
| Reports.StudentIdFieldCases | src/app/components/reports/reports.component.ts:62-325 | together the validators accept exactly the empty field and the positive numbers; 0 passes the custom validator and fails only `min`; negatives fail both |
| Reports.StudentIdFilter | src/app/components/reports/reports.component.ts:349-351 | an id is sent iff the field holds a number other than 0 (`value && …` is falsy for 0), and it is that number |
| Reports.StudentIdFilterOfValid | src/app/components/reports/reports.component.ts:349-351 | a field the form accepts is sent as it stands, so a sent id is positive; 0 sends no id |
| Reports.ClassFilter | src/app/components/reports/reports.component.ts:357 | a class is sent iff the selector is non-empty |
| Reports.QueryParams | src/app/components/reports/reports.component.ts:360-364 | the parameters page, size, then studentId when given and className when non-empty; `QueryParamsRoundTrip` and `QueryParamsOrder` are its properties |
| Reports.Lookup | src/app/components/reports/reports.component.ts:360-364 | a parameter is found iff one of that name is present |
| Reports.QueryParamsRoundTrip | src/app/components/reports/reports.component.ts:360-364 | decoding the query parameters gives back the request (page, size, id and class) |
| Reports.QueryParamsOrder | src/app/components/reports/reports.component.ts:360-364 | page and size always come first; the parameters follow the order page, size, studentId, className; the id is there iff given and the class iff non-empty |
| Reports.FormatInfoOf | src/app/components/reports/reports.component.ts:487-503 | excel → (spreadsheet type, "xlsx"), csv → ("text/csv", "csv"), pdf → ("application/pdf", "pdf"), any other format → (octet stream, the format) |
| Reports.KnownFormatsDistinct | src/app/components/reports/reports.component.ts:490-503 | the three export formats get distinct MIME types, none of them the octet stream, and distinct extensions |
| Reports.SaveAsName | src/app/components/reports/reports.component.ts:509 | the saved name is the file name when that already ends in "."+ext, and the file name followed by "."+ext otherwise |
| Reports.SaveAsNameIdempotent | src/app/components/reports/reports.component.ts:509 | applying the rule twice is applying it once |
| Reports.ReportDownload | src/app/components/reports/reports.component.ts:481-509 | as written, the file is fetched by `split('/').pop() \|\| split('\\').pop() \|\| "report.<format>"`, typed by the format, and saved under `SaveAsName` of that name and the format's extension |
| Reports.IntendedReportDownload | src/app/components/reports/reports.component.ts:481-509 | the download as evidently intended: fetched by the separator-agnostic base name, a separator-free suffix of the path or "report.<format>", and saved under `SaveAsName` of that name |
| Reports.ReportDownloadsAgreeOnUnixPaths | src/app/components/reports/reports.component.ts:482 | on a path without '\\' whose last '/'-segment is non-empty, the page's download is the intended one |
| Reports.ExportFormatsDownload | src/app/components/reports/reports.component.ts:487-509 | an Excel export downloads as the spreadsheet type saved with ".xlsx", CSV as "text/csv" with ".csv", PDF as "application/pdf" with ".pdf" |
| Reports.ReportDownloadExample | src/app/components/reports/reports.component.ts:482-509 | as written, a PDF written as "out\\s.pdf" is fetched and saved as "out\\s.pdf" |
| Reports.IntendedReportDownloadExample | src/app/components/reports/reports.component.ts:482-509 | as intended, the same PDF is fetched and saved as "s.pdf" |
| Reports.SummaryLast | src/app/components/reports/reports.component.ts:133 | the last row shown is at most the total and at most the end of the page, and it is one of the two |
| Reports.SummaryRange | src/app/components/reports/reports.component.ts:129-136 | on a page that starts before the total, first ≤ last ≤ total and at most one page of rows is named |
| Reports.ReportsComponent.constructor | src/app/components/reports/reports.component.ts:289-314 | empty filters and rows, page 0, size 20, total 0, not busy |
| Reports.ReportsComponent.FormValid | src/app/components/reports/reports.component.ts:62-310 | the form is valid iff the student-id field passes its custom and its `min` validator |
| Reports.ReportsComponent.CurrentRequest | src/app/components/reports/reports.component.ts:353-358 | the request carries the page, the size, the id filter and the class filter |
| Reports.ReportsComponent.ShowsSummary | src/app/components/reports/reports.component.ts:129 | the summary line is shown iff the total is positive |
| Reports.ReportsComponent.ShowsNoData | src/app/components/reports/reports.component.ts:189 | the no-data panel is shown iff nothing is loading and there are no rows |
| Reports.ReportsComponent.EditFilters | src/app/components/reports/reports.component.ts:309-312 | editing the form sets the id value and the class, and nothing else |
| Reports.ReportsComponent.OnInit | src/app/components/reports/reports.component.ts:327-329 | the first load, with the initial parameters |
| Reports.ReportsComponent.ApplyFilters | src/app/components/reports/reports.component.ts:331-344 | an invalid form loads nothing and changes nothing; a valid form resets to page 0 and loads with that page |
| Reports.ReportsComponent.LoadStudents | src/app/components/reports/reports.component.ts:346-366 | sets loading and builds, parameter by parameter, exactly the query parameters of the current request |
| Reports.ReportsComponent.OnStudentsResponse | src/app/components/reports/reports.component.ts:367-385 | a success replaces rows, total, page and size together; anything else leaves them; loading ends either way, and the no-data panel then shows iff there are no rows |
| Reports.ReportsComponent.OnPageChange | src/app/components/reports/reports.component.ts:389-393 | takes the event's page and size and loads with them |
| Reports.ReportsComponent.ExportIfValid | src/app/components/reports/reports.component.ts:395-406 | an invalid form exports nothing and changes nothing; a valid form starts the export and returns its format with the current request |
| Reports.ReportsComponent.ExportToExcel | src/app/components/reports/reports.component.ts:395-406 | the Excel button: nothing on an invalid form, otherwise an "excel" export of the current request |
| Reports.ReportsComponent.ExportToCsv | src/app/components/reports/reports.component.ts:408-419 | the CSV button: nothing on an invalid form, otherwise a "csv" export of the current request |
| Reports.ReportsComponent.ExportToPdf | src/app/components/reports/reports.component.ts:421-432 | the PDF button: nothing on an invalid form, otherwise a "pdf" export of the current request |
| Reports.ReportsComponent.ExportData | src/app/components/reports/reports.component.ts:434-448 | sets exporting and posts the current request to the endpoint of its format, returned with it |
| Reports.ReportsComponent.OnExportResponse | src/app/components/reports/reports.component.ts:449-477 | exporting ends on success, server failure and transport failure; exactly a success is downloaded, with the download plan of its path and of the format the call was made with |

## Left out

- HTTP itself is left out: URLs, `FormData`, `encodeURIComponent`, `URLSearchParams.toString` and percent-encoding. A request is the value a start method returns; a response is a parameter of the matching completion method.
- Pop-up notifications (`MatSnackBar`) are left out. They change no page state.
- Blob and object-URL downloads, `navigator.share`, `window.location` and the download request for a chosen file are browser APIs. The model stops at the file chosen and the names and MIME type used.
- Drag-over flags, templates, styles and pipes (`toFixed`, `toLocaleString`, dates) are presentation only.
- The clock is the parameter `now`. `lastUpdated` is modelled as that reading.
- `averageScore` and `totalClasses` of the database page are never assigned, so they have no model.
- Case mapping covers ASCII letters only; Unicode case mapping is left out.
- Sorting is JavaScript's default comparison on character codes. Characters outside the Basic Multilingual Plane, which JavaScript compares as UTF-16 code units, are not distinguished.
- Decimal.ParseInt covers only an optional '-' followed by decimal digits. Other forms `Number()` accepts, such as spaces, '+', a decimal point, exponents and hexadecimal, count as not numeric, and so does the empty string, which `Number("")` reads as 0. It is used only for what a server reads back from the query string, where every value is non-empty.
- Reports.StudentIdFilter: the student-id field is a `type="number"` input, modelled as the integer it holds or as absent. Non-integer numbers such as 1.5 are not modelled. 0 passes the custom validator (`!value`), fails only the `min="1"` validator, and is not sent as an id (`0 && …` is falsy); loads started by `OnInit` or `OnPageChange` do not check the form.
- Database.Progress: the floating-point detail of `Math.round(loaded / total * 100)` is not modelled. It is integer round-half-up.
- The record-count field of the data-generation form is an optional integer. Non-integer input is not modelled.
- Quick-test members are modelled as a key and an optional `filePath`. A member whose value is `null` would make the page throw; this is not modelled.
- Reports.OnExportResponse: a successful export body is assumed to carry a `filePath`. Without one the page throws before clearing `isExporting`; this is not modelled.
- On the database page, the search box and the class selector are bound with `ngModel`, but nothing calls `filterStudents`. The model offers `EditFilters` and `FilterStudents` as separate operations.
- The `[disabled]` guards on the buttons are template bindings and are not modelled: they keep a second request from starting while one runs. They are on the export buttons while exporting (src/app/components/reports/reports.component.ts:95-113), the upload button while uploading (src/app/components/database/database.component.ts:149), the convert button while converting (src/app/components/data-processing/data-processing.component.ts:136), the generate button while generating or when the form is invalid (src/app/components/data-generation/data-generation.component.ts:125), and the quick-test button while generating (src/app/components/data-generation/data-generation.component.ts:136). The start methods can therefore be called while busy.

## Findings

| source | as written | input that shows it | evidently intended | confidence | as-written member | corrected member |
|---|---|---|---|---|---|---|
| src/app/components/data-generation/data-generation.component.ts:960 | `filePath.split('/').pop() \|\| filePath.split('\\').pop() \|\| 'data.xlsx'` | "a\\b\\c.csv": the '/' split yields the whole non-empty path, so the '\\' split is never reached and the name keeps its directories | the base name after the last '/' or '\\', as the comment at line 849 and the download code at lines 850-855 do | high (not executed) | Paths.SplitPopKeepsWindowsDirectories | Paths.BaseName |
| src/app/components/reports/reports.component.ts:482 | the same expression, with the fallback "report." + format | a report written as "out\\s.pdf" is fetched as "out\\s.pdf" instead of "s.pdf" | the base name after the last '/' or '\\' | high (not executed) | Paths.SplitPopOfWindowsPath | Paths.BaseName |

The pages are modelled as written: `DataGeneration.DataGenerationComponent.ShareResults` and `Reports.ReportDownload` use `Paths.SplitPopBaseName`. The corrected behaviour uses `Paths.BaseName` and is stated beside them, as `DataGeneration.DataGenerationComponent.ShareResultsIntended` and `Reports.IntendedReportDownload`. `Reports.ReportDownloadsAgreeOnUnixPaths` and `Paths.BaseNameAgreesOnUnixPaths` show that the two agree on Unix paths.
