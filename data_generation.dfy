/** The data-generation page: ask the server to generate a spreadsheet with
    a chosen number of student records, or to run a quick performance test
    that generates several; then download or share the generated file. */
module DataGeneration {
  import opened Optional
  import opened Api
  import opened Strings
  import opened Paths

  // ---------------------------------------------------------------------
  // The record-count field
  // ---------------------------------------------------------------------

  const MinRecords: int := 1
  const MaxRecords: int := 1000000
  const DefaultRecords: int := 1000

  /** The amounts offered as one-click choices. */
  const QuickAmounts: seq<int> := [100, 500, 1000, 5000, 10000]

  /** The field's validators: present, at least 1, at most 1,000,000. */
  predicate RecordsValid(value: Option<int>) {
    value.Some? && MinRecords <= value.value <= MaxRecords
  }

  /** The field's validators accept exactly the counts 1..1,000,000. */
  lemma RecordsValidBounds(n: int)
    ensures RecordsValid(Some(n)) <==> 1 <= n <= 1000000
    ensures !RecordsValid(None)
    ensures !RecordsValid(Some(0)) && !RecordsValid(Some(1000001))
  {
  }

  /** The default count and every one-click amount satisfy the validators. */
  lemma QuickAmountsValid()
    ensures RecordsValid(Some(DefaultRecords))
    ensures forall a :: a in QuickAmounts ==> RecordsValid(Some(a))
  {
  }

  // ---------------------------------------------------------------------
  // Results
  // ---------------------------------------------------------------------

  /** One member of the quick-test response, in iteration order: its key
      and, when the member is an object with one, its `filePath`. */
  datatype PerformanceEntry = PerformanceEntry(key: string, filePath: Option<string>)

  /** The quick-test response: `success`, `message` and the other members
      (`test_<size>` per generated dataset). */
  datatype PerformanceBody = PerformanceBody(success: bool, message: string, entries: seq<PerformanceEntry>)

  /** What the page keeps as `generationResult`: a generation response as
      it came, or a record the page builds itself. */
  datatype GenerationResult = GenerationResult(
    success: bool,
    message: string,
    filePath: Option<string>,
    recordsGenerated: Option<int>,
    performanceResults: Option<PerformanceBody>)

  const QuickTestDoneMessage: string := "Quick performance test completed successfully"
  const QuickTestFailedPrefix: string := "Quick performance test failed: "
  const QuickTestErrorPrefix: string := "Error running quick performance test: "

  /** A string field that JavaScript treats as true: present and non-empty. */
  predicate Truthy(s: Option<string>) {
    s.Some? && s.value != ""
  }

  // ---------------------------------------------------------------------
  // Files of a quick performance test
  // ---------------------------------------------------------------------

  const TestPrefix: string := "test_"

  /** One downloadable dataset of a quick test. */
  datatype AvailableFile = AvailableFile(size: string, fileName: string, filePath: string)

  /** The dataset a member describes: a `test_` key with a non-empty path;
      its size is the key without the prefix. */
  function FileOf(e: PerformanceEntry): (f: Option<AvailableFile>)
    ensures f.Some? <==> StartsWith(e.key, TestPrefix) && Truthy(e.filePath)
    ensures f.Some? ==> e.key == TestPrefix + f.value.size &&
                        f.value.filePath == e.filePath.value &&
                        f.value.fileName == DownloadBaseName(e.filePath.value)
  {
    if StartsWith(e.key, TestPrefix) && Truthy(e.filePath) then
      assert e.key == e.key[..|TestPrefix|] + e.key[|TestPrefix|..];
      Some(AvailableFile(e.key[|TestPrefix|..], DownloadBaseName(e.filePath.value), e.filePath.value))
    else None
  }

  /** The datasets of a list of members, in iteration order. */
  function AvailableFiles(entries: seq<PerformanceEntry>): (files: seq<AvailableFile>)
    ensures |files| <= |entries|
  {
    if entries == [] then []
    else
      var init := AvailableFiles(entries[..|entries| - 1]);
      match FileOf(entries[|entries| - 1])
      case Some(f) => init + [f]
      case None => init
  }

  /** The list follows the iteration order: the datasets of a longer run of
      members are those of its first part followed by those of the rest. */
  lemma {:induction false} AvailableFilesAppend(a: seq<PerformanceEntry>, b: seq<PerformanceEntry>)
    ensures AvailableFiles(a + b) == AvailableFiles(a) + AvailableFiles(b)
    decreases |b|
  {
    if b == [] {
      assert a + b == a;
    } else {
      var b' := b[..|b| - 1];
      assert (a + b)[..|a + b| - 1] == a + b';
      assert (a + b)[|a + b| - 1] == b[|b| - 1];
      AvailableFilesAppend(a, b');
    }
  }

  /** One member contributes its dataset when it describes one, else nothing. */
  lemma AvailableFilesSingle(e: PerformanceEntry)
    ensures AvailableFiles([e]) == if FileOf(e).Some? then [FileOf(e).value] else []
  {
    assert [e][..0] == [];
  }

  /** A file is listed exactly when some member describes it. */
  lemma {:induction false} AvailableFilesMembers(entries: seq<PerformanceEntry>, f: AvailableFile)
    ensures f in AvailableFiles(entries) <==>
            exists i :: 0 <= i < |entries| && FileOf(entries[i]) == Some(f)
  {
    if entries != [] {
      var init := entries[..|entries| - 1];
      AvailableFilesMembers(init, f);
      if exists i :: 0 <= i < |entries| && FileOf(entries[i]) == Some(f) {
        var i :| 0 <= i < |entries| && FileOf(entries[i]) == Some(f);
        if i < |entries| - 1 {
          assert init[i] == entries[i];
        }
      }
      if exists i :: 0 <= i < |init| && FileOf(init[i]) == Some(f) {
        var i :| 0 <= i < |init| && FileOf(init[i]) == Some(f);
        assert entries[i] == init[i];
      }
    }
  }

  /** The list is empty exactly when no member describes a dataset, and its
      last file comes from the last member that does. */
  lemma {:induction false} AvailableFilesLast(entries: seq<PerformanceEntry>, i: int)
    requires 0 <= i < |entries| && FileOf(entries[i]).Some?
    requires forall j :: i < j < |entries| ==> FileOf(entries[j]).None?
    ensures AvailableFiles(entries) != []
    ensures AvailableFiles(entries)[|AvailableFiles(entries)| - 1] == FileOf(entries[i]).value
  {
    var init := entries[..|entries| - 1];
    var last := entries[|entries| - 1];
    assert AvailableFiles(entries) ==
           AvailableFiles(init) + (if FileOf(last).Some? then [FileOf(last).value] else []);
    if i < |entries| - 1 {
      assert init[i] == entries[i];
      assert forall j :: i < j < |init| ==> init[j] == entries[j];
      AvailableFilesLast(init, i);
    }
  }

  lemma {:induction false} AvailableFilesEmpty(entries: seq<PerformanceEntry>)
    ensures AvailableFiles(entries) == [] <==>
            forall j :: 0 <= j < |entries| ==> FileOf(entries[j]).None?
  {
    if entries != [] {
      var init := entries[..|entries| - 1];
      AvailableFilesEmpty(init);
      assert forall j :: 0 <= j < |init| ==> init[j] == entries[j];
    }
  }

  /** The `for ... in` loop that lists the datasets of a quick test. */
  method CollectAvailableFiles(results: PerformanceBody) returns (files: seq<AvailableFile>)
    ensures files == AvailableFiles(results.entries)
  {
    var entries := results.entries;
    files := [];
    var i := 0;
    while i < |entries|
      invariant 0 <= i <= |entries|
      invariant files == AvailableFiles(entries[..i])
    {
      var key := entries[i].key;
      var path := entries[i].filePath;
      if StartsWith(key, TestPrefix) && Truthy(path) {
        var testSize := key[|TestPrefix|..];
        var fileName := DownloadBaseName(path.value);
        files := files + [AvailableFile(testSize, fileName, path.value)];
      }
      assert entries[..i + 1][..i] == entries[..i];
      i := i + 1;
    }
    assert entries[..|entries|] == entries;
  }

  /** What a download or share action goes for. */
  datatype FileChoice =
    | FromPath(fileName: string)                  // the generated file
    | FromPerformanceTest(fileName: string, size: string)  // the largest test dataset
    | NoPerformanceFiles                          // "No files available ..."
    | NoFilePath                                  // "No file path available ..."

  /** The choice for a quick-test result: the last listed dataset, taken to
      be the largest. */
  function PerformanceChoice(results: PerformanceBody): FileChoice {
    var files := AvailableFiles(results.entries);
    if files == [] then NoPerformanceFiles
    else FromPerformanceTest(files[|files| - 1].fileName, files[|files| - 1].size)
  }

  /** No dataset is offered exactly when no member describes one; otherwise
      the one offered comes from the last member that does. */
  lemma PerformanceChoiceSpec(results: PerformanceBody, i: int)
    ensures PerformanceChoice(results).NoPerformanceFiles? <==>
              forall j :: 0 <= j < |results.entries| ==> FileOf(results.entries[j]).None?
    ensures 0 <= i < |results.entries| && FileOf(results.entries[i]).Some? &&
            (forall j :: i < j < |results.entries| ==> FileOf(results.entries[j]).None?) ==>
              PerformanceChoice(results) ==
                FromPerformanceTest(FileOf(results.entries[i]).value.fileName,
                                    FileOf(results.entries[i]).value.size)
  {
    AvailableFilesEmpty(results.entries);
    if 0 <= i < |results.entries| && FileOf(results.entries[i]).Some? &&
       (forall j :: i < j < |results.entries| ==> FileOf(results.entries[j]).None?) {
      AvailableFilesLast(results.entries, i);
    }
  }

  /** Quick-test datasets 100, 500 and 1000: the 1000-record file is chosen. */
  lemma PerformanceChoiceExample(results: PerformanceBody)
    requires results.entries == [
      PerformanceEntry("success", None),
      PerformanceEntry("test_100", Some("out/s100.xlsx")),
      PerformanceEntry("test_500", Some("out/s500.xlsx")),
      PerformanceEntry("test_1000", Some("out/s1000.xlsx"))]
    ensures PerformanceChoice(results).FromPerformanceTest?
    ensures PerformanceChoice(results).size == "1000"
  {
    var e := results.entries;
    assert e[3].key == TestPrefix + "1000";
    assert FileOf(e[3]).Some? by {
      assert e[3].key[..5] == TestPrefix;
    }
    PerformanceChoiceSpec(results, 3);
  }

  /** How a button names a generated file: `downloadFile` by its if/else
      split, `shareResults` by its `||` chain as written, and the share as
      evidently intended by the separator-agnostic base name. */
  datatype Naming = DownloadNaming | ShareNaming | IntendedShareNaming

  function NameFor(naming: Naming, path: string): string {
    match naming
    case DownloadNaming => DownloadBaseName(path)
    case ShareNaming => SplitPopBaseName(path, DefaultFileName)
    case IntendedShareNaming => BaseName(path, DefaultFileName)
  }

  // ---------------------------------------------------------------------
  // The page
  // ---------------------------------------------------------------------

  datatype GenerationState = GenerationState(
    numberOfRecords: Option<int>,
    isGenerating: bool,
    generationResult: Option<GenerationResult>)

  class DataGenerationComponent {
    var numberOfRecords: Option<int>
    var isGenerating: bool
    var generationResult: Option<GenerationResult>

    function State(): GenerationState
      reads this
    {
      GenerationState(numberOfRecords, isGenerating, generationResult)
    }

    constructor()
      ensures State() == GenerationState(Some(DefaultRecords), false, None)
    {
      numberOfRecords := Some(DefaultRecords);
      isGenerating := false;
      generationResult := None;
    }

    predicate FormValid()
      reads this
    {
      RecordsValid(numberOfRecords)
    }

    /** A one-click amount puts that amount in the field. */
    method SelectAmount(amount: int)
      modifies this
      ensures State() == old(State()).(numberOfRecords := Some(amount))
    {
      numberOfRecords := Some(amount);
    }

    /** Submitting the form starts a generation only when the field is
        valid; `request` is the record count sent, if any. */
    method OnSubmit() returns (request: Option<int>)
      modifies this
      ensures old(FormValid()) ==>
                (request == old(numberOfRecords) &&
                 State() == old(State()).(isGenerating := true, generationResult := None))
      ensures !old(FormValid()) ==> request == None && State() == old(State())
    {
      request := None;
      if FormValid() {
        request := GenerateData();
      }
    }

    /** Starts a generation: busy, previous result cleared, and the field's
        value sent as the requested record count. */
    method GenerateData() returns (request: Option<int>)
      modifies this
      ensures request == numberOfRecords
      ensures State() == old(State()).(isGenerating := true, generationResult := None)
    {
      isGenerating := true;
      generationResult := None;
      request := numberOfRecords;
    }

    /** The end of a generation: the response is kept as it came; a
        transport failure becomes a failed result with a network-error
        message. */
    method OnGenerateResponse(resp: Response<GenerationResult>)
      modifies this
      ensures State() == old(State()).(
                isGenerating := false,
                generationResult := Some(match resp
                  case Ok(body) => body
                  case TransportError(msg) =>
                    GenerationResult(false, NetworkErrorPrefix + msg, None, None, None)))
    {
      match resp {
        case Ok(body) =>
          generationResult := Some(body);
          isGenerating := false;
        case TransportError(msg) =>
          generationResult := Some(GenerationResult(false, NetworkErrorPrefix + msg, None, None, None));
          isGenerating := false;
      }
    }

    method RunQuickPerformanceTest()
      modifies this
      ensures State() == old(State()).(isGenerating := true, generationResult := None)
    {
      isGenerating := true;
      generationResult := None;
    }

    /** The end of a quick test: a success keeps the whole response under
        `performanceResults` with a fixed message; a server failure or a
        transport failure becomes a failed result with a prefixed message. */
    method OnQuickTestResponse(resp: Response<PerformanceBody>)
      modifies this
      ensures State() == old(State()).(
                isGenerating := false,
                generationResult := Some(match resp
                  case Ok(body) =>
                    if body.success
                    then GenerationResult(true, QuickTestDoneMessage, None, None, Some(body))
                    else GenerationResult(false, QuickTestFailedPrefix + body.message, None, None, None)
                  case TransportError(msg) =>
                    GenerationResult(false, QuickTestErrorPrefix + msg, None, None, None)))
    {
      match resp {
        case Ok(body) =>
          if body.success {
            generationResult := Some(GenerationResult(true, QuickTestDoneMessage, None, None, Some(body)));
          } else {
            generationResult := Some(GenerationResult(false, QuickTestFailedPrefix + body.message, None, None, None));
          }
          isGenerating := false;
        case TransportError(msg) =>
          generationResult := Some(GenerationResult(false, QuickTestErrorPrefix + msg, None, None, None));
          isGenerating := false;
      }
    }

    /** Which file the download button fetches: the generated file by its
        base name, else the last dataset of a quick test, else nothing. */
    method DownloadFile() returns (choice: FileChoice)
      ensures generationResult.Some? && Truthy(generationResult.value.filePath) ==>
                choice == FromPath(DownloadBaseName(generationResult.value.filePath.value))
      ensures generationResult.Some? && !Truthy(generationResult.value.filePath) &&
              generationResult.value.performanceResults.Some? ==>
                choice == PerformanceChoice(generationResult.value.performanceResults.value)
      ensures generationResult.None? ||
              (!Truthy(generationResult.value.filePath) && generationResult.value.performanceResults.None?) ==>
                choice == NoFilePath
    {
      choice := Choose(DownloadNaming);
    }

    /** Which file the share button points at. As written, the generated
        file is named by `split('/').pop() || split('\\').pop() || 'data.xlsx'`,
        which keeps the directories of a path without '/'; quick-test
        datasets as for the download button. */
    method ShareResults() returns (choice: FileChoice)
      ensures generationResult.Some? && Truthy(generationResult.value.filePath) ==>
                choice == FromPath(SplitPopBaseName(generationResult.value.filePath.value, DefaultFileName))
      ensures generationResult.Some? && !Truthy(generationResult.value.filePath) &&
              generationResult.value.performanceResults.Some? ==>
                choice == PerformanceChoice(generationResult.value.performanceResults.value)
      ensures generationResult.None? ||
              (!Truthy(generationResult.value.filePath) && generationResult.value.performanceResults.None?) ==>
                choice == NoFilePath
    {
      choice := Choose(ShareNaming);
    }

    /** The share button as evidently intended: a generated file is named by
        its separator-agnostic base name. */
    method ShareResultsIntended() returns (choice: FileChoice)
      ensures generationResult.Some? && Truthy(generationResult.value.filePath) ==>
                choice == FromPath(BaseName(generationResult.value.filePath.value, DefaultFileName))
      ensures generationResult.Some? && !Truthy(generationResult.value.filePath) &&
              generationResult.value.performanceResults.Some? ==>
                choice == PerformanceChoice(generationResult.value.performanceResults.value)
      ensures generationResult.None? ||
              (!Truthy(generationResult.value.filePath) && generationResult.value.performanceResults.None?) ==>
                choice == NoFilePath
    {
      choice := Choose(IntendedShareNaming);
    }

    /** The common part of the download and share buttons: a result with a
        truthy path names that file, else a quick-test result offers its last
        dataset (or none), else there is no file. */
    method Choose(naming: Naming) returns (choice: FileChoice)
      ensures generationResult.Some? && Truthy(generationResult.value.filePath) ==>
                choice == FromPath(NameFor(naming, generationResult.value.filePath.value))
      ensures generationResult.Some? && !Truthy(generationResult.value.filePath) &&
              generationResult.value.performanceResults.Some? ==>
                choice == PerformanceChoice(generationResult.value.performanceResults.value)
      ensures generationResult.None? ||
              (!Truthy(generationResult.value.filePath) && generationResult.value.performanceResults.None?) ==>
                choice == NoFilePath
    {
      if generationResult.Some? && Truthy(generationResult.value.filePath) {
        var path := generationResult.value.filePath.value;
        choice := FromPath(NameFor(naming, path));
      } else if generationResult.Some? && generationResult.value.performanceResults.Some? {
        var files := CollectAvailableFiles(generationResult.value.performanceResults.value);
        if |files| > 0 {
          var largest := files[|files| - 1];
          choice := FromPerformanceTest(largest.fileName, largest.size);
        } else {
          choice := NoPerformanceFiles;
        }
      } else {
        choice := NoFilePath;
      }
    }
  }
}
