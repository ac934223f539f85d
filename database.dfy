/** The database page: upload a CSV file into the backing store (with
    upload progress), show the record count, list the stored students and
    filter that list in memory. */
module Database {
  import opened Optional
  import opened Api
  import opened Strings
  import opened Decimal
  import opened Sorting

  /** Body of the upload response. */
  datatype UploadBody = UploadBody(success: bool, message: string, recordsUploaded: Option<int>)

  /** Body of the record-count response. */
  datatype CountBody = CountBody(success: bool, totalCount: Option<int>)

  /** Body of the student-list response. */
  datatype StudentsBody = StudentsBody(success: bool, students: Option<seq<Student>>)

  /** Only CSV files are accepted for upload. */
  predicate IsCsvName(name: string) {
    EndsWith(name, ".csv")
  }

  // ---------------------------------------------------------------------
  // Upload progress
  // ---------------------------------------------------------------------

  /** `Math.round(loaded / total * 100)` over integers: the percentage of
      `total` that `loaded` is, rounded to the nearest integer, halves up. */
  function Progress(loaded: nat, total: nat): (p: int)
    requires total > 0
    ensures -(total as int) < 2 * (p * total - 100 * loaded) <= total
  {
    var n, d := 200 * loaded + total, 2 * total;
    var q := n / d;
    assert n == q * d + n % d;
    assert q * d == 2 * (q * total);
    q
  }

  /** The percentage of a transfer that has not overrun its total lies in
      0..100, from 0 for nothing sent to 100 for everything sent. */
  lemma ProgressBounds(loaded: nat, total: nat)
    requires 0 < total && loaded <= total
    ensures 0 <= Progress(loaded, total) <= 100
    ensures loaded == 0 ==> Progress(loaded, total) == 0
    ensures loaded == total ==> Progress(loaded, total) == 100
  {
    var p := Progress(loaded, total);
    assert -(total as int) < 2 * (p * total) - 200 * loaded <= total;
    MulLessCancel(-1, p, total);
    MulLessCancel(p, 101, total);
    if loaded == 0 {
      MulLessCancel(p, 1, total);
    }
    if loaded == total {
      MulLessCancel(99, p, total);
    }
  }

  /** More bytes sent never shows a smaller percentage. */
  lemma ProgressMonotone(l1: nat, l2: nat, total: nat)
    requires 0 < total && l1 <= l2
    ensures Progress(l1, total) <= Progress(l2, total)
  {
    var p1, p2 := Progress(l1, total), Progress(l2, total);
    assert 2 * (p1 * total) <= 200 * l1 + total;
    assert 200 * l2 - total < 2 * (p2 * total);
    assert p1 * total < (p2 + 1) * total by {
      assert (p2 + 1) * total == p2 * total + total;
    }
    MulLessCancel(p1, p2 + 1, total);
  }

  lemma MulLessCancel(a: int, b: int, c: int)
    requires c > 0 && a * c < b * c
    ensures a < b
  {
  }

  // ---------------------------------------------------------------------
  // In-memory filtering of the student list
  // ---------------------------------------------------------------------

  /** The search box: empty, or a case-insensitive substring of the first
      name, last name or class name, or a substring of the decimal id. */
  predicate MatchesSearch(s: Student, term: string) {
    var t := ToLower(term);
    term == ""
    || Contains(ToLower(s.firstName), t)
    || Contains(ToLower(s.lastName), t)
    || Contains(IntToString(s.studentId), term)
    || Contains(ToLower(s.className), t)
  }

  /** The class selector: empty, or exactly the student's class. */
  predicate MatchesClass(s: Student, cls: string) {
    cls == "" || s.className == cls
  }

  predicate Matches(s: Student, term: string, cls: string) {
    MatchesSearch(s, term) && MatchesClass(s, cls)
  }

  /** `students.filter(...)`: the students that pass both filters, in order. */
  function Filtered(students: seq<Student>, term: string, cls: string): (r: seq<Student>)
    ensures |r| <= |students|
    ensures forall k :: 0 <= k < |r| ==> Matches(r[k], term, cls)
    ensures term == "" && cls == "" ==> r == students
  {
    if students == [] then []
    else
      var rest := Filtered(students[1..], term, cls);
      if Matches(students[0], term, cls) then [students[0]] + rest else rest
  }

  /** `a` is `b` with some elements left out, the rest kept in order. */
  ghost predicate IsSubsequence<T>(a: seq<T>, b: seq<T>) {
    if a == [] then true
    else if b == [] then false
    else (a[0] == b[0] && IsSubsequence(a[1..], b[1..])) || IsSubsequence(a, b[1..])
  }

  /** Filtering keeps the order of the list. */
  lemma {:induction false} FilteredIsSubsequence(students: seq<Student>, term: string, cls: string)
    ensures IsSubsequence(Filtered(students, term, cls), students)
  {
    if students != [] {
      FilteredIsSubsequence(students[1..], term, cls);
    }
  }

  /** Filtering keeps every matching record, as often as it occurs, and
      drops every other one. */
  lemma {:induction false} FilteredCounts(students: seq<Student>, term: string, cls: string, x: Student)
    ensures multiset(Filtered(students, term, cls))[x] ==
            if Matches(x, term, cls) then multiset(students)[x] else 0
  {
    if students != [] {
      FilteredCounts(students[1..], term, cls, x);
      assert students == [students[0]] + students[1..];
    }
  }

  /** The search is case-insensitive: two search terms with the same
      lower-case form select the same students. */
  lemma SearchIgnoresCase(s: Student, t1: string, t2: string)
    requires ToLower(t1) == ToLower(t2)
    ensures MatchesSearch(s, t1) == MatchesSearch(s, t2)
  {
    var d := IntToString(s.studentId);
    IntToStringChars(s.studentId);
    if Contains(d, t1) {
      CaselessOccurrence(d, t1, t2);
    }
    if Contains(d, t2) {
      CaselessOccurrence(d, t2, t1);
    }
  }

  /** Search "an" keeps Ann (Class1) and drops Bob (Class2); adding the class
      filter "Class2" drops both. */
  lemma FilterExample(ann: Student, bob: Student)
    requires ann == Student(1, "Ann", "Lee", "2001-02-03", "Class1", 90.0)
    requires bob == Student(2, "Bob", "Ray", "2001-04-05", "Class2", 80.0)
    ensures Filtered([ann, bob], "an", "") == [ann]
    ensures Filtered([ann, bob], "an", "Class2") == []
  {
    AnnMatches(ann);
    BobDoesNotMatch(bob);
    assert [ann, bob][1..] == [bob];
    assert [bob][1..] == [];
  }

  lemma AnnMatches(ann: Student)
    requires ann == Student(1, "Ann", "Lee", "2001-02-03", "Class1", 90.0)
    ensures Matches(ann, "an", "") && !Matches(ann, "an", "Class2")
  {
    assert ToLower("an") == "an";
    assert ToLower("Ann") == "ann";
    assert StartsWith("ann", "an");
  }

  lemma BobDoesNotMatch(bob: Student)
    requires bob == Student(2, "Bob", "Ray", "2001-04-05", "Class2", 80.0)
    ensures !MatchesSearch(bob, "an")
  {
    assert IntToString(2) == "2";
    NoMatchWithoutN(bob);
  }

  /** A student with no 'n' or 'N' in any searched field does not match "an". */
  lemma NoMatchWithoutN(s: Student)
    requires forall i :: 0 <= i < |s.firstName| ==> s.firstName[i] != 'n' && s.firstName[i] != 'N'
    requires forall i :: 0 <= i < |s.lastName| ==> s.lastName[i] != 'n' && s.lastName[i] != 'N'
    requires forall i :: 0 <= i < |s.className| ==> s.className[i] != 'n' && s.className[i] != 'N'
    requires forall i :: 0 <= i < |IntToString(s.studentId)| ==> IntToString(s.studentId)[i] != 'n'
    ensures !MatchesSearch(s, "an")
  {
    assert ToLower("an") == "an";
    NoLowerOccurrence(s.firstName, "an");
    NoLowerOccurrence(s.lastName, "an");
    NoLowerOccurrence(s.className, "an");
    if Contains(IntToString(s.studentId), "an") {
      ContainsChars(IntToString(s.studentId), "an", 1);
    }
  }

  /** "an" occurs in the lower-case form of no text without an 'n' or 'N'. */
  lemma NoLowerOccurrence(s: string, t: string)
    requires t == "an"
    requires forall i :: 0 <= i < |s| ==> s[i] != 'n' && s[i] != 'N'
    ensures !Contains(ToLower(s), t) && !Contains(s, t)
  {
    if Contains(ToLower(s), t) {
      ContainsChars(ToLower(s), t, 1);
    }
    if Contains(s, t) {
      ContainsChars(s, t, 1);
    }
  }

  // ---------------------------------------------------------------------
  // The class selector's options
  // ---------------------------------------------------------------------

  function ClassNames(students: seq<Student>): (names: seq<string>)
    ensures |names| == |students|
    ensures forall k :: 0 <= k < |students| ==> names[k] == students[k].className
  {
    seq(|students|, k requires 0 <= k < |students| => students[k].className)
  }

  /** `Array.from(new Set(students.map(s => s.className))).sort()` */
  function UniqueClasses(students: seq<Student>): (r: seq<string>)
    ensures StrictlySorted(r)
    ensures forall i, j :: 0 <= i < j < |r| ==> r[i] != r[j]
    ensures forall c :: c in r <==> exists k :: 0 <= k < |students| && students[k].className == c
  {
    var names := ClassNames(students);
    var r := SortedDistinct(names);
    StrictlySortedDistinct(r);
    assert forall c :: c in r <==> c in Values(names);
    r
  }

  // ---------------------------------------------------------------------
  // The page
  // ---------------------------------------------------------------------

  /** The two GET requests the page issues; neither carries parameters. */
  datatype DatabaseQuery = TotalCountQuery | StudentsQuery

  datatype DatabaseState = DatabaseState(
    selectedFile: Option<FileInfo>,
    isUploading: bool,
    uploadResult: Option<UploadBody>,
    uploadProgress: int,
    uploadedRecords: int,
    totalStudents: int,
    students: seq<Student>,
    filteredStudents: seq<Student>,
    searchTerm: string,
    selectedClass: string,
    uniqueClasses: seq<string>,
    lastUpdated: int)

  class DatabaseComponent {
    var selectedFile: Option<FileInfo>
    var isUploading: bool
    var uploadResult: Option<UploadBody>
    var uploadProgress: int
    var uploadedRecords: int
    var totalStudents: int
    var students: seq<Student>
    var filteredStudents: seq<Student>
    var searchTerm: string
    var selectedClass: string
    var uniqueClasses: seq<string>
    var lastUpdated: int

    /** All fields at once, so that a method can say what it leaves alone. */
    function State(): DatabaseState
      reads this
    {
      DatabaseState(selectedFile, isUploading, uploadResult, uploadProgress,
                    uploadedRecords, totalStudents, students, filteredStudents,
                    searchTerm, selectedClass, uniqueClasses, lastUpdated)
    }

    /** The page as first shown, stamped with the clock reading `now`; the
        constructor also issues the record-count request, whose answer
        arrives through `OnStatsLoaded`. */
    constructor(now: int)
      ensures State() == DatabaseState(None, false, None, 0, 0, 0, [], [], "", "", [], now)
    {
      selectedFile := None;
      isUploading := false;
      uploadResult := None;
      uploadProgress := 0;
      uploadedRecords := 0;
      totalStudents := 0;
      students := [];
      filteredStudents := [];
      searchTerm := "";
      selectedClass := "";
      uniqueClasses := [];
      lastUpdated := now;
    }

    /** A file picked or dropped: taken only if its name ends in ".csv". */
    method HandleFile(file: FileInfo) returns (accepted: bool)
      modifies this
      ensures accepted <==> IsCsvName(file.name)
      ensures State() == if accepted
                         then old(State()).(selectedFile := Some(file), uploadResult := None)
                         else old(State())
    {
      accepted := IsCsvName(file.name);
      if accepted {
        selectedFile := Some(file);
        uploadResult := None;
      }
    }

    method RemoveFile()
      modifies this
      ensures State() == old(State()).(selectedFile := None, uploadResult := None)
    {
      selectedFile := None;
      uploadResult := None;
    }

    method ClearResults()
      modifies this
      ensures State() == old(State()).(selectedFile := None, uploadResult := None)
    {
      uploadResult := None;
      selectedFile := None;
    }

    /** Starts the upload of the selected file, which is returned as the one
        request sent; without a selected file nothing happens. */
    method UploadToDatabase() returns (sent: Option<FileInfo>)
      modifies this
      ensures sent == old(selectedFile)
      ensures State() == if sent.None? then old(State())
                         else old(State()).(isUploading := true, uploadResult := None,
                                            uploadProgress := 0, uploadedRecords := 0)
    {
      if selectedFile.None? {
        return None;
      }
      isUploading := true;
      uploadResult := None;
      uploadProgress := 0;
      uploadedRecords := 0;
      sent := selectedFile;
    }

    /** An upload-progress event; `total` is 0 when the size is unknown. */
    method OnUploadProgress(loaded: nat, total: nat)
      modifies this
      ensures State() == if total == 0 then old(State())
                         else old(State()).(uploadProgress := Progress(loaded, total))
      ensures total != 0 && loaded <= total ==> 0 <= uploadProgress <= 100
    {
      if total != 0 {
        uploadProgress := Progress(loaded, total);
        if loaded <= total {
          ProgressBounds(loaded, total);
        }
      }
    }

    /** The end of the upload. The response body is kept as it came; a
        transport failure becomes a failed result with a network-error
        message. On success the record count and then the student list are
        requested again, and `reloads` are those two requests. */
    method OnUploadResponse(resp: Response<UploadBody>) returns (reloads: seq<DatabaseQuery>)
      modifies this
      ensures !isUploading
      ensures reloads == if resp.Ok? && resp.payload.success then [TotalCountQuery, StudentsQuery] else []
      ensures resp.Ok? ==> uploadResult == Some(resp.payload)
      ensures resp.TransportError? ==>
                uploadResult == Some(UploadBody(false, NetworkErrorPrefix + resp.msg, None))
      ensures State() == old(State()).(
                isUploading := false,
                uploadResult := uploadResult,
                uploadedRecords := if resp.Ok? && resp.payload.success
                                   then resp.payload.recordsUploaded.GetOr(0)
                                   else old(uploadedRecords))
    {
      match resp {
        case Ok(body) =>
          uploadResult := Some(body);
          isUploading := false;
          reloads := [];
          if body.success {
            uploadedRecords := body.recordsUploaded.GetOr(0);
            var stats := LoadDatabaseStats();
            var list := LoadStudents();
            reloads := [stats, list];
          }
        case TransportError(msg) =>
          uploadResult := Some(UploadBody(false, NetworkErrorPrefix + msg, None));
          isUploading := false;
          reloads := [];
      }
    }

    /** Requests the record count (from the constructor and after an
        upload); the answer arrives through
        `OnStatsLoaded`, and the request changes nothing on the page. */
    method LoadDatabaseStats() returns (query: DatabaseQuery)
      ensures query == TotalCountQuery
    {
      query := TotalCountQuery;
    }

    /** Requests the student list (after an upload and from the view and
        refresh buttons); the answer arrives through `OnStudentsLoaded`, and
        the request changes nothing on the page. */
    method LoadStudents() returns (query: DatabaseQuery)
      ensures query == StudentsQuery
    {
      query := StudentsQuery;
    }

    /** The answer to the record-count request. */
    method OnStatsLoaded(resp: Response<CountBody>)
      modifies this
      ensures State() == if resp.Ok? && resp.payload.success
                         then old(State()).(totalStudents := resp.payload.totalCount.GetOr(0))
                         else old(State())
    {
      if resp.Ok? && resp.payload.success {
        totalStudents := resp.payload.totalCount.GetOr(0);
      }
    }

    /** The answer to the student-list request, received at clock reading
        `now`. A successful answer replaces the list, shows all of it and
        recomputes the class options. */
    method OnStudentsLoaded(resp: Response<StudentsBody>, now: int)
      modifies this
      ensures resp.Ok? && resp.payload.success ==>
                var s := resp.payload.students.GetOr([]);
                State() == old(State()).(students := s, filteredStudents := s,
                                         uniqueClasses := UniqueClasses(s), lastUpdated := now)
      ensures !(resp.Ok? && resp.payload.success) ==> State() == old(State())
    {
      if resp.Ok? && resp.payload.success {
        students := resp.payload.students.GetOr([]);
        filteredStudents := students;
        UpdateUniqueClasses();
        lastUpdated := now;
      }
    }

    method UpdateUniqueClasses()
      modifies this
      ensures State() == old(State()).(uniqueClasses := UniqueClasses(students))
    {
      uniqueClasses := UniqueClasses(students);
    }

    /** The two-way bindings of the search box and the class selector. They
        only set the fields; the list is refiltered by `FilterStudents`. */
    method EditFilters(term: string, cls: string)
      modifies this
      ensures State() == old(State()).(searchTerm := term, selectedClass := cls)
    {
      searchTerm := term;
      selectedClass := cls;
    }

    /** Applies the search box and the class selector to the list. */
    method FilterStudents()
      modifies this
      ensures State() == old(State()).(filteredStudents := Filtered(students, searchTerm, selectedClass))
    {
      filteredStudents := Filtered(students, searchTerm, selectedClass);
    }
  }
}
