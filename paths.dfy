/** File names derived from the paths the server reports. The pages use two
    different expressions for the base name of a path; both are modelled as
    written, together with the separator-agnostic base name they aim at. */
module Paths {
  import opened Strings

  /** The name used when a path yields an empty base name. */
  const DefaultFileName: string := "data.xlsx"

  /** `seg || fallback` for a string `seg`. */
  function NonEmptyOr(seg: string, fallback: string): string {
    if seg != "" then seg else fallback
  }

  /** The base name `downloadFile` computes: the text after the last '/'
      when the path has a '/', else the text after the last '\\' when it has
      a '\\', else the whole path; an empty piece becomes "data.xlsx". */
  function DownloadBaseName(path: string): (name: string)
    ensures name == DefaultFileName || EndsWith(path, name)
    ensures '/' !in name
    ensures '/' !in path ==> '\\' !in name
    ensures '/' in path && name != DefaultFileName ==>
              |name| < |path| && path[|path| - |name| - 1] == '/'
    ensures '/' !in path && '\\' in path && name != DefaultFileName ==>
              |name| < |path| && path[|path| - |name| - 1] == '\\'
    ensures '/' !in path && '\\' !in path ==> name == path
    ensures path != [] ==> name != []
    ensures '/' in path && path[|path| - 1] != '/' ==>
              name != [] && EndsWith(path, name) && '/' !in name && path[|path| - |name| - 1] == '/'
    ensures '/' in path && path[|path| - 1] == '/' ==> name == DefaultFileName
    ensures '/' !in path && '\\' in path && path[|path| - 1] != '\\' ==>
              name != [] && EndsWith(path, name) && '\\' !in name && path[|path| - |name| - 1] == '\\'
    ensures '/' !in path && '\\' in path && path[|path| - 1] == '\\' ==> name == DefaultFileName
  {
    LastSegmentSpec(path, '/');
    LastSegmentSpec(path, '\\');
    LastSegmentEmpty(path, '/');
    LastSegmentEmpty(path, '\\');
    if '/' in path then NonEmptyOr(LastSegment(path, '/'), DefaultFileName)
    else if '\\' in path then NonEmptyOr(LastSegment(path, '\\'), DefaultFileName)
    else path
  }

  /** Which split `downloadFile` uses: the '/' split when the path has a
      '/', else the '\\' split when it has a '\\', else none. */
  lemma DownloadBaseNameCases(path: string)
    ensures '/' in path ==> DownloadBaseName(path) == NonEmptyOr(LastSegment(path, '/'), DefaultFileName)
    ensures '/' !in path && '\\' in path ==>
              DownloadBaseName(path) == NonEmptyOr(LastSegment(path, '\\'), DefaultFileName)
    ensures '/' !in path && '\\' !in path ==> DownloadBaseName(path) == path
  {
  }

  /** The base name `shareResults` and the report download compute, as
      written: `path.split('/').pop() || path.split('\\').pop() || fallback`. */
  function SplitPopBaseName(path: string, fallback: string): (name: string)
    ensures name == fallback || (name != [] && EndsWith(path, name))
    ensures LastSegment(path, '/') != [] ==> '/' !in name
    ensures path == [] ==> name == fallback
  {
    LastSegmentSpec(path, '/');
    LastSegmentSpec(path, '\\');
    NonEmptyOr(LastSegment(path, '/'), NonEmptyOr(LastSegment(path, '\\'), fallback))
  }

  /** As written, the '\\' split is reached only when the text after the last
      '/' is empty: a non-empty path with no '/' is returned whole, however
      many '\\' separators it holds, and a path ending in '/' yields its
      text after the last '\\'. */
  lemma SplitPopBaseNameCases(path: string, fallback: string)
    ensures '/' !in path && path != [] ==> SplitPopBaseName(path, fallback) == path
    ensures LastSegment(path, '/') != [] ==>
              SplitPopBaseName(path, fallback) == LastSegment(path, '/')
    ensures LastSegment(path, '/') == [] ==>
              SplitPopBaseName(path, fallback) == NonEmptyOr(LastSegment(path, '\\'), fallback)
  {
    LastSegmentSpec(path, '/');
  }

  /** A Windows path keeps its directories in the as-written base name. */
  lemma SplitPopKeepsWindowsDirectories()
    ensures SplitPopBaseName("a\\b\\c.csv", DefaultFileName) == "a\\b\\c.csv"
  {
    var path := "a\\b\\c.csv";
    assert '/' !in path;
    SplitPopBaseNameCases(path, DefaultFileName);
  }

  /** As written, any path without '/' that ends in '\\' and a file name is
      returned whole, while the separator-agnostic base name is the file
      name: the two differ on every such path. */
  lemma SplitPopOfWindowsPath(dir: string, file: string, fallback: string)
    requires '/' !in dir && '/' !in file && '\\' !in file && file != ""
    ensures SplitPopBaseName(dir + ['\\'] + file, fallback) == dir + ['\\'] + file
    ensures BaseName(dir + ['\\'] + file, fallback) == file
    ensures SplitPopBaseName(dir + ['\\'] + file, fallback) != BaseName(dir + ['\\'] + file, fallback)
  {
    var path := dir + ['\\'] + file;
    BaseNameOfWindowsPath(dir, file, fallback);
    assert '/' !in path by {
      forall i | 0 <= i < |path| ensures path[i] != '/' {
        if i < |dir| {
          assert path[i] == dir[i];
        } else if i > |dir| {
          assert path[i] == file[i - |dir| - 1];
        }
      }
    }
    SplitPopBaseNameCases(path, fallback);
  }

  /** The separator-agnostic base name: the text after the last '/' or '\\',
      whichever comes later, or `fallback` when that text is empty. */
  function BaseName(path: string, fallback: string): (name: string)
    ensures name == fallback ||
              (name != [] && EndsWith(path, name) && '/' !in name && '\\' !in name)
    ensures name != fallback && |name| < |path| ==>
              path[|path| - |name| - 1] == '/' || path[|path| - |name| - 1] == '\\'
    ensures path == [] || path[|path| - 1] == '/' || path[|path| - 1] == '\\' ==> name == fallback
    ensures path != [] && path[|path| - 1] != '/' && path[|path| - 1] != '\\' ==>
              name != [] && EndsWith(path, name) && '/' !in name && '\\' !in name &&
              (|name| < |path| ==> path[|path| - |name| - 1] == '/' || path[|path| - |name| - 1] == '\\')
  {
    var seg := LastSegment(LastSegment(path, '/'), '\\');
    InnerSegmentSpec(path);
    InnerSegmentEmpty(path);
    NonEmptyOr(seg, fallback)
  }

  /** The inner segment is empty exactly when the path is empty or ends in a
      separator. */
  lemma InnerSegmentEmpty(path: string)
    ensures LastSegment(LastSegment(path, '/'), '\\') == [] <==>
              path == [] || path[|path| - 1] == '/' || path[|path| - 1] == '\\'
  {
    var unix := LastSegment(path, '/');
    LastSegmentSpec(path, '/');
    LastSegmentEmpty(path, '/');
    LastSegmentEmpty(unix, '\\');
    if unix != [] {
      assert unix[|unix| - 1] == path[|path| - 1];
    }
  }

  /** The text after the last '\\' of the text after the last '/' is a
      separator-free suffix of the path, preceded by a separator unless it
      is the whole path. */
  lemma InnerSegmentSpec(path: string)
    ensures var seg := LastSegment(LastSegment(path, '/'), '\\');
            EndsWith(path, seg) && '/' !in seg && '\\' !in seg &&
            (|seg| < |path| ==> path[|path| - |seg| - 1] == '/' || path[|path| - |seg| - 1] == '\\')
  {
    var unix := LastSegment(path, '/');
    LastSegmentSpec(path, '/');
    LastSegmentSpec(unix, '\\');
    var seg := LastSegment(unix, '\\');
    assert '/' !in seg by {
      forall i | 0 <= i < |seg| ensures seg[i] != '/' {
        assert seg[i] == unix[|unix| - |seg| + i];
      }
    }
    assert path[|path| - |seg|..] == unix[|unix| - |seg|..];
    if |seg| < |unix| {
      assert path[|path| - |seg| - 1] == unix[|unix| - |seg| - 1];
    }
  }

  /** The base-name examples for a Unix, a Windows and a bare file name. */
  lemma BaseNameUnixExample()
    ensures BaseName("a/b/c.csv", DefaultFileName) == "c.csv"
  {
    assert "a/b/c.csv" == "a/b" + ['/'] + "c.csv";
    BaseNameOfUnixPath("a/b", "c.csv", DefaultFileName);
  }

  /** A path names the file after its last '/'. */
  lemma BaseNameOfUnixPath(dir: string, file: string, fallback: string)
    requires '/' !in file && '\\' !in file && file != ""
    ensures BaseName(dir + ['/'] + file, fallback) == file
  {
    BaseNameOfPath(dir, '/', file, fallback);
  }

  /** Whatever the directory holds, a separator and then a separator-free
      file name give the file name. */
  lemma BaseNameOfPath(dir: string, sep: char, file: string, fallback: string)
    requires sep == '/' || sep == '\\'
    requires '/' !in file && '\\' !in file && file != ""
    ensures BaseName(dir + [sep] + file, fallback) == file
  {
    var path := dir + [sep] + file;
    var name := BaseName(path, fallback);
    assert path[|path| - |file|..] == file;
    assert path[|path| - |file| - 1] == sep;
    assert path[|path| - 1] == file[|file| - 1];
  }

  lemma BaseNameWindowsExample()
    ensures BaseName("a\\b\\c.csv", DefaultFileName) == "c.csv"
  {
    var path := "a\\b\\c.csv";
    assert path == "a\\b" + ['\\'] + "c.csv";
    BaseNameOfWindowsPath("a\\b", "c.csv", DefaultFileName);
  }

  /** A path names the file after its last '\\' when no '/' follows it. */
  lemma BaseNameOfWindowsPath(dir: string, file: string, fallback: string)
    requires '/' !in file && '\\' !in file && file != ""
    ensures BaseName(dir + ['\\'] + file, fallback) == file
  {
    BaseNameOfPath(dir, '\\', file, fallback);
  }

  lemma BaseNameBareExample()
    ensures BaseName("c.csv", DefaultFileName) == "c.csv"
  {
    LastSegmentSpec("c.csv", '/');
    LastSegmentSpec("c.csv", '\\');
  }

  /** On a path with a '\\' after its last '/', `downloadFile` splits on
      '/' only and keeps the '\\' part, while the separator-agnostic base
      name is the file name alone. */
  lemma MixedSeparatorPath(dir: string, mid: string, file: string)
    requires '/' !in mid && '/' !in file && '\\' !in file && file != ""
    ensures DownloadBaseName(dir + ['/'] + (mid + ['\\'] + file)) == mid + ['\\'] + file
    ensures BaseName(dir + ['/'] + (mid + ['\\'] + file), DefaultFileName) == file
  {
    var rest := mid + ['\\'] + file;
    var path := dir + ['/'] + rest;
    assert '/' !in rest by {
      forall i | 0 <= i < |rest| ensures rest[i] != '/' {
        if i < |mid| {
          assert rest[i] == mid[i];
        } else if i > |mid| {
          assert rest[i] == file[i - |mid| - 1];
        }
      }
    }
    assert path[|path| - |['/'] + rest|..] == ['/'] + rest;
    assert '/' in path by { assert path[|dir|] == '/'; }
    LastSegmentOfSuffix(path, '/', rest);
    assert path == (dir + ['/'] + mid) + ['\\'] + file;
    BaseNameOfPath(dir + ['/'] + mid, '\\', file, DefaultFileName);
  }

  /** On a path that uses only one kind of separator, the separator-agnostic
      base name is exactly what `downloadFile` computes. */
  lemma BaseNameAgreesWithDownload(path: string)
    requires path != []
    requires !('/' in path && '\\' in path)
    ensures BaseName(path, DefaultFileName) == DownloadBaseName(path)
  {
    LastSegmentSpec(path, '/');
    LastSegmentSpec(path, '\\');
    var unix := LastSegment(path, '/');
    LastSegmentSpec(unix, '\\');
  }

  /** On a path without '\\' whose text after the last '/' is non-empty, the
      as-written and the separator-agnostic base names agree. */
  lemma BaseNameAgreesOnUnixPaths(path: string, fallback: string)
    requires '\\' !in path
    requires LastSegment(path, '/') != []
    ensures BaseName(path, fallback) == SplitPopBaseName(path, fallback)
  {
    LastSegmentSpec(path, '/');
    var unix := LastSegment(path, '/');
    LastSegmentSpec(unix, '\\');
  }
}
