/** The data-processing page: pick an Excel workbook and have the server
    convert it to a CSV file. */
module DataProcessing {
  import opened Optional
  import opened Api
  import opened Strings

  /** The conversion response: `success`, `message` and, when a file was
      written, the path of the CSV file. */
  datatype ConversionBody = ConversionBody(success: bool, message: string, csvFilePath: Option<string>)

  /** The names the page accepts: ending in ".xlsx" or ".xls". */
  predicate IsExcelName(name: string) {
    EndsWith(name, ".xlsx") || EndsWith(name, ".xls")
  }

  /** Upper-case ASCII never produces a '.'. */
  lemma UpperCharKeepsDot(c: char)
    ensures UpperChar(c) == '.' <==> c == '.'
  {
  }

  /** The badge shown for a selected file: the text after its last '.',
      upper-cased (the whole name when it has no '.'). The trailing `|| ''`
      of the source maps "" to "" and so changes nothing. */
  function GetFileType(name: string): (r: string)
    ensures |r| <= |name|
    ensures r == ToUpper(name)[|name| - |r|..]
    ensures '.' !in r
    ensures |r| < |name| ==> name[|name| - |r| - 1] == '.'
    ensures '.' !in name ==> r == ToUpper(name)
    ensures EndsWith(name, ".") ==> r == ""
  {
    var ext := LastSegment(name, '.');
    LastSegmentSpec(name, '.');
    assert EndsWith(name, ".") ==> ext == "" by {
      if EndsWith(name, ".") {
        assert ['.'] + "" == ".";
        LastSegmentOfSuffix(name, '.', "");
      }
    }
    ToUpperSuffix(name, |name| - |ext|);
    assert ext == name[|name| - |ext|..];
    var r := ToUpper(ext);
    assert '.' !in r by {
      forall i | 0 <= i < |r| ensures r[i] != '.' {
        UpperCharKeepsDot(ext[i]);
      }
    }
    r
  }

  /** Every name the page accepts shows the badge "XLSX" or "XLS". */
  lemma GetFileTypeOfExcel(name: string)
    requires IsExcelName(name)
    ensures EndsWith(name, ".xlsx") ==> GetFileType(name) == "XLSX"
    ensures !EndsWith(name, ".xlsx") ==> GetFileType(name) == "XLS"
  {
    if EndsWith(name, ".xlsx") {
      assert ".xlsx" == ['.'] + "xlsx";
      LastSegmentOfSuffix(name, '.', "xlsx");
      assert ToUpper("xlsx") == "XLSX";
    } else {
      assert ".xls" == ['.'] + "xls";
      LastSegmentOfSuffix(name, '.', "xls");
      assert ToUpper("xls") == "XLS";
    }
  }

  /** A name with several dots shows only its last extension. */
  lemma GetFileTypeExample()
    ensures GetFileType("scores.2024.xlsx") == "XLSX"
  {
    GetFileTypeOfExcel("scores.2024.xlsx");
  }

  datatype ProcessingState = ProcessingState(
    selectedFile: Option<FileInfo>,
    isProcessing: bool,
    conversionResult: Option<ConversionBody>)

  class DataProcessingComponent {
    var selectedFile: Option<FileInfo>
    var isProcessing: bool
    var conversionResult: Option<ConversionBody>

    function State(): ProcessingState
      reads this
    {
      ProcessingState(selectedFile, isProcessing, conversionResult)
    }

    constructor()
      ensures State() == ProcessingState(None, false, None)
    {
      selectedFile := None;
      isProcessing := false;
      conversionResult := None;
    }

    /** A file picked or dropped: taken only if it is an Excel workbook. */
    method HandleFile(file: FileInfo) returns (accepted: bool)
      modifies this
      ensures accepted <==> IsExcelName(file.name)
      ensures State() == if accepted
                         then old(State()).(selectedFile := Some(file), conversionResult := None)
                         else old(State())
    {
      accepted := EndsWith(file.name, ".xlsx") || EndsWith(file.name, ".xls");
      if accepted {
        selectedFile := Some(file);
        conversionResult := None;
      }
    }

    method RemoveFile()
      modifies this
      ensures State() == old(State()).(selectedFile := None, conversionResult := None)
    {
      selectedFile := None;
      conversionResult := None;
    }

    /** Starts the conversion of the selected file, returned as the one
        request sent; without a selected file nothing happens. */
    method ConvertToCsv() returns (sent: Option<FileInfo>)
      modifies this
      ensures sent == old(selectedFile)
      ensures State() == if sent.None? then old(State())
                         else old(State()).(isProcessing := true, conversionResult := None)
    {
      if selectedFile.None? {
        return None;
      }
      isProcessing := true;
      conversionResult := None;
      sent := selectedFile;
    }

    /** The end of a conversion: the response is kept as it came; a
        transport failure becomes a failed result with a network-error
        message. */
    method OnConvertResponse(resp: Response<ConversionBody>)
      modifies this
      ensures State() == old(State()).(
                isProcessing := false,
                conversionResult := Some(match resp
                  case Ok(body) => body
                  case TransportError(msg) => ConversionBody(false, NetworkErrorPrefix + msg, None)))
    {
      match resp {
        case Ok(body) =>
          conversionResult := Some(body);
          isProcessing := false;
        case TransportError(msg) =>
          conversionResult := Some(ConversionBody(false, NetworkErrorPrefix + msg, None));
          isProcessing := false;
      }
    }
  }
}
