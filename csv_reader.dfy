/**
 * `TrackerCsvReader`: checks the tracker input file and turns its rows, after the header
 * row, into credentials. Parsing the CSV text is done by a library and is not part of
 * this model: the reader starts from the parsed records, each a sequence of cells. What
 * the file system says about the path is a parameter.
 */
module CsvReader {
  import opened Wrappers
  import opened Text

  type CsvRecord = seq<string>

  /** The expected header cells. */
  const CsvHeaders: seq<string> := ["trackerName", "username", "password"]

  /** What the file system reports for the configured path. */
  datatype PathKind = Missing | NotAFile | RegularFile

  datatype CsvError =
    | FileDoesNotExist
    | PathIsNotAFile
    | EmptyFile
    | HeaderRowMissing

  /** A cell that, once trimmed, is the header name ignoring case. */
  predicate CellMatches(name: string, cell: string) {
    EqualsIgnoreCase(name, Trim(cell))
  }

  /** Each cell, once trimmed, is the name at its position, ignoring case; there are as many cells as names. */
  predicate CellsMatch(names: seq<string>, record: CsvRecord) {
    |record| == |names| && forall i :: 0 <= i < |names| ==> CellMatches(names[i], record[i])
  }

  /** A header row: three cells, each a header name once trimmed, ignoring case. */
  predicate IsHeader(record: CsvRecord) {
    CellsMatch(CsvHeaders, record)
  }

  /** `isHeaderRow`: the size check, then the cells in order until one differs. */
  method IsHeaderRow(record: CsvRecord) returns (b: bool)
    ensures b == IsHeader(record)
  {
    b := MatchCells(CsvHeaders, record);
  }

  /** The loop of `isHeaderRow`, over the expected names. */
  method MatchCells(names: seq<string>, record: CsvRecord) returns (b: bool)
    ensures b == CellsMatch(names, record)
  {
    if |record| != |names| {
      return false;
    }
    var i := 0;
    while i < |names|
      invariant 0 <= i <= |names|
      invariant forall k :: 0 <= k < i ==> CellMatches(names[k], record[k])
    {
      if !EqualsIgnoreCase(names[i], Trim(record[i])) {
        return false;
      }
      i := i + 1;
    }
    return true;
  }

  /**
   * The header written in any letter case, each cell surrounded by spaces or tabs, is
   * accepted.
   */
  lemma HeaderAcceptance(record: CsvRecord, cells: seq<string>, pads: seq<string>)
    requires |record| == |cells| == |CsvHeaders| && |pads| == 2 * |CsvHeaders|
    requires forall k, m :: 0 <= k < |pads| && 0 <= m < |pads[k]| ==> pads[k][m] == ' ' || pads[k][m] == '\t'
    requires forall i :: 0 <= i < |CsvHeaders| ==> EqualsIgnoreCase(cells[i], CsvHeaders[i])
    requires forall i :: 0 <= i < |CsvHeaders| ==> record[i] == pads[2 * i] + cells[i] + pads[2 * i + 1]
    ensures IsHeader(record)
  {
    forall i | 0 <= i < |CsvHeaders| ensures CellMatches(CsvHeaders[i], record[i]) {
      HeaderWordEnds(i);
      CellAccepted(cells[i], CsvHeaders[i], pads[2 * i], pads[2 * i + 1]);
    }
  }

  /** Every header name starts and ends with a character that is not padding. */
  lemma HeaderWordEnds(i: int)
    requires 0 <= i < |CsvHeaders|
    ensures CsvHeaders[i] != [] && CsvHeaders[i][0] > ' ' && CsvHeaders[i][|CsvHeaders[i]| - 1] > ' '
  {
    if i == 0 {
      assert CsvHeaders[0] == "trackerName";
    } else if i == 1 {
      assert CsvHeaders[1] == "username";
    } else {
      assert CsvHeaders[2] == "password";
    }
  }

  /** A cell equal to a header name ignoring case, padded with spaces or tabs, trims to a match. */
  lemma CellAccepted(cell: string, word: string, before: string, after: string)
    requires EqualsIgnoreCase(cell, word)
    requires word != [] && word[0] > ' ' && word[|word| - 1] > ' '
    requires forall m :: 0 <= m < |before| ==> before[m] == ' ' || before[m] == '\t'
    requires forall m :: 0 <= m < |after| ==> after[m] == ' ' || after[m] == '\t'
    ensures EqualsIgnoreCase(word, Trim(before + cell + after))
  {
    SameEnds(cell, word);
    TrimPadded(before, cell, after);
  }

  /** Text equal to a word ignoring case starts and ends with characters that are not padding, as the word does. */
  lemma SameEnds(cell: string, word: string)
    requires EqualsIgnoreCase(cell, word)
    requires word != [] && word[0] > ' ' && word[|word| - 1] > ' '
    ensures cell != [] && cell[0] > ' ' && cell[|cell| - 1] > ' '
  {
    assert ToLower(cell)[0] == ToLowerChar(cell[0]) && ToLower(word)[0] == ToLowerChar(word[0]);
    var n := |word| - 1;
    assert ToLower(cell)[n] == ToLowerChar(cell[n]) && ToLower(word)[n] == ToLowerChar(word[n]);
  }

  /** A row whose size is not three is not a header, whatever it holds. */
  lemma WrongSizeIsNoHeader(record: CsvRecord)
    requires |record| != 3
    ensures !IsHeader(record)
  {
  }

  /** `validateFilePath`: the path must exist and be a regular file. */
  function ValidateFilePath(kind: PathKind): (r: Option<CsvError>)
    ensures r.None? <==> kind == RegularFile
    ensures kind == Missing ==> r == Some(FileDoesNotExist)
    ensures kind == NotAFile ==> r == Some(PathIsNotAFile)
  {
    match kind
    case Missing => Some(FileDoesNotExist)
    case NotAFile => Some(PathIsNotAFile)
    case RegularFile => None
  }

  /** `validateCsvFileContent`: at least one record, and the first is the header row. */
  function ValidateCsvFileContent(records: seq<CsvRecord>): (r: Option<CsvError>)
    ensures r.None? <==> |records| >= 1 && IsHeader(records[0])
    ensures records == [] ==> r == Some(EmptyFile)
    ensures records != [] && !IsHeader(records[0]) ==> r == Some(HeaderRowMissing)
  {
    if records == [] then Some(EmptyFile)
    else if !IsHeader(records[0]) then Some(HeaderRowMissing)
    else None
  }

  /**
   * `readTrackerInfo`: after both validations, every record except the header becomes a
   * credential, in file order.
   */
  function ReadTrackerInfo<C>(kind: PathKind, records: seq<CsvRecord>, fromCsv: CsvRecord -> C): (r: Result<seq<C>, CsvError>)
    ensures r.Success? <==> kind == RegularFile && |records| >= 1 && IsHeader(records[0])
    ensures r.Success? ==> |r.value| == |records| - 1 && forall i :: 0 <= i < |r.value| ==> r.value[i] == fromCsv(records[i + 1])
    ensures r.Failure? ==> Some(r.error) == (if kind != RegularFile then ValidateFilePath(kind) else ValidateCsvFileContent(records))
  {
    match ValidateFilePath(kind)
    case Some(e) => Failure(e)
    case None =>
      match ValidateCsvFileContent(records)
      case Some(e) => Failure(e)
      case None => Success(seq(|records| - 1, i requires 0 <= i < |records| - 1 => fromCsv(records[i + 1])))
  }

  /** A file holding only the header row gives no credentials. */
  lemma HeaderOnlyGivesNothing<C>(header: CsvRecord, fromCsv: CsvRecord -> C)
    requires IsHeader(header)
    ensures ReadTrackerInfo(RegularFile, [header], fromCsv) == Success([])
  {
  }
}
