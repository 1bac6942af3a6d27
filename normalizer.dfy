/** `load_file` and `extract_text_from_pdf`: every upload becomes a table, or no table at all
    when its name has an unrecognised suffix. */
module Normalizer {
  import opened Base
  import opened Text
  import opened Tables

  /** An uploaded file: its name and its bytes. */
  datatype Upload = Upload(name: string, content: seq<byte>)

  /** The library behaviour the core calls into and cannot see: the pandas readers and the
      text of each page as PyMuPDF extracts it. Each may raise. */
  datatype Readers = Readers(
    readCsv: Upload -> Result<Table>,
    readExcel: Upload -> Result<Table>,
    pageTexts: Upload -> Result<seq<string>>)

  /** Which reader `load_file` picks. */
  datatype Kind = Csv | Excel | Pdf | Unsupported

  /** The column name of the table made from a PDF. */
  const PdfColumn: string := "PDF_Text"

  /** The if/elif chain on the file-name suffix, in the source's order. */
  function KindOf(name: string): (k: Kind)
    ensures k == Unsupported <==>
      !EndsWith(name, ".csv") && !EndsWith(name, ".xlsx") && !EndsWith(name, ".xls") && !EndsWith(name, ".pdf")
  {
    if EndsWith(name, ".csv") then Csv
    else if EndsWith(name, ".xlsx") || EndsWith(name, ".xls") then Excel
    else if EndsWith(name, ".pdf") then Pdf
    else Unsupported
  }

  lemma EndsWithLast(s: string, suffix: string)
    requires EndsWith(s, suffix) && |suffix| > 0
    ensures s[|s| - 1] == suffix[|suffix| - 1]
  {
    assert s[|s| - |suffix|..][|suffix| - 1] == s[|s| - 1];
  }

  /** The recognised suffixes end in different letters, so at most one holds of any name and
      the order of the checks never changes the outcome: each kind is chosen exactly when its
      own suffix is present. */
  lemma KindBySuffix(name: string)
    ensures KindOf(name) == Csv <==> EndsWith(name, ".csv")
    ensures KindOf(name) == Excel <==> EndsWith(name, ".xlsx") || EndsWith(name, ".xls")
    ensures KindOf(name) == Pdf <==> EndsWith(name, ".pdf")
  {
    if EndsWith(name, ".csv") { EndsWithLast(name, ".csv"); }
    if EndsWith(name, ".xlsx") { EndsWithLast(name, ".xlsx"); }
    if EndsWith(name, ".xls") { EndsWithLast(name, ".xls"); }
    if EndsWith(name, ".pdf") { EndsWithLast(name, ".pdf"); }
  }

  /** The suffix test is case-sensitive: a name ending in an upper-case suffix gets no reader. */
  lemma UpperCaseSuffixUnsupported(name: string)
    requires EndsWith(name, ".CSV") || EndsWith(name, ".XLSX") || EndsWith(name, ".XLS") ||
             EndsWith(name, ".PDF")
    ensures KindOf(name) == Unsupported
  {
    if EndsWith(name, ".CSV") { EndsWithLast(name, ".CSV"); }
    if EndsWith(name, ".XLSX") { EndsWithLast(name, ".XLSX"); }
    if EndsWith(name, ".XLS") { EndsWithLast(name, ".XLS"); }
    if EndsWith(name, ".PDF") { EndsWithLast(name, ".PDF"); }
    KindBySuffix(name);
  }

  /** The one-column table `pd.DataFrame({'PDF_Text': text.split("\n")})`. */
  function LinesTable(text: string): Table {
    Table([PdfColumn], seq(|Split(text, '\n')|, i requires 0 <= i < |Split(text, '\n')| => [Text(Split(text, '\n')[i])]))
  }

  /** The table made from the page texts in page order. */
  function PdfTable(pages: seq<string>): Table {
    LinesTable(Concat(pages))
  }

  /** The page loop of `extract_text_from_pdf`: `text += page.get_text()` for each page, then
      the split into a one-column table. */
  method ExtractTextFromPdf(pages: seq<string>) returns (t: Table)
    ensures t == PdfTable(pages)
  {
    var text := "";
    var i := 0;
    while i < |pages|
      invariant 0 <= i <= |pages|
      invariant text == Concat(pages[..i])
    {
      assert pages[..i + 1][..i] == pages[..i];
      text := text + pages[i];
      i := i + 1;
    }
    assert pages[..i] == pages;
    t := LinesTable(text);
  }

  /** Shape of the PDF table: one column, `PDF_Text`; one row per separator plus one; every row
      holds one line and no line holds a newline; joining the lines with newlines gives back
      the concatenated page text. */
  lemma {:induction false} PdfTableShape(pages: seq<string>)
    ensures PdfTable(pages).columns == [PdfColumn]
    ensures |PdfTable(pages).rows| == Occurrences(Concat(pages), '\n') + 1
    ensures forall i :: 0 <= i < |PdfTable(pages).rows| ==>
      |PdfTable(pages).rows[i]| == 1 && PdfTable(pages).rows[i][0].Text? &&
      '\n' !in PdfTable(pages).rows[i][0].s
    ensures Join(LinesOf(PdfTable(pages)), "\n") == Concat(pages)
  {
    var text := Concat(pages);
    SplitCount(text, '\n');
    SplitPiecesFree(text, '\n');
    JoinSplit(text, '\n');
    assert LinesOf(PdfTable(pages)) == Split(text, '\n');
  }

  /** The text of the first cell of each row. */
  function LinesOf(t: Table): seq<string>
    requires forall i :: 0 <= i < |t.rows| ==> |t.rows[i]| >= 1 && t.rows[i][0].Text?
  {
    seq(|t.rows|, i requires 0 <= i < |t.rows| => t.rows[i][0].s)
  }

  /** A PDF without text, or without pages, still gives one row: the empty line. */
  lemma EmptyPdfOneRow(pages: seq<string>)
    requires forall i :: 0 <= i < |pages| ==> pages[i] == ""
    ensures PdfTable(pages) == Table([PdfColumn], [[Text("")]])
  {
    EmptyConcat(pages);
  }

  lemma {:induction false} EmptyConcat(pages: seq<string>)
    requires forall i :: 0 <= i < |pages| ==> pages[i] == ""
    ensures Concat(pages) == ""
  {
    if pages != [] {
      EmptyConcat(pages[..|pages| - 1]);
    }
  }

  /** `load_file(file)`: `Success(Some(table))`, `Success(None)` for an unsupported name, or
      the failure of the reader that was chosen. */
  function LoadFile(u: Upload, rd: Readers): (r: Result<Option<Table>>)
    ensures KindOf(u.name) == Unsupported ==> r == Success(None)
    ensures r.Success? && r.value.None? ==> KindOf(u.name) == Unsupported
  {
    match KindOf(u.name)
    case Csv => Lift(rd.readCsv(u))
    case Excel => Lift(rd.readExcel(u))
    case Pdf =>
      (match rd.pageTexts(u)
       case Success(pages) => Success(Some(PdfTable(pages)))
       case Failure(e) => Failure(e))
    case Unsupported => Success(None)
  }

  function Lift(r: Result<Table>): Result<Option<Table>> {
    match r
    case Success(t) => Success(Some(t))
    case Failure(e) => Failure(e)
  }

  /** Each suffix reaches its own reader and only that one. */
  lemma LoadFileDispatch(u: Upload, rd: Readers)
    ensures EndsWith(u.name, ".csv") ==> LoadFile(u, rd) == Lift(rd.readCsv(u))
    ensures EndsWith(u.name, ".xlsx") || EndsWith(u.name, ".xls") ==> LoadFile(u, rd) == Lift(rd.readExcel(u))
    ensures EndsWith(u.name, ".pdf") ==>
      LoadFile(u, rd) == (match rd.pageTexts(u) case Success(pages) => Success(Some(PdfTable(pages)))
                                                case Failure(e) => Failure(e))
    ensures (!EndsWith(u.name, ".csv") && !EndsWith(u.name, ".xlsx") && !EndsWith(u.name, ".xls") &&
             !EndsWith(u.name, ".pdf")) ==> LoadFile(u, rd) == Success(None)
  {
    KindBySuffix(u.name);
  }

  /** `dfs = [load_file(f) for f in uploaded_files]`: the files are loaded in upload order and
      the first reader exception ends the comprehension. */
  function LoadAll(uploads: seq<Upload>, rd: Readers): (r: Result<seq<Option<Table>>>)
    ensures r.Success? ==> |r.value| == |uploads|
    ensures r.Success? ==> forall i :: 0 <= i < |uploads| ==> LoadFile(uploads[i], rd) == Success(r.value[i])
    ensures r.Failure? ==> exists i :: FirstFailure(uploads, rd, i, r.error)
  {
    if uploads == [] then Success([])
    else
      match LoadFile(uploads[0], rd)
      case Failure(e) =>
        assert FirstFailure(uploads, rd, 0, e);
        Failure(e)
      case Success(df) =>
        match LoadAll(uploads[1..], rd)
        case Failure(e) =>
          assert exists i :: FirstFailure(uploads, rd, i, e) by {
            var k :| FirstFailure(uploads[1..], rd, k, e);
            assert forall j :: 0 <= j < k ==> uploads[1..][j] == uploads[j + 1];
            assert FirstFailure(uploads, rd, k + 1, e);
          }
          Failure(e)
        case Success(rest) =>
          assert forall i :: 1 <= i < |uploads| ==> uploads[i] == uploads[1..][i - 1];
          Success([df] + rest)
  }

  /** Upload `i` is the first whose reader raised, with message `e`. */
  ghost predicate FirstFailure(uploads: seq<Upload>, rd: Readers, i: int, e: string) {
    && 0 <= i < |uploads|
    && LoadFile(uploads[i], rd) == Failure(e)
    && forall j :: 0 <= j < i ==> LoadFile(uploads[j], rd).Success?
  }

  /** When every reader that is reached succeeds, nothing fails. */
  lemma {:induction false} LoadAllSucceeds(uploads: seq<Upload>, rd: Readers)
    requires forall i :: 0 <= i < |uploads| ==> LoadFile(uploads[i], rd).Success?
    ensures LoadAll(uploads, rd).Success?
  {
    if uploads != [] {
      LoadAllSucceeds(uploads[1..], rd);
    }
  }

  /** Uploads that are all unsupported load without error, each to `None`. */
  lemma {:induction false} LoadAllUnsupported(uploads: seq<Upload>, rd: Readers)
    requires forall i :: 0 <= i < |uploads| ==> KindOf(uploads[i].name) == Unsupported
    ensures LoadAll(uploads, rd).Success?
    ensures forall i :: 0 <= i < |LoadAll(uploads, rd).value| ==> LoadAll(uploads, rd).value[i].None?
  {
    if uploads != [] {
      LoadAllUnsupported(uploads[1..], rd);
      var rest := LoadAll(uploads[1..], rd).value;
      assert LoadFile(uploads[0], rd) == Success(None);
      assert LoadAll(uploads, rd).value == [None] + rest;
    }
  }
}
