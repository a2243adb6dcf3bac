/** `BloodTestReportTool.read_data_tool`: load a PDF and assemble its pages
    into one report string, turning any failure into an error string. */
module BloodTestReportTool {
  import opened Text

  /** The path used when the caller gives none. */
  const DefaultPath := "data/sample.pdf"
  /** What every page's text is followed by in the report. */
  const PageSeparator := "\n\n"
  /** What a failed load is reported as, followed by the failure's message. */
  const ErrorPrefix := "Error reading PDF file: "

  /** One loaded page; the PDF library gives its extracted text. */
  datatype Document = Document(pageContent: string)

  /** What loading the PDF at a path gives: its pages in order, or the
      message of the exception the loader raised. */
  datatype LoadOutcome = Loaded(docs: seq<Document>) | Raised(message: string)

  /** The pages' texts, each stripped, in page order. */
  function StrippedTexts(docs: seq<Document>): seq<string> {
    seq(|docs|, k requires 0 <= k < |docs| => Strip(docs[k].pageContent))
  }

  /** Texts accumulated in order, each one followed by the separator. */
  function Assemble(texts: seq<string>): (r: string)
    ensures r == [] <==> texts == []
  {
    if texts == [] then ""
    else Assemble(texts[..|texts| - 1]) + texts[|texts| - 1] + PageSeparator
  }

  /** The report of a loaded document: its stripped page texts, assembled. */
  function Report(docs: seq<Document>): string {
    Assemble(StrippedTexts(docs))
  }

  /** What the tool returns for a given load outcome. */
  function ReadResult(outcome: LoadOutcome): string {
    match outcome
    case Loaded(docs) => Report(docs)
    case Raised(message) => ErrorPrefix + message
  }

  /** The tool itself. `load` stands for `PyPDFLoader(file_path=path).load()`:
      it either returns the pages or raises; the tool never raises itself. */
  method ReadDataTool(load: string -> LoadOutcome, path: string := DefaultPath) returns (result: string)
    ensures result == ReadResult(load(path))
  {
    var outcome := load(path);
    match outcome
    case Raised(message) =>
      result := ErrorPrefix + message;
    case Loaded(docs) =>
      var fullReport := "";
      for i := 0 to |docs|
        invariant fullReport == Assemble(StrippedTexts(docs[..i]))
      {
        var text := Strip(docs[i].pageContent);
        assert StrippedTexts(docs[..i + 1]) == StrippedTexts(docs[..i]) + [text];
        fullReport := fullReport + text + PageSeparator;
      }
      assert docs[..|docs|] == docs;
      result := fullReport;
  }

  /** Assembling two runs of texts is assembling each, one after the other. */
  lemma {:induction false} AssembleAppend(a: seq<string>, b: seq<string>)
    ensures Assemble(a + b) == Assemble(a) + Assemble(b)
    decreases |b|
  {
    if b == [] {
      assert a + b == a;
    } else {
      var init, last := b[..|b| - 1], b[|b| - 1];
      assert (a + b)[..|a + b| - 1] == a + init;
      assert (a + b)[|a + b| - 1] == last;
      calc {
        Assemble(a + b);
        Assemble(a + init) + last + PageSeparator;
        { AssembleAppend(a, init); }
        Assemble(a) + Assemble(init) + last + PageSeparator;
        Assemble(a) + (Assemble(init) + last + PageSeparator);
        Assemble(a) + Assemble(b);
      }
    }
  }

  /** The report of two runs of pages is the two reports one after the other. */
  lemma ReportAppend(a: seq<Document>, b: seq<Document>)
    ensures Report(a + b) == Report(a) + Report(b)
  {
    assert StrippedTexts(a + b) == StrippedTexts(a) + StrippedTexts(b);
    AssembleAppend(StrippedTexts(a), StrippedTexts(b));
  }

  /** Page `k`'s stripped text and separator sit right after the report of
      the pages before it and right before the report of the pages after it. */
  lemma PageInPlace(docs: seq<Document>, k: nat)
    requires k < |docs|
    ensures Report(docs) == Report(docs[..k]) + Strip(docs[k].pageContent) + PageSeparator + Report(docs[k + 1..])
  {
    var texts := StrippedTexts(docs);
    var before, after := StrippedTexts(docs[..k]), StrippedTexts(docs[k + 1..]);
    assert texts == before + [texts[k]] + after;
    AssembleAppend(before + [texts[k]], after);
    assert (before + [texts[k]])[..k] == before;
  }

  /** Sum over the pages of the stripped text's length plus two. */
  function TotalLength(docs: seq<Document>): nat {
    if docs == [] then 0 else |Strip(docs[0].pageContent)| + 2 + TotalLength(docs[1..])
  }

  /** The report is as long as all stripped pages plus two characters per page. */
  lemma {:induction false} ReportLength(docs: seq<Document>)
    ensures |Report(docs)| == TotalLength(docs)
  {
    if docs != [] {
      PageInPlace(docs, 0);
      assert docs[..0] == [];
      ReportLength(docs[1..]);
    }
  }

  /** A report with pages ends in the separator: the last page is followed
      by it too, so the separator is not only put between pages. */
  lemma EndsWithSeparator(docs: seq<Document>)
    requires docs != []
    ensures var r := Report(docs); |r| >= 2 && r[|r| - 2..] == PageSeparator
  {
    var texts := StrippedTexts(docs);
    assert Report(docs) == Assemble(texts[..|texts| - 1]) + texts[|texts| - 1] + PageSeparator;
  }

  /** A one-page document gives its stripped text followed by the separator. */
  lemma SinglePage(d: Document)
    ensures ReadResult(Loaded([d])) == Strip(d.pageContent) + "\n\n"
  {
    var texts := StrippedTexts([d]);
    assert texts[..0] == [];
  }

  /** A document with no pages gives the empty report, not an error. */
  lemma NoPages()
    ensures ReadResult(Loaded([])) == ""
  {
  }

  /** A failed load gives the error prefix followed by the exception's message. */
  lemma LoadFailure(message: string)
    ensures ReadResult(Raised(message)) == "Error reading PDF file: " + message
  {
  }
}
