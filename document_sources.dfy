/** How `quiz_generator` turns one source into text: `process_pdf`,
    `process_docx`, `process_pptx` and `process_website`, and the choice
    among them by file extension that `create_quiz` makes. */
module DocumentSources {
  import opened Wrappers
  import opened PhpStrings
  import opened QuizData
  import opened Hosts
  import opened PdfExtractor

  // ---------------------------------------------------------------------
  // PDF

  /** The command `process_pdf` runs: no page flags, text to stdout. */
  function ProcessPdfCommand(path: string): string {
    "pdftotext " + EscapeShellArg(path) + " -"
  }

  /** It is the whole-document command of `pdf_extractor`. */
  lemma {:induction false} ProcessPdfCommandIsWholeDocument(path: string)
    ensures ProcessPdfCommand(path) == PdftotextCommand(path, None, None)
  {
    assert "pdftotext" + "" + " " == "pdftotext ";
  }

  /** `process_pdf`: the output lines when the exit status is 0. Unlike
      `pdf_extractor`, blank output is accepted. */
  function ProcessPdf(host: Host, path: string): (r: Result<string, Error>)
    ensures r.Success? <==> host.exec(ProcessPdfCommand(path)).exitCode == 0
    ensures r.Failure? ==> r.error == PdfProcessingFailed
  {
    var out := host.exec(ProcessPdfCommand(path));
    if out.exitCode == 0 then Success(Implode(out.lines, "\n")) else Failure(PdfProcessingFailed)
  }

  /** Where `pdf_extractor` succeeds on the whole document, `process_pdf`
      returns the same text. */
  lemma {:induction false} ProcessPdfAgrees(host: Host, path: string)
    requires ExtractWithPdftotext(host, path, None, None).Success?
    ensures ProcessPdf(host, path) == ExtractWithPdftotext(host, path, None, None)
  {
    ProcessPdfCommandIsWholeDocument(path);
  }

  // ---------------------------------------------------------------------
  // DOCX

  const DocxBody: string := "word/document.xml"

  /** `process_docx`: the tag-stripped main part of the archive. */
  function ProcessDocx(host: Host, path: string): (r: Result<string, Error>)
    ensures r.Success? <==> host.zipOpens(path) && host.zipEntry(path, DocxBody).Some?
    ensures r.Success? ==> r.value == host.stripTags(host.zipEntry(path, DocxBody).value)
    ensures r.Failure? ==> r.error == DocxProcessingFailed
  {
    if host.zipOpens(path) then
      match host.zipEntry(path, DocxBody)
      case Some(xml) => Success(host.stripTags(xml))
      case None => Failure(DocxProcessingFailed)
    else Failure(DocxProcessingFailed)
  }

  // ---------------------------------------------------------------------
  // PPTX

  /** Slides are probed while their number is below this bound. */
  const SlideBound: nat := 50

  function SlideName(i: nat): string {
    "ppt/slides/slide" + NatToString(i) + ".xml"
  }

  /** The stripped texts of the slides numbered 1 to `i - 1` that exist. */
  function SlideTexts(host: Host, path: string, i: nat): (texts: seq<string>)
    requires 1 <= i
    ensures |texts| < i
  {
    if i == 1 then []
    else
      SlideTexts(host, path, i - 1)
      + match host.zipEntry(path, SlideName(i - 1))
        case Some(xml) => [host.stripTags(xml)]
        case None => []
  }

  /** What `process_pptx` computes: the slide texts joined by newlines, and
      a failure when no slide was found or the archive does not open. */
  function PptxText(host: Host, path: string): Result<string, Error> {
    var texts := if host.zipOpens(path) then SlideTexts(host, path, SlideBound) else [];
    if texts != [] then Success(Implode(texts, "\n")) else Failure(PptxProcessingFailed)
  }

  /** `process_pptx`: probes slides 1 to 49 in order and keeps those found. */
  method ProcessPptx(host: Host, path: string) returns (r: Result<string, Error>)
    ensures r == PptxText(host, path)
  {
    var text: seq<string> := [];
    if host.zipOpens(path) {
      for i := 1 to SlideBound
        invariant text == SlideTexts(host, path, i)
      {
        var slide := host.zipEntry(path, SlideName(i));
        if slide.Some? {
          text := text + [host.stripTags(slide.value)];
        }
      }
    }
    if text != [] {
      return Success(Implode(text, "\n"));
    }
    return Failure(PptxProcessingFailed);
  }

  /** Some slide text is found exactly when one of the probed slides exists. */
  lemma {:induction false} SlideTextsNonEmpty(host: Host, path: string, i: nat)
    requires 1 <= i
    ensures SlideTexts(host, path, i) != [] <==>
      exists j :: 1 <= j < i && host.zipEntry(path, SlideName(j)).Some?
  {
    if i > 1 {
      SlideTextsNonEmpty(host, path, i - 1);
      if host.zipEntry(path, SlideName(i - 1)).None? {
        assert forall j :: 1 <= j < i && host.zipEntry(path, SlideName(j)).Some? ==> j < i - 1;
      }
    }
  }

  /** A presentation yields text exactly when the archive opens and one of
      slides 1 to 49 exists; at most 49 slides are read. */
  lemma {:induction false} PptxSucceedsIff(host: Host, path: string)
    ensures PptxText(host, path).Success? <==>
      host.zipOpens(path) && exists j :: 1 <= j < SlideBound && host.zipEntry(path, SlideName(j)).Some?
    ensures |SlideTexts(host, path, SlideBound)| <= SlideBound - 1
  {
    SlideTextsNonEmpty(host, path, SlideBound);
  }

  /** Two hosts that agree on slides 1 to `i - 1` give the same slide texts:
      slide 50 and later are never read. */
  lemma {:induction false} SlideTextsFrame(h1: Host, h2: Host, path: string, i: nat)
    requires 1 <= i
    requires h1.stripTags == h2.stripTags
    requires forall j :: 1 <= j < i ==> h1.zipEntry(path, SlideName(j)) == h2.zipEntry(path, SlideName(j))
    ensures SlideTexts(h1, path, i) == SlideTexts(h2, path, i)
  {
    if i > 1 {
      SlideTextsFrame(h1, h2, path, i - 1);
    }
  }

  // ---------------------------------------------------------------------
  // Websites

  /** How many `\s` characters `s` holds from index `i` on. */
  function RegexSpaceRun(s: string, i: nat): (n: nat)
    requires i <= |s|
    ensures i + n <= |s|
    ensures i < |s| && IsRegexSpace(s[i]) ==> n >= 1
    ensures i + n < |s| ==> !IsRegexSpace(s[i + n])
    decreases |s| - i
  {
    if i < |s| && IsRegexSpace(s[i]) then 1 + RegexSpaceRun(s, i + 1) else 0
  }

  /** Whitespace is normalised: every `\s` character is a plain space and no
      two spaces are adjacent. */
  predicate Normalized(s: string) {
    && (forall k :: 0 <= k < |s| && IsRegexSpace(s[k]) ==> s[k] == ' ')
    && (forall k :: 0 <= k < |s| - 1 && s[k] == ' ' ==> s[k + 1] != ' ')
  }

  /** `preg_replace('/\s+/', ' ', ...)` on `s[i..]`: each maximal run of `\s`
      characters becomes one space. */
  function CollapseFrom(s: string, i: nat): (r: string)
    requires i <= |s|
    ensures Normalized(r)
    ensures r != [] && r[0] == ' ' ==> i < |s| && IsRegexSpace(s[i])
    decreases |s| - i
  {
    if i == |s| then ""
    else if IsRegexSpace(s[i]) then " " + CollapseFrom(s, i + RegexSpaceRun(s, i))
    else [s[i]] + CollapseFrom(s, i + 1)
  }

  function CollapseWhitespace(s: string): (r: string)
    ensures Normalized(r)
  {
    CollapseFrom(s, 0)
  }

  /** Collapsing leaves an already normalised text as it is. */
  lemma {:induction false} CollapseNormalized(s: string, i: nat)
    requires Normalized(s) && i <= |s|
    ensures CollapseFrom(s, i) == s[i..]
    decreases |s| - i
  {
    if i < |s| {
      if IsRegexSpace(s[i]) {
        assert RegexSpaceRun(s, i) == 1 by {
          if i + 1 < |s| {
            assert s[i + 1] != ' ';
          }
        }
      }
      CollapseNormalized(s, i + 1);
      assert s[i..] == [s[i]] + s[i + 1..];
    }
  }

  /** Collapsing whitespace twice is collapsing it once. */
  lemma {:induction false} CollapseIdempotent(s: string)
    ensures CollapseWhitespace(CollapseWhitespace(s)) == CollapseWhitespace(s)
  {
    var c := CollapseWhitespace(s);
    CollapseNormalized(c, 0);
    assert c[0..] == c;
  }

  /** A trimmed piece of a normalised text is normalised. */
  lemma {:induction false} TrimKeepsNormalized(s: string)
    requires Normalized(s)
    ensures Normalized(Trim(s))
  {
    TrimSpec(s);
    var lo := TrimRun(s, 0);
    var t := Trim(s);
    assert forall k :: 0 <= k < |t| ==> t[k] == s[lo + k];
  }

  /** `process_website`: the fetched page, tags stripped, whitespace
      collapsed, then trimmed. */
  function ProcessWebsite(host: Host, url: string): (r: Result<string, Error>)
    ensures r.Failure? <==> host.fetchUrl(url).None?
    ensures r.Failure? ==> r.error == WebsiteFetchFailed
    ensures r.Success? ==> r.value == Trim(CollapseWhitespace(host.stripTags(host.fetchUrl(url).value)))
  {
    match host.fetchUrl(url)
    case None => Failure(WebsiteFetchFailed)
    case Some(content) => Success(Trim(CollapseWhitespace(host.stripTags(content))))
  }

  /** The text of a page has normalised whitespace and no space at either end. */
  lemma {:induction false} WebsiteTextNormalized(host: Host, url: string)
    requires ProcessWebsite(host, url).Success?
    ensures Normalized(ProcessWebsite(host, url).value)
    ensures var t := ProcessWebsite(host, url).value; t != [] ==> t[0] != ' ' && t[|t| - 1] != ' '
  {
    var c := CollapseWhitespace(host.stripTags(host.fetchUrl(url).value));
    TrimKeepsNormalized(c);
    TrimSpec(c);
  }

  // ---------------------------------------------------------------------
  // Choosing the extractor

  /** `s[k..]`, written as a comprehension. */
  function From(s: string, k: nat): (r: string)
    requires k <= |s|
    ensures |r| == |s| - k
  {
    seq(|s| - k, m requires 0 <= m < |s| - k => s[k + m])
  }

  /** `basename`: what follows the last `/`. */
  function BaseName(path: string): string {
    From(path, AfterLast(path, '/', |path|))
  }

  /** `pathinfo($path, PATHINFO_EXTENSION)`: what follows the last `.` of the
      base name, or "" when it has none. */
  function Extension(path: string): string {
    var b := BaseName(path);
    var k := AfterLast(b, '.', |b|);
    if k == 0 then "" else From(b, k)
  }

  /** A base name holds no `/`, an extension neither `/` nor `.`. */
  lemma {:induction false} NameParts(path: string)
    ensures '/' !in BaseName(path)
    ensures '.' !in Extension(path) && '/' !in Extension(path)
  {
  }

  /** A path `dir/stem.ext` has base name `stem.ext` and extension `ext`. */
  lemma {:induction false} ExtensionOfPath(dir: string, stem: string, ext: string)
    requires '/' !in stem && '/' !in ext && '.' !in ext
    ensures BaseName(dir + "/" + stem + "." + ext) == stem + "." + ext
    ensures Extension(dir + "/" + stem + "." + ext) == ext
  {
    var name := stem + "." + ext;
    assert dir + "/" + stem + "." + ext == dir + "/" + name;
    BaseNameOf(dir, name);
    var k := AfterLast(name, '.', |name|);
    LastAfter(name, '.', |stem| + 1);
    assert From(name, |stem| + 1) == ext;
  }

  lemma {:induction false} BaseNameOf(dir: string, name: string)
    requires '/' !in name && name != ""
    ensures BaseName(dir + "/" + name) == name
  {
    var path := dir + "/" + name;
    LastAfter(path, '/', |dir| + 1);
    assert From(path, |dir| + 1) == name;
  }

  /** When `s[k - 1]` is `c` and no `c` follows it, the last `c` ends at `k`. */
  lemma {:induction false} LastAfter(s: string, c: char, k: nat)
    requires 0 < k <= |s| && s[k - 1] == c
    requires forall m :: k <= m < |s| ==> s[m] != c
    ensures AfterLast(s, c, |s|) == k
  {
    LastAfterFrom(s, c, k, |s|);
  }

  lemma {:induction false} LastAfterFrom(s: string, c: char, k: nat, j: nat)
    requires 0 < k <= j <= |s| && s[k - 1] == c
    requires forall m :: k <= m < j ==> s[m] != c
    ensures AfterLast(s, c, j) == k
    decreases j
  {
    if j > k {
      LastAfterFrom(s, c, k, j - 1);
    }
  }

  /** The extractors `create_quiz` dispatches to. */
  datatype Format = Pdf | Docx | Pptx | Unsupported

  /** The format named by the lower-cased extension. */
  function FormatOf(path: string): (f: Format)
    ensures f == Pdf <==> ToLowerAscii(Extension(path)) == "pdf"
    ensures f == Docx <==> ToLowerAscii(Extension(path)) == "docx"
    ensures f == Pptx <==> ToLowerAscii(Extension(path)) == "pptx"
  {
    var ext := ToLowerAscii(Extension(path));
    if ext == "pdf" then Pdf else if ext == "docx" then Docx else if ext == "pptx" then Pptx else Unsupported
  }

  /** The text of one document: `None` when its format is not supported (it
      is skipped), otherwise the extractor's result. A PDF with a page range
      goes through `pdf_extractor`, one without through `process_pdf`. */
  function ExtractDocument(host: Host, doc: Document): (r: Option<Result<string, Error>>)
    ensures r.None? <==> FormatOf(doc.path) == Unsupported
  {
    match FormatOf(doc.path)
    case Pdf =>
      (match doc.pageRange
       case Some(range) => Some(ExtractPages(host, doc.path, Some(range.from), Some(range.to)))
       case None => Some(ProcessPdf(host, doc.path)))
    case Docx => Some(ProcessDocx(host, doc.path))
    case Pptx => Some(PptxText(host, doc.path))
    case Unsupported => None
  }
}
