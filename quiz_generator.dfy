/** `quiz_generator` itself: the generator object with its API key and
    request counter, `generate_mcqs`, and `create_quiz`, which extracts the
    primary and supporting sources, assembles the labelled context and stamps
    the source counts into the quiz metadata. */
module QuizGeneration {
  import opened Wrappers
  import opened PhpStrings
  import opened QuizData
  import opened Hosts
  import opened DocumentSources
  import opened GeminiClient
  import opened McqValidation

  // ---------------------------------------------------------------------
  // Source parts

  /** " (pages from-to)" for a document with a page range, "" otherwise. */
  function RangeLabel(range: Option<PageRange>): string {
    match range
    case None => ""
    case Some(r) => " (pages " + IntToString(r.from) + "-" + IntToString(r.to) + ")"
  }

  /** The labelled block for one extracted document; `role` is "PRIMARY" or
      "SUPPORTING". */
  function DocumentPart(role: string, doc: Document, content: string): string {
    "=== " + role + " DOCUMENT: " + BaseName(doc.path) + RangeLabel(doc.pageRange) + " ===\n" + content + "\n"
  }

  /** The block a document contributes: none when its format is unsupported
      or its extraction fails (the failure is only logged). */
  function PartOf(host: Host, role: string, doc: Document): Option<string> {
    match ExtractDocument(host, doc)
    case Some(Success(content)) => Some(DocumentPart(role, doc, content))
    case _ => None
  }

  /** `PartOf` for one role, as a function of the document. */
  function PartFn(host: Host, role: string): Document -> Option<string> {
    d => PartOf(host, role, d)
  }

  /** The blocks of a document list, in document order. */
  function DocumentParts(host: Host, role: string, docs: seq<Document>): seq<string> {
    Kept(PartFn(host, role), docs, |docs|)
  }

  /** The block for one website, when it can be fetched. */
  function WebsitePartOf(host: Host, url: string): Option<string> {
    match ProcessWebsite(host, url)
    case Success(text) => Some("=== SUPPORTING WEBSITE: " + url + " ===\n" + text + "\n")
    case Failure(_) => None
  }

  /** `WebsitePartOf` as a function of the URL. */
  function WebsiteFn(host: Host): string -> Option<string> {
    url => WebsitePartOf(host, url)
  }

  /** The blocks of the website list, in list order. */
  function WebsiteParts(host: Host, urls: seq<string>): seq<string> {
    Kept(WebsiteFn(host), urls, |urls|)
  }

  /** One document's text, by its format; the PPTX case runs the slide loop. */
  method ReadDocument(host: Host, doc: Document) returns (r: Option<Result<string, Error>>)
    ensures r == ExtractDocument(host, doc)
  {
    match FormatOf(doc.path)
    case Pptx =>
      var text := ProcessPptx(host, doc.path);
      r := Some(text);
    case _ =>
      r := ExtractDocument(host, doc);
  }

  /** The body of the loop over a document list: the `try` block, whose
      failures are swallowed. */
  method DocumentStep(host: Host, role: string, doc: Document) returns (part: Option<string>)
    ensures part == PartOf(host, role, doc)
  {
    var content := ReadDocument(host, doc);
    if content.Some? && content.value.Success? {
      return Some(DocumentPart(role, doc, content.value.value));
    }
    return None;
  }

  /** The loop over one document list. */
  method CollectDocumentParts(host: Host, role: string, docs: seq<Document>) returns (parts: seq<string>)
    ensures parts == DocumentParts(host, role, docs)
  {
    parts := [];
    for i := 0 to |docs|
      invariant parts == Kept(PartFn(host, role), docs, i)
    {
      var part := DocumentStep(host, role, docs[i]);
      if part.Some? {
        parts := parts + [part.value];
      }
    }
  }

  /** The loop over the website list. */
  method CollectWebsiteParts(host: Host, urls: seq<string>) returns (parts: seq<string>)
    ensures parts == WebsiteParts(host, urls)
  {
    parts := [];
    for i := 0 to |urls|
      invariant parts == Kept(WebsiteFn(host), urls, i)
    {
      var url := urls[i];
      var page := ProcessWebsite(host, url);
      if page.Success? {
        parts := parts + ["=== SUPPORTING WEBSITE: " + url + " ===\n" + page.value + "\n"];
      }
    }
  }

  /** A block is collected exactly when some document yields it: a document
      that fails or is skipped does not stop the others. */
  lemma {:induction false} DocumentPartsMembers(host: Host, role: string, docs: seq<Document>, p: string)
    ensures p in DocumentParts(host, role, docs) <==> exists i :: 0 <= i < |docs| && PartOf(host, role, docs[i]) == Some(p)
  {
    KeptMembers(PartFn(host, role), docs, |docs|);
  }

  /** No block is collected exactly when no document yields one. */
  lemma {:induction false} DocumentPartsEmpty(host: Host, role: string, docs: seq<Document>)
    ensures DocumentParts(host, role, docs) == [] <==>
      forall i :: 0 <= i < |docs| ==> PartOf(host, role, docs[i]).None?
  {
    KeptEmpty(PartFn(host, role), docs, |docs|);
  }

  /** A website block is collected exactly when some listed page is fetched. */
  lemma {:induction false} WebsitePartsMembers(host: Host, urls: seq<string>, p: string)
    ensures p in WebsiteParts(host, urls) <==> exists i :: 0 <= i < |urls| && WebsitePartOf(host, urls[i]) == Some(p)
  {
    KeptMembers(WebsiteFn(host), urls, |urls|);
  }

  // ---------------------------------------------------------------------
  // The assembled context

  const PrimaryHeader: string := "PRIMARY SOURCE MATERIALS (questions must come from these):\n\n"
  const SupportingHeader: string := "SUPPORTING MATERIALS (for context/reference only):\n\n"
  const PartGlue: string := "\n\n"

  /** The blank lines and the row of 80 `=` between the two halves. */
  function Divider(): string {
    "\n\n" + Repeat('=', 80) + "\n\n"
  }

  /** The context sent to the model: the primary blocks under their header,
      then, only when there are supporting blocks, the divider and those
      blocks under theirs. */
  function ContextOf(primary: seq<string>, supporting: seq<string>): (c: string)
    ensures |PrimaryHeader| <= |c| && c[..|PrimaryHeader|] == PrimaryHeader
    ensures supporting == [] <==> c == PrimaryHeader + Implode(primary, PartGlue)
  {
    PrimaryHeader + Implode(primary, PartGlue)
    + (if supporting == [] then "" else Divider() + SupportingHeader + Implode(supporting, PartGlue))
  }

  /** `create_quiz` builds the context by appending. */
  method AssembleContext(primary: seq<string>, supporting: seq<string>) returns (context: string)
    ensures context == ContextOf(primary, supporting)
  {
    context := PrimaryHeader;
    context := context + Implode(primary, PartGlue);
    if supporting != [] {
      context := context + "\n\n" + Repeat('=', 80) + "\n\n";
      context := context + SupportingHeader;
      context := context + Implode(supporting, PartGlue);
    }
  }

  /** The context opens with the primary material; without supporting blocks
      that is all of it, and with them it closes with the supporting
      material, after the divider. */
  lemma {:induction false} ContextLayout(primary: seq<string>, supporting: seq<string>)
    ensures var head := PrimaryHeader + Implode(primary, PartGlue);
      var c := ContextOf(primary, supporting);
      |head| <= |c| && c[..|head|] == head
    ensures supporting == [] ==> ContextOf(primary, supporting) == PrimaryHeader + Implode(primary, PartGlue)
    ensures supporting != [] ==>
      EndsWith(ContextOf(primary, supporting), Divider() + SupportingHeader + Implode(supporting, PartGlue))
  {
    var head := PrimaryHeader + Implode(primary, PartGlue);
    var tail := if supporting == [] then "" else Divider() + SupportingHeader + Implode(supporting, PartGlue);
    assert ContextOf(primary, supporting) == head + tail;
    assert (head + tail)[..|head|] == head;
    SuffixOf(head, tail);
  }

  // ---------------------------------------------------------------------
  // Metadata

  /** The source counts `create_quiz` writes into the metadata; every other
      metadata entry and the questions are kept. */
  function Stamp(quiz: Quiz, primaryCount: nat, supportingCount: nat): (q: Quiz)
    ensures q.questions == quiz.questions
    ensures q.metadata.Keys == quiz.metadata.Keys + {"source_type", "primary_count", "supporting_count"}
    ensures q.metadata["source_type"] == MetaText("primary_documents")
    ensures q.metadata["primary_count"] == MetaNumber(primaryCount)
    ensures q.metadata["supporting_count"] == MetaNumber(supportingCount)
    ensures forall key :: key in quiz.metadata && key !in {"source_type", "primary_count", "supporting_count"} ==>
      q.metadata[key] == quiz.metadata[key]
  {
    quiz.(metadata := quiz.metadata
      ["source_type" := MetaText("primary_documents")]
      ["primary_count" := MetaNumber(primaryCount)]
      ["supporting_count" := MetaNumber(supportingCount)])
  }

  function StampResult(r: Result<Quiz, Error>, primaryCount: nat, supportingCount: nat): Result<Quiz, Error> {
    match r
    case Success(quiz) => Success(Stamp(quiz, primaryCount, supportingCount))
    case Failure(e) => Failure(e)
  }

  // ---------------------------------------------------------------------
  // The generator

  /** The key the constructor settles on: the argument, or the configured
      key when the argument is null. */
  function ChosenKey(apiKey: Option<string>, configured: Option<string>): (r: Option<string>)
    ensures r == apiKey || r == configured
    ensures apiKey.Some? ==> r == apiKey
    ensures r.None? <==> apiKey.None? && configured.None?
  {
    if apiKey.Some? then apiKey else configured
  }

  class QuizGenerator {
    const apiKey: string
    /** `usagestats['total_requests']`. */
    var totalRequests: nat

    constructor(apiKey: string)
      requires !PhpEmpty(apiKey)
      ensures this.apiKey == apiKey && totalRequests == 0
    {
      this.apiKey := apiKey;
      totalRequests := 0;
    }

    /** `new quiz_generator($apikey)`: fails with `no_api_key` exactly when
        the chosen key is missing or empty in PHP's sense. */
    static method Create(apiKey: Option<string>, configured: Option<string>) returns (r: Result<QuizGenerator, Error>)
      ensures var key := ChosenKey(apiKey, configured);
        r.Failure? <==> key.None? || PhpEmpty(key.value)
      ensures r.Failure? ==> r.error == NoApiKey
      ensures r.Success? ==> fresh(r.value) && r.value.apiKey == ChosenKey(apiKey, configured).value && r.value.totalRequests == 0
    {
      var key := ChosenKey(apiKey, configured);
      if key.None? || PhpEmpty(key.value) {
        return Failure(NoApiKey);
      }
      var generator := new QuizGenerator(key.value);
      return Success(generator);
    }

    /** `generate_mcqs`: defaults the quota, truncates the context, builds
        the prompt and calls the model. The counter is raised only after a
        call that returned, so a failed call is not counted. */
    method GenerateMcqs(host: Host, context: string, n: int, mix: Option<Mix>, primaryOnly: bool, ma: Option<MaConfig>)
      returns (r: Result<Quiz, Error>)
      modifies this
      ensures r == CallGeminiApi(host, apiKey, BuildPrompt(TruncateContext(context), n, mix.GetOr(QuarterMix(n)), primaryOnly, ma))
      ensures totalRequests == old(totalRequests) + (if r.Success? then 1 else 0)
    {
      var quota := if mix.Some? then mix.value else QuarterMix(n);
      var bounded := TruncateContext(context);
      var prompt := BuildPrompt(bounded, n, quota, primaryOnly, ma);
      r := CallGeminiApi(host, apiKey, prompt);
      if r.Failure? {
        return;
      }
      totalRequests := totalRequests + 1;
    }

    /** `create_quiz`. Without a primary block it fails with
        `no_primary_docs` and never calls the model; otherwise it sends the
        assembled context (primary material only in scope) and stamps the
        block counts into the quiz. */
    method CreateQuiz(host: Host, primaryDocs: seq<Document>, supportingDocs: seq<Document>, urls: seq<string>,
                      n: int, mix: Option<Mix>, ma: Option<MaConfig>)
      returns (r: Result<Quiz, Error>)
      modifies this
      ensures var primary := DocumentParts(host, "PRIMARY", primaryDocs);
        r == Failure(NoPrimaryDocs) <==> primary == []
      ensures var primary := DocumentParts(host, "PRIMARY", primaryDocs);
        var supporting := DocumentParts(host, "SUPPORTING", supportingDocs)
                          + WebsiteParts(host, urls);
        primary != [] ==>
          r == StampResult(
                 CallGeminiApi(host, apiKey,
                   BuildPrompt(TruncateContext(ContextOf(primary, supporting)), n, mix.GetOr(RoundedMix(n)), true, ma)),
                 |primary|, |supporting|)
      ensures totalRequests == old(totalRequests) + (if r.Success? then 1 else 0)
    {
      var primary := CollectDocumentParts(host, "PRIMARY", primaryDocs);
      var supporting := CollectDocumentParts(host, "SUPPORTING", supportingDocs);
      var pages := CollectWebsiteParts(host, urls);
      supporting := supporting + pages;
      if primary == [] {
        return Failure(NoPrimaryDocs);
      }
      var context := AssembleContext(primary, supporting);
      var quota := if mix.Some? then mix.value else RoundedMix(n);
      var generated := GenerateMcqs(host, context, n, Some(quota), true, ma);
      if generated.Failure? {
        return Failure(generated.error);
      }
      var quiz := Stamp(generated.value, |primary|, |supporting|);
      // the issues are only logged
      var issues := ValidateMcqs(quiz);
      return Success(quiz);
    }
  }
}
