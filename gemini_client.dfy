/** The model-facing half of `quiz_generator`: bounding the context, the
    default difficulty quotas, which clauses the prompt carries, and how the
    HTTP reply of the generation endpoint becomes a quiz or an error. */
module GeminiClient {
  import opened Wrappers
  import opened PhpStrings
  import opened QuizData
  import opened Hosts

  // ---------------------------------------------------------------------
  // Context truncation

  /** The input budget in tokens, and in characters at four per token. */
  const MaxInputTokens: nat := 1900000
  const MaxContextChars: nat := MaxInputTokens * 4

  /** `(int)($maxcontextchars * 0.7)`: 7600000 * 0.7 rounds to exactly
      5320000.0 in double precision, so the cast loses nothing. */
  const HeadChars: nat := MaxContextChars * 7 / 10
  const TailChars: nat := MaxContextChars - HeadChars

  const TruncationMarker: string := "\n\n[... content truncated ...]\n\n"

  /** A context over the budget keeps its first 70% and last 30% of the
      budget, joined by the marker; a context within it is kept whole. */
  function TruncateContext(context: string): (r: string)
    ensures |context| <= MaxContextChars ==> r == context
    ensures |context| > MaxContextChars ==>
      && |r| == MaxContextChars + |TruncationMarker|
      && r[..HeadChars] == context[..HeadChars]
      && r[HeadChars..HeadChars + |TruncationMarker|] == TruncationMarker
      && r[HeadChars + |TruncationMarker|..] == context[|context| - TailChars..]
  {
    if |context| > MaxContextChars then
      context[..HeadChars] + TruncationMarker + context[|context| - TailChars..]
    else context
  }

  /** The kept head and tail never overlap: together they are the budget,
      which the truncated context exceeds. */
  lemma {:induction false} TruncationKeepsDisjointEnds(context: string)
    requires |context| > MaxContextChars
    ensures HeadChars == 5320000 && TailChars == 2280000
    ensures HeadChars + TailChars == MaxContextChars
    ensures HeadChars < |context| - TailChars
    ensures |TruncateContext(context)| <= MaxContextChars + |TruncationMarker|
  {
  }

  /** Truncation never lengthens a context beyond the budget and the marker. */
  lemma {:induction false} TruncatedLength(context: string)
    ensures |TruncateContext(context)| <= if |context| <= MaxContextChars then |context| else MaxContextChars + |TruncationMarker|
    ensures |TruncateContext(context)| <= MaxContextChars + |TruncationMarker|
  {
  }

  // ---------------------------------------------------------------------
  // Default difficulty quotas

  /** PHP's `(int)` of `a / d`, which truncates toward zero. */
  function TruncDiv(a: int, d: int): int
    requires d > 0
  {
    if a >= 0 then a / d else -((-a) / d)
  }

  /** `generate_mcqs` without a quota: a quarter, a half and a quarter, each
      truncated. */
  function QuarterMix(n: int): Mix {
    Mix(TruncDiv(n, 4), TruncDiv(n, 2), TruncDiv(n, 4))
  }

  /** That quota adds up to the requested count only when the count is a
      multiple of four; otherwise it falls short by one or two. */
  lemma {:induction false} QuarterMixTotal(n: nat)
    ensures MixTotal(QuarterMix(n)) == n <==> n % 4 == 0
    ensures n - 2 <= MixTotal(QuarterMix(n)) <= n
  {
    var q := n / 4;
    var r := n % 4;
    assert n == 4 * q + r;
    assert TruncDiv(n, 4) == q;
    assert TruncDiv(n, 2) == 2 * q + r / 2;
  }

  /** `create_quiz` without a quota: easy and medium are rounded quarter and
      half shares and hard takes the rest. */
  function RoundedMix(n: int): (mix: Mix)
    ensures MixTotal(mix) == n
  {
    var easy := RoundHalfAway(n, 4);
    var medium := RoundHalfAway(n, 2);
    Mix(easy, medium, n - easy - medium)
  }

  /** For any non-negative count, no quota of the rounded default is negative. */
  lemma {:induction false} RoundedMixNonNegative(n: nat)
    ensures RoundedMix(n).easy >= 0 && RoundedMix(n).medium >= 0 && RoundedMix(n).hard >= 0
  {
    SharesFit(n, RoundHalfAway(n, 4), RoundHalfAway(n, 2));
  }

  /** A quarter and a half of `n`, each rounded up by at most a half, still
      fit in `n`. */
  lemma {:induction false} SharesFit(n: nat, e: int, m: int)
    requires 8 * e - 4 <= 2 * n && 4 * m - 2 <= 2 * n
    ensures e + m <= n
  {
    if n > 0 {
      assert 8 * (e + m) < 8 * (n + 1);
    }
  }

  // ---------------------------------------------------------------------
  // The prompt

  /** Which clauses `build_mcq_prompt` selects and the numbers it embeds. */
  function BuildPrompt(context: string, n: int, mix: Mix, primaryOnly: bool, ma: Option<MaConfig>): (p: Prompt)
    ensures p.context == context && p.numQuestions == n && p.mix == mix
    ensures p.scopeRestricted == primaryOnly
    ensures p.answerType.Variety? <==> ma.Some? && ma.value.count > 0
    ensures p.answerType.Variety? ==>
      && p.answerType.multipleCount == ma.value.count
      && p.answerType.singleCount + p.answerType.multipleCount == n
      && p.answerType.multipleMix == ma.value.difficulty
  {
    var clause :=
      if ma.Some? && ma.value.count > 0 then Variety(n - ma.value.count, ma.value.count, ma.value.difficulty)
      else AllSingle;
    Prompt(context, n, mix, primaryOnly, clause)
  }

  // ---------------------------------------------------------------------
  // The API reply

  const ApiEndpoint: string := "https://generativelanguage.googleapis.com/v1beta/models/gemini-2.5-flash:generateContent"

  function RequestUrl(apiKey: string): string {
    ApiEndpoint + "?key=" + apiKey
  }

  /** `isset($j[$key])` on a decoded object: present and not null. */
  function Member(j: Json, key: string): (r: Option<Json>)
    ensures r.Some? ==> r.value != JNull
  {
    if j.JObject? && key in j.members && j.members[key] != JNull then Some(j.members[key]) else None
  }

  /** `isset($j[0])`: the first element of a list, or the member named "0". */
  function First(j: Json): (r: Option<Json>)
    ensures r.Some? ==> r.value != JNull
  {
    if j.JArray? && |j.items| > 0 && j.items[0] != JNull then Some(j.items[0])
    else Member(j, "0")
  }

  /** `$result['candidates'][0]['content']['parts'][0]['text']`, when set and
      a string. */
  function ResponseText(envelope: Json): Option<string> {
    var candidates :- Member(envelope, "candidates");
    var candidate :- First(candidates);
    var content :- Member(candidate, "content");
    var parts :- Member(content, "parts");
    var part :- First(parts);
    var text :- Member(part, "text");
    if text.JString? then Some(text.s) else None
  }

  /** The envelope the endpoint sends around one generated text. */
  function Envelope(text: string, moreParts: seq<Json>, moreCandidates: seq<Json>): Json {
    JObject(map["candidates" := JArray(
      [JObject(map["content" := JObject(map["parts" := JArray(
        [JObject(map["text" := JString(text)])] + moreParts)])])] + moreCandidates)])
  }

  /** The text is read from the first part of the first candidate, whatever
      follows them. */
  lemma {:induction false} ResponseTextOfEnvelope(text: string, moreParts: seq<Json>, moreCandidates: seq<Json>)
    ensures ResponseText(Envelope(text, moreParts, moreCandidates)) == Some(text)
  {
    var part := JObject(map["text" := JString(text)]);
    var parts := JArray([part] + moreParts);
    var content := JObject(map["parts" := parts]);
    var candidate := JObject(map["content" := content]);
    var candidates := JArray([candidate] + moreCandidates);
    assert Member(Envelope(text, moreParts, moreCandidates), "candidates") == Some(candidates);
    assert First(candidates) == Some(candidate);
    assert Member(candidate, "content") == Some(content);
    assert Member(content, "parts") == Some(parts);
    assert First(parts) == Some(part);
    assert Member(part, "text") == Some(JString(text));
  }

  /** PHP truthiness of a decoded value. */
  predicate Truthy(j: Json) {
    match j
    case JNull => false
    case JBool(b) => b
    case JNumber(n) => n != 0
    case JString(s) => !PhpEmpty(s)
    case JArray(items) => |items| > 0
    case JObject(members) => |members| > 0
  }

  /** A decoded value concatenated into a string. */
  function ScalarText(j: Json): string {
    match j
    case JNull => ""
    case JBool(b) => if b then "1" else ""
    case JNumber(n) => IntToString(n)
    case JString(s) => s
    case JArray(_) => "Array"
    case JObject(_) => "Array"
  }

  /** The detail of an error reply, when there is one PHP treats as true:
      `error.message` if set, else `error` re-encoded, else nothing. */
  function ErrorDetail(host: Host, body: string): (d: Option<string>)
    ensures d.Some? ==> !PhpEmpty(d.value)
    ensures host.decodeEnvelope(body).None? ==> d.None?
    ensures host.decodeEnvelope(body).Some? && Member(host.decodeEnvelope(body).value, "error").None? ==> d.None?
    ensures host.decodeEnvelope(body).Some? && Member(host.decodeEnvelope(body).value, "error").Some? ==>
      var error := Member(host.decodeEnvelope(body).value, "error").value;
      && (Member(error, "message").Some? ==>
            (d.Some? <==> Truthy(Member(error, "message").value))
            && (d.Some? ==> d.value == ScalarText(Member(error, "message").value)))
      && (Member(error, "message").None? ==>
            (d.Some? <==> !PhpEmpty(host.encodeJson(error)))
            && (d.Some? ==> d.value == host.encodeJson(error)))
  {
    match host.decodeEnvelope(body)
    case None => None
    case Some(data) =>
      match Member(data, "error")
      case None => None
      case Some(error) =>
        match Member(error, "message")
        case Some(message) => if Truthy(message) then Some(ScalarText(message)) else None
        case None =>
          var encoded := host.encodeJson(error);
          if PhpEmpty(encoded) then None else Some(encoded)
  }

  /** The exception for a reply whose status is not 200. */
  function StatusError(status: int, detail: Option<string>): (e: Error)
    ensures e.QuotaExceeded? <==> status == 429
    ensures e.ApiAuthFailed? <==> status == 401 || status == 403
    ensures e.ApiBadRequest? <==> status == 400
    ensures e.ApiNotFound? <==> status == 404
    ensures e.ApiRequestFailed? <==> status !in {400, 401, 403, 404, 429}
  {
    if status == 429 then QuotaExceeded("Gemini API quota exceeded. " + detail.GetOr("Please wait and try again later."))
    else if status == 401 || status == 403 then ApiAuthFailed("API authentication failed. " + detail.GetOr("Please check your API key."))
    else if status == 400 then ApiBadRequest("Bad request to API. " + detail.GetOr("HTTP code: " + IntToString(status)))
    else if status == 404 then ApiNotFound("API endpoint or model not found. " + detail.GetOr("Check model name: gemini-2.5-flash"))
    else ApiRequestFailed("HTTP " + IntToString(status) + ": " + detail.GetOr("Unknown error"))
  }

  /** The code chosen for each status, and that the message ends with the
      detail whenever there is one. */
  lemma {:induction false} StatusErrorKinds(status: int, detail: Option<string>)
    ensures StatusError(status, detail).QuotaExceeded? <==> status == 429
    ensures StatusError(status, detail).ApiAuthFailed? <==> status == 401 || status == 403
    ensures StatusError(status, detail).ApiBadRequest? <==> status == 400
    ensures StatusError(status, detail).ApiNotFound? <==> status == 404
    ensures StatusError(status, detail).ApiRequestFailed? <==> status !in {400, 401, 403, 404, 429}
    ensures detail.Some? ==> EndsWith(StatusError(status, detail).message, detail.value)
  {
    var e := StatusError(status, detail);
    if detail.Some? {
      var d := detail.value;
      if status == 429 {
        SuffixOf("Gemini API quota exceeded. ", d);
      } else if status == 401 || status == 403 {
        SuffixOf("API authentication failed. ", d);
      } else if status == 400 {
        SuffixOf("Bad request to API. ", d);
      } else if status == 404 {
        SuffixOf("API endpoint or model not found. ", d);
      } else {
        SuffixOf("HTTP " + IntToString(status) + ": ", d);
      }
    }
  }

  predicate EndsWith(s: string, suffix: string) {
    |suffix| <= |s| && s[|s| - |suffix|..] == suffix
  }

  lemma {:induction false} SuffixOf(prefix: string, suffix: string)
    ensures EndsWith(prefix + suffix, suffix)
  {
    assert (prefix + suffix)[|prefix|..] == suffix;
  }

  /** `call_gemini_api` on the reply the host gives for the request. */
  function CallGeminiApi(host: Host, apiKey: string, prompt: Prompt): (r: Result<Quiz, Error>)
    ensures r.Failure? ==> IsApiError(r.error)
    ensures var reply := host.post(RequestUrl(apiKey), prompt);
      reply.status == 200 && host.decodeEnvelope(reply.body).None? ==> r == Failure(JsonDecodeFailed)
    ensures var reply := host.post(RequestUrl(apiKey), prompt);
      reply.status == 200 && host.decodeEnvelope(reply.body).Some? && r.Failure? ==> r.error == InvalidApiResponse
  {
    var reply := host.post(RequestUrl(apiKey), prompt);
    if reply.status != 200 then
      Failure(StatusError(reply.status, ErrorDetail(host, reply.body)))
    else
      match host.decodeEnvelope(reply.body)
      case None => Failure(JsonDecodeFailed)
      case Some(envelope) =>
        match ResponseText(envelope)
        case None => Failure(InvalidApiResponse)
        case Some(text) =>
          match host.decodeQuiz(text)
          case None => Failure(InvalidApiResponse)
          case Some(quiz) => Success(quiz)
  }

  /** The errors a call to the endpoint can raise. */
  predicate IsApiError(e: Error) {
    e.QuotaExceeded? || e.ApiAuthFailed? || e.ApiBadRequest? || e.ApiNotFound? || e.ApiRequestFailed?
    || e.JsonDecodeFailed? || e.InvalidApiResponse?
  }

  /** A call succeeds exactly when the status is 200, the envelope decodes,
      it carries a text, and that text decodes; the quiz is that text's. */
  lemma {:induction false} CallSucceedsIff(host: Host, apiKey: string, prompt: Prompt)
    ensures var reply := host.post(RequestUrl(apiKey), prompt);
      CallGeminiApi(host, apiKey, prompt).Success? <==>
        && reply.status == 200
        && host.decodeEnvelope(reply.body).Some?
        && ResponseText(host.decodeEnvelope(reply.body).value).Some?
        && host.decodeQuiz(ResponseText(host.decodeEnvelope(reply.body).value).value).Some?
    ensures var reply := host.post(RequestUrl(apiKey), prompt);
      CallGeminiApi(host, apiKey, prompt).Success? ==>
        CallGeminiApi(host, apiKey, prompt).value == host.decodeQuiz(ResponseText(host.decodeEnvelope(reply.body).value).value).value
  {
  }

  /** A reply whose status is not 200 is reported by its status, whatever
      its body. */
  lemma {:induction false} NonOkReported(host: Host, apiKey: string, prompt: Prompt)
    requires host.post(RequestUrl(apiKey), prompt).status != 200
    ensures CallGeminiApi(host, apiKey, prompt).Failure?
    ensures CallGeminiApi(host, apiKey, prompt).error ==
      StatusError(host.post(RequestUrl(apiKey), prompt).status, ErrorDetail(host, host.post(RequestUrl(apiKey), prompt).body))
  {
  }
}
