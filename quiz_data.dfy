/** The values that flow between the plugin's parts: page ranges, the quiz
    records the model returns, difficulty quotas, the prompt plan, and the
    errors (`moodle_exception` codes) the operations raise. */
module QuizData {
  import opened Wrappers

  /** A 1-based inclusive page range `{from, to}`. */
  datatype PageRange = PageRange(from: int, to: int)

  predicate ValidRange(r: PageRange) {
    r.from >= 1 && r.to >= r.from
  }

  /** One uploaded document handed to `create_quiz`: the temporary file path
      and the page range given for its file name, if any. */
  datatype Document = Document(path: string, pageRange: Option<PageRange>)

  /** A decoded JSON value, used for the model API's response envelope. */
  datatype Json =
    | JNull
    | JBool(b: bool)
    | JNumber(n: int)
    | JString(s: string)
    | JArray(items: seq<Json>)
    | JObject(members: map<string, Json>)

  /** `correct_answer`: a single option key, or an array of keys. */
  datatype Answer = Single(key: string) | Multiple(keys: seq<string>)

  /** One generated question; `None` is a key that is absent or null, so that
      `isset` is `Some?`. */
  datatype Question = Question(
    id: Option<int>,
    question: Option<string>,
    options: Option<map<string, string>>,
    correctAnswer: Option<Answer>,
    difficulty: Option<string>,
    topic: Option<string>,
    explanation: Option<string>)

  datatype MetaValue = MetaText(text: string) | MetaNumber(number: int)

  /** The quiz record: an optional `questions` list and the `metadata` map. */
  datatype Quiz = Quiz(questions: Option<seq<Question>>, metadata: map<string, MetaValue>)

  /** An easy/medium/hard question-count quota. */
  datatype Mix = Mix(easy: int, medium: int, hard: int)

  function MixTotal(m: Mix): int {
    m.easy + m.medium + m.hard
  }

  /** The multiple-answer configuration `{count, difficulty}`. */
  datatype MaConfig = MaConfig(count: int, difficulty: Mix)

  /** Which answer-type clause the prompt carries, with the numbers it embeds. */
  datatype AnswerTypeClause =
    | AllSingle
    | Variety(singleCount: int, multipleCount: int, multipleMix: Mix)

  /** The prompt sent to the model: the embedded context and numbers and the
      clauses that were selected; the fixed wording around them is not modelled. */
  datatype Prompt = Prompt(
    context: string,
    numQuestions: int,
    mix: Mix,
    scopeRestricted: bool,
    answerType: AnswerTypeClause)

  /** The `moodle_exception` error codes, with the detail each one carries. */
  datatype Error =
    | NoApiKey
    | PdfProcessingFailed
    | DocxProcessingFailed
    | PptxProcessingFailed
    | WebsiteFetchFailed
    | PdfNotFound(path: string)
    | InvalidPageRange(detail: string)
    | PdfExtractionFailed(detail: string)
    | PdftotextFailed(detail: string)
    | PdfEmpty
    | QuotaExceeded(message: string)
    | ApiAuthFailed(message: string)
    | ApiBadRequest(message: string)
    | ApiNotFound(message: string)
    | ApiRequestFailed(message: string)
    | JsonDecodeFailed
    | InvalidApiResponse
    | NoPrimaryDocs
    | InvalidQuestionFormat(detail: string)
}

/** Everything the plugin asks of the outside world, as fixed functions:
    shell commands, files and zip archives, HTML tag stripping, HTTP, and the
    JSON codec. A `Host` value is one state of that world for one request. */
module Hosts {
  import opened Wrappers
  import opened QuizData

  /** What `exec` reports: the exit status and the output lines. */
  datatype ExecResult = ExecResult(exitCode: int, lines: seq<string>)

  /** What the model endpoint answers: HTTP status and raw body. */
  datatype HttpReply = HttpReply(status: int, body: string)

  datatype Host = Host(
    fileExists: string -> bool,
    exec: string -> ExecResult,
    readFile: string -> Option<string>,
    zipOpens: string -> bool,
    zipEntry: (string, string) -> Option<string>,
    stripTags: string -> string,
    fetchUrl: string -> Option<string>,
    post: (string, Prompt) -> HttpReply,
    decodeEnvelope: string -> Option<Json>,
    decodeQuiz: string -> Option<Quiz>,
    encodeJson: Json -> string)

  /** The command whose exit status tells whether `pdftotext` is installed. */
  const WhichPdftotext: string := "which pdftotext 2>/dev/null"

  predicate PdftotextAvailable(host: Host) {
    host.exec(WhichPdftotext).exitCode == 0
  }
}
