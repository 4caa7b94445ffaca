/** Turning generated questions into Moodle multiple-choice questions and
    importing them into a question category: the name truncation, the A–D
    answer and fraction lists with their exactly-four check, the tags, and
    the loop that counts the questions saved and the ones that failed.
    Saving a question is a parameter: it saves, returns nothing, or throws. */
module QuestionBank {
  import opened Wrappers
  import opened PhpStrings
  import opened QuizData

  // ---------------------------------------------------------------------
  // truncate_text

  /** `substr($s, 0, $n)`: the first `n` characters, or for a negative `n`
      all but the last `-n` (nothing when that is all of them). */
  function SubstrFromStart(s: string, n: int): (r: string)
    ensures n >= 0 ==> |r| == if n <= |s| then n else |s|
    ensures forall k :: 0 <= k < |r| ==> k < |s| && r[k] == s[k]
  {
    if n >= 0 then Substring(s, 0, if n <= |s| then n else |s|)
    else if |s| + n > 0 then Substring(s, 0, |s| + n)
    else ""
  }

  /** `truncate_text`: the text itself when it fits, else its first
      `length - 3` characters and `...`. */
  function TruncateText(text: string, length: int): (r: string)
    ensures |text| <= length ==> r == text
    ensures length >= 3 ==> |r| <= length
  {
    if |text| <= length then text else SubstrFromStart(text, length - 3) + "..."
  }

  /** A text that fits is kept; a longer one becomes exactly `length`
      characters: a prefix of the text followed by `...`. */
  lemma {:induction false} TruncateTextSpec(text: string, length: int)
    requires length >= 3
    ensures |TruncateText(text, length)| <= length
    ensures |text| <= length ==> TruncateText(text, length) == text
    ensures |text| > length ==>
      && |TruncateText(text, length)| == length
      && (forall k :: 0 <= k < length - 3 ==> TruncateText(text, length)[k] == text[k])
      && TruncateText(text, length)[length - 3..] == "..."
  {
    if |text| > length {
      var head := SubstrFromStart(text, length - 3);
      assert TruncateText(text, length) == head + "...";
      assert |head| == length - 3;
    }
  }

  // ---------------------------------------------------------------------
  // create_question_object

  /** The fields of the saved question that depend on the generated one;
      fractions are 1 for the correct answer and 0 otherwise. */
  datatype MoodleQuestion = MoodleQuestion(
    category: int,
    contextId: int,
    name: string,
    questionText: string,
    generalFeedback: string,
    answers: seq<string>,
    fractions: seq<int>,
    tags: seq<string>)

  /** The option keys, in the order the answers are emitted. */
  const AnswerKeys: seq<string> := ["A", "B", "C", "D"]

  const NameLength: int := 100
  const SaveFailureLength: int := 50
  const ExactlyFourOptions: string := "Question must have exactly 4 options"

  /** `isset($qdata['options'][$key])`, with the option text. */
  function AnswerOf(options: Option<map<string, string>>, key: string): Option<string> {
    if options.Some? && key in options.value then Some(options.value[key]) else None
  }

  function AnswerFn(options: Option<map<string, string>>): string -> Option<string> {
    key => AnswerOf(options, key)
  }

  /** The fraction of an option that is present: 1 exactly when the correct
      answer is that very key (`===`), so an array answer marks none. */
  function FractionOf(q: Question, key: string): Option<int> {
    if AnswerOf(q.options, key).Some? then Some(if q.correctAnswer == Some(Single(key)) then 1 else 0) else None
  }

  function FractionFn(q: Question): string -> Option<int> {
    key => FractionOf(q, key)
  }

  /** All four of A, B, C and D are options. */
  predicate HasFourOptions(q: Question) {
    q.options.Some? && forall i :: 0 <= i < 4 ==> AnswerKeys[i] in q.options.value
  }

  /** The topic, then the difficulty, each only when set and not empty. */
  function TagsOf(q: Question): (tags: seq<string>)
    ensures |tags| <= 2
    ensures |tags| == (if q.topic.Some? && !PhpEmpty(q.topic.value) then 1 else 0)
                      + (if q.difficulty.Some? && !PhpEmpty(q.difficulty.value) then 1 else 0)
    ensures q.topic.Some? && !PhpEmpty(q.topic.value) ==> |tags| >= 1 && tags[0] == q.topic.value
    ensures q.difficulty.Some? && !PhpEmpty(q.difficulty.value) ==> |tags| >= 1 && tags[|tags| - 1] == q.difficulty.value
    ensures forall t :: t in tags ==> !PhpEmpty(t)
  {
    (if q.topic.Some? && !PhpEmpty(q.topic.value) then [q.topic.value] else [])
    + (if q.difficulty.Some? && !PhpEmpty(q.difficulty.value) then [q.difficulty.value] else [])
  }

  /** The question text; a missing one reads as empty (PHP's null). */
  function TextOf(q: Question): string {
    q.question.GetOr("")
  }

  /** The saved question for a generated one with all four options, stated
      position by position. */
  function QuestionObject(q: Question, categoryId: int, contextId: int): MoodleQuestion
    requires HasFourOptions(q)
  {
    MoodleQuestion(
      categoryId, contextId,
      TruncateText(TextOf(q), NameLength), TextOf(q), q.explanation.GetOr(""),
      seq(4, i requires 0 <= i < 4 => q.options.value[AnswerKeys[i]]),
      seq(4, i requires 0 <= i < 4 => if q.correctAnswer == Some(Single(AnswerKeys[i])) then 1 else 0),
      TagsOf(q))
  }

  /** `create_question_object`: walks A–D appending the answer and fraction
      of each key that is present, then insists on exactly four answers. */
  method CreateQuestionObject(q: Question, categoryId: int, contextId: int) returns (r: Result<MoodleQuestion, Error>)
    ensures r.Success? <==> HasFourOptions(q)
    ensures r.Success? ==> r.value == QuestionObject(q, categoryId, contextId)
    ensures r.Failure? ==> r.error == InvalidQuestionFormat(ExactlyFourOptions)
  {
    var answers: seq<string> := [];
    var fractions: seq<int> := [];
    for i := 0 to 4
      invariant answers == Kept(AnswerFn(q.options), AnswerKeys, i)
      invariant fractions == Kept(FractionFn(q), AnswerKeys, i)
    {
      var key := AnswerKeys[i];
      if q.options.Some? && key in q.options.value {
        answers := answers + [q.options.value[key]];
        fractions := fractions + [if q.correctAnswer == Some(Single(key)) then 1 else 0];
      }
    }
    KeptFull(AnswerFn(q.options), AnswerKeys, 4);
    KeptFull(FractionFn(q), AnswerKeys, 4);
    if |answers| != 4 {
      assert !HasFourOptions(q);
      return Failure(InvalidQuestionFormat(ExactlyFourOptions));
    }
    assert HasFourOptions(q) by {
      forall i | 0 <= i < 4
        ensures AnswerKeys[i] in q.options.value
      {
        assert AnswerFn(q.options)(AnswerKeys[i]).Some?;
      }
    }
    var tags: seq<string> := [];
    if q.topic.Some? && !PhpEmpty(q.topic.value) {
      tags := tags + [q.topic.value];
    }
    if q.difficulty.Some? && !PhpEmpty(q.difficulty.value) {
      tags := tags + [q.difficulty.value];
    }
    ghost var expected := QuestionObject(q, categoryId, contextId);
    assert answers == expected.answers && fractions == expected.fractions && tags == expected.tags;
    r := Success(MoodleQuestion(categoryId, contextId, TruncateText(TextOf(q), NameLength), TextOf(q),
                                q.explanation.GetOr(""), answers, fractions, tags));
  }

  /** An answer is marked correct exactly when its key is the single correct
      answer; so at most one is, and none for an array answer. */
  lemma {:induction false} FractionsMarkTheCorrectKey(q: Question, categoryId: int, contextId: int)
    requires HasFourOptions(q)
    ensures var fr := QuestionObject(q, categoryId, contextId).fractions;
      && |fr| == 4
      && (forall i :: 0 <= i < 4 ==> (fr[i] == 1 <==> q.correctAnswer == Some(Single(AnswerKeys[i]))))
      && (forall i :: 0 <= i < 4 ==> fr[i] == 0 || fr[i] == 1)
      && (forall i, j :: 0 <= i < j < 4 && fr[i] == 1 ==> fr[j] == 0)
      && (q.correctAnswer.Some? && q.correctAnswer.value.Multiple? ==> forall i :: 0 <= i < 4 ==> fr[i] == 0)
  {
    var fr := QuestionObject(q, categoryId, contextId).fractions;
    forall i, j | 0 <= i < j < 4 && fr[i] == 1
      ensures fr[j] == 0
    {
      assert AnswerKeys[i] != AnswerKeys[j];
    }
  }

  // ---------------------------------------------------------------------
  // import_questions

  /** What `save_question` does with a question. */
  datatype SaveOutcome = Saved | NotSaved | Threw(message: string)

  datatype ImportResults = ImportResults(success: nat, failed: nat, errors: seq<string>)

  const NoQuestionsMessage: string := "No questions found in quiz data"

  /** The message of the `invalid_question_format` exception. */
  function FormatErrorMessage(detail: string): string {
    "Invalid question format: " + detail
  }

  /** The error one question adds to the list, or none when it is saved; a
      save that returns nothing is reported in at most 66 characters. */
  function ImportFailure(save: MoodleQuestion -> SaveOutcome, categoryId: int, contextId: int, q: Question)
    : (r: Option<string>)
    ensures r.None? ==> HasFourOptions(q)
    ensures HasFourOptions(q) && save(QuestionObject(q, categoryId, contextId)).NotSaved? ==>
      r.Some? && |r.value| <= |"Failed to save: "| + SaveFailureLength
  {
    if !HasFourOptions(q) then Some(FormatErrorMessage(ExactlyFourOptions))
    else
      match save(QuestionObject(q, categoryId, contextId))
      case Saved => None
      case NotSaved => Some("Failed to save: " + TruncateText(TextOf(q), SaveFailureLength))
      case Threw(message) => Some(message)
  }

  function FailureFn(save: MoodleQuestion -> SaveOutcome, categoryId: int, contextId: int): Question -> Option<string> {
    q => ImportFailure(save, categoryId, contextId, q)
  }

  /** The results of an import: nothing counted and one message when there
      are no questions or no such category; otherwise one count per question
      and one error per failed question, in order. */
  function ImportOutcome(quiz: Quiz, categoryId: int, contextId: int, categoryExists: bool,
                         save: MoodleQuestion -> SaveOutcome): (r: ImportResults)
    ensures quiz.questions.None? || quiz.questions.value == [] || !categoryExists
            ==> r.success == 0 && r.failed == 0 && |r.errors| == 1
    ensures quiz.questions.Some? && quiz.questions.value != [] && categoryExists
            ==> r.success + r.failed == |quiz.questions.value| && r.failed == |r.errors|
  {
    if quiz.questions.None? || quiz.questions.value == [] then ImportResults(0, 0, [NoQuestionsMessage])
    else if !categoryExists then ImportResults(0, 0, ["Invalid category ID: " + IntToString(categoryId)])
    else
      var qs := quiz.questions.value;
      var errors := Kept(FailureFn(save, categoryId, contextId), qs, |qs|);
      ImportResults(|qs| - |errors|, |errors|, errors)
  }

  /** One pass of the import loop. */
  method ImportStep(save: MoodleQuestion -> SaveOutcome, categoryId: int, contextId: int, q: Question)
    returns (failure: Option<string>)
    ensures failure == ImportFailure(save, categoryId, contextId, q)
  {
    var question := CreateQuestionObject(q, categoryId, contextId);
    if question.Failure? {
      return Some(FormatErrorMessage(question.error.detail));
    }
    match save(question.value)
    case Saved => failure := None;
    case NotSaved => failure := Some("Failed to save: " + TruncateText(TextOf(q), SaveFailureLength));
    case Threw(message) => failure := Some(message);
  }

  /** `import_questions`: every question increments exactly one of the two
      counters, and each failure appends one message. The category lookup
      is a parameter. */
  method ImportQuestions(quiz: Quiz, categoryId: int, contextId: int, categoryExists: bool,
                         save: MoodleQuestion -> SaveOutcome)
    returns (results: ImportResults)
    ensures results == ImportOutcome(quiz, categoryId, contextId, categoryExists, save)
  {
    if quiz.questions.None? || quiz.questions.value == [] {
      return ImportResults(0, 0, [NoQuestionsMessage]);
    }
    if !categoryExists {
      return ImportResults(0, 0, ["Invalid category ID: " + IntToString(categoryId)]);
    }
    var qs := quiz.questions.value;
    var success, failed, errors := 0, 0, [];
    for i := 0 to |qs|
      invariant errors == Kept(FailureFn(save, categoryId, contextId), qs, i)
      invariant failed == |errors| && success + failed == i
    {
      var failure := ImportStep(save, categoryId, contextId, qs[i]);
      if failure.Some? {
        failed := failed + 1;
        errors := errors + [failure.value];
      } else {
        success := success + 1;
      }
    }
    results := ImportResults(success, failed, errors);
  }

  /** Nothing fails exactly when every question is saved, and a message is
      listed exactly when some question produced it. */
  lemma {:induction false} ImportFailuresAreTheFailedQuestions(qs: seq<Question>, categoryId: int, contextId: int,
                                                              save: MoodleQuestion -> SaveOutcome, m: string)
    requires qs != []
    ensures var r := ImportOutcome(Quiz(Some(qs), map[]), categoryId, contextId, true, save);
      && (r.failed == 0 <==> forall i :: 0 <= i < |qs| ==> ImportFailure(save, categoryId, contextId, qs[i]).None?)
      && (m in r.errors <==> exists i :: 0 <= i < |qs| && ImportFailure(save, categoryId, contextId, qs[i]) == Some(m))
  {
    KeptEmpty(FailureFn(save, categoryId, contextId), qs, |qs|);
    KeptMembers(FailureFn(save, categoryId, contextId), qs, |qs|);
  }

  /** A question fails exactly when it lacks one of A–D or is not saved. */
  lemma {:induction false} ImportFailureCases(save: MoodleQuestion -> SaveOutcome, categoryId: int, contextId: int, q: Question)
    ensures ImportFailure(save, categoryId, contextId, q).None?
            <==> HasFourOptions(q) && save(QuestionObject(q, categoryId, contextId)) == Saved
  {
  }
}
