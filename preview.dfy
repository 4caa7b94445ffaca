/** The actions of the preview page on the stored quiz of one session:
    importing the selected questions, editing one field of a question, and
    deleting a question. The stored record is the `PreviewSession` object;
    reading it from and writing it back to the database is not modelled. */
module Preview {
  import opened Wrappers
  import opened PhpStrings
  import opened QuizData
  import opened QuestionBank

  // ---------------------------------------------------------------------
  // Matching question ids

  /** `$q['id'] == $qid` with PHP's loose comparison: a question without an
      id compares equal to 0. */
  predicate IdMatches(id: Option<int>, qid: int) {
    match id
    case Some(v) => v == qid
    case None => qid == 0
  }

  /** `in_array($q['id'], $selectedids)`, loose as well. */
  predicate IdSelected(id: Option<int>, selected: seq<int>) {
    match id
    case Some(v) => v in selected
    case None => 0 in selected
  }

  function SelectFn(selected: seq<int>): Question -> Option<Question> {
    (q: Question) => if IdSelected(q.id, selected) then Some(q) else None
  }

  function SurvivorFn(qid: int): Question -> Option<Question> {
    (q: Question) => if IdMatches(q.id, qid) then None else Some(q)
  }

  // ---------------------------------------------------------------------
  // The edit whitelist

  const TextFields: set<string> := {"question", "explanation", "difficulty", "topic"}
  const CorrectAnswerField: string := "correct_answer"

  /** One field of a question set to `value`: the four text fields, an option
      A–D (creating the options map if needed), or the correct answer; any
      other field name changes nothing. */
  function ApplyEdit(q: Question, field: string, value: string): (r: Question)
    ensures field !in TextFields && field !in AnswerKeys && field != CorrectAnswerField ==> r == q
    ensures r.id == q.id
    ensures field == "question" ==> r.question == Some(value) && r.(question := q.question) == q
    ensures field == "explanation" ==> r.explanation == Some(value) && r.(explanation := q.explanation) == q
    ensures field == "difficulty" ==> r.difficulty == Some(value) && r.(difficulty := q.difficulty) == q
    ensures field == "topic" ==> r.topic == Some(value) && r.(topic := q.topic) == q
    ensures field in AnswerKeys ==>
      && r.options.Some?
      && r.options.value.Keys == q.options.GetOr(map[]).Keys + {field}
      && r.options.value[field] == value
      && (forall k :: k in q.options.GetOr(map[]) && k != field ==> r.options.value[k] == q.options.GetOr(map[])[k])
      && r.(options := q.options) == q
    ensures field == CorrectAnswerField ==> r.correctAnswer == Some(Single(value)) && r.(correctAnswer := q.correctAnswer) == q
  {
    if field == "question" then q.(question := Some(value))
    else if field == "explanation" then q.(explanation := Some(value))
    else if field == "difficulty" then q.(difficulty := Some(value))
    else if field == "topic" then q.(topic := Some(value))
    else if field in AnswerKeys then q.(options := Some(q.options.GetOr(map[])[field := value]))
    else if field == CorrectAnswerField then q.(correctAnswer := Some(Single(value)))
    else q
  }

  /** The index of the first question with the id, if any. */
  function FirstMatch(qs: seq<Question>, qid: int): (r: Option<nat>)
    ensures r.Some? ==> r.value < |qs| && IdMatches(qs[r.value].id, qid)
    ensures r.Some? ==> forall j :: 0 <= j < r.value ==> !IdMatches(qs[j].id, qid)
    ensures r.None? ==> forall j :: 0 <= j < |qs| ==> !IdMatches(qs[j].id, qid)
  {
    if |qs| == 0 then None
    else
      match FirstMatch(qs[..|qs| - 1], qid)
      case Some(i) => Some(i)
      case None => if IdMatches(qs[|qs| - 1].id, qid) then Some(|qs| - 1) else None
  }

  /** The question list after an edit: the first question with the id gets
      the field; everything else stays. */
  function Edited(qs: seq<Question>, qid: int, field: string, value: string): seq<Question> {
    match FirstMatch(qs, qid)
    case None => qs
    case Some(i) => qs[i := ApplyEdit(qs[i], field, value)]
  }

  // ---------------------------------------------------------------------
  // The field parameter's cleaning

  predicate IsAsciiLetter(c: char) {
    'a' <= c <= 'z' || 'A' <= c <= 'Z'
  }

  function AlphaFn(): char -> Option<char> {
    c => if IsAsciiLetter(c) then Some(c) else None
  }

  function AlphaExtFn(): char -> Option<char> {
    c => if IsAsciiLetter(c) || c == '_' || c == '-' then Some(c) else None
  }

  /** `PARAM_ALPHA`: only the ASCII letters are kept. */
  function CleanAlpha(s: string): (r: string)
    ensures |r| <= |s|
    ensures forall c :: c in r <==> c in s && IsAsciiLetter(c)
  {
    KeptMembers(AlphaFn(), s, |s|);
    Kept(AlphaFn(), s, |s|)
  }

  /** `PARAM_ALPHAEXT`: ASCII letters, `_` and `-` are kept. */
  function CleanAlphaExt(s: string): (r: string)
    ensures |r| <= |s|
    ensures forall c :: c in r <==> c in s && (IsAsciiLetter(c) || c == '_' || c == '-')
  {
    KeptMembers(AlphaExtFn(), s, |s|);
    Kept(AlphaExtFn(), s, |s|)
  }

  /** A name of letters, `_` and `-` passes `PARAM_ALPHAEXT` unchanged. */
  lemma {:induction false} AlphaExtKeepsName(name: string)
    requires forall i :: 0 <= i < |name| ==> IsAsciiLetter(name[i]) || name[i] == '_' || name[i] == '-'
    ensures CleanAlphaExt(name) == name
  {
    KeptIdentity(AlphaExtFn(), name, |name|);
  }

  /** A name of letters passes `PARAM_ALPHA` unchanged. */
  lemma {:induction false} AlphaKeepsLetters(name: string)
    requires forall i :: 0 <= i < |name| ==> IsAsciiLetter(name[i])
    ensures CleanAlpha(name) == name
  {
    KeptIdentity(AlphaFn(), name, |name|);
    assert name[..|name|] == name;
  }

  /** `PARAM_ALPHA` removes an underscore between two names. */
  lemma {:induction false} AlphaSkipsUnderscore(a: string, b: string)
    ensures CleanAlpha(a + "_" + b) == CleanAlpha(a) + CleanAlpha(b)
  {
    KeptAppend(AlphaFn(), a, "_", 1);
    assert Kept(AlphaFn(), "_", 1) == [];
    KeptAppend(AlphaFn(), a + "_", b, |b|);
  }

  /** `PARAM_ALPHA` drops the underscore of `correct_answer`. */
  lemma {:induction false} AlphaDropsUnderscore()
    ensures CleanAlpha(CorrectAnswerField) == "correctanswer"
  {
    AlphaKeepsLetters("correct");
    AlphaKeepsLetters("answer");
    AlphaSkipsUnderscore("correct", "answer");
    assert "correct" + "_" + "answer" == CorrectAnswerField;
  }

  /** As written, the field name is cleaned with `PARAM_ALPHA`, which turns
      the `correct_answer` field the page sends into `correctanswer`: that
      edit is silently dropped. */
  lemma {:induction false} CorrectAnswerEditDropped(q: Question, value: string)
    ensures CleanAlpha(CorrectAnswerField) == "correctanswer"
    ensures ApplyEdit(q, CleanAlpha(CorrectAnswerField), value) == q
  {
    AlphaDropsUnderscore();
    assert "correctanswer" !in AnswerKeys;
  }

  /** With `PARAM_ALPHAEXT` every field the page sends reaches its branch:
      the correct answer is replaced, and the other whitelisted names are
      unchanged by the cleaning. */
  lemma {:induction false} CorrectAnswerEditApplied(q: Question, value: string)
    ensures CleanAlphaExt(CorrectAnswerField) == CorrectAnswerField
    ensures ApplyEdit(q, CleanAlphaExt(CorrectAnswerField), value).correctAnswer == Some(Single(value))
    ensures forall f :: f in TextFields ==> CleanAlphaExt(f) == f
    ensures forall i :: 0 <= i < 4 ==> CleanAlphaExt(AnswerKeys[i]) == AnswerKeys[i]
  {
    AlphaExtKeepsName(CorrectAnswerField);
    WhitelistPassesAlphaExt();
  }

  /** The text fields and the answer keys are unchanged by `PARAM_ALPHAEXT`. */
  lemma {:induction false} WhitelistPassesAlphaExt()
    ensures forall f :: f in TextFields ==> CleanAlphaExt(f) == f
    ensures forall i :: 0 <= i < 4 ==> CleanAlphaExt(AnswerKeys[i]) == AnswerKeys[i]
  {
    AlphaExtKeepsName("question");
    AlphaExtKeepsName("explanation");
    AlphaExtKeepsName("difficulty");
    AlphaExtKeepsName("topic");
    forall i | 0 <= i < 4
      ensures CleanAlphaExt(AnswerKeys[i]) == AnswerKeys[i]
    {
      AlphaExtKeepsName(AnswerKeys[i]);
    }
  }

  // ---------------------------------------------------------------------
  // The import message

  datatype NoticeKind = NoticeSuccess | NoticeWarning | NoticeError

  datatype Notice = Notice(message: string, kind: NoticeKind)

  const NoSelectionMessage: string := "Please select at least one question to import"

  /** `array_slice($errors, 0, 3)`. */
  function ShownErrors(errors: seq<string>): (r: seq<string>)
    ensures |r| <= 3 && r <= errors
    ensures |errors| <= 3 ==> r == errors
    ensures |errors| > 3 ==> |r| == 3
  {
    if |errors| <= 3 then errors else errors[..3]
  }

  /** The redirect message after an import: the success count, and when
      some question failed, the failed count and the first three errors. */
  function ImportNotice(results: ImportResults): (n: Notice)
    ensures n.kind == NoticeWarning <==> results.failed > 0
    ensures n.kind != NoticeError
    ensures results.failed == 0 ==> n.message == NatToString(results.success) + " questions successfully imported to question bank"
  {
    var base := NatToString(results.success) + " questions successfully imported to question bank";
    if results.failed > 0 then
      var detail := if results.errors != [] then ": " + Implode(ShownErrors(results.errors), ", ") else "";
      Notice(base + " | " + NatToString(results.failed) + " failed" + detail, NoticeWarning)
    else Notice(base, NoticeSuccess)
  }

  // ---------------------------------------------------------------------
  // The stored quiz of one preview session

  class PreviewSession {
    var questions: seq<Question>
    var metadata: map<string, MetaValue>

    constructor(questions: seq<Question>, metadata: map<string, MetaValue>)
      ensures this.questions == questions && this.metadata == metadata
    {
      this.questions := questions;
      this.metadata := metadata;
    }

    /** The quiz handed to the import for a selection: the selected
        questions in their order, reindexed, and the metadata as is. */
    function Selection(selected: seq<int>): Quiz
      reads this
    {
      Quiz(Some(Kept(SelectFn(selected), questions, |questions|)), metadata)
    }

    /** The selection filter of the import action. */
    method SelectForImport(selected: seq<int>) returns (quiz: Quiz)
      ensures quiz == Selection(selected)
    {
      var chosen: seq<Question> := [];
      for i := 0 to |questions|
        invariant chosen == Kept(SelectFn(selected), questions, i)
      {
        if IdSelected(questions[i].id, selected) {
          chosen := chosen + [questions[i]];
        }
      }
      quiz := Quiz(Some(chosen), metadata);
    }

    /** The import action: an empty selection is refused before anything
        is filtered or imported; otherwise the selection is imported and the
        result becomes the message. The category lookup and the saving of
        each question are parameters. */
    method Import(selected: seq<int>, categoryId: int, contextId: int, categoryExists: bool,
                  save: MoodleQuestion -> SaveOutcome)
      returns (notice: Notice)
      ensures selected == [] ==> notice == Notice(NoSelectionMessage, NoticeError)
      ensures selected != [] ==>
        notice == ImportNotice(ImportOutcome(Selection(selected), categoryId, contextId, categoryExists, save))
    {
      if selected == [] {
        return Notice(NoSelectionMessage, NoticeError);
      }
      var quiz := SelectForImport(selected);
      var results := ImportQuestions(quiz, categoryId, contextId, categoryExists, save);
      notice := ImportNotice(results);
    }

    /** The edit action: the first question with the id, and no other, gets
        the field; the field name is cleaned keeping letters, `_` and `-`. */
    method Edit(qid: int, rawField: string, value: string)
      modifies this
      ensures questions == Edited(old(questions), qid, CleanAlphaExt(rawField), value)
      ensures metadata == old(metadata)
    {
      var field := CleanAlphaExt(rawField);
      var i := 0;
      while i < |questions| && !IdMatches(questions[i].id, qid)
        invariant 0 <= i <= |questions|
        invariant forall j :: 0 <= j < i ==> !IdMatches(questions[j].id, qid)
      {
        i := i + 1;
      }
      if i < |questions| {
        questions := questions[i := ApplyEdit(questions[i], field, value)];
      }
    }

    /** The delete action: every question with the id goes, the others keep
        their order; the reply carries how many remain. */
    method Delete(qid: int) returns (remaining: nat)
      modifies this
      ensures questions == Kept(SurvivorFn(qid), old(questions), |old(questions)|)
      ensures remaining == |questions|
      ensures metadata == old(metadata)
    {
      var survivors: seq<Question> := [];
      for i := 0 to |questions|
        invariant survivors == Kept(SurvivorFn(qid), questions, i)
      {
        if !IdMatches(questions[i].id, qid) {
          survivors := survivors + [questions[i]];
        }
      }
      questions := survivors;
      remaining := |questions|;
    }
  }

  // ---------------------------------------------------------------------
  // What the actions promise

  /** A question is imported exactly when it is stored and selected; the
      selection keeps the stored order. */
  lemma {:induction false} SelectionMembers(qs: seq<Question>, selected: seq<int>, q: Question)
    ensures q in Kept(SelectFn(selected), qs, |qs|) <==> q in qs && IdSelected(q.id, selected)
  {
    KeptMembers(SelectFn(selected), qs, |qs|);
    if q in qs && IdSelected(q.id, selected) {
      var i :| 0 <= i < |qs| && qs[i] == q;
      assert SelectFn(selected)(qs[i]) == Some(q);
    }
  }

  /** A question survives a delete exactly when it was stored and has
      another id: none with the id is left. */
  lemma {:induction false} DeleteMembers(qs: seq<Question>, qid: int, q: Question)
    ensures q in Kept(SurvivorFn(qid), qs, |qs|) <==> q in qs && !IdMatches(q.id, qid)
  {
    KeptMembers(SurvivorFn(qid), qs, |qs|);
    if q in qs && !IdMatches(q.id, qid) {
      var i :| 0 <= i < |qs| && qs[i] == q;
      assert SurvivorFn(qid)(qs[i]) == Some(q);
    }
  }

  /** Deleting an id that no question has leaves the list as it was. */
  lemma {:induction false} DeleteUnmatchedUnchanged(qs: seq<Question>, qid: int, k: nat)
    requires k <= |qs|
    requires forall j :: 0 <= j < |qs| ==> !IdMatches(qs[j].id, qid)
    ensures Kept(SurvivorFn(qid), qs, k) == qs[..k]
  {
    if k > 0 {
      DeleteUnmatchedUnchanged(qs, qid, k - 1);
      assert qs[..k] == qs[..k - 1] + [qs[k - 1]];
    }
  }

  /** An edit keeps the length and the ids, changes at most the first
      question with the id, and changes nothing when no question has the id
      or the field is not on the whitelist. */
  lemma {:induction false} EditChangesOnlyFirstMatch(qs: seq<Question>, qid: int, field: string, value: string)
    ensures var r := Edited(qs, qid, field, value);
      && |r| == |qs|
      && (forall j :: 0 <= j < |qs| ==> r[j].id == qs[j].id)
      && (forall j :: 0 <= j < |qs| && r[j] != qs[j] ==> FirstMatch(qs, qid) == Some(j))
      && ((forall j :: 0 <= j < |qs| ==> !IdMatches(qs[j].id, qid)) ==> r == qs)
      && (field !in TextFields && field !in AnswerKeys && field != CorrectAnswerField ==> r == qs)
      && (FirstMatch(qs, qid).Some? ==>
            r[FirstMatch(qs, qid).value] == ApplyEdit(qs[FirstMatch(qs, qid).value], field, value))
  {
    var r := Edited(qs, qid, field, value);
    if FirstMatch(qs, qid).Some? {
      var i := FirstMatch(qs, qid).value;
      assert r == qs[i := ApplyEdit(qs[i], field, value)];
    }
  }

  /** A warning names at most three errors, and the ones it names are the
      first errors of the import. */
  lemma {:induction false} NoticeNamesFirstErrors(results: ImportResults)
    requires results.failed > 0 && results.errors != []
    ensures ImportNotice(results).message
            == NatToString(results.success) + " questions successfully imported to question bank"
               + " | " + NatToString(results.failed) + " failed: " + Implode(ShownErrors(results.errors), ", ")
  {
  }
}
