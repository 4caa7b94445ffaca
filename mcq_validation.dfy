/** `quiz_generator::validate_mcqs`: the list of issues found in a generated
    quiz, each tagged with the 1-based number of its question. */
module McqValidation {
  import opened Wrappers
  import opened PhpStrings
  import opened QuizData

  /** One entry of the issue list; `IssueText` is the message the plugin logs. */
  datatype Issue =
    | MissingQuestionsKey
    | MissingField(qnum: nat, field: string)
    | WrongOptionCount(qnum: nat)
    | WrongOptionKeys(qnum: nat)
    | AnswerKeyNotInOptions(qnum: nat, answer: string)
    | AnswerNotInOptions(qnum: nat)

  function IssueText(issue: Issue): string {
    match issue
    case MissingQuestionsKey => "Missing 'questions' key"
    case MissingField(n, f) => "Q" + NatToString(n) + ": Missing '" + f + "'"
    case WrongOptionCount(n) => "Q" + NatToString(n) + ": Must have 4 options"
    case WrongOptionKeys(n) => "Q" + NatToString(n) + ": Options must be A,B,C,D"
    case AnswerKeyNotInOptions(n, a) => "Q" + NatToString(n) + ": Correct answer '" + a + "' not in options"
    case AnswerNotInOptions(n) => "Q" + NatToString(n) + ": Correct answer not in options"
  }

  /** The fields every question must set, in the order they are checked. */
  const RequiredFields: seq<string> := ["question", "options", "correct_answer", "difficulty"]

  /** The option keys a question must have, in any order. */
  const AbcdKeys: set<string> := {"A", "B", "C", "D"}

  /** `isset($q[$field])` for the required fields. */
  predicate HasField(q: Question, field: string) {
    if field == "question" then q.question.Some?
    else if field == "options" then q.options.Some?
    else if field == "correct_answer" then q.correctAnswer.Some?
    else if field == "difficulty" then q.difficulty.Some?
    else false
  }

  /** The issues for the first `k` required fields. */
  function MissingFieldIssues(qnum: nat, q: Question, k: nat): seq<Issue>
    requires k <= |RequiredFields|
  {
    if k == 0 then []
    else
      var field := RequiredFields[k - 1];
      MissingFieldIssues(qnum, q, k - 1) + (if HasField(q, field) then [] else [MissingField(qnum, field)])
  }

  /** The option-count and option-key checks; none when there are no options. */
  function OptionIssues(qnum: nat, q: Question): seq<Issue> {
    match q.options
    case None => []
    case Some(opts) =>
      (if |opts| != 4 then [WrongOptionCount(qnum)] else [])
      + (if opts.Keys != AbcdKeys then [WrongOptionKeys(qnum)] else [])
  }

  /** The issues for the first `k` keys of an array answer. */
  function AnswerKeyIssues(qnum: nat, opts: map<string, string>, keys: seq<string>, k: nat): seq<Issue>
    requires k <= |keys|
  {
    if k == 0 then []
    else
      AnswerKeyIssues(qnum, opts, keys, k - 1)
      + (if keys[k - 1] in opts then [] else [AnswerKeyNotInOptions(qnum, keys[k - 1])])
  }

  /** The answer check, which runs only when both the answer and the options
      are set. */
  function AnswerIssues(qnum: nat, q: Question): seq<Issue> {
    if q.correctAnswer.None? || q.options.None? then []
    else
      match q.correctAnswer.value
      case Multiple(keys) => AnswerKeyIssues(qnum, q.options.value, keys, |keys|)
      case Single(key) => if key in q.options.value then [] else [AnswerNotInOptions(qnum)]
  }

  function QuestionIssues(qnum: nat, q: Question): seq<Issue> {
    MissingFieldIssues(qnum, q, |RequiredFields|) + OptionIssues(qnum, q) + AnswerIssues(qnum, q)
  }

  /** The issues of the first `k` questions, question `i` tagged `i + 1`. */
  function IssuesUpTo(qs: seq<Question>, k: nat): seq<Issue>
    requires k <= |qs|
  {
    if k == 0 then [] else IssuesUpTo(qs, k - 1) + QuestionIssues(k, qs[k - 1])
  }

  function ValidationIssues(quiz: Quiz): seq<Issue> {
    match quiz.questions
    case None => [MissingQuestionsKey]
    case Some(qs) => IssuesUpTo(qs, |qs|)
  }

  /** `validate_mcqs`: one pass over the questions, appending to the list. */
  method ValidateMcqs(quiz: Quiz) returns (issues: seq<Issue>)
    ensures issues == ValidationIssues(quiz)
  {
    if quiz.questions.None? {
      return [MissingQuestionsKey];
    }
    var qs := quiz.questions.value;
    issues := [];
    var i := 0;
    while i < |qs|
      invariant 0 <= i <= |qs|
      invariant issues == IssuesUpTo(qs, i)
    {
      var found := CheckQuestion(i + 1, qs[i]);
      issues := issues + found;
      i := i + 1;
    }
  }

  /** The body of the loop over questions, for question number `qnum`. */
  method CheckQuestion(qnum: nat, q: Question) returns (issues: seq<Issue>)
    ensures issues == QuestionIssues(qnum, q)
  {
    issues := CheckFields(qnum, q);
    if q.options.Some? {
      if |q.options.value| != 4 {
        issues := issues + [WrongOptionCount(qnum)];
      }
      if q.options.value.Keys != AbcdKeys {
        issues := issues + [WrongOptionKeys(qnum)];
      }
    }
    ghost var afterOptions := issues;
    assert afterOptions == MissingFieldIssues(qnum, q, |RequiredFields|) + OptionIssues(qnum, q);
    if q.correctAnswer.Some? && q.options.Some? {
      match q.correctAnswer.value
      case Multiple(keys) =>
        var found := CheckAnswerKeys(qnum, q.options.value, keys);
        issues := issues + found;
      case Single(key) =>
        if key !in q.options.value {
          issues := issues + [AnswerNotInOptions(qnum)];
        }
    }
  }

  /** The loop over the required fields. */
  method CheckFields(qnum: nat, q: Question) returns (issues: seq<Issue>)
    ensures issues == MissingFieldIssues(qnum, q, |RequiredFields|)
  {
    issues := [];
    var f := 0;
    while f < |RequiredFields|
      invariant 0 <= f <= |RequiredFields|
      invariant issues == MissingFieldIssues(qnum, q, f)
    {
      if !HasField(q, RequiredFields[f]) {
        issues := issues + [MissingField(qnum, RequiredFields[f])];
      }
      f := f + 1;
    }
  }

  /** The loop over the keys of an array answer. */
  method CheckAnswerKeys(qnum: nat, opts: map<string, string>, keys: seq<string>) returns (issues: seq<Issue>)
    ensures issues == AnswerKeyIssues(qnum, opts, keys, |keys|)
  {
    issues := [];
    var k := 0;
    while k < |keys|
      invariant 0 <= k <= |keys|
      invariant issues == AnswerKeyIssues(qnum, opts, keys, k)
    {
      if keys[k] !in opts {
        issues := issues + [AnswerKeyNotInOptions(qnum, keys[k])];
      }
      k := k + 1;
    }
  }

  // ---------------------------------------------------------------------
  // What the issue list says

  /** A question the validator accepts, stated field by field. */
  predicate WellFormed(q: Question) {
    && q.question.Some? && q.options.Some? && q.correctAnswer.Some? && q.difficulty.Some?
    && q.options.value.Keys == AbcdKeys
    && match q.correctAnswer.value
       case Single(key) => key in q.options.value
       case Multiple(keys) => forall k :: 0 <= k < |keys| ==> keys[k] in q.options.value
  }

  /** A question yields no issue exactly when it is well formed. */
  lemma {:induction false} NoIssuesIffWellFormed(qnum: nat, q: Question)
    ensures QuestionIssues(qnum, q) == [] <==> WellFormed(q)
  {
    FieldsIff(qnum, q);
    OptionsIff(qnum, q);
    AnswerIff(qnum, q);
    var a := MissingFieldIssues(qnum, q, |RequiredFields|);
    var b := OptionIssues(qnum, q);
    var c := AnswerIssues(qnum, q);
    assert |a + b + c| == |a| + |b| + |c|;
  }

  /** The field check is silent exactly when all four fields are set. */
  lemma {:induction false} FieldsIff(qnum: nat, q: Question)
    ensures MissingFieldIssues(qnum, q, |RequiredFields|) == [] <==>
      q.question.Some? && q.options.Some? && q.correctAnswer.Some? && q.difficulty.Some?
  {
    var fields := MissingFieldIssues(qnum, q, |RequiredFields|);
    MissingFieldIssuesMembers(qnum, q, |RequiredFields|);
    if fields != [] {
      assert fields[0] in fields;
      var f :| 0 <= f < 4 && !HasField(q, RequiredFields[f]) && fields[0] == MissingField(qnum, RequiredFields[f]);
    }
    if !HasField(q, RequiredFields[0]) {
      assert MissingField(qnum, RequiredFields[0]) in fields;
    }
    if !HasField(q, RequiredFields[1]) {
      assert MissingField(qnum, RequiredFields[1]) in fields;
    }
    if !HasField(q, RequiredFields[2]) {
      assert MissingField(qnum, RequiredFields[2]) in fields;
    }
    if !HasField(q, RequiredFields[3]) {
      assert MissingField(qnum, RequiredFields[3]) in fields;
    }
  }

  /** The option check is silent exactly when the options, if set, have the
      keys A to D. */
  lemma {:induction false} OptionsIff(qnum: nat, q: Question)
    ensures OptionIssues(qnum, q) == [] <==> (q.options.Some? ==> q.options.value.Keys == AbcdKeys)
  {
    if q.options.Some? {
      AbcdCount(q.options.value);
    }
  }

  /** The answer check is silent exactly when it does not run or every key
      the answer names is an option key. */
  lemma {:induction false} AnswerIff(qnum: nat, q: Question)
    ensures AnswerIssues(qnum, q) == [] <==>
      (q.correctAnswer.Some? && q.options.Some? ==>
        match q.correctAnswer.value
        case Single(key) => key in q.options.value
        case Multiple(keys) => forall k :: 0 <= k < |keys| ==> keys[k] in q.options.value)
  {
    if q.correctAnswer.Some? && q.options.Some? && q.correctAnswer.value.Multiple? {
      var keys := q.correctAnswer.value.keys;
      var found := AnswerKeyIssues(qnum, q.options.value, keys, |keys|);
      AnswerKeyIssuesMembers(qnum, q.options.value, keys, |keys|);
      if found != [] {
        assert found[0] in found;
      }
      if exists k :: 0 <= k < |keys| && keys[k] !in q.options.value {
        var k :| 0 <= k < |keys| && keys[k] !in q.options.value;
        assert AnswerKeyNotInOptions(qnum, keys[k]) in found;
      }
    }
  }

  /** A map with exactly the keys A, B, C and D has four entries. */
  lemma {:induction false} AbcdCount(opts: map<string, string>)
    ensures opts.Keys == AbcdKeys ==> |opts| == 4
  {
    if opts.Keys == AbcdKeys {
      assert |opts.Keys| == |opts|;
      assert |AbcdKeys| == 4;
    }
  }

  /** Each required field missing from the question gives exactly one issue,
      naming it, and nothing else is reported by this check. */
  lemma {:induction false} MissingFieldIssuesMembers(qnum: nat, q: Question, k: nat)
    requires k <= |RequiredFields|
    ensures forall issue :: issue in MissingFieldIssues(qnum, q, k) <==>
      exists f :: 0 <= f < k && !HasField(q, RequiredFields[f]) && issue == MissingField(qnum, RequiredFields[f])
    ensures |MissingFieldIssues(qnum, q, k)| <= k
  {
    if k > 0 {
      MissingFieldIssuesMembers(qnum, q, k - 1);
    }
  }

  /** An array answer gets one issue for each of its keys that is not an
      option key, naming that key, and no other issue. */
  lemma {:induction false} AnswerKeyIssuesMembers(qnum: nat, opts: map<string, string>, keys: seq<string>, k: nat)
    requires k <= |keys|
    ensures forall issue :: issue in AnswerKeyIssues(qnum, opts, keys, k) <==>
      exists j :: 0 <= j < k && keys[j] !in opts && issue == AnswerKeyNotInOptions(qnum, keys[j])
    ensures |AnswerKeyIssues(qnum, opts, keys, k)| == CountMissing(opts, keys, k)
  {
    if k > 0 {
      AnswerKeyIssuesMembers(qnum, opts, keys, k - 1);
    }
  }

  /** How many of the first `k` keys are not option keys. */
  function CountMissing(opts: map<string, string>, keys: seq<string>, k: nat): nat
    requires k <= |keys|
  {
    if k == 0 then 0 else CountMissing(opts, keys, k - 1) + (if keys[k - 1] in opts then 0 else 1)
  }

  /** A question with options A, B and C only gets two option issues: one for
      the count and one for the keys. */
  lemma {:induction false} ThreeOptionsTwoIssues(qnum: nat, q: Question)
    requires q.options.Some? && q.options.value.Keys == {"A", "B", "C"}
    ensures OptionIssues(qnum, q) == [WrongOptionCount(qnum), WrongOptionKeys(qnum)]
  {
    var opts := q.options.value;
    assert |opts.Keys| == |opts|;
    assert "D" in AbcdKeys && "D" !in opts.Keys;
  }

  /** The order of the option keys does not matter: only the set of keys is
      checked. */
  lemma {:induction false} OptionIssuesByKeys(qnum: nat, q1: Question, q2: Question)
    requires q1.options.Some? && q2.options.Some? && q1.options.value.Keys == q2.options.value.Keys
    ensures OptionIssues(qnum, q1) == OptionIssues(qnum, q2)
  {
    assert |q1.options.value| == |q1.options.value.Keys| == |q2.options.value.Keys| == |q2.options.value|;
  }

  /** No answer check runs unless both the answer and the options are set. */
  lemma {:induction false} AnswerCheckNeedsBoth(qnum: nat, q: Question)
    requires q.correctAnswer.None? || q.options.None?
    ensures forall issue :: issue in QuestionIssues(qnum, q) ==>
      !issue.AnswerKeyNotInOptions? && !issue.AnswerNotInOptions?
  {
    MissingFieldIssuesMembers(qnum, q, |RequiredFields|);
  }

  /** The question number an issue is tagged with; 0 for the missing key. */
  function Tag(issue: Issue): nat {
    if issue.MissingQuestionsKey? then 0 else issue.qnum
  }

  /** Every tag in `xs` names one of the questions `1..k`. */
  predicate TagsWithin(xs: seq<Issue>, k: nat) {
    forall j :: 0 <= j < |xs| ==> 1 <= Tag(xs[j]) <= k
  }

  /** The tags of `xs` never decrease. */
  predicate TagsOrdered(xs: seq<Issue>) {
    forall j, l :: 0 <= j < l < |xs| ==> Tag(xs[j]) <= Tag(xs[l])
  }

  /** Every issue of question `i` is tagged `i + 1`, and the tags appear in
      question order. */
  lemma {:induction false} IssuesTagged(qs: seq<Question>, k: nat)
    requires k <= |qs|
    ensures TagsWithin(IssuesUpTo(qs, k), k) && TagsOrdered(IssuesUpTo(qs, k))
  {
    if k > 0 {
      IssuesTagged(qs, k - 1);
      QuestionIssuesTagged(k, qs[k - 1]);
      AppendTagged(IssuesUpTo(qs, k - 1), QuestionIssues(k, qs[k - 1]), k);
    }
  }

  /** Appending the issues of question `k` after those of the earlier ones
      keeps the tags in range and in order. */
  lemma {:induction false} AppendTagged(a: seq<Issue>, b: seq<Issue>, k: nat)
    requires k >= 1 && TagsWithin(a, k - 1) && TagsOrdered(a)
    requires forall issue :: issue in b ==> Tag(issue) == k
    ensures TagsWithin(a + b, k) && TagsOrdered(a + b)
  {
    forall j | 0 <= j < |a + b|
      ensures Tag((a + b)[j]) == if j < |a| then Tag(a[j]) else k
    {
      if j >= |a| {
        assert (a + b)[j] == b[j - |a|] && b[j - |a|] in b;
      }
    }
  }

  lemma {:induction false} QuestionIssuesTagged(qnum: nat, q: Question)
    ensures forall issue :: issue in QuestionIssues(qnum, q) ==> Tag(issue) == qnum
  {
    MissingFieldIssuesMembers(qnum, q, |RequiredFields|);
    if q.correctAnswer.Some? && q.options.Some? && q.correctAnswer.value.Multiple? {
      var keys := q.correctAnswer.value.keys;
      AnswerKeyIssuesMembers(qnum, q.options.value, keys, |keys|);
    }
  }
}
