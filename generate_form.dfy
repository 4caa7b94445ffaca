/** The server-side checks of the quiz generation form: primary documents are
    required, the easy/medium/hard percentages must each lie in [0, 100] and
    sum to 100, and, when multiple-answer questions are enabled, their count
    and their own percentages are checked the same way. Errors are a map from
    form element name to message; a later check overwrites an earlier message
    for the same element. */
module GenerateForm {
  import opened Wrappers

  /** The submitted values the checks read; `None` is a missing entry, which
      the form reads as 0 (`?? 0`). */
  datatype FormData = FormData(
    primaryDocuments: Option<int>,
    easyPct: Option<int>,
    mediumPct: Option<int>,
    hardPct: Option<int>,
    includeMultipleAnswer: Option<int>,
    multipleAnswerCount: Option<int>,
    numQuestions: Option<int>,
    maEasyPct: Option<int>,
    maMediumPct: Option<int>,
    maHardPct: Option<int>)

  /** The messages, with the numbers they embed. */
  datatype FormError =
    | NoPrimaryDocs
    | PercentageMismatch(total: int)
    | InvalidPercentage
    | MaCountTooSmall
    | MaCountExceeds(numQuestions: int)
    | MaPercentageMismatch(total: int)
    | MaInvalidPercentage

  const PrimaryDocumentsKey: string := "primarydocuments"
  const DifficultyGroupKey: string := "difficulty_group"
  const MaCountKey: string := "multiple_answer_count"
  const MaDifficultyGroupKey: string := "ma_difficulty_group"

  predicate InPercentRange(p: int) {
    0 <= p <= 100
  }

  /** The three percentages of a group are each in range and sum to 100. */
  predicate GoodSplit(easy: int, medium: int, hard: int) {
    InPercentRange(easy) && InPercentRange(medium) && InPercentRange(hard) && easy + medium + hard == 100
  }

  /** `!empty($data['include_multiple_answer'])`. */
  predicate MultipleAnswerEnabled(data: FormData) {
    data.includeMultipleAnswer.Some? && data.includeMultipleAnswer.value != 0
  }

  /** A non-zero draft area id whose area holds at least one file. */
  predicate HasPrimaryFiles(data: FormData, draftFiles: int -> seq<string>) {
    var id := data.primaryDocuments.GetOr(0);
    id != 0 && draftFiles(id) != []
  }

  /** A submission the form accepts, stated without reference to the order
      of the checks. */
  predicate Acceptable(data: FormData, draftFiles: int -> seq<string>) {
    && HasPrimaryFiles(data, draftFiles)
    && GoodSplit(data.easyPct.GetOr(0), data.mediumPct.GetOr(0), data.hardPct.GetOr(0))
    && (MultipleAnswerEnabled(data) ==>
          && 1 <= data.multipleAnswerCount.GetOr(0) <= data.numQuestions.GetOr(0)
          && GoodSplit(data.maEasyPct.GetOr(0), data.maMediumPct.GetOr(0), data.maHardPct.GetOr(0)))
  }

  /** The entry a percentage group ends up with, by priority rather than by
      the order of the checks: the range message when any percentage is out
      of range, else the mismatch message when the sum is not 100. */
  function GroupEntry(easy: int, medium: int, hard: int, mismatch: FormError, invalid: FormError): (r: Option<FormError>)
    ensures r.None? <==> GoodSplit(easy, medium, hard)
    ensures !(InPercentRange(easy) && InPercentRange(medium) && InPercentRange(hard)) ==> r == Some(invalid)
  {
    if !InPercentRange(easy) || !InPercentRange(medium) || !InPercentRange(hard) then Some(invalid)
    else if easy + medium + hard != 100 then Some(mismatch)
    else None
  }

  /** The entry of the multiple-answer count: the two messages exclude each other. */
  function CountEntry(count: int, numQuestions: int): (r: Option<FormError>)
    ensures r.None? <==> 1 <= count <= numQuestions
  {
    if count <= 0 then Some(MaCountTooSmall)
    else if count > numQuestions then Some(MaCountExceeds(numQuestions))
    else None
  }

  /** The entry of `key`, if any. */
  function EntryOf(errors: map<string, FormError>, key: string): Option<FormError> {
    if key in errors then Some(errors[key]) else None
  }

  /** `errors` with `key` set to `entry` when there is one. */
  function Put(errors: map<string, FormError>, key: string, entry: Option<FormError>): map<string, FormError> {
    if entry.Some? then errors[key := entry.value] else errors
  }

  /** Writing a key over a `Put` of the same key. */
  lemma {:induction false} PutOver(errors: map<string, FormError>, key: string, entry: Option<FormError>, e: FormError)
    ensures Put(errors, key, entry)[key := e] == Put(errors, key, Some(e))
  {
  }

  /** The four successive checks of one percentage group: the mismatch
      message first, then the range message over it for each percentage out
      of range. */
  method CheckPercentages(errors: map<string, FormError>, key: string, easy: int, medium: int, hard: int,
                          mismatch: FormError, invalid: FormError)
    returns (out: map<string, FormError>)
    ensures out == Put(errors, key, GroupEntry(easy, medium, hard, mismatch, invalid))
  {
    out := errors;
    ghost var entry: Option<FormError> := None;
    if easy + medium + hard != 100 {
      PutOver(errors, key, entry, mismatch);
      out, entry := out[key := mismatch], Some(mismatch);
    }
    if easy < 0 || easy > 100 {
      PutOver(errors, key, entry, invalid);
      out, entry := out[key := invalid], Some(invalid);
    }
    if medium < 0 || medium > 100 {
      PutOver(errors, key, entry, invalid);
      out, entry := out[key := invalid], Some(invalid);
    }
    if hard < 0 || hard > 100 {
      PutOver(errors, key, entry, invalid);
      out, entry := out[key := invalid], Some(invalid);
    }
    assert out == Put(errors, key, entry);
  }

  /** `validation`: the checks run in the form's order, each writing its
      element's entry. The draft area's files are a parameter. */
  method Validation(data: FormData, draftFiles: int -> seq<string>) returns (errors: map<string, FormError>)
    ensures EntryOf(errors, PrimaryDocumentsKey) == if HasPrimaryFiles(data, draftFiles) then None else Some(NoPrimaryDocs)
    ensures EntryOf(errors, DifficultyGroupKey)
            == GroupEntry(data.easyPct.GetOr(0), data.mediumPct.GetOr(0), data.hardPct.GetOr(0),
                          PercentageMismatch(data.easyPct.GetOr(0) + data.mediumPct.GetOr(0) + data.hardPct.GetOr(0)),
                          InvalidPercentage)
    ensures EntryOf(errors, MaCountKey)
            == if MultipleAnswerEnabled(data) then CountEntry(data.multipleAnswerCount.GetOr(0), data.numQuestions.GetOr(0))
               else None
    ensures EntryOf(errors, MaDifficultyGroupKey)
            == if MultipleAnswerEnabled(data)
               then GroupEntry(data.maEasyPct.GetOr(0), data.maMediumPct.GetOr(0), data.maHardPct.GetOr(0),
                               MaPercentageMismatch(data.maEasyPct.GetOr(0) + data.maMediumPct.GetOr(0) + data.maHardPct.GetOr(0)),
                               MaInvalidPercentage)
               else None
    ensures errors.Keys <= {PrimaryDocumentsKey, DifficultyGroupKey, MaCountKey, MaDifficultyGroupKey}
    ensures errors == map[] <==> Acceptable(data, draftFiles)
  {
    errors := map[];

    var draftItemId := data.primaryDocuments.GetOr(0);
    if draftItemId != 0 {
      if draftFiles(draftItemId) == [] {
        errors := errors[PrimaryDocumentsKey := NoPrimaryDocs];
      }
    } else {
      errors := errors[PrimaryDocumentsKey := NoPrimaryDocs];
    }

    var easyPct := data.easyPct.GetOr(0);
    var mediumPct := data.mediumPct.GetOr(0);
    var hardPct := data.hardPct.GetOr(0);
    errors := CheckPercentages(errors, DifficultyGroupKey, easyPct, mediumPct, hardPct,
                               PercentageMismatch(easyPct + mediumPct + hardPct), InvalidPercentage);

    if MultipleAnswerEnabled(data) {
      var maCount := data.multipleAnswerCount.GetOr(0);
      var totalQuestions := data.numQuestions.GetOr(0);
      if maCount <= 0 {
        errors := errors[MaCountKey := MaCountTooSmall];
      } else if maCount > totalQuestions {
        errors := errors[MaCountKey := MaCountExceeds(totalQuestions)];
      }

      var maEasyPct := data.maEasyPct.GetOr(0);
      var maMediumPct := data.maMediumPct.GetOr(0);
      var maHardPct := data.maHardPct.GetOr(0);
      errors := CheckPercentages(errors, MaDifficultyGroupKey, maEasyPct, maMediumPct, maHardPct,
                                 MaPercentageMismatch(maEasyPct + maMediumPct + maHardPct), MaInvalidPercentage);
    }
  }
}
