/**
 * The calibration wizard's state (src/hooks/useCalibrationWizard.ts): the index of the question on
 * screen and the answers so far, restored from a saved draft, moved by next and back, changed by
 * setAnswer and cleared by reset. The session storage entry of the wizard's key is the field
 * `stored`; reading it, parsing it and writing it are not modelled beyond the draft they carry.
 */
module CalibrationWizard {
  import opened Js
  import opened CalibrationSteps

  type Answers = map<string, string>

  /** A parsed VersionedDraft, with each field absent when it is missing or not of its type. A
      numeric questionIndex is any JSON number, so it need not be whole. */
  datatype VersionedDraft = VersionedDraft(version: Option<string>, answers: Option<Answers>, questionIndex: Option<real>)

  /** TOTAL_QUESTIONS. */
  const Total: int := 14

  lemma TotalIsQuestionCount()
    ensures |AllQuestions()| == Total
  {
    AllQuestionsProperties();
  }

  /** `!answers[id]` fails: the question has a non-empty answer. */
  predicate Answered(answers: Answers, id: string) {
    id in answers && answers[id] != ""
  }

  /** `qs.findIndex(q => !answers[q.id])`. */
  function FirstUnanswered(qs: seq<QuestionWithCategory>, answers: Answers): (r: int)
    ensures -1 <= r < |qs|
    ensures r == -1 <==> forall i | 0 <= i < |qs| :: Answered(answers, qs[i].id)
    ensures r >= 0 ==> !Answered(answers, qs[r].id) && forall i | 0 <= i < r :: Answered(answers, qs[i].id)
  {
    if qs == [] then -1
    else if !Answered(answers, qs[0].id) then 0
    else
      var r := FirstUnanswered(qs[1..], answers);
      if r == -1 then -1 else r + 1
  }

  /** deriveQuestionIndex: the first unanswered question, or the last one when all are
      answered. */
  function DeriveQuestionIndex(answers: Answers): (r: int)
    ensures 0 <= r < Total
    ensures (forall i | 0 <= i < Total :: Answered(answers, AllQuestions()[i].id)) ==> r == Total - 1
    ensures (exists i | 0 <= i < Total :: !Answered(answers, AllQuestions()[i].id)) ==>
      !Answered(answers, AllQuestions()[r].id) && forall i | 0 <= i < r :: Answered(answers, AllQuestions()[i].id)
  {
    TotalIsQuestionCount();
    var idx := FirstUnanswered(AllQuestions(), answers);
    if idx >= 0 then idx else Total - 1
  }

  predicate Whole(x: real) {
    x == x.Floor as real
  }

  /** What loadDraft gives: the answers and the question index. */
  datatype Loaded = Loaded(answers: Answers, questionIndex: real)

  /** loadDraft, given the stored draft (None when there is none, it is empty, does not parse, or
      reading it throws). */
  function LoadDraft(draft: Option<VersionedDraft>): (r: Loaded)
    ensures 0.0 <= r.questionIndex <= (Total - 1) as real
    ensures (draft.Some? && draft.value.questionIndex.Some? ==> Whole(draft.value.questionIndex.value)) ==>
      Whole(r.questionIndex)
  {
    match draft
    case None => Loaded(map[], 0.0)
    case Some(d) =>
      if d.version != Some(Version) then Loaded(map[], 0.0)
      else
        var answers := d.answers.GetOr(map[]);
        var index := if d.questionIndex.Some? && d.questionIndex.value >= 0.0
                     then MinR(d.questionIndex.value, (Total - 1) as real)
                     else DeriveQuestionIndex(answers) as real;
        Loaded(answers, index)
  }

  /** A draft of another version, or none, loads as no answers at index 0; a stored non-negative
      index is kept up to the last question; otherwise the index is derived from the answers. */
  lemma LoadDraftProperties(draft: Option<VersionedDraft>)
    ensures draft.None? || draft.value.version != Some(Version) ==> LoadDraft(draft) == Loaded(map[], 0.0)
    ensures draft.Some? && draft.value.version == Some(Version) ==>
      var d := draft.value;
      && LoadDraft(draft).answers == d.answers.GetOr(map[])
      && (d.questionIndex.Some? && 0.0 <= d.questionIndex.value <= (Total - 1) as real ==>
            LoadDraft(draft).questionIndex == d.questionIndex.value)
      && (d.questionIndex.Some? && d.questionIndex.value > (Total - 1) as real ==>
            LoadDraft(draft).questionIndex == (Total - 1) as real)
      && (d.questionIndex.None? || d.questionIndex.value < 0.0 ==>
            LoadDraft(draft).questionIndex == DeriveQuestionIndex(d.answers.GetOr(map[])) as real)
  {
  }

  /** A draft the wizard saved loads back as exactly the saved state. */
  lemma SavedDraftLoadsBack(answers: Answers, index: real)
    requires 0.0 <= index <= (Total - 1) as real
    ensures LoadDraft(Some(VersionedDraft(Some(Version), Some(answers), Some(index)))) == Loaded(answers, index)
  {
  }

  /** The number of questions with a non-empty answer: `Object.keys(answers).filter(id => answers[id]).length`. */
  function AnsweredCount(answers: Answers): nat {
    |set id | id in answers && answers[id] != ""|
  }

  /** progress: the larger of the questions reached and the questions answered, as a percentage
      of all questions, kept in [5, 100]. */
  function Progress(questionIndex: real, answers: Answers): (r: real)
    ensures 5.0 <= r <= 100.0
  {
    var stepsCompleted := MaxR(questionIndex + 1.0, AnsweredCount(answers) as real);
    MaxR(5.0, MinR(100.0, stepsCompleted / Total as real * 100.0))
  }

  class Wizard {
    var questionIndex: real
    var answers: Answers
    /** The session storage entry for this wizard's key. */
    var stored: Option<VersionedDraft>

    /** questionIndex is on a question: a whole number in [0, TOTAL - 1]. */
    predicate Valid()
      reads this
    {
      0.0 <= questionIndex <= (Total - 1) as real && Whole(questionIndex)
    }

    /** The hook's first render and its load effect: the stored draft is restored. */
    constructor (draft: Option<VersionedDraft>)
      ensures (draft.Some? && draft.value.questionIndex.Some? ==> Whole(draft.value.questionIndex.value)) ==> Valid()
      ensures Loaded(answers, questionIndex) == LoadDraft(draft) && stored == draft
    {
      var loaded := LoadDraft(draft);
      answers := loaded.answers;
      questionIndex := loaded.questionIndex;
      stored := draft;
    }

    /** `ALL_QUESTIONS[questionIndex] ?? null`: a question only at a whole index. */
    function CurrentQuestion(): Option<QuestionWithCategory>
      reads this
    {
      TotalIsQuestionCount();
      if 0.0 <= questionIndex < Total as real && questionIndex == questionIndex.Floor as real
      then Some(AllQuestions()[questionIndex.Floor])
      else None
    }

    function QuestionComplete(): bool
      reads this
    {
      CurrentQuestion().Some? && Answered(answers, CurrentQuestion().value.id)
    }

    function CanBack(): bool
      reads this
    {
      questionIndex > 0.0
    }

    function IsLast(): bool
      reads this
    {
      questionIndex == (Total - 1) as real
    }

    function CanNext(): bool
      reads this
    {
      QuestionComplete()
    }

    /** At a whole index on a question, the current question is that question of ALL_QUESTIONS,
        and next is enabled exactly when it has a non-empty answer. */
    lemma FlagsAtQuestion(k: int)
      requires Valid() && questionIndex == k as real
      ensures 0 <= k < |AllQuestions()|
      ensures CurrentQuestion() == Some(AllQuestions()[k])
      ensures CanNext() <==> Answered(answers, AllQuestions()[k].id)
      ensures CanBack() <==> k > 0
      ensures IsLast() <==> k == Total - 1
    {
      TotalIsQuestionCount();
    }

    /** setAnswer: only that question's entry changes, and the draft is saved at the current
        index. */
    method SetAnswer(questionId: string, value: string)
      modifies this
      ensures old(Valid()) ==> Valid()
      ensures answers == old(answers)[questionId := value] && questionIndex == old(questionIndex)
      ensures stored == Some(VersionedDraft(Some(Version), Some(answers), Some(questionIndex)))
    {
      answers := answers[questionId := value];
      stored := Some(VersionedDraft(Some(Version), Some(answers), Some(questionIndex)));
    }

    /** next: one question on, saving the draft, unless already at the last question. */
    method Next()
      modifies this
      ensures old(Valid()) ==> Valid()
      ensures answers == old(answers)
      ensures old(questionIndex) < (Total - 1) as real ==>
        questionIndex == old(questionIndex) + 1.0 &&
        stored == Some(VersionedDraft(Some(Version), Some(answers), Some(questionIndex)))
      ensures old(questionIndex) >= (Total - 1) as real ==> questionIndex == old(questionIndex) && stored == old(stored)
    {
      if questionIndex < (Total - 1) as real {
        var newIndex := questionIndex + 1.0;
        questionIndex := newIndex;
        stored := Some(VersionedDraft(Some(Version), Some(answers), Some(newIndex)));
      }
    }

    /** back: one question back, saving the draft, unless already at the first question. */
    method Back()
      modifies this
      ensures old(Valid()) ==> Valid()
      ensures answers == old(answers)
      ensures old(questionIndex) > 0.0 ==>
        questionIndex == old(questionIndex) - 1.0 &&
        stored == Some(VersionedDraft(Some(Version), Some(answers), Some(questionIndex)))
      ensures old(questionIndex) <= 0.0 ==> questionIndex == old(questionIndex) && stored == old(stored)
    {
      if questionIndex > 0.0 {
        var newIndex := questionIndex - 1.0;
        questionIndex := newIndex;
        stored := Some(VersionedDraft(Some(Version), Some(answers), Some(newIndex)));
      }
    }

    /** reset: back to the first question with no answers, and the draft is removed. */
    method Reset()
      modifies this
      ensures Valid()
      ensures questionIndex == 0.0 && answers == map[] && stored == None
    {
      questionIndex := 0.0;
      answers := map[];
      stored := None;
    }
  }

  /** Whatever the wizard does, what it saved loads back as its state: reloading the page after
      setAnswer, next or back resumes where the user was. */
  lemma StoredMatchesState(w: Wizard)
    requires w.Valid()
    requires w.stored == Some(VersionedDraft(Some(Version), Some(w.answers), Some(w.questionIndex)))
    ensures LoadDraft(w.stored) == Loaded(w.answers, w.questionIndex)
  {
    SavedDraftLoadsBack(w.answers, w.questionIndex);
  }
}
