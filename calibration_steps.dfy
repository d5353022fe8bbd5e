/**
 * The calibration questionnaire (src/lib/calibrate/steps.ts and its types in
 * src/lib/calibrate/types.ts): four steps of single-choice questions, and the flat list of all
 * questions, each tagged with the id of its step.
 */
module CalibrationSteps {

  /** A choice: its id and its display label (the source's `label`, a reserved word here). */
  datatype Choice = Choice(id: string, caption: string)

  datatype Question = Question(id: string, choices: seq<Choice>, single: bool)

  datatype Step = Step(id: string, title: string, subtitle: string, questions: seq<Question>)

  /** `{ ...q, category: step.id }`. */
  datatype QuestionWithCategory = QuestionWithCategory(id: string, choices: seq<Choice>, single: bool, category: string)

  /** CALIBRATION_VERSION. */
  const Version := "cal_v1"

  /** CALIBRATION_STEPS. */
  const Steps: seq<Step> := [
    Step("context", "Context mapping", "Environmental variables influence dominance read.", [
      Question("photo_setting", [Choice("gym", "Gym"), Choice("party", "Party"), Choice("friends", "Friends"),
                                 Choice("formal", "Formal"), Choice("other", "Other")], true),
      Question("posed_level", [Choice("fully_posed", "Fully posed"), Choice("semi_posed", "Semi-posed"),
                               Choice("candid", "Candid")], true),
      Question("camera_distance", [Choice("close", "Close"), Choice("medium", "Medium"), Choice("far", "Far")], true)
    ]),
    Step("intent", "Camera + posture intent", "We adjust for awareness + posture intent.", [
      Question("camera_awareness", [Choice("yes", "Yes"), Choice("somewhat", "Somewhat"), Choice("no", "No")], true),
      Question("posture_state", [Choice("tall", "Tall"), Choice("neutral", "Neutral"), Choice("relaxed", "Relaxed")], true),
      Question("camera_angle_intent", [Choice("yes", "Yes"), Choice("slightly", "Slightly"), Choice("no", "No")], true),
      Question("trying_to_look_good", [Choice("trying", "Trying"), Choice("normal", "Normal"),
                                       Choice("unplanned", "Unplanned")], true),
      Question("centered_in_frame", [Choice("center", "Center"), Choice("off_center", "Off-center"),
                                     Choice("edge", "Edge")], true)
    ]),
    Step("signals", "Visual signals", "Lighting and preparation affect facial signal clarity.", [
      Question("lighting_face", [Choice("yes", "Yes"), Choice("neutral", "Neutral"), Choice("no", "No")], true),
      Question("grooming", [Choice("yes", "Yes"), Choice("normal", "Normal"), Choice("no", "No")], true),
      Question("tired_stressed", [Choice("no", "No"), Choice("slightly", "Slightly"), Choice("yes", "Yes")], true)
    ]),
    Step("alignment", "Perception alignment", "We compare predicted vs measured dominance.", [
      Question("predicted_rank_bucket", [Choice("top", "Top"), Choice("middle", "Middle"), Choice("lower", "Lower"),
                                         Choice("not_sure", "Not sure")], true),
      Question("primary_goal", [Choice("look_better", "Look better in future photos"),
                                Choice("fix_leak", "Fix biggest leak"), Choice("see_rank", "Just see rank")], true),
      Question("share_intent", [Choice("yes", "Yes"), Choice("maybe", "Maybe"), Choice("no", "No")], true)
    ])
  ]

  /** One step's questions, each tagged with the step's id. */
  function Tagged(step: Step): (r: seq<QuestionWithCategory>)
    ensures |r| == |step.questions|
    ensures forall i :: 0 <= i < |r| ==>
      r[i] == QuestionWithCategory(step.questions[i].id, step.questions[i].choices, step.questions[i].single, step.id)
  {
    seq(|step.questions|, i requires 0 <= i < |step.questions| =>
      var q := step.questions[i];
      QuestionWithCategory(q.id, q.choices, q.single, step.id))
  }

  /** `steps.flatMap(step => step.questions.map(q => ({ ...q, category: step.id })))`. */
  function FlatQuestions(steps: seq<Step>): seq<QuestionWithCategory> {
    if steps == [] then [] else Tagged(steps[0]) + FlatQuestions(steps[1..])
  }

  /** ALL_QUESTIONS. */
  function AllQuestions(): seq<QuestionWithCategory> {
    FlatQuestions(Steps)
  }

  /** The ids of the flat question list. */
  function Ids(qs: seq<QuestionWithCategory>): (r: seq<string>)
    ensures |r| == |qs| && forall i :: 0 <= i < |qs| ==> r[i] == qs[i].id
  {
    seq(|qs|, i requires 0 <= i < |qs| => qs[i].id)
  }

  /** The question ids of the four steps, in step order. */
  const QuestionIds: seq<string> := [
    "photo_setting", "posed_level", "camera_distance",
    "camera_awareness", "posture_state", "camera_angle_intent", "trying_to_look_good", "centered_in_frame",
    "lighting_face", "grooming", "tired_stressed",
    "predicted_rank_bucket", "primary_goal", "share_intent"
  ]

  /** ALL_QUESTIONS is the four steps' questions in order, each tagged (by Tagged's contract)
      with its step's id. */
  lemma StepShape()
    ensures |Steps| == 4
    ensures |Steps[0].questions| == 3 && |Steps[1].questions| == 5
    ensures |Steps[2].questions| == 3 && |Steps[3].questions| == 3
    ensures AllQuestions() == Tagged(Steps[0]) + Tagged(Steps[1]) + Tagged(Steps[2]) + Tagged(Steps[3])
  {
    var s1, s2, s3 := Steps[1..], Steps[1..][1..], Steps[1..][1..][1..];
    assert s3[1..] == [];
    assert FlatQuestions(s3) == Tagged(Steps[3]);
    assert FlatQuestions(s2) == Tagged(Steps[2]) + Tagged(Steps[3]);
  }

  lemma IdsAppend(a: seq<QuestionWithCategory>, b: seq<QuestionWithCategory>)
    ensures Ids(a + b) == Ids(a) + Ids(b)
  {
  }

  lemma QuestionIdsDistinct()
    ensures forall i, j | 0 <= i < j < |QuestionIds| :: QuestionIds[i] != QuestionIds[j]
  {
  }

  /** There are 4 steps of 3, 5, 3 and 3 questions, 14 in all, with these ids in this order;
      every question is single-choice and no two share an id, so answers keyed by question id
      cannot collide. */
  lemma AllQuestionsProperties()
    ensures |AllQuestions()| == 14
    ensures Ids(AllQuestions()) == QuestionIds
    ensures forall i | 0 <= i < |AllQuestions()| :: AllQuestions()[i].single
    ensures forall i, j | 0 <= i < j < |QuestionIds| :: QuestionIds[i] != QuestionIds[j]
  {
    AllQuestionIds();
    AllQuestionsSingle();
    QuestionIdsDistinct();
  }

  /** The flat list's ids are QuestionIds, the ids of the four steps' questions in order. */
  lemma AllQuestionIds()
    ensures Ids(AllQuestions()) == QuestionIds
  {
    StepShape();
    var t0, t1, t2, t3 := Tagged(Steps[0]), Tagged(Steps[1]), Tagged(Steps[2]), Tagged(Steps[3]);
    assert Ids(t0) == QuestionIds[..3];
    assert Ids(t1) == QuestionIds[3..8];
    assert Ids(t2) == QuestionIds[8..11];
    assert Ids(t3) == QuestionIds[11..];
    IdsAppend(t0, t1);
    IdsAppend(t0 + t1, t2);
    IdsAppend(t0 + t1 + t2, t3);
    assert QuestionIds == QuestionIds[..3] + QuestionIds[3..8] + QuestionIds[8..11] + QuestionIds[11..];
  }

  /** Every question of every step is single-choice. */
  lemma AllQuestionsSingle()
    ensures forall i | 0 <= i < |AllQuestions()| :: AllQuestions()[i].single
  {
    StepShape();
  }
}
