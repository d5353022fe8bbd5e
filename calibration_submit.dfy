/**
 * mapAnswersToSteps (src/lib/calibrate/submit.ts, lines 46-75): the answers, keyed by question
 * id, regrouped into one record per calibration step under the keys step1..step4, a step without
 * any non-empty answer giving null. The two requests of submitCalibrationAndStart are not
 * modelled.
 */
module CalibrationSubmit {
  import opened Js
  import opened CalibrationSteps

  /** CalibrationAnswers. */
  type Answers = map<string, string>

  /** The ids of some questions. */
  function IdsOf(qs: seq<Question>): set<string> {
    set i | 0 <= i < |qs| :: qs[i].id
  }

  /** The non-empty answers to the given questions, unchanged. */
  function StepAnswers(qs: seq<Question>, answers: Answers): map<string, string> {
    map id | id in IdsOf(qs) && id in answers && answers[id] != "" :: answers[id]
  }

  /** `step${i + 1}` for the four steps. */
  function StepKey(i: nat): (r: string)
    requires i < 4
    ensures r == ["step1", "step2", "step3", "step4"][i]
  {
    "step" + [('1' as int + i) as char]
  }

  const StepKeys: set<string> := {"step1", "step2", "step3", "step4"}

  /** What a step's entry should be: its answers, or null when it has none. */
  function Entry(qs: seq<Question>, answers: Answers): Option<map<string, string>> {
    var m := StepAnswers(qs, answers);
    if |m| > 0 then Some(m) else None
  }

  /** Every step key null: the object mapAnswersToSteps starts from. */
  const AllNull: map<string, Option<map<string, string>>> :=
    map["step1" := None, "step2" := None, "step3" := None, "step4" := None]

  /** The first n steps' entries under their keys, the others still null. */
  function EntriesUpTo(steps: seq<Step>, answers: Answers, n: nat): map<string, Option<map<string, string>>>
    requires n <= |steps| == 4
  {
    if n == 0 then AllNull
    else EntriesUpTo(steps, answers, n - 1)[StepKey(n - 1) := Entry(steps[n - 1].questions, answers)]
  }

  /** The four steps' entries under their keys. */
  function EntriesOf(steps: seq<Step>, answers: Answers): map<string, Option<map<string, string>>>
    requires |steps| == 4
  {
    EntriesUpTo(steps, answers, 4)
  }

  function MapAnswersToStepsSpec(answers: Answers): map<string, Option<map<string, string>>> {
    EntriesOf(Steps, answers)
  }

  lemma StepKeyValues()
    ensures StepKey(0) == "step1" && StepKey(1) == "step2" && StepKey(2) == "step3" && StepKey(3) == "step4"
  {
  }

  /** The inner loop: the non-empty answers to one step's questions. */
  method CollectStepAnswers(qs: seq<Question>, answers: Answers) returns (stepAnswers: map<string, string>)
    ensures stepAnswers == StepAnswers(qs, answers)
  {
    stepAnswers := map[];
    for k := 0 to |qs|
      invariant stepAnswers == StepAnswers(qs[..k], answers)
    {
      var id := qs[k].id;
      if id in answers && answers[id] != "" {
        stepAnswers := stepAnswers[id := answers[id]];
      }
      assert IdsOf(qs[..k + 1]) == IdsOf(qs[..k]) + {id} by {
        assert qs[..k + 1][k] == qs[k];
        forall x | x in IdsOf(qs[..k + 1]) ensures x in IdsOf(qs[..k]) + {id} {
          var j :| 0 <= j < k + 1 && qs[..k + 1][j].id == x;
          if j < k { assert qs[..k][j] == qs[..k + 1][j]; }
        }
        forall x | x in IdsOf(qs[..k]) ensures x in IdsOf(qs[..k + 1]) {
          var j :| 0 <= j < k && qs[..k][j].id == x;
          assert qs[..k + 1][j] == qs[..k][j];
        }
      }
    }
    assert qs[..|qs|] == qs;
  }

  /** mapAnswersToSteps. */
  method MapAnswersToSteps(answers: Answers) returns (result: map<string, Option<map<string, string>>>)
    ensures result == MapAnswersToStepsSpec(answers)
  {
    result := FillSteps(Steps, answers);
  }

  /** The body of mapAnswersToSteps over the step list: every step key starts out null, and the
      outer loop sets each step's entry. */
  method FillSteps(steps: seq<Step>, answers: Answers) returns (result: map<string, Option<map<string, string>>>)
    requires |steps| == 4
    ensures result == EntriesOf(steps, answers)
  {
    result := AllNull;
    for i := 0 to |steps|
      invariant result == EntriesUpTo(steps, answers, i)
    {
      var step := steps[i];
      var stepAnswers := CollectStepAnswers(step.questions, answers);
      var entry := if |stepAnswers| > 0 then Some(stepAnswers) else None;
      EntriesUpToNext(steps, answers, i, result, entry);
      result := result[StepKey(i) := entry];
    }
  }

  /** One more step's entry set on the first i steps' map gives the first i + 1 steps' map. */
  lemma EntriesUpToNext(steps: seq<Step>, answers: Answers, i: nat,
                        prev: map<string, Option<map<string, string>>>, entry: Option<map<string, string>>)
    requires i < |steps| == 4
    requires prev == EntriesUpTo(steps, answers, i)
    requires entry == (var m := StepAnswers(steps[i].questions, answers); if |m| > 0 then Some(m) else None)
    ensures prev[StepKey(i) := entry] == EntriesUpTo(steps, answers, i + 1)
  {
  }

  /** A step's entry is null exactly when none of its questions has a non-empty answer;
      otherwise it maps exactly those questions' ids to their answers, unchanged. */
  lemma EntryProperties(qs: seq<Question>, answers: Answers)
    ensures Entry(qs, answers).None? <==>
            forall i | 0 <= i < |qs| :: qs[i].id !in answers || answers[qs[i].id] == ""
    ensures Entry(qs, answers).Some? ==>
            && (forall id :: id in Entry(qs, answers).value <==>
                  (id in IdsOf(qs) && id in answers && answers[id] != ""))
            && (forall id | id in Entry(qs, answers).value :: Entry(qs, answers).value[id] == answers[id])
  {
    var m := StepAnswers(qs, answers);
    forall i | 0 <= i < |qs| && qs[i].id in answers && answers[qs[i].id] != "" ensures qs[i].id in m {
      assert qs[i].id in IdsOf(qs);
    }
    if |m| != 0 {
      var id :| id in m;
      assert id in IdsOf(qs);
      var i :| 0 <= i < |qs| && qs[i].id == id;
    }
  }

  /** The result has exactly the keys step1..step4, and step(k+1) is the entry of the k-th
      step. */
  lemma MapAnswersToStepsProperties(answers: Answers, k: nat)
    requires k < 4
    ensures var r := MapAnswersToStepsSpec(answers);
      r.Keys == StepKeys && StepKey(k) in r && r[StepKey(k)] == Entry(Steps[k].questions, answers)
  {
    EntriesLookup(Steps, answers, k);
  }

  lemma EntriesLookup(steps: seq<Step>, answers: Answers, k: nat)
    requires |steps| == 4 && k < 4
    ensures var r := EntriesOf(steps, answers);
      r.Keys == StepKeys && StepKey(k) in r && r[StepKey(k)] == Entry(steps[k].questions, answers)
  {
    EntriesUpToKeys(steps, answers, 4);
    EntriesUpToAt(steps, answers, 4, k);
  }

  /** After n steps the keys are still step1..step4. */
  lemma {:induction false} EntriesUpToKeys(steps: seq<Step>, answers: Answers, n: nat)
    requires n <= |steps| == 4
    ensures EntriesUpTo(steps, answers, n).Keys == StepKeys
  {
    if n > 0 {
      EntriesUpToKeys(steps, answers, n - 1);
      assert StepKey(n - 1) in StepKeys;
    }
  }

  /** After n steps the first n keys hold their steps' entries and the rest are null. */
  lemma {:induction false} EntriesUpToAt(steps: seq<Step>, answers: Answers, n: nat, j: nat)
    requires n <= |steps| == 4 && j < 4
    ensures var r := EntriesUpTo(steps, answers, n);
      StepKey(j) in r && r[StepKey(j)] == if j < n then Entry(steps[j].questions, answers) else None
  {
    if n > 0 {
      EntriesUpToAt(steps, answers, n - 1, j);
      var prev := EntriesUpTo(steps, answers, n - 1);
      var key := StepKey(n - 1);
      var r := prev[key := Entry(steps[n - 1].questions, answers)];
      assert r == EntriesUpTo(steps, answers, n);
      if j != n - 1 {
        StepKeysDistinct(j, n - 1);
        assert r[StepKey(j)] == prev[StepKey(j)];
      } else {
        assert r[key] == Entry(steps[n - 1].questions, answers);
      }
    } else {
      assert StepKey(j) in AllNull;
    }
  }

  lemma StepKeysDistinct(a: nat, b: nat)
    requires a < 4 && b < 4 && a != b
    ensures StepKey(a) != StepKey(b)
  {
    assert StepKey(a)[4] != StepKey(b)[4];
  }

  /** An answer to a question of no step shows up in no step's entry. */
  lemma StrayAnswersDropped(answers: Answers, id: string, k: nat)
    requires k < 4
    requires forall s | 0 <= s < |Steps| :: id !in IdsOf(Steps[s].questions)
    ensures var e := Entry(Steps[k].questions, answers);
      StepKey(k) in MapAnswersToStepsSpec(answers) && e == MapAnswersToStepsSpec(answers)[StepKey(k)] &&
      (e.Some? ==> id !in e.value)
  {
    MapAnswersToStepsProperties(answers, k);
    EntryProperties(Steps[k].questions, answers);
  }
}
