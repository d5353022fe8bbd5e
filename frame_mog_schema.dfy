/**
 * The FrameMog v2 result and its guards (src/lib/frameMogSchema.ts): validation of an untyped
 * model reply, and the sanitiser that clamps the six metrics, pulls the overall score back to
 * the metric mean when it strays by more than 12, keeps the potential score between the overall
 * score and a cap, and fixes the insight count at 3–6.
 */
module FrameMogSchema {
  import opened Js
  import opened Json

  /** The six metric keys, in their order. */
  const Keys: seq<string> := ["frame", "posture", "presence", "composition", "expression", "style"]

  const KeySet: set<string> := {"frame", "posture", "presence", "composition", "expression", "style"}

  lemma KeysDistinct()
    ensures forall i, j :: 0 <= i < j < |Keys| ==> Keys[i] != Keys[j]
    ensures (set k | k in Keys) == KeySet && |KeySet| == 6
  {
    var s1: set<string> := {"frame"};
    var s2 := AddNew(s1, "posture");
    var s3 := AddNew(s2, "presence");
    var s4 := AddNew(s3, "composition");
    var s5 := AddNew(s4, "expression");
    var s6 := AddNew(s5, "style");
    assert KeySet == s6;
  }

  /** A FrameMogV2. The breakdown maps metric keys to numbers (NaN included, as validate lets it
      through). */
  datatype FrameMog = FrameMog(photoType: string, overall: real, potential: real,
                               breakdown: map<string, Num>, insights: seq<string>, topMove: string)

  const DefaultInsights: seq<string> :=
    ["Analysis unavailable.", "Please try again.", "Upload a clear photo for best results."]

  function AllMetrics(x: real): (m: map<string, Num>)
    ensures forall k :: k in m <==> k in Keys
    ensures forall k | k in m :: m[k] == Real(x)
  {
    map k | k in Keys :: Real(x)
  }

  /** DEFAULT_FALLBACK. */
  const DefaultFallback: FrameMog :=
    FrameMog("unknown", 50.0, 50.0, AllMetrics(50.0), DefaultInsights, "Retake with improved framing.")

  // ---------------------------------------------------------------- validateFrameMogV2

  /** Object.keys(v).length: own keys of an object, indices of an array. */
  function KeyCount(v: Json): int {
    match v
    case JObj(fields) => |fields|
    case JArr(items) => |items|
    case _ => 0
  }

  /** isScoreBreakdown: an object with exactly six own keys, each metric key holding a number
      (NaN included). */
  predicate IsScoreBreakdown(v: Option<Json>) {
    Truthy(v) && IsObject(v.value) && KeyCount(v.value) == 6 &&
    forall k | k in Keys :: IsNumber(Get(v.value, k))
  }

  /** isStringArray(arr, min, max). */
  predicate IsStringArray(v: Option<Json>, min: int, max: int) {
    v.Some? && v.value.JArr? && min <= |v.value.items| <= max &&
    forall i :: 0 <= i < |v.value.items| ==> v.value.items[i].JStr?
  }

  function Strings(items: seq<Json>): (r: seq<string>)
    requires forall i :: 0 <= i < |items| ==> items[i].JStr?
    ensures |r| == |items| && forall i :: 0 <= i < |items| ==> items[i] == JStr(r[i])
  {
    seq(|items|, i requires 0 <= i < |items| && items[i].JStr? => items[i].s)
  }

  /** All guards of validateFrameMogV2 pass. */
  predicate IsFrameMog(input: Json) {
    Truthy(Some(input)) && IsObject(input) &&
    IsString(Get(input, "photo_type")) &&
    IsFiniteNumber(Get(input, "overall_score")) &&
    IsFiniteNumber(Get(input, "potential_score")) &&
    IsScoreBreakdown(Get(input, "score_breakdown")) &&
    IsStringArray(Get(input, "insights"), 3, 6) &&
    IsString(Get(input, "top_1_move"))
  }

  /** The copy `{ ...score_breakdown }`: its six own keys are the metric keys. */
  function BreakdownOf(b: Json): (m: map<string, Num>)
    requires IsScoreBreakdown(Some(b))
    ensures forall k :: k in m <==> k in Keys
  {
    map k | k in Keys :: Get(b, k).value.n
  }

  /** validateFrameMogV2. */
  function Validate(input: Json): FrameMog {
    if !IsFrameMog(input) then DefaultFallback
    else FrameMog(Get(input, "photo_type").value.s,
                  Get(input, "overall_score").value.n.r,
                  Get(input, "potential_score").value.n.r,
                  BreakdownOf(Get(input, "score_breakdown").value),
                  Strings(Get(input, "insights").value.items),
                  Get(input, "top_1_move").value.s)
  }

  /** What validate returns: its breakdown has exactly the six metric keys and there are 3–6
      insights. */
  predicate Shaped(v: FrameMog) {
    v.breakdown.Keys == KeySet && 3 <= |v.insights| <= 6
  }

  /** validate returns the fallback unless every guard passes, and then copies each field. */
  lemma ValidateProperties(input: Json)
    ensures Shaped(Validate(input))
    ensures !IsFrameMog(input) ==> Validate(input) == DefaultFallback
    ensures IsFrameMog(input) ==>
      var v := Validate(input);
      && Get(input, "photo_type") == Some(JStr(v.photoType))
      && Get(input, "overall_score") == Some(Number(v.overall))
      && Get(input, "potential_score") == Some(Number(v.potential))
      && (forall k | k in Keys :: Get(Get(input, "score_breakdown").value, k) == Some(JNum(v.breakdown[k])))
      && Get(input, "insights") == Some(StrArray(v.insights))
      && Get(input, "top_1_move") == Some(JStr(v.topMove))
  {
    if IsFrameMog(input) {
      var v := Validate(input);
      var items := Get(input, "insights").value.items;
      assert StrArray(v.insights).items == items;
    }
  }

  // ---------------------------------------------------------------- clampAndSanitizeFrameMogV2

  /** clamp(n, min, max): NaN gives min. */
  function Clamp(n: Num, lo: real, hi: real): (r: real)
    requires lo <= hi
    ensures lo <= r <= hi
    ensures n.Real? && lo <= n.r <= hi ==> r == n.r
    ensures n.NaN? ==> r == lo
  {
    if n.NaN? then lo
    else if n.r < lo then lo
    else if n.r > hi then hi
    else n.r
  }

  /** `breakdown[k] ?? 50`. */
  function Metric(b: map<string, Num>, k: string): Num {
    if k in b then b[k] else Real(50.0)
  }

  function ClampedMetric(b: map<string, Num>, k: string): real {
    Clamp(Metric(b, k), 0.0, 100.0)
  }

  /** The mean of the six clamped metrics. */
  function Mean(b: map<string, Num>): real {
    (ClampedMetric(b, "frame") + ClampedMetric(b, "posture") + ClampedMetric(b, "presence") +
     ClampedMetric(b, "composition") + ClampedMetric(b, "expression") + ClampedMetric(b, "style")) / 6.0
  }

  lemma MeanRange(b: map<string, Num>)
    ensures 0.0 <= Mean(b) <= 100.0
    ensures 0 <= Round(Mean(b)) <= 100
  {
  }

  function AbsR(x: real): real {
    if x < 0.0 then -x else x
  }

  /** The cap on potential - overall. */
  function MaxDelta(overall: real): real {
    if overall < 50.0 then 35.0 else 30.0
  }

  /** The overall score after the consistency rule. */
  function ConsistentOverall(v: FrameMog): real {
    var avgRounded := Round(Mean(v.breakdown)) as real;
    var overall := Clamp(Real(v.overall), 0.0, 100.0);
    if AbsR(overall - avgRounded) > 12.0 then avgRounded else overall
  }

  /** The potential score after the floor and the cap. */
  function BoundedPotential(v: FrameMog, overall: real): real {
    var p0 := Clamp(Real(v.potential), 0.0, 100.0);
    var p1 := if p0 < overall then overall else p0;
    if p1 - overall > MaxDelta(overall) then overall + MaxDelta(overall) else p1
  }

  /** Insights cut to six or padded from the fallback's to three. */
  function FitInsights(insights: seq<string>): (r: seq<string>)
    ensures 3 <= |r| <= 6
    ensures 3 <= |insights| <= 6 ==> r == insights
    ensures |insights| > 6 ==> r == insights[..6]
    ensures |insights| < 3 ==> r == insights + DefaultInsights[..3 - |insights|]
  {
    if |insights| > 6 then insights[..6]
    else if |insights| < 3 then insights + DefaultInsights[..3 - |insights|]
    else insights
  }

  /** The clamped breakdown: every metric key with its clamped value. */
  function ClampAll(b: map<string, Num>): map<string, Num> {
    map k | k in Keys :: Real(ClampedMetric(b, k))
  }

  /** The value clampAndSanitizeFrameMogV2 returns. */
  function Sanitize(input: Json): FrameMog {
    var v := Validate(input);
    var overall := ConsistentOverall(v);
    FrameMog(v.photoType, overall, BoundedPotential(v, overall), ClampAll(v.breakdown),
             FitInsights(v.insights), v.topMove)
  }

  /** clampAndSanitizeFrameMogV2: fills the clamped breakdown key by key and adjusts overall and
      potential in sequence. */
  method SanitizeFrameMog(input: Json) returns (r: FrameMog)
    ensures r == Sanitize(input)
  {
    var v := Validate(input);
    var breakdown := v.breakdown;
    var clamped := ClampBreakdown(breakdown);
    var avgRounded := Round(Mean(breakdown));
    var overall := Clamp(Real(v.overall), 0.0, 100.0);
    if AbsR(overall - avgRounded as real) > 12.0 {
      overall := avgRounded as real;
    }
    var potential := Clamp(Real(v.potential), 0.0, 100.0);
    if potential < overall {
      potential := overall;
    }
    var maxDelta := if overall < 50.0 then 35.0 else 30.0;
    var delta := potential - overall;
    if delta > maxDelta {
      potential := overall + maxDelta;
    }
    assert overall == ConsistentOverall(v);
    assert potential == BoundedPotential(v, overall);
    r := FrameMog(v.photoType, overall, potential, clamped, FitInsights(v.insights), v.topMove);
  }

  /** The loop of clampAndSanitizeFrameMogV2: each metric key gets its clamped value. */
  method ClampBreakdown(breakdown: map<string, Num>) returns (clamped: map<string, Num>)
    ensures clamped == ClampAll(breakdown)
  {
    clamped := map[];
    for i := 0 to |Keys|
      invariant clamped == ClampPrefix(breakdown, i)
    {
      var k := Keys[i];
      ClampPrefixStep(breakdown, i);
      clamped := clamped[k := Real(Clamp(Metric(breakdown, k), 0.0, 100.0))];
    }
    assert Keys[..|Keys|] == Keys;
  }

  /** The clamped values of the first n metric keys. */
  function ClampPrefix(b: map<string, Num>, n: int): map<string, Num>
    requires 0 <= n <= |Keys|
  {
    map k | k in Keys[..n] :: Real(ClampedMetric(b, k))
  }

  lemma ClampPrefixStep(b: map<string, Num>, i: int)
    requires 0 <= i < |Keys|
    ensures ClampPrefix(b, i + 1) == ClampPrefix(b, i)[Keys[i] := Real(ClampedMetric(b, Keys[i]))]
  {
    assert Keys[..i + 1] == Keys[..i] + [Keys[i]];
  }

  /** What every sanitised result satisfies: six metrics in [0, 100]; overall within 12 of the
      rounded metric mean; 0 <= overall <= potential <= 100 with potential - overall capped at
      35 below 50 and 30 from 50 up; 3–6 insights. */
  predicate Sane(s: FrameMog) {
    && s.breakdown.Keys == KeySet
    && (forall k | k in s.breakdown :: s.breakdown[k].Real? && 0.0 <= s.breakdown[k].r <= 100.0)
    && AbsR(s.overall - Round(Mean(s.breakdown)) as real) <= 12.0
    && 0.0 <= s.overall <= s.potential <= 100.0
    && s.potential - s.overall <= MaxDelta(s.overall)
    && 3 <= |s.insights| <= 6
  }

  /** The clamped breakdown has the six keys, each a number in [0, 100]: NaN becomes 0, a value
      already in range is kept, and the mean is unchanged. */
  lemma ClampAllProperties(b: map<string, Num>)
    ensures var c := ClampAll(b);
      && c.Keys == KeySet
      && (forall k | k in c :: c[k].Real? && 0.0 <= c[k].r <= 100.0)
      && (forall k | k in Keys && k in b :: b[k].NaN? ==> c[k] == Real(0.0))
      && (forall k | k in Keys && k in b :: b[k].Real? && 0.0 <= b[k].r <= 100.0 ==> c[k] == b[k])
      && Mean(c) == Mean(b)
  {
    var c := ClampAll(b);
    forall k | k in Keys ensures ClampedMetric(c, k) == ClampedMetric(b, k) {
    }
  }

  /** The overall and potential scores of any sanitised v keep the score invariants of Sane. */
  lemma ScoresSane(v: FrameMog)
    ensures var o := ConsistentOverall(v);
            var p := BoundedPotential(v, o);
      && AbsR(o - Round(Mean(v.breakdown)) as real) <= 12.0
      && 0.0 <= o <= p <= 100.0
      && p - o <= MaxDelta(o)
      && (Clamp(Real(v.potential), 0.0, 100.0) < o ==> p == o)
  {
    MeanRange(v.breakdown);
  }

  /** Sanitising a result that validates to itself, step by step. */
  lemma SanitizeShaped(v: FrameMog)
    requires Validate(ToJson(v)) == v
    ensures var o := ConsistentOverall(v);
      Sanitize(ToJson(v)) == FrameMog(v.photoType, o, BoundedPotential(v, o), ClampAll(v.breakdown),
                                      FitInsights(v.insights), v.topMove)
  {
  }

  /** sanitize: metrics clamped (NaN to 0), the overall score kept when within 12 of the
      rounded mean and replaced by it otherwise, the potential score floored at overall and
      capped, strings and in-range insight lists copied from validate. */
  lemma SanitizeProperties(input: Json)
    ensures var v := Validate(input);
            var s := Sanitize(input);
      && Sane(s)
      && (forall k | k in Keys :: v.breakdown[k].NaN? ==> s.breakdown[k] == Real(0.0))
      && (forall k | k in Keys :: v.breakdown[k].Real? && 0.0 <= v.breakdown[k].r <= 100.0 ==>
                                  s.breakdown[k] == v.breakdown[k])
      && (var o := Clamp(Real(v.overall), 0.0, 100.0);
          var avg := Round(Mean(v.breakdown)) as real;
          s.overall == (if AbsR(o - avg) > 12.0 then avg else o))
      && (Clamp(Real(v.potential), 0.0, 100.0) < s.overall ==> s.potential == s.overall)
      && (var p0 := Clamp(Real(v.potential), 0.0, 100.0);
          s.overall <= p0 <= s.overall + MaxDelta(s.overall) ==> s.potential == p0)
      && (var p0 := Clamp(Real(v.potential), 0.0, 100.0);
          p0 - s.overall > MaxDelta(s.overall) ==> s.potential == s.overall + MaxDelta(s.overall))
      && s.photoType == v.photoType && s.topMove == v.topMove && s.insights == v.insights
  {
    SanitizeSane(input);
    SanitizeBreakdown(input);
    SanitizeScalars(input);
    SanitizePotential(input);
  }

  /** The clamped potential score is kept when it lies between overall and overall plus the
      cap, and cut to overall plus the cap above it. */
  lemma SanitizePotential(input: Json)
    ensures var v := Validate(input);
            var s := Sanitize(input);
            var p0 := Clamp(Real(v.potential), 0.0, 100.0);
      && (s.overall <= p0 <= s.overall + MaxDelta(s.overall) ==> s.potential == p0)
      && (p0 - s.overall > MaxDelta(s.overall) ==> s.potential == s.overall + MaxDelta(s.overall))
  {
  }

  /** The sanitised breakdown zeroes NaN metrics and keeps those already in range. */
  lemma SanitizeBreakdown(input: Json)
    ensures var v := Validate(input);
            var s := Sanitize(input);
      && (forall k | k in Keys :: v.breakdown[k].NaN? ==> s.breakdown[k] == Real(0.0))
      && (forall k | k in Keys :: v.breakdown[k].Real? && 0.0 <= v.breakdown[k].r <= 100.0 ==>
                                  s.breakdown[k] == v.breakdown[k])
  {
    var v := Validate(input);
    assert v.breakdown.Keys == KeySet by {
      ValidateProperties(input);
    }
    assert Sanitize(input).breakdown == ClampAll(v.breakdown);
    ClampAllProperties(v.breakdown);
  }

  /** The sanitised overall and potential scores, and the strings copied from validate. */
  lemma SanitizeScalars(input: Json)
    ensures var v := Validate(input);
            var s := Sanitize(input);
      && (var o := Clamp(Real(v.overall), 0.0, 100.0);
          var avg := Round(Mean(v.breakdown)) as real;
          s.overall == (if AbsR(o - avg) > 12.0 then avg else o))
      && (Clamp(Real(v.potential), 0.0, 100.0) < s.overall ==> s.potential == s.overall)
      && s.photoType == v.photoType && s.topMove == v.topMove && s.insights == v.insights
  {
    var v := Validate(input);
    ValidateProperties(input);
    ScoresSane(v);
  }

  /** Every sanitised result is sane. */
  lemma SanitizeSane(input: Json)
    ensures Sane(Sanitize(input))
  {
    var v := Validate(input);
    ValidateProperties(input);
    ClampAllProperties(v.breakdown);
    ScoresSane(v);
  }

  // ---------------------------------------------------------------- back to untyped form

  /** A typed result as the object clampAndSanitizeFrameMogV2 receives. */
  function ToJson(v: FrameMog): Json {
    JObj(map[
      "photo_type" := JStr(v.photoType),
      "overall_score" := Number(v.overall),
      "potential_score" := Number(v.potential),
      "score_breakdown" := BreakdownJson(v.breakdown),
      "insights" := StrArray(v.insights),
      "top_1_move" := JStr(v.topMove)])
  }

  function BreakdownJson(m: map<string, Num>): Json {
    JObj(map k | k in m :: JNum(m[k]))
  }

  lemma BreakdownJsonValid(m: map<string, Num>)
    requires m.Keys == KeySet
    ensures IsScoreBreakdown(Some(BreakdownJson(m)))
    ensures BreakdownOf(BreakdownJson(m)) == m
  {
    BreakdownJsonGet(m);
    BreakdownJsonCount(m);
    BreakdownJsonCopy(m);
  }

  lemma BreakdownJsonGet(m: map<string, Num>)
    requires m.Keys == KeySet
    ensures forall k | k in Keys :: Get(BreakdownJson(m), k) == Some(JNum(m[k]))
  {
  }

  lemma BreakdownJsonCount(m: map<string, Num>)
    requires m.Keys == KeySet
    ensures KeyCount(BreakdownJson(m)) == 6
  {
    KeysDistinct();
    var b := BreakdownJson(m);
    assert b.fields.Keys == KeySet;
    assert |b.fields| == |b.fields.Keys|;
  }

  lemma BreakdownJsonCopy(m: map<string, Num>)
    requires m.Keys == KeySet
    requires IsScoreBreakdown(Some(BreakdownJson(m)))
    ensures BreakdownOf(BreakdownJson(m)) == m
  {
  }

  lemma StrArrayValid(ss: seq<string>)
    requires 3 <= |ss| <= 6
    ensures IsStringArray(Some(StrArray(ss)), 3, 6)
    ensures Strings(StrArray(ss).items) == ss
  {
  }

  lemma ToJsonFields(v: FrameMog)
    ensures Get(ToJson(v), "photo_type") == Some(JStr(v.photoType))
    ensures Get(ToJson(v), "overall_score") == Some(Number(v.overall))
    ensures Get(ToJson(v), "potential_score") == Some(Number(v.potential))
    ensures Get(ToJson(v), "score_breakdown") == Some(BreakdownJson(v.breakdown))
    ensures Get(ToJson(v), "insights") == Some(StrArray(v.insights))
    ensures Get(ToJson(v), "top_1_move") == Some(JStr(v.topMove))
  {
  }

  lemma ToJsonIsFrameMog(v: FrameMog)
    requires Shaped(v)
    ensures IsFrameMog(ToJson(v))
  {
    ToJsonFields(v);
    BreakdownJsonValid(v.breakdown);
    StrArrayValid(v.insights);
  }

  /** Validating a shaped result gives it back unchanged. */
  lemma ValidateToJson(v: FrameMog)
    requires Shaped(v)
    ensures Validate(ToJson(v)) == v
  {
    var j := ToJson(v);
    ToJsonFields(v);
    ToJsonIsFrameMog(v);
    BreakdownJsonValid(v.breakdown);
    StrArrayValid(v.insights);
    var r := Validate(j);
    assert r.photoType == v.photoType && r.overall == v.overall && r.potential == v.potential;
    assert r.breakdown == v.breakdown && r.insights == v.insights && r.topMove == v.topMove;
  }

  /** Sanitising a validated result is sanitising the raw input. */
  lemma SanitizeValidated(input: Json)
    ensures Sanitize(ToJson(Validate(input))) == Sanitize(input)
  {
    ValidateProperties(input);
    ValidateToJson(Validate(input));
  }

  /** A sane result is a fixed point of sanitize. */
  lemma SanitizeFixesSane(s: FrameMog)
    requires Sane(s)
    ensures Sanitize(ToJson(s)) == s
  {
    assert Shaped(s);
    ValidateToJson(s);
    SanitizeShaped(s);
    ClampAllFixes(s.breakdown);
    SaneScoresKept(s);
  }

  /** A breakdown of the six keys with values in [0, 100] is its own clamp. */
  lemma ClampAllFixes(b: map<string, Num>)
    requires b.Keys == KeySet
    requires forall k | k in b :: b[k].Real? && 0.0 <= b[k].r <= 100.0
    ensures ClampAll(b) == b
  {
    var c := ClampAll(b);
    forall k | k in Keys ensures c[k] == b[k] {
      assert Metric(b, k) == b[k];
    }
  }

  /** The consistency rule and the potential bounds keep the scores of a sane result. */
  lemma SaneScoresKept(s: FrameMog)
    requires Sane(s)
    ensures ConsistentOverall(s) == s.overall
    ensures BoundedPotential(s, s.overall) == s.potential
  {
    assert Clamp(Real(s.overall), 0.0, 100.0) == s.overall;
    assert Clamp(Real(s.potential), 0.0, 100.0) == s.potential;
  }

  /** Sanitising is idempotent. */
  lemma SanitizeIdempotent(input: Json)
    ensures Sanitize(ToJson(Sanitize(input))) == Sanitize(input)
  {
    SanitizeProperties(input);
    SanitizeFixesSane(Sanitize(input));
  }

  /** All metrics at 90 with overall 10: the overall score becomes 90, and a potential score
      below it is raised to it. */
  lemma ConsistencyExample(v: FrameMog)
    requires Shaped(v) && v.breakdown == AllMetrics(90.0) && v.overall == 10.0 && v.potential == 5.0
    ensures Sanitize(ToJson(v)).overall == 90.0
    ensures Sanitize(ToJson(v)).potential == 90.0
  {
    ValidateToJson(v);
    assert Mean(v.breakdown) == 90.0;
    RoundOfInt(90);
  }
}
