/**
 * The normaliser of stored analysis results (src/lib/normalizeFrameMogResult.ts): a stored
 * `result_v2` is validated and sanitised; an old v1 result (`current_score`, `ai_summary`) is
 * turned into a synthetic FrameMog v2 result and sanitised. Every path ends in the sanitiser, so
 * the output always satisfies its invariants.
 */
module NormalizeFrameMog {
  import opened Js
  import opened Json
  import opened FrameMogSchema

  // ---------------------------------------------------------------- safeNum, safeStr

  /** safeNum(n, fallback): the fallback for a non-number or NaN, otherwise the rounded number
      forced into [0, 100]. */
  function SafeNum(n: Option<Json>, fallback: real): (r: real)
    ensures !IsFiniteNumber(n) ==> r == fallback
    ensures IsFiniteNumber(n) ==> 0.0 <= r <= 100.0 && r == r.Floor as real
    ensures IsFiniteNumber(n) && 0 <= Round(n.value.n.r) <= 100 ==> r == Round(n.value.n.r) as real
  {
    if !IsFiniteNumber(n) then fallback else RoundInto(n.value.n.r, 0, 100) as real
  }

  /** safeStr(s): the trimmed string when it is a string that is not blank, otherwise "". */
  function SafeStr(s: Option<Json>): (r: string)
    ensures r != "" <==> IsString(s) && Trim(s.value.s) != ""
    ensures r != "" ==> r == Trim(s.value.s)
  {
    if IsString(s) && Trim(s.value.s) != "" then Trim(s.value.s) else ""
  }

  /** A non-empty safeStr result has no whitespace at either end. */
  lemma SafeStrTrimmed(s: Option<Json>)
    ensures SafeStr(s) != "" ==> Trim(SafeStr(s)) == SafeStr(s)
  {
    if SafeStr(s) != "" {
      TrimIdempotent(s.value.s);
    }
  }

  // ---------------------------------------------------------------- deriveScoreBreakdown

  /** The offsets of deriveScoreBreakdown, in key order. */
  const Offsets: seq<int> := [0, 1, -1, 2, -2, 0]

  /** The offset each metric key receives. */
  function Offset(k: string): int {
    if k == "posture" then 1
    else if k == "presence" then -1
    else if k == "composition" then 2
    else if k == "expression" then -2
    else 0
  }

  lemma OffsetsByKey()
    ensures |Offsets| == |Keys|
    ensures forall i :: 0 <= i < |Keys| ==> Offsets[i] == Offset(Keys[i])
  {
  }

  /** The base score: Math.max(0, Math.min(100, Math.round(overall))). */
  function Base(overall: real): int {
    RoundInto(overall, 0, 100)
  }

  /** `delta || 1` with delta = Math.min(8, Math.floor((100 - base) / 6)). */
  function Step(base: int): (d: int)
    requires 0 <= base <= 100
    ensures 1 <= d <= 8
  {
    var delta := Min(8, Floor((100 - base) as real / 6.0));
    if delta == 0 then 1 else delta
  }

  /** One metric: base + offset * step, forced into [0, 100]. */
  function Spread(base: int, offset: int): int
    requires 0 <= base <= 100
  {
    Max(0, Min(100, base + offset * Step(base)))
  }

  /** The breakdown deriveScoreBreakdown returns. */
  function Derive(overall: real): map<string, Num> {
    var base := Base(overall);
    map k | k in Keys :: Real(Spread(base, Offset(k)) as real)
  }

  /** deriveScoreBreakdown: fills the six metrics in key order. */
  method DeriveScoreBreakdown(overall: real) returns (out: map<string, Num>)
    ensures out == Derive(overall)
  {
    var base := Max(0, Min(100, Round(overall)));
    var delta := Min(8, Floor((100 - base) as real / 6.0));
    var step := if delta == 0 then 1 else delta;
    assert base == Base(overall) && step == Step(base);
    out := FillMetrics(base, step);
  }

  /** The loop of deriveScoreBreakdown: metric i is base + offsets[i] * step, forced into
      [0, 100]. */
  method FillMetrics(base: int, step: int) returns (out: map<string, Num>)
    requires 0 <= base <= 100 && step == Step(base)
    ensures out == map k | k in Keys :: Real(Spread(base, Offset(k)) as real)
  {
    OffsetsByKey();
    out := map[];
    for i := 0 to |Keys|
      invariant out == map k | k in Keys[..i] :: Real(Spread(base, Offset(k)) as real)
    {
      var v := base + Offsets[i] * step;
      assert Offsets[i] == Offset(Keys[i]);
      assert Max(0, Min(100, v)) == Spread(base, Offsets[i]);
      out := out[Keys[i] := Real(Max(0, Min(100, v)) as real)];
      assert Keys[..i + 1] == Keys[..i] + [Keys[i]];
    }
    assert Keys[..|Keys|] == Keys;
  }

  /** The derived breakdown has the six metric keys, each in [0, 100]; frame and style are the
      base score and the others are the base moved by one or two steps, before clamping; the step
      is min(8, floor((100 - base) / 6)), or 1 where that is 0. */
  lemma DeriveProperties(overall: real)
    ensures var m := Derive(overall);
            var base := Base(overall);
      && m.Keys == KeySet
      && (forall k | k in m :: m[k].Real? && 0.0 <= m[k].r <= 100.0 && m[k].r == m[k].r.Floor as real)
      && m["frame"] == Real(base as real) && m["style"] == Real(base as real)
      && m["posture"] == Real(Max(0, Min(100, base + Step(base))) as real)
      && m["presence"] == Real(Max(0, Min(100, base - Step(base))) as real)
      && m["composition"] == Real(Max(0, Min(100, base + 2 * Step(base))) as real)
      && m["expression"] == Real(Max(0, Min(100, base - 2 * Step(base))) as real)
      && Step(base) == (var q := (100 - base) / 6; if q == 0 then 1 else Min(8, q))
  {
    DeriveRange(overall);
    StepFormula(Base(overall));
    DeriveValues(overall);
  }

  /** Each of the six metrics is the base moved by its offset times the step, clamped. */
  lemma DeriveValues(overall: real)
    ensures var m := Derive(overall);
            var base := Base(overall);
      && "frame" in m && "style" in m && "posture" in m && "presence" in m && "composition" in m && "expression" in m
      && m["frame"] == Real(base as real) && m["style"] == Real(base as real)
      && m["posture"] == Real(Max(0, Min(100, base + Step(base))) as real)
      && m["presence"] == Real(Max(0, Min(100, base - Step(base))) as real)
      && m["composition"] == Real(Max(0, Min(100, base + 2 * Step(base))) as real)
      && m["expression"] == Real(Max(0, Min(100, base - 2 * Step(base))) as real)
  {
    DeriveUnmoved(overall);
    DeriveOneStep(overall);
    DeriveTwoSteps(overall);
  }

  /** frame and style are the base itself. */
  lemma DeriveUnmoved(overall: real)
    ensures var m := Derive(overall);
            var base := Base(overall);
      "frame" in m && "style" in m && m["frame"] == Real(base as real) && m["style"] == Real(base as real)
  {
    DerivedValue(overall, "frame", 0);
    DerivedValue(overall, "style", 0);
  }

  /** posture and presence are one step above and below the base. */
  lemma DeriveOneStep(overall: real)
    ensures var m := Derive(overall);
            var base := Base(overall);
      && "posture" in m && "presence" in m
      && m["posture"] == Real(Max(0, Min(100, base + Step(base))) as real)
      && m["presence"] == Real(Max(0, Min(100, base - Step(base))) as real)
  {
    DerivedValue(overall, "posture", 1);
    DerivedValue(overall, "presence", -1);
  }

  /** composition and expression are two steps above and below the base. */
  lemma DeriveTwoSteps(overall: real)
    ensures var m := Derive(overall);
            var base := Base(overall);
      && "composition" in m && "expression" in m
      && m["composition"] == Real(Max(0, Min(100, base + 2 * Step(base))) as real)
      && m["expression"] == Real(Max(0, Min(100, base - 2 * Step(base))) as real)
  {
    DerivedValue(overall, "composition", 2);
    DerivedValue(overall, "expression", -2);
  }

  /** The step in integer arithmetic. */
  lemma StepFormula(base: int)
    requires 0 <= base <= 100
    ensures Step(base) == (var q := (100 - base) / 6; if q == 0 then 1 else Min(8, q))
  {
    assert Floor((100 - base) as real / 6.0) == (100 - base) / 6;
  }

  /** The metric k is the base moved by its offset times the step, clamped. */
  lemma DerivedValue(overall: real, k: string, offset: int)
    requires k in KeySet && Offset(k) == offset
    ensures var base := Base(overall);
      k in Derive(overall) && Derive(overall)[k] == Real(Max(0, Min(100, base + offset * Step(base))) as real)
  {
    DerivedKey(overall, k);
  }

  /** The derived metrics have the six keys and are whole numbers in [0, 100]. */
  lemma DeriveRange(overall: real)
    ensures var m := Derive(overall);
      && m.Keys == KeySet
      && forall k | k in m :: m[k].Real? && 0.0 <= m[k].r <= 100.0 && m[k].r == m[k].r.Floor as real
  {
    var m := Derive(overall);
    var base := Base(overall);
    forall k | k in m ensures m[k].Real? && 0.0 <= m[k].r <= 100.0 && m[k].r == m[k].r.Floor as real {
      assert m[k] == Real(Spread(base, Offset(k)) as real);
    }
  }

  lemma DerivedKey(overall: real, k: string)
    requires k in KeySet
    ensures k in Derive(overall) && Derive(overall)[k] == Real(Spread(Base(overall), Offset(k)) as real)
  {
    assert k in Keys;
  }

  /** The six derived values add up to at most six below and 24 above six times the base: the
      offsets cancel, and clamping moves only the outer values. */
  lemma SpreadSum(base: int)
    requires 0 <= base <= 100
    ensures var sum := Spread(base, 0) + Spread(base, 1) + Spread(base, -1) +
                       Spread(base, 2) + Spread(base, -2) + Spread(base, 0);
            6 * base - 6 <= sum <= 6 * base + 24
  {
    var d := Step(base);
    if base <= 94 {
      assert Floor((100 - base) as real / 6.0) == (100 - base) / 6;
      assert base + 2 * d <= 100;
    } else {
      assert Floor((100 - base) as real / 6.0) == 0;
      assert d == 1;
    }
  }

  /** The mean of the derived metrics stays within a point below and four points above the base
      score. */
  lemma DeriveMeanNearBase(overall: real)
    ensures var base := Base(overall) as real;
            base - 1.0 <= Mean(Derive(overall)) <= base + 4.0
  {
    var m := Derive(overall);
    var base := Base(overall);
    DeriveMetric(overall, "frame");
    DeriveMetric(overall, "posture");
    DeriveMetric(overall, "presence");
    DeriveMetric(overall, "composition");
    DeriveMetric(overall, "expression");
    DeriveMetric(overall, "style");
    SpreadSum(base);
    var sum := Spread(base, 0) + Spread(base, 1) + Spread(base, -1) +
               Spread(base, 2) + Spread(base, -2) + Spread(base, 0);
    assert Mean(m) == sum as real / 6.0;
  }

  /** The clamped value of a derived metric is its spread value. */
  lemma DeriveMetric(overall: real, k: string)
    requires k in KeySet
    ensures ClampedMetric(Derive(overall), k) == Spread(Base(overall), Offset(k)) as real
  {
    var m := Derive(overall);
    assert k in Keys;
    assert m[k] == Real(Spread(Base(overall), Offset(k)) as real);
    assert Metric(m, k) == m[k];
  }

  // ---------------------------------------------------------------- collectV1Insights

  /** Which text of an item a scan reads. */
  datatype Source = Fix | Amplify | Context

  /** The text an item contributes: safeStr of its `fix` or `amplify` property, or of the item
      itself for photo_context. Non-objects and objects without the property give "". */
  function TextOf(item: Json, src: Source): string {
    match src
    case Fix => SafeStr(Get(item, "fix"))
    case Amplify => SafeStr(Get(item, "amplify"))
    case Context => SafeStr(Some(item))
  }

  /** The elements of an array, none for anything else (the Array.isArray guards). */
  function ArrayItems(v: Option<Json>): seq<Json> {
    if v.Some? && v.value.JArr? then v.value.items else []
  }

  /** The non-empty texts of the items, in order. */
  function Texts(items: seq<Json>, src: Source): seq<string>
    decreases |items|
  {
    if items == [] then []
    else
      var t := TextOf(items[|items| - 1], src);
      Texts(items[..|items| - 1], src) + (if t != "" then [t] else [])
  }

  /** Texts takes the items one at a time, in order: it distributes over concatenation. */
  lemma {:induction false} TextsAppend(a: seq<Json>, b: seq<Json>, src: Source)
    ensures Texts(a + b, src) == Texts(a, src) + Texts(b, src)
    decreases |b|
  {
    if b == [] {
      assert a + b == a;
    } else {
      var b' := b[..|b| - 1];
      assert (a + b)[..|a + b| - 1] == a + b';
      assert (a + b)[|a + b| - 1] == b[|b| - 1];
      TextsAppend(a, b', src);
    }
  }

  /** Each text is the non-blank, trimmed text of some item. */
  lemma {:induction false} TextsFromItems(items: seq<Json>, src: Source)
    ensures |Texts(items, src)| <= |items|
    ensures forall t | t in Texts(items, src) ::
      t != "" && Trim(t) == t && exists i :: 0 <= i < |items| && TextOf(items[i], src) == t
    decreases |items|
  {
    if items != [] {
      var init := items[..|items| - 1];
      TextsFromItems(init, src);
      var last := items[|items| - 1];
      forall t | t in Texts(items, src)
        ensures t != "" && Trim(t) == t && exists i :: 0 <= i < |items| && TextOf(items[i], src) == t
      {
        if t in Texts(init, src) {
          var i :| 0 <= i < |init| && TextOf(init[i], src) == t;
          assert items[i] == init[i];
        } else {
          assert t == TextOf(last, src);
        }
        TextTrimmed(last, src);
        forall i | 0 <= i < |items| ensures TextOf(items[i], src) != "" ==> Trim(TextOf(items[i], src)) == TextOf(items[i], src) {
          TextTrimmed(items[i], src);
        }
      }
    }
  }

  lemma TextTrimmed(item: Json, src: Source)
    ensures TextOf(item, src) != "" ==> Trim(TextOf(item, src)) == TextOf(item, src)
  {
    match src
    case Fix => SafeStrTrimmed(Get(item, "fix"));
    case Amplify => SafeStrTrimmed(Get(item, "amplify"));
    case Context => SafeStrTrimmed(Some(item));
  }

  /** The insights collectV1Insights returns: fixes of frame_leaks, then amplifies of
      doing_right, then photo_context strings; nothing for a summary that is not an object. */
  function V1Insights(summary: Option<Json>): seq<string> {
    if !Truthy(summary) || !IsObject(summary.value) then []
    else
      var s := summary.value;
      Texts(ArrayItems(Get(s, "frame_leaks")), Fix) +
      Texts(ArrayItems(Get(s, "doing_right")), Amplify) +
      Texts(ArrayItems(Get(s, "photo_context")), Context)
  }

  /** One more item adds its text, if it has one. */
  lemma TextsSnoc(items: seq<Json>, i: int, src: Source)
    requires 0 <= i < |items|
    ensures var t := TextOf(items[i], src);
      Texts(items[..i + 1], src) == Texts(items[..i], src) + (if t != "" then [t] else [])
  {
    assert items[..i + 1][..i] == items[..i];
    assert items[..i + 1][i] == items[i];
  }

  /** Pushes the non-empty texts of `items` onto `out`. */
  method CollectTexts(items: seq<Json>, src: Source, out0: seq<string>) returns (out: seq<string>)
    ensures out == out0 + Texts(items, src)
  {
    out := out0;
    for i := 0 to |items|
      invariant out == out0 + Texts(items[..i], src)
    {
      var t := TextOf(items[i], src);
      TextsSnoc(items, i, src);
      if t != "" {
        ConcatAssoc(out0, Texts(items[..i], src), [t]);
        out := out + [t];
      } else {
        assert Texts(items[..i + 1], src) == Texts(items[..i], src) + [];
      }
    }
    assert items[..|items|] == items;
  }

  /** collectV1Insights. */
  method CollectV1Insights(summary: Option<Json>) returns (out: seq<string>)
    ensures out == V1Insights(summary)
  {
    out := [];
    if !Truthy(summary) || !IsObject(summary.value) {
      return;
    }
    var s := summary.value;
    ghost var leaks := Texts(ArrayItems(Get(s, "frame_leaks")), Fix);
    ghost var rights := Texts(ArrayItems(Get(s, "doing_right")), Amplify);
    ghost var context := Texts(ArrayItems(Get(s, "photo_context")), Context);
    out := CollectTexts(ArrayItems(Get(s, "frame_leaks")), Fix, out);
    assert out == leaks;
    out := CollectTexts(ArrayItems(Get(s, "doing_right")), Amplify, out);
    out := CollectTexts(ArrayItems(Get(s, "photo_context")), Context, out);
    assert out == leaks + rights + context;
  }

  // ---------------------------------------------------------------- impactRank, pickTop1Move

  /** impactRank: HIGH 3, MEDIUM 2, LOW 1, anything else 0. */
  function ImpactRank(impact: Option<Json>): (r: int)
    ensures 0 <= r <= 3
    ensures r == 3 <==> impact == Some(JStr("HIGH"))
    ensures r == 2 <==> impact == Some(JStr("MEDIUM"))
    ensures r == 1 <==> impact == Some(JStr("LOW"))
  {
    if impact == Some(JStr("HIGH")) then 3
    else if impact == Some(JStr("MEDIUM")) then 2
    else if impact == Some(JStr("LOW")) then 1
    else 0
  }

  /** A candidate top move: its text, impact rank and points (a number, NaN included). */
  datatype Candidate = Candidate(text: string, rank: int, points: Num)

  /** The initial best: no text, rank 0, points 0. */
  const Nobody: Candidate := Candidate("", 0, Real(0.0))

  /** `typeof o.points === "number" ? o.points : 0`. */
  function Points(v: Option<Json>): Num {
    if IsNumber(v) then v.value.n else Real(0.0)
  }

  /** The candidate an item makes; an item that is not an object has no text and is skipped. */
  function CandidateOf(item: Json, src: Source): Candidate {
    Candidate(TextOf(item, src), ImpactRank(Get(item, "impact")), Points(Get(item, "points")))
  }

  function Candidates(items: seq<Json>, src: Source): (cs: seq<Candidate>)
    ensures |cs| == |items|
    ensures forall i :: 0 <= i < |items| ==> cs[i] == CandidateOf(items[i], src)
  {
    seq(|items|, i requires 0 <= i < |items| => CandidateOf(items[i], src))
  }

  /** `rank > best.rank || (rank === best.rank && points > best.points)`; a comparison with NaN
      is false. */
  predicate Better(c: Candidate, best: Candidate) {
    c.rank > best.rank ||
    (c.rank == best.rank && c.points.Real? && best.points.Real? && c.points.r > best.points.r)
  }

  /** One step of the scan: a candidate with text replaces the best when it is better. */
  function Consider(best: Candidate, c: Candidate): Candidate {
    if c.text != "" && Better(c, best) then c else best
  }

  /** The best after scanning the candidates in order. */
  function Scan(best: Candidate, cs: seq<Candidate>): Candidate
    decreases |cs|
  {
    if cs == [] then best else Consider(Scan(best, cs[..|cs| - 1]), cs[|cs| - 1])
  }

  /** The candidates of the frame_leaks fixes, the first `consider` call. */
  function FixCandidates(s: Json): seq<Candidate> {
    Candidates(ArrayItems(Get(s, "frame_leaks")), Fix)
  }

  /** Every candidate pickTop1Move scans: the fixes, then the doing_right amplifies. */
  function MoveCandidates(s: Json): seq<Candidate> {
    FixCandidates(s) + Candidates(ArrayItems(Get(s, "doing_right")), Amplify)
  }

  /** The move pickTop1Move returns. */
  function TopMove(summary: Option<Json>): string {
    if !Truthy(summary) || !IsObject(summary.value) then DefaultFallback.topMove
    else
      var best := Scan(Nobody, MoveCandidates(summary.value));
      if best.text != "" then best.text else DefaultFallback.topMove
  }

  lemma BetterTransitive(a: Candidate, b: Candidate, c: Candidate)
    requires Better(a, b) && Better(b, c)
    ensures Better(a, c)
  {
  }

  /** The scan finds a maximum: no candidate with text is better than what it ends with, and it
      ends with the start or with a candidate with text that is better than the start. */
  lemma {:induction false} ScanIsBest(start: Candidate, cs: seq<Candidate>)
    ensures var b := Scan(start, cs);
      && (forall i :: 0 <= i < |cs| && cs[i].text != "" ==> !Better(cs[i], b))
      && (b == start || (b in cs && b.text != "" && Better(b, start)))
    decreases |cs|
  {
    if cs != [] {
      var init := cs[..|cs| - 1];
      var c := cs[|cs| - 1];
      ScanIsBest(start, init);
      var b0 := Scan(start, init);
      var b := Scan(start, cs);
      if c.text != "" && Better(c, b0) {
        assert b == c;
        if b0 != start {
          BetterTransitive(c, b0, start);
        }
        forall i | 0 <= i < |cs| && cs[i].text != ""
          ensures !Better(cs[i], b)
        {
          if i < |init| {
            assert cs[i] == init[i];
            if Better(cs[i], c) {
              BetterTransitive(cs[i], c, b0);
            }
          }
        }
      } else {
        assert b == b0;
        forall i | 0 <= i < |cs| && cs[i].text != ""
          ensures !Better(cs[i], b)
        {
          if i < |init| {
            assert cs[i] == init[i];
          }
        }
      }
    }
  }

  /** Two candidates with the same impact rank and the same points (NaN included). */
  predicate SameKey(a: Candidate, b: Candidate) {
    a.rank == b.rank && a.points == b.points
  }

  /** Only a strictly better candidate replaces the best, so a tie goes to the earliest: what the
      scan ends with is the start, or the candidate at some position k such that no candidate with
      text before k has the same rank and points. */
  lemma {:induction false} ScanEarliest(start: Candidate, cs: seq<Candidate>)
    ensures var b := Scan(start, cs);
      b == start ||
      exists k :: 0 <= k < |cs| && cs[k] == b &&
        forall j :: 0 <= j < k && cs[j].text != "" ==> !SameKey(cs[j], b)
    decreases |cs|
  {
    if cs != [] {
      var init := cs[..|cs| - 1];
      var c := cs[|cs| - 1];
      ScanEarliest(start, init);
      ScanIsBest(start, init);
      var b0 := Scan(start, init);
      var b := Scan(start, cs);
      if c.text != "" && Better(c, b0) {
        assert b == c;
        forall j | 0 <= j < |cs| - 1 && cs[j].text != "" ensures !SameKey(cs[j], b) {
          assert cs[j] == init[j];
        }
        assert cs[|cs| - 1] == b;
      } else {
        assert b == b0;
        if b0 != start {
          var k :| 0 <= k < |init| && init[k] == b0 &&
            forall j :: 0 <= j < k && init[j].text != "" ==> !SameKey(init[j], b0);
          assert cs[k] == b;
          forall j | 0 <= j < k && cs[j].text != "" ensures !SameKey(cs[j], b) {
            assert cs[j] == init[j];
          }
        }
      }
    }
  }

  /** pickTop1Move over the frame_leaks fixes followed by the doing_right amplifies. The scan ends
      at Nobody exactly when no item with text beats Nobody (a known impact or positive points),
      and the default move is returned then. Otherwise the move is the text of a candidate that
      beats Nobody, that no item with text beats, and that no earlier item with text ties; so a
      fix that ties the pick makes the pick a fix. */
  lemma TopMoveIsBest(summary: Option<Json>)
    requires Truthy(summary) && IsObject(summary.value)
    ensures var fixes := FixCandidates(summary.value);
            var cs := MoveCandidates(summary.value);
            var t := TopMove(summary);
            var b := Scan(Nobody, cs);
      && (b == Nobody <==> forall c | c in cs && c.text != "" :: !Better(c, Nobody))
      && (b == Nobody ==> t == DefaultFallback.topMove)
      && (b != Nobody ==>
            exists k :: 0 <= k < |cs| && cs[k] == b && b.text == t && b.text != "" && Better(b, Nobody) &&
              (forall c | c in cs && c.text != "" :: !Better(c, b)) &&
              (forall j :: 0 <= j < k && cs[j].text != "" ==> !SameKey(cs[j], b)))
      && (b != Nobody && (exists j :: 0 <= j < |fixes| && fixes[j].text != "" && SameKey(fixes[j], b)) ==>
            b in fixes)
  {
    var fixes := FixCandidates(summary.value);
    var cs := MoveCandidates(summary.value);
    ScanFromNobody(cs);
    ScanTieToPrefix(cs, |fixes|);
    assert cs[..|fixes|] == fixes;
  }

  /** The scan from Nobody: it stays at Nobody exactly when no candidate with text beats Nobody;
      otherwise it ends at a candidate with text that beats Nobody, that no candidate with text
      beats, and that no earlier candidate with text ties. */
  lemma ScanFromNobody(cs: seq<Candidate>)
    ensures var b := Scan(Nobody, cs);
      && (b == Nobody <==> forall c | c in cs && c.text != "" :: !Better(c, Nobody))
      && (b != Nobody ==>
            exists k :: 0 <= k < |cs| && cs[k] == b && b.text != "" && Better(b, Nobody) &&
              (forall c | c in cs && c.text != "" :: !Better(c, b)) &&
              (forall j :: 0 <= j < k && cs[j].text != "" ==> !SameKey(cs[j], b)))
  {
    ScanIsBest(Nobody, cs);
    ScanEarliest(Nobody, cs);
    var b := Scan(Nobody, cs);
    if b != Nobody {
      forall c | c in cs && c.text != "" ensures !Better(c, b) {
        var i :| 0 <= i < |cs| && cs[i] == c;
      }
    } else {
      forall c | c in cs && c.text != "" ensures !Better(c, Nobody) {
        var i :| 0 <= i < |cs| && cs[i] == c;
      }
    }
  }

  /** When a candidate with text among the first n ties the pick, the pick is among the first n. */
  lemma ScanTieToPrefix(cs: seq<Candidate>, n: int)
    requires 0 <= n <= |cs|
    ensures var b := Scan(Nobody, cs);
      b != Nobody && (exists j :: 0 <= j < n && cs[j].text != "" && SameKey(cs[j], b)) ==>
        b in cs[..n]
  {
    var b := Scan(Nobody, cs);
    if b != Nobody && exists j :: 0 <= j < n && cs[j].text != "" && SameKey(cs[j], b) {
      ScanEarliest(Nobody, cs);
      var j :| 0 <= j < n && cs[j].text != "" && SameKey(cs[j], b);
      var k :| 0 <= k < |cs| && cs[k] == b &&
        forall j :: 0 <= j < k && cs[j].text != "" ==> !SameKey(cs[j], b);
      assert k <= j;
      assert cs[..n][k] == b;
    }
  }

  /** Runs the scan of `consider` over one list of items. */
  method ConsiderAll(items: seq<Json>, src: Source, best0: Candidate) returns (best: Candidate)
    ensures best == Scan(best0, Candidates(items, src))
  {
    best := best0;
    for i := 0 to |items|
      invariant best == Scan(best0, Candidates(items[..i], src))
    {
      CandidatesSnoc(items, i, src);
      ScanSnoc(best0, Candidates(items[..i], src), CandidateOf(items[i], src));
      ghost var before := best;
      var text := TextOf(items[i], src);
      if text != "" {
        var rank := ImpactRank(Get(items[i], "impact"));
        var points := Points(Get(items[i], "points"));
        if rank > best.rank || (rank == best.rank && points.Real? && best.points.Real? && points.r > best.points.r) {
          best := Candidate(text, rank, points);
        }
      }
      assert best == Consider(before, CandidateOf(items[i], src));
    }
    assert items[..|items|] == items;
  }

  lemma CandidatesSnoc(items: seq<Json>, i: int, src: Source)
    requires 0 <= i < |items|
    ensures Candidates(items[..i + 1], src) == Candidates(items[..i], src) + [CandidateOf(items[i], src)]
  {
    var a := Candidates(items[..i + 1], src);
    var b := Candidates(items[..i], src) + [CandidateOf(items[i], src)];
    assert |a| == |b|;
    forall j | 0 <= j < |a| ensures a[j] == b[j] {
      assert items[..i + 1][j] == if j < i then items[..i][j] else items[i];
    }
  }

  lemma ScanSnoc(start: Candidate, cs: seq<Candidate>, c: Candidate)
    ensures Scan(start, cs + [c]) == Consider(Scan(start, cs), c)
  {
    assert (cs + [c])[..|cs|] == cs;
  }

  /** Scanning a concatenation is scanning the second list from where the first ended. */
  lemma {:induction false} ScanAppend(start: Candidate, a: seq<Candidate>, b: seq<Candidate>)
    ensures Scan(start, a + b) == Scan(Scan(start, a), b)
    decreases |b|
  {
    if b == [] {
      assert a + b == a;
    } else {
      assert (a + b)[..|a + b| - 1] == a + b[..|b| - 1];
      assert (a + b)[|a + b| - 1] == b[|b| - 1];
      ScanAppend(start, a, b[..|b| - 1]);
    }
  }

  /** pickTop1Move. */
  method PickTop1Move(summary: Option<Json>) returns (move: string)
    ensures move == TopMove(summary)
  {
    if !Truthy(summary) || !IsObject(summary.value) {
      return DefaultFallback.topMove;
    }
    var s := summary.value;
    var leaks := ArrayItems(Get(s, "frame_leaks"));
    var rights := ArrayItems(Get(s, "doing_right"));
    var best := ConsiderAll(leaks, Fix, Nobody);
    best := ConsiderAll(rights, Amplify, best);
    ScanAppend(Nobody, Candidates(leaks, Fix), Candidates(rights, Amplify));
    move := if best.text != "" then best.text else DefaultFallback.topMove;
  }

  lemma PlainTrim(t: string)
    requires |t| > 0 && !IsSpace(t[0]) && !IsSpace(t[|t| - 1])
    ensures Trim(t) == t
  {
    TrimStartFixed(t);
    TrimEndFixed(t);
  }

  /** A fix or amplify that is already trimmed is its item's text. */
  lemma ExampleCandidate(text: string, key: string, impact: string, points: real, src: Source)
    requires |text| > 0 && !IsSpace(text[0]) && !IsSpace(text[|text| - 1])
    requires (src == Fix && key == "fix") || (src == Amplify && key == "amplify")
    ensures CandidateOf(JObj(map[key := JStr(text), "impact" := JStr(impact), "points" := JNum(Real(points))]), src)
         == Candidate(text, ImpactRank(Some(JStr(impact))), Real(points))
  {
    PlainTrim(text);
  }

  /** Of two HIGH candidates with equal points the first stays; a MEDIUM one with more points
      does not replace it. */
  lemma ExampleScan(c1: Candidate, c2: Candidate, c3: Candidate)
    requires c1 == Candidate("Chin up", 3, Real(3.0)) && c2 == Candidate("Later", 3, Real(3.0))
    requires c3 == Candidate("Smile", 2, Real(9.0))
    ensures Scan(Nobody, [c1, c2, c3]) == c1
  {
    assert [c1, c2, c3][..2] == [c1, c2] && [c1, c2][..1] == [c1] && [c1][..0] == [];
    assert Scan(Nobody, [c1]) == c1;
    assert Scan(Nobody, [c1, c2]) == c1;
  }

  /** A HIGH fix beats a MEDIUM amplify with more points, and of two equal fixes the first
      wins. */
  lemma TopMoveExample()
    ensures var leak := JObj(map["fix" := JStr("Chin up"), "impact" := JStr("HIGH"), "points" := JNum(Real(3.0))]);
            var same := JObj(map["fix" := JStr("Later"), "impact" := JStr("HIGH"), "points" := JNum(Real(3.0))]);
            var amp := JObj(map["amplify" := JStr("Smile"), "impact" := JStr("MEDIUM"), "points" := JNum(Real(9.0))]);
            TopMove(Some(JObj(map["frame_leaks" := JArr([leak, same]), "doing_right" := JArr([amp])]))) == "Chin up"
  {
    var leak := JObj(map["fix" := JStr("Chin up"), "impact" := JStr("HIGH"), "points" := JNum(Real(3.0))]);
    var same := JObj(map["fix" := JStr("Later"), "impact" := JStr("HIGH"), "points" := JNum(Real(3.0))]);
    var amp := JObj(map["amplify" := JStr("Smile"), "impact" := JStr("MEDIUM"), "points" := JNum(Real(9.0))]);
    ExampleCandidate("Chin up", "fix", "HIGH", 3.0, Fix);
    ExampleCandidate("Later", "fix", "HIGH", 3.0, Fix);
    ExampleCandidate("Smile", "amplify", "MEDIUM", 9.0, Amplify);
    SummaryLists([leak, same], [amp]);
    ExampleCandidates(leak, same, amp);
    ExampleScan(CandidateOf(leak, Fix), CandidateOf(same, Fix), CandidateOf(amp, Amplify));
  }

  /** A summary object holding the two lists gives them back. */
  lemma SummaryLists(leaks: seq<Json>, rights: seq<Json>)
    ensures var s := JObj(map["frame_leaks" := JArr(leaks), "doing_right" := JArr(rights)]);
      Truthy(Some(s)) && IsObject(s) &&
      ArrayItems(Get(s, "frame_leaks")) == leaks && ArrayItems(Get(s, "doing_right")) == rights
  {
  }

  /** Two leaks and one right give three candidates in that order. */
  lemma ExampleCandidates(leak: Json, same: Json, amp: Json)
    ensures Candidates([leak, same], Fix) + Candidates([amp], Amplify) ==
            [CandidateOf(leak, Fix), CandidateOf(same, Fix), CandidateOf(amp, Amplify)]
  {
    assert Candidates([leak, same], Fix) == [CandidateOf(leak, Fix), CandidateOf(same, Fix)];
    assert Candidates([amp], Amplify) == [CandidateOf(amp, Amplify)];
  }

  // ---------------------------------------------------------------- normalizeFrameMogResult

  /** The synthetic v2 result built from a v1 result. */
  function Synthetic(o: Json): FrameMog {
    var currentScore := SafeNum(Get(o, "current_score"), 50.0);
    FrameMog("unknown", currentScore, MinR(currentScore + 15.0, 95.0), Derive(currentScore),
             FitInsights(V1Insights(Get(o, "ai_summary"))), TopMove(Get(o, "ai_summary")))
  }

  /** normalizeFrameMogResult. */
  function Normalize(input: Json): FrameMog {
    if !Truthy(Some(input)) || !IsObject(input) then Sanitize(ToJson(DefaultFallback))
    else if IsPresent(Get(input, "result_v2")) then
      Sanitize(ToJson(Validate(Get(input, "result_v2").value)))
    else Sanitize(ToJson(Synthetic(input)))
  }

  /** normalizeFrameMogResult, calling the loop-based helpers. */
  method NormalizeFrameMogResult(input: Json) returns (r: FrameMog)
    ensures r == Normalize(input)
  {
    if !Truthy(Some(input)) || !IsObject(input) {
      r := SanitizeFrameMog(ToJson(DefaultFallback));
      return;
    }
    var resultV2 := Get(input, "result_v2");
    if IsPresent(resultV2) {
      var validated := Validate(resultV2.value);
      r := SanitizeFrameMog(ToJson(validated));
      return;
    }
    var synthetic := SyntheticResult(input);
    r := SanitizeFrameMog(ToJson(synthetic));
  }

  /** The v1 branch of normalizeFrameMogResult up to the sanitiser. */
  method SyntheticResult(input: Json) returns (synthetic: FrameMog)
    ensures synthetic == Synthetic(input)
  {
    var currentScore := SafeNum(Get(input, "current_score"), 50.0);
    var potentialScore := MinR(currentScore + 15.0, 95.0);
    var insights := CollectV1Insights(Get(input, "ai_summary"));
    var trimmed := FitInsights(insights);
    var breakdown := DeriveScoreBreakdown(currentScore);
    var move := PickTop1Move(Get(input, "ai_summary"));
    synthetic := FrameMog("unknown", currentScore, potentialScore, breakdown, trimmed, move);
  }

  /** The default fallback is sane, so it comes out of the sanitiser unchanged. */
  lemma DefaultFallbackSane()
    ensures Sane(DefaultFallback)
    ensures Sanitize(ToJson(DefaultFallback)) == DefaultFallback
  {
    var b := DefaultFallback.breakdown;
    assert b.Keys == KeySet;
    assert Mean(b) == 50.0;
    RoundOfInt(50);
    SanitizeFixesSane(DefaultFallback);
  }

  /** Whatever the input, the result satisfies every invariant of the sanitiser; a non-object
      gives the default fallback. */
  lemma NormalizeSane(input: Json)
    ensures Sane(Normalize(input))
    ensures !Truthy(Some(input)) || !IsObject(input) ==> Normalize(input) == DefaultFallback
  {
    DefaultFallbackSane();
    if Truthy(Some(input)) && IsObject(input) {
      if IsPresent(Get(input, "result_v2")) {
        SanitizeProperties(ToJson(Validate(Get(input, "result_v2").value)));
      } else {
        SanitizeProperties(ToJson(Synthetic(input)));
      }
    }
  }

  /** A present result_v2 decides the output alone: it is the sanitised result_v2. */
  lemma NormalizeV2(input: Json)
    requires Truthy(Some(input)) && IsObject(input) && IsPresent(Get(input, "result_v2"))
    ensures Normalize(input) == Sanitize(Get(input, "result_v2").value)
  {
    SanitizeValidated(Get(input, "result_v2").value);
  }

  lemma SyntheticShaped(o: Json)
    ensures Shaped(Synthetic(o))
    ensures Validate(ToJson(Synthetic(o))) == Synthetic(o)
  {
    DeriveProperties(SafeNum(Get(o, "current_score"), 50.0));
    ValidateToJson(Synthetic(o));
  }

  /** The v1 path: photo type "unknown", overall the safe current score (50 when it is missing),
      which the consistency rule keeps; potential min(overall + 15, 95), raised to overall; the
      derived breakdown; the collected insights cut or padded to 3–6; the picked top move. */
  lemma NormalizeV1(input: Json)
    requires Truthy(Some(input)) && IsObject(input) && !IsPresent(Get(input, "result_v2"))
    ensures var r := Normalize(input);
            var cs := SafeNum(Get(input, "current_score"), 50.0);
      && r.photoType == "unknown"
      && r.overall == cs
      && r.potential == MaxR(cs, MinR(cs + 15.0, 95.0))
      && r.breakdown == Derive(cs)
      && r.insights == FitInsights(V1Insights(Get(input, "ai_summary")))
      && r.topMove == TopMove(Get(input, "ai_summary"))
  {
    var cs := SafeNum(Get(input, "current_score"), 50.0);
    var v := Synthetic(input);
    assert v.overall == cs && v.potential == MinR(cs + 15.0, 95.0) && v.breakdown == Derive(cs);
    assert Normalize(input) == Sanitize(ToJson(v));
    SyntheticShaped(input);
    V1Result(v);
    var r := Normalize(input);
    assert r == v.(potential := MaxR(cs, v.potential));
    assert r.insights == v.insights && r.topMove == v.topMove && r.photoType == "unknown";
  }

  /** A shaped result whose overall is a whole score in [0, 100], whose potential is
      min(overall + 15, 95) and whose breakdown is derived from overall comes out of the
      sanitiser with only the potential raised to overall. */
  lemma V1Result(v: FrameMog)
    requires 0.0 <= v.overall <= 100.0 && v.overall == v.overall.Floor as real
    requires v.potential == MinR(v.overall + 15.0, 95.0) && v.breakdown == Derive(v.overall)
    requires Shaped(v) && Validate(ToJson(v)) == v
    ensures Sanitize(ToJson(v)) == v.(potential := MaxR(v.overall, v.potential))
  {
    SanitizeShaped(v);
    DeriveClamped(v.overall);
    DeriveKeepsOverall(v);
    PotentialOfV1(v);
  }

  /** The v1 potential min(overall + 15, 95), floored at overall, is never capped. */
  lemma PotentialOfV1(v: FrameMog)
    requires 0.0 <= v.overall <= 100.0 && v.potential == MinR(v.overall + 15.0, 95.0)
    ensures BoundedPotential(v, v.overall) == MaxR(v.overall, v.potential)
  {
  }

  /** The derived breakdown is already clamped. */
  lemma DeriveClamped(x: real)
    ensures ClampAll(Derive(x)) == Derive(x)
  {
    DeriveProperties(x);
    ClampAllFixes(Derive(x));
  }

  lemma RoundNear(c: real, m: real)
    requires c - 1.0 <= m <= c + 4.0
    ensures AbsR(c - Round(m) as real) <= 12.0
  {
  }

  /** The consistency rule keeps a whole score in [0, 100] whose derived breakdown is the
      breakdown. */
  lemma DeriveKeepsOverall(v: FrameMog)
    requires 0.0 <= v.overall <= 100.0 && v.overall == v.overall.Floor as real
    requires v.breakdown == Derive(v.overall)
    ensures ConsistentOverall(v) == v.overall
  {
    var cs := v.overall;
    DeriveMeanNearBase(cs);
    RoundOfInt(cs.Floor);
    assert Base(cs) as real == cs;
    RoundNear(cs, Mean(v.breakdown));
  }
}
