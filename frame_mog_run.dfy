/**
 * The FrameMog v2 runner (src/lib/runFrameMogV2.ts): one vision call, a second one when the first
 * reply validates to the fallback, and the photography fallback when the second does too; the
 * result always goes through the sanitiser. The model is not called here: each call is a given
 * reply, and JSON.parse is a given function.
 */
module FrameMogRun {
  import opened Js
  import opened Json
  import opened FrameMogSchema
  import JsonExtract

  /** PHOTOGRAPHY_SAFE_FALLBACK: a low score with photography advice. */
  const PhotographySafeFallback: FrameMog :=
    FrameMog("unknown", 25.0, 50.0, AllMetrics(25.0),
             ["Image quality limits analysis. Use sharper focus and better lighting.",
              "Retake with the subject clearly visible and well-lit.",
              "Ensure the lens captures a readable face or full-frame subject."],
             "Retake with clearer focus and good lighting.")

  /** isValidationFallback: the default's photo type, overall score and first insight (an empty
      insight list has no first insight to match). */
  predicate IsValidationFallback(v: FrameMog) {
    v.photoType == DefaultFallback.photoType && v.overall == DefaultFallback.overall &&
    |v.insights| > 0 && v.insights[0] == DefaultFallback.insights[0]
  }

  /** The photography fallback is sane, so sanitising it changes nothing, and it is not taken for
      a validation fallback; the default fallback is. */
  lemma FallbacksRecognised()
    ensures Sane(PhotographySafeFallback)
    ensures Sanitize(ToJson(PhotographySafeFallback)) == PhotographySafeFallback
    ensures !IsValidationFallback(Sanitize(ToJson(PhotographySafeFallback)))
    ensures IsValidationFallback(DefaultFallback)
  {
    var b := PhotographySafeFallback.breakdown;
    assert b.Keys == KeySet;
    assert Mean(b) == 25.0;
    RoundOfInt(25);
    SanitizeFixesSane(PhotographySafeFallback);
  }

  /** runVision: a reply that threw or is blank validates `null`; otherwise the extracted JSON is
      validated. */
  function RunVision(reply: JsonExtract.VisionReply, parse: string -> Option<Json>): FrameMog {
    match reply
    case Threw => Validate(JNull)
    case Answered(content) =>
      var raw := if content.Some? then Trim(content.value) else "";
      if raw == "" then Validate(JNull)
      else Validate(JsonExtract.ParseOrNull(parse, JsonExtract.Extract(raw)))
  }

  /** A reply that threw, is blank or does not validate is a validation fallback. */
  lemma FailedReplyIsFallback(reply: JsonExtract.VisionReply, parse: string -> Option<Json>)
    ensures reply.Threw? ==> IsValidationFallback(RunVision(reply, parse))
    ensures reply.Answered? && (reply.content.None? || Trim(reply.content.value) == "") ==>
            IsValidationFallback(RunVision(reply, parse))
    ensures reply.Answered? && reply.content.Some? && Trim(reply.content.value) != "" &&
            !IsFrameMog(JsonExtract.ParseOrNull(parse, JsonExtract.Extract(Trim(reply.content.value)))) ==>
            IsValidationFallback(RunVision(reply, parse))
  {
    ValidateProperties(JNull);
    if reply.Answered? && reply.content.Some? && Trim(reply.content.value) != "" {
      ValidateProperties(JsonExtract.ParseOrNull(parse, JsonExtract.Extract(Trim(reply.content.value))));
    }
  }

  datatype Outcome = Outcome(result: FrameMog, visionCalls: nat)

  /** runFrameMogV2, given the replies of the first and of the second call. */
  function Run(first: JsonExtract.VisionReply, second: JsonExtract.VisionReply, parse: string -> Option<Json>): Outcome {
    var r1 := RunVision(first, parse);
    if !IsValidationFallback(r1) then Outcome(Sanitize(ToJson(r1)), 1)
    else
      var r2 := RunVision(second, parse);
      var result := if IsValidationFallback(r2) then Sanitize(ToJson(PhotographySafeFallback)) else r2;
      Outcome(Sanitize(ToJson(result)), 2)
  }

  /** runFrameMogV2: reassigns the attempt's result as the source does. */
  method RunFrameMogV2(first: JsonExtract.VisionReply, second: JsonExtract.VisionReply, parse: string -> Option<Json>)
    returns (r: FrameMog, visionCalls: nat)
    ensures Outcome(r, visionCalls) == Run(first, second, parse)
  {
    var result := RunVision(first, parse);
    visionCalls := 1;
    if IsValidationFallback(result) {
      result := RunVision(second, parse);
      visionCalls := 2;
      if IsValidationFallback(result) {
        result := SanitizeFrameMog(ToJson(PhotographySafeFallback));
      }
    }
    r := SanitizeFrameMog(ToJson(result));
  }

  /** Vision is called once, or twice exactly when the first reply is a validation fallback; when
      the second is one too the result is the photography fallback; otherwise the result is the
      sanitised reply that was used. Whatever the replies, the result is sane. */
  lemma RunProperties(first: JsonExtract.VisionReply, second: JsonExtract.VisionReply, parse: string -> Option<Json>)
    ensures var o := Run(first, second, parse);
            var r1 := RunVision(first, parse);
            var r2 := RunVision(second, parse);
      && (o.visionCalls == 2 <==> IsValidationFallback(r1))
      && (o.visionCalls == 1 <==> !IsValidationFallback(r1))
      && (!IsValidationFallback(r1) ==> o.result == Sanitize(ToJson(r1)))
      && (IsValidationFallback(r1) && !IsValidationFallback(r2) ==> o.result == Sanitize(ToJson(r2)))
      && (IsValidationFallback(r1) && IsValidationFallback(r2) ==> o.result == PhotographySafeFallback)
      && Sane(o.result)
  {
    FallbacksRecognised();
    SanitizeProperties(ToJson(RunVision(first, parse)));
    SanitizeProperties(ToJson(RunVision(second, parse)));
  }
}
