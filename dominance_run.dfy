/**
 * The dominance runner (src/lib/runDominanceRanking.ts): asks the vision model for scores, checks
 * that the reply covers the requested labels, retries once with a stricter prompt, sanitises the
 * last reply and fills in the user's rank. The model is not called here: each call is a given
 * reply, and JSON.parse is a given function that returns None where it would throw.
 */
module DominanceRun {
  import opened Js
  import opened Json
  import StableSort
  import opened DominanceSchema
  import JsonExtract

  // ---------------------------------------------------------------- matchesLabels

  /** The trimmed labels of the people, in order. */
  function TrimmedNames(people: seq<Person>): (r: seq<string>)
    ensures |r| == |people| && forall i :: 0 <= i < |people| ==> r[i] == Trim(people[i].name)
  {
    seq(|people|, i requires 0 <= i < |people| => Trim(people[i].name))
  }

  function TrimAll(ss: seq<string>): (r: seq<string>)
    ensures |r| == |ss| && forall i :: 0 <= i < |ss| ==> r[i] == Trim(ss[i])
  {
    seq(|ss|, i requires 0 <= i < |ss| => Trim(ss[i]))
  }

  /** matchesLabels: as many people as labels, and every trimmed label among the people's trimmed
      labels. */
  predicate MatchesLabels(result: Dominance, labels: seq<string>) {
    |result.people| == |labels| &&
    forall i :: 0 <= i < |labels| ==> Trim(labels[i]) in TrimmedNames(result.people)
  }

  predicate Distinct(s: seq<string>) {
    forall i, j :: 0 <= i < j < |s| ==> s[i] != s[j]
  }

  /** A sequence of distinct strings has as many elements as its set. */
  lemma {:induction false} DistinctCard(s: seq<string>)
    requires Distinct(s)
    ensures |set x | x in s| == |s|
    decreases |s|
  {
    if s != [] {
      var init := s[..|s| - 1];
      var last := s[|s| - 1];
      DistinctCard(init);
      assert (set x | x in s) == (set x | x in init) + {last} by {
        assert s == init + [last];
      }
      assert last !in init;
    }
  }

  /** With distinct trimmed labels on both sides, matchesLabels says the two label sets are
      equal. */
  lemma MatchesLabelsExact(result: Dominance, labels: seq<string>)
    requires UniqueLabels(result.people) && Distinct(TrimAll(labels))
    ensures MatchesLabels(result, labels) <==>
      |result.people| == |labels| &&
      (set x | x in TrimAll(labels)) == (set x | x in TrimmedNames(result.people))
  {
    if MatchesLabels(result, labels) {
      MatchesLabelsSets(result, labels);
    }
    var a := set x | x in TrimAll(labels);
    if |result.people| == |labels| && a == set x | x in TrimmedNames(result.people) {
      forall i | 0 <= i < |labels| ensures Trim(labels[i]) in TrimmedNames(result.people) {
        assert TrimAll(labels)[i] in a;
      }
    }
  }

  /** Matching labels, both sides distinct, have the same set. */
  lemma MatchesLabelsSets(result: Dominance, labels: seq<string>)
    requires UniqueLabels(result.people) && Distinct(TrimAll(labels))
    requires MatchesLabels(result, labels)
    ensures (set x | x in TrimAll(labels)) == (set x | x in TrimmedNames(result.people))
  {
    var names := TrimmedNames(result.people);
    var a := set x | x in TrimAll(labels);
    var b := set x | x in names;
    DistinctCard(TrimAll(labels));
    assert Distinct(names);
    DistinctCard(names);
    forall x | x in a ensures x in b {
      var i :| 0 <= i < |labels| && TrimAll(labels)[i] == x;
    }
    SubsetSameSize(a, b);
  }

  /** A subset as large as its superset is the whole of it. */
  lemma SubsetSameSize<T>(a: set<T>, b: set<T>)
    requires a <= b && |a| == |b|
    ensures a == b
  {
    assert b == a + (b - a) && a * (b - a) == {};
    assert b - a == {};
  }

  /** matchesLabels reads only the labels, so spreading the scores does not change it. */
  lemma MatchesLabelsSpread(result: Dominance, labels: seq<string>)
    requires ScoresInRange(result.people)
    ensures MatchesLabels(result.(people := Spread(result.people)), labels) == MatchesLabels(result, labels)
  {
    SpreadProperties(result.people);
    assert TrimmedNames(Spread(result.people)) == TrimmedNames(result.people);
  }

  // ---------------------------------------------------------------- computeUserRank

  /** The people in a stable sort by descending score. */
  function SortedDesc(people: seq<Person>): seq<Person> {
    StableSort.SortBy(people, ByScoreDesc)
  }

  /** findIndex of the first person whose label key is `key`, or -1. */
  function FindLabel(people: seq<Person>, key: string): (r: int)
    ensures -1 <= r < |people|
    ensures r >= 0 ==> LabelKey(people[r].name) == key
    ensures forall k :: 0 <= k < |people| && (r == -1 || k < r) ==> LabelKey(people[k].name) != key
  {
    if people == [] then -1
    else if LabelKey(people[0].name) == key then 0
    else
      var k := FindLabel(people[1..], key);
      if k == -1 then -1 else k + 1
  }

  /** computeUserRank: null for a missing or blank label, otherwise the 1-based position of the
      first person with that label (trimmed, lower-cased) in the descending sort, or null. */
  function ComputeUserRank(people: seq<Person>, userLabel: Option<string>): Option<int> {
    if userLabel.None? || Trim(userLabel.value) == "" then None
    else
      var idx := FindLabel(SortedDesc(people), LabelKey(userLabel.value));
      if idx >= 0 then Some(idx + 1) else None
  }

  /** The rank is present exactly when the label is not blank and some person carries it; it then
      lies in [1, n], the person at that place of the descending sort carries the label, nobody
      before does, and everybody before scores at least as high. */
  lemma UserRankProperties(people: seq<Person>, userLabel: Option<string>)
    ensures var r := ComputeUserRank(people, userLabel);
      && (r.Some? <==> userLabel.Some? && Trim(userLabel.value) != "" &&
                       exists i :: 0 <= i < |people| && LabelKey(people[i].name) == LabelKey(userLabel.value))
      && (r.Some? ==>
            var sorted := SortedDesc(people);
            var k := r.value - 1;
            && 1 <= r.value <= |people|
            && LabelKey(sorted[k].name) == LabelKey(userLabel.value)
            && (forall j :: 0 <= j < k ==> LabelKey(sorted[j].name) != LabelKey(userLabel.value))
            && (forall j :: 0 <= j < k ==> sorted[j].score >= sorted[k].score))
  {
    UserRankPresent(people, userLabel);
    UserRankPlace(people, userLabel);
  }

  /** The rank is present exactly when the label is not blank and some person carries it. */
  lemma UserRankPresent(people: seq<Person>, userLabel: Option<string>)
    ensures var r := ComputeUserRank(people, userLabel);
      r.Some? <==> userLabel.Some? && Trim(userLabel.value) != "" &&
                   exists i :: 0 <= i < |people| && LabelKey(people[i].name) == LabelKey(userLabel.value)
  {
    var sorted := SortedDesc(people);
    if userLabel.Some? && Trim(userLabel.value) != "" {
      var key := LabelKey(userLabel.value);
      if i :| 0 <= i < |people| && LabelKey(people[i].name) == key {
        assert people[i] in multiset(sorted);
        var k :| 0 <= k < |sorted| && sorted[k] == people[i];
      }
      if FindLabel(sorted, key) >= 0 {
        var k := FindLabel(sorted, key);
        assert sorted[k] in multiset(people);
        var i :| 0 <= i < |people| && people[i] == sorted[k];
      }
    }
  }

  /** A present rank is the 1-based place of the first person carrying the label in the
      descending sort, and everybody before scores at least as high. */
  lemma UserRankPlace(people: seq<Person>, userLabel: Option<string>)
    ensures var r := ComputeUserRank(people, userLabel);
      r.Some? ==>
        var sorted := SortedDesc(people);
        var k := r.value - 1;
        && 1 <= r.value <= |people|
        && LabelKey(sorted[k].name) == LabelKey(userLabel.value)
        && (forall j :: 0 <= j < k ==> LabelKey(sorted[j].name) != LabelKey(userLabel.value))
        && (forall j :: 0 <= j < k ==> sorted[j].score >= sorted[k].score)
  {
    var sorted := SortedDesc(people);
    StableSort.SortBySorted(people, ByScoreDesc);
    SortedByScoreDesc(sorted);
  }

  lemma PersonKey(n: string, k: string)
    requires |n| == 8 && n[..7] == "Person " && 'A' <= n[7] <= 'Z'
    requires k == "person " + [LowerChar(n[7])]
    ensures LabelKey(n) == k
  {
    TrimStartFixed(n);
    TrimEndFixed(n);
  }

  lemma DefaultSortedDesc()
    ensures SortedDesc(DefaultPeople) == DefaultPeople
  {
    assert StableSort.SortedBy(DefaultPeople, ByScoreDesc);
    StableSort.SortBySortedIdentity(DefaultPeople, ByScoreDesc);
  }

  lemma FindPersonC()
    ensures FindLabel(DefaultPeople, "person c") == 2
  {
    var p := DefaultPeople;
    PersonKey(p[0].name, "person a");
    PersonKey(p[1].name, "person b");
    PersonKey(p[2].name, "person c");
    assert p[1..][0] == p[1] && p[1..][1..][0] == p[2];
    assert FindLabel(p[1..][1..], "person c") == 0;
    assert FindLabel(p[1..], "person c") == 1;
  }

  lemma KeyOfPersonC()
    ensures Trim(" person c") == "person c"
    ensures LabelKey(" person c") == "person c"
  {
    var t := " person c";
    assert t[1..] == "person c";
    assert TrimStart(t) == TrimStart("person c");
    TrimStartFixed("person c");
    TrimEndFixed("person c");
    assert ToLower("person c") == "person c";
  }

  /** In the default result, " person c" is third. */
  lemma UserRankExample()
    ensures ComputeUserRank(DefaultPeople, Some(" person c")) == Some(3)
  {
    DefaultSortedDesc();
    KeyOfPersonC();
    FindPersonC();
  }

  // ---------------------------------------------------------------- isFallbackResult

  /** isFallbackResult: as many people as the default, with the default's labels in order. */
  predicate IsFallbackResult(result: Dominance) {
    |result.people| == |DefaultPeople| &&
    forall i :: 0 <= i < |result.people| ==> result.people[i].name == DefaultPeople[i].name
  }

  /** The default result is recognised, and so is every reply that names five people Person A to
      Person E in that order, whatever their scores. */
  lemma IsFallbackResultCases(result: Dominance)
    ensures IsFallbackResult(DefaultFallback)
    ensures |result.people| == 5 &&
            (forall i :: 0 <= i < 5 ==> result.people[i].name == "Person " + [(65 + i) as char]) ==>
            IsFallbackResult(result)
    ensures |result.people| != 5 ==> !IsFallbackResult(result)
  {
  }

  // ---------------------------------------------------------------- runVision and the run

  /** runVision: a reply that threw or is blank validates `null`; otherwise the extracted JSON is
      validated, and a validated reply that covers the labels and is not the fallback gets its
      missing rank computed from its own user label. */
  function RunVision(reply: JsonExtract.VisionReply, labels: seq<string>, parse: string -> Option<Json>): Dominance {
    match reply
    case Threw => Validate(JNull)
    case Answered(content) =>
      var raw := if content.Some? then Trim(content.value) else "";
      if raw == "" then Validate(JNull)
      else
        var validated := Validate(JsonExtract.ParseOrNull(parse, JsonExtract.Extract(raw)));
        if !MatchesLabels(validated, labels) || IsFallbackResult(validated) then validated
        else
          var rank := if validated.userRank.None? && validated.userLabel.Some? && validated.userLabel.value != ""
                      then ComputeUserRank(validated.people, validated.userLabel)
                      else validated.userRank;
          validated.(userRank := if rank.Some? then rank else validated.userRank)
  }

  /** Every attempt is well formed. */
  lemma RunVisionWellFormed(reply: JsonExtract.VisionReply, labels: seq<string>, parse: string -> Option<Json>)
    ensures WellFormed(RunVision(reply, labels, parse))
  {
    ValidateProperties(JNull);
    if reply.Answered? {
      var raw := if reply.content.Some? then Trim(reply.content.value) else "";
      if raw != "" {
        var validated := Validate(JsonExtract.ParseOrNull(parse, JsonExtract.Extract(raw)));
        ValidateProperties(JsonExtract.ParseOrNull(parse, JsonExtract.Extract(raw)));
        UserRankProperties(validated.people, validated.userLabel);
      }
    }
  }

  /** The outcome of a run: the result and how often vision was called. */
  datatype Outcome = Outcome(result: Dominance, visionCalls: nat)

  /** Whether a first attempt sends the runner to the retry prompt. */
  predicate NeedsRetry(r: Dominance, labels: seq<string>) {
    !MatchesLabels(r, labels) || IsFallbackResult(r)
  }

  /** The sanitised last attempt with the user fields completed. */
  function Finish(result: Dominance, userLabel: Option<string>): Dominance {
    var sanitized := Sanitize(ToJson(result));
    var hasLabel := (sanitized.userLabel.Some? && sanitized.userLabel.value != "") ||
                    (userLabel.Some? && userLabel.value != "");
    var rank := if sanitized.userRank.None? && hasLabel
                then ComputeUserRank(sanitized.people, if sanitized.userLabel.Some? then sanitized.userLabel else userLabel)
                else sanitized.userRank;
    sanitized.(userLabel := if sanitized.userLabel.Some? then sanitized.userLabel else userLabel,
               userRank := rank)
  }

  /** runDominanceRanking, given the replies of the first and of the retry call. */
  function Run(labels: seq<string>, userLabel: Option<string>, first: JsonExtract.VisionReply, second: JsonExtract.VisionReply,
               parse: string -> Option<Json>): Outcome {
    var r1 := RunVision(first, labels, parse);
    if NeedsRetry(r1, labels) then Outcome(Finish(RunVision(second, labels, parse), userLabel), 2)
    else Outcome(Finish(r1, userLabel), 1)
  }

  /** runDominanceRanking: one call, a second one when the first fails the label check or is the
      fallback, then sanitising and the user fields. */
  method RunDominanceRanking(labels: seq<string>, userLabel: Option<string>, first: JsonExtract.VisionReply,
                             second: JsonExtract.VisionReply, parse: string -> Option<Json>)
    returns (r: Dominance, visionCalls: nat)
    ensures Outcome(r, visionCalls) == Run(labels, userLabel, first, second, parse)
  {
    var result := RunVision(first, labels, parse);
    visionCalls := 1;
    if !MatchesLabels(result, labels) || IsFallbackResult(result) {
      result := RunVision(second, labels, parse);
      visionCalls := 2;
    }
    var sanitized := Sanitize(ToJson(result));
    var userRank := sanitized.userRank;
    if userRank.None? && ((sanitized.userLabel.Some? && sanitized.userLabel.value != "") ||
                          (userLabel.Some? && userLabel.value != "")) {
      userRank := ComputeUserRank(sanitized.people, if sanitized.userLabel.Some? then sanitized.userLabel else userLabel);
    }
    r := sanitized.(userLabel := if sanitized.userLabel.Some? then sanitized.userLabel else userLabel,
                    userRank := userRank);
  }

  /** What a run returns: the people of the sanitised last attempt (its labels, its scores spread);
      the user label of that attempt, or else the caller's; a rank that is absent or in
      [1, total]; and a label check that passes exactly when it passed on that attempt. */
  lemma FinishProperties(result: Dominance, userLabel: Option<string>, labels: seq<string>)
    requires WellFormed(result)
    ensures var f := Finish(result, userLabel);
      && f.people == Spread(result.people)
      && f.totalPeople == |f.people| == |result.people|
      && |f.people| >= 2 && UniqueLabels(f.people) && ScoresInRange(f.people)
      && f.userLabel == (if result.userLabel.Some? then result.userLabel else userLabel)
      && (result.userRank.Some? ==> f.userRank == result.userRank)
      && (f.userRank.Some? ==> 1 <= f.userRank.value <= f.totalPeople)
      && (MatchesLabels(f, labels) <==> MatchesLabels(result, labels))
  {
    FinishPeople(result, userLabel, labels);
    FinishUser(result, userLabel);
  }

  /** The finished people are the sanitised ones, and the label check is unchanged by it. */
  lemma FinishPeople(result: Dominance, userLabel: Option<string>, labels: seq<string>)
    requires WellFormed(result)
    ensures var f := Finish(result, userLabel);
      && f.people == Spread(result.people)
      && f.totalPeople == |f.people| == |result.people|
      && |f.people| >= 2 && UniqueLabels(f.people) && ScoresInRange(f.people)
      && (MatchesLabels(f, labels) <==> MatchesLabels(result, labels))
  {
    var s := Sanitize(ToJson(result));
    SanitizedResult(result);
    MatchesLabelsSpread(result, labels);
    FinishMatches(s, Finish(result, userLabel), labels);
  }

  /** The finished user label and rank: the result's own when it has them, else completed. */
  lemma FinishUser(result: Dominance, userLabel: Option<string>)
    requires WellFormed(result)
    ensures var f := Finish(result, userLabel);
      && f.userLabel == (if result.userLabel.Some? then result.userLabel else userLabel)
      && (result.userRank.Some? ==> f.userRank == result.userRank)
      && (f.userRank.Some? ==> 1 <= f.userRank.value <= f.totalPeople)
  {
    var s := Sanitize(ToJson(result));
    SanitizedResult(result);
    FinishRank(s, userLabel);
  }

  /** Sanitising a well-formed result spreads its scores and keeps its user fields. */
  lemma SanitizedResult(result: Dominance)
    requires WellFormed(result)
    ensures var s := Sanitize(ToJson(result));
      && s.people == Spread(result.people) && s.userLabel == result.userLabel && s.userRank == result.userRank
      && s.totalPeople == |s.people| == |result.people|
      && |s.people| >= 2 && UniqueLabels(s.people) && ScoresInRange(s.people)
      && (s.userRank.Some? ==> 1 <= s.userRank.value <= s.totalPeople)
  {
    SanitizeTyped(result);
    SanitizeProperties(ToJson(result));
  }

  lemma FinishRank(s: Dominance, userLabel: Option<string>)
    ensures var rank := ComputeUserRank(s.people, if s.userLabel.Some? then s.userLabel else userLabel);
            rank.Some? ==> 1 <= rank.value <= |s.people|
  {
    UserRankProperties(s.people, if s.userLabel.Some? then s.userLabel else userLabel);
  }

  lemma FinishMatches(s: Dominance, f: Dominance, labels: seq<string>)
    requires f.people == s.people
    ensures MatchesLabels(f, labels) == MatchesLabels(s, labels)
  {
  }

  /** Vision is called once, or twice exactly when the first attempt fails the label check or is
      the fallback; the result is the finished last attempt. */
  lemma RunProperties(labels: seq<string>, userLabel: Option<string>, first: JsonExtract.VisionReply,
                      second: JsonExtract.VisionReply, parse: string -> Option<Json>)
    ensures var o := Run(labels, userLabel, first, second, parse);
            var r1 := RunVision(first, labels, parse);
      && (o.visionCalls == 2 <==> NeedsRetry(r1, labels))
      && (o.visionCalls == 1 <==> !NeedsRetry(r1, labels))
      && o.result == Finish(if NeedsRetry(r1, labels) then RunVision(second, labels, parse) else r1, userLabel)
      && (o.result.userRank.Some? ==> 1 <= o.result.userRank.value <= o.result.totalPeople)
      && |o.result.people| >= 2 && UniqueLabels(o.result.people) && ScoresInRange(o.result.people)
  {
    var r1 := RunVision(first, labels, parse);
    RunVisionWellFormed(first, labels, parse);
    RunVisionWellFormed(second, labels, parse);
    FinishProperties(r1, userLabel, labels);
    FinishProperties(RunVision(second, labels, parse), userLabel, labels);
  }

  /** A first reply that throws always leads to the retry. */
  lemma ThrownFirstReplyRetries(labels: seq<string>, userLabel: Option<string>, second: JsonExtract.VisionReply,
                                parse: string -> Option<Json>)
    ensures Run(labels, userLabel, JsonExtract.Threw, second, parse).visionCalls == 2
  {
    ValidateProperties(JNull);
    IsFallbackResultCases(DefaultFallback);
  }
}
