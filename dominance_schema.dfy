/**
 * The dominance-ranking result and its guards (src/lib/dominanceSchema.ts): validation of an
 * untyped model reply, score clamping, the deterministic spread of identical scores, and the
 * hash-based offline fallback. Every entry point returns a well-formed result or the fixed
 * fallback; none fails.
 */
module DominanceSchema {
  import opened Js
  import opened Json
  import StableSort

  /** A DominancePerson; `name` is the source's `label`. */
  datatype Person = Person(name: string, score: int)

  /** A DominanceResult; None stands for null. */
  datatype Dominance = Dominance(people: seq<Person>, userLabel: Option<string>, userRank: Option<int>,
                                 totalPeople: int)

  // ---------------------------------------------------------------- hashString

  const Two31: int := 0x8000_0000
  const Two32: int := 0x1_0000_0000

  /** ECMAScript ToInt32: the 32-bit two's-complement integer congruent to x modulo 2^32. */
  function ToInt32(x: int): (r: int)
    ensures -Two31 <= r < Two31
    ensures (x - r) % Two32 == 0
  {
    (x + Two31) % Two32 - Two31
  }

  lemma ToInt32Congruent(x: int, y: int)
    requires (x - y) % Two32 == 0
    ensures ToInt32(x) == ToInt32(y)
  {
    var k := (x - y) / Two32;
    assert x + Two31 == (y + Two31) + k * Two32;
  }

  /** One step of the hash: `(h << 5) - h + c`, then `h & h`, amounts to ToInt32(31 h + c). */
  lemma HashStepWraps(h: int, c: int)
    ensures ToInt32(ToInt32(h * 32) - h + c) == ToInt32(31 * h + c)
  {
    var t := ToInt32(h * 32);
    assert (h * 32 - t) % Two32 == 0;
    assert ((t - h + c) - (31 * h + c)) == t - h * 32;
    assert (t - h * 32) % Two32 == 0 by {
      var k := (h * 32 - t) / Two32;
      assert t - h * 32 == (-k) * Two32;
    }
    ToInt32Congruent(t - h + c, 31 * h + c);
  }

  /** The UTF-16 code units of one character, as `charCodeAt` sees them: one unit below
      0x10000, otherwise a high and a low surrogate that together give the character back. */
  function Utf16(c: char): (r: seq<int>)
    ensures 1 <= |r| <= 2
    ensures forall i | 0 <= i < |r| :: 0 <= r[i] < 0x10000
    ensures c as int < 0x10000 ==> r == [c as int]
    ensures c as int >= 0x10000 ==>
      && |r| == 2 && 0xD800 <= r[0] < 0xDC00 && 0xDC00 <= r[1] < 0xE000
      && 0x10000 + (r[0] - 0xD800) * 0x400 + (r[1] - 0xDC00) == c as int
  {
    var n := c as int;
    if n < 0x10000 then [n]
    else [0xD800 + (n - 0x10000) / 0x400, 0xDC00 + (n - 0x10000) % 0x400]
  }

  /** The UTF-16 code units of s, the sequence a JavaScript string is made of. */
  function CodeUnits(s: string): (r: seq<int>)
    ensures |r| >= |s|
    ensures forall i | 0 <= i < |r| :: 0 <= r[i] < 0x10000
  {
    if s == [] then [] else CodeUnits(s[..|s| - 1]) + Utf16(s[|s| - 1])
  }

  /** A string of characters below 0x10000 has one code unit per character. */
  lemma {:induction false} CodeUnitsBasic(s: string)
    requires forall i | 0 <= i < |s| :: s[i] as int < 0x10000
    ensures |CodeUnits(s)| == |s|
    ensures forall i | 0 <= i < |s| :: CodeUnits(s)[i] == s[i] as int
    decreases |s|
  {
    if s != [] {
      CodeUnitsBasic(s[..|s| - 1]);
    }
  }

  /** The integer hash of a sequence of code units: h = ToInt32(31 h + unit), from h = 0. */
  function Hash(units: seq<int>): int
  {
    if units == [] then 0 else ToInt32(31 * Hash(units[..|units| - 1]) + units[|units| - 1])
  }

  function Abs(x: int): nat {
    if x < 0 then -x else x
  }

  /** The fraction hashString returns. */
  function HashFraction(s: string): real {
    Abs(Hash(CodeUnits(s))) as real / 2147483647.0
  }

  /** hashString: the loop with the shift and the self-and. The fraction lies in [0, 1], except
      that h = -2^31 gives 2147483648 / 2147483647, just above 1. */
  method HashString(s: string) returns (fraction: real)
    ensures fraction == HashFraction(s)
    ensures 0.0 <= fraction <= 2147483648.0 / 2147483647.0
  {
    var units := CodeUnits(s);
    var h := 0;
    for i := 0 to |units|
      invariant h == Hash(units[..i])
    {
      HashStepWraps(h, units[i]);
      h := ToInt32(ToInt32(h * 32) - h + units[i]);
      assert units[..i + 1][..i] == units[..i];
    }
    assert units[..|units|] == units;
    fraction := Abs(h) as real / 2147483647.0;
  }

  // ---------------------------------------------------------------- fallback

  /** The score generateFallbackDominance gives a label. */
  function FallbackScore(analysisId: string, name: string): (score: int)
    ensures 40 <= score <= 80
  {
    Max(40, Min(80, 40 + Floor(HashFraction(analysisId + name) * 41.0)))
  }

  /** The comparator `b.dominance_score - a.dominance_score`: higher scores first. */
  function ByScoreDesc(p: Person): StableSort.Key {
    (-(p.score as real), 0.0)
  }

  predicate NonIncreasing(people: seq<Person>) {
    forall i, j :: 0 <= i < j < |people| ==> people[i].score >= people[j].score
  }

  lemma SortedByScoreDesc(people: seq<Person>)
    requires StableSort.SortedBy(people, ByScoreDesc)
    ensures NonIncreasing(people)
  {
    forall i, j | 0 <= i < j < |people| ensures people[i].score >= people[j].score {
      assert StableSort.KeyLe(ByScoreDesc(people[i]), ByScoreDesc(people[j]));
    }
  }

  function Scored(analysisId: string, labels: seq<string>): (r: seq<Person>)
    ensures |r| == |labels|
    ensures forall i :: 0 <= i < |labels| ==> r[i] == Person(labels[i], FallbackScore(analysisId, labels[i]))
  {
    seq(|labels|, i requires 0 <= i < |labels| => Person(labels[i], FallbackScore(analysisId, labels[i])))
  }

  /** generateFallbackDominance. */
  function GenerateFallback(analysisId: string, labels: seq<string>): Dominance {
    var sorted := StableSort.SortBy(Scored(analysisId, labels), ByScoreDesc);
    Dominance(sorted, None, None, |sorted|)
  }

  /** The fallback has one entry per label (a permutation of the label-score pairs), scores in
      [40, 80] that depend only on the analysis id and the label, sorted non-increasing with
      equal scores in label order; user fields null; total_people the number of labels. */
  lemma GenerateFallbackProperties(analysisId: string, labels: seq<string>)
    ensures var r := GenerateFallback(analysisId, labels);
      && multiset(r.people) == multiset(Scored(analysisId, labels))
      && |r.people| == |labels| == r.totalPeople
      && (forall i :: 0 <= i < |r.people| ==>
            r.people[i].score == FallbackScore(analysisId, r.people[i].name) &&
            40 <= r.people[i].score <= 80 && r.people[i].name in labels)
      && NonIncreasing(r.people)
      && (forall k :: StableSort.WithKey(r.people, ByScoreDesc, k) ==
                      StableSort.WithKey(Scored(analysisId, labels), ByScoreDesc, k))
      && r.userLabel.None? && r.userRank.None?
  {
    var scored := Scored(analysisId, labels);
    var r := GenerateFallback(analysisId, labels);
    StableSort.SortBySorted(scored, ByScoreDesc);
    SortedByScoreDesc(r.people);
    forall k ensures StableSort.WithKey(r.people, ByScoreDesc, k) == StableSort.WithKey(scored, ByScoreDesc, k) {
      StableSort.SortByStable(scored, ByScoreDesc, k);
    }
    forall i | 0 <= i < |r.people|
      ensures r.people[i].score == FallbackScore(analysisId, r.people[i].name) && r.people[i].name in labels
    {
      assert r.people[i] in multiset(scored);
      var j :| 0 <= j < |scored| && scored[j] == r.people[i];
    }
  }

  // ---------------------------------------------------------------- defaults and clamps

  const DefaultPeople: seq<Person> := [Person("Person A", 62), Person("Person B", 59),
    Person("Person C", 57), Person("Person D", 54), Person("Person E", 51)]

  /** DEFAULT_FALLBACK. */
  const DefaultFallback: Dominance := Dominance(DefaultPeople, None, None, |DefaultPeople|)

  /** clampScore on a real: the rounded value forced into [0, 100]. */
  function ClampReal(x: real): (r: int)
    ensures 0 <= r <= 100
    ensures 0 <= Round(x) <= 100 ==> r == Round(x)
    ensures Round(x) < 0 ==> r == 0
    ensures Round(x) > 100 ==> r == 100
  {
    RoundInto(x, 0, 100)
  }

  /** clampScore: 50 for a non-number or NaN. */
  function ClampScore(n: Option<Json>): (r: int)
    ensures 0 <= r <= 100
    ensures !IsFiniteNumber(n) ==> r == 50
    ensures IsFiniteNumber(n) ==> r == ClampReal(n.value.n.r)
  {
    if IsFiniteNumber(n) then ClampReal(n.value.n.r) else 50
  }

  lemma ClampRealOfScore(k: int)
    requires 0 <= k <= 100
    ensures ClampReal(k as real) == k
  {
    RoundOfInt(k);
  }

  // ---------------------------------------------------------------- spreadIdenticalScores

  /** The step spreadIdenticalScores uses for n people at score base. */
  function SpreadDelta(base: int, n: int): (d: int)
    requires 0 <= base <= 100
    ensures 1 <= d <= 4
  {
    var raw := (100 - base) / Max(1, n);
    Max(1, Min(4, if raw == 0 then 1 else raw))
  }

  predicate AllSame(people: seq<Person>) {
    forall i :: 0 <= i < |people| ==> ClampReal(people[i].score as real) == ClampReal(people[0].score as real)
  }

  /** spreadIdenticalScores. */
  function Spread(people: seq<Person>): seq<Person> {
    if |people| == 0 || !AllSame(people) then people
    else
      var base := ClampReal(ClampReal(people[0].score as real) as real);
      var delta := SpreadDelta(base, |people|);
      seq(|people|, i requires 0 <= i < |people| =>
        Person(people[i].name, Max(0, Min(100, base - i * delta))))
  }

  predicate ScoresInRange(people: seq<Person>) {
    forall i :: 0 <= i < |people| ==> 0 <= people[i].score <= 100
  }

  /** spreadIdenticalScores keeps labels and order; leaves people with differing scores alone;
      and when all scores equal base (scores already clamped), gives the i-th person
      max(0, base - i * delta), so the scores are non-increasing, strictly while positive. */
  lemma SpreadProperties(people: seq<Person>)
    requires ScoresInRange(people)
    ensures var r := Spread(people);
      && |r| == |people|
      && (forall i :: 0 <= i < |r| ==> r[i].name == people[i].name && 0 <= r[i].score <= 100)
      && ((exists i :: 0 <= i < |people| && people[i].score != people[0].score) ==> r == people)
      && ((forall i :: 0 <= i < |people| ==> people[i].score == people[0].score) && |people| > 0 ==>
            var base := people[0].score;
            forall i :: 0 <= i < |r| ==> r[i].score == Max(0, base - i * SpreadDelta(base, |people|)))
      && NonIncreasingIfSpread(people, r)
  {
    if |people| > 0 {
      AllSameIff(people);
      if AllSame(people) {
        SpreadScores(people);
        SpreadNonIncreasing(people);
      }
    }
  }

  /** With clamped scores, all scores clamp alike exactly when they are all equal. */
  lemma AllSameIff(people: seq<Person>)
    requires ScoresInRange(people) && |people| > 0
    ensures AllSame(people) <==> forall i :: 0 <= i < |people| ==> people[i].score == people[0].score
  {
    forall i | 0 <= i < |people| ensures ClampReal(people[i].score as real) == people[i].score {
      ClampRealOfScore(people[i].score);
    }
  }

  /** The i-th person of a spread of identical clamped scores keeps their name and scores
      max(0, base - i * delta). */
  lemma SpreadScores(people: seq<Person>)
    requires ScoresInRange(people) && |people| > 0 && AllSame(people)
    ensures var r := Spread(people);
      var base := people[0].score;
      && |r| == |people|
      && forall i :: 0 <= i < |r| ==>
           r[i].name == people[i].name && r[i].score == Max(0, base - i * SpreadDelta(base, |people|))
  {
    var base := people[0].score;
    ClampRealOfScore(base);
    assert ClampReal(ClampReal(base as real) as real) == base;
    var d := SpreadDelta(base, |people|);
    var r := Spread(people);
    forall i | 0 <= i < |r| ensures r[i].name == people[i].name && r[i].score == Max(0, base - i * d) {
      MulNonNegative(i, d);
      assert r[i] == Person(people[i].name, Max(0, Min(100, base - i * d)));
    }
  }

  lemma MulNonNegative(i: int, d: int)
    requires i >= 0 && d >= 0
    ensures i * d >= 0
  {
  }

  /** A spread of identical clamped scores is non-increasing, strictly while positive. */
  lemma SpreadNonIncreasing(people: seq<Person>)
    requires ScoresInRange(people) && |people| > 0 && AllSame(people)
    ensures NonIncreasingIfSpread(people, Spread(people))
  {
    var r := Spread(people);
    var base := people[0].score;
    var d := SpreadDelta(base, |people|);
    SpreadScores(people);
    forall i, j | 0 <= i < j < |r| ensures r[i].score >= r[j].score && (r[i].score > 0 ==> r[i].score > r[j].score) {
      MulLess(i, j, d);
    }
  }

  lemma MulLess(i: int, j: int, d: int)
    requires i < j && d >= 1
    ensures i * d < j * d
  {
    assert j * d - i * d == (j - i) * d;
  }

  /** After a spread of identical scores the result is non-increasing, strictly while positive. */
  predicate NonIncreasingIfSpread(people: seq<Person>, r: seq<Person>) {
    |people| > 0 && AllSame(people) ==>
      forall i, j :: 0 <= i < j < |r| ==> r[i].score >= r[j].score && (r[i].score > 0 ==> r[i].score > r[j].score)
  }

  /** Spreading is idempotent on clamped scores. */
  lemma SpreadIdempotent(people: seq<Person>)
    requires ScoresInRange(people)
    ensures Spread(Spread(people)) == Spread(people)
  {
    if |people| > 0 {
      AllSameIff(people);
      if AllSame(people) {
        var r := Spread(people);
        var base := people[0].score;
        SpreadScores(people);
        if base == 0 {
          assert forall i :: 0 <= i < |r| ==> r[i] == people[i];
          assert r == people;
        } else if |r| > 1 {
          SpreadProperties(people);
          assert r[0].score == base && r[1].score < base;
          AllSameIff(r);
          assert !AllSame(r);
        } else {
          assert r == [Person(people[0].name, base)] == people;
        }
      }
    }
  }

  /** Five people all at 70 spread to 70, 66, 62, 58, 54. */
  lemma SpreadFiveAtSeventy(a: string, b: string, c: string, d: string, e: string)
    ensures Spread([Person(a, 70), Person(b, 70), Person(c, 70), Person(d, 70), Person(e, 70)]) ==
            [Person(a, 70), Person(b, 66), Person(c, 62), Person(d, 58), Person(e, 54)]
  {
    var p := [Person(a, 70), Person(b, 70), Person(c, 70), Person(d, 70), Person(e, 70)];
    ClampRealOfScore(70);
    assert AllSame(p);
    assert SpreadDelta(70, 5) == 4;
  }

  /** A low common score repeats 0: three people at 2 spread to 2, 0, 0. */
  lemma SpreadRepeatsZero(a: string, b: string, c: string)
    ensures Spread([Person(a, 2), Person(b, 2), Person(c, 2)]) == [Person(a, 2), Person(b, 0), Person(c, 0)]
  {
    var p := [Person(a, 2), Person(b, 2), Person(c, 2)];
    ClampRealOfScore(2);
    assert AllSame(p);
    assert SpreadDelta(2, 3) == 4;
  }

  // ---------------------------------------------------------------- hasUniqueLabels

  /** Every trimmed label is non-empty and no two are equal. */
  predicate UniqueLabels(people: seq<Person>) {
    UniqueUpTo(people, |people|)
  }

  /** The first n trimmed labels are non-empty and pairwise distinct. */
  predicate UniqueUpTo(people: seq<Person>, n: int)
    requires 0 <= n <= |people|
  {
    (forall i :: 0 <= i < n ==> Trim(people[i].name) != "") &&
    (forall i, j :: 0 <= i < j < n ==> Trim(people[i].name) != Trim(people[j].name))
  }

  /** hasUniqueLabels: collects the trimmed labels in a set, failing on a blank or repeated one. */
  method HasUniqueLabels(people: seq<Person>) returns (unique: bool)
    ensures unique == UniqueLabels(people)
  {
    var labels: set<string> := {};
    for i := 0 to |people|
      invariant forall l :: l in labels <==> exists k :: 0 <= k < i && Trim(people[k].name) == l
      invariant UniqueUpTo(people, i)
    {
      var l := Trim(people[i].name);
      if l == "" {
        return false;
      }
      if l in labels {
        var k :| 0 <= k < i && Trim(people[k].name) == l;
        return false;
      }
      labels := labels + {l};
    }
    return true;
  }

  // ---------------------------------------------------------------- validateDominanceResult

  /** isValidPerson: an object with a non-blank string label and a non-NaN number score. */
  predicate IsValidPerson(p: Json) {
    Truthy(Some(p)) && IsObject(p) &&
    IsString(Get(p, "label")) && Trim(Get(p, "label").value.s) != "" &&
    IsFiniteNumber(Get(p, "dominance_score"))
  }

  /** The entry validate pushes for a valid person. */
  function CleanPerson(p: Json): Person
    requires IsValidPerson(p)
  {
    Person(Trim(Get(p, "label").value.s), ClampScore(Get(p, "dominance_score")))
  }

  function CleanPeople(items: seq<Json>): (r: seq<Person>)
    requires forall i :: 0 <= i < |items| ==> IsValidPerson(items[i])
    ensures |r| == |items|
    ensures forall i :: 0 <= i < |items| ==> r[i] == CleanPerson(items[i])
  {
    seq(|items|, i requires 0 <= i < |items| && IsValidPerson(items[i]) => CleanPerson(items[i]))
  }

  /** `user_label`: a trimmed non-empty string, otherwise null. */
  function UserLabelOf(v: Option<Json>): (r: Option<string>)
    ensures r.Some? <==> IsString(v) && Trim(v.value.s) != ""
    ensures r.Some? ==> r.value == Trim(v.value.s)
  {
    if IsString(v) && Trim(v.value.s) != "" then Some(Trim(v.value.s)) else None
  }

  /** `user_rank`: a non-NaN number rounded and forced into [1, total], otherwise null. */
  function UserRankOf(v: Option<Json>, total: int): (r: Option<int>)
    requires total >= 1
    ensures r.Some? <==> IsFiniteNumber(v)
    ensures r.Some? ==> r.value == RoundInto(v.value.n.r, 1, total)
  {
    if IsFiniteNumber(v) then Some(RoundInto(v.value.n.r, 1, total)) else None
  }

  /** The shape validate demands before looking at the entries. */
  predicate HasPeopleArray(input: Json) {
    Truthy(Some(input)) && IsObject(input) &&
    Get(input, "people").Some? && Get(input, "people").value.JArr? &&
    |Get(input, "people").value.items| >= 2
  }

  /** The value validateDominanceResult returns. */
  function Validate(input: Json): Dominance {
    if !HasPeopleArray(input) then DefaultFallback
    else
      var items := Get(input, "people").value.items;
      if !(forall i :: 0 <= i < |items| ==> IsValidPerson(items[i])) then DefaultFallback
      else
        var people := CleanPeople(items);
        if !UniqueLabels(people) then DefaultFallback
        else Dominance(people, UserLabelOf(Get(input, "user_label")),
                       UserRankOf(Get(input, "user_rank"), |people|), |people|)
  }

  /** validateDominanceResult: pushes the cleaned entries in a loop, returning the fallback at
      the first invalid one. */
  method ValidateDominance(input: Json) returns (r: Dominance)
    ensures r == Validate(input)
  {
    if !HasPeopleArray(input) {
      return DefaultFallback;
    }
    var items := Get(input, "people").value.items;
    var people: seq<Person> := [];
    for i := 0 to |items|
      invariant forall k :: 0 <= k < i ==> IsValidPerson(items[k])
      invariant |people| == i
      invariant forall k :: 0 <= k < i ==> people[k] == CleanPerson(items[k])
    {
      if !IsValidPerson(items[i]) {
        return DefaultFallback;
      }
      people := people + [CleanPerson(items[i])];
    }
    assert people == CleanPeople(items);
    var unique := HasUniqueLabels(people);
    if !unique {
      return DefaultFallback;
    }
    var total := |people|;
    r := Dominance(people, UserLabelOf(Get(input, "user_label")), UserRankOf(Get(input, "user_rank"), total), total);
  }

  /** What every result of validate and sanitize satisfies. */
  predicate WellFormed(v: Dominance) {
    && |v.people| >= 2
    && v.totalPeople == |v.people|
    && UniqueLabels(v.people)
    && (forall i :: 0 <= i < |v.people| ==> Trim(v.people[i].name) == v.people[i].name)
    && ScoresInRange(v.people)
    && (v.userLabel.Some? ==> v.userLabel.value != "" && Trim(v.userLabel.value) == v.userLabel.value)
    && (v.userRank.Some? ==> 1 <= v.userRank.value <= v.totalPeople)
  }

  lemma DefaultWellFormed()
    ensures WellFormed(DefaultFallback)
  {
    var p := DefaultPeople;
    forall i | 0 <= i < |p| ensures Trim(p[i].name) == p[i].name {
      DefaultNameTrimmed(i);
    }
    DefaultUnique();
  }

  /** The fallback labels are non-empty and distinct once trimmed. */
  lemma DefaultUnique()
    ensures UniqueLabels(DefaultPeople)
  {
    var p := DefaultPeople;
    forall i | 0 <= i < |p| ensures Trim(p[i].name) == p[i].name != "" {
      DefaultNameTrimmed(i);
    }
    forall i, j | 0 <= i < j < |p| ensures p[i].name != p[j].name {
      assert p[i].name[7] != p[j].name[7];
    }
  }

  /** The fallback labels are "Person A" to "Person E", with no space at either end. */
  lemma DefaultNameTrimmed(i: int)
    requires 0 <= i < |DefaultPeople|
    ensures Trim(DefaultPeople[i].name) == DefaultPeople[i].name
  {
    var n := DefaultPeople[i].name;
    assert |n| == 8 && n[0] == 'P' && 'A' <= n[7] <= 'E';
    TrimStartFixed(n);
    TrimEndFixed(n);
  }

  /** validate returns the fallback when the input is not an object, has no people array of at
      least two, has an invalid entry, or repeats a trimmed label; otherwise its people are the
      entries with labels trimmed and scores clamped, and every result is well formed. */
  lemma ValidateProperties(input: Json)
    ensures WellFormed(Validate(input))
    ensures !HasPeopleArray(input) ==> Validate(input) == DefaultFallback
    ensures HasPeopleArray(input) ==>
      var items := Get(input, "people").value.items;
      && ((exists i :: 0 <= i < |items| && !IsValidPerson(items[i])) ==> Validate(input) == DefaultFallback)
      && ((forall i :: 0 <= i < |items| ==> IsValidPerson(items[i])) ==>
            if UniqueLabels(CleanPeople(items)) then
              Validate(input).people == CleanPeople(items) &&
              Validate(input).userLabel == UserLabelOf(Get(input, "user_label")) &&
              Validate(input).userRank == UserRankOf(Get(input, "user_rank"), |items|)
            else Validate(input) == DefaultFallback)
  {
    DefaultWellFormed();
    var v := Validate(input);
    if v != DefaultFallback {
      var items := Get(input, "people").value.items;
      forall i | 0 <= i < |v.people| ensures Trim(v.people[i].name) == v.people[i].name {
        TrimIdempotent(Get(items[i], "label").value.s);
      }
      if v.userLabel.Some? {
        TrimIdempotent(Get(input, "user_label").value.s);
      }
    }
  }

  // ---------------------------------------------------------------- back to untyped form

  function PersonJson(p: Person): Json {
    JObj(map["label" := JStr(p.name), "dominance_score" := Number(p.score as real)])
  }

  /** A typed result as the object clampAndSanitizeDominanceResult receives. */
  function ToJson(v: Dominance): Json {
    JObj(map[
      "people" := JArr(seq(|v.people|, i requires 0 <= i < |v.people| => PersonJson(v.people[i]))),
      "user_label" := if v.userLabel.Some? then JStr(v.userLabel.value) else JNull,
      "user_rank" := if v.userRank.Some? then Number(v.userRank.value as real) else JNull,
      "total_people" := Number(v.totalPeople as real)])
  }

  /** Validating a well-formed result gives it back unchanged. */
  lemma ValidateToJson(v: Dominance)
    requires WellFormed(v)
    ensures Validate(ToJson(v)) == v
  {
    var j := ToJson(v);
    var items := Get(j, "people").value.items;
    assert HasPeopleArray(j);
    forall i | 0 <= i < |items| ensures IsValidPerson(items[i]) && CleanPerson(items[i]) == v.people[i] {
      assert items[i] == PersonJson(v.people[i]);
      ClampRealOfScore(v.people[i].score);
    }
    assert CleanPeople(items) == v.people;
    if v.userRank.Some? {
      RoundOfInt(v.userRank.value);
    }
  }

  /** Validation is a projection: validating its own output (as an object) changes nothing. */
  lemma ValidateIdempotent(input: Json)
    ensures Validate(ToJson(Validate(input))) == Validate(input)
  {
    ValidateProperties(input);
    ValidateToJson(Validate(input));
  }

  // ---------------------------------------------------------------- clampAndSanitizeDominanceResult

  /** The value clampAndSanitizeDominanceResult returns. */
  function Sanitize(input: Json): Dominance {
    var v := Validate(input);
    var spread := Spread(v.people);
    Dominance(spread, v.userLabel, v.userRank, |spread|)
  }

  /** sanitize keeps validate's label sequence, user fields and count; its scores are
      validate's, spread; its result is well formed; and sanitizing again changes nothing. */
  lemma SanitizeProperties(input: Json)
    ensures var v := Validate(input);
            var s := Sanitize(input);
      && WellFormed(s)
      && |s.people| == |v.people| == s.totalPeople
      && (forall i :: 0 <= i < |s.people| ==> s.people[i].name == v.people[i].name)
      && s.people == Spread(v.people)
      && s.userLabel == v.userLabel && s.userRank == v.userRank
      && Sanitize(ToJson(s)) == s
  {
    var v := Validate(input);
    ValidateProperties(input);
    SpreadProperties(v.people);
    var s := Sanitize(input);
    assert UniqueLabels(s.people) by {
      forall i, j | 0 <= i < j < |s.people| ensures Trim(s.people[i].name) != Trim(s.people[j].name) {
        assert s.people[i].name == v.people[i].name && s.people[j].name == v.people[j].name;
      }
    }
    assert WellFormed(s);
    ValidateToJson(s);
    SpreadIdempotent(v.people);
  }

  /** On a result that is already well formed, sanitize only spreads identical scores. */
  lemma SanitizeTyped(v: Dominance)
    requires WellFormed(v)
    ensures Sanitize(ToJson(v)) == Dominance(Spread(v.people), v.userLabel, v.userRank, |v.people|)
  {
    ValidateToJson(v);
    SpreadProperties(v.people);
  }
}
