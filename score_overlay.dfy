/**
 * The ranking shown on the group photo (components/ScoreOverlay.tsx, lines 29-59): the highest
 * score, the first person holding it, the competition rank of a score, and which badge is the
 * top mogger's. Scores are the integers the results page passes in.
 */
module ScoreOverlay {
  import opened Js

  /** A person as the overlay reads it. */
  datatype Scored = Scored(personLabel: string, score: int)

  /** `Math.max(...scores)` of a non-empty list. */
  function Highest(people: seq<Scored>): (m: int)
    requires |people| > 0
    ensures forall i | 0 <= i < |people| :: people[i].score <= m
    ensures exists i | 0 <= i < |people| :: people[i].score == m
  {
    if |people| == 1 then people[0].score
    else
      var m := Highest(people[1..]);
      assert forall i | 1 <= i < |people| :: people[i] == people[1..][i - 1];
      if people[0].score >= m then people[0].score else m
  }

  /** maxScore: 0 for nobody. */
  function MaxScore(people: seq<Scored>): int {
    if |people| > 0 then Highest(people) else 0
  }

  /** `findIndex` of the first person with the given score, or -1. */
  function IndexOfScore(people: seq<Scored>, s: int): (r: int)
    ensures -1 <= r < |people|
    ensures r >= 0 ==> people[r].score == s
    ensures forall i | 0 <= i < |people| && (r == -1 || i < r) :: people[i].score != s
  {
    if people == [] then -1
    else if people[0].score == s then 0
    else
      var k := IndexOfScore(people[1..], s);
      assert forall i | 1 <= i < |people| :: people[i] == people[1..][i - 1];
      if k == -1 then -1 else k + 1
  }

  /** `findIndex` of the first person with the given label, or -1. */
  function IndexOfLabel(people: seq<Scored>, key: string): (r: int)
    ensures -1 <= r < |people|
    ensures r >= 0 ==> people[r].personLabel == key
    ensures forall i | 0 <= i < |people| && (r == -1 || i < r) :: people[i].personLabel != key
  {
    if people == [] then -1
    else if people[0].personLabel == key then 0
    else
      var k := IndexOfLabel(people[1..], key);
      assert forall i | 1 <= i < |people| :: people[i] == people[1..][i - 1];
      if k == -1 then -1 else k + 1
  }

  /** firstMaxIndex: -1 unless the highest score is positive. */
  function FirstMaxIndex(people: seq<Scored>): int {
    var m := MaxScore(people);
    if m > 0 then IndexOfScore(people, m) else -1
  }

  /** The number of people scoring strictly more than s. */
  function CountAbove(people: seq<Scored>, s: int): nat {
    if people == [] then 0 else (if people[0].score > s then 1 else 0) + CountAbove(people[1..], s)
  }

  /** getRank. */
  function GetRank(people: seq<Scored>, s: int): int {
    1 + CountAbove(people, s)
  }

  /** isTopMogger for the person at index i. */
  predicate IsTopMogger(people: seq<Scored>, i: int)
    requires 0 <= i < |people|
  {
    MaxScore(people) > 0 && IndexOfLabel(people, people[i].personLabel) == FirstMaxIndex(people)
  }

  /** Nobody scores above a score someone holds: that person is not counted. */
  lemma {:induction false} CountAboveBound(people: seq<Scored>, k: int)
    requires 0 <= k < |people|
    ensures CountAbove(people, people[k].score) <= |people| - 1
    decreases |people|
  {
    if k > 0 {
      assert people[1..][k - 1] == people[k];
      CountAboveBound(people[1..], k - 1);
    } else {
      CountAboveAtMost(people[1..], people[k].score);
    }
  }

  lemma {:induction false} CountAboveAtMost(people: seq<Scored>, s: int)
    ensures CountAbove(people, s) <= |people|
    decreases |people|
  {
    if people != [] {
      CountAboveAtMost(people[1..], s);
    }
  }

  /** A higher threshold counts no more people; and strictly fewer when someone scores between
      the two thresholds, above the lower and at most the higher. */
  lemma {:induction false} CountAboveMonotone(people: seq<Scored>, lo: int, hi: int, k: int)
    requires lo <= hi
    ensures CountAbove(people, hi) <= CountAbove(people, lo)
    ensures 0 <= k < |people| && lo < people[k].score <= hi ==> CountAbove(people, hi) < CountAbove(people, lo)
    decreases |people|
  {
    if people != [] {
      if 0 < k < |people| {
        assert people[1..][k - 1] == people[k];
      }
      CountAboveMonotone(people[1..], lo, hi, k - 1);
    }
  }

  /** Every person's rank is in [1, N]; equal scores share a rank, and a strictly higher score
      gets a strictly smaller rank. */
  lemma RankProperties(people: seq<Scored>, i: int, j: int)
    requires 0 <= i < |people| && 0 <= j < |people|
    ensures 1 <= GetRank(people, people[i].score) <= |people|
    ensures people[i].score == people[j].score ==> GetRank(people, people[i].score) == GetRank(people, people[j].score)
    ensures people[i].score > people[j].score ==> GetRank(people, people[i].score) < GetRank(people, people[j].score)
  {
    CountAboveBound(people, i);
    if people[i].score > people[j].score {
      CountAboveMonotone(people, people[j].score, people[i].score, i);
    }
  }

  /** Nobody scores above the maximum, so whoever holds it has rank 1. */
  lemma {:induction false} NoneAboveMax(people: seq<Scored>, m: int)
    requires forall i | 0 <= i < |people| :: people[i].score <= m
    ensures CountAbove(people, m) == 0
    decreases |people|
  {
    if people != [] {
      assert forall i | 0 <= i < |people[1..]| :: people[1..][i] == people[i + 1];
      NoneAboveMax(people[1..], m);
    }
  }

  lemma MaxHolderRanksFirst(people: seq<Scored>, i: int)
    requires 0 <= i < |people| && people[i].score == MaxScore(people)
    ensures GetRank(people, people[i].score) == 1
  {
    NoneAboveMax(people, MaxScore(people));
  }

  /** maxScore is 0 for nobody, and no one is top mogger unless it is positive. With distinct
      labels at most one person is: the first holding the highest score. */
  lemma TopMoggerProperties(people: seq<Scored>, i: int)
    requires 0 <= i < |people|
    ensures MaxScore([]) == 0
    ensures IsTopMogger(people, i) ==> MaxScore(people) > 0
    ensures (forall a, b | 0 <= a < b < |people| :: people[a].personLabel != people[b].personLabel) ==>
      (IsTopMogger(people, i) <==> MaxScore(people) > 0 && i == FirstMaxIndex(people))
    ensures IsTopMogger(people, i) ==> people[IndexOfLabel(people, people[i].personLabel)].score == MaxScore(people)
  {
    if MaxScore(people) > 0 {
      var m := MaxScore(people);
      var w :| 0 <= w < |people| && people[w].score == m;
      assert IndexOfScore(people, m) != -1;
    }
    if forall a, b | 0 <= a < b < |people| :: people[a].personLabel != people[b].personLabel {
      var k := IndexOfLabel(people, people[i].personLabel);
      assert k == i;
    }
  }
}
