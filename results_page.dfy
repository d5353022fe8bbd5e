/**
 * What the results page (app/results/page.tsx) derives from a stored analysis before rendering:
 * the weakest metric's label, whether a dominance ranking is shown, the scores displayed for the
 * selected person, the leaderboard, and the people drawn on the overlay. Reading the analysis
 * and its people from the database, the signed image URL and the rendering are not modelled:
 * their results are parameters.
 */
module ResultsPage {
  import opened Js
  import opened Json
  import FrameMogSchema
  import NormalizeFrameMog
  import MetricLabels
  import BreakdownGrid
  import StableSort
  import opened DominanceSchema
  import DominanceRun

  // ---------------------------------------------------------------- getWeakestMetricLabel

  /** `breakdown[k] ?? 100`. */
  function Value100(b: map<string, Num>, k: string): Num {
    if k in b then b[k] else Real(100.0)
  }

  /** `v < x` for a JavaScript number v: false for NaN. */
  predicate Below(v: Num, x: real) {
    v.Real? && v.r < x
  }

  /** The loop's state: the index of minKey in the key list (-1 for null) and minVal. */
  datatype Least = Least(index: int, value: real)

  /** The state after the loop has looked at every key of ks, starting from null and 101. */
  function LeastOf(ks: seq<string>, b: map<string, Num>): (l: Least)
    ensures -1 <= l.index < |ks|
  {
    if ks == [] then Least(-1, 101.0)
    else
      var p := LeastOf(ks[..|ks| - 1], b);
      var v := Value100(b, ks[|ks| - 1]);
      if Below(v, p.value) then Least(|ks| - 1, v.r) else p
  }

  /** No key is chosen exactly when no value is a number below 101; otherwise the chosen key holds
      the smallest value, every key before it holds a larger one or NaN, and every number is at
      least the final minVal. */
  lemma {:induction false} LeastOfProperties(ks: seq<string>, b: map<string, Num>)
    ensures var l := LeastOf(ks, b);
      && -1 <= l.index < |ks|
      && (l.index == -1 <==> forall i | 0 <= i < |ks| :: !Below(Value100(b, ks[i]), 101.0))
      && (l.index == -1 ==> l.value == 101.0)
      && (l.index >= 0 ==> Value100(b, ks[l.index]) == Real(l.value) && l.value < 101.0)
      && (forall i | 0 <= i < |ks| && Value100(b, ks[i]).Real? :: Value100(b, ks[i]).r >= l.value)
      && (forall i | 0 <= i < l.index :: Value100(b, ks[i]).Real? ==> Value100(b, ks[i]).r > l.value)
    decreases |ks|
  {
    if ks != [] {
      var front := ks[..|ks| - 1];
      LeastOfProperties(front, b);
      assert forall i | 0 <= i < |front| :: front[i] == ks[i];
    }
  }

  /** The loop of getWeakestMetricLabel over a list of keys: minKey and minVal. */
  method ScanLeast(ks: seq<string>, b: map<string, Num>) returns (minKey: Option<string>, minVal: real)
    ensures LeastOf(ks, b).index == -1 ==> minKey == None
    ensures LeastOf(ks, b).index >= 0 ==> minKey == Some(ks[LeastOf(ks, b).index])
    ensures minVal == LeastOf(ks, b).value
  {
    minKey := None;
    minVal := 101.0;
    ghost var minIndex := -1;
    for i := 0 to |ks|
      invariant Least(minIndex, minVal) == LeastOf(ks[..i], b)
      invariant -1 <= minIndex < i
      invariant minIndex == -1 ==> minKey == None
      invariant minIndex >= 0 ==> minKey == Some(ks[minIndex])
    {
      var k := ks[i];
      var v := if k in b then b[k] else Real(100.0);
      assert ks[..i + 1][..i] == ks[..i];
      if v.Real? && v.r < minVal {
        minVal := v.r;
        minKey := Some(k);
        minIndex := i;
      }
    }
    assert ks[..|ks|] == ks;
  }

  /** The label getWeakestMetricLabel returns: the chosen key's label, "—" when none is. The
      label comes from the intended lookup MetricLabels.GetMetricLabel. */
  function WeakestLabel(b: map<string, Num>, photoType: string): string {
    var l := LeastOf(FrameMogSchema.Keys, b);
    if l.index >= 0 then MetricLabels.GetMetricLabel(photoType, FrameMogSchema.Keys[l.index]) else "—"
  }

  /** The same caption through getMetricLabel as written. */
  function WeakestLabelAsWritten(b: map<string, Num>, photoType: string): string {
    var l := LeastOf(FrameMogSchema.Keys, b);
    if l.index >= 0 then MetricLabels.GetMetricLabelAsWritten(photoType, FrameMogSchema.Keys[l.index]) else "—"
  }

  /** For every photo type that is not an inherited member of a plain object, the caption is the
      one the page shows as written. */
  lemma WeakestLabelAgrees(b: map<string, Num>, photoType: string)
    requires photoType !in MetricLabels.ObjectPrototypeMembers
    ensures WeakestLabel(b, photoType) == WeakestLabelAsWritten(b, photoType)
  {
    var l := LeastOf(FrameMogSchema.Keys, b);
    if l.index >= 0 {
      MetricLabels.AsWrittenAgrees(photoType, FrameMogSchema.Keys[l.index]);
    }
  }

  /** getWeakestMetricLabel, with the intended label lookup. A chosen key is never "", so
      `minKey ?` holds exactly when one was chosen. Outside the inherited member names the caption
      is also the as-written one. */
  method GetWeakestMetricLabel(b: map<string, Num>, photoType: string) returns (caption: string)
    ensures caption == WeakestLabel(b, photoType)
    ensures photoType !in MetricLabels.ObjectPrototypeMembers ==>
      caption == WeakestLabelAsWritten(b, photoType)
  {
    var minKey, _ := ScanLeast(FrameMogSchema.Keys, b);
    assert forall i | 0 <= i < |FrameMogSchema.Keys| :: FrameMogSchema.Keys[i] != "";
    caption := if minKey.Some? && minKey.value != "" then MetricLabels.GetMetricLabel(photoType, minKey.value) else "—";
    if photoType !in MetricLabels.ObjectPrototypeMembers {
      WeakestLabelAgrees(b, photoType);
    }
  }

  /** The six metrics are present numbers no larger than 100, as in every sanitised result. */
  predicate FullBreakdown(b: map<string, Num>) {
    forall k | k in FrameMogSchema.KeySet :: k in b && b[k].Real? && b[k].r <= 100.0
  }

  /** On a full breakdown the loop chooses a metric, not the "—" fallback, and it is the metric
      the breakdown card marks weakest: the first holding the smallest value. */
  lemma WeakestMatchesGrid(b: map<string, Num>, photoType: string)
    requires FullBreakdown(b)
    ensures WeakestLabel(b, photoType) == MetricLabels.GetMetricLabel(photoType, BreakdownGrid.WeakestKey(b))
    ensures LeastOf(FrameMogSchema.Keys, b).index >= 0
  {
    WeakestIndex(b);
  }

  /** On a full breakdown the loop stops on the index the card marks. */
  lemma WeakestIndex(b: map<string, Num>)
    requires FullBreakdown(b)
    ensures LeastOf(FrameMogSchema.Keys, b).index == BreakdownGrid.MarkedIndex(b, false)
  {
    var keys := FrameMogSchema.Keys;
    FullValues(b);
    BreakdownGrid.MarkedProperties(b, false);
    LeastIsFirstMinimum(keys, b, BreakdownGrid.MarkedIndex(b, false));
  }

  /** On a full breakdown both readings of a metric are its stored number. */
  lemma FullValues(b: map<string, Num>)
    requires FullBreakdown(b)
    ensures var keys := FrameMogSchema.Keys;
      && BreakdownGrid.AllReal(keys, b)
      && forall i | 0 <= i < |keys| ::
           Value100(b, keys[i]) == BreakdownGrid.Value(b, keys[i]) && Value100(b, keys[i]).Real? &&
           Value100(b, keys[i]).r <= 100.0
  {
    var keys := FrameMogSchema.Keys;
    forall i | 0 <= i < |keys| ensures keys[i] in b && b[keys[i]].Real? && b[keys[i]].r <= 100.0 {
      assert keys[i] in FrameMogSchema.KeySet;
    }
  }

  /** When every value is a number no larger than 100, the loop chooses the first key holding the
      smallest one. */
  lemma LeastIsFirstMinimum(ks: seq<string>, b: map<string, Num>, w: int)
    requires 0 <= w < |ks|
    requires forall i | 0 <= i < |ks| :: Value100(b, ks[i]).Real? && Value100(b, ks[i]).r <= 100.0
    requires forall i | 0 <= i < |ks| :: Value100(b, ks[w]).r <= Value100(b, ks[i]).r
    requires forall i | 0 <= i < w :: Value100(b, ks[w]).r < Value100(b, ks[i]).r
    ensures LeastOf(ks, b).index == w
  {
    LeastOfProperties(ks, b);
    assert Below(Value100(b, ks[w]), 101.0);
  }

  // ---------------------------------------------------------------- the ranking and the selected person

  /** hasDominance and `dominance`: the stored ranking, sanitised, when it is an object whose
      people array has at least two entries; null otherwise. */
  function DominanceOf(raw: Option<Json>): (d: Option<Dominance>)
    ensures d.Some? <==> raw.Some? && HasPeopleArray(raw.value)
    ensures d.Some? ==> d.value == Sanitize(raw.value) && WellFormed(d.value)
  {
    if raw.Some? && HasPeopleArray(raw.value) then
      SanitizeProperties(raw.value);
      Some(Sanitize(raw.value))
    else None
  }

  /** selectedPersonInDominance: the first ranked person whose label, trimmed and lower-cased, is
      the selected label's. */
  function SelectedPerson(d: Option<Dominance>, selected: string): (p: Option<Person>)
    ensures p.Some? <==>
      d.Some? && exists i | 0 <= i < |d.value.people| :: LabelKey(d.value.people[i].name) == LabelKey(selected)
    ensures p.Some? ==> p.value in d.value.people && LabelKey(p.value.name) == LabelKey(selected)
  {
    if d.None? then None
    else
      var i := DominanceRun.FindLabel(d.value.people, LabelKey(selected));
      if i >= 0 then Some(d.value.people[i]) else None
  }

  /** displayNormalized: with a selected person the overall score becomes theirs, the potential
      keeps the analysis' headroom up to 100, and the breakdown is derived from their score. */
  function DisplayNormalized(normalized: FrameMogSchema.FrameMog, person: Option<Person>): FrameMogSchema.FrameMog {
    match person
    case None => normalized
    case Some(p) =>
      var score := p.score as real;
      normalized.(overall := score,
                  potential := MinR(100.0, score + MaxR(0.0, normalized.potential - normalized.overall)),
                  breakdown := NormalizeFrameMog.Derive(score))
  }

  /** Without a selected person the analysis is shown as it is. With one scoring in [0, 100] the
      overall score is theirs, the potential lies between it and 100 and exceeds it by the
      analysis' headroom (potential - overall, or 0 when negative) wherever 100 allows, the six
      metrics are derived from it, and photo type, insights and top move are kept. */
  lemma DisplayNormalizedProperties(normalized: FrameMogSchema.FrameMog, person: Option<Person>)
    ensures person.None? ==> DisplayNormalized(normalized, person) == normalized
    ensures person.Some? && 0 <= person.value.score <= 100 ==>
      var v := DisplayNormalized(normalized, person);
      var score := person.value.score as real;
      var headroom := MaxR(0.0, normalized.potential - normalized.overall);
      && v.overall == score && score <= v.potential <= 100.0
      && (score + headroom <= 100.0 ==> v.potential - v.overall == headroom)
      && (score + headroom > 100.0 ==> v.potential == 100.0)
      && v.breakdown == NormalizeFrameMog.Derive(score) && FullBreakdown(v.breakdown)
      && v.photoType == normalized.photoType && v.insights == normalized.insights && v.topMove == normalized.topMove
  {
    if person.Some? {
      NormalizeFrameMog.DeriveProperties(person.value.score as real);
    }
  }

  /** A sanitised analysis has a full breakdown. */
  lemma SaneIsFull(v: FrameMogSchema.FrameMog)
    requires FrameMogSchema.Sane(v)
    ensures FullBreakdown(v.breakdown)
  {
  }

  /** lowestMetric: with the analysis normalised and the ranking sanitised, the page always names
      a metric, the one the breakdown card marks weakest. */
  lemma LowestMetricNamed(analysis: Json, raw: Option<Json>, selected: string)
    ensures var d := DominanceOf(raw);
      var shown := DisplayNormalized(NormalizeFrameMog.Normalize(analysis), SelectedPerson(d, selected));
      && LeastOf(FrameMogSchema.Keys, shown.breakdown).index >= 0
      && WeakestLabel(shown.breakdown, shown.photoType) ==
         MetricLabels.GetMetricLabel(shown.photoType, BreakdownGrid.WeakestKey(shown.breakdown))
  {
    ShownIsFull(analysis, raw, selected);
    var shown := DisplayNormalized(NormalizeFrameMog.Normalize(analysis), SelectedPerson(DominanceOf(raw), selected));
    WeakestMatchesGrid(shown.breakdown, shown.photoType);
  }

  /** The breakdown the page shows is full: the normalised analysis' or one derived from a
      sanitised score. */
  lemma ShownIsFull(analysis: Json, raw: Option<Json>, selected: string)
    ensures var shown := DisplayNormalized(NormalizeFrameMog.Normalize(analysis), SelectedPerson(DominanceOf(raw), selected));
      FullBreakdown(shown.breakdown)
  {
    var normalized := NormalizeFrameMog.Normalize(analysis);
    var person := SelectedPerson(DominanceOf(raw), selected);
    NormalizeFrameMog.NormalizeSane(analysis);
    SaneIsFull(normalized);
    SelectedScoreInRange(DominanceOf(raw), selected);
    DisplayNormalizedProperties(normalized, person);
  }

  /** The selected person of a sanitised ranking scores in [0, 100]. */
  lemma SelectedScoreInRange(d: Option<Dominance>, selected: string)
    requires d.Some? ==> WellFormed(d.value)
    ensures SelectedPerson(d, selected).Some? ==> 0 <= SelectedPerson(d, selected).value.score <= 100
  {
    var person := SelectedPerson(d, selected);
    if person.Some? {
      var i :| 0 <= i < |d.value.people| && d.value.people[i] == person.value;
    }
  }

  // ---------------------------------------------------------------- the leaderboard

  /** A row of analysis_people, or a detected person made into one; crop_box is stored JSON. */
  datatype Row = Row(name: string, cropBox: Option<Json>, sortOrder: Option<int>)

  /** An entry of the analysis' detected_people. */
  datatype Detected = Detected(name: string, box: Option<Json>)

  /** peopleList: the analysis_people rows (in sort_order, as read), or the detected people in
      their order when there are none. A failed read counts as no rows. */
  function PeopleList(fromDb: seq<Row>, detected: seq<Detected>): seq<Row> {
    if |fromDb| > 0 then fromDb
    else seq(|detected|, i requires 0 <= i < |detected| => Row(detected[i].name, detected[i].box, Some(i)))
  }

  /** The stored rows are used as read when there are any; otherwise there is one row per detected
      person, in detection order, with its name, its box and its position as sort order. */
  lemma PeopleListProperties(fromDb: seq<Row>, detected: seq<Detected>)
    ensures var rows := PeopleList(fromDb, detected);
      && (|fromDb| > 0 ==> rows == fromDb)
      && (|fromDb| == 0 ==>
            && |rows| == |detected|
            && (forall i | 0 <= i < |detected| ::
                  rows[i].name == detected[i].name && rows[i].cropBox == detected[i].box && rows[i].sortOrder == Some(i)))
  {
  }

  /** One leaderboard entry; a null dominance_score is None. */
  datatype Item = Item(rank: int, name: string, score: Option<int>, isYou: bool)

  datatype Board = Board(items: seq<Item>, totalPeople: int, yourRank: Option<int>, scoring: bool)

  /** The entries of the ranked branch: the people by descending score, you matched by label key. */
  function RankedItems(sorted: seq<Person>, selected: string): seq<Item> {
    seq(|sorted|, i requires 0 <= i < |sorted| =>
      Item(i + 1, sorted[i].name, Some(sorted[i].score), LabelKey(sorted[i].name) == LabelKey(selected)))
  }

  /** The branch with a ranking: the stored user rank, or else the place of the selected label in
      the descending sort. */
  function WithDominance(d: Dominance, selected: string): Board {
    var sorted := DominanceRun.SortedDesc(d.people);
    var found := DominanceRun.FindLabel(sorted, LabelKey(selected));
    var lookedUp := if selected != "" && found >= 0 then Some(found + 1) else None;
    Board(RankedItems(sorted, selected), d.totalPeople, if d.userRank.Some? then d.userRank else lookedUp, false)
  }

  /** `peopleList.findIndex(p => p.label === selectedLabel)`. */
  function IndexOfName(rows: seq<Row>, selected: string): (r: int)
    ensures -1 <= r < |rows|
    ensures r >= 0 ==> rows[r].name == selected
    ensures forall i | 0 <= i < |rows| && (r == -1 || i < r) :: rows[i].name != selected
  {
    if rows == [] then -1
    else if rows[0].name == selected then 0
    else
      var k := IndexOfName(rows[1..], selected);
      assert forall i | 1 <= i < |rows| :: rows[i] == rows[1..][i - 1];
      if k == -1 then -1 else k + 1
  }

  /** The entries of the unranked branch: the people in list order, without scores, you matched
      by the exact label. */
  function PositionalItems(rows: seq<Row>, selected: string): seq<Item> {
    seq(|rows|, i requires 0 <= i < |rows| => Item(i + 1, rows[i].name, None, rows[i].name == selected))
  }

  /** The branch without a ranking as written: `(findIndex(...) ?? 0) + 1`; findIndex gives -1,
      never null, for a label not in the list, so the rank is then 0. */
  function WithoutDominanceAsWritten(rows: seq<Row>, selected: string): Board {
    var yourRank := if selected != "" then Some(IndexOfName(rows, selected) + 1) else None;
    Board(PositionalItems(rows, selected), Max(1, |rows|), yourRank, true)
  }

  /** The branch without a ranking as the `?? 0` intends: a label not in the list counts as the
      first place. */
  function WithoutDominance(rows: seq<Row>, selected: string): Board {
    var idx := IndexOfName(rows, selected);
    var yourRank := if selected != "" then Some((if idx >= 0 then idx else 0) + 1) else None;
    Board(PositionalItems(rows, selected), Max(1, |rows|), yourRank, true)
  }

  /** leaderboardItems, totalPeople, yourRank and scoring, with the unranked branch as the
      `?? 0` intends (WithoutDominance). With a ranking, one entry per ranked person, the stored
      total and no scoring; without, one entry per person in the list, at least 1 as the total, and
      the scoring state. */
  function Leaderboard(d: Option<Dominance>, rows: seq<Row>, selected: string): (bd: Board)
    ensures bd.scoring <==> d.None?
    ensures d.Some? ==> |bd.items| == |d.value.people| && bd.totalPeople == d.value.totalPeople
    ensures d.None? ==> |bd.items| == |rows| && bd.totalPeople == Max(1, |rows|)
  {
    if d.Some? then WithDominance(d.value, selected) else WithoutDominance(rows, selected)
  }

  /** The same board with the unranked branch as written. */
  function LeaderboardAsWritten(d: Option<Dominance>, rows: seq<Row>, selected: string): Board {
    if d.Some? then WithDominance(d.value, selected) else WithoutDominanceAsWritten(rows, selected)
  }

  /** With a well-formed ranking the board lists every ranked person once, by descending score,
      ranked 1..n; you are every entry whose label key is the selected one; the rank shown is the
      stored one, or else the first place holding your label, and lies in [1, n]. */
  lemma WithDominanceProperties(d: Dominance, selected: string)
    requires WellFormed(d)
    ensures var bd := WithDominance(d, selected);
      var sorted := DominanceRun.SortedDesc(d.people);
      var items := bd.items;
      && |items| == |d.people| == bd.totalPeople && !bd.scoring
      && multiset(sorted) == multiset(d.people)
      && (forall i | 0 <= i < |items| ::
            && items[i].rank == i + 1 && items[i].name == sorted[i].name && items[i].score == Some(sorted[i].score)
            && (items[i].isYou <==> LabelKey(items[i].name) == LabelKey(selected)))
      && (forall i, j | 0 <= i < j < |items| :: items[i].score.value >= items[j].score.value)
      && (bd.yourRank.Some? ==> 1 <= bd.yourRank.value <= bd.totalPeople)
      && (d.userRank.Some? ==> bd.yourRank == d.userRank)
      && (d.userRank.None? ==>
            && (bd.yourRank.Some? <==> selected != "" && exists i | 0 <= i < |items| :: items[i].isYou)
            && (bd.yourRank.Some? ==>
                  items[bd.yourRank.value - 1].isYou && forall j | 0 <= j < bd.yourRank.value - 1 :: !items[j].isYou))
  {
    WithDominanceItems(d, selected);
    WithDominanceRank(d, selected);
  }

  /** The ranked board's entries: every person once, by descending score, ranked 1..n. */
  lemma WithDominanceItems(d: Dominance, selected: string)
    ensures var bd := WithDominance(d, selected);
      var sorted := DominanceRun.SortedDesc(d.people);
      var items := bd.items;
      && |items| == |d.people| && !bd.scoring
      && multiset(sorted) == multiset(d.people)
      && (forall i | 0 <= i < |items| ::
            && items[i].rank == i + 1 && items[i].name == sorted[i].name && items[i].score == Some(sorted[i].score)
            && (items[i].isYou <==> LabelKey(items[i].name) == LabelKey(selected)))
      && (forall i, j | 0 <= i < j < |items| :: items[i].score.value >= items[j].score.value)
  {
    var sorted := DominanceRun.SortedDesc(d.people);
    StableSort.SortBySorted(d.people, ByScoreDesc);
    SortedByScoreDesc(sorted);
    RankedItemsProperties(sorted, selected);
  }

  /** The ranked board's rank: the stored one, or else the first place holding your label. */
  lemma WithDominanceRank(d: Dominance, selected: string)
    requires WellFormed(d)
    ensures var bd := WithDominance(d, selected);
      var items := bd.items;
      && |items| == bd.totalPeople
      && (bd.yourRank.Some? ==> 1 <= bd.yourRank.value <= bd.totalPeople)
      && (d.userRank.Some? ==> bd.yourRank == d.userRank)
      && (d.userRank.None? ==>
            && (bd.yourRank.Some? <==> selected != "" && exists i | 0 <= i < |items| :: items[i].isYou)
            && (bd.yourRank.Some? ==>
                  items[bd.yourRank.value - 1].isYou && forall j | 0 <= j < bd.yourRank.value - 1 :: !items[j].isYou))
  {
    var sorted := DominanceRun.SortedDesc(d.people);
    var items := RankedItems(sorted, selected);
    var found := DominanceRun.FindLabel(sorted, LabelKey(selected));
    var rank := if selected != "" && found >= 0 then Some(found + 1) else None;
    assert |items| == |sorted| == |d.people|;
    assert WithDominance(d, selected) == Board(items, d.totalPeople, if d.userRank.Some? then d.userRank else rank, false);
    LookedUpRank(sorted, selected);
  }

  /** The rank looked up in the sorted list: present exactly when some entry is you, and then
      the first such place, in [1, n]. */
  lemma LookedUpRank(sorted: seq<Person>, selected: string)
    ensures var items := RankedItems(sorted, selected);
      var found := DominanceRun.FindLabel(sorted, LabelKey(selected));
      var rank := if selected != "" && found >= 0 then Some(found + 1) else None;
      && (rank.Some? ==> 1 <= rank.value <= |items|)
      && (rank.Some? <==> selected != "" && exists i | 0 <= i < |items| :: items[i].isYou)
      && (rank.Some? ==> items[rank.value - 1].isYou && forall j | 0 <= j < rank.value - 1 :: !items[j].isYou)
  {
    RankLookup(sorted, selected);
  }

  /** The ranked entries follow the sorted people one for one, ranked 1..n, with you marked by
      label key; non-increasing scores stay non-increasing. */
  lemma RankedItemsProperties(sorted: seq<Person>, selected: string)
    ensures var items := RankedItems(sorted, selected);
      && |items| == |sorted|
      && (forall i | 0 <= i < |items| ::
            && items[i].rank == i + 1 && items[i].name == sorted[i].name && items[i].score == Some(sorted[i].score)
            && (items[i].isYou <==> LabelKey(items[i].name) == LabelKey(selected)))
      && (NonIncreasing(sorted) ==> forall i, j | 0 <= i < j < |items| :: items[i].score.value >= items[j].score.value)
  {
  }

  /** The looked-up rank is the first entry marked as you, and exists exactly when one is. */
  lemma RankLookup(sorted: seq<Person>, selected: string)
    ensures var items := RankedItems(sorted, selected);
      var found := DominanceRun.FindLabel(sorted, LabelKey(selected));
      && (found >= 0 <==> exists i | 0 <= i < |items| :: items[i].isYou)
      && (found >= 0 ==> items[found].isYou && forall j | 0 <= j < found :: !items[j].isYou)
  {
    var items := RankedItems(sorted, selected);
    var key := LabelKey(selected);
    var found := DominanceRun.FindLabel(sorted, key);
    assert |items| == |sorted|;
    assert forall i | 0 <= i < |items| :: items[i].isYou == (LabelKey(sorted[i].name) == key);
    if found >= 0 {
      assert items[found].isYou;
    } else {
      assert forall i | 0 <= i < |items| :: !items[i].isYou;
    }
  }

  /** Without a ranking the board lists the people in list order, ranked 1..n and unscored; you
      are every entry with exactly the selected label; totalPeople is n, or 1 for nobody; the rank
      is absent for an empty selected label, else in [1, totalPeople]: your first place in the
      list, or 1 when the label is not in it. */
  lemma WithoutDominanceProperties(rows: seq<Row>, selected: string)
    ensures var bd := WithoutDominance(rows, selected);
      var items := bd.items;
      && |items| == |rows| && bd.totalPeople == Max(1, |rows|) && bd.scoring
      && (forall i | 0 <= i < |items| ::
            items[i] == Item(i + 1, rows[i].name, None, rows[i].name == selected))
      && (selected == "" ==> bd.yourRank == None)
      && (selected != "" ==> bd.yourRank.Some? && 1 <= bd.yourRank.value <= bd.totalPeople)
      && (selected != "" && (exists i | 0 <= i < |items| :: items[i].isYou) ==>
            items[bd.yourRank.value - 1].isYou && forall j | 0 <= j < bd.yourRank.value - 1 :: !items[j].isYou)
      && (selected != "" && (forall i | 0 <= i < |items| :: !items[i].isYou) ==> bd.yourRank == Some(1))
  {
  }

  /** As written, a selected label missing from the list is shown as rank 0, outside
      [1, totalPeople]; where the label is found the two versions agree. */
  lemma AsWrittenRankZero(rows: seq<Row>, selected: string)
    ensures WithoutDominanceAsWritten(rows, selected).items == WithoutDominance(rows, selected).items
    ensures selected != "" && (forall i | 0 <= i < |rows| :: rows[i].name != selected) ==>
      WithoutDominanceAsWritten(rows, selected).yourRank == Some(0)
    ensures (exists i | 0 <= i < |rows| :: rows[i].name == selected) ==>
      WithoutDominanceAsWritten(rows, selected) == WithoutDominance(rows, selected)
  {
  }

  /** A concrete case: one detected person, "Person A", and "Person B" selected. */
  lemma AsWrittenRankZeroExample()
    ensures var rows := PeopleList([], [Detected("Person A", None)]);
      WithoutDominanceAsWritten(rows, "Person B").yourRank == Some(0) &&
      WithoutDominance(rows, "Person B").yourRank == Some(1) &&
      WithoutDominance(rows, "Person B").totalPeople == 1
  {
    var rows := PeopleList([], [Detected("Person A", None)]);
    assert rows == [Row("Person A", None, Some(0))];
    assert rows[0].name != "Person B" by {
      assert rows[0].name[7] == 'A';
    }
    AsWrittenRankZero(rows, "Person B");
  }

  /** With the intended unranked branch, a rank the page shows always lies in [1, totalPeople].
      As written, it does too except in one case: no ranking, a non-empty selected label and no
      person of that label in the list, where the rank shown is 0. */
  lemma LeaderboardRankInRange(raw: Option<Json>, rows: seq<Row>, selected: string)
    ensures var bd := Leaderboard(DominanceOf(raw), rows, selected);
      bd.yourRank.Some? ==> 1 <= bd.yourRank.value <= bd.totalPeople
    ensures var bw := LeaderboardAsWritten(DominanceOf(raw), rows, selected);
      var missing := DominanceOf(raw).None? && selected != "" &&
                     forall i | 0 <= i < |rows| :: rows[i].name != selected;
      && (missing ==> bw.yourRank == Some(0))
      && (!missing && bw.yourRank.Some? ==> 1 <= bw.yourRank.value <= bw.totalPeople)
  {
    var d := DominanceOf(raw);
    if d.Some? {
      WithDominanceProperties(d.value, selected);
    } else {
      WithoutDominanceProperties(rows, selected);
      AsWrittenRankZero(rows, selected);
    }
  }

  // ---------------------------------------------------------------- the overlay

  /** `p.crop_box && typeof p.crop_box.x === "number"`. */
  predicate HasBox(cropBox: Option<Json>) {
    cropBox.Some? && Truthy(cropBox) && IsNumber(Get(cropBox.value, "x"))
  }

  /** The score peopleWithScores gives a person: the ranked person with the same label key, or 0. */
  function ScoreOf(d: Option<Dominance>, name: string): int {
    if d.None? then 0
    else
      var i := DominanceRun.FindLabel(d.value.people, LabelKey(name));
      if i >= 0 then d.value.people[i].score else 0
  }

  /** With a sanitised ranking the score is in [0, 100]; it is 0 without a ranking or without a
      ranked person of the same label key; a nonzero score is such a person's. */
  lemma ScoreOfProperties(d: Option<Dominance>, name: string)
    ensures var score := ScoreOf(d, name);
      && (d.Some? && ScoresInRange(d.value.people) ==> 0 <= score <= 100)
      && (d.None? || (forall i | 0 <= i < |d.value.people| :: LabelKey(d.value.people[i].name) != LabelKey(name)) ==>
            score == 0)
      && (d.Some? && score != 0 ==>
            exists i | 0 <= i < |d.value.people| :: LabelKey(d.value.people[i].name) == LabelKey(name) && d.value.people[i].score == score)
  {
  }

  datatype OverlayPerson = OverlayPerson(name: string, score: int, sortOrder: int, cropBox: Json)

  /** The overlay entry of one row. */
  function Overlay(d: Option<Dominance>, row: Row): OverlayPerson
    requires row.cropBox.Some?
  {
    OverlayPerson(row.name, ScoreOf(d, row.name), row.sortOrder.GetOr(0), row.cropBox.value)
  }

  /** overlayPeople: the rows with a crop box whose x is a number, in order, with their scores and
      `sort_order ?? 0`. */
  function OverlayPeople(d: Option<Dominance>, rows: seq<Row>): seq<OverlayPerson> {
    if rows == [] then [] else OverlayOf(d, rows[0]) + OverlayPeople(d, rows[1..])
  }

  /** What one row contributes: its entry when it has a usable crop box, else nothing. */
  function OverlayOf(d: Option<Dominance>, row: Row): seq<OverlayPerson> {
    if HasBox(row.cropBox) then [Overlay(d, row)] else []
  }

  /** overlayPeople is a filter and a map: it distributes over concatenation. */
  lemma {:induction false} OverlayPeopleAppend(d: Option<Dominance>, a: seq<Row>, b: seq<Row>)
    ensures OverlayPeople(d, a + b) == OverlayPeople(d, a) + OverlayPeople(d, b)
    decreases |a|
  {
    if a == [] {
      assert a + b == b;
    } else {
      OverlayPeopleAppend(d, a[1..], b);
      OverlayPeopleConsAppend(d, a, b);
      ConcatAssoc(OverlayOf(d, a[0]), OverlayPeople(d, a[1..]), OverlayPeople(d, b));
    }
  }

  /** The overlay of a + b for a non-empty a starts with what a's first row gives. */
  lemma OverlayPeopleConsAppend(d: Option<Dominance>, a: seq<Row>, b: seq<Row>)
    requires a != []
    ensures OverlayPeople(d, a + b) == OverlayOf(d, a[0]) + OverlayPeople(d, a[1..] + b)
    ensures OverlayPeople(d, a) == OverlayOf(d, a[0]) + OverlayPeople(d, a[1..])
  {
    var ab := a + b;
    assert ab[0] == a[0] && ab[1..] == a[1..] + b;
  }

  /** One row gives its entry exactly when it has a usable crop box. */
  lemma OverlayPeopleSingle(d: Option<Dominance>, row: Row)
    ensures OverlayPeople(d, [row]) == if HasBox(row.cropBox) then [Overlay(d, row)] else []
  {
    assert [row][1..] == [];
    assert OverlayPeople(d, [row]) == OverlayOf(d, row) + [];
  }

  /** e is the overlay entry of one of the rows, a row with a usable crop box. */
  predicate FromRow(d: Option<Dominance>, rows: seq<Row>, e: OverlayPerson) {
    exists i | 0 <= i < |rows| :: HasBox(rows[i].cropBox) && e == Overlay(d, rows[i])
  }

  /** Every overlay entry comes from a row with a usable crop box and carries that box, the row's
      label and its score; with a sanitised ranking every score is in [0, 100]; no row is lost
      when every row has a usable box. */
  lemma OverlayPeopleProperties(d: Option<Dominance>, rows: seq<Row>)
    ensures var o := OverlayPeople(d, rows);
      && |o| <= |rows|
      && (forall j | 0 <= j < |o| :: FromRow(d, rows, o[j]))
      && (forall j | 0 <= j < |o| :: IsNumber(Get(o[j].cropBox, "x")))
      && (d.Some? && ScoresInRange(d.value.people) ==> forall j | 0 <= j < |o| :: 0 <= o[j].score <= 100)
      && ((forall i | 0 <= i < |rows| :: HasBox(rows[i].cropBox)) ==> |o| == |rows|)
  {
    var o := OverlayPeople(d, rows);
    OverlayProvenance(d, rows);
    forall j | 0 <= j < |o|
      ensures IsNumber(Get(o[j].cropBox, "x"))
      ensures d.Some? && ScoresInRange(d.value.people) ==> 0 <= o[j].score <= 100
    {
      assert FromRow(d, rows, o[j]);
      var i :| 0 <= i < |rows| && HasBox(rows[i].cropBox) && o[j] == Overlay(d, rows[i]);
      assert o[j].cropBox == rows[i].cropBox.value;
      assert o[j].score == ScoreOf(d, rows[i].name);
      ScoreOfProperties(d, rows[i].name);
    }
    if forall i | 0 <= i < |rows| :: HasBox(rows[i].cropBox) {
      OverlayKeepsAll(d, rows);
    }
  }

  /** Each overlay entry is the entry of a row with a usable crop box. */
  lemma {:induction false} OverlayProvenance(d: Option<Dominance>, rows: seq<Row>)
    ensures |OverlayPeople(d, rows)| <= |rows|
    ensures forall j | 0 <= j < |OverlayPeople(d, rows)| :: FromRow(d, rows, OverlayPeople(d, rows)[j])
    decreases |rows|
  {
    if rows != [] {
      OverlayProvenance(d, rows[1..]);
      var tail := OverlayPeople(d, rows[1..]);
      var o := OverlayPeople(d, rows);
      forall j | 0 <= j < |tail| ensures FromRow(d, rows, tail[j]) {
        FromRowTail(d, rows, tail[j]);
      }
      if HasBox(rows[0].cropBox) {
        FromRowHead(d, rows, tail);
      } else {
        assert o == tail;
      }
    }
  }

  /** An entry of a row of rows[1..] is an entry of a row of rows. */
  lemma FromRowTail(d: Option<Dominance>, rows: seq<Row>, e: OverlayPerson)
    requires rows != [] && FromRow(d, rows[1..], e)
    ensures FromRow(d, rows, e)
  {
    var i :| 0 <= i < |rows[1..]| && HasBox(rows[1..][i].cropBox) && e == Overlay(d, rows[1..][i]);
    assert rows[1..][i] == rows[i + 1];
  }

  /** With the first row's entry in front, every entry still comes from a row. */
  lemma FromRowHead(d: Option<Dominance>, rows: seq<Row>, tail: seq<OverlayPerson>)
    requires rows != [] && HasBox(rows[0].cropBox) && tail == OverlayPeople(d, rows[1..])
    requires forall j | 0 <= j < |tail| :: FromRow(d, rows, tail[j])
    ensures forall j | 0 <= j < |OverlayPeople(d, rows)| :: FromRow(d, rows, OverlayPeople(d, rows)[j])
  {
    var o := OverlayPeople(d, rows);
    var e := Overlay(d, rows[0]);
    assert o == [e] + tail;
    assert FromRow(d, rows, e);
    forall j | 0 <= j < |o| ensures FromRow(d, rows, o[j]) {
      if j > 0 {
        assert o[j] == tail[j - 1];
      }
    }
  }

  /** With a usable crop box on every row, every row has its entry. */
  lemma {:induction false} OverlayKeepsAll(d: Option<Dominance>, rows: seq<Row>)
    requires forall i | 0 <= i < |rows| :: HasBox(rows[i].cropBox)
    ensures |OverlayPeople(d, rows)| == |rows|
    decreases |rows|
  {
    if rows != [] {
      assert HasBox(rows[0].cropBox);
      assert forall i | 0 <= i < |rows[1..]| :: rows[1..][i] == rows[i + 1];
      OverlayKeepsAll(d, rows[1..]);
    }
  }
}
