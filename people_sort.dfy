/**
 * sortByPositionAndAssignLabels (lib/analysis/detectedPeopleSort.ts): detected people are ordered
 * by the centre of their box, x first and y as tie-breaker, and the i-th is labelled
 * getPersonLabel(i).
 */
module PeopleSort {
  import opened Js
  import opened Json
  import StableSort
  import opened FaceBoxes
  import Labels

  /** An input item; `confidence` is whatever the detector sent, if anything. */
  datatype Item = Item(id: string, box: Box, confidence: Option<Json>)

  /** A DetectedPerson; `confidence` is present only when the input's was a number. */
  datatype DetectedPerson = DetectedPerson(id: string, name: string, box: Box, confidence: Option<Num>)

  /** The comparator's order: centerX, then centerY. */
  function CentreXY(item: Item): StableSort.Key {
    (item.box.x + item.box.w / 2.0, item.box.y + item.box.h / 2.0)
  }

  /** The in-place sort of withCenter (on a copy of the items; the centres are recomputed by the
      key). */
  function Positioned(items: seq<Item>): seq<Item> {
    StableSort.SortBy(items, CentreXY)
  }

  /** `...(typeof item.confidence === "number" && { confidence })`. */
  function KeptConfidence(c: Option<Json>): (r: Option<Num>)
    ensures r.Some? <==> IsNumber(c)
    ensures r.Some? ==> c == Some(JNum(r.value))
  {
    if IsNumber(c) then Some(c.value.n) else None
  }

  function SortAndLabel(items: seq<Item>): seq<DetectedPerson> {
    var sorted := Positioned(items);
    seq(|sorted|, i requires 0 <= i < |sorted| =>
      DetectedPerson(sorted[i].id, Labels.PersonLabel(i), sorted[i].box, KeptConfidence(sorted[i].confidence)))
  }

  /** What sortByPositionAndAssignLabels promises: one output per input, in the order of a stable
      sort by (centerX, centerY) of the inputs, whose ids and boxes are copied; the i-th is
      labelled getPersonLabel(i), so labels are pairwise distinct; confidence is copied exactly
      when it is a number. */
  lemma SortAndLabelProperties(items: seq<Item>)
    ensures var r := SortAndLabel(items);
            var p := Positioned(items);
      && |r| == |items| == |p|
      && multiset(p) == multiset(items)
      && StableSort.SortedBy(p, CentreXY)
      && (forall k :: StableSort.WithKey(p, CentreXY, k) == StableSort.WithKey(items, CentreXY, k))
      && (forall i :: 0 <= i < |r| ==>
            r[i].id == p[i].id && r[i].box == p[i].box && r[i].name == Labels.PersonLabel(i) &&
            (r[i].confidence.Some? <==> IsNumber(p[i].confidence)) &&
            (r[i].confidence.Some? ==> p[i].confidence == Some(JNum(r[i].confidence.value))))
      && (forall i, j :: 0 <= i < j < |r| ==> r[i].name != r[j].name)
  {
    var p := Positioned(items);
    StableSort.SortBySorted(items, CentreXY);
    forall k ensures StableSort.WithKey(p, CentreXY, k) == StableSort.WithKey(items, CentreXY, k) {
      StableSort.SortByStable(items, CentreXY, k);
    }
    forall i, j | 0 <= i < j < |items|
      ensures Labels.PersonLabel(i) != Labels.PersonLabel(j)
    {
      Labels.LettersBijective(i, j, "A");
    }
  }

  lemma SortAndLabelEmpty()
    ensures SortAndLabel([]) == []
  {
  }

  /** A first item that belongs after two ordered ones moves to the end. */
  lemma SortThreeLastFirst(x: Item, a: Item, b: Item)
    requires StableSort.KeyLe(CentreXY(a), CentreXY(b))
    requires !StableSort.KeyLe(CentreXY(x), CentreXY(a)) && !StableSort.KeyLe(CentreXY(x), CentreXY(b))
    ensures Positioned([x, a, b]) == [a, b, x]
  {
    StableSort.SortThreeLastFirst(x, a, b, CentreXY);
  }

  /** The items of the second case of the accompanying test. */
  function TieBreakItems(): seq<Item> {
    [Item("1", Box(0.5, 0.5, 0.2, 0.2), None),
     Item("2", Box(0.1, 0.1, 0.2, 0.2), None),
     Item("3", Box(0.1, 0.3, 0.2, 0.2), None)]
  }

  /** Centres (0.6, 0.6), (0.2, 0.2) and (0.2, 0.4): the first item goes last, and the tie on
      centerX between the other two is broken by centerY. */
  lemma TieBreakOrder()
    ensures var s := TieBreakItems(); Positioned(s) == [s[1], s[2], s[0]]
  {
    var s := TieBreakItems();
    assert CentreXY(s[0]) == (0.6, 0.6) && CentreXY(s[1]) == (0.2, 0.2) && CentreXY(s[2]) == (0.2, 0.4);
    assert s == [s[0], s[1], s[2]];
    SortThreeLastFirst(s[0], s[1], s[2]);
  }

  /** The first three labels. */
  lemma FirstLabels()
    ensures Labels.PersonLabel(0) == "Person A" && Labels.PersonLabel(1) == "Person B" && Labels.PersonLabel(2) == "Person C"
  {
    assert Labels.Letters(0) == "A" && Labels.Letters(1) == "B" && Labels.Letters(2) == "C";
  }

  /** The second case of the accompanying test: ids 2, 3, 1 come out labelled A, B, C, the tie
      on centerX between 2 and 3 broken by centerY. */
  lemma SortAndLabelTieBreakExample()
    ensures var r := SortAndLabel(TieBreakItems());
            |r| == 3 && r[0].id == "2" && r[1].id == "3" && r[2].id == "1" &&
            r[0].name == "Person A" && r[1].name == "Person B" && r[2].name == "Person C"
  {
    TieBreakOrder();
    FirstLabels();
  }
}
