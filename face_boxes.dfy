/**
 * Face-box geometry and duplicate merging (lib/analysis/dedupeFaces.ts): the validity check on a
 * detector box, intersection over union, and dedupeFaces, which drops invalid boxes, clamps the
 * rest into the unit square, merges overlapping detections greedily keeping the larger box, and
 * renumbers the survivors from left to right.
 */
module FaceBoxes {
  import opened Js
  import opened Json
  import StableSort

  /** A box in fractions of the image size, origin top-left. */
  datatype Box = Box(x: real, y: real, w: real, h: real)

  /** A detected face; `index` is the detector's left_to_right_index. */
  datatype Face = Face(index: real, box: Box)

  // ---------------------------------------------------------------- geometry

  function Area(b: Box): real {
    b.w * b.h
  }

  /** Width and height of the intersection of two boxes (not positive when they are apart). */
  function InterW(a: Box, b: Box): real {
    MinR(a.x + a.w, b.x + b.w) - MaxR(a.x, b.x)
  }

  function InterH(a: Box, b: Box): real {
    MinR(a.y + a.h, b.y + b.h) - MaxR(a.y, b.y)
  }

  /** Intersection over union of two axis-aligned boxes: 0 without a positive intersection,
      and 0 when the union is not positive. */
  function Iou(a: Box, b: Box): real {
    if InterW(a, b) <= 0.0 || InterH(a, b) <= 0.0 then 0.0
    else
      var inter := InterW(a, b) * InterH(a, b);
      var union := Area(a) + Area(b) - inter;
      if union > 0.0 then inter / union else 0.0
  }

  /** The intersection is positive in both directions. */
  predicate Overlap(a: Box, b: Box) {
    InterW(a, b) > 0.0 && InterH(a, b) > 0.0
  }

  lemma ProductMono(p: real, q: real, pp: real, qq: real)
    requires 0.0 < p <= pp && 0.0 < q <= qq
    ensures 0.0 < p * q <= pp * qq
  {
    assert p * q <= pp * q;
    assert pp * q <= pp * qq;
  }

  lemma RatioBound(inter: real, areaA: real, areaB: real)
    requires 0.0 < inter <= areaA && inter <= areaB
    ensures areaA + areaB - inter >= inter
    ensures 0.0 < inter / (areaA + areaB - inter) <= 1.0
  {
    var u := areaA + areaB - inter;
    assert (inter / u) * u == inter;
  }

  /** With a positive intersection, the intersection area is positive and at most either area. */
  lemma InterBound(a: Box, b: Box)
    requires Overlap(a, b)
    ensures 0.0 < InterW(a, b) * InterH(a, b) <= Area(a)
    ensures InterW(a, b) * InterH(a, b) <= Area(b)
  {
    ProductMono(InterW(a, b), InterH(a, b), a.w, a.h);
    ProductMono(InterW(a, b), InterH(a, b), b.w, b.h);
  }

  /** IoU lies in [0, 1] for any boxes. */
  lemma IouRange(a: Box, b: Box)
    ensures 0.0 <= Iou(a, b) <= 1.0
  {
    if Overlap(a, b) {
      InterBound(a, b);
      var inter := InterW(a, b) * InterH(a, b);
      RatioBound(inter, Area(a), Area(b));
      assert Iou(a, b) == inter / (Area(a) + Area(b) - inter);
    }
  }

  /** IoU does not depend on the order of its arguments. */
  lemma IouSymmetric(a: Box, b: Box)
    ensures Iou(a, b) == Iou(b, a)
  {
    assert InterW(a, b) == InterW(b, a);
    assert InterH(a, b) == InterH(b, a);
  }

  /** Without a positive intersection in both directions (edge-touching boxes included) the IoU
      is 0; with one it is positive. */
  lemma IouZeroIffNoOverlap(a: Box, b: Box)
    ensures Iou(a, b) == 0.0 <==> !Overlap(a, b)
  {
    if Overlap(a, b) {
      InterBound(a, b);
      RatioBound(InterW(a, b) * InterH(a, b), Area(a), Area(b));
    }
  }

  /** A box with positive area overlaps itself completely. */
  lemma IouSelf(a: Box)
    requires a.w > 0.0 && a.h > 0.0
    ensures Iou(a, a) == 1.0
  {
    assert InterW(a, a) == a.w;
    assert InterH(a, a) == a.h;
    var inter := InterW(a, a) * InterH(a, a);
    assert inter == Area(a) > 0.0;
    assert Area(a) + Area(a) - inter == inter;
    assert Iou(a, a) == inter / inter;
    DivSelf(inter);
  }

  lemma DivSelf(x: real)
    requires x > 0.0
    ensures x / x == 1.0
  {
  }

  // ---------------------------------------------------------------- input boxes

  /** isValidBox: an object whose x, y, w, h are numbers, with w > 0, h > 0, x >= -0.05 and
      y >= -0.05. Comparisons with NaN are false, so a NaN field passes the last two tests. */
  predicate IsValidBox(b: Option<Json>) {
    Truthy(b) && IsObject(b.value) &&
    IsNumber(Get(b.value, "x")) && IsNumber(Get(b.value, "y")) &&
    IsNumber(Get(b.value, "w")) && IsNumber(Get(b.value, "h")) &&
    !NumLe(Get(b.value, "w").value.n, 0.0) && !NumLe(Get(b.value, "h").value.n, 0.0) &&
    !NumLt(Get(b.value, "x").value.n, -0.05) && !NumLt(Get(b.value, "y").value.n, -0.05)
  }

  predicate NumLe(n: Num, r: real) {
    n.Real? && n.r <= r
  }

  predicate NumLt(n: Num, r: real) {
    n.Real? && n.r < r
  }

  /** JSON.parse never yields NaN: the detector's faces hold no NaN in the fields read here. */
  predicate NoNaNFields(f: Json) {
    (forall k | k in ["left_to_right_index"] :: Get(f, k) != Some(JNum(NaN))) &&
    (Get(f, "box").Some? ==>
      forall k | k in ["x", "y", "w", "h"] :: Get(Get(f, "box").value, k) != Some(JNum(NaN)))
  }

  /** `f && isValidBox(f.box)`: the filter in dedupeFaces. */
  predicate Admitted(f: Json) {
    Truthy(Some(f)) && IsValidBox(Get(f, "box"))
  }

  function Field(b: Json, k: string): real
    requires IsFiniteNumber(Get(b, k))
  {
    Get(b, k).value.n.r
  }

  /** The inner clampBox: x and y into [0, 1], w and h into [0.02, 1]. */
  function ClampBox(b: Box): Box {
    Box(MaxR(0.0, MinR(1.0, b.x)), MaxR(0.0, MinR(1.0, b.y)),
        MaxR(0.02, MinR(1.0, b.w)), MaxR(0.02, MinR(1.0, b.h)))
  }

  /** The box kept for an admitted face: clamped, then cut at the right and bottom edges. */
  function FitBox(b: Box): (r: Box)
    ensures InUnitSquare(r)
  {
    var c := ClampBox(b);
    Box(c.x, c.y, MinR(c.w, 1.0 - c.x), MinR(c.h, 1.0 - c.y))
  }

  predicate InUnitSquare(b: Box) {
    0.0 <= b.x <= 1.0 && 0.0 <= b.y <= 1.0 && 0.0 <= b.w <= 1.0 - b.x && 0.0 <= b.h <= 1.0 - b.y
  }

  /** The face an admitted input face becomes; a non-numeric index reads as 0. */
  function Cleaned(f: Json): (r: Face)
    requires Admitted(f) && NoNaNFields(f)
    ensures InUnitSquare(r.box)
  {
    var b := Get(f, "box").value;
    var idx := Get(f, "left_to_right_index");
    Face(if IsNumber(idx) then idx.value.n.r else 0.0,
         FitBox(Box(Field(b, "x"), Field(b, "y"), Field(b, "w"), Field(b, "h"))))
  }

  /** `faces.filter(...).map(...)`. */
  function Filtered(faces: seq<Json>): (r: seq<Face>)
    requires forall i | 0 <= i < |faces| :: NoNaNFields(faces[i])
    ensures |r| <= |faces|
  {
    if faces == [] then []
    else (if Admitted(faces[0]) then [Cleaned(faces[0])] else []) + Filtered(faces[1..])
  }

  /** The faces dedupeFaces can keep: admitted, with their cleaned form. */
  predicate FromInput(faces: seq<Json>, g: Face)
    requires forall i | 0 <= i < |faces| :: NoNaNFields(faces[i])
  {
    exists i :: 0 <= i < |faces| && Admitted(faces[i]) && Cleaned(faces[i]) == g
  }

  function AdmittedCount(faces: seq<Json>): nat {
    if faces == [] then 0 else (if Admitted(faces[0]) then 1 else 0) + AdmittedCount(faces[1..])
  }

  /** Every filtered face is the cleaned form of an admitted input face; there is one per
      admitted face. */
  lemma {:induction false} FilteredFromInput(faces: seq<Json>)
    requires forall i | 0 <= i < |faces| :: NoNaNFields(faces[i])
    ensures |Filtered(faces)| == AdmittedCount(faces)
    ensures forall g | g in Filtered(faces) :: FromInput(faces, g)
  {
    if faces != [] {
      FilteredFromInput(faces[1..]);
      forall g | g in Filtered(faces) ensures FromInput(faces, g) {
        if g in Filtered(faces[1..]) {
          var i :| 0 <= i < |faces[1..]| && Admitted(faces[1..][i]) && Cleaned(faces[1..][i]) == g;
          assert faces[i + 1] == faces[1..][i];
        } else {
          assert Admitted(faces[0]) && g == Cleaned(faces[0]);
        }
      }
    }
  }

  // ---------------------------------------------------------------- merging

  /** `kept.findIndex((k) => iou(face.box, k.box) > threshold)`. */
  function FirstOverlap(kept: seq<Face>, b: Box, threshold: real): (r: int)
    ensures -1 <= r < |kept|
    ensures r == -1 <==> forall i :: 0 <= i < |kept| ==> Iou(b, kept[i].box) <= threshold
    ensures r >= 0 ==> Iou(b, kept[r].box) > threshold &&
                       forall i :: 0 <= i < r ==> Iou(b, kept[i].box) <= threshold
  {
    if kept == [] then -1
    else if Iou(b, kept[0].box) > threshold then 0
    else
      var k := FirstOverlap(kept[1..], b, threshold);
      if k == -1 then -1 else k + 1
  }

  /** One iteration of the merge loop: append a face that overlaps no kept face by more than
      the threshold; otherwise let it replace the first such kept face if its area is strictly
      larger. */
  function MergeStep(kept: seq<Face>, face: Face, threshold: real): seq<Face> {
    var o := FirstOverlap(kept, face.box, threshold);
    if o == -1 then kept + [face]
    else if Area(face.box) > Area(kept[o].box) then kept[o := face]
    else kept
  }

  /** The merge loop over the remaining faces, starting from `kept`. */
  function MergeAll(kept: seq<Face>, faces: seq<Face>, threshold: real): seq<Face>
    decreases |faces|
  {
    if faces == [] then kept else MergeAll(MergeStep(kept, faces[0], threshold), faces[1..], threshold)
  }

  /** The merge rule, stated against the kept list: the step either appends exactly this face
      (when nothing overlaps it by more than the threshold) or keeps the length, changes at most
      the first overlapping slot, and never shrinks a slot's area. A strictly larger face takes
      that slot; a face no larger is dropped. */
  lemma MergeStepRule(kept: seq<Face>, face: Face, threshold: real)
    ensures var r := MergeStep(kept, face, threshold);
      && ((forall i :: 0 <= i < |kept| ==> Iou(face.box, kept[i].box) <= threshold) <==>
          r == kept + [face])
      && ((exists i :: 0 <= i < |kept| && Iou(face.box, kept[i].box) > threshold) ==>
          |r| == |kept| &&
          (forall i :: 0 <= i < |kept| && i != FirstOverlap(kept, face.box, threshold) ==>
             r[i] == kept[i]) &&
          (forall i :: 0 <= i < |kept| ==> Area(r[i].box) >= Area(kept[i].box)) &&
          (r != kept ==> Area(face.box) > Area(kept[FirstOverlap(kept, face.box, threshold)].box)))
    ensures var o := FirstOverlap(kept, face.box, threshold);
      o >= 0 && Area(face.box) > Area(kept[o].box) ==> MergeStep(kept, face, threshold) == kept[o := face]
    ensures var o := FirstOverlap(kept, face.box, threshold);
      o >= 0 && Area(face.box) <= Area(kept[o].box) ==> MergeStep(kept, face, threshold) == kept
  {
    var r := MergeStep(kept, face, threshold);
    if r == kept + [face] {
      assert |r| == |kept| + 1;
    }
  }

  /** What the merge loop keeps: never more faces than it was given (at least one when it was
      given any), and only faces it was given or already had. */
  lemma {:induction false} MergeAllProvenance(kept: seq<Face>, faces: seq<Face>, threshold: real)
    ensures var r := MergeAll(kept, faces, threshold);
      && |kept| <= |r| <= |kept| + |faces|
      && (faces != [] ==> |r| >= 1)
      && forall g | g in r :: g in kept || g in faces
    decreases |faces|
  {
    if faces != [] {
      var next := MergeStep(kept, faces[0], threshold);
      assert forall g | g in next :: g in kept || g == faces[0];
      MergeAllProvenance(next, faces[1..], threshold);
      assert |next| >= 1;
    }
  }

  // ---------------------------------------------------------------- dedupeFaces

  function SeedKey(f: Face): StableSort.Key {
    (f.index, 0.0)
  }

  function CentreKey(f: Face): StableSort.Key {
    (f.box.x + f.box.w / 2.0, 0.0)
  }

  /** `kept.map((f, i) => ({...f, left_to_right_index: i}))`. */
  function Renumber(s: seq<Face>): (r: seq<Face>)
    ensures |r| == |s|
    ensures forall i :: 0 <= i < |s| ==> r[i] == Face(i as real, s[i].box)
  {
    seq(|s|, i requires 0 <= i < |s| => Face(i as real, s[i].box))
  }

  /** The value dedupeFaces returns. */
  function Dedupe(faces: seq<Json>, threshold: real): seq<Face>
    requires forall i | 0 <= i < |faces| :: NoNaNFields(faces[i])
  {
    var seeded := StableSort.SortBy(Filtered(faces), SeedKey);
    Renumber(StableSort.SortBy(MergeAll([], seeded, threshold), CentreKey))
  }

  predicate OrderedByCentre(s: seq<Face>) {
    forall i, j :: 0 <= i < j < |s| ==>
      s[i].box.x + s[i].box.w / 2.0 <= s[j].box.x + s[j].box.w / 2.0
  }

  /** What dedupeFaces promises: boxes inside the unit square, each the cleaned box of an
      admitted input face; no more faces than were admitted, and at least one if any was;
      indices 0..n-1 in output order; output ordered by horizontal centre. */
  lemma DedupeProperties(faces: seq<Json>, threshold: real)
    requires forall i | 0 <= i < |faces| :: NoNaNFields(faces[i])
    ensures var r := Dedupe(faces, threshold);
      && |r| <= AdmittedCount(faces)
      && (AdmittedCount(faces) > 0 ==> |r| >= 1)
      && (forall i :: 0 <= i < |r| ==> r[i].index == i as real)
      && OrderedByCentre(r)
      && (forall i :: 0 <= i < |r| ==> InUnitSquare(r[i].box) && BoxFromInput(faces, r[i].box))
  {
    MergedFromInput(faces, threshold);
    DedupeOrdered(faces, threshold);
    DedupeFromInput(faces, threshold);
  }

  /** b is the cleaned box of an admitted input face. */
  predicate BoxFromInput(faces: seq<Json>, b: Box)
    requires forall i | 0 <= i < |faces| :: NoNaNFields(faces[i])
  {
    exists j :: 0 <= j < |faces| && Admitted(faces[j]) && Cleaned(faces[j]).box == b
  }

  /** The output is renumbered 0..n-1 and ordered by horizontal centre. */
  lemma DedupeOrdered(faces: seq<Json>, threshold: real)
    requires forall i | 0 <= i < |faces| :: NoNaNFields(faces[i])
    ensures var r := Dedupe(faces, threshold);
      && (forall i :: 0 <= i < |r| ==> r[i].index == i as real)
      && OrderedByCentre(r)
  {
    var merged := MergeAll([], StableSort.SortBy(Filtered(faces), SeedKey), threshold);
    var sorted := StableSort.SortBy(merged, CentreKey);
    StableSort.SortBySorted(merged, CentreKey);
    var r := Renumber(sorted);
    forall i, j | 0 <= i < j < |r|
      ensures r[i].box.x + r[i].box.w / 2.0 <= r[j].box.x + r[j].box.w / 2.0
    {
      assert StableSort.KeyLe(CentreKey(sorted[i]), CentreKey(sorted[j]));
    }
  }

  /** Every output box is the cleaned box of an admitted input face, inside the unit square. */
  lemma DedupeFromInput(faces: seq<Json>, threshold: real)
    requires forall i | 0 <= i < |faces| :: NoNaNFields(faces[i])
    ensures var r := Dedupe(faces, threshold);
      forall i :: 0 <= i < |r| ==> InUnitSquare(r[i].box) && BoxFromInput(faces, r[i].box)
  {
    MergedFromInput(faces, threshold);
    var merged := MergeAll([], StableSort.SortBy(Filtered(faces), SeedKey), threshold);
    var sorted := StableSort.SortBy(merged, CentreKey);
    var r := Renumber(sorted);
    forall i | 0 <= i < |r| ensures InUnitSquare(r[i].box) && BoxFromInput(faces, r[i].box) {
      assert sorted[i] in multiset(merged);
      assert FromInput(faces, sorted[i]);
    }
  }

  /** The merge loop keeps only cleaned admitted faces: no more than were admitted, and at least
      one if any was. */
  lemma MergedFromInput(faces: seq<Json>, threshold: real)
    requires forall i | 0 <= i < |faces| :: NoNaNFields(faces[i])
    ensures var merged := MergeAll([], StableSort.SortBy(Filtered(faces), SeedKey), threshold);
      && |merged| <= AdmittedCount(faces)
      && (AdmittedCount(faces) > 0 ==> |merged| >= 1)
      && forall g | g in merged :: FromInput(faces, g)
  {
    var filtered := Filtered(faces);
    FilteredFromInput(faces);
    var seeded := StableSort.SortBy(filtered, SeedKey);
    assert forall g | g in seeded :: g in filtered by {
      forall g | g in seeded ensures g in filtered {
        assert g in multiset(seeded);
      }
    }
    MergeAllProvenance([], seeded, threshold);
  }

  /** dedupeFaces: builds `kept` with push and in-place replacement, then sorts and renumbers. */
  method DedupeFaces(faces: seq<Json>, threshold: real) returns (out: seq<Face>)
    requires forall i | 0 <= i < |faces| :: NoNaNFields(faces[i])
    ensures out == Dedupe(faces, threshold)
    ensures |out| <= AdmittedCount(faces)
    ensures forall i :: 0 <= i < |out| ==> out[i].index == i as real && InUnitSquare(out[i].box)
    ensures OrderedByCentre(out)
  {
    var filtered := Filtered(faces);
    filtered := StableSort.SortBy(filtered, SeedKey);
    var kept: seq<Face> := [];
    for i := 0 to |filtered|
      invariant MergeAll(kept, filtered[i..], threshold) == MergeAll([], filtered, threshold)
    {
      var face := filtered[i];
      var overlapping := FirstOverlap(kept, face.box, threshold);
      if overlapping == -1 {
        kept := kept + [face];
      } else {
        var keptFace := kept[overlapping];
        if Area(face.box) > Area(keptFace.box) {
          kept := kept[overlapping := face];
        }
      }
      assert filtered[i..][1..] == filtered[i + 1..];
    }
    kept := StableSort.SortBy(kept, CentreKey);
    out := Renumber(kept);
    DedupeProperties(faces, threshold);
  }

  /** Two boxes offset by a few hundredths overlap with IoU 0.0342 / 0.0542, about 0.63: below
      the default threshold, so the merge keeps both. */
  lemma NearDuplicatesBelowDefault()
    ensures var a := Box(0.10, 0.10, 0.20, 0.20);
            var b := Box(0.12, 0.11, 0.22, 0.22);
            Iou(a, b) == 0.0342 / 0.0542 < DefaultThreshold &&
            MergeAll([], [Face(0.0, a), Face(1.0, b)], DefaultThreshold) == [Face(0.0, a), Face(1.0, b)]
  {
    var a := Box(0.10, 0.10, 0.20, 0.20);
    var b := Box(0.12, 0.11, 0.22, 0.22);
    assert InterW(a, b) == 0.18 && InterH(a, b) == 0.19;
    assert Iou(a, b) == 0.0342 / 0.0542;
    assert MergeStep([], Face(0.0, a), DefaultThreshold) == [Face(0.0, a)];
    assert FirstOverlap([Face(0.0, a)], b, DefaultThreshold) == -1;
    assert [Face(0.0, a), Face(1.0, b)][1..] == [Face(1.0, b)];
    assert MergeAll([Face(0.0, a)], [Face(1.0, b)], DefaultThreshold) ==
           MergeAll([Face(0.0, a), Face(1.0, b)], [], DefaultThreshold);
  }

  /** A box whose x clamps to 1 keeps no width: the clamped box can be empty. */
  lemma RightEdgeBoxEmpty()
    ensures FitBox(Box(1.2, 0.5, 0.3, 0.3)).w == 0.0
  {
  }

  /** dedupeFaces's default threshold, and the one the detect route passes. */
  const DefaultThreshold: real := 0.65
  const DetectRouteThreshold: real := 0.92
}
