/**
 * The person picker drawn over the group photo (components/PersonOverlaySelector.tsx): the letter
 * on each marker, taken from the person's name, and the marker's position, the centre of the
 * person's box kept one marker radius inside the container.
 */
module OverlaySelector {
  import opened Js
  import opened Labels
  import FaceBoxes

  // ---------------------------------------------------------------- labelToLetter

  /** `/^Person\s+/i` matches at the start of s: "person" in any case of its ASCII letters, then
      at least one whitespace character. */
  predicate HasPersonPrefix(s: string) {
    |s| > 6 && ToLower(s[..6]) == "person" && IsSpace(s[6])
  }

  /** `name.replace(/^Person\s+/i, "")`: the prefix and every whitespace character after it
      go. */
  function StripPersonPrefix(s: string): (r: string)
    ensures HasPersonPrefix(s) ==> r == TrimStart(s[6..])
    ensures !HasPersonPrefix(s) ==> r == s
  {
    if HasPersonPrefix(s) then TrimStart(s[6..]) else s
  }

  /** labelToLetter: the first character left after the prefix and trimming, upper-cased, or "?"
      when nothing is left. */
  function LabelToLetter(name: string): (r: string)
    ensures |r| == 1
    ensures r == "?" <==> Trim(StripPersonPrefix(name)) == "" || Trim(StripPersonPrefix(name))[0] == '?'
    ensures r != "?" ==> r == [UpperChar(Trim(StripPersonPrefix(name))[0])]
  {
    var rest := Trim(StripPersonPrefix(name));
    if rest == "" then "?" else [UpperChar(rest[0])]
  }

  /** A name without the prefix keeps its first non-space character, upper-cased. */
  lemma PlainLabelLetter(name: string)
    requires !HasPersonPrefix(name) && !AllSpace(name)
    ensures Trim(name) != ""
    ensures LabelToLetter(name) == [UpperChar(Trim(name)[0])]
  {
    TrimEmptyIffAllSpace(name);
  }

  /** The marker of the person labelled "Person " + letters shows the first of the letters. */
  lemma PersonLabelLetter(index: int)
    requires index >= 0
    ensures LabelToLetter(PersonLabel(index)) == [Letters(index)[0]]
  {
    assert ToLower("Person") == "person";
    assert AllSpace(" ");
    AnyCasePrefix(index, "Person", " ");
    assert PersonLabel(index) == "Person" + " " + Letters(index);
  }

  /** The prefix is matched in any case, and a run of spaces after it goes too. */
  lemma AnyCasePrefix(index: int, pre: string, gap: string)
    requires index >= 0
    requires |pre| == 6 && ToLower(pre) == "person"
    requires |gap| > 0 && AllSpace(gap)
    ensures LabelToLetter(pre + gap + Letters(index)) == [Letters(index)[0]]
  {
    var letters := Letters(index);
    LettersShape(index);
    var name := pre + gap + letters;
    assert name[..6] == pre;
    assert IsSpace(name[6]) by {
      assert name[6] == gap[0];
    }
    assert HasPersonPrefix(name);
    assert name[6..] == gap + letters;
    assert !IsSpace(letters[0]) by {
      assert IsUpperLetter(letters[0]);
    }
    SpacesThenWord(gap, letters);
    assert StripPersonPrefix(name) == letters;
    UpperLettersTrimmed(letters);
  }

  /** A word of capital letters is its own trim, and its first letter upper-cases to itself. */
  lemma UpperLettersTrimmed(letters: string)
    requires |letters| > 0 && forall i :: 0 <= i < |letters| ==> IsUpperLetter(letters[i])
    ensures Trim(letters) == letters && UpperChar(letters[0]) == letters[0]
  {
    assert NoSpace(letters) by {
      forall i | 0 <= i < |letters| ensures !IsSpace(letters[i]) {
        assert IsUpperLetter(letters[i]);
      }
    }
    NoSpaceTrim(letters);
  }

  /** TrimStart drops a run of whitespace in front of a word that does not start with one. */
  lemma {:induction false} SpacesThenWord(gap: string, word: string)
    requires AllSpace(gap)
    requires |word| > 0 && !IsSpace(word[0])
    ensures TrimStart(gap + word) == word
    decreases |gap|
  {
    if gap == [] {
      assert gap + word == word;
    } else {
      assert (gap + word)[1..] == gap[1..] + word;
      SpacesThenWord(gap[1..], word);
    }
  }

  /** Labels are told apart by their first letter only: from the 27th person on, markers repeat
      letters ("Person A" and "Person AA" both show "A"). */
  lemma LettersRepeatFromTwentySeven()
    ensures LabelToLetter(PersonLabel(0)) == LabelToLetter(PersonLabel(26)) == "A"
  {
    PersonLabelLetter(0);
    PersonLabelLetter(26);
    assert Letters(0) == "A";
    assert Letters(26) == Letters(0) + "A";
  }

  // ---------------------------------------------------------------- marker position

  /** MARKER_RADIUS and MARKER_RADIUS_SELECTED. */
  const MarkerRadius: real := 20.0
  const MarkerRadiusSelected: real := 24.0

  function Radius(selected: bool): real {
    if selected then MarkerRadiusSelected else MarkerRadius
  }

  /** `Math.max(r, Math.min(size - r, c))`. */
  function ClampAxis(c: real, size: real, r: real): real {
    MaxR(r, MinR(size - r, c))
  }

  /** A clamped coordinate is at least r from the start; at most r from the end when the
      container is at least two radii long; unchanged when it was already that far inside; and r
      when the container is shorter. */
  lemma ClampAxisProperties(c: real, size: real, r: real)
    ensures ClampAxis(c, size, r) >= r
    ensures size >= 2.0 * r ==> ClampAxis(c, size, r) <= size - r
    ensures r <= c <= size - r ==> ClampAxis(c, size, r) == c
    ensures size < 2.0 * r ==> ClampAxis(c, size, r) == r
    ensures size >= 2.0 * r && c < r ==> ClampAxis(c, size, r) == r
    ensures size >= 2.0 * r && c > size - r ==> ClampAxis(c, size, r) == size - r
  {
  }

  datatype Marker = Marker(px: real, py: real, radius: real)

  /** Where a person's marker is drawn: the centre of the normalised box scaled to the container,
      clamped on each axis. */
  function PlaceMarker(box: FaceBoxes.Box, width: real, height: real, selected: bool): (m: Marker)
    ensures m.radius == Radius(selected)
    ensures m.px >= m.radius && m.py >= m.radius
  {
    var r := Radius(selected);
    var px := (box.x + box.w / 2.0) * width;
    var py := (box.y + box.h / 2.0) * height;
    ClampAxisProperties(px, width, r);
    ClampAxisProperties(py, height, r);
    Marker(ClampAxis(px, width, r), ClampAxis(py, height, r), r)
  }

  /** In a container at least 48 pixels each way the whole marker lies inside it, and a box whose
      centre is already one radius inside is drawn exactly at its centre. */
  lemma MarkerInside(box: FaceBoxes.Box, width: real, height: real, selected: bool)
    requires width >= 2.0 * MarkerRadiusSelected && height >= 2.0 * MarkerRadiusSelected
    ensures var m := PlaceMarker(box, width, height, selected);
      && m.radius <= m.px <= width - m.radius && m.radius <= m.py <= height - m.radius
    ensures var m := PlaceMarker(box, width, height, selected);
      var cx := (box.x + box.w / 2.0) * width;
      var cy := (box.y + box.h / 2.0) * height;
      (m.radius <= cx <= width - m.radius ==> m.px == cx) && (m.radius <= cy <= height - m.radius ==> m.py == cy)
  {
    var r := Radius(selected);
    ClampAxisProperties((box.x + box.w / 2.0) * width, width, r);
    ClampAxisProperties((box.y + box.h / 2.0) * height, height, r);
  }
}
