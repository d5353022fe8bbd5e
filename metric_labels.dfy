/**
 * Display labels of the six score_breakdown keys per photo type (src/lib/frameMogLabels.ts).
 * The table is a plain object, so looking a photo type up in it also finds what every object
 * inherits; `ObjectPrototypeMembers` lists those names.
 */
module MetricLabels {
  import opened Js
  import FrameMogSchema

  /** One label per metric key. */
  datatype Labels = Labels(frame: string, posture: string, presence: string,
                           composition: string, expression: string, style: string)
  {
    /** `labels[key]`; a key that is not a metric key gives undefined. */
    function Lookup(key: string): Option<string> {
      if key == "frame" then Some(frame)
      else if key == "posture" then Some(posture)
      else if key == "presence" then Some(presence)
      else if key == "composition" then Some(composition)
      else if key == "expression" then Some(expression)
      else if key == "style" then Some(style)
      else None
    }

    predicate NonEmpty() {
      frame != "" && posture != "" && presence != "" && composition != "" && expression != "" && style != ""
    }
  }

  /** LABELS. */
  const Table: map<string, Labels> := map[
    "shirtless_gym" := Labels("V-Taper", "Shoulder Set", "Tension Control", "Lighting/Angle",
                              "Face Relaxation", "Grooming (Minimal)"),
    "fashion_group" := Labels("Silhouette", "Stance", "Aura", "Camera Position", "Face/Smile",
                              "Fit + Cohesion"),
    "frat_group" := Labels("Space Claim", "Spine Stack", "Alpha Signal", "Center Control",
                           "Nonchalance", "Uniformity (or Standout)"),
    "solo_fit" := Labels("Proportions", "Alignment", "Confidence", "Framing", "Eyes/Jaw",
                         "Outfit Fit"),
    "formal_event" := Labels("Suit Structure", "Tall Stack", "Composure", "Elegance", "Warmth",
                             "Polish"),
    "selfie" := Labels("Angle Discipline", "Neck/Chin", "Intent", "Crop/Background", "Eyes",
                       "Grooming"),
    "unknown" := Labels("Frame", "Posture", "Presence", "Composition", "Expression", "Style")
  ]

  /** DEFAULT_LABELS, the "unknown" entry. */
  const DefaultLabels: Labels := Labels("Frame", "Posture", "Presence", "Composition", "Expression", "Style")

  /** The photo types the table lists. */
  const PhotoTypes: set<string> :=
    {"shirtless_gym", "fashion_group", "frat_group", "solo_fit", "formal_event", "selfie", "unknown"}

  /** The members of Object.prototype, which `LABELS[photoType]` finds on any plain object. Each
      is a function or an object that is not nullish and has no metric-key property. */
  const ObjectPrototypeMembers: set<string> := {
    "constructor", "__proto__", "hasOwnProperty", "isPrototypeOf", "propertyIsEnumerable",
    "toString", "toLocaleString", "valueOf", "__defineGetter__", "__defineSetter__",
    "__lookupGetter__", "__lookupSetter__"
  }

  /** getMetricLabel as written, `(LABELS[photoType] ?? DEFAULT_LABELS)[key] ?? key`: an
      inherited member passes the first `??` and then gives undefined for every key, so the key
      itself comes back. */
  function GetMetricLabelAsWritten(photoType: string, key: string): string {
    if photoType in Table then Table[photoType].Lookup(key).GetOr(key)
    else if photoType in ObjectPrototypeMembers then key
    else DefaultLabels.Lookup(key).GetOr(key)
  }

  /** getMetricLabel as intended: any photo type without its own entry gets the "unknown"
      labels. */
  function GetMetricLabel(photoType: string, key: string): string {
    var labels := if photoType in Table then Table[photoType] else DefaultLabels;
    labels.Lookup(key).GetOr(key)
  }

  /** Each of the seven photo types has its own entry, which getMetricLabel returns; the
      "unknown" entry is the default. */
  lemma TableProperties()
    ensures Table.Keys == PhotoTypes && |PhotoTypes| == 7
    ensures Table["unknown"] == DefaultLabels
    ensures forall t | t in Table :: Table[t].NonEmpty()
  {
    TableKeys();
    PhotoTypeCount();
    TableEntries();
  }

  lemma TableKeys()
    ensures Table.Keys == PhotoTypes
  {
  }

  lemma PhotoTypeCount()
    ensures |PhotoTypes| == 7
  {
    var s1: set<string> := {"shirtless_gym"};
    var s2 := AddNew(s1, "fashion_group");
    var s3 := AddNew(s2, "frat_group");
    var s4 := AddNew(s3, "solo_fit");
    var s5 := AddNew(s4, "formal_event");
    var s6 := AddNew(s5, "selfie");
    var s7 := AddNew(s6, "unknown");
    assert PhotoTypes == s7;
  }

  lemma TableEntries()
    ensures Table["unknown"] == DefaultLabels
    ensures forall t | t in Table :: Table[t].NonEmpty()
  {
  }

  /** The label of a metric key is the photo type's entry for that key, or the default entry's
      for a photo type the table does not list; either way it is not empty. */
  lemma GetMetricLabelProperties(photoType: string, key: string)
    requires key in FrameMogSchema.KeySet
    ensures photoType in Table ==> Some(GetMetricLabel(photoType, key)) == Table[photoType].Lookup(key)
    ensures photoType !in Table ==> Some(GetMetricLabel(photoType, key)) == DefaultLabels.Lookup(key)
    ensures GetMetricLabel(photoType, key) != ""
  {
    TableProperties();
    var labels := if photoType in Table then Table[photoType] else DefaultLabels;
    LookupMetricKey(labels, key);
  }

  lemma LookupMetricKey(labels: Labels, key: string)
    requires key in FrameMogSchema.KeySet
    ensures labels.Lookup(key).Some?
    ensures labels.NonEmpty() ==> labels.Lookup(key).value != ""
  {
  }

  /** The default labels are the metric keys with their first letter upper-cased. */
  lemma DefaultLabelsCapitalised(key: string)
    requires key in FrameMogSchema.KeySet
    ensures DefaultLabels.Lookup(key) == Some([UpperChar(key[0])] + key[1..])
  {
    var capitalised := [UpperChar(key[0])] + key[1..];
    if key == "frame" { assert capitalised == "Frame"; }
    else if key == "posture" { assert capitalised == "Posture"; }
    else if key == "presence" { assert capitalised == "Presence"; }
    else if key == "composition" { assert capitalised == "Composition"; }
    else if key == "expression" { assert capitalised == "Expression"; }
    else { assert capitalised == "Style"; }
  }

  /** Outside the inherited names the code as written agrees with the intended lookup. */
  lemma AsWrittenAgrees(photoType: string, key: string)
    requires photoType !in ObjectPrototypeMembers
    ensures GetMetricLabelAsWritten(photoType, key) == GetMetricLabel(photoType, key)
  {
  }

  /** A model reply with photo type "constructor" passes validation (any string does) and then
      shows the raw key "frame" instead of the default label "Frame". */
  lemma InheritedPhotoType()
    ensures GetMetricLabelAsWritten("constructor", "frame") == "frame"
    ensures GetMetricLabel("constructor", "frame") == "Frame"
  {
    assert "constructor" !in Table;
  }
}
