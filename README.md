# FrameMog core, modelled in Dafny

FrameMog is a web product. A user uploads a group photo and the service finds the people in it.
The user says which one they are, a vision model scores each person's "frame dominance", and a
results page shows the leaderboard. This project models the deterministic layer that sits between
the external services (vision model, database, payment provider, image library) and the screen,
and proves properties of it:

- **Face-box pipeline.** Box validity, clamping into the unit square, IoU, and the greedy merge of
  overlapping detections that keeps the larger box, then re-sorts by centre x and renumbers
  (`FaceBoxes`). Also the bijective base-26 person labels and their path slugs (`Labels`), the
  position sort that assigns labels (`PeopleSort`, over the stable sort in `StableSort`), and the
  integer pixel crop of a face (`ImageCrop`).
- **"Never throw" guards on model output.** The dominance-ranking validator and sanitiser with its
  hash-based offline fallback (`DominanceSchema`). The FrameMog v2 validator and clamp-and-sanitise
  rules (`FrameMogSchema`) and the v1-to-v2 normaliser (`NormalizeFrameMog`). The JSON extraction
  from a model reply (`JsonExtract`) and the two runners with their single retry (`DominanceRun`,
  `FrameMogRun`). The generic `parseWithRetry` loop (`Retry`).
- **Ranking and display.** The results page's leaderboard, rank of "you", displayed potential and
  weakest metric (`ResultsPage`). The photo overlay's competition ranks and top mogger
  (`ScoreOverlay`). The breakdown card's weakest and highest metric (`BreakdownGrid`). The
  per-photo-type metric captions (`MetricLabels`). The marker letter and marker position of the
  person picker (`OverlaySelector`).
- **Calibration.** The 14-question data (`CalibrationSteps`), the wizard's cursor as a class whose
  methods update its fields (`CalibrationWizard.Wizard`), and the mapping of answers to
  step1..step4 (`CalibrationSubmit`).
- **Small validators and encoders.** The open-redirect guard of the login and signup pages
  (`RedirectGuard`), canonical URLs and JSON-LD builders (`Seo`), XML escaping (`RssEscape`),
  JSON-LD `<` escaping (`JsonLd`), the paid-access predicate (`Entitlements`) and the Stripe
  status mapping (`StripeStatus`).

Shared modules: `Js` holds an `Option`, JavaScript string helpers (trim, whitespace, ASCII case)
and real arithmetic helpers. `Json` holds the untyped value a parsed JSON reply is. Numbers are
exact reals, and a JSON number is `Real(r)` or `NaN`. Where the source loops and updates
variables, the model is a `method` with a loop. Each such method is proved equal to a
specification function, and the source's promises are proved about that function as lemmas. Where
the source computes with expressions, the model is a function with lemmas.

The model takes these as parameters: the vision model's replies, `JSON.parse`, the contents of
`sessionStorage`, the current time, date parsing, the `URL` parser's hostname check, image
metadata, and database reads.

Behaviour of the code worth knowing:

- `clampBox` can produce a box of width 0: a valid box at x = 1.2 is clamped to x = 1 and
  w = 0 (lib/analysis/dedupeFaces.ts:48-62, `FaceBoxes.RightEdgeBoxEmpty`).
- With the default IoU threshold 0.65, two boxes overlapping by less than that both survive
  (`FaceBoxes.NearDuplicatesBelowDefault`).
- `isFallbackResult` compares the labels only, so any 5-person result labelled Person A..E in
  order counts as the fallback (src/lib/runDominanceRanking.ts:87-94,
  `DominanceRun.IsFallbackResultCases`).
- The outer `catch` of `runFrameMogV2` cannot be reached: every step inside it is total.
- The results page's weakest metric (`?? 100`, strict `<`) and the breakdown card's (`?? 0`,
  `Math.min`) agree on a full breakdown. A missing metric shows as 50 on the card but is ranked
  as 0 there (`BreakdownGrid.MissingMetricRankedAsZero`).
- Marker letters repeat from the 27th person on ("Person A" and "Person AA" both show "A").
- A stored `questionIndex` that is a number but not a whole number (say 2.5) is kept as it is
  by `loadDraft`, so no question is shown. The wizard's constructor establishes `Valid` (a whole
  index in range) only when the stored index, if any, is whole. Only `loadDraft` caps the index:
  from a stored 12.5, `next` goes to 13.5, and from 0.5, `back` goes to -0.5, so the index stays in
  range only while it is whole.

## Model

The table lists the members that carry contracts. Some functions that model source functions have
no contract of their own and are specified by the lemmas about them:

- `MetricLabels.GetMetricLabel` (src/lib/frameMogLabels.ts:68-71): `GetMetricLabelProperties`, `AsWrittenAgrees`.
- `MetricLabels.GetMetricLabelAsWritten` (src/lib/frameMogLabels.ts:68-71): `AsWrittenAgrees`, `InheritedPhotoType`.
- `DominanceRun.ComputeUserRank` (src/lib/runDominanceRanking.ts:75-85): `UserRankProperties`, `UserRankExample`.
- `DominanceRun.IsFallbackResult` (src/lib/runDominanceRanking.ts:87-94): `IsFallbackResultCases`.
- `FrameMogRun.IsValidationFallback` (src/lib/runFrameMogV2.ts:103-109): `FallbacksRecognised`, `FailedReplyIsFallback`.
- `Seo.SiteUrl` (lib/seo.ts:24-28): `NormalizedUrl`'s contract, and `UnconfiguredSiteUrl`.
- `ResultsPage.PeopleList` (app/results/page.tsx:119-128): `PeopleListProperties`.
- `ResultsPage.WithoutDominance` (app/results/page.tsx:166-178): `WithoutDominanceProperties`.
- `ResultsPage.WithoutDominanceAsWritten` (app/results/page.tsx:166-178): `AsWrittenRankZero`, `AsWrittenRankZeroExample`.

| member | source | states |
|---|---|---|
| FaceBoxes.IouRange | lib/analysis/dedupeFaces.ts:18-41 | the IoU of any two boxes lies in [0, 1] |
| FaceBoxes.IouSymmetric | lib/analysis/dedupeFaces.ts:18-41 | iou(a, b) == iou(b, a) |
| FaceBoxes.IouZeroIffNoOverlap | lib/analysis/dedupeFaces.ts:28-33 | the IoU is 0 exactly when the intersection has no positive width and height, edge-touching boxes included |
| FaceBoxes.IouSelf | lib/analysis/dedupeFaces.ts:35-40 | a box of positive area has IoU 1 with itself |
| FaceBoxes.InterBound | lib/analysis/dedupeFaces.ts:35-38 | the intersection area is at most either box's area |
| FaceBoxes.FitBox | lib/analysis/dedupeFaces.ts:48-62 | a clamped box lies in the unit square: 0 <= x, y <= 1 and 0 <= w <= 1 - x, 0 <= h <= 1 - y |
| FaceBoxes.Cleaned | lib/analysis/dedupeFaces.ts:55-66 | a face that passes the filter is cleaned to a box inside the unit square |
| FaceBoxes.Filtered | lib/analysis/dedupeFaces.ts:55-67 | filtering keeps no more faces than it is given |
| FaceBoxes.FilteredFromInput | lib/analysis/dedupeFaces.ts:4-67 | exactly the faces passing isValidBox (numbers, w and h positive, x and y at least -0.05) survive, each as the cleaned form of such an input face |
| FaceBoxes.FirstOverlap | lib/analysis/dedupeFaces.ts:74 | the first kept face whose IoU with the candidate exceeds the threshold, or -1 when none does |
| FaceBoxes.MergeStepRule | lib/analysis/dedupeFaces.ts:73-84 | a face with no overlap is appended; otherwise it replaces the first overlapping kept face exactly when its area is strictly larger, and the list is unchanged otherwise |
| FaceBoxes.MergeAllProvenance | lib/analysis/dedupeFaces.ts:71-84 | the merged list is no longer than its input, non-empty for non-empty input, and each kept face is one of the input faces |
| FaceBoxes.DedupeProperties | lib/analysis/dedupeFaces.ts:47-96 | the output is no longer than the valid input faces, empty for empty input, each box is the clamped box of an input face, boxes are ordered by centre x, and left_to_right_index runs 0..n-1 |
| FaceBoxes.DedupeFaces | lib/analysis/dedupeFaces.ts:47-96 | the loop computes the merge-sort-renumber specification, so all of DedupeProperties holds of it |
| FaceBoxes.NearDuplicatesBelowDefault | lib/analysis/dedupeFaces.ts:47-77 | two concrete near-duplicate boxes whose IoU is below 0.65 both survive the default threshold |
| FaceBoxes.RightEdgeBoxEmpty | lib/analysis/dedupeFaces.ts:48-62 | a valid box at x = 1.2 is clamped to x = 1 and width 0, although the box it came from had positive width |
| Labels.GetPersonLabel | lib/analysis/labels.ts:5-13 | the digit loop computes "Person " + the bijective base-26 letters of the index |
| Labels.LettersShape | lib/analysis/labels.ts:5-13 | for a non-negative index the letters are a non-empty string over A-Z |
| Labels.PersonLabelExamples | lib/analysis/labels.ts:1-13 | 0, 1, 25, 26, 27, 701, 702 give Person A, B, Z, AA, AB, ZZ, AAA |
| Labels.DecodeLetters | lib/analysis/labels.ts:6-11 | decoding the letters of n gives back n |
| Labels.LettersDecode | lib/analysis/labels.ts:6-11 | every non-empty string over A-Z is the letters of the index it decodes to |
| Labels.LettersBijective | lib/analysis/labels.ts:5-13 | distinct non-negative indices give distinct letters and labels, and every non-empty string over A-Z is some index's letters |
| Labels.ToPathNoSpace | lib/analysis/labels.ts:15-18 | labelToPath's output holds no whitespace |
| Labels.ToPathIdentity | lib/analysis/labels.ts:15-18 | a string without whitespace is its own path |
| Labels.ToPathIdempotent | lib/analysis/labels.ts:15-18 | labelToPath applied twice equals applying it once |
| Labels.ToPathCollapsesRuns | lib/analysis/labels.ts:15-18 | a whitespace run of any length becomes exactly one "_" |
| Labels.ToPathExample | lib/analysis/labels.ts:15 | "Person A" becomes "Person_A" |
| PeopleSort.KeptConfidence | lib/analysis/detectedPeopleSort.ts:30 | confidence is present exactly when the input's is a number, and then it is that number |
| PeopleSort.SortAndLabelProperties | lib/analysis/detectedPeopleSort.ts:10-32 | one output per input; the order is a stable sort by (centre x, centre y), a permutation that keeps each key's items in input order; ids and boxes are copied; the i-th is labelled getPersonLabel(i); labels are pairwise distinct; confidence is copied exactly when it is a number |
| PeopleSort.SortAndLabelEmpty | lib/analysis/detectedPeopleSort.test.ts:5-7 | empty input gives empty output |
| PeopleSort.SortThreeLastFirst | lib/analysis/detectedPeopleSort.ts:20-24 | an item whose centre comes after two ordered ones moves to the end |
| PeopleSort.SortAndLabelTieBreakExample | lib/analysis/detectedPeopleSort.test.ts:9-23 | ids 1, 2, 3 with 2 and 3 tied on centre x come out 2, 3, 1 labelled Person A, B, C |
| ImageCrop.CropRectangle | lib/analysis/imageCrop.ts:18-51 | the crop is an integer rectangle of at least 1x1 pixels lying inside the image, with a missing dimension read as 1 |
| ImageCrop.CropAxis | lib/analysis/imageCrop.ts:21-51 | the step-by-step clamping on one axis computes the axis crop of the specification |
| ImageCrop.PlaceInside | lib/analysis/imageCrop.ts:36-51 | whatever window is clamped, the rounded origin lies in [0, pixels - 1] and the length is at least 1 and ends inside the image |
| ImageCrop.CropInside | lib/analysis/imageCrop.ts:18-51 | both axes of the crop lie inside the image and are at least one pixel long |
| ImageCrop.WindowProperties | lib/analysis/imageCrop.ts:21-34 | the padded size is the box size raised to 12% and padded by 20% each side, capped at 1, hence in [0.168, 1]; the window is centred on the box centre |
| DominanceSchema.ToInt32 | src/lib/dominanceSchema.ts:10-11 | the result is the 32-bit two's-complement integer congruent to its argument modulo 2^32 |
| DominanceSchema.HashStepWraps | src/lib/dominanceSchema.ts:10-11 | a shift-subtract-add step followed by `h & h` equals one ToInt32(31 h + c) step |
| DominanceSchema.Utf16 | src/lib/dominanceSchema.ts:10 | a character below 0x10000 is one code unit equal to it; any other is a high surrogate and a low surrogate that decode back to it |
| DominanceSchema.CodeUnits | src/lib/dominanceSchema.ts:9-10 | a string has at least as many UTF-16 code units as characters, each in [0, 0xFFFF] |
| DominanceSchema.CodeUnitsBasic | src/lib/dominanceSchema.ts:9-10 | a string of characters below 0x10000 has exactly one code unit per character, equal to it |
| DominanceSchema.HashString | src/lib/dominanceSchema.ts:7-14 | the loop over the string's UTF-16 code units computes the 32-bit wrapped hash h = 31 h + unit, and the fraction is in [0, 2^31 / (2^31 - 1)] |
| DominanceSchema.FallbackScore | src/lib/dominanceSchema.ts:25-27 | every fallback score lies in [40, 80] |
| DominanceSchema.GenerateFallbackProperties | src/lib/dominanceSchema.ts:20-36 | the fallback has one entry per label, a permutation of the labels each with its own hash score in [40, 80], sorted non-increasing and stable for equal scores, total_people = the count, user fields null |
| DominanceSchema.ClampReal | src/lib/dominanceSchema.ts:68 | the rounded value when it lies in [0, 100], otherwise the nearer bound |
| DominanceSchema.ClampScore | src/lib/dominanceSchema.ts:66-69 | 50 for a non-number or NaN, otherwise the rounded value clamped to [0, 100] |
| DominanceSchema.ClampRealOfScore | src/lib/dominanceSchema.ts:66-69 | clamping an integer score already in [0, 100] leaves it unchanged |
| DominanceSchema.SpreadDelta | src/lib/dominanceSchema.ts:79-80 | the spread step is between 1 and 4 |
| DominanceSchema.SpreadProperties | src/lib/dominanceSchema.ts:72-85 | labels and length are kept and scores stay in [0, 100]; people with differing scores are returned unchanged; when all equal base, the i-th becomes max(0, base - i*delta), non-increasing and strictly decreasing while positive |
| DominanceSchema.SpreadIdempotent | src/lib/dominanceSchema.ts:72-85 | spreading a spread list changes nothing |
| DominanceSchema.SpreadFiveAtSeventy | src/lib/dominanceSchema.ts:78-84 | five people at 70 become 70, 66, 62, 58, 54 |
| DominanceSchema.SpreadRepeatsZero | src/lib/dominanceSchema.ts:83 | three people at 2 become 2, 0, 0, so the spread can repeat 0 |
| DominanceSchema.HasUniqueLabels | src/lib/dominanceSchema.ts:87-95 | the set-based loop answers true exactly when every trimmed label is non-empty and no two are equal |
| DominanceSchema.CleanPeople | src/lib/dominanceSchema.ts:118-125 | one cleaned entry per valid item, label trimmed and score clamped |
| DominanceSchema.UserLabelOf | src/lib/dominanceSchema.ts:139-142 | user_label is kept, trimmed, exactly when it is a string that is not blank |
| DominanceSchema.UserRankOf | src/lib/dominanceSchema.ts:130-135 | user_rank is kept exactly when it is a non-NaN number, then rounded into [1, total_people] |
| DominanceSchema.ValidateDominance | src/lib/dominanceSchema.ts:110-149 | the loop with early returns computes the validation function |
| DominanceSchema.DefaultWellFormed | src/lib/dominanceSchema.ts:50-64 | DEFAULT_FALLBACK is itself a valid result |
| DominanceSchema.ValidateProperties | src/lib/dominanceSchema.ts:106-149 | the result is always well formed (at least 2 people, distinct trimmed labels, scores in [0, 100], total = length, user fields in range); not an object or fewer than 2 people, an invalid entry or a repeated label gives DEFAULT_FALLBACK; otherwise the cleaned people and user fields |
| DominanceSchema.ValidateToJson | src/lib/dominanceSchema.ts:110-149 | validating any well-formed result gives it back unchanged |
| DominanceSchema.ValidateIdempotent | src/lib/dominanceSchema.ts:110-149 | validating validate's own output changes nothing |
| DominanceSchema.SanitizeProperties | src/lib/dominanceSchema.ts:151-171 | the sanitised result is well formed, keeps validate's labels in order and its user fields, spreads identical scores, sets total_people to the count, and is a fixed point of sanitising |
| DominanceSchema.SanitizeTyped | src/lib/dominanceSchema.ts:156-167 | on a well-formed result sanitising only spreads identical scores |
| JsonExtract.StripFencesNoBacktick | src/lib/runDominanceRanking.ts:52 | text without a backtick has no fence to strip |
| JsonExtract.StripFencesShorter | src/lib/runDominanceRanking.ts:52 | removing fences never lengthens the text |
| JsonExtract.ExtractProperties | src/lib/runDominanceRanking.ts:51-59 | when the stripped text has a '{' before a '}', the result runs from the first '{' to the last '}' inclusive; with no such pair the stripped text is returned whole |
| JsonExtract.ExtractFenced | src/lib/runFrameMogV2.ts:85-93 | a reply wrapped in a ```json fence comes back as the bare object text |
| JsonExtract.StripFencesTail | src/lib/runFrameMogV2.ts:86 | a closing fence and the newline before it are removed from a backtick-free body |
| DominanceRun.MatchesLabelsExact | src/lib/runDominanceRanking.ts:69-73 | with distinct labels on both sides, matchesLabels holds exactly when the counts agree and the trimmed label sets are equal |
| DominanceRun.MatchesLabelsSpread | src/lib/runDominanceRanking.ts:69-73 | matchesLabels reads only labels, so spreading scores does not change it |
| DominanceRun.FindLabel | src/lib/runDominanceRanking.ts:81-83 | the first person whose trimmed lower-cased label equals the key, or -1 when none does |
| DominanceRun.UserRankProperties | src/lib/runDominanceRanking.ts:75-85 | a rank exists exactly when the user label is not blank and names a person, case and surrounding space ignored; it is then the 1-based position of its first match in the score-descending order, in [1, N], with only higher-or-equal scores before it |
| DominanceRun.UserRankExample | src/lib/runDominanceRanking.ts:75-85 | " person c" ranks 3rd in the default fallback |
| DominanceRun.IsFallbackResultCases | src/lib/runDominanceRanking.ts:87-94 | the default fallback is recognised; any five people labelled Person A..E are taken for it whatever their scores; other counts never are |
| DominanceRun.RunVisionWellFormed | src/lib/runDominanceRanking.ts:109-153 | every attempt, including an empty, thrown or unparsable reply, yields a well-formed result |
| DominanceRun.RunDominanceRanking | src/lib/runDominanceRanking.ts:100-173 | the runner's steps compute the run specification: the result and the number of vision calls made |
| DominanceRun.FinishProperties | src/lib/runDominanceRanking.ts:161-172 | the final result spreads the chosen attempt's scores, keeps its labels and count, falls back to the caller's user label, keeps a reported rank, computes a missing one in [1, N], and matches the labels exactly when the attempt does |
| DominanceRun.RunProperties | src/lib/runDominanceRanking.ts:155-172 | two vision calls are made exactly when the first result fails matchesLabels or looks like the fallback; the result finishes the attempt used; its rank is in [1, total]; it has at least 2 distinct labels with scores in [0, 100] |
| DominanceRun.ThrownFirstReplyRetries | src/lib/runDominanceRanking.ts:150-158 | a first call that throws always leads to the retry |
| FrameMogSchema.KeysDistinct | src/lib/frameMogSchema.ts:6-13 | the six metric keys are pairwise distinct |
| FrameMogSchema.AllMetrics | src/lib/frameMogSchema.ts:28-35 | a breakdown with exactly the six keys, each at the given value |
| FrameMogSchema.BreakdownOf | src/lib/frameMogSchema.ts:99 | the copied breakdown has exactly the six metric keys |
| FrameMogSchema.ValidateProperties | src/lib/frameMogSchema.ts:66-106 | validate gives DEFAULT_FALLBACK unless the input is an object with string photo_type and top_1_move, non-NaN scores, a six-key numeric breakdown and 3-6 string insights; then it copies every field; the result always has six metrics and 3-6 insights |
| FrameMogSchema.Clamp | src/lib/frameMogSchema.ts:108-113 | the result lies in [min, max], is the input when that already lies there, and is min for NaN |
| FrameMogSchema.MeanRange | src/lib/frameMogSchema.ts:129-143 | the mean of the clamped metrics and its rounding lie in [0, 100] |
| FrameMogSchema.FitInsights | src/lib/frameMogSchema.ts:157-169 | the insights end up 3-6 long: kept when already so, cut to the first six, or padded from the fallback's |
| FrameMogSchema.SanitizeFrameMog | src/lib/frameMogSchema.ts:122-183 | the sequence of clamping steps computes the sanitising specification |
| FrameMogSchema.ClampAllProperties | src/lib/frameMogSchema.ts:129-143 | the clamped breakdown has exactly the six keys, every value a number in [0, 100], NaN turned into 0 and in-range values kept, and its mean equals the mean taken by clamping each metric on the fly |
| FrameMogSchema.SanitizeProperties | src/lib/frameMogSchema.ts:115-183 | the result is sane: metrics in [0, 100], overall within 12 of the rounded mean, 0 <= overall <= potential <= 100, potential - overall at most 35 below 50 and 30 otherwise, 3-6 insights; NaN metrics become 0 and in-range ones are kept; overall is replaced by the rounded mean exactly when it deviates by more than 12; a potential below overall is raised to it, one between overall and overall plus the cap is kept, and one further above is cut to overall plus the cap; text fields are kept |
| FrameMogSchema.SanitizePotential | src/lib/frameMogSchema.ts:150-155 | the clamped potential is kept when it lies between overall and overall plus the cap (35 below 50, else 30), and cut to overall plus the cap above that |
| FrameMogSchema.BreakdownJsonValid | src/lib/frameMogSchema.ts:50-58 | a six-key breakdown written as an object passes isScoreBreakdown and reads back as itself |
| FrameMogSchema.StrArrayValid | src/lib/frameMogSchema.ts:60-64 | 3-6 strings written as an array pass isStringArray and read back as themselves |
| FrameMogSchema.ValidateToJson | src/lib/frameMogSchema.ts:70-106 | validating any result with six metrics and 3-6 insights gives it back unchanged |
| FrameMogSchema.SanitizeValidated | src/lib/frameMogSchema.ts:126 | sanitising a validated result is sanitising the raw input |
| FrameMogSchema.SanitizeFixesSane | src/lib/frameMogSchema.ts:122-183 | a sane result is a fixed point of sanitising |
| FrameMogSchema.SanitizeIdempotent | src/lib/frameMogSchema.ts:122-183 | sanitising twice is sanitising once |
| FrameMogSchema.ConsistencyExample | src/lib/frameMogSchema.ts:145-151 | with all metrics at 90 and overall 10, overall becomes 90 and a potential of 5 is raised to 90 |
| NormalizeFrameMog.SafeNum | src/lib/normalizeFrameMogResult.ts:24-27 | the fallback for a non-number or NaN; otherwise a whole number in [0, 100], the rounded input when that is in range |
| NormalizeFrameMog.SafeStr | src/lib/normalizeFrameMogResult.ts:29-31 | non-empty exactly when the input is a string that is not blank, and then it is the trimmed string |
| NormalizeFrameMog.SafeStrTrimmed | src/lib/normalizeFrameMogResult.ts:29-31 | a non-empty result has no whitespace at either end |
| NormalizeFrameMog.Step | src/lib/normalizeFrameMogResult.ts:36-40 | the step (`delta \|\| 1`) is between 1 and 8 |
| NormalizeFrameMog.DeriveScoreBreakdown | src/lib/normalizeFrameMogResult.ts:34-44 | the loop over the keys computes the derived breakdown |
| NormalizeFrameMog.FillMetrics | src/lib/normalizeFrameMogResult.ts:38-42 | after the loop every key holds base + offset * step clamped to [0, 100] |
| NormalizeFrameMog.DeriveProperties | src/lib/normalizeFrameMogResult.ts:34-44 | six whole metrics in [0, 100]: frame and style equal base, posture and presence base +/- d, composition and expression base +/- 2d, clamped, with d = min(8, floor((100 - base) / 6)) or 1 when that is 0 |
| NormalizeFrameMog.DeriveMeanNearBase | src/lib/normalizeFrameMogResult.ts:34-44 | the mean of the derived metrics lies within [base - 1, base + 4] |
| NormalizeFrameMog.TextsFromItems | src/lib/normalizeFrameMogResult.ts:52-78 | each collected text is the non-blank trimmed text of some item, and there are no more texts than items |
| NormalizeFrameMog.CollectTexts | src/lib/normalizeFrameMogResult.ts:53-59 | one loop pushes, in input order, the texts of the items that have one |
| NormalizeFrameMog.CollectV1Insights | src/lib/normalizeFrameMogResult.ts:47-81 | the three loops give the frame_leaks fixes, then the doing_right amplifies, then the photo_context strings, each in input order |
| NormalizeFrameMog.ImpactRank | src/lib/normalizeFrameMogResult.ts:84-89 | HIGH is 3, MEDIUM 2, LOW 1 (each if and only if), anything else 0 |
| NormalizeFrameMog.Candidates | src/lib/normalizeFrameMogResult.ts:99-105 | one candidate per item, read in order |
| NormalizeFrameMog.ScanIsBest | src/lib/normalizeFrameMogResult.ts:97-110 | no candidate with text beats the scan's pick (higher rank, or equal rank and more points), and the pick is the start or a candidate with text that beats the start |
| NormalizeFrameMog.ScanEarliest | src/lib/normalizeFrameMogResult.ts:97-110 | only strictly better replaces the pick, so a tie goes to the earliest: the pick is the start, or the candidate at a position k before which no candidate with text has the same rank and points (NaN included) |
| NormalizeFrameMog.ScanFromNobody | src/lib/normalizeFrameMogResult.ts:92-110 | from the initial best, the scan stays there exactly when no candidate with text beats it; otherwise the pick has text, beats the start, is beaten by none and tied by no earlier one |
| NormalizeFrameMog.ScanTieToPrefix | src/lib/normalizeFrameMogResult.ts:111-112 | a candidate with text among the first n that ties the pick puts the pick among the first n |
| NormalizeFrameMog.TopMoveIsBest | src/lib/normalizeFrameMogResult.ts:92-116 | the scan over the fixes then the amplifies stays at the initial best exactly when no item with text beats it, and the default move is returned then; otherwise the move is the text of a candidate that beats the initial best, that no item with text beats and that no earlier item with text ties, so a frame_leaks fix that ties the pick makes the pick a fix |
| NormalizeFrameMog.ConsiderAll | src/lib/normalizeFrameMogResult.ts:97-110 | the consider loop computes the scan over the candidates |
| NormalizeFrameMog.PickTop1Move | src/lib/normalizeFrameMogResult.ts:92-116 | the two consider calls compute the specified top move |
| NormalizeFrameMog.ExampleScan | src/lib/normalizeFrameMogResult.ts:106 | on a tie in rank and points the earlier candidate is kept, and a lower rank never wins on points |
| NormalizeFrameMog.TopMoveExample | src/lib/normalizeFrameMogResult.ts:92-116 | a HIGH fix beats an equal later fix and a MEDIUM amplify with more points |
| NormalizeFrameMog.NormalizeFrameMogResult | src/lib/normalizeFrameMogResult.ts:124-159 | the method computes the normaliser specification |
| NormalizeFrameMog.DefaultFallbackSane | src/lib/frameMogSchema.ts:37-48 | the default fallback is sane, so it leaves the sanitiser unchanged |
| NormalizeFrameMog.NormalizeSane | src/lib/normalizeFrameMogResult.ts:124-159 | every normalised result is sane (metrics in [0, 100], overall consistent with the mean, overall <= potential within the cap, 3-6 insights); a non-object gives the default fallback |
| NormalizeFrameMog.NormalizeV2 | src/lib/normalizeFrameMogResult.ts:129-133 | a present result_v2 decides the output alone: it is the sanitised result_v2 |
| NormalizeFrameMog.NormalizeV1 | src/lib/normalizeFrameMogResult.ts:135-155 | without result_v2: photo type "unknown", overall = safeNum(current_score, 50), potential = max(overall, min(overall + 15, 95)), the derived breakdown, the fitted v1 insights and the picked top move |
| NormalizeFrameMog.SyntheticShaped | src/lib/normalizeFrameMogResult.ts:146-153 | the synthetic v1 result has six metrics and 3-6 insights, so validation keeps it whole |
| FrameMogRun.FallbacksRecognised | src/lib/runFrameMogV2.ts:9-29 | PHOTOGRAPHY_SAFE_FALLBACK is sane and unchanged by sanitising, and is not taken for a validation fallback; DEFAULT_FALLBACK is |
| FrameMogRun.FailedReplyIsFallback | src/lib/runFrameMogV2.ts:121-151 | a call that throws, a blank reply, or a reply that does not validate gives a result isValidationFallback recognises |
| FrameMogRun.RunFrameMogV2 | src/lib/runFrameMogV2.ts:116-186 | the runner's reassignments compute the run specification: the result and the number of vision calls |
| FrameMogRun.RunProperties | src/lib/runFrameMogV2.ts:153-171 | a second call is made exactly when the first result is a validation fallback; a good first or second result is returned sanitised; two fallbacks give PHOTOGRAPHY_SAFE_FALLBACK; the result is always sane |
| Retry.ParseWithRetry | lib/analysis/retry.ts:3-20 | the attempt loop with its early return and break computes the retry specification: the ending and the number of calls |
| Retry.RetryFromProperties | lib/analysis/retry.ts:9-19 | from attempt k: past the limit the last error is raised at once; otherwise calls stop at the first attempt that parses, whose value is returned, and an error is raised only when all remaining attempts throw, carrying the last one's error |
| Retry.ParseWithRetryProperties | lib/analysis/retry.ts:3-20 | at most maxAttempts calls and at least one when maxAttempts >= 1; every call before the last threw; a return carries the last call's value; an error is raised exactly when every attempt throws, carrying the last attempt's error; maxAttempts <= 0 raises undefined with no call |
| Retry.SecondAttemptSucceeds | lib/analysis/retry.ts:6-13 | with the default of two attempts, a first failure followed by a success returns the second value after two calls |
| MetricLabels.TableProperties | src/lib/frameMogLabels.ts:7-66 | the table has seven photo types, "unknown" holds the default labels, and every label is non-empty |
| MetricLabels.GetMetricLabelProperties | src/lib/frameMogLabels.ts:68-71 | a known photo type gives its own label for the key, any other the default label, and the label is never empty |
| MetricLabels.DefaultLabelsCapitalised | src/lib/frameMogLabels.ts:56-63 | each default label is its metric key with the first letter upper-cased |
| MetricLabels.AsWrittenAgrees | src/lib/frameMogLabels.ts:68-71 | for a photo type not inherited by every object, the lookup as written gives the intended label |
| MetricLabels.InheritedPhotoType | src/lib/frameMogLabels.ts:68-71 | photo type "constructor" shows the raw key "frame" as written, and "Frame" once the lookup uses own keys only |
| CalibrationSteps.Tagged | src/lib/calibrate/steps.ts:169-172 | each question of a step, in order, tagged with the step's id as its category |
| CalibrationSteps.StepShape | src/lib/calibrate/steps.ts:10-168 | four steps of 3, 5, 3 and 3 questions, flattened in step order into ALL_QUESTIONS |
| CalibrationSteps.QuestionIdsDistinct | src/lib/calibrate/steps.ts:10-168 | the fourteen question ids are pairwise distinct |
| CalibrationSteps.AllQuestionsProperties | src/lib/calibrate/steps.ts:1-172 | ALL_QUESTIONS has 14 single-choice questions whose ids, in order, are the distinct question ids |
| CalibrationSubmit.StepKey | src/lib/calibrate/submit.ts:66 | the step index 0..3 names step1..step4 |
| CalibrationSubmit.CollectStepAnswers | src/lib/calibrate/submit.ts:67-71 | the inner loop keeps exactly the step's non-empty answers |
| CalibrationSubmit.MapAnswersToSteps | src/lib/calibrate/submit.ts:46-75 | the loops compute the mapping specification |
| CalibrationSubmit.FillSteps | src/lib/calibrate/submit.ts:63-73 | the outer loop sets one entry per step to that step's answers |
| CalibrationSubmit.EntriesUpToAt | src/lib/calibrate/submit.ts:63-73 | after the first n steps, those steps' keys hold their entries and the later keys are still null |
| CalibrationSubmit.EntryProperties | src/lib/calibrate/submit.ts:67-72 | a step's entry is null exactly when none of its questions has a non-empty answer; otherwise it holds exactly those questions with their answers |
| CalibrationSubmit.MapAnswersToStepsProperties | src/lib/calibrate/submit.ts:46-75 | the result has exactly the keys step1..step4, and step k + 1 holds the entry of step k's questions |
| CalibrationSubmit.StrayAnswersDropped | src/lib/calibrate/submit.ts:68-70 | an answer to a question of no step appears in no step's entry |
| CalibrationWizard.TotalIsQuestionCount | src/hooks/useCalibrationWizard.ts:78 | TOTAL_QUESTIONS is the number of questions, 14 |
| CalibrationWizard.FirstUnanswered | src/hooks/useCalibrationWizard.ts:25 | the first question without a truthy answer, or -1 when all are answered |
| CalibrationWizard.DeriveQuestionIndex | src/hooks/useCalibrationWizard.ts:23-27 | an index in [0, 13]: the first unanswered question, or the last one when all are answered |
| CalibrationWizard.LoadDraft | src/hooks/useCalibrationWizard.ts:29-46 | the loaded index lies in [0, 13], and is whole when the stored one is |
| CalibrationWizard.LoadDraftProperties | src/hooks/useCalibrationWizard.ts:29-46 | no draft or a wrong version gives no answers at question 0; otherwise the stored answers (or none), the stored index capped at 13 when it is a number >= 0, and the derived index otherwise |
| CalibrationWizard.SavedDraftLoadsBack | src/hooks/useCalibrationWizard.ts:48-67 | a draft the wizard saves loads back as exactly the saved answers and index |
| CalibrationWizard.Progress | src/hooks/useCalibrationWizard.ts:97-102 | progress lies in [5, 100] |
| CalibrationWizard.Wizard.constructor | src/hooks/useCalibrationWizard.ts:80-88 | the hook starts from the loaded draft, and its state is valid when the stored index is whole |
| CalibrationWizard.Wizard.FlagsAtQuestion | src/hooks/useCalibrationWizard.ts:90-96 | at question k: the current question is the k-th, canNext iff it has a truthy answer, canBack iff k > 0, isLast iff k = 13 |
| CalibrationWizard.Wizard.SetAnswer | src/hooks/useCalibrationWizard.ts:104-113 | the answer is recorded, the index is kept, the draft is saved, and the state stays valid |
| CalibrationWizard.Wizard.Next | src/hooks/useCalibrationWizard.ts:115-124 | one question on and the draft saved, unless already at the last question, when nothing changes |
| CalibrationWizard.Wizard.Back | src/hooks/useCalibrationWizard.ts:126-135 | one question back and the draft saved, unless already at the first question, when nothing changes |
| CalibrationWizard.Wizard.Reset | src/hooks/useCalibrationWizard.ts:137-141 | back to question 0 with no answers, and the draft removed |
| CalibrationWizard.StoredMatchesState | src/hooks/useCalibrationWizard.ts:29-67 | after any saving step, reloading the stored draft restores the wizard's state |
| RedirectGuard.ValidateNext | app/login/page.tsx:19-26 | `next` is followed, unchanged, exactly when it is non-empty, starts with "/" but not "//", holds no "http://" or "https://" in any case, and starts with an allowed section; otherwise null |
| RedirectGuard.RedirectToProperties | app/login/page.tsx:31-33 | the page goes to an accepted `next`, and to /calibrate otherwise, so the target is always an allowed section and never protocol-relative |
| RedirectGuard.SchemesRefused | app/signup/page.tsx:22-29 | a value holding "http://" or "https://" in any mix of cases is refused |
| RedirectGuard.ProtocolRelativeRefused | app/login/page.tsx:21 | "//evil.example/results" is refused |
| RedirectGuard.UpperCaseSchemeRefused | app/login/page.tsx:22-23 | "/results?next=HTTPS://x" is refused |
| RedirectGuard.AppPathAccepted | app/login/page.tsx:19-26 | "/results/abc" passes unchanged |
| RedirectGuard.OtherSectionRefused | app/login/page.tsx:24 | "/admin" is refused |
| RedirectGuard.NoColonNoScheme | app/login/page.tsx:23 | a value without ':' cannot hold a URL scheme |
| Seo.StripTrailingSlashes | lib/seo.ts:9 | the result is the input less a trailing run of slashes, and does not end in a slash |
| Seo.TrimLeadingSlashes | lib/seo.ts:31 | the result is the input less its leading run of slashes, and does not start with one |
| Seo.CollapseSlashes | lib/seo.ts:31 | no "//" is left, the first character is kept, and the non-slash characters are unchanged in order |
| Seo.CollapseFixed | lib/seo.ts:31 | a string with no "//" is left as it is |
| Seo.CollapseMatchesReference | lib/seo.ts:31 | collapsing equals the reference scan that drops exactly the slashes following a slash, so where every slash goes is fixed |
| Seo.CollapseDoubleSlash | lib/seo.ts:31 | a "//" anywhere in a string collapses exactly like a single "/" in its place |
| Seo.CollapseLeadingRun | lib/seo.ts:31 | a leading run of slashes collapses exactly like one leading slash |
| Seo.PathPart | lib/seo.ts:31-33 | the path part starts with "/", has no "//", and keeps the non-slash characters of the trimmed path |
| Seo.PathPartExact | lib/seo.ts:31-33 | the path part is exactly "/" and the trimmed path with every slash that follows a slash removed |
| Seo.CanonicalPathExact | lib/seo.ts:30-35 | the canonical URL is exactly the stripped site URL, "/" and the trimmed path with every slash that follows a slash removed |
| Seo.CanonicalPath | lib/seo.ts:30-35 | the canonical URL is the site URL without trailing slashes followed by "/" and a path with no "//" holding the trimmed path's non-slash characters in order |
| Seo.CanonicalRoot | lib/seo.ts:30-35 | both "" and "/" give the site root followed by one "/" |
| Seo.CanonicalKeepsCleanPath | lib/seo.ts:30-35 | a trimmed path starting with "/" and free of "//" is appended unchanged |
| Seo.ForceHttps | lib/seo.ts:11-12 | the URL starts with https:// in any case and keeps its last character: http:// is replaced, https:// kept, and a URL without a scheme is prefixed |
| Seo.NormalizedUrl | lib/seo.ts:8-22 | a URL blank after trimming and stripping gives the fallback; otherwise its https-forced form is returned exactly when its hostname parses and is not local, and the fallback is returned when the hostname does not parse or is local; any non-fallback result starts with https://, has no trailing slash and a non-local host |
| Seo.NormalizeUrl | lib/seo.ts:8-22 | the reassignments of `u` compute the normalised URL, with both directions of the fallback rule above |
| Seo.FallbackForced | lib/seo.ts:6-12 | the fallback URL is its own https-forced stripped form |
| Seo.FallbackHostNotLocal | lib/seo.ts:15 | framemogr.com is not a local host |
| Seo.UnconfiguredSiteUrl | lib/seo.ts:24-28 | without NEXT_PUBLIC_SITE_URL, SITE_URL is the fallback itself |
| Seo.ValidFaqs | lib/seo.ts:99-105 | the filter keeps only entries whose question and answer are non-blank strings |
| Seo.ValidFaqsProperties | lib/seo.ts:99-105 | the filter keeps exactly the valid entries, in input order |
| Seo.BuildFaqPageJsonLd | lib/seo.ts:97-116 | null exactly when fewer than two entries are valid; otherwise one question per valid entry, in order, with trimmed question and answer |
| Seo.FaqPageTexts | lib/seo.ts:110-114 | every emitted question and answer is non-empty and already trimmed |
| Seo.BuildBlogPostingJsonLd | lib/seo.ts:64-86 | the fields are copied, the publisher is the organisation, the author defaults to FrameMog, the author's url appears exactly when it is non-empty, and keywords appear exactly when the list is non-empty, joined by ", " |
| Seo.BuildArticleJsonLd | lib/seo.ts:88-93 | the same object as the blog posting with type Article |
| Seo.KeywordsJoined | lib/seo.ts:83-84 | one keyword is emitted as it is; each further one adds ", " and itself |
| RssEscape.EscapeXmlAppend | app/rss.xml/route.ts:5-12 | escaping distributes over concatenation |
| RssEscape.EscapeXmlIsEscaped | app/rss.xml/route.ts:5-12 | the chain of five global replaces escapes each character on its own, "&" included exactly once |
| RssEscape.EscapeXmlNoMarkup | app/rss.xml/route.ts:5-12 | the output holds no <, >, " or ' |
| RssEscape.EscapeXmlAmpersands | app/rss.xml/route.ts:7 | every '&' of the output begins one of the five entities |
| RssEscape.EscapeXmlClean | app/rss.xml/route.ts:5-12 | a string without special characters is returned unchanged |
| RssEscape.AmpersandEscapedFirst | app/rss.xml/route.ts:7-8 | "&" becomes "&amp;" and is not escaped again by the later replaces |
| RssEscape.EscapeXmlRoundTrip | app/rss.xml/route.ts:5-12 | decoding the five entities of the output gives the input back, so different strings escape differently |
| JsonLd.EscapeJsonLd | components/JsonLd.tsx:6-8 | the output holds no '<' |
| JsonLd.EscapeJsonLdPieces | components/JsonLd.tsx:6-8 | escaping distributes over concatenation: each '<' becomes < and every other character stays |
| JsonLd.EscapeJsonLdLength | components/JsonLd.tsx:6-8 | the output is five characters longer per '<' |
| JsonLd.EscapeJsonLdIdempotent | components/JsonLd.tsx:6-12 | escaping twice is escaping once, and JSON without '<' is left as it is |
| Entitlements.HasPaidAccess | src/lib/entitlements.ts:30-40 | no entitlement or a status other than trialing/active gives no access; a live status gives access exactly when there is no period end or it lies after now |
| Entitlements.AccessOnlyExpires | src/lib/entitlements.ts:35-40 | access held at a later time was held at every earlier time |
| Entitlements.AccessUntilPeriodEnd | src/lib/entitlements.ts:37-39 | a live subscription with a period end has access exactly before that end |
| StripeStatus.SubscriptionStatusToDb | app/api/stripe/webhook/route.ts:45-61 | one of the five stored statuses: trialing, active and past_due kept, canceled/unpaid/incomplete/incomplete_expired mapped to canceled, anything else inactive |
| StripeStatus.StatusToDbIdempotent | app/api/stripe/webhook/route.ts:45-61 | mapping a stored status again changes nothing |
| StripeStatus.StoredStatusAccess | app/api/stripe/webhook/route.ts:45-61 | a status mapped by subscriptionStatusToDb grants paid access only when Stripe reported trialing or active |
| ResultsPage.LeastOfProperties | app/results/page.tsx:36-44 | the loop state after all keys: no key is found exactly when no value (missing read as 100) is below 101, and then minVal stays 101; a found key holds minVal, which is no greater than any value, and every value before it is strictly greater |
| ResultsPage.ScanLeast | app/results/page.tsx:36-44 | the loop computes minKey and minVal of that specification |
| ResultsPage.GetWeakestMetricLabel | app/results/page.tsx:32-46 | the label of the first lowest metric, or "—" when none is below 101, looked up with the corrected getMetricLabel; for every photo type that is not an inherited object member it is also the caption getMetricLabel gives as written |
| ResultsPage.WeakestLabelAgrees | app/results/page.tsx:32-46 | outside the inherited object member names, the caption from the corrected lookup equals the caption as written |
| ResultsPage.WeakestMatchesGrid | app/results/page.tsx:32-46 | on a breakdown of six numbers in [0, 100], a weakest metric is always found and is the one the breakdown card marks weakest |
| ResultsPage.DominanceOf | app/results/page.tsx:75-84 | a ranking is used exactly when the stored one is an object with a people array of at least two, and it is then the sanitised, well-formed result |
| ResultsPage.SelectedPerson | app/results/page.tsx:86-91 | a ranked person is picked exactly when one's trimmed lower-cased label equals the selected label's, and it is such a person |
| ResultsPage.DisplayNormalizedProperties | app/results/page.tsx:93-107 | without a ranked person the analysis is shown as it is; with one, overall is their score, potential keeps the analysis's headroom capped at 100, the breakdown is derived from that score, and the other fields are kept |
| ResultsPage.LowestMetricNamed | app/results/page.tsx:184-187 | the lowest metric shown always names a metric, never "—", and it is the card's weakest |
| ResultsPage.PeopleListProperties | app/results/page.tsx:119-128 | the stored rows are used as read when there are any; otherwise one row per detected person, in order, with its name, box and position as sort order |
| ResultsPage.IndexOfName | app/results/page.tsx:169 | the first row whose label equals the selected one exactly, or -1 |
| ResultsPage.WithDominanceProperties | app/results/page.tsx:141-165 | leaderboard items are the ranking sorted by score descending (a permutation), ranked 1..N, with their scores, "you" exactly for the matching label key; the reported rank is used when present, otherwise the first "you" item's rank, which exists exactly when a label is selected and matches |
| ResultsPage.WithoutDominanceProperties | app/results/page.tsx:166-178 | without a ranking: one unscored item per person in list order, total max(1, N), scoring on; no rank when nothing is selected; otherwise the rank is in [1, total]: the first exact match's, or 1 when there is none |
| ResultsPage.AsWrittenRankZero | app/results/page.tsx:168-170 | as written, a selected label not in the list gives rank 0 (findIndex gives -1, and `?? 0` never applies); in every other case it agrees with the corrected rank |
| ResultsPage.AsWrittenRankZeroExample | app/results/page.tsx:115-170 | detected ["Person A"] with "Person B" selected shows rank 0 of 1 as written, and rank 1 corrected |
| ResultsPage.Leaderboard | app/results/page.tsx:141-178 | the board, with the corrected unranked branch: with a ranking, one item per ranked person, the stored total and no scoring state; without one, one item per listed person, a total of max(1, N), and the scoring state |
| ResultsPage.LeaderboardRankInRange | app/results/page.tsx:141-178 | with the corrected unranked branch, a rank shown always lies in [1, totalPeople]; with the branch as written it does too, except that without a ranking a non-empty selected label missing from the list shows rank 0 |
| ResultsPage.ScoreOfProperties | app/results/page.tsx:189-197 | a person's score is in [0, 100]; it is 0 without a ranking or a matching label key; a nonzero score is a matching ranked person's |
| ResultsPage.OverlayPeopleAppend | app/results/page.tsx:199-208 | the overlay filter and map go row by row: they distribute over concatenation |
| ResultsPage.OverlayPeopleSingle | app/results/page.tsx:199-208 | one row appears in the overlay exactly when its crop box has a numeric x, as its own entry |
| ResultsPage.OverlayPeopleProperties | app/results/page.tsx:189-208 | no more overlay people than rows, each built from a row whose crop box has a numeric x, scores in [0, 100], and every row kept when all have such a box |
| ScoreOverlay.Highest | components/ScoreOverlay.tsx:29-30 | the maximum of a non-empty list: no score exceeds it and someone holds it |
| ScoreOverlay.IndexOfScore | components/ScoreOverlay.tsx:32 | the first person with the score, or -1 |
| ScoreOverlay.IndexOfLabel | components/ScoreOverlay.tsx:59 | the first person with the label, or -1 |
| ScoreOverlay.CountAboveMonotone | components/ScoreOverlay.tsx:33-34 | a higher threshold counts no more people, and strictly fewer when someone's score lies between the two |
| ScoreOverlay.RankProperties | components/ScoreOverlay.tsx:33-34 | every rank is in [1, N]; equal scores share a rank; a strictly higher score gets a strictly smaller rank |
| ScoreOverlay.MaxHolderRanksFirst | components/ScoreOverlay.tsx:29-34 | whoever holds the maximum has rank 1 |
| ScoreOverlay.TopMoggerProperties | components/ScoreOverlay.tsx:29-59 | maxScore is 0 for nobody; nobody is top unless the maximum is positive; with distinct labels a person is top exactly when they are the first holding the maximum; the top badge's label first occurs at a holder of the maximum |
| BreakdownGrid.FindEqual | components/ResultsBreakdownGrid.tsx:41-44 | the first key whose value is `===` the extreme, or -1 |
| BreakdownGrid.MarkedIndex | components/ResultsBreakdownGrid.tsx:41-44 | the marked key is always one of the six |
| BreakdownGrid.ExtremeProperties | components/ResultsBreakdownGrid.tsx:38-40 | Math.min / Math.max of the values is NaN exactly when some value is; otherwise it is one of the values and no value lies beyond it |
| BreakdownGrid.MarkedProperties | components/ResultsBreakdownGrid.tsx:37-46 | with a NaN the first key is marked; otherwise the marked key holds the extreme and every key before it is strictly less extreme |
| BreakdownGrid.WeakestHighestProperties | components/ResultsBreakdownGrid.tsx:37-46 | both marked keys are metric keys; a NaN marks "frame" for both; otherwise the weakest value <= every value <= the highest |
| BreakdownGrid.AllEqualMarksFrame | components/ResultsBreakdownGrid.tsx:41-44 | when all six values are equal, "frame" is both weakest and highest |
| BreakdownGrid.RowsProperties | components/ResultsBreakdownGrid.tsx:53-61 | six rows in key order under non-empty labels (from the corrected getMetricLabel), each showing the stored value or 50, with exactly the weakest row and exactly the highest row flagged |
| BreakdownGrid.RowCaptionsAsWritten | components/ResultsBreakdownGrid.tsx:53-61 | outside the inherited object member names, every row caption equals the one getMetricLabel gives as written |
| BreakdownGrid.MissingMetricRankedAsZero | components/ResultsBreakdownGrid.tsx:38-57 | with "frame" missing and the other values numbers >= 0, frame is shown as 50 but marked weakest, because it is ranked as 0 |
| OverlaySelector.StripPersonPrefix | components/PersonOverlaySelector.tsx:18 | a leading "Person" in any case followed by whitespace goes together with that whitespace; any other name is kept |
| OverlaySelector.LabelToLetter | components/PersonOverlaySelector.tsx:16-20 | one character: "?" exactly when nothing, or a '?', is left after the prefix and trimming; otherwise the first remaining character upper-cased |
| OverlaySelector.PlainLabelLetter | components/PersonOverlaySelector.tsx:17-20 | a non-blank name without the prefix shows its first non-space character upper-cased |
| OverlaySelector.PersonLabelLetter | components/PersonOverlaySelector.tsx:16-20 | the marker of getPersonLabel(i) shows the first of its letters |
| OverlaySelector.AnyCasePrefix | components/PersonOverlaySelector.tsx:18 | the prefix is matched in any case and a whitespace run of any length after it goes too |
| OverlaySelector.LettersRepeatFromTwentySeven | components/PersonOverlaySelector.tsx:17-20 | the 1st and 27th person both show "A" |
| OverlaySelector.ClampAxisProperties | components/PersonOverlaySelector.tsx:161-162 | a clamped coordinate is at least r; at most size - r when the container is two radii long; unchanged when already inside; r when the container is shorter |
| OverlaySelector.PlaceMarker | components/PersonOverlaySelector.tsx:155-162 | the marker has radius 24 when selected and 20 otherwise, and its centre is at least one radius from the top-left edges |
| OverlaySelector.MarkerInside | components/PersonOverlaySelector.tsx:155-162 | in a container at least 48 px each way the whole marker lies inside, and a box centre already one radius inside is drawn exactly there |
| StableSort.SortBy | lib/analysis/detectedPeopleSort.ts:20-24 | the sorted copy has the input's length and is a permutation of it (same multiset) |
| StableSort.SortBySorted | lib/analysis/detectedPeopleSort.ts:20-24 | the sorted copy is ordered by the key |
| StableSort.SortByStable | lib/analysis/detectedPeopleSort.ts:20-24 | items with equal keys keep their input order: the items with any given key appear in the sorted copy exactly as in the input |
| StableSort.SortBySortedIdentity | lib/analysis/detectedPeopleSort.ts:20-24 | sorting an input that is already ordered by the key returns it unchanged |

## Left out

- OpenAI Vision calls and the prompt texts: the replies are given to the runners as a sequence of abstract values, and with them the `JSON.parse` result of each reply.
- `parseRunResponse` and `parseRunResponseSafe`: their behaviour is the zod schema library's, which is not part of this model.
- `sessionStorage` reads and writes: the stored draft is a field of the wizard, which `SetAnswer`, `Next`, `Back` and `Reset` rewrite; storage failures are not modelled.
- `JSON.stringify`: the JSON-LD escaper works on the serialised string, not on the object.
- The `URL` parser: `normalizeUrl` takes the hostname lookup as a function parameter (None where the parser throws).
- Date parsing and the clock: `hasPaidAccess` takes the current time as a number and the date parser as a function parameter.
- Database reads on the results page: the analysis row and the detected people are parameters, and a people read that fails counts as an empty list.
- The `console.log` call of `runFrameMogV2`: it has no effect on the result.
- sharp image decoding, rotation, extraction and resizing: only the crop rectangle is modelled, from given metadata.
- `getMyEntitlement`, `ensureProfile` and the Stripe webhook apart from `subscriptionStatusToDb`: database and payment provider I/O.
- The network requests of `submitCalibrationAndStart`: only `mapAnswersToSteps` is modelled.
- Rendering of every component: only the values the components compute are modelled.
- JS double rounding: numbers are exact reals, so the hash fallback's `|h| / 2147483647 * 41` and all clamps are exact. The 32-bit wrap of `hashString` is written out.
- `toLowerCase`, `toUpperCase` and the `/i` regex flag are modelled on ASCII letters only.
- `Array.prototype.sort` is modelled as a stable insertion sort on a copy (`StableSort`), not in place. The engine's own algorithm is not modelled, only its stability and result.
- ResultsPage.GetWeakestMetricLabel: the caption comes from the corrected label lookup, so for a photo type naming an inherited object member (such as "constructor") it is the default label ("Frame") where the page as written shows the raw key ("frame"). `WeakestLabelAsWritten` is the as-written caption, and the two agree outside those names.
- ResultsPage.Leaderboard: the unranked branch is the corrected `WithoutDominance`, never rank 0. `LeaderboardAsWritten` is the page as written, and LeaderboardRankInRange states where the two differ.
- ResultsPage.LeaderboardRankInRange: the range [1, totalPeople] is promised for the corrected board. For the board as written it holds except for the missing-label case, where the rank is 0.
- BreakdownGrid.Rows: the captions come from the corrected label lookup, as for GetWeakestMetricLabel. RowCaptionsAsWritten ties them to the as-written lookup outside the inherited names.
- The checkout handler of the Stripe webhook is I/O and is not modelled, but StoredStatusAccess covers every status it can store. Its `: "active"` fallback for a checkout without a retrieved subscription (app/api/stripe/webhook/route.ts:124) never reaches the database. With `sub` null, the next statement (:126) reads `current_period_end` on null and throws before `upsertEntitlement` (:130). The catch at :222-223 only logs it, so no entitlement row is written. Every status that is stored goes through `subscriptionStatusToDb`: at :124 when a subscription was retrieved, and at :171 in the subscription events.
- OverlaySelector.LabelToLetter: strings are sequences of Unicode characters, so for a name starting with a character above U+FFFF the model shows the whole character, where `slice(0, 1)` shows a lone high surrogate.
- CalibrationWizard.LoadDraft: a stored `answers` of the wrong type (say a string) is read as no answers, whereas `parsed?.answers ?? {}` keeps it as it is.
- FaceBoxes.DedupeFaces: requires that no box field is NaN (also FaceBoxes.DedupeProperties and FaceBoxes.Filtered), because its input comes from `JSON.parse`, which never produces NaN.

## Findings

| source | as written | input that shows it | evidently intended | confidence | as-written member | corrected member |
|---|---|---|---|---|---|---|
| app/results/page.tsx:168-170 | without a dominance result, the rank of "you" is `(findIndex(...) ?? 0) + 1`; `findIndex` returns -1 and never null, so a selected label that is not in the list gets rank 0 | detected people ["Person A"], selected label "Person B", no dominance result | rank 1 (the `?? 0` fallback), never 0 | not executed | ResultsPage.WithoutDominanceAsWritten, ResultsPage.AsWrittenRankZero, ResultsPage.AsWrittenRankZeroExample | ResultsPage.WithoutDominance, ResultsPage.WithoutDominanceProperties |
| src/lib/frameMogLabels.ts:68-71 | `LABELS[photoType] ?? DEFAULT_LABELS` looks the photo type up on a plain object, so a type naming an inherited member such as "constructor" finds that member, and the caption falls back to the raw key "frame" | photo type "constructor", key "frame" | the "unknown" caption "Frame" | not executed | MetricLabels.GetMetricLabelAsWritten, MetricLabels.InheritedPhotoType | MetricLabels.GetMetricLabel, MetricLabels.GetMetricLabelProperties, MetricLabels.AsWrittenAgrees |
