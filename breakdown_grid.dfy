/**
 * The six-metric breakdown card (components/ResultsBreakdownGrid.tsx): which metric is marked
 * weakest and which highest, and the rows the card shows. The extremes are computed on
 * `breakdown[k] ?? 0` with Math.min / Math.max, which give NaN as soon as one value is NaN; the
 * first key whose value is `===` the extreme is marked, and "frame" when none is.
 */
module BreakdownGrid {
  import opened Js
  import opened Json
  import FrameMogSchema
  import MetricLabels

  /** `breakdown[k] ?? 0`, the value the extremes are computed on. */
  function Value(b: map<string, Num>, k: string): Num {
    if k in b then b[k] else Real(0.0)
  }

  /** `===` on numbers: NaN equals nothing. */
  predicate StrictEq(x: Num, y: Num) {
    x.Real? && y.Real? && x.r == y.r
  }

  /** v is no more extreme than m: no larger when the highest is sought, no smaller otherwise. */
  predicate Within(v: real, m: real, highest: bool) {
    if highest then v <= m else m <= v
  }

  /** Math.max (highest) or Math.min of two numbers. */
  function Pick(x: Num, y: Num, highest: bool): Num {
    if x.NaN? || y.NaN? then NaN
    else if highest then Real(MaxR(x.r, y.r))
    else Real(MinR(x.r, y.r))
  }

  /** `Math.max(...values)` or `Math.min(...values)` over the keys' values. */
  function Extreme(ks: seq<string>, b: map<string, Num>, highest: bool): Num
    requires |ks| > 0
  {
    if |ks| == 1 then Value(b, ks[0]) else Pick(Value(b, ks[0]), Extreme(ks[1..], b, highest), highest)
  }

  /** `findIndex(([, v]) => v === m)`. */
  function FindEqual(ks: seq<string>, b: map<string, Num>, m: Num): (r: int)
    ensures -1 <= r < |ks|
    ensures r >= 0 ==> StrictEq(Value(b, ks[r]), m)
    ensures forall i | 0 <= i < |ks| && (r == -1 || i < r) :: !StrictEq(Value(b, ks[i]), m)
  {
    if ks == [] then -1
    else if StrictEq(Value(b, ks[0]), m) then 0
    else
      var r := FindEqual(ks[1..], b, m);
      assert forall i | 1 <= i < |ks| :: ks[i] == ks[1..][i - 1];
      if r == -1 then -1 else r + 1
  }

  /** The index in KEYS of the marked metric: the first holding the extreme, or 0. */
  function MarkedIndex(b: map<string, Num>, highest: bool): (r: int)
    ensures 0 <= r < |FrameMogSchema.Keys|
  {
    var i := FindEqual(FrameMogSchema.Keys, b, Extreme(FrameMogSchema.Keys, b, highest));
    if i >= 0 then i else 0
  }

  /** weakestKey. */
  function WeakestKey(b: map<string, Num>): string {
    FrameMogSchema.Keys[MarkedIndex(b, false)]
  }

  /** highestKey. */
  function HighestKey(b: map<string, Num>): string {
    FrameMogSchema.Keys[MarkedIndex(b, true)]
  }

  predicate AllReal(ks: seq<string>, b: map<string, Num>) {
    forall i | 0 <= i < |ks| :: Value(b, ks[i]).Real?
  }

  /** The extreme is NaN exactly when some value is; otherwise it is one of the values and no
      value lies beyond it. */
  lemma {:induction false} ExtremeProperties(ks: seq<string>, b: map<string, Num>, highest: bool)
    requires |ks| > 0
    ensures Extreme(ks, b, highest).NaN? <==> !AllReal(ks, b)
    ensures AllReal(ks, b) ==>
      && (exists i | 0 <= i < |ks| :: Value(b, ks[i]) == Extreme(ks, b, highest))
      && forall i | 0 <= i < |ks| :: Within(Value(b, ks[i]).r, Extreme(ks, b, highest).r, highest)
    decreases |ks|
  {
    assert forall i | 1 <= i < |ks| :: ks[i] == ks[1..][i - 1];
    if |ks| > 1 {
      ExtremeProperties(ks[1..], b, highest);
      if AllReal(ks, b) {
        assert AllReal(ks[1..], b) by {
          forall i | 0 <= i < |ks[1..]| ensures Value(b, ks[1..][i]).Real? {
            assert ks[1..][i] == ks[i + 1];
          }
        }
        var rest := Extreme(ks[1..], b, highest);
        var j :| 0 <= j < |ks[1..]| && Value(b, ks[1..][j]) == rest;
        if Extreme(ks, b, highest) == Value(b, ks[0]) {
        } else {
          assert Value(b, ks[j + 1]) == Extreme(ks, b, highest);
        }
      } else {
        var i :| 0 <= i < |ks| && !Value(b, ks[i]).Real?;
        if i > 0 {
          assert !Value(b, ks[1..][i - 1]).Real?;
        }
      }
    }
  }

  /** With every value a number, the marked metric holds the extreme and is the first that does:
      every metric before it is strictly less extreme. With a NaN among them, "frame" is marked. */
  lemma MarkedProperties(b: map<string, Num>, highest: bool)
    ensures var keys := FrameMogSchema.Keys;
      var w := MarkedIndex(b, highest);
      && (!AllReal(keys, b) ==> w == 0)
      && (AllReal(keys, b) ==>
            && (forall i | 0 <= i < |keys| :: Within(Value(b, keys[i]).r, Value(b, keys[w]).r, highest))
            && (forall i | 0 <= i < w :: !Within(Value(b, keys[w]).r, Value(b, keys[i]).r, highest)))
  {
    var keys := FrameMogSchema.Keys;
    ExtremeProperties(keys, b, highest);
    var m := Extreme(keys, b, highest);
    if AllReal(keys, b) {
      var j :| 0 <= j < |keys| && Value(b, keys[j]) == m;
      assert StrictEq(Value(b, keys[j]), m);
    }
  }

  /** The weakest metric has the lowest value and every metric before it is higher; the highest
      metric has the highest value and every metric before it is lower; a NaN anywhere marks
      "frame" for both. */
  lemma WeakestHighestProperties(b: map<string, Num>)
    ensures var keys := FrameMogSchema.Keys;
      && WeakestKey(b) in keys && HighestKey(b) in keys
      && (!AllReal(keys, b) ==> WeakestKey(b) == "frame" && HighestKey(b) == "frame")
      && (AllReal(keys, b) ==> forall k | k in keys ::
            Value(b, WeakestKey(b)).r <= Value(b, k).r <= Value(b, HighestKey(b)).r)
  {
    MarkedProperties(b, false);
    MarkedProperties(b, true);
  }

  /** When all six metrics are equal, "frame" is both the weakest and the highest. */
  lemma AllEqualMarksFrame(b: map<string, Num>, x: real)
    requires forall k | k in FrameMogSchema.KeySet :: Value(b, k) == Real(x)
    ensures WeakestKey(b) == "frame" && HighestKey(b) == "frame"
  {
    var keys := FrameMogSchema.Keys;
    assert Value(b, keys[0]) == Real(x);
    ExtremeProperties(keys, b, false);
    ExtremeProperties(keys, b, true);
    var j :| 0 <= j < |keys| && Value(b, keys[j]) == Extreme(keys, b, false);
    var h :| 0 <= h < |keys| && Value(b, keys[h]) == Extreme(keys, b, true);
    assert FindEqual(keys, b, Extreme(keys, b, false)) == 0;
    assert FindEqual(keys, b, Extreme(keys, b, true)) == 0;
  }

  /** One MetricRow. */
  datatype Row = Row(key: string, caption: string, value: Num, isWeakest: bool, isHighest: bool)

  /** `breakdown[k] ?? 50`, the value a row shows. */
  function Shown(b: map<string, Num>, k: string): Num {
    if k in b then b[k] else Real(50.0)
  }

  /** The rows of the card, one per key of KEYS in order, captioned by the intended label
      lookup MetricLabels.GetMetricLabel. */
  function Rows(photoType: string, b: map<string, Num>): (rows: seq<Row>) {
    var keys := FrameMogSchema.Keys;
    var weakest := WeakestKey(b);
    var highest := HighestKey(b);
    seq(|keys|, i requires 0 <= i < |keys| =>
      Row(keys[i], MetricLabels.GetMetricLabel(photoType, keys[i]), Shown(b, keys[i]), keys[i] == weakest, keys[i] == highest))
  }

  /** The card shows six rows in KEYS order under non-empty labels, each with the stored metric or
      50, and exactly one row is marked weakest and exactly one highest. */
  lemma RowsProperties(photoType: string, b: map<string, Num>)
    ensures var rows := Rows(photoType, b);
      && |rows| == 6
      && (forall i | 0 <= i < 6 :: rows[i].key == FrameMogSchema.Keys[i] && rows[i].caption != "" &&
            rows[i].value == (if rows[i].key in b then b[rows[i].key] else Real(50.0)))
      && (forall i | 0 <= i < 6 :: rows[i].isWeakest <==> i == MarkedIndex(b, false))
      && (forall i | 0 <= i < 6 :: rows[i].isHighest <==> i == MarkedIndex(b, true))
  {
    var rows := Rows(photoType, b);
    forall i | 0 <= i < 6
      ensures rows[i].key == FrameMogSchema.Keys[i] && rows[i].caption != ""
      ensures rows[i].value == (if rows[i].key in b then b[rows[i].key] else Real(50.0))
      ensures rows[i].isWeakest <==> i == MarkedIndex(b, false)
      ensures rows[i].isHighest <==> i == MarkedIndex(b, true)
    {
      RowAt(photoType, b, i);
    }
  }

  lemma RowAt(photoType: string, b: map<string, Num>, i: int)
    requires 0 <= i < 6
    ensures var row := Rows(photoType, b)[i];
      && row.key == FrameMogSchema.Keys[i] && row.caption != ""
      && row.value == (if row.key in b then b[row.key] else Real(50.0))
      && (row.isWeakest <==> i == MarkedIndex(b, false))
      && (row.isHighest <==> i == MarkedIndex(b, true))
  {
    var keys := FrameMogSchema.Keys;
    FrameMogSchema.KeysDistinct();
    MetricLabels.GetMetricLabelProperties(photoType, keys[i]);
    var row := Rows(photoType, b)[i];
    assert row == Row(keys[i], MetricLabels.GetMetricLabel(photoType, keys[i]), Shown(b, keys[i]),
                      keys[i] == WeakestKey(b), keys[i] == HighestKey(b));
  }

  /** Outside the inherited member names of a plain object, every caption is the one
      getMetricLabel gives as written. */
  lemma RowCaptionsAsWritten(photoType: string, b: map<string, Num>)
    requires photoType !in MetricLabels.ObjectPrototypeMembers
    ensures forall i | 0 <= i < |Rows(photoType, b)| ::
      Rows(photoType, b)[i].caption == MetricLabels.GetMetricLabelAsWritten(photoType, FrameMogSchema.Keys[i])
  {
    forall i | 0 <= i < |Rows(photoType, b)|
      ensures Rows(photoType, b)[i].caption == MetricLabels.GetMetricLabelAsWritten(photoType, FrameMogSchema.Keys[i])
    {
      MetricLabels.AsWrittenAgrees(photoType, FrameMogSchema.Keys[i]);
    }
  }

  /** A missing metric shows as 50 but is ranked as 0: with the others at least 0, it is the one
      marked weakest. */
  lemma MissingMetricRankedAsZero(photoType: string, b: map<string, Num>)
    requires "frame" !in b
    requires forall k | k in b :: b[k].Real? && b[k].r >= 0.0
    ensures WeakestKey(b) == "frame"
    ensures Rows(photoType, b)[0].value == Real(50.0) && Rows(photoType, b)[0].isWeakest
  {
    var keys := FrameMogSchema.Keys;
    assert AllReal(keys, b);
    assert forall i | 0 <= i < 6 :: Value(b, keys[i]).r >= 0.0;
    assert Value(b, keys[0]) == Real(0.0);
    MarkedProperties(b, false);
    RowAt(photoType, b, 0);
  }
}
