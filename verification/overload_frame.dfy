/** The DataFrame steps of `run_overload_analysis` in overloadAnalysis.py: the `overloaded`
    label, `dropna` on the measurement columns, and the feature table with its text columns
    label-encoded. */
module OverloadFrame {
  import opened Wrappers
  import opened Strings
  import opened Records
  import opened OverloadRows

  /** A DataFrame row with its `overloaded` column (0 or 1). */
  datatype FrameRow = FrameRow(row: Row, overloaded: nat)

  /** The labelling lambda: 1 when the rating is present and at most 2, else 0. `None` when
      the comparison raises, which it does for a rating that is not a number. A missing rating
      in a column that also holds numbers is NaN to pandas; `NaN <= 2` is false, so such a
      row is labelled 0 as well. */
  function Label(rating: Option<Reading>): (r: Option<nat>)
    ensures r == Some(1) <==> rating.Some? && rating.value.Num? && rating.value.value <= 2.0
    ensures r == Some(0) <==> rating.None? || (rating.value.Num? && rating.value.value > 2.0)
    ensures r.None? <==> rating.Some? && rating.value.NonNumeric?
  {
    match rating
    case None => Some(0)
    case Some(Num(x)) => Some(if x <= 2.0 then 1 else 0)
    case Some(NonNumeric(_)) => None
  }

  /** `df` after `df["overloaded"] = ...`; `None` when the lambda raises for some row. */
  function Labelled(data: seq<Row>): Option<seq<FrameRow>>
  {
    if data == [] then Some([])
    else
      match (Labelled(data[..|data| - 1]), Label(data[|data| - 1].ratingScore))
      case (Some(df), Some(l)) => Some(df + [FrameRow(data[|data| - 1], l)])
      case _ => None
  }

  /** The `overloaded` column, row by row as `apply` computes it. */
  method LabelRows(data: seq<Row>) returns (df: Option<seq<FrameRow>>)
    ensures df == Labelled(data)
  {
    var rows := [];
    for i := 0 to |data|
      invariant Labelled(data[..i]) == Some(rows)
    {
      assert data[..i + 1][..i] == data[..i];
      var x := data[i].ratingScore;
      if x.Some? && x.value.NonNumeric? {
        LabelledSticks(data, i + 1);
        return None;
      }
      var overloaded := if x.Some? && x.value.value <= 2.0 then 1 else 0;
      rows := rows + [FrameRow(data[i], overloaded)];
    }
    assert data[..|data|] == data;
    return Some(rows);
  }

  /** Once the lambda has raised, the whole labelling has. */
  lemma {:induction false} LabelledSticks(data: seq<Row>, k: nat)
    requires k <= |data| && Labelled(data[..k]).None?
    ensures Labelled(data).None?
  {
    if k < |data| {
      var init := data[..|data| - 1];
      assert init[..k] == data[..k];
      LabelledSticks(init, k);
    } else {
      assert data[..k] == data;
    }
  }

  /** Labelling raises exactly when some rating is not a number; otherwise it keeps every row,
      in order and unchanged, next to the label of its rating. */
  lemma {:induction false} LabelledExactly(data: seq<Row>)
    ensures Labelled(data).Some? <==> forall i | 0 <= i < |data| :: Label(data[i].ratingScore).Some?
    ensures Labelled(data).Some? ==>
              && |Labelled(data).value| == |data|
              && forall i | 0 <= i < |data| ::
                   Labelled(data).value[i] == FrameRow(data[i], Label(data[i].ratingScore).value)
  {
    if data != [] {
      var init := data[..|data| - 1];
      LabelledExactly(init);
      assert forall i | 0 <= i < |init| :: init[i] == data[i];
      if Labelled(init).None? {
        var i :| 0 <= i < |init| && Label(init[i].ratingScore).None?;
        assert Label(data[i].ratingScore).None?;
      }
    }
  }

  /** The row has all five columns `dropna` looks at. */
  predicate Measured(r: Row)
  {
    && r.hrBefore.Some?
    && r.hrDuring.Some?
    && r.hrAfter.Some?
    && r.temperature.Some?
    && r.duration.Some?
  }

  /** `df.dropna(subset=[...])`. */
  function DropMissing(df: seq<FrameRow>): (kept: seq<FrameRow>)
    ensures |kept| <= |df|
    ensures forall k | 0 <= k < |kept| :: Measured(kept[k].row)
  {
    if df == [] then []
    else DropMissing(df[..|df| - 1]) + if Measured(df[|df| - 1].row) then [df[|df| - 1]] else []
  }

  /** Appending a row to the frame appends it to the kept rows exactly when it is measured. */
  lemma DropMissingSnoc(df: seq<FrameRow>, x: FrameRow)
    ensures DropMissing(df + [x]) == DropMissing(df) + if Measured(x.row) then [x] else []
  {
    assert (df + [x])[..|df|] == df;
  }

  /** `dropna(..., inplace=True)`: the frame keeps its measured rows. */
  method DropNa(df0: seq<FrameRow>) returns (df: seq<FrameRow>)
    ensures df == DropMissing(df0)
  {
    df := [];
    for i := 0 to |df0|
      invariant df == DropMissing(df0[..i])
    {
      assert df0[..i + 1][..i] == df0[..i];
      var r := df0[i].row;
      if r.hrBefore.None? || r.hrDuring.None? || r.hrAfter.None? || r.temperature.None? || r.duration.None? {
        assert df + [] == df;
        continue;
      }
      df := df + [df0[i]];
    }
    assert df0[..|df0|] == df0;
  }

  /** The rows `dropna` keeps are exactly the measured ones, in their order and with their
      labels: `idx` lists their positions in the labelled frame. */
  lemma {:induction false} DropMissingExactly(df: seq<FrameRow>) returns (idx: seq<nat>)
    ensures |idx| == |DropMissing(df)|
    ensures forall k | 0 <= k < |idx| :: idx[k] < |df| && DropMissing(df)[k] == df[idx[k]]
    ensures forall k, l | 0 <= k < l < |idx| :: idx[k] < idx[l]
    ensures forall i | 0 <= i < |df| :: i in idx <==> Measured(df[i].row)
  {
    if df == [] {
      idx := [];
    } else {
      var n := |df| - 1;
      var init := df[..n];
      var pre := DropMissingExactly(init);
      assert forall i | 0 <= i < n :: init[i] == df[i];
      if Measured(df[n].row) {
        idx := pre + [n];
      } else {
        idx := pre;
      }
    }
  }

  /** `dropna` keeps every row that has the five measurements, whatever its type, intensity,
      rating or label. */
  lemma DropMissingKeeps(df: seq<FrameRow>, i: nat)
    requires i < |df| && Measured(df[i].row)
    ensures df[i] in DropMissing(df)
  {
    var idx := DropMissingExactly(df);
    var k :| 0 <= k < |idx| && idx[k] == i;
  }

  /** Every kept row has the five measurements. */
  lemma DropMissingMeasured(df: seq<FrameRow>, k: nat)
    requires k < |DropMissing(df)|
    ensures Measured(DropMissing(df)[k].row) && DropMissing(df)[k] in df
  {
    var idx := DropMissingExactly(df);
    assert idx[k] in idx;
  }

  /** The text of a column value after `astype(str)`; a missing value reads "None". */
  function Text(v: Option<string>): string
  {
    match v
    case Some(s) => s
    case None => "None"
  }

  /** `LabelEncoder().fit_transform(column)`: the position of each value among the column's
      distinct values in ascending order; that list of classes decodes every code back. */
  function Encode(column: seq<string>): (codes: seq<nat>)
    ensures |codes| == |column|
    ensures forall i | 0 <= i < |column| ::
              codes[i] < |SortedDistinct(column)| && SortedDistinct(column)[codes[i]] == column[i]
  {
    seq(|column|, i requires 0 <= i < |column| => IndexOf(SortedDistinct(column), column[i]))
  }

  /** Codes follow the order of the strings, and equal codes mean equal strings. */
  lemma EncodeOrder(column: seq<string>, i: nat, j: nat)
    requires i < |column| && j < |column|
    ensures Less(column[i], column[j]) <==> Encode(column)[i] < Encode(column)[j]
    ensures column[i] == column[j] <==> Encode(column)[i] == Encode(column)[j]
  {
    IndexOfMonotonic(SortedDistinct(column), column[i], column[j]);
  }

  /** Every code below the number of classes is used: the codes are exactly 0..k-1. */
  lemma EncodeDense(column: seq<string>, c: nat)
    requires c < |SortedDistinct(column)|
    ensures exists i | 0 <= i < |column| :: Encode(column)[i] == c
  {
    var classes := SortedDistinct(column);
    assert classes[c] in column;
    var i :| 0 <= i < |column| && column[i] == classes[c];
    assert classes[Encode(column)[i]] == classes[c];
    if Encode(column)[i] != c {
      SortedIsDistinct(classes, Encode(column)[i], c);
    }
  }

  /** A row of `features`: every column of the frame except `ratingScore` and `overloaded`,
      the two text columns encoded. */
  datatype FeatureRow = FeatureRow(
    trainingType: nat,
    intensity: nat,
    temperature: Reading,
    duration: Reading,
    hrBefore: Reading,
    hrDuring: Reading,
    hrAfter: Reading)

  function TypeColumn(df: seq<FrameRow>): seq<string>
  {
    seq(|df|, i requires 0 <= i < |df| => Text(df[i].row.trainingType))
  }

  function IntensityColumn(df: seq<FrameRow>): seq<string>
  {
    seq(|df|, i requires 0 <= i < |df| => Text(df[i].row.intensity))
  }

  /** `X`: the feature table of the measured frame. */
  function Features(df: seq<FrameRow>): (x: seq<FeatureRow>)
    requires forall i | 0 <= i < |df| :: Measured(df[i].row)
    ensures |x| == |df|
  {
    var types, intensities := Encode(TypeColumn(df)), Encode(IntensityColumn(df));
    seq(|df|, i requires 0 <= i < |df| && Measured(df[i].row) =>
      var r := df[i].row;
      FeatureRow(types[i], intensities[i], r.temperature.value, r.duration.value,
                 r.hrBefore.value, r.hrDuring.value, r.hrAfter.value))
  }

  /** `y`: the `overloaded` column. */
  function Targets(df: seq<FrameRow>): (y: seq<nat>)
    ensures |y| == |df|
  {
    seq(|df|, i requires 0 <= i < |df| => df[i].overloaded)
  }

  /** The features carry each row's measurements and the classes of its type and intensity;
      they do not depend on the rating or on the label. */
  lemma FeaturesOfRow(df: seq<FrameRow>, i: nat)
    requires forall k | 0 <= k < |df| :: Measured(df[k].row)
    requires i < |df|
    ensures var x, r := Features(df)[i], df[i].row;
            && SortedDistinct(TypeColumn(df))[x.trainingType] == Text(r.trainingType)
            && SortedDistinct(IntensityColumn(df))[x.intensity] == Text(r.intensity)
            && Some(x.temperature) == r.temperature && Some(x.duration) == r.duration
            && Some(x.hrBefore) == r.hrBefore && Some(x.hrDuring) == r.hrDuring && Some(x.hrAfter) == r.hrAfter
  {
  }

  /** Changing only ratings and labels leaves the feature table as it is. */
  lemma FeaturesIgnoreRating(df: seq<FrameRow>, df': seq<FrameRow>)
    requires |df| == |df'|
    requires forall k | 0 <= k < |df| :: Measured(df[k].row)
    requires forall k | 0 <= k < |df| :: df'[k].row == df[k].row.(ratingScore := df'[k].row.ratingScore)
    ensures forall k | 0 <= k < |df'| :: Measured(df'[k].row)
    ensures Features(df') == Features(df)
  {
    assert forall k | 0 <= k < |df'| :: Measured(df'[k].row) by {
      forall k | 0 <= k < |df'| ensures Measured(df'[k].row) {
        assert df'[k].row == df[k].row.(ratingScore := df'[k].row.ratingScore);
      }
    }
    assert TypeColumn(df') == TypeColumn(df);
    assert IntensityColumn(df') == IntensityColumn(df);
  }
}
