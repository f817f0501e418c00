/** `run_overload_analysis` of overloadAnalysis.py: reads one horse's sessions, builds the
    labelled training table, lets a classifier predict overload for every remaining row, and
    reports how many rows were predicted overloaded. */
module OverloadAnalysis {
  import opened Wrappers
  import opened Records
  import opened OverloadRows
  import opened OverloadFrame

  /** The random forest: trained on `X` and `y` (its split of them included), it predicts
      whether a row is overloaded. Only this prediction decides overload. */
  type Classifier = (seq<FeatureRow>, seq<nat>, FeatureRow) -> bool

  /** `model.predict(X)`: 1 for a row predicted overloaded, 0 otherwise. */
  function Predictions(classify: Classifier, x: seq<FeatureRow>, y: seq<nat>): (p: seq<nat>)
    ensures |p| == |x|
    ensures forall k | 0 <= k < |x| :: p[k] <= 1 && (p[k] == 1 <==> classify(x, y, x[k]))
  {
    seq(|x|, k requires 0 <= k < |x| => if classify(x, y, x[k]) then 1 else 0)
  }

  /** `df["predictedOverload"].sum()`. */
  function Total(ps: seq<nat>): nat
  {
    if ps == [] then 0 else Total(ps[..|ps| - 1]) + ps[|ps| - 1]
  }

  /** The counts of `overload_stats` (the rounded classification scores aside). */
  datatype OverloadStats = OverloadStats(total: nat, predictedOverloaded: nat, predictedOk: int)

  function Stats(predicted: seq<nat>): OverloadStats
  {
    OverloadStats(|predicted|, Total(predicted), |predicted| - Total(predicted))
  }

  /** With 0/1 predictions, the overloaded and ok counts split the rows: no count is negative,
      none exceeds the total, and each is zero exactly when every prediction is the other. */
  lemma {:induction false} StatsConsistent(predicted: seq<nat>)
    requires forall k | 0 <= k < |predicted| :: predicted[k] <= 1
    ensures var s := Stats(predicted);
            && s.total == |predicted|
            && 0 <= s.predictedOverloaded <= s.total
            && 0 <= s.predictedOk <= s.total
            && s.predictedOverloaded + s.predictedOk == s.total
            && (s.predictedOverloaded == 0 <==> forall k | 0 <= k < |predicted| :: predicted[k] == 0)
            && (s.predictedOk == 0 <==> forall k | 0 <= k < |predicted| :: predicted[k] == 1)
  {
    if predicted != [] {
      var init := predicted[..|predicted| - 1];
      StatsConsistent(init);
      assert forall k | 0 <= k < |init| :: init[k] == predicted[k];
    }
  }

  /** One element of `details`: the row with its label and its prediction. */
  datatype Detail = Detail(row: Row, overloaded: nat, predictedOverload: nat)

  function Details(df: seq<FrameRow>, predicted: seq<nat>): (ds: seq<Detail>)
    requires |predicted| == |df|
    ensures |ds| == |df|
  {
    seq(|df|, k requires 0 <= k < |df| => Detail(df[k].row, df[k].overloaded, predicted[k]))
  }

  /** The `$set` part of the upsert into `overloadanalyses` (`generatedAt` aside). */
  datatype OverloadDocument = OverloadDocument(
    horseId: string,
    horseName: Option<string>,
    analysisType: string,
    stats: OverloadStats,
    details: seq<Detail>)

  /** An exception that leaves the function. */
  datatype OverloadError =
    | MissingHorseId
      // `horse_id` is missing or empty
    | NonNumericRating
      // the labelling lambda compared a rating that is not a number with 2
    | TooFewToSplit
      // `train_test_split` with a quarter held out leaves no training row for fewer than 2 rows

  datatype OverloadOutcome =
    | Raised(error: OverloadError)
    | Empty
      // the `{}` result
    | Reported(stats: OverloadStats, document: OverloadDocument)
      // the stats returned after the document was written

  /** `df` after the `overloaded` column and `dropna`; `None` when labelling raises. */
  function Frame(sessions: seq<Session>): Option<seq<FrameRow>>
  {
    match Labelled(Rows(sessions))
    case None => None
    case Some(labelled) => Some(DropMissing(labelled))
  }

  /** The classifier is trained on the labels: every target is the `overloaded` label of its
      row's rating, and every row of the frame is a measured row of a completed training. */
  lemma FrameTargets(sessions: seq<Session>)
    requires Frame(sessions).Some?
    ensures var df := Frame(sessions).value;
            forall k | 0 <= k < |df| ::
              && Measured(df[k].row)
              && Targets(df)[k] == df[k].overloaded
              && Label(df[k].row.ratingScore) == Some(Targets(df)[k])
              && df[k].row in Rows(sessions)
  {
    var data := Rows(sessions);
    LabelledExactly(data);
    var labelled := Labelled(data).value;
    var df := DropMissing(labelled);
    var idx := DropMissingExactly(labelled);
    forall k | 0 <= k < |df|
      ensures Label(df[k].row.ratingScore) == Some(df[k].overloaded) && df[k].row in data
    {
      var m := idx[k];
      assert df[k] == labelled[m] == FrameRow(data[m], Label(data[m].ratingScore).value);
    }
  }

  /** The whole run. `fetched` is what the query returned, `None` when the read raised;
      `written` says whether the upsert succeeded. */
  function OverloadAnalysis(horseId: Option<string>, fetched: Option<seq<Session>>, classify: Classifier, written: bool): OverloadOutcome
  {
    if horseId.None? || horseId.value == "" then Raised(MissingHorseId)
    else if !ValidObjectId(horseId.value) || fetched.None? then Empty
    else
      var sessions := fetched.value;
      if sessions == [] then Empty
      else
        var data := Rows(sessions);
        if |data| < 5 then Empty
        else
          match Frame(sessions)
          case None => Raised(NonNumericRating)
          case Some(df) =>
            if |df| < 2 then Raised(TooFewToSplit)
            else
              var predicted := Predictions(classify, Features(df), Targets(df));
              var stats := Stats(predicted);
              var document := OverloadDocument(horseId.value, HorseName(sessions[0]), "overload", stats, Details(df, predicted));
              if written then Reported(stats, document) else Empty
  }

  /** `run_overload_analysis`. */
  method RunOverloadAnalysis(horseId: Option<string>, fetched: Option<seq<Session>>, classify: Classifier, written: bool)
    returns (outcome: OverloadOutcome)
    ensures outcome == OverloadAnalysis(horseId, fetched, classify, written)
  {
    if horseId.None? || horseId.value == "" {
      return Raised(MissingHorseId);
    }
    if !ValidObjectId(horseId.value) || fetched.None? {
      return Empty;
    }
    var sessions := fetched.value;
    if sessions == [] {
      return Empty;
    }
    var horseName := HorseName(sessions[0]);
    var data := ExtractRows(sessions);
    if |data| < 5 {
      return Empty;
    }
    var labelled := LabelRows(data);
    if labelled.None? {
      return Raised(NonNumericRating);
    }
    var df := DropNa(labelled.value);
    if |df| < 2 {
      return Raised(TooFewToSplit);
    }
    var x, y := Features(df), Targets(df);
    var predictedOverload := Predictions(classify, x, y);
    var stats := Stats(predictedOverload);
    var details := Details(df, predictedOverload);
    if !written {
      return Empty;
    }
    return Reported(stats, OverloadDocument(horseId.value, horseName, "overload", stats, details));
  }

  /** A missing or empty id raises before anything is read or written. */
  lemma MissingIdRaises(horseId: Option<string>, fetched: Option<seq<Session>>, classify: Classifier, written: bool)
    requires horseId.None? || horseId.value == ""
    ensures OverloadAnalysis(horseId, fetched, classify, written) == Raised(MissingHorseId)
  {
  }

  /** Fewer than 5 completed trainings give `{}`, and no write is attempted: the result does
      not depend on whether it would have succeeded. */
  lemma FewRowsEmpty(horseId: string, sessions: seq<Session>, classify: Classifier)
    requires horseId != "" && |Rows(sessions)| < 5
    ensures OverloadAnalysis(Some(horseId), Some(sessions), classify, true) == Empty
    ensures OverloadAnalysis(Some(horseId), Some(sessions), classify, false) == Empty
  {
  }

  /** Reported stats: at least 5 completed trainings were read, `total` counts the rows left
      after `dropna` (at least 2, and possibly fewer than 5), and the two predicted counts split
      it. The stored document carries the same stats, the name of the first session's horse
      and one detail per counted row. */
  lemma ReportedStats(horseId: Option<string>, fetched: Option<seq<Session>>, classify: Classifier, written: bool)
    requires OverloadAnalysis(horseId, fetched, classify, written).Reported?
    ensures var outcome := OverloadAnalysis(horseId, fetched, classify, written);
            var s, d := outcome.stats, outcome.document;
            && written && fetched.Some? && fetched.value != []
            && |Rows(fetched.value)| >= 5
            && 2 <= s.total <= |Rows(fetched.value)|
            && 0 <= s.predictedOverloaded <= s.total
            && s.predictedOverloaded + s.predictedOk == s.total
            && d.stats == s && d.horseId == horseId.value && d.analysisType == "overload"
            && d.horseName == HorseName(fetched.value[0])
            && |d.details| == s.total
  {
    var sessions := fetched.value;
    var data := Rows(sessions);
    LabelledExactly(data);
    var df := DropMissing(Labelled(data).value);
    StatsConsistent(Predictions(classify, Features(df), Targets(df)));
  }

  /** Each detail is a row of the frame the classifier saw: the row of a completed training
      with all five measurements, its rating's label (which is the row's target) and the
      classifier's verdict on the row's features. */
  lemma ReportedDetail(horseId: Option<string>, fetched: Option<seq<Session>>, classify: Classifier, written: bool, k: nat)
    requires OverloadAnalysis(horseId, fetched, classify, written).Reported?
    requires k < |OverloadAnalysis(horseId, fetched, classify, written).document.details|
    ensures fetched.Some? && Frame(fetched.value).Some?
    ensures |Frame(fetched.value).value| == |OverloadAnalysis(horseId, fetched, classify, written).document.details|
    ensures var sessions := fetched.value;
            var df := Frame(sessions).value;
            var x, y := Features(df), Targets(df);
            var e := OverloadAnalysis(horseId, fetched, classify, written).document.details[k];
            && e.row == df[k].row
            && Measured(e.row)
            && e.overloaded == y[k]
            && Label(e.row.ratingScore) == Some(e.overloaded)
            && e.predictedOverload == (if classify(x, y, x[k]) then 1 else 0)
            && exists i, j | 0 <= i < |sessions| && 0 <= j < |sessions[i].trainings| ::
                 IsCompleted(sessions[i].trainings[j]) && e.row == RowOf(sessions[i].trainings[j])
  {
    var sessions := fetched.value;
    var df := Frame(sessions).value;
    var predicted := Predictions(classify, Features(df), Targets(df));
    assert OverloadAnalysis(horseId, fetched, classify, written).document.details == Details(df, predicted);
    var e := Details(df, predicted)[k];
    assert e == Detail(df[k].row, df[k].overloaded, predicted[k]);
    FrameTargets(sessions);
    var data := Rows(sessions);
    var m :| 0 <= m < |data| && data[m] == e.row;
    var i, j := RowsSound(sessions, m);
    assert IsCompleted(sessions[i].trainings[j]) && e.row == RowOf(sessions[i].trainings[j]);
  }

  /** The number of details predicted overloaded. */
  function CountOverloaded(ds: seq<Detail>): nat
  {
    if ds == [] then 0 else CountOverloaded(ds[..|ds| - 1]) + if ds[|ds| - 1].predictedOverload == 1 then 1 else 0
  }

  lemma {:induction false} TotalCounts(df: seq<FrameRow>, predicted: seq<nat>)
    requires |predicted| == |df|
    requires forall k | 0 <= k < |predicted| :: predicted[k] <= 1
    ensures Total(predicted) == CountOverloaded(Details(df, predicted))
  {
    if predicted != [] {
      var n := |predicted| - 1;
      assert Details(df[..n], predicted[..n]) == Details(df, predicted)[..n];
      TotalCounts(df[..n], predicted[..n]);
    }
  }

  /** The reported overloaded count is the number of stored details predicted overloaded, and
      the ok count is the number of the others. */
  lemma ReportedCount(horseId: Option<string>, fetched: Option<seq<Session>>, classify: Classifier, written: bool)
    requires OverloadAnalysis(horseId, fetched, classify, written).Reported?
    ensures var outcome := OverloadAnalysis(horseId, fetched, classify, written);
            var ds := outcome.document.details;
            && outcome.stats.predictedOverloaded == CountOverloaded(ds)
            && outcome.stats.predictedOk == |ds| - CountOverloaded(ds)
  {
    var df := Frame(fetched.value).value;
    var predicted := Predictions(classify, Features(df), Targets(df));
    TotalCounts(df, predicted);
  }

  lemma FiveSessionRows(full: Training, partial: Training)
    requires IsCompleted(full) && IsCompleted(partial)
    ensures var a, b := RowOf(full), RowOf(partial);
            Rows([Session(None, Absent, None, [full, partial, partial, full, partial])]) == [a, b, b, a, b]
  {
    var ts := [full, partial, partial, full, partial];
    var a, b := RowOf(full), RowOf(partial);
    assert ts[..1][..0] == [] && ts[..2][..1] == ts[..1] && ts[..3][..2] == ts[..2];
    assert ts[..4][..3] == ts[..3] && ts[..5][..4] == ts[..4] && ts[..5] == ts;
    assert SessionRows(ts[..1]) == [a];
    assert SessionRows(ts[..2]) == [a, b];
    assert SessionRows(ts[..3]) == [a, b, b];
    assert SessionRows(ts[..4]) == [a, b, b, a];
    assert SessionRows(ts) == [a, b, b, a, b];
    var ss := [Session(None, Absent, None, ts)];
    assert ss[..0] == [];
    assert Rows(ss) == Rows([]) + SessionRows(ts);
  }

  lemma FiveDropped(fa: FrameRow, fb: FrameRow)
    requires Measured(fa.row) && !Measured(fb.row)
    ensures DropMissing([fa, fb, fb, fa, fb]) == [fa, fa]
  {
    DropMissingSnoc([], fa);
    assert [] + [fa] == [fa];
    DropMissingSnoc([fa], fb);
    assert [fa] + [fb] == [fa, fb] && DropMissing([fa, fb]) == [fa];
    DropMissingSnoc([fa, fb], fb);
    assert [fa, fb] + [fb] == [fa, fb, fb] && DropMissing([fa, fb, fb]) == [fa];
    DropMissingSnoc([fa, fb, fb], fa);
    assert [fa, fb, fb] + [fa] == [fa, fb, fb, fa] && DropMissing([fa, fb, fb, fa]) == [fa, fa];
    DropMissingSnoc([fa, fb, fb, fa], fb);
    assert [fa, fb, fb, fa] + [fb] == [fa, fb, fb, fa, fb];
  }

  /** The 5-row guard counts rows before `dropna`: of five completed trainings, three lack
      `heartRateBefore`, and the run reports a total of 2 whatever the classifier says. */
  lemma GuardBeforeDrop(classify: Classifier)
    ensures var full := Training(Some("Completed"), Some("walk"), Some("low"), Some(Num(20.0)),
                                 Some(Num(30.0)), Some(Num(40.0)), Some(Num(80.0)), Some(Num(50.0)), Some(Num(4.0)));
            var partial := full.(heartRateBefore := None);
            var session := Session(None, Absent, None, [full, partial, partial, full, partial]);
            var outcome := OverloadAnalysis(Some("66e951701582b84c167f1648"), Some([session]), classify, true);
            outcome.Reported? && outcome.stats.total == 2
  {
    var full := Training(Some("Completed"), Some("walk"), Some("low"), Some(Num(20.0)),
                         Some(Num(30.0)), Some(Num(40.0)), Some(Num(80.0)), Some(Num(50.0)), Some(Num(4.0)));
    var partial := full.(heartRateBefore := None);
    assert ValidObjectId("66e951701582b84c167f1648");
    FiveSessionRows(full, partial);
    var a, b := RowOf(full), RowOf(partial);
    var data := [a, b, b, a, b];
    LabelledExactly(data);
    var fa, fb := FrameRow(a, 0), FrameRow(b, 0);
    assert Labelled(data).value == [fa, fb, fb, fa, fb];
    FiveDropped(fa, fb);
  }
}
