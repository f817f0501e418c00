/** `compute_trends` and `__average_by_key` of basicAnalysis.py: for each training type, the
    mean heart rate during training per calendar month, and per day over the last week. */
module BasicTrends {
  import opened Wrappers
  import opened Dicts
  import opened Averages
  import Strings
  import opened Calendar
  import opened Records
  import opened BasicGrouping

  /** One record of `__average_by_key`'s result: a period label and the mean of its values. */
  datatype TrendPoint = TrendPoint(period: string, value: real)

  /** A `trend` dict: each training type with its series of points. */
  type Trends = Dict<string, seq<TrendPoint>>

  /** A `(label, hr_during)` pair as appended to a trend list. */
  type Pair = (string, Reading)

  /** The appends of the trend loop: the training type, then the pair appended under it. */
  type Appended = seq<(string, Pair)>

  /** Python truthiness of a stored `hr_during`: missing, zero and falsy non-numbers fail. */
  predicate Truthy(r: Option<Reading>)
  {
    match r
    case None => false
    case Some(Num(x)) => x != 0.0
    case Some(NonNumeric(t)) => t
  }

  /** What the trend loop appends for one record: a label and the reading, or nothing. */
  type Pick = BasicRecord -> Option<Pair>

  /** The month pair of a record whose `hr_during` is truthy. The test on `created_at` always
      passes: a converted timestamp is truthy. */
  function MonthPick(r: BasicRecord): Option<Pair>
  {
    if Truthy(r.hrDuring) then Some((MonthLabel(r.createdAt), r.hrDuring.value)) else None
  }

  /** The day pair of a record whose `hr_during` is truthy and which is from the last week. */
  function WeekPick(now: Instant, r: BasicRecord): Option<Pair>
  {
    if Truthy(r.hrDuring) && InLastWeek(now, r.createdAt) then Some((DayLabel(r.createdAt), r.hrDuring.value)) else None
  }

  function WeekPickAt(now: Instant): Pick
  {
    r => WeekPick(now, r)
  }

  /** The append for record `r` of type `t`. */
  function PairFor(pick: Pick, t: string, r: BasicRecord): Appended
  {
    match pick(r)
    case Some(p) => [(t, p)]
    case None => []
  }

  /** The appends for the records of type `t`, in order. */
  function PairsOf(pick: Pick, t: string, rs: seq<BasicRecord>): Appended
  {
    if rs == [] then [] else PairsOf(pick, t, rs[..|rs| - 1]) + PairFor(pick, t, rs[|rs| - 1])
  }

  /** Every append of the loop over the types of `g`, in loop order. */
  function AllPairs(pick: Pick, g: Dict<string, seq<BasicRecord>>): Appended
  {
    if g == [] then [] else AllPairs(pick, g[..|g| - 1]) + PairsOf(pick, g[|g| - 1].0, g[|g| - 1].1)
  }

  /** Every append to `trends_by_month`, in loop order. */
  function MonthPairs(g: Dict<string, seq<BasicRecord>>): Appended
  {
    AllPairs(MonthPick, g)
  }

  /** Every append to `trends_last_7_days`, in loop order. */
  function WeekPairs(now: Instant, g: Dict<string, seq<BasicRecord>>): Appended
  {
    AllPairs(WeekPickAt(now), g)
  }

  predicate AllNumeric(pairs: seq<Pair>)
  {
    forall i | 0 <= i < |pairs| :: pairs[i].1.Num?
  }

  function AsNumbers(pairs: seq<Pair>): seq<(string, real)>
    requires AllNumeric(pairs)
  {
    seq(|pairs|, i requires 0 <= i < |pairs| => (pairs[i].0, pairs[i].1.value))
  }

  lemma LabelsHaveValues(ns: seq<(string, real)>, labels: seq<string>)
    requires forall l | l in labels :: l in KeysOf(ns)
    ensures forall k | 0 <= k < |labels| :: ValuesFor(ns, labels[k]) != []
  {
    forall k | 0 <= k < |labels| ensures ValuesFor(ns, labels[k]) != [] {
      KeysOfValuesFor(ns, labels[k]);
    }
  }

  function MeansByLabel(labels: seq<string>, ns: seq<(string, real)>): seq<TrendPoint>
    requires forall k | 0 <= k < |labels| :: ValuesFor(ns, labels[k]) != []
  {
    seq(|labels|, k requires 0 <= k < |labels| => TrendPoint(labels[k], Mean(ValuesFor(ns, labels[k])).value))
  }

  /** The distinct labels of the pairs in ascending order, as `groupby` sorts them. */
  function SeriesLabels(pairs: seq<Pair>): seq<string>
    requires AllNumeric(pairs)
  {
    Strings.SortedDistinct(KeysOf(AsNumbers(pairs)))
  }

  /** `__average_by_key`: `groupby` on the label, then the mean of each group; `None` when
      the mean raises because some value is not a number. */
  function AverageByKey(pairs: seq<Pair>): (r: Option<seq<TrendPoint>>)
    ensures r.None? <==> !AllNumeric(pairs)
  {
    if !AllNumeric(pairs) then None
    else
      LabelsHaveValues(AsNumbers(pairs), SeriesLabels(pairs));
      Some(MeansByLabel(SeriesLabels(pairs), AsNumbers(pairs)))
  }

  /** `{k: __average_by_key(v) for k, v in series.items()}`, keeping the order of the keys;
      `None` when some average raises. */
  function AverageAll(series: Dict<string, seq<Pair>>): Option<Trends>
  {
    if series == [] then Some([])
    else
      var last := series[|series| - 1];
      match (AverageAll(series[..|series| - 1]), AverageByKey(last.1))
      case (Some(d), Some(ps)) => Some(d + [(last.0, ps)])
      case _ => None
  }

  /** The comprehension raises exactly when one of its averages raises; otherwise it keeps
      every key, in order, with the average of that key's pairs. */
  lemma {:induction false} AverageAllShape(series: Dict<string, seq<Pair>>)
    ensures AverageAll(series).None? <==> exists i | 0 <= i < |series| :: !AllNumeric(series[i].1)
    ensures AverageAll(series).Some? ==> |AverageAll(series).value| == |series|
    ensures AverageAll(series).Some? ==> forall i | 0 <= i < |series| ::
              AverageAll(series).value[i].0 == series[i].0 && Some(AverageAll(series).value[i].1) == AverageByKey(series[i].1)
  {
    if series != [] {
      var init := series[..|series| - 1];
      AverageAllShape(init);
      if exists i | 0 <= i < |series| :: !AllNumeric(series[i].1) {
        var i :| 0 <= i < |series| && !AllNumeric(series[i].1);
        if i < |init| {
          assert init[i] == series[i];
        }
      }
      if AverageAll(series).Some? {
        forall i | 0 <= i < |series|
          ensures AverageAll(series).value[i].0 == series[i].0 && Some(AverageAll(series).value[i].1) == AverageByKey(series[i].1)
        {
          if i < |init| {
            assert init[i] == series[i];
          }
        }
      }
    }
  }

  /** The result of `compute_trends`: the month and the week trends, or `None` when it raises. */
  function TrendsOf(now: Instant, g: Dict<string, seq<BasicRecord>>): Option<(Trends, Trends)>
  {
    match (AverageAll(GroupBy(MonthPairs(g))), AverageAll(GroupBy(WeekPairs(now, g))))
    case (Some(m), Some(w)) => Some((m, w))
    case _ => None
  }

  lemma PairsStep(now: Instant, g: Dict<string, seq<BasicRecord>>, i: nat)
    requires i < |g|
    ensures MonthPairs(g[..i + 1]) == MonthPairs(g[..i]) + PairsOf(MonthPick, g[i].0, g[i].1)
    ensures WeekPairs(now, g[..i + 1]) == WeekPairs(now, g[..i]) + PairsOf(WeekPickAt(now), g[i].0, g[i].1)
  {
    assert g[..i + 1][..i] == g[..i];
  }

  /** `compute_trends`: `now` is the value of `datetime.now()`. */
  method ComputeTrends(now: Instant, trainingsByType: Dict<string, seq<BasicRecord>>)
    returns (r: Option<(Trends, Trends)>)
    ensures r == TrendsOf(now, trainingsByType)
  {
    var trendsByMonth: Dict<string, seq<Pair>> := [];
    var trendsLast7Days: Dict<string, seq<Pair>> := [];
    for i := 0 to |trainingsByType|
      invariant trendsByMonth == GroupBy(MonthPairs(trainingsByType[..i]))
      invariant trendsLast7Days == GroupBy(WeekPairs(now, trainingsByType[..i]))
    {
      var (trainingType, records) := trainingsByType[i];
      PairsStep(now, trainingsByType, i);
      trendsByMonth, trendsLast7Days := TrendRecords(now, MonthPairs(trainingsByType[..i]),
        WeekPairs(now, trainingsByType[..i]), trendsByMonth, trendsLast7Days, trainingType, records);
    }
    assert trainingsByType[..|trainingsByType|] == trainingsByType;
    var trendsMonth := AverageAll(trendsByMonth);
    if trendsMonth.None? {
      return None;
    }
    var trendsWeek := AverageAll(trendsLast7Days);
    if trendsWeek.None? {
      return None;
    }
    return Some((trendsMonth.value, trendsWeek.value));
  }

  lemma TrendStep(now: Instant, doneMonth: Appended, doneWeek: Appended, t: string, rs: seq<BasicRecord>, j: nat)
    requires j < |rs|
    ensures doneMonth + PairsOf(MonthPick, t, rs[..j + 1]) == (doneMonth + PairsOf(MonthPick, t, rs[..j])) + PairFor(MonthPick, t, rs[j])
    ensures doneWeek + PairsOf(WeekPickAt(now), t, rs[..j + 1]) ==
            (doneWeek + PairsOf(WeekPickAt(now), t, rs[..j])) + PairFor(WeekPickAt(now), t, rs[j])
  {
    assert rs[..j + 1][..j] == rs[..j];
  }

  /** The inner loop of `compute_trends` over the records of one type. */
  method TrendRecords(now: Instant, ghost doneMonth: Appended, ghost doneWeek: Appended,
                      byMonth: Dict<string, seq<Pair>>, byWeek: Dict<string, seq<Pair>>,
                      trainingType: string, records: seq<BasicRecord>)
    returns (trendsByMonth: Dict<string, seq<Pair>>, trendsLast7Days: Dict<string, seq<Pair>>)
    requires byMonth == GroupBy(doneMonth) && byWeek == GroupBy(doneWeek)
    ensures trendsByMonth == GroupBy(doneMonth + PairsOf(MonthPick, trainingType, records))
    ensures trendsLast7Days == GroupBy(doneWeek + PairsOf(WeekPickAt(now), trainingType, records))
  {
    trendsByMonth, trendsLast7Days := byMonth, byWeek;
    ghost var month, week := doneMonth, doneWeek;
    assert doneMonth + PairsOf(MonthPick, trainingType, records[..0]) == doneMonth;
    assert doneWeek + PairsOf(WeekPickAt(now), trainingType, records[..0]) == doneWeek;
    for j := 0 to |records|
      invariant trendsByMonth == GroupBy(month) && trendsLast7Days == GroupBy(week)
      invariant month == doneMonth + PairsOf(MonthPick, trainingType, records[..j])
      invariant week == doneWeek + PairsOf(WeekPickAt(now), trainingType, records[..j])
    {
      TrendStep(now, doneMonth, doneWeek, trainingType, records, j);
      trendsByMonth, trendsLast7Days := TrendRecord(now, month, week, trendsByMonth, trendsLast7Days, trainingType, records[j]);
      month, week := month + PairFor(MonthPick, trainingType, records[j]), week + PairFor(WeekPickAt(now), trainingType, records[j]);
    }
    assert records[..|records|] == records;
    assert month == doneMonth + PairsOf(MonthPick, trainingType, records);
    assert week == doneWeek + PairsOf(WeekPickAt(now), trainingType, records);
  }

  /** One pass of the inner loop: the record's month pair, and its day pair when it is from
      the last week, both only when its `hr_during` is truthy. */
  method TrendRecord(now: Instant, ghost doneMonth: Appended, ghost doneWeek: Appended,
                     byMonth: Dict<string, seq<Pair>>, byWeek: Dict<string, seq<Pair>>,
                     trainingType: string, r: BasicRecord)
    returns (trendsByMonth: Dict<string, seq<Pair>>, trendsLast7Days: Dict<string, seq<Pair>>)
    requires byMonth == GroupBy(doneMonth) && byWeek == GroupBy(doneWeek)
    ensures trendsByMonth == GroupBy(doneMonth + PairFor(MonthPick, trainingType, r))
    ensures trendsLast7Days == GroupBy(doneWeek + PairFor(WeekPickAt(now), trainingType, r))
  {
    trendsByMonth, trendsLast7Days := byMonth, byWeek;
    assert WeekPickAt(now)(r) == WeekPick(now, r);
    if !Truthy(r.hrDuring) {
      assert doneMonth + [] == doneMonth && doneWeek + [] == doneWeek;
      return;
    }
    var createdDate := r.createdAt;
    GroupBySnoc(doneMonth, trainingType, (MonthLabel(createdDate), r.hrDuring.value));
    trendsByMonth := AppendAt(trendsByMonth, trainingType, (MonthLabel(createdDate), r.hrDuring.value));
    if WholeDaysBetween(now, createdDate) <= 7 {
      GroupBySnoc(doneWeek, trainingType, (DayLabel(createdDate), r.hrDuring.value));
      trendsLast7Days := AppendAt(trendsLast7Days, trainingType, (DayLabel(createdDate), r.hrDuring.value));
    } else {
      assert doneWeek + [] == doneWeek;
    }
  }

  lemma AverageByKeyShape(pairs: seq<Pair>)
    requires AllNumeric(pairs)
    ensures |AverageByKey(pairs).value| == |SeriesLabels(pairs)|
    ensures forall k | 0 <= k < |SeriesLabels(pairs)| ::
              AverageByKey(pairs).value[k].period == SeriesLabels(pairs)[k] &&
              Some(AverageByKey(pairs).value[k].value) == Mean(ValuesFor(AsNumbers(pairs), SeriesLabels(pairs)[k]))
  {
    LabelsHaveValues(AsNumbers(pairs), SeriesLabels(pairs));
  }

  /** A series is in strictly ascending label order. */
  lemma AverageByKeySorted(pairs: seq<Pair>)
    requires AllNumeric(pairs)
    ensures var ps := AverageByKey(pairs).value;
            forall a, b | 0 <= a < b < |ps| :: Strings.Less(ps[a].period, ps[b].period)
  {
    AverageByKeyShape(pairs);
  }

  /** Every point's label is the label of some pair. */
  lemma PointLabelFromPair(pairs: seq<Pair>, k: nat)
    requires AllNumeric(pairs)
    requires k < |AverageByKey(pairs).value|
    ensures exists i | 0 <= i < |pairs| :: pairs[i].0 == AverageByKey(pairs).value[k].period
  {
    var ns := AsNumbers(pairs);
    var labels := SeriesLabels(pairs);
    AverageByKeyShape(pairs);
    KeysOfLength(ns);
    assert labels[k] in KeysOf(ns);
    var i :| 0 <= i < |ns| && KeysOf(ns)[i] == labels[k];
    assert ns[i].0 == pairs[i].0;
  }

  /** Every pair's label has a point. */
  lemma PairLabelHasPoint(pairs: seq<Pair>, i: nat)
    requires AllNumeric(pairs)
    requires i < |pairs|
    ensures exists k | 0 <= k < |AverageByKey(pairs).value| :: AverageByKey(pairs).value[k].period == pairs[i].0
  {
    var ns := AsNumbers(pairs);
    var labels := SeriesLabels(pairs);
    AverageByKeyShape(pairs);
    KeysOfLength(ns);
    assert KeysOf(ns)[i] == pairs[i].0;
    assert pairs[i].0 in labels;
    var k :| 0 <= k < |labels| && labels[k] == pairs[i].0;
    assert AverageByKey(pairs).value[k].period == pairs[i].0;
  }

  /** A series has a point for a label exactly when some pair carries that label. */
  lemma AverageByKeyLabels(pairs: seq<Pair>)
    requires AllNumeric(pairs)
    ensures var ps := AverageByKey(pairs).value;
      && (forall k | 0 <= k < |ps| :: exists i | 0 <= i < |pairs| :: pairs[i].0 == ps[k].period)
      && (forall i | 0 <= i < |pairs| :: exists k | 0 <= k < |ps| :: ps[k].period == pairs[i].0)
  {
    forall k | 0 <= k < |AverageByKey(pairs).value| {
      PointLabelFromPair(pairs, k);
    }
    forall i | 0 <= i < |pairs| {
      PairLabelHasPoint(pairs, i);
    }
  }

  /** Each point holds the mean of the numbers paired with its label. */
  lemma AverageByKeyMeans(pairs: seq<Pair>)
    requires AllNumeric(pairs)
    ensures var ps := AverageByKey(pairs).value;
            forall k | 0 <= k < |ps| :: Mean(ValuesFor(AsNumbers(pairs), ps[k].period)) == Some(ps[k].value)
  {
    AverageByKeyShape(pairs);
  }

  /** The numbers averaged for a label are exactly the readings paired with it. */
  lemma PeriodValues(pairs: seq<Pair>, l: string, x: real)
    requires AllNumeric(pairs)
    ensures x in ValuesFor(AsNumbers(pairs), l) <==> (l, Num(x)) in pairs
  {
    var ns := AsNumbers(pairs);
    ValuesForMembership(ns, l, x);
    if (l, x) in ns {
      var i :| 0 <= i < |ns| && ns[i] == (l, x);
      assert pairs[i] == (l, Num(x));
    }
    if (l, Num(x)) in pairs {
      var i :| 0 <= i < |pairs| && pairs[i] == (l, Num(x));
      assert ns[i] == (l, x);
    }
  }

  /** Every point of a series lies within any bounds that hold for all the values averaged. */
  lemma TrendValueBounds(pairs: seq<Pair>, lo: real, hi: real)
    requires AllNumeric(pairs)
    requires forall i | 0 <= i < |pairs| :: lo <= pairs[i].1.value <= hi
    ensures forall k | 0 <= k < |AverageByKey(pairs).value| ::
              lo <= AverageByKey(pairs).value[k].value <= hi
  {
    var ns := AsNumbers(pairs);
    var ps := AverageByKey(pairs).value;
    AverageByKeyMeans(pairs);
    forall k | 0 <= k < |ps| ensures lo <= ps[k].value <= hi {
      var xs := ValuesFor(ns, ps[k].period);
      forall m | 0 <= m < |xs| ensures lo <= xs[m] <= hi {
        ValuesForMembership(ns, ps[k].period, xs[m]);
        var i :| 0 <= i < |ns| && ns[i] == (ps[k].period, xs[m]);
        assert pairs[i].1.value == xs[m];
      }
      MeanBounds(xs, lo, hi);
    }
  }

  /** Any two timestamps in two months of a month series are in that order: the series
      is chronological. */
  lemma MonthSeriesChronological(pairs: seq<Pair>, a: nat, b: nat, s: Instant, u: Instant)
    requires AllNumeric(pairs)
    requires a < b < |AverageByKey(pairs).value|
    requires MonthLabel(s) == AverageByKey(pairs).value[a].period
    requires MonthLabel(u) == AverageByKey(pairs).value[b].period
    ensures s.year < u.year || (s.year == u.year && s.month < u.month)
  {
    AverageByKeySorted(pairs);
    MonthLabelOrder(s, u);
  }

  /** Any two timestamps in two days of a day series are in that order. */
  lemma DaySeriesChronological(pairs: seq<Pair>, a: nat, b: nat, s: Instant, u: Instant)
    requires AllNumeric(pairs)
    requires a < b < |AverageByKey(pairs).value|
    requires DayLabel(s) == AverageByKey(pairs).value[a].period
    requires DayLabel(u) == AverageByKey(pairs).value[b].period
    ensures s.year < u.year || (s.year == u.year && s.month < u.month) ||
            (s.year == u.year && s.month == u.month && s.day < u.day)
  {
    AverageByKeySorted(pairs);
    DayLabelOrder(s, u);
  }

  /** Record `r` feeds the month trend with pair `p`. */
  predicate InMonthTrend(r: BasicRecord, p: Pair)
  {
    Truthy(r.hrDuring) && p == (MonthLabel(r.createdAt), r.hrDuring.value)
  }

  /** Record `r` feeds the week trend with pair `p`. */
  predicate InWeekTrend(now: Instant, r: BasicRecord, p: Pair)
  {
    Truthy(r.hrDuring) && InLastWeek(now, r.createdAt) && p == (DayLabel(r.createdAt), r.hrDuring.value)
  }

  /** Every append for type `t` comes from a record that picks it. */
  lemma {:induction false} PairsOfSound(pick: Pick, t: string, rs: seq<BasicRecord>, t': string, p: Pair) returns (j: nat)
    requires (t', p) in PairsOf(pick, t, rs)
    ensures t' == t && j < |rs| && pick(rs[j]) == Some(p)
  {
    var init := rs[..|rs| - 1];
    if (t', p) in PairsOf(pick, t, init) {
      j := PairsOfSound(pick, t, init, t', p);
      assert rs[j] == init[j];
    } else {
      j := |rs| - 1;
    }
  }

  /** Every pick of a record of type `t` is appended under `t`. */
  lemma {:induction false} PairsOfComplete(pick: Pick, t: string, rs: seq<BasicRecord>, p: Pair, j: nat)
    requires j < |rs| && pick(rs[j]) == Some(p)
    ensures (t, p) in PairsOf(pick, t, rs)
  {
    var init := rs[..|rs| - 1];
    if j < |init| {
      assert init[j] == rs[j];
      PairsOfComplete(pick, t, init, p, j);
    }
  }

  lemma {:induction false} AllPairsSound(pick: Pick, g: Dict<string, seq<BasicRecord>>, t: string, p: Pair) returns (i: nat, j: nat)
    requires (t, p) in AllPairs(pick, g)
    ensures i < |g| && j < |g[i].1| && g[i].0 == t && pick(g[i].1[j]) == Some(p)
  {
    var init, last := g[..|g| - 1], g[|g| - 1];
    if (t, p) in AllPairs(pick, init) {
      i, j := AllPairsSound(pick, init, t, p);
      assert g[i] == init[i];
    } else {
      i := |g| - 1;
      j := PairsOfSound(pick, last.0, last.1, t, p);
    }
  }

  lemma {:induction false} AllPairsComplete(pick: Pick, g: Dict<string, seq<BasicRecord>>, t: string, p: Pair, i: nat, j: nat)
    requires i < |g| && j < |g[i].1| && g[i].0 == t && pick(g[i].1[j]) == Some(p)
    ensures (t, p) in AllPairs(pick, g)
  {
    var init, last := g[..|g| - 1], g[|g| - 1];
    if i < |init| {
      assert init[i] == g[i];
      AllPairsComplete(pick, init, t, p, i, j);
    } else {
      PairsOfComplete(pick, last.0, last.1, p, j);
    }
  }

  /** A pair reaches `trends_by_month[t]` exactly when some record of type `t` has a truthy
      `hr_during` and the pair is its month and reading. */
  lemma MonthPairsExactly(g: Dict<string, seq<BasicRecord>>, t: string, p: Pair)
    ensures (t, p) in MonthPairs(g) <==>
            exists i, j | 0 <= i < |g| && 0 <= j < |g[i].1| :: g[i].0 == t && InMonthTrend(g[i].1[j], p)
  {
    if (t, p) in MonthPairs(g) {
      var i, j := AllPairsSound(MonthPick, g, t, p);
      assert InMonthTrend(g[i].1[j], p);
    }
    if exists i, j | 0 <= i < |g| && 0 <= j < |g[i].1| :: g[i].0 == t && InMonthTrend(g[i].1[j], p) {
      var i, j :| 0 <= i < |g| && 0 <= j < |g[i].1| && g[i].0 == t && InMonthTrend(g[i].1[j], p);
      assert MonthPick(g[i].1[j]) == Some(p);
      AllPairsComplete(MonthPick, g, t, p, i, j);
    }
  }

  /** Every pair of `trends_last_7_days[t]` comes from a record of type `t` from the last
      week with a truthy `hr_during`: its day and reading. */
  lemma WeekPairsSound(now: Instant, g: Dict<string, seq<BasicRecord>>, t: string, p: Pair)
    requires (t, p) in WeekPairs(now, g)
    ensures exists i, j | 0 <= i < |g| && 0 <= j < |g[i].1| :: g[i].0 == t && InWeekTrend(now, g[i].1[j], p)
  {
    var i, j := AllPairsSound(WeekPickAt(now), g, t, p);
    assert WeekPick(now, g[i].1[j]) == Some(p);
    assert InWeekTrend(now, g[i].1[j], p);
  }

  /** Every record of type `t` from the last week with a truthy `hr_during` puts its day
      and reading into `trends_last_7_days[t]`. */
  lemma WeekPairsComplete(now: Instant, g: Dict<string, seq<BasicRecord>>, t: string, p: Pair, i: nat, j: nat)
    requires i < |g| && j < |g[i].1|
    requires g[i].0 == t && InWeekTrend(now, g[i].1[j], p)
    ensures (t, p) in WeekPairs(now, g)
  {
    assert WeekPickAt(now)(g[i].1[j]) == Some(p);
    AllPairsComplete(WeekPickAt(now), g, t, p, i, j);
  }

  /** Every day of the week trend also feeds the month trend: the same reading under the
      day's month. */
  lemma WeekWithinMonth(now: Instant, g: Dict<string, seq<BasicRecord>>, t: string, d: string, v: Reading)
    requires (t, (d, v)) in WeekPairs(now, g)
    ensures |d| == 10 && (t, (d[..7], v)) in MonthPairs(g)
  {
    WeekPairsSound(now, g, t, (d, v));
    var i, j :| 0 <= i < |g| && 0 <= j < |g[i].1| && g[i].0 == t && InWeekTrend(now, g[i].1[j], (d, v));
    DayLabelExtendsMonthLabel(g[i].1[j].createdAt);
    assert InMonthTrend(g[i].1[j], (d[..7], v));
    MonthPairsExactly(g, t, (d[..7], v));
  }

  /** A grouping whose averaging raises has a non-number among the appended readings. */
  lemma GroupedRaiseHasNonNumeric(ps: Appended) returns (m: nat)
    requires AverageAll(GroupBy(ps)).None?
    ensures m < |ps| && ps[m].1.1.NonNumeric?
  {
    var groups := GroupBy(ps);
    AverageAllShape(groups);
    var i :| 0 <= i < |groups| && !AllNumeric(groups[i].1);
    var q :| 0 <= q < |groups[i].1| && !groups[i].1[q].1.Num?;
    GroupByEntry(ps, i);
    ValuesForMembership(ps, groups[i].0, groups[i].1[q]);
    m :| 0 <= m < |ps| && ps[m] == (groups[i].0, groups[i].1[q]);
  }

  /** A non-number among the appended readings makes the averaging of the grouping raise. */
  lemma NonNumericMakesGroupedRaise(ps: Appended, m: nat)
    requires m < |ps| && ps[m].1.1.NonNumeric?
    ensures AverageAll(GroupBy(ps)).None?
  {
    var groups := GroupBy(ps);
    var key := ps[m].0;
    ValuesForMembership(ps, key, ps[m].1);
    KeysOfValuesFor(ps, key);
    GroupByKeys(ps);
    DedupDistinct(KeysOf(ps));
    KeysOfLength(groups);
    var i :| 0 <= i < |groups| && KeysOf(groups)[i] == key;
    GroupByEntry(ps, i);
    var q :| 0 <= q < |groups[i].1| && groups[i].1[q] == ps[m].1;
    assert !AllNumeric(groups[i].1);
    AverageAllShape(groups);
  }

  /** Whenever the week averages raise, the month averages raise already. */
  lemma WeekRaiseImpliesMonthRaise(now: Instant, g: Dict<string, seq<BasicRecord>>)
    requires AverageAll(GroupBy(WeekPairs(now, g))).None?
    ensures AverageAll(GroupBy(MonthPairs(g))).None?
  {
    var mp, wp := MonthPairs(g), WeekPairs(now, g);
    var m := GroupedRaiseHasNonNumeric(wp);
    var (t, (d, v)) := wp[m];
    WeekWithinMonth(now, g, t, d, v);
    var m' :| 0 <= m' < |mp| && mp[m'] == (t, (d[..7], v));
    NonNumericMakesGroupedRaise(mp, m');
  }

  /** A record with a truthy non-number `hr_during` makes `compute_trends` raise. */
  lemma NonNumericRecordRaises(now: Instant, g: Dict<string, seq<BasicRecord>>, i: nat, j: nat)
    requires i < |g| && j < |g[i].1| && g[i].1[j].hrDuring == Some(NonNumeric(true))
    ensures TrendsOf(now, g).None?
  {
    var mp := MonthPairs(g);
    var r := g[i].1[j];
    var p := (MonthLabel(r.createdAt), r.hrDuring.value);
    assert InMonthTrend(r, p);
    MonthPairsExactly(g, g[i].0, p);
    var m :| 0 <= m < |mp| && mp[m] == (g[i].0, p);
    NonNumericMakesGroupedRaise(mp, m);
  }

  /** `compute_trends` raises exactly when some record has a truthy `hr_during` that is not
      a number: such a reading reaches the month trend, whose mean then raises. */
  lemma TrendsRaiseIff(now: Instant, g: Dict<string, seq<BasicRecord>>)
    ensures TrendsOf(now, g).None? <==>
            exists i, j | 0 <= i < |g| && 0 <= j < |g[i].1| :: g[i].1[j].hrDuring == Some(NonNumeric(true))
  {
    var mp := MonthPairs(g);
    if exists i, j | 0 <= i < |g| && 0 <= j < |g[i].1| :: g[i].1[j].hrDuring == Some(NonNumeric(true)) {
      var i, j :| 0 <= i < |g| && 0 <= j < |g[i].1| && g[i].1[j].hrDuring == Some(NonNumeric(true));
      NonNumericRecordRaises(now, g, i, j);
    }
    if TrendsOf(now, g).None? {
      if AverageAll(GroupBy(WeekPairs(now, g))).None? {
        WeekRaiseImpliesMonthRaise(now, g);
      }
      var m := GroupedRaiseHasNonNumeric(mp);
      MonthPairsExactly(g, mp[m].0, mp[m].1);
      var i, j :| 0 <= i < |g| && 0 <= j < |g[i].1| && g[i].0 == mp[m].0 && InMonthTrend(g[i].1[j], mp[m].1);
      assert g[i].1[j].hrDuring == Some(NonNumeric(true));
    }
  }

  lemma AverageAllKeys(series: Dict<string, seq<Pair>>)
    requires AverageAll(series).Some?
    ensures KeysOf(AverageAll(series).value) == KeysOf(series)
  {
    AverageAllShape(series);
    KeysOfLength(series);
    KeysOfLength(AverageAll(series).value);
  }

  lemma MonthTypeSound(g: Dict<string, seq<BasicRecord>>, t: string)
    requires t in KeysOf(MonthPairs(g))
    ensures exists i, j | 0 <= i < |g| && 0 <= j < |g[i].1| :: g[i].0 == t && Truthy(g[i].1[j].hrDuring)
  {
    var mp := MonthPairs(g);
    KeysOfLength(mp);
    var m :| 0 <= m < |mp| && KeysOf(mp)[m] == t;
    assert mp[m] == (t, mp[m].1);
    MonthPairsExactly(g, t, mp[m].1);
    var i, j :| 0 <= i < |g| && 0 <= j < |g[i].1| && g[i].0 == t && InMonthTrend(g[i].1[j], mp[m].1);
  }

  lemma MonthTypeComplete(g: Dict<string, seq<BasicRecord>>, t: string, i: nat, j: nat)
    requires i < |g| && j < |g[i].1|
    requires g[i].0 == t && Truthy(g[i].1[j].hrDuring)
    ensures t in KeysOf(MonthPairs(g))
  {
    var mp := MonthPairs(g);
    KeysOfLength(mp);
    var r := g[i].1[j];
    var p := (MonthLabel(r.createdAt), r.hrDuring.value);
    assert InMonthTrend(r, p);
    MonthPairsExactly(g, t, p);
    var m :| 0 <= m < |mp| && mp[m] == (t, p);
    assert KeysOf(mp)[m] == t;
  }

  /** The month trend has each training type at most once, and has a type exactly when some
      record of that type has a truthy `hr_during`. */
  lemma MonthTrendTypes(now: Instant, g: Dict<string, seq<BasicRecord>>, t: string)
    requires TrendsOf(now, g).Some?
    ensures Distinct(KeysOf(TrendsOf(now, g).value.0))
    ensures t in KeysOf(TrendsOf(now, g).value.0) <==>
            exists i, j | 0 <= i < |g| && 0 <= j < |g[i].1| :: g[i].0 == t && Truthy(g[i].1[j].hrDuring)
  {
    var mp := MonthPairs(g);
    AverageAllKeys(GroupBy(mp));
    GroupByKeys(mp);
    DedupDistinct(KeysOf(mp));
    if t in KeysOf(mp) {
      MonthTypeSound(g, t);
    }
    if exists i, j | 0 <= i < |g| && 0 <= j < |g[i].1| :: g[i].0 == t && Truthy(g[i].1[j].hrDuring) {
      var i, j :| 0 <= i < |g| && 0 <= j < |g[i].1| && g[i].0 == t && Truthy(g[i].1[j].hrDuring);
      MonthTypeComplete(g, t, i, j);
    }
  }

  lemma WeekTypeSound(now: Instant, g: Dict<string, seq<BasicRecord>>, t: string)
    requires t in KeysOf(WeekPairs(now, g))
    ensures exists i, j | 0 <= i < |g| && 0 <= j < |g[i].1| ::
              g[i].0 == t && Truthy(g[i].1[j].hrDuring) && InLastWeek(now, g[i].1[j].createdAt)
  {
    var wp := WeekPairs(now, g);
    KeysOfLength(wp);
    var m :| 0 <= m < |wp| && KeysOf(wp)[m] == t;
    assert wp[m] == (t, wp[m].1);
    WeekPairsSound(now, g, t, wp[m].1);
    var i, j :| 0 <= i < |g| && 0 <= j < |g[i].1| && g[i].0 == t && InWeekTrend(now, g[i].1[j], wp[m].1);
  }

  lemma WeekTypeComplete(now: Instant, g: Dict<string, seq<BasicRecord>>, t: string, i: nat, j: nat)
    requires i < |g| && j < |g[i].1|
    requires g[i].0 == t && Truthy(g[i].1[j].hrDuring) && InLastWeek(now, g[i].1[j].createdAt)
    ensures t in KeysOf(WeekPairs(now, g))
  {
    var wp := WeekPairs(now, g);
    KeysOfLength(wp);
    var r := g[i].1[j];
    var p := (DayLabel(r.createdAt), r.hrDuring.value);
    assert InWeekTrend(now, r, p);
    WeekPairsComplete(now, g, t, p, i, j);
    var m :| 0 <= m < |wp| && wp[m] == (t, p);
    assert KeysOf(wp)[m] == t;
  }

  /** The week trend has each training type at most once, and has a type exactly when some
      record of that type from the last week has a truthy `hr_during`. */
  lemma WeekTrendTypes(now: Instant, g: Dict<string, seq<BasicRecord>>, t: string)
    requires TrendsOf(now, g).Some?
    ensures Distinct(KeysOf(TrendsOf(now, g).value.1))
    ensures t in KeysOf(TrendsOf(now, g).value.1) <==>
            exists i, j | 0 <= i < |g| && 0 <= j < |g[i].1| ::
              g[i].0 == t && Truthy(g[i].1[j].hrDuring) && InLastWeek(now, g[i].1[j].createdAt)
  {
    var wp := WeekPairs(now, g);
    AverageAllKeys(GroupBy(wp));
    GroupByKeys(wp);
    DedupDistinct(KeysOf(wp));
    if t in KeysOf(wp) {
      WeekTypeSound(now, g, t);
    }
    if exists i, j | 0 <= i < |g| && 0 <= j < |g[i].1| ::
         g[i].0 == t && Truthy(g[i].1[j].hrDuring) && InLastWeek(now, g[i].1[j].createdAt) {
      var i, j :| 0 <= i < |g| && 0 <= j < |g[i].1| &&
                  g[i].0 == t && Truthy(g[i].1[j].hrDuring) && InLastWeek(now, g[i].1[j].createdAt);
      WeekTypeComplete(now, g, t, i, j);
    }
  }

  /** The month series of a type is `__average_by_key` of that type's month pairs. */
  lemma MonthSeriesOf(now: Instant, g: Dict<string, seq<BasicRecord>>, k: nat)
    requires TrendsOf(now, g).Some? && k < |TrendsOf(now, g).value.0|
    ensures var (t, series) := TrendsOf(now, g).value.0[k];
            AllNumeric(ValuesFor(MonthPairs(g), t)) && series == AverageByKey(ValuesFor(MonthPairs(g), t)).value
  {
    AverageAllShape(GroupBy(MonthPairs(g)));
    GroupByEntry(MonthPairs(g), k);
  }

  /** The week series of a type is `__average_by_key` of that type's day pairs. */
  lemma WeekSeriesOf(now: Instant, g: Dict<string, seq<BasicRecord>>, k: nat)
    requires TrendsOf(now, g).Some? && k < |TrendsOf(now, g).value.1|
    ensures var (t, series) := TrendsOf(now, g).value.1[k];
            AllNumeric(ValuesFor(WeekPairs(now, g), t)) && series == AverageByKey(ValuesFor(WeekPairs(now, g), t)).value
  {
    AverageAllShape(GroupBy(WeekPairs(now, g)));
    GroupByEntry(WeekPairs(now, g), k);
  }

  /** The numbers averaged for month `l` of type `t` are exactly the truthy `hr_during`
      readings of the records of type `t` created in that month. */
  lemma MonthBucket(g: Dict<string, seq<BasicRecord>>, t: string, l: string, x: real)
    requires AllNumeric(ValuesFor(MonthPairs(g), t))
    ensures x in ValuesFor(AsNumbers(ValuesFor(MonthPairs(g), t)), l) <==>
            exists i, j | 0 <= i < |g| && 0 <= j < |g[i].1| :: g[i].0 == t && InMonthTrend(g[i].1[j], (l, Num(x)))
  {
    PeriodValues(ValuesFor(MonthPairs(g), t), l, x);
    ValuesForMembership(MonthPairs(g), t, (l, Num(x)));
    MonthPairsExactly(g, t, (l, Num(x)));
  }

  /** The numbers averaged for day `l` of type `t` are exactly the truthy `hr_during`
      readings of the records of type `t` created on that day within the last week. */
  lemma WeekBucket(now: Instant, g: Dict<string, seq<BasicRecord>>, t: string, l: string, x: real)
    requires AllNumeric(ValuesFor(WeekPairs(now, g), t))
    ensures x in ValuesFor(AsNumbers(ValuesFor(WeekPairs(now, g), t)), l) <==>
            exists i, j | 0 <= i < |g| && 0 <= j < |g[i].1| :: g[i].0 == t && InWeekTrend(now, g[i].1[j], (l, Num(x)))
  {
    PeriodValues(ValuesFor(WeekPairs(now, g), t), l, x);
    ValuesForMembership(WeekPairs(now, g), t, (l, Num(x)));
    if (t, (l, Num(x))) in WeekPairs(now, g) {
      WeekPairsSound(now, g, t, (l, Num(x)));
    }
    if exists i, j | 0 <= i < |g| && 0 <= j < |g[i].1| :: g[i].0 == t && InWeekTrend(now, g[i].1[j], (l, Num(x))) {
      var i, j :| 0 <= i < |g| && 0 <= j < |g[i].1| && g[i].0 == t && InWeekTrend(now, g[i].1[j], (l, Num(x)));
      WeekPairsComplete(now, g, t, (l, Num(x)), i, j);
    }
  }

  /** The number record `r` puts into period `l` through `pick`: its reading when `pick`
      gives a pair labelled `l` whose reading is a number. */
  function PickedNumber(pick: Pick, l: string, r: BasicRecord): seq<real>
  {
    match pick(r)
    case Some((l', Num(x))) => if l' == l then [x] else []
    case _ => []
  }

  /** The numbers the records `rs` put into period `l`, one per record, in record order. */
  function RecordReadings(pick: Pick, l: string, rs: seq<BasicRecord>): seq<real>
  {
    if rs == [] then [] else RecordReadings(pick, l, rs[..|rs| - 1]) + PickedNumber(pick, l, rs[|rs| - 1])
  }

  /** The numbers that the records of type `t` put into period `l`: the records of every
      entry of `g` under `t`, in dict order and then record order, repeated readings kept. */
  function Readings(pick: Pick, g: Dict<string, seq<BasicRecord>>, t: string, l: string): seq<real>
  {
    if g == [] then []
    else Readings(pick, g[..|g| - 1], t, l) + if g[|g| - 1].0 == t then RecordReadings(pick, l, g[|g| - 1].1) else []
  }

  lemma AsNumbersAppend(a: seq<Pair>, b: seq<Pair>)
    requires AllNumeric(a + b)
    ensures AllNumeric(a) && AllNumeric(b)
    ensures AsNumbers(a + b) == AsNumbers(a) + AsNumbers(b)
  {
    assert forall i | 0 <= i < |a| :: a[i] == (a + b)[i];
    assert forall i | 0 <= i < |b| :: b[i] == (a + b)[|a| + i];
  }

  /** The numbers `groupby` collects for type `t` and label `l` from the appends `ps`. */
  lemma BucketAppend(a: Appended, b: Appended, t: string, l: string)
    requires AllNumeric(ValuesFor(a + b, t))
    ensures AllNumeric(ValuesFor(a, t)) && AllNumeric(ValuesFor(b, t))
    ensures ValuesFor(AsNumbers(ValuesFor(a + b, t)), l) ==
            ValuesFor(AsNumbers(ValuesFor(a, t)), l) + ValuesFor(AsNumbers(ValuesFor(b, t)), l)
  {
    ValuesForAppend(a, b, t);
    AsNumbersAppend(ValuesFor(a, t), ValuesFor(b, t));
    ValuesForAppend(AsNumbers(ValuesFor(a, t)), AsNumbers(ValuesFor(b, t)), l);
  }

  lemma PairForBucket(pick: Pick, t': string, r: BasicRecord, t: string, l: string)
    requires AllNumeric(ValuesFor(PairFor(pick, t', r), t))
    ensures ValuesFor(AsNumbers(ValuesFor(PairFor(pick, t', r), t)), l) ==
            if t' == t then PickedNumber(pick, l, r) else []
  {
    var ps := PairFor(pick, t', r);
    if pick(r).Some? {
      var p := pick(r).value;
      assert ps == [(t', p)] && ps[..0] == [];
      if t' == t {
        assert ValuesFor(ps, t) == [p];
        assert ValuesFor(ps, t)[0].1.Num?;
        var ns := AsNumbers([p]);
        assert ns == [(p.0, p.1.value)] && ns[..0] == [];
      } else {
        assert ValuesFor(ps, t) == [];
      }
    }
  }

  lemma {:induction false} PairsOfBucket(pick: Pick, t': string, rs: seq<BasicRecord>, t: string, l: string)
    requires AllNumeric(ValuesFor(PairsOf(pick, t', rs), t))
    ensures ValuesFor(AsNumbers(ValuesFor(PairsOf(pick, t', rs), t)), l) ==
            if t' == t then RecordReadings(pick, l, rs) else []
  {
    if rs != [] {
      var init, r := rs[..|rs| - 1], rs[|rs| - 1];
      BucketAppend(PairsOf(pick, t', init), PairFor(pick, t', r), t, l);
      PairsOfBucket(pick, t', init, t, l);
      PairForBucket(pick, t', r, t, l);
    }
  }

  /** The numbers averaged for type `t` and period `l` are `Readings`: every such reading of
      every record, in loop order, as often as the records carry it. */
  lemma {:induction false} AllPairsBucket(pick: Pick, g: Dict<string, seq<BasicRecord>>, t: string, l: string)
    requires AllNumeric(ValuesFor(AllPairs(pick, g), t))
    ensures ValuesFor(AsNumbers(ValuesFor(AllPairs(pick, g), t)), l) == Readings(pick, g, t, l)
  {
    if g != [] {
      var init, last := g[..|g| - 1], g[|g| - 1];
      BucketAppend(AllPairs(pick, init), PairsOf(pick, last.0, last.1), t, l);
      AllPairsBucket(pick, init, t, l);
      PairsOfBucket(pick, last.0, last.1, t, l);
    }
  }

  /** The numbers averaged for month `l` of type `t`, in order and with their repetitions,
      are the truthy `hr_during` readings of that type's records created in month `l`. */
  lemma MonthBucketInOrder(g: Dict<string, seq<BasicRecord>>, t: string, l: string)
    requires AllNumeric(ValuesFor(MonthPairs(g), t))
    ensures ValuesFor(AsNumbers(ValuesFor(MonthPairs(g), t)), l) == Readings(MonthPick, g, t, l)
  {
    AllPairsBucket(MonthPick, g, t, l);
  }

  /** The numbers averaged for day `l` of type `t`, in order and with their repetitions, are
      the truthy `hr_during` readings of that type's records created on day `l` within the
      last week. */
  lemma WeekBucketInOrder(now: Instant, g: Dict<string, seq<BasicRecord>>, t: string, l: string)
    requires AllNumeric(ValuesFor(WeekPairs(now, g), t))
    ensures ValuesFor(AsNumbers(ValuesFor(WeekPairs(now, g), t)), l) == Readings(WeekPickAt(now), g, t, l)
  {
    AllPairsBucket(WeekPickAt(now), g, t, l);
  }

  /** Each point of a month series is the mean of the month's readings of that type, every
      record counted once. */
  lemma MonthPointIsMean(now: Instant, g: Dict<string, seq<BasicRecord>>, k: nat, q: nat)
    requires TrendsOf(now, g).Some? && k < |TrendsOf(now, g).value.0|
    requires q < |TrendsOf(now, g).value.0[k].1|
    ensures var (t, series) := TrendsOf(now, g).value.0[k];
            Mean(Readings(MonthPick, g, t, series[q].period)) == Some(series[q].value)
  {
    var (t, series) := TrendsOf(now, g).value.0[k];
    MonthSeriesOf(now, g, k);
    AverageByKeyMeans(ValuesFor(MonthPairs(g), t));
    MonthBucketInOrder(g, t, series[q].period);
  }

  /** Each point of a week series is the mean of that day's readings of that type, every
      record counted once. */
  lemma DayPointIsMean(now: Instant, g: Dict<string, seq<BasicRecord>>, k: nat, q: nat)
    requires TrendsOf(now, g).Some? && k < |TrendsOf(now, g).value.1|
    requires q < |TrendsOf(now, g).value.1[k].1|
    ensures var (t, series) := TrendsOf(now, g).value.1[k];
            Mean(Readings(WeekPickAt(now), g, t, series[q].period)) == Some(series[q].value)
  {
    var (t, series) := TrendsOf(now, g).value.1[k];
    WeekSeriesOf(now, g, k);
    AverageByKeyMeans(ValuesFor(WeekPairs(now, g), t));
    WeekBucketInOrder(now, g, t, series[q].period);
  }
}
