/** `compute_summary` of basicAnalysis.py: per training type, a count and four means that
    skip missing values. */
module BasicSummary {
  import opened Wrappers
  import opened Dicts
  import opened Averages
  import opened Records
  import opened BasicGrouping

  /** One element of the `summary` list; an average over nothing (NaN in the source) is `None`. */
  datatype SummaryEntry = SummaryEntry(
    trainingType: string,
    count: nat,
    hrBeforeAvg: Option<real>,
    hrDuringAvg: Option<real>,
    hrAfterAvg: Option<real>,
    temperatureAvg: Option<real>)

  datatype Field = HrBefore | HrDuring | HrAfter | Temperature

  function FieldOf(r: BasicRecord, f: Field): Option<Reading>
  {
    match f
    case HrBefore => r.hrBefore
    case HrDuring => r.hrDuring
    case HrAfter => r.hrAfter
    case Temperature => r.temperature
  }

  function AverageOf(e: SummaryEntry, f: Field): Option<real>
  {
    match f
    case HrBefore => e.hrBeforeAvg
    case HrDuring => e.hrDuringAvg
    case HrAfter => e.hrAfterAvg
    case Temperature => e.temperatureAvg
  }

  /** The numbers among `[r[f] for r in records if r[f] is not None]`, in record order. */
  function Present(rs: seq<BasicRecord>, f: Field): seq<real>
  {
    if rs == [] then []
    else
      var r := rs[|rs| - 1];
      Present(rs[..|rs| - 1], f) + (if FieldOf(r, f).Some? && FieldOf(r, f).value.Num? then [FieldOf(r, f).value.value] else [])
  }

  predicate HasNonNumeric(r: BasicRecord)
  {
    || (r.hrBefore.Some? && r.hrBefore.value.NonNumeric?)
    || (r.hrDuring.Some? && r.hrDuring.value.NonNumeric?)
    || (r.hrAfter.Some? && r.hrAfter.value.NonNumeric?)
    || (r.temperature.Some? && r.temperature.value.NonNumeric?)
  }

  /** `np.mean` raises for this group: some non-missing measurement is not a number. */
  predicate AggregationRaises(rs: seq<BasicRecord>)
  {
    exists i | 0 <= i < |rs| :: HasNonNumeric(rs[i])
  }

  /** The body of the `try` in `compute_summary` for one type; `None` when it raises. */
  function Summarize(t: string, rs: seq<BasicRecord>): (r: Option<SummaryEntry>)
    ensures r.Some? <==> !AggregationRaises(rs)
    ensures r.Some? ==> r.value.trainingType == t
  {
    if AggregationRaises(rs) then None
    else
      Some(SummaryEntry(t, |rs|,
        Mean(Present(rs, HrBefore)), Mean(Present(rs, HrDuring)),
        Mean(Present(rs, HrAfter)), Mean(Present(rs, Temperature))))
  }

  /** The `summary` list for the types of `g`, in the order of `g`. */
  function Summary(g: Dict<string, seq<BasicRecord>>): seq<SummaryEntry>
  {
    if g == [] then []
    else
      var last := g[|g| - 1];
      Summary(g[..|g| - 1]) + match Summarize(last.0, last.1) { case Some(e) => [e] case None => [] }
  }

  /** `compute_summary`: one entry per type whose aggregation does not raise. */
  method ComputeSummary(trainingsByType: Dict<string, seq<BasicRecord>>) returns (summary: seq<SummaryEntry>)
    ensures summary == Summary(trainingsByType)
  {
    summary := [];
    for i := 0 to |trainingsByType|
      invariant summary == Summary(trainingsByType[..i])
    {
      assert trainingsByType[..i + 1][..i] == trainingsByType[..i];
      var (trainingType, records) := trainingsByType[i];
      if AggregationRaises(records) {
        assert summary + [] == summary;
        continue;
      }
      var hrBeforeAvg := Mean(Present(records, HrBefore));
      var hrDuringAvg := Mean(Present(records, HrDuring));
      var hrAfterAvg := Mean(Present(records, HrAfter));
      var temperatureAvg := Mean(Present(records, Temperature));
      summary := summary + [SummaryEntry(trainingType, |records|, hrBeforeAvg, hrDuringAvg, hrAfterAvg, temperatureAvg)];
    }
    assert trainingsByType[..|trainingsByType|] == trainingsByType;
  }

  /** Without non-numeric values, a field's numbers are missing exactly when every record lacks it. */
  lemma {:induction false} PresentEmptyIff(rs: seq<BasicRecord>, f: Field)
    requires !AggregationRaises(rs)
    ensures Present(rs, f) == [] <==> forall i | 0 <= i < |rs| :: FieldOf(rs[i], f).None?
  {
    if rs != [] {
      var init := rs[..|rs| - 1];
      assert !AggregationRaises(init) by {
        forall i | 0 <= i < |init| ensures !HasNonNumeric(init[i]) {
          assert init[i] == rs[i];
        }
      }
      PresentEmptyIff(init, f);
      assert !HasNonNumeric(rs[|rs| - 1]);
      if forall i | 0 <= i < |init| :: FieldOf(init[i], f).None? {
        forall i | 0 <= i < |rs| - 1 ensures FieldOf(rs[i], f).None? {
          assert rs[i] == init[i];
        }
      } else {
        var i :| 0 <= i < |init| && FieldOf(init[i], f).Some?;
        assert rs[i] == init[i];
      }
    }
  }

  /** A produced entry counts every record of its type, missing measurements included; each
      average is the mean of the records that have the field, and is absent exactly when no
      record has it. */
  lemma SummaryEntryFields(t: string, rs: seq<BasicRecord>, f: Field)
    requires !AggregationRaises(rs)
    ensures Summarize(t, rs).Some?
    ensures Summarize(t, rs).value.count == |rs|
    ensures AverageOf(Summarize(t, rs).value, f) == Mean(Present(rs, f))
    ensures AverageOf(Summarize(t, rs).value, f).None? <==> forall i | 0 <= i < |rs| :: FieldOf(rs[i], f).None?
  {
    PresentEmptyIff(rs, f);
  }

  lemma SummaryStep(g: Dict<string, seq<BasicRecord>>)
    requires g != []
    ensures Summary(g) == Summary(g[..|g| - 1]) +
              match Summarize(g[|g| - 1].0, g[|g| - 1].1) { case Some(e) => [e] case None => [] }
  {
  }

  /** There are no more entries than types. */
  lemma {:induction false} SummaryLength(g: Dict<string, seq<BasicRecord>>)
    ensures |Summary(g)| <= |g|
  {
    if g != [] {
      SummaryLength(g[..|g| - 1]);
      SummaryStep(g);
    }
  }

  /** Every entry is the aggregation of some type of the input. */
  lemma {:induction false} SummarySound(g: Dict<string, seq<BasicRecord>>, k: nat) returns (i: nat)
    requires k < |Summary(g)|
    ensures i < |g| && Summarize(g[i].0, g[i].1) == Some(Summary(g)[k])
  {
    var init := g[..|g| - 1];
    SummaryStep(g);
    if k < |Summary(init)| {
      i := SummarySound(init, k);
      assert g[i] == init[i];
    } else {
      i := |g| - 1;
    }
  }

  /** Every type whose aggregation succeeds has its entry. */
  lemma {:induction false} SummaryComplete(g: Dict<string, seq<BasicRecord>>, i: nat)
    requires i < |g| && !AggregationRaises(g[i].1)
    ensures Summarize(g[i].0, g[i].1).value in Summary(g)
  {
    var init := g[..|g| - 1];
    var e := Summarize(g[i].0, g[i].1).value;
    SummaryStep(g);
    if i < |init| {
      assert g[i] == init[i];
      SummaryComplete(init, i);
      assert e in Summary(init);
    } else {
      assert Summarize(g[|g| - 1].0, g[|g| - 1].1) == Some(e);
    }
  }

  /** Entries keep the order of their types in the input. */
  lemma {:induction false} SummaryOrdered(g: Dict<string, seq<BasicRecord>>, a: nat, b: nat) returns (i: nat, j: nat)
    requires a < b < |Summary(g)|
    ensures i < j < |g| && g[i].0 == Summary(g)[a].trainingType && g[j].0 == Summary(g)[b].trainingType
  {
    var init := g[..|g| - 1];
    SummaryStep(g);
    var s, si := Summary(g), Summary(init);
    if b < |si| {
      i, j := SummaryOrdered(init, a, b);
      assert s[a] == si[a] && s[b] == si[b];
      assert g[i] == init[i] && g[j] == init[j];
    } else {
      i := SummarySound(init, a);
      assert s[a] == si[a];
      assert g[i] == init[i];
      j := |g| - 1;
    }
  }

  /** When the types are distinct (they are dict keys), no type gets two entries. */
  lemma SummaryTypesDistinct(g: Dict<string, seq<BasicRecord>>, a: nat, b: nat)
    requires Distinct(KeysOf(g))
    requires a < b < |Summary(g)|
    ensures Summary(g)[a].trainingType != Summary(g)[b].trainingType
  {
    var i, j := SummaryOrdered(g, a, b);
    KeysOfLength(g);
    assert KeysOf(g)[i] != KeysOf(g)[j];
  }
}
