/** `run_basic_analysis` of basicAnalysis.py: reads the sessions, groups their trainings, and
    builds one `basicanalyses` document per horse, in the order the horses were first grouped. */
module BasicAnalysis {
  import opened Wrappers
  import opened Dicts
  import opened Calendar
  import opened Records
  import opened BasicGrouping
  import opened BasicSummary
  import opened BasicTrends

  /** The `$set` part of the upsert for one horse (`generatedAt` aside). */
  datatype BasicDocument = BasicDocument(
    horseId: string,
    horseName: Option<string>,
    analysisType: string,
    summary: seq<SummaryEntry>,
    byMonth: Trends,
    last7Days: Trends)

  /** How a run ends. */
  datatype BasicOutcome =
    | InvalidHorseId
      // `ObjectId(horse_id)` raised while the query was being built
    | ReadFailed
      // the read raised: the run reports it and returns
    | NoSessions
      // no session matched the query
    | Processed(documents: seq<BasicDocument>, aborted: bool)
      // the documents upserted, in order; `aborted` when `compute_trends` raised for a horse,
      // which propagates out of the run and ends it

  /** `horses.get(h, "Unknown")`; a stored `None` stays `None`. */
  function NameOf(horses: map<string, Option<string>>, h: string): Option<string>
  {
    if h in horses then horses[h] else Some("Unknown")
  }

  function DocumentOf(h: string, byType: Dict<string, seq<BasicRecord>>, horses: map<string, Option<string>>, trends: (Trends, Trends)): BasicDocument
  {
    BasicDocument(h, NameOf(horses, h), "training_summary", Summary(byType), trends.0, trends.1)
  }

  /** What `compute_trends` gives for a horse's trainings by type, `None` when it raises. */
  type TrendsFn = Dict<string, seq<BasicRecord>> -> Option<(Trends, Trends)>

  /** `compute_trends` with `datetime.now()` read as `now`. */
  function TrendsAt(now: Instant): TrendsFn
  {
    byType => TrendsOf(now, byType)
  }

  /** The second loop of the run over the grouped horses: the documents built so far and
      whether `compute_trends` has raised. A horse whose key is no ObjectId gets no document:
      `ObjectId(horse_id_str)` raises inside the `try`, which reports it and goes on. */
  function Documents(groups: Groups, horses: map<string, Option<string>>, trends: TrendsFn): (seq<BasicDocument>, bool)
  {
    if groups == [] then ([], false)
    else
      var (docs, aborted) := Documents(groups[..|groups| - 1], horses, trends);
      if aborted then (docs, true)
      else
        var (h, byType) := groups[|groups| - 1];
        match trends(byType)
        case None => (docs, true)
        case Some(t) =>
          if ValidObjectId(h) then (docs + [DocumentOf(h, byType, horses, t)], false) else (docs, false)
  }

  /** The whole run. `fetched` is what the query returned, `None` when the read raised; the
      query itself (sessions with trainings, of the given horse) is the database's. */
  function BasicAnalysis(horseId: Option<string>, fetched: Option<seq<Session>>, now: Instant): BasicOutcome
  {
    if horseId.Some? && horseId.value != "" && !ValidObjectId(horseId.value) then InvalidHorseId
    else
      match fetched
      case None => ReadFailed
      case Some(sessions) =>
        if sessions == [] then NoSessions
        else
          var (docs, aborted) := Documents(Grouped(Appends(sessions)), HorseNames(sessions), TrendsAt(now));
          Processed(docs, aborted)
  }

  /** One more horse, before any abort: its document when its trends succeed and its key is
      valid, an abort when they raise. */
  lemma DocumentsStep(groups: Groups, i: nat, horses: map<string, Option<string>>, f: TrendsFn, docs: seq<BasicDocument>)
    requires i < |groups| && Documents(groups[..i], horses, f) == (docs, false)
    ensures Documents(groups[..i + 1], horses, f) ==
            match f(groups[i].1)
            case None => (docs, true)
            case Some(t) =>
              if ValidObjectId(groups[i].0) then (docs + [DocumentOf(groups[i].0, groups[i].1, horses, t)], false)
              else (docs, false)
  {
    assert groups[..i + 1][..i] == groups[..i];
  }

  /** Once `compute_trends` has raised, nothing more is processed. */
  lemma {:induction false} AbortSticks(groups: Groups, k: nat, horses: map<string, Option<string>>, f: TrendsFn)
    requires k <= |groups|
    requires Documents(groups[..k], horses, f).1
    ensures Documents(groups, horses, f) == Documents(groups[..k], horses, f)
  {
    if k == |groups| {
      assert groups[..k] == groups;
    } else {
      var init := groups[..|groups| - 1];
      assert init[..k] == groups[..k];
      AbortSticks(init, k, horses, f);
    }
  }

  /** The keys of the grouped data are distinct. */
  lemma GroupedDistinct(es: seq<Append>)
    ensures Distinct(KeysOf(Grouped(es)))
  {
    GroupedKeys(es);
    DedupDistinct(HorsesOf(es));
  }

  /** `run_basic_analysis`; `now` stands for every reading of `datetime.now()`. */
  method RunBasicAnalysis(horseId: Option<string>, fetched: Option<seq<Session>>, now: Instant)
    returns (outcome: BasicOutcome)
    ensures outcome == BasicAnalysis(horseId, fetched, now)
  {
    if horseId.Some? && horseId.value != "" && !ValidObjectId(horseId.value) {
      return InvalidHorseId;
    }
    if fetched.None? {
      return ReadFailed;
    }
    var sessions := fetched.value;
    if sessions == [] {
      return NoSessions;
    }
    var horses, groupedData, timeSeriesData := GroupSessions(sessions);
    GroupedDistinct(Appends(sessions));
    var documents, aborted := UpsertAll(groupedData, timeSeriesData, horses, now);
    return Processed(documents, aborted);
  }

  /** The loop over `grouped_data.items()`: a summary and trends per horse, then the upsert. */
  method UpsertAll(groupedData: Groups, timeSeriesData: Groups, horses: map<string, Option<string>>, now: Instant)
    returns (documents: seq<BasicDocument>, aborted: bool)
    requires timeSeriesData == groupedData && Distinct(KeysOf(groupedData))
    ensures (documents, aborted) == Documents(groupedData, horses, TrendsAt(now))
  {
    documents, aborted := [], false;
    var i := 0;
    while i < |groupedData| && !aborted
      invariant i <= |groupedData|
      invariant Documents(groupedData[..i], horses, TrendsAt(now)) == (documents, aborted)
    {
      documents, aborted := UpsertHorse(groupedData, timeSeriesData, horses, now, i, documents);
      i := i + 1;
    }
    if aborted {
      AbortSticks(groupedData, i, horses, TrendsAt(now));
    } else {
      assert groupedData[..i] == groupedData;
    }
  }

  /** One pass of that loop, for horse `i`; `aborted` when `compute_trends` raised. */
  method UpsertHorse(groupedData: Groups, timeSeriesData: Groups, horses: map<string, Option<string>>, now: Instant,
                     i: nat, documents: seq<BasicDocument>)
    returns (docs: seq<BasicDocument>, aborted: bool)
    requires timeSeriesData == groupedData && Distinct(KeysOf(groupedData))
    requires i < |groupedData| && Documents(groupedData[..i], horses, TrendsAt(now)) == (documents, false)
    ensures Documents(groupedData[..i + 1], horses, TrendsAt(now)) == (docs, aborted)
  {
    docs := documents;
    var (horseIdStr, trainingsByType) := groupedData[i];
    var summary := ComputeSummary(trainingsByType);
    GetAtIndex(timeSeriesData, i);
    var trends := ComputeTrends(now, TypesOf(timeSeriesData, horseIdStr));
    assert TrendsAt(now)(trainingsByType) == trends;
    DocumentsStep(groupedData, i, horses, TrendsAt(now), documents);
    if trends.None? {
      return docs, true;
    }
    if ValidObjectId(horseIdStr) {
      var (trendsMonth, trendsWeek) := trends.value;
      docs := docs + [BasicDocument(horseIdStr, NameOf(horses, horseIdStr), "training_summary", summary, trendsMonth, trendsWeek)];
    }
    aborted := false;
  }

  /** No horse up to and including `i` made `compute_trends` raise. */
  predicate Reached(groups: Groups, f: TrendsFn, i: nat)
    requires i < |groups|
  {
    forall j | 0 <= j <= i :: f(groups[j].1).Some?
  }

  /** `d` is the document built for horse `i`. */
  predicate BuiltFor(groups: Groups, horses: map<string, Option<string>>, f: TrendsFn, i: nat, d: BasicDocument)
    requires i < |groups|
  {
    && Reached(groups, f, i)
    && ValidObjectId(groups[i].0)
    && d == DocumentOf(groups[i].0, groups[i].1, horses, f(groups[i].1).value)
  }

  lemma DocumentsLast(groups: Groups, horses: map<string, Option<string>>, f: TrendsFn)
    requires groups != []
    ensures var before := Documents(groups[..|groups| - 1], horses, f);
            && (Documents(groups, horses, f).1 <==> before.1 || f(groups[|groups| - 1].1).None?)
            && (forall d | d in before.0 :: d in Documents(groups, horses, f).0)
  {
  }

  /** An aborted run was aborted by some grouped horse. */
  lemma {:induction false} AbortWitness(groups: Groups, horses: map<string, Option<string>>, f: TrendsFn) returns (i: nat)
    requires Documents(groups, horses, f).1
    ensures i < |groups| && f(groups[i].1).None?
  {
    var init := groups[..|groups| - 1];
    DocumentsLast(groups, horses, f);
    if Documents(init, horses, f).1 {
      i := AbortWitness(init, horses, f);
      assert groups[i] == init[i];
    } else {
      i := |groups| - 1;
    }
  }

  /** A horse for which `compute_trends` raises aborts the run. */
  lemma RaiseAborts(groups: Groups, horses: map<string, Option<string>>, f: TrendsFn, i: nat)
    requires i < |groups| && f(groups[i].1).None?
    ensures Documents(groups, horses, f).1
  {
    if Documents(groups[..i], horses, f).1 {
      AbortSticks(groups, i, horses, f);
    } else {
      DocumentsStep(groups, i, horses, f, Documents(groups[..i], horses, f).0);
      AbortSticks(groups, i + 1, horses, f);
    }
  }

  /** The run aborts exactly when `compute_trends` raises for some grouped horse. */
  lemma DocumentsAborted(groups: Groups, horses: map<string, Option<string>>, f: TrendsFn)
    ensures Documents(groups, horses, f).1 <==> exists i | 0 <= i < |groups| :: f(groups[i].1).None?
  {
    if Documents(groups, horses, f).1 {
      var i := AbortWitness(groups, horses, f);
    } else if exists i | 0 <= i < |groups| :: f(groups[i].1).None? {
      var i :| 0 <= i < |groups| && f(groups[i].1).None?;
      RaiseAborts(groups, horses, f, i);
    }
  }

  /** Every document was built for a horse with a valid key that was reached before any abort. */
  lemma {:induction false} DocumentsSound(groups: Groups, horses: map<string, Option<string>>, f: TrendsFn, k: nat)
    requires k < |Documents(groups, horses, f).0|
    ensures exists i | 0 <= i < |groups| :: BuiltFor(groups, horses, f, i, Documents(groups, horses, f).0[k])
  {
    var init := groups[..|groups| - 1];
    var docs := Documents(groups, horses, f).0;
    var (before, aborted) := Documents(init, horses, f);
    if k < |before| {
      DocumentsSound(init, horses, f, k);
      var i :| 0 <= i < |init| && BuiltFor(init, horses, f, i, before[k]);
      assert forall j | 0 <= j <= i :: init[j] == groups[j];
      assert BuiltFor(groups, horses, f, i, docs[k]);
    } else {
      var n := |groups| - 1;
      assert !aborted;
      DocumentsAborted(init, horses, f);
      forall j | 0 <= j <= n ensures f(groups[j].1).Some? {
        if j < n {
          assert groups[j] == init[j];
        }
      }
      assert BuiltFor(groups, horses, f, n, docs[k]);
    }
  }

  /** Every horse with a valid key reached before any abort has its document. */
  lemma {:induction false} DocumentsComplete(groups: Groups, horses: map<string, Option<string>>, f: TrendsFn, i: nat)
    requires i < |groups| && Reached(groups, f, i) && ValidObjectId(groups[i].0)
    ensures DocumentOf(groups[i].0, groups[i].1, horses, f(groups[i].1).value) in Documents(groups, horses, f).0
  {
    var init := groups[..|groups| - 1];
    if i < |init| {
      assert forall j | 0 <= j <= i :: init[j] == groups[j];
      assert Reached(init, f, i);
      DocumentsComplete(init, horses, f, i);
      DocumentsLast(groups, horses, f);
    } else {
      DocumentsAborted(init, horses, f);
      assert !Documents(init, horses, f).1 by {
        forall j | 0 <= j < |init| ensures f(init[j].1).Some? {
          assert init[j] == groups[j];
        }
      }
    }
  }

  /** Every grouped horse has a stored name, so the "Unknown" fallback of `horses.get` is
      never used. */
  lemma NamesKnown(ss: seq<Session>, h: string)
    requires h in KeysOf(Grouped(Appends(ss)))
    ensures h in HorseNames(ss)
  {
    var es := Appends(ss);
    GroupedKeys(es);
    DedupDistinct(HorsesOf(es));
    HorsesOfIndex(es);
    assert h in HorsesOf(es);
    var m :| 0 <= m < |es| && HorsesOf(es)[m] == h;
    var i, j := AppendsSound(ss, es[m]);
    assert HorseKey(ss[i]) == h;
    HorseNamesKeys(ss, h);
  }

  /** A document of a run carries the horse's last-seen name, the summary of that horse's
      grouped trainings and their trends, and a key that is the key of some session. */
  lemma RunDocument(horseId: Option<string>, fetched: Option<seq<Session>>, now: Instant, k: nat)
    requires BasicAnalysis(horseId, fetched, now).Processed?
    requires k < |BasicAnalysis(horseId, fetched, now).documents|
    ensures var sessions := fetched.value;
            var d := BasicAnalysis(horseId, fetched, now).documents[k];
            var byType := TypesOf(Grouped(Appends(sessions)), d.horseId);
            && ValidObjectId(d.horseId)
            && d.analysisType == "training_summary"
            && d.horseId in HorseNames(sessions) && d.horseName == HorseNames(sessions)[d.horseId]
            && d.summary == Summary(byType)
            && TrendsOf(now, byType) == Some((d.byMonth, d.last7Days))
            && exists i | 0 <= i < |sessions| :: HorseKey(sessions[i]) == d.horseId
  {
    var sessions := fetched.value;
    var groups := Grouped(Appends(sessions));
    var horses := HorseNames(sessions);
    var d := Documents(groups, horses, TrendsAt(now)).0[k];
    DocumentsSound(groups, horses, TrendsAt(now), k);
    var i :| 0 <= i < |groups| && BuiltFor(groups, horses, TrendsAt(now), i, d);
    KeysOfLength(groups);
    assert groups[i].0 == KeysOf(groups)[i];
    NamesKnown(sessions, d.horseId);
    HorseNamesKeys(sessions, d.horseId);
    GroupedDistinct(Appends(sessions));
    GetAtIndex(groups, i);
  }
}
