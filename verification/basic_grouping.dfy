/** The first half of `run_basic_analysis`: the loop that records every horse's name and
    groups the eligible trainings by horse and training type (basicAnalysis.py:31-56),
    together with `extract_training_data`. */
module BasicGrouping {
  import opened Wrappers
  import opened Dicts
  import opened Calendar
  import opened Records

  /** The flat record `extract_training_data` builds from one training. */
  datatype BasicRecord = BasicRecord(
    hrBefore: Option<Reading>,
    hrDuring: Option<Reading>,
    hrAfter: Option<Reading>,
    temperature: Option<Reading>,
    createdAt: Instant)

  /** `extract_training_data`: copies the four measurements and converts the session's
      timestamp; a timestamp pandas cannot convert makes the whole extraction `None`. */
  function ExtractTrainingData(t: Training, c: CreatedAt): (r: Option<BasicRecord>)
    ensures r.Some? <==> c.Parsed? && WellFormed(c.ts)
    ensures r.Some? ==> r.value.createdAt == c.ts
    ensures r.Some? ==> r.value.hrBefore == t.heartRateBefore && r.value.hrDuring == t.heartRateDuring
    ensures r.Some? ==> r.value.hrAfter == t.heartRateAfter && r.value.temperature == t.temperatureCelsius
  {
    match c
    case Unparseable => None
    case Parsed(ts) =>
      if WellFormed(ts) then
        Some(BasicRecord(t.heartRateBefore, t.heartRateDuring, t.heartRateAfter, t.temperatureCelsius, ts))
      else None
  }

  /** `str(session.get("horseId"))`: a missing id becomes the text "None". */
  function HorseKey(s: Session): string
  {
    match s.horseId
    case Some(id) => id
    case None => "None"
  }

  /** One `grouped_data[horse][type].append(record)`. */
  datatype Append = Append(horse: string, trainingType: string, record: BasicRecord)

  /** What the inner loop appends for one training of a session with key `h` and timestamp `c`. */
  function AppendFor(h: string, c: CreatedAt, t: Training): seq<Append>
  {
    if !IsCompleted(t) then []
    else
      match t.trainingType
      case None => []
      case Some(tt) =>
        if tt == "" then []
        else
          match ExtractTrainingData(t, c)
          case None => []
          case Some(r) => [Append(h, tt, r)]
  }

  function TrainingAppends(h: string, c: CreatedAt, ts: seq<Training>): seq<Append>
  {
    if ts == [] then []
    else TrainingAppends(h, c, ts[..|ts| - 1]) + AppendFor(h, c, ts[|ts| - 1])
  }

  /** What one pass of the outer loop appends: nothing for an empty key or a missing `createdAt`. */
  function SessionAppends(s: Session): seq<Append>
  {
    if HorseKey(s) == "" || s.createdAt.None? then []
    else TrainingAppends(HorseKey(s), s.createdAt.value, s.trainings)
  }

  /** Every append of the grouping loop, in loop order. */
  function Appends(ss: seq<Session>): seq<Append>
  {
    if ss == [] then []
    else Appends(ss[..|ss| - 1]) + SessionAppends(ss[|ss| - 1])
  }

  /** The two-level `defaultdict`: horse key, then training type, then the records. */
  type Groups = Dict<string, Dict<string, seq<BasicRecord>>>

  /** The inner dict of a horse: empty for a horse never appended to. */
  function TypesOf(g: Groups, h: string): Dict<string, seq<BasicRecord>>
  {
    match Get(g, h)
    case Some(d) => d
    case None => []
  }

  function AddRecord(g: Groups, e: Append): Groups
  {
    Put(g, e.horse, AppendAt(TypesOf(g, e.horse), e.trainingType, e.record))
  }

  /** The nested dict that results from performing the appends `es` in order. */
  function Grouped(es: seq<Append>): Groups
  {
    if es == [] then [] else AddRecord(Grouped(es[..|es| - 1]), es[|es| - 1])
  }

  /** The `horses` dict: every session's key mapped to its name, later sessions overwriting. */
  function HorseNames(ss: seq<Session>): map<string, Option<string>>
  {
    if ss == [] then map[]
    else HorseNames(ss[..|ss| - 1])[HorseKey(ss[|ss| - 1]) := HorseName(ss[|ss| - 1])]
  }

  lemma AppendsStep(ss: seq<Session>, i: nat)
    requires i < |ss|
    ensures Appends(ss[..i + 1]) == Appends(ss[..i]) + SessionAppends(ss[i])
  {
    assert ss[..i + 1][..i] == ss[..i];
  }

  lemma TrainingAppendsStep(done: seq<Append>, h: string, c: CreatedAt, ts: seq<Training>, j: nat)
    requires j < |ts|
    ensures done + TrainingAppends(h, c, ts[..j + 1]) == (done + TrainingAppends(h, c, ts[..j])) + AppendFor(h, c, ts[j])
  {
    assert ts[..j + 1][..j] == ts[..j];
  }

  lemma HorseNamesStep(ss: seq<Session>, i: nat)
    requires i < |ss|
    ensures HorseNames(ss[..i + 1]) == HorseNames(ss[..i])[HorseKey(ss[i]) := HorseName(ss[i])]
  {
    assert ss[..i + 1][..i] == ss[..i];
  }

  /** The grouping loop of `run_basic_analysis`. `grouped_data` and `time_series_data` receive
      the same appends. */
  method GroupSessions(sessions: seq<Session>)
    returns (horses: map<string, Option<string>>, groupedData: Groups, timeSeriesData: Groups)
    ensures horses == HorseNames(sessions)
    ensures groupedData == Grouped(Appends(sessions))
    ensures timeSeriesData == groupedData
  {
    horses, groupedData, timeSeriesData := map[], [], [];
    for i := 0 to |sessions|
      invariant horses == HorseNames(sessions[..i])
      invariant groupedData == Grouped(Appends(sessions[..i]))
      invariant timeSeriesData == groupedData
    {
      var session := sessions[i];
      AppendsStep(sessions, i);
      HorseNamesStep(sessions, i);
      var h := HorseKey(session);
      horses := horses[h := HorseName(session)];
      if h == "" || session.createdAt.None? {
        assert Appends(sessions[..i]) + [] == Appends(sessions[..i]);
        continue;
      }
      groupedData, timeSeriesData :=
        GroupTrainings(Appends(sessions[..i]), groupedData, h, session.createdAt.value, session.trainings);
    }
    assert sessions[..|sessions|] == sessions;
  }

  /** The inner loop over one session's trainings, appending to both nested dicts. */
  method GroupTrainings(ghost done: seq<Append>, grouped: Groups, h: string, createdAt: CreatedAt, trainings: seq<Training>)
    returns (groupedData: Groups, timeSeriesData: Groups)
    requires grouped == Grouped(done)
    ensures groupedData == Grouped(done + TrainingAppends(h, createdAt, trainings))
    ensures timeSeriesData == groupedData
  {
    groupedData, timeSeriesData := grouped, grouped;
    assert done + TrainingAppends(h, createdAt, trainings[..0]) == done;
    for j := 0 to |trainings|
      invariant groupedData == Grouped(done + TrainingAppends(h, createdAt, trainings[..j]))
      invariant timeSeriesData == groupedData
    {
      TrainingAppendsStep(done, h, createdAt, trainings, j);
      groupedData, timeSeriesData := GroupTraining(done + TrainingAppends(h, createdAt, trainings[..j]), groupedData, h, createdAt, trainings[j]);
    }
    assert trainings[..|trainings|] == trainings;
  }

  /** One pass of the inner loop: a completed training with a non-empty type whose extraction
      succeeds is appended under its horse and type. */
  method GroupTraining(ghost done: seq<Append>, grouped: Groups, h: string, createdAt: CreatedAt, training: Training)
    returns (groupedData: Groups, timeSeriesData: Groups)
    requires grouped == Grouped(done)
    ensures groupedData == Grouped(done + AppendFor(h, createdAt, training))
    ensures timeSeriesData == groupedData
  {
    groupedData, timeSeriesData := grouped, grouped;
    assert done + [] == done;
    if training.trainingStatus != Some("Completed") {
      return;
    }
    var trainingType := training.trainingType;
    if trainingType.None? || trainingType.value == "" {
      return;
    }
    var record := ExtractTrainingData(training, createdAt);
    if record.Some? {
      var e := Append(h, trainingType.value, record.value);
      assert AppendFor(h, createdAt, training) == [e];
      assert (done + [e])[..|done|] == done;
      groupedData := AddRecord(groupedData, e);
      timeSeriesData := AddRecord(timeSeriesData, e);
    }
  }

  /** Training `t` of session `s` puts record `e` into the groups: the session has a non-empty
      key and a `createdAt`, the training is "Completed" with a non-empty type, and extraction
      succeeded with `e`'s record. */
  predicate Contributes(s: Session, t: Training, e: Append)
  {
    && HorseKey(s) != ""
    && s.createdAt.Some?
    && IsCompleted(t)
    && t.trainingType.Some? && t.trainingType.value != ""
    && ExtractTrainingData(t, s.createdAt.value) == Some(e.record)
    && e.horse == HorseKey(s)
    && e.trainingType == t.trainingType.value
  }

  /** The one append of a training, if any, is the record it contributes. */
  lemma AppendForExactly(s: Session, t: Training, e: Append)
    requires HorseKey(s) != "" && s.createdAt.Some?
    ensures e in AppendFor(HorseKey(s), s.createdAt.value, t) <==> Contributes(s, t, e)
  {
  }

  lemma {:induction false} TrainingAppendsSound(s: Session, ts: seq<Training>, e: Append) returns (j: nat)
    requires HorseKey(s) != "" && s.createdAt.Some?
    requires e in TrainingAppends(HorseKey(s), s.createdAt.value, ts)
    ensures j < |ts| && Contributes(s, ts[j], e)
  {
    var init, last := ts[..|ts| - 1], ts[|ts| - 1];
    if e in TrainingAppends(HorseKey(s), s.createdAt.value, init) {
      j := TrainingAppendsSound(s, init, e);
      assert ts[j] == init[j];
    } else {
      AppendForExactly(s, last, e);
      j := |ts| - 1;
    }
  }

  lemma {:induction false} TrainingAppendsComplete(s: Session, ts: seq<Training>, e: Append, j: nat)
    requires HorseKey(s) != "" && s.createdAt.Some?
    requires j < |ts| && Contributes(s, ts[j], e)
    ensures e in TrainingAppends(HorseKey(s), s.createdAt.value, ts)
  {
    var init, last := ts[..|ts| - 1], ts[|ts| - 1];
    if j < |init| {
      assert init[j] == ts[j];
      TrainingAppendsComplete(s, init, e, j);
    } else {
      AppendForExactly(s, last, e);
    }
  }

  /** Every record in the groups was contributed by some training of some session. */
  lemma {:induction false} AppendsSound(ss: seq<Session>, e: Append) returns (i: nat, j: nat)
    requires e in Appends(ss)
    ensures i < |ss| && j < |ss[i].trainings| && Contributes(ss[i], ss[i].trainings[j], e)
  {
    var init, last := ss[..|ss| - 1], ss[|ss| - 1];
    if e in Appends(init) {
      i, j := AppendsSound(init, e);
      assert ss[i] == init[i];
    } else {
      i := |ss| - 1;
      assert e in SessionAppends(last);
      j := TrainingAppendsSound(last, last.trainings, e);
    }
  }

  /** Every contributing training puts its record into the groups. */
  lemma {:induction false} AppendsComplete(ss: seq<Session>, e: Append, i: nat, j: nat)
    requires i < |ss| && j < |ss[i].trainings| && Contributes(ss[i], ss[i].trainings[j], e)
    ensures e in Appends(ss)
  {
    var init, last := ss[..|ss| - 1], ss[|ss| - 1];
    if i < |init| {
      assert init[i] == ss[i];
      AppendsComplete(init, e, i, j);
    } else {
      TrainingAppendsComplete(last, last.trainings, e, j);
    }
  }

  /** A record reaches the groups exactly when some training of some session contributes it:
      no training that is not "Completed", has no type, or belongs to a session without a key
      or a `createdAt` ever does. */
  lemma AppendsExactly(ss: seq<Session>, e: Append)
    ensures e in Appends(ss) <==>
            exists i, j | 0 <= i < |ss| && 0 <= j < |ss[i].trainings| :: Contributes(ss[i], ss[i].trainings[j], e)
  {
    if e in Appends(ss) {
      var i, j := AppendsSound(ss, e);
    }
    if exists i, j | 0 <= i < |ss| && 0 <= j < |ss[i].trainings| :: Contributes(ss[i], ss[i].trainings[j], e) {
      var i, j :| 0 <= i < |ss| && 0 <= j < |ss[i].trainings| && Contributes(ss[i], ss[i].trainings[j], e);
      AppendsComplete(ss, e, i, j);
    }
  }

  function HorsesOf(es: seq<Append>): seq<string>
  {
    if es == [] then [] else HorsesOf(es[..|es| - 1]) + [es[|es| - 1].horse]
  }

  /** The (type, record) pairs appended for horse `h`, in order. */
  function TypedRecords(es: seq<Append>, h: string): seq<(string, BasicRecord)>
  {
    if es == [] then []
    else
      var e := es[|es| - 1];
      TypedRecords(es[..|es| - 1], h) + (if e.horse == h then [(e.trainingType, e.record)] else [])
  }

  /** The records appended for horse `h` and type `t`, in order. */
  function RecordsOf(es: seq<Append>, h: string, t: string): seq<BasicRecord>
  {
    if es == [] then []
    else
      var e := es[|es| - 1];
      RecordsOf(es[..|es| - 1], h, t) + (if e.horse == h && e.trainingType == t then [e.record] else [])
  }

  /** The horses of the nested dict appear in order of their first record. */
  lemma {:induction false} GroupedKeys(es: seq<Append>)
    ensures KeysOf(Grouped(es)) == Dedup(HorsesOf(es))
  {
    if es != [] {
      GroupedKeys(es[..|es| - 1]);
    }
  }

  /** Each horse's inner dict is the grouping by type of that horse's records. */
  lemma {:induction false} GroupedTypes(es: seq<Append>, h: string)
    ensures TypesOf(Grouped(es), h) == GroupBy(TypedRecords(es, h))
  {
    if es != [] {
      var init, e := es[..|es| - 1], es[|es| - 1];
      GroupedTypes(init, h);
      var g := Grouped(init);
      assert Grouped(es) == AddRecord(g, e);
      if h == e.horse {
        assert TypedRecords(es, h) == TypedRecords(init, h) + [(e.trainingType, e.record)];
        GroupBySnoc(TypedRecords(init, h), e.trainingType, e.record);
      } else {
        assert TypedRecords(es, h) == TypedRecords(init, h) + [];
        assert TypedRecords(init, h) + [] == TypedRecords(init, h);
      }
    }
  }

  lemma {:induction false} TypedRecordsLookup(es: seq<Append>, h: string, t: string)
    ensures ValuesFor(TypedRecords(es, h), t) == RecordsOf(es, h, t)
  {
    if es != [] {
      var init, e := es[..|es| - 1], es[|es| - 1];
      TypedRecordsLookup(init, h, t);
      var extra := if e.horse == h then [(e.trainingType, e.record)] else [];
      ValuesForAppend(TypedRecords(init, h), extra, t);
      if e.horse == h {
        assert ValuesFor(extra, t) == ValuesFor(extra[..0], t) + (if e.trainingType == t then [e.record] else []);
      }
    }
  }

  /** `grouped_data[h][t]` holds exactly the records appended for `h` and `t`, in append order;
      a type key exists under `h` only when it holds at least one record. */
  lemma GroupedLookup(es: seq<Append>, h: string, t: string)
    ensures ListAt(TypesOf(Grouped(es), h), t) == RecordsOf(es, h, t)
    ensures t in KeysOf(TypesOf(Grouped(es), h)) ==> RecordsOf(es, h, t) != []
  {
    GroupedTypes(es, h);
    GroupByLookup(TypedRecords(es, h), t);
    TypedRecordsLookup(es, h, t);
    if t in KeysOf(TypesOf(Grouped(es), h)) {
      GroupByNonEmpty(TypedRecords(es, h), t);
    }
  }

  /** The name stored for a key is the name of the last session with that key, whether or
      not that session is then skipped; every session's key gets a name. */
  lemma {:induction false} HorseNameIsLastSeen(ss: seq<Session>, i: nat)
    requires i < |ss|
    requires forall k | i < k < |ss| :: HorseKey(ss[k]) != HorseKey(ss[i])
    ensures HorseKey(ss[i]) in HorseNames(ss)
    ensures HorseNames(ss)[HorseKey(ss[i])] == HorseName(ss[i])
  {
    if i < |ss| - 1 {
      var init := ss[..|ss| - 1];
      assert init[i] == ss[i];
      forall k | i < k < |init| ensures HorseKey(init[k]) != HorseKey(init[i]) {
        assert init[k] == ss[k];
      }
      HorseNameIsLastSeen(init, i);
    }
  }

  /** The `horses` dict has a name for exactly the keys of the sessions read. */
  lemma {:induction false} HorseNamesKeys(ss: seq<Session>, h: string)
    ensures h in HorseNames(ss) <==> exists i | 0 <= i < |ss| :: HorseKey(ss[i]) == h
  {
    if ss != [] {
      var init := ss[..|ss| - 1];
      HorseNamesKeys(init, h);
      if exists i | 0 <= i < |ss| :: HorseKey(ss[i]) == h {
        var i :| 0 <= i < |ss| && HorseKey(ss[i]) == h;
        if i < |init| {
          assert init[i] == ss[i];
        }
      }
      if exists i | 0 <= i < |init| :: HorseKey(init[i]) == h {
        var i :| 0 <= i < |init| && HorseKey(init[i]) == h;
        assert ss[i] == init[i];
      }
    }
  }

  lemma {:induction false} HorsesOfIndex(es: seq<Append>)
    ensures |HorsesOf(es)| == |es|
    ensures forall m | 0 <= m < |es| :: HorsesOf(es)[m] == es[m].horse
  {
    if es != [] {
      HorsesOfIndex(es[..|es| - 1]);
    }
  }
}
