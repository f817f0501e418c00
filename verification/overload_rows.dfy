/** The `data` list of `run_overload_analysis` in overloadAnalysis.py: one row per completed
    training, in session order and then training order. */
module OverloadRows {
  import opened Wrappers
  import opened Records

  /** One element of `data`; the fields a training lacks are `None`. */
  datatype Row = Row(
    trainingType: Option<string>,
    intensity: Option<string>,
    temperature: Option<Reading>,
    duration: Option<Reading>,
    hrBefore: Option<Reading>,
    hrDuring: Option<Reading>,
    hrAfter: Option<Reading>,
    ratingScore: Option<Reading>)

  function RowOf(t: Training): Row
  {
    Row(t.trainingType, t.intensity, t.temperatureCelsius, t.duration,
        t.heartRateBefore, t.heartRateDuring, t.heartRateAfter, t.ratingScore)
  }

  /** The rows one session adds. */
  function SessionRows(ts: seq<Training>): seq<Row>
  {
    if ts == [] then []
    else SessionRows(ts[..|ts| - 1]) + (if IsCompleted(ts[|ts| - 1]) then [RowOf(ts[|ts| - 1])] else [])
  }

  /** `data` after the loop over `sessions`. */
  function Rows(ss: seq<Session>): seq<Row>
  {
    if ss == [] then [] else Rows(ss[..|ss| - 1]) + SessionRows(ss[|ss| - 1].trainings)
  }

  /** The number of completed trainings in `ts`. */
  function CompletedIn(ts: seq<Training>): nat
  {
    if ts == [] then 0 else CompletedIn(ts[..|ts| - 1]) + if IsCompleted(ts[|ts| - 1]) then 1 else 0
  }

  /** The number of completed trainings in all of `ss`. */
  function CompletedAll(ss: seq<Session>): nat
  {
    if ss == [] then 0 else CompletedAll(ss[..|ss| - 1]) + CompletedIn(ss[|ss| - 1].trainings)
  }

  /** How many completed trainings come before training `j` of session `i`. */
  function Position(ss: seq<Session>, i: nat, j: nat): nat
    requires i < |ss| && j <= |ss[i].trainings|
  {
    CompletedAll(ss[..i]) + CompletedIn(ss[i].trainings[..j])
  }

  /** The two nested loops that build `data`. */
  method ExtractRows(sessions: seq<Session>) returns (data: seq<Row>)
    ensures data == Rows(sessions)
  {
    data := [];
    for i := 0 to |sessions|
      invariant data == Rows(sessions[..i])
    {
      assert sessions[..i + 1][..i] == sessions[..i];
      data := AppendCompleted(data, sessions[i].trainings);
    }
    assert sessions[..|sessions|] == sessions;
  }

  /** The inner loop over one session's trainings. */
  method AppendCompleted(done: seq<Row>, trainings: seq<Training>) returns (data: seq<Row>)
    ensures data == done + SessionRows(trainings)
  {
    data := done;
    assert done + SessionRows(trainings[..0]) == done;
    for j := 0 to |trainings|
      invariant data == done + SessionRows(trainings[..j])
    {
      assert trainings[..j + 1][..j] == trainings[..j];
      var training := trainings[j];
      if training.trainingStatus != Some("Completed") {
        assert done + SessionRows(trainings[..j + 1]) == data;
        continue;
      }
      data := data + [Row(
        training.trainingType,
        training.intensity,
        training.temperatureCelsius,
        training.duration,
        training.heartRateBefore,
        training.heartRateDuring,
        training.heartRateAfter,
        training.ratingScore)];
    }
    assert trainings[..|trainings|] == trainings;
  }

  lemma {:induction false} SessionRowsLength(ts: seq<Training>)
    ensures |SessionRows(ts)| == CompletedIn(ts)
  {
    if ts != [] {
      SessionRowsLength(ts[..|ts| - 1]);
    }
  }

  /** There are as many rows as completed trainings. */
  lemma {:induction false} RowsLength(ss: seq<Session>)
    ensures |Rows(ss)| == CompletedAll(ss)
  {
    if ss != [] {
      RowsLength(ss[..|ss| - 1]);
      SessionRowsLength(ss[|ss| - 1].trainings);
    }
  }

  lemma {:induction false} SessionRowsAppend(a: seq<Training>, b: seq<Training>)
    ensures SessionRows(a + b) == SessionRows(a) + SessionRows(b)
  {
    if b == [] {
      assert a + b == a;
    } else {
      var init := b[..|b| - 1];
      SessionRowsAppend(a, init);
      assert (a + b)[..|a + b| - 1] == a + init;
    }
  }

  lemma {:induction false} RowsAppend(a: seq<Session>, b: seq<Session>)
    ensures Rows(a + b) == Rows(a) + Rows(b)
  {
    if b == [] {
      assert a + b == a;
    } else {
      var init, ab := b[..|b| - 1], a + b;
      RowsAppend(a, init);
      assert ab[..|ab| - 1] == a + init && ab[|ab| - 1] == b[|b| - 1];
      assert Rows(ab) == Rows(a + init) + SessionRows(b[|b| - 1].trainings);
      assert Rows(b) == Rows(init) + SessionRows(b[|b| - 1].trainings);
    }
  }

  /** Completed training `j` of `ts` is row number `CompletedIn(ts[..j])` of the session. */
  lemma SessionRowAt(ts: seq<Training>, j: nat)
    requires j < |ts| && IsCompleted(ts[j])
    ensures CompletedIn(ts[..j]) < |SessionRows(ts)|
    ensures SessionRows(ts)[CompletedIn(ts[..j])] == RowOf(ts[j])
  {
    var pre := ts[..j + 1];
    assert pre[..j] == ts[..j];
    assert ts == pre + ts[j + 1..];
    SessionRowsAppend(pre, ts[j + 1..]);
    SessionRowsLength(ts[..j]);
  }

  /** Every completed training has its row, at its position among the completed trainings. */
  lemma RowsAt(ss: seq<Session>, i: nat, j: nat)
    requires i < |ss| && j < |ss[i].trainings| && IsCompleted(ss[i].trainings[j])
    ensures Position(ss, i, j) < |Rows(ss)|
    ensures Rows(ss)[Position(ss, i, j)] == RowOf(ss[i].trainings[j])
  {
    var pre := ss[..i + 1];
    assert pre[..i] == ss[..i];
    assert ss == pre + ss[i + 1..];
    RowsAppend(pre, ss[i + 1..]);
    RowsLength(ss[..i]);
    SessionRowAt(ss[i].trainings, j);
  }

  lemma {:induction false} SessionRowsSound(ts: seq<Training>, k: nat) returns (j: nat)
    requires k < |SessionRows(ts)|
    ensures j < |ts| && IsCompleted(ts[j]) && SessionRows(ts)[k] == RowOf(ts[j])
    ensures CompletedIn(ts[..j]) == k
  {
    var init := ts[..|ts| - 1];
    if k < |SessionRows(init)| {
      j := SessionRowsSound(init, k);
      assert ts[..j] == init[..j];
    } else {
      j := |ts| - 1;
      SessionRowsLength(init);
    }
  }

  /** Every row comes from a completed training, and its index is that training's position:
      together with `RowsAt`, rows and completed trainings correspond one to one. */
  lemma {:induction false} RowsSound(ss: seq<Session>, k: nat) returns (i: nat, j: nat)
    requires k < |Rows(ss)|
    ensures i < |ss| && j < |ss[i].trainings|
    ensures IsCompleted(ss[i].trainings[j]) && Rows(ss)[k] == RowOf(ss[i].trainings[j])
    ensures Position(ss, i, j) == k
  {
    var init := ss[..|ss| - 1];
    if k < |Rows(init)| {
      i, j := RowsSound(init, k);
      assert ss[..i] == init[..i];
    } else {
      i := |ss| - 1;
      RowsLength(init);
      j := SessionRowsSound(ss[i].trainings, k - |Rows(init)|);
      assert ss[..i] == init;
    }
  }

  lemma {:induction false} CompletedInGrows(ts: seq<Training>, a: nat, b: nat)
    requires a < b <= |ts|
    ensures CompletedIn(ts[..a]) + (if IsCompleted(ts[a]) then 1 else 0) <= CompletedIn(ts[..b])
  {
    assert ts[..b][..b - 1] == ts[..b - 1];
    if a < b - 1 {
      CompletedInGrows(ts, a, b - 1);
    }
  }

  lemma {:induction false} CompletedAllGrows(ss: seq<Session>, a: nat, b: nat)
    requires a < b <= |ss|
    ensures CompletedAll(ss[..a]) + CompletedIn(ss[a].trainings) <= CompletedAll(ss[..b])
  {
    assert ss[..b][..b - 1] == ss[..b - 1];
    if a < b - 1 {
      CompletedAllGrows(ss, a, b - 1);
    }
  }

  lemma CompletedInBound(ts: seq<Training>, j: nat)
    requires j <= |ts|
    ensures CompletedIn(ts[..j]) <= CompletedIn(ts)
  {
    if j < |ts| {
      CompletedInGrows(ts, j, |ts|);
    }
    assert ts[..|ts|] == ts;
  }

  /** Rows keep the order of their trainings: session order, then training order. */
  lemma PositionOrder(ss: seq<Session>, i: nat, j: nat, i': nat, j': nat)
    requires i < |ss| && j < |ss[i].trainings| && IsCompleted(ss[i].trainings[j])
    requires i' < |ss| && j' <= |ss[i'].trainings|
    requires i < i' || (i == i' && j < j')
    ensures Position(ss, i, j) < Position(ss, i', j')
  {
    if i < i' {
      var ts := ss[i].trainings;
      CompletedInGrows(ts, j, |ts|);
      assert ts[..|ts|] == ts;
      CompletedAllGrows(ss, i, i');
    } else {
      CompletedInGrows(ss[i].trainings, j, j');
    }
  }
}
