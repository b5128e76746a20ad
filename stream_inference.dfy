/**
 * One step of the streaming detector (`stream_inference.main`): align the
 * stream to the training columns, take its head event, either flag it from
 * the local time at its location or score it with the graph auto-encoder,
 * explain a high score by its two worst-reconstructed features, append one
 * log line and move the head event to the tail of the stream.
 *
 * The auto-encoder is a parameter `forward` (graph to reconstructed rows) and
 * the wall clock is a parameter `hourIn` (time-zone name to current hour).
 */
module StreamInference {
  import opened Wrappers
  import opened Frames
  import opened ContextGraph

  // ------------------------------------------------------------ local time

  type Hour = h: int | 0 <= h < 24

  /** `location_code_to_city`: label codes of the `location` column. */
  const CityOfCode: map<int, string> :=
    map[-1 := "Unknown", 0 := "London", 1 := "Tokyo", 2 := "New York", 3 := "Berlin", 4 := "São Paulo"]

  /** `city_to_timezone`. */
  const TimezoneOf: map<string, string> :=
    map["London" := "Europe/London", "Tokyo" := "Asia/Tokyo", "New York" := "America/New_York",
        "Berlin" := "Europe/Berlin", "São Paulo" := "America/Sao_Paulo"]

  /** `location_code_to_city.get(code, "Unknown")`. */
  function City(code: int): string
  {
    if code in CityOfCode then CityOfCode[code] else "Unknown"
  }

  /**
   * `get_local_hour(code)`: the current hour in the city's time zone and the
   * city, or no hour for an unknown city.
   */
  function LocalHour(code: int, hourIn: string -> Hour): (Option<Hour>, string)
  {
    var city := City(code);
    if city == "Unknown" || city !in TimezoneOf then (None, city)
    else (Some(hourIn(TimezoneOf[city])), city)
  }

  /**
   * An hour is known exactly for the codes 0 to 4; it is then the clock's
   * hour in that city's zone. Every other code, -1 included, reports
   * "Unknown" and no hour.
   */
  lemma LocalHourKnown(code: int, hourIn: string -> Hour)
    ensures LocalHour(code, hourIn).0.Some? <==> 0 <= code <= 4
    ensures 0 <= code <= 4 ==>
      LocalHour(code, hourIn).0 == Some(hourIn(TimezoneOf[CityOfCode[code]]))
    ensures !(0 <= code <= 4) ==> LocalHour(code, hourIn) == (None, "Unknown")
  {
    if code in CityOfCode {
      assert code == -1 || 0 <= code <= 4;
    }
  }

  /** The late-night override: a known local hour in `[0, 4)`. */
  predicate OverrideFires(hour: Option<Hour>)
  {
    hour.Some? && 0 <= hour.value < 4
  }

  // --------------------------------------------------------------- scoring

  /** The fixed decision threshold of the streaming detector. */
  const Threshold: real := 10000000.0

  /** The width of a node feature row the model was trained on. */
  const Width: nat := 32

  function Abs(x: real): real
  {
    if x < 0.0 then -x else x
  }

  /** The square of one feature's reconstruction difference. */
  function Sq(d: real): real
  {
    d * d
  }

  /** A product kept behind a name, so that the solver sees its sign facts as they are stated. */
  function Times(x: real, y: real): real
  {
    x * y
  }

  lemma TimesPositive(x: real, y: real)
    requires x > 0.0 && y > 0.0
    ensures Times(x, y) > 0.0
  {
  }

  /** A square is never negative, and it is zero only for a zero difference. */
  lemma SqSign(d: real)
    ensures Sq(d) >= 0.0
    ensures d != 0.0 ==> Sq(d) > 0.0
  {
    var m := Abs(d);
    assert Sq(d) == Times(m, m);
    if d != 0.0 {
      TimesPositive(m, m);
    }
  }

  /** `mse_loss(x_hat[-1], x[-1], reduction='sum')`: the summed squared differences. */
  function SquaredError(a: seq<real>, b: seq<real>): (e: real)
    requires |a| == |b|
    ensures e >= 0.0
  {
    if a == [] then 0.0
    else
      var n := |a| - 1;
      SqSign(a[n] - b[n]);
      SquaredError(a[..n], b[..n]) + Sq(a[n] - b[n])
  }

  /** The score is zero exactly when the reconstruction is perfect. */
  lemma {:induction false} SquaredErrorZero(a: seq<real>, b: seq<real>)
    requires |a| == |b|
    ensures SquaredError(a, b) == 0.0 <==> a == b
  {
    if a != [] {
      var n := |a| - 1;
      SquaredErrorZero(a[..n], b[..n]);
      SqSign(a[n] - b[n]);
      if SquaredError(a, b) == 0.0 {
        assert a == a[..n] + [a[n]] && b == b[..n] + [b[n]];
      }
      if a == b {
        assert a[..n] == b[..n];
      }
    }
  }

  /** `np.abs(original - reconstructed)`. */
  function AbsErrors(a: seq<real>, b: seq<real>): (errs: seq<real>)
    requires |a| == |b|
    ensures |errs| == |a|
    ensures forall i :: 0 <= i < |a| ==> errs[i] == Abs(a[i] - b[i])
  {
    seq(|a|, i requires 0 <= i < |a| => Abs(a[i] - b[i]))
  }

  // ------------------------------------------------------ top-2 explanation

  /**
   * The index of a largest entry of `errs` among the first `n`, skipping
   * `skip`, or `-1` when there is no candidate. Among equal entries this
   * picks the later index; `argsort`'s default sort is not stable, so the
   * contract promises no particular one.
   */
  function Best(errs: seq<real>, n: nat, skip: int): (b: int)
    requires n <= |errs|
    ensures -1 <= b < n
    ensures b == -1 <==> n == 0 || (n == 1 && skip == 0)
    ensures b >= 0 ==> b != skip && forall j :: 0 <= j < n && j != skip ==> errs[j] <= errs[b]
  {
    if n == 0 then -1
    else
      var k := Best(errs, n - 1, skip);
      if n - 1 == skip then k
      else if k == -1 || errs[n - 1] >= errs[k] then n - 1
      else k
  }

  /**
   * `abs_errors.argsort()[-2:][::-1]`: the indices of the largest and the
   * second largest absolute error, largest first.
   */
  function TopTwo(errs: seq<real>): (top: seq<nat>)
    requires |errs| >= 2
    ensures |top| == 2 && top[0] < |errs| && top[1] < |errs| && top[0] != top[1]
    ensures forall j :: 0 <= j < |errs| ==> errs[j] <= errs[top[0]]
    ensures forall j :: 0 <= j < |errs| && j != top[0] ==> errs[j] <= errs[top[1]]
    ensures errs[top[1]] <= errs[top[0]]
  {
    var first := Best(errs, |errs|, -1);
    var second := Best(errs, |errs|, first);
    [first as nat, second as nat]
  }

  /** One line of the explanation: the feature, and what was expected and observed. */
  datatype Reason =
    | Unusual(feature: string, expected: real, observed: real)  // "The attribute ... is unusual: expected around ..., but got ..."
    | NormalValue(feature: string)                             // "The attribute ... shows a normal value."

  /** The explanation line for feature `i`. */
  function ReasonFor(names: seq<string>, orig: seq<real>, recon: seq<real>, i: nat): (r: Reason)
    requires |orig| == |recon| == |names| && i < |names|
    ensures r.feature == names[i]
    ensures r.NormalValue? <==> orig[i] == recon[i]
    ensures r.Unusual? ==> r.expected == recon[i] && r.observed == orig[i]
  {
    if Abs(orig[i] - recon[i]) > 0.0 then Unusual(names[i], recon[i], orig[i]) else NormalValue(names[i])
  }

  /** The loop over `top_indices` that builds `explanation`. */
  method Explain(names: seq<string>, orig: seq<real>, recon: seq<real>, top: seq<nat>) returns (why: seq<Reason>)
    requires |orig| == |recon| == |names|
    requires forall k :: 0 <= k < |top| ==> top[k] < |names|
    ensures |why| == |top|
    ensures forall k :: 0 <= k < |top| ==> why[k] == ReasonFor(names, orig, recon, top[k])
  {
    why := [];
    for k := 0 to |top|
      invariant |why| == k
      invariant forall m :: 0 <= m < k ==> why[m] == ReasonFor(names, orig, recon, top[m])
    {
      var idx := top[k];
      var reason;
      if Abs(orig[idx] - recon[idx]) > 0.0 {
        reason := Unusual(names[idx], recon[idx], orig[idx]);
      } else {
        reason := NormalValue(names[idx]);
      }
      why := why + [reason];
    }
  }

  /** The explanation of an anomalous event. */
  function Explanation(names: seq<string>, orig: seq<real>, recon: seq<real>): (why: seq<Reason>)
    requires |orig| == |recon| == |names| >= 2
  {
    var top := TopTwo(AbsErrors(orig, recon));
    [ReasonFor(names, orig, recon, top[0]), ReasonFor(names, orig, recon, top[1])]
  }

  // ------------------------------------------------------------- log entry

  datatype Field = Field(name: string, value: real)

  /** `row.to_dict()`, in column order. */
  function Fields(names: seq<string>, row: seq<real>): (fs: seq<Field>)
    requires |names| == |row|
    ensures |fs| == |row| && forall i :: 0 <= i < |row| ==> fs[i] == Field(names[i], row[i])
  {
    seq(|row|, i requires 0 <= i < |row| => Field(names[i], row[i]))
  }

  datatype Verdict =
    | Medium(city: string, hour: Hour)                                  // "anomaly": "medium" with the late-night reason
    | Scored(anomaly: bool, score: real, why: Option<seq<Reason>>)       // "anomaly", "score" and, when anomalous, "why"

  datatype LogEntry = LogEntry(streamIndex: nat, raw: seq<Field>, verdict: Verdict)

  datatype StreamError =
    | NoLocation                      // `row['location']` raises `KeyError`
    | WidthMismatch                   // the `assert ... == 32` fails
    | GraphFailure(cause: GraphError)        // `add_node_to_graph` raises
    | OutputShape                     // the model output has no last row of the input's width

  /** The node rows of `g` and the new row all have the model's width. */
  predicate WidthsOk(g: ContextGraph.Graph, row: seq<real>)
  {
    |row| == Width && forall i :: 0 <= i < |g.x| ==> |g.x[i]| == Width
  }

  /** The model path: insert the event, reconstruct, score, and explain when anomalous. */
  function ScoreEvent(g: ContextGraph.Graph, train: Frame<real>, names: seq<string>, row: seq<real>,
                      forward: ContextGraph.Graph -> seq<seq<real>>): Result<Verdict, StreamError>
    requires Rect(train) && |names| == |row|
  {
    if !WidthsOk(g, row) then Err(WidthMismatch)
    else match Inserted(g, row, train, ContextCols, 0)
      case Err(e) => Err(GraphFailure(e))
      case Ok(h) =>
        var out := forward(h);
        if |out| == 0 || |out[|out| - 1]| != |row| then Err(OutputShape)
        else
          var recon := out[|out| - 1];
          var score := SquaredError(row, recon);
          var anomaly := score > Threshold;
          Ok(Scored(anomaly, score, if anomaly then Some(Explanation(names, row, recon)) else None))
  }

  /**
   * The verdict on the head event of a non-empty aligned stream: the
   * late-night override when it fires, the model's score otherwise.
   */
  function Judge(aligned: Frame<real>, train: Frame<real>, g: ContextGraph.Graph,
                 hourIn: string -> Hour, forward: ContextGraph.Graph -> seq<seq<real>>): Result<Verdict, StreamError>
    requires Rect(aligned) && Rect(train) && aligned.height > 0
  {
    var row := Row(aligned, 0);
    match Find(aligned.names, "location")
    case None => Err(NoLocation)
    case Some(loc) =>
      var (hour, city) := LocalHour(Trunc(row[loc]), hourIn);
      if OverrideFires(hour) then Ok(Medium(city, hour.value))
      else ScoreEvent(g, train, aligned.names, row, forward)
  }

  /** Specification of one run: the log entry it writes (none for an empty stream), or the exception. */
  function Infer(stream: Frame<real>, train: Frame<real>, g: ContextGraph.Graph,
                 hourIn: string -> Hour, forward: ContextGraph.Graph -> seq<seq<real>>): Result<Option<LogEntry>, StreamError>
    requires Rect(stream) && Rect(train)
  {
    var aligned := Aligned(stream, train.names, 0.0);
    AlignedShape(stream, train.names, 0.0);
    if aligned.height == 0 then Ok(None)
    else match Judge(aligned, train, g, hourIn, forward)
      case Err(e) => Err(e)
      case Ok(v) => Ok(Some(LogEntry(train.height, Fields(aligned.names, Row(aligned, 0)), v)))
  }

  /** The model path of `main`, from the width assertion to the explanation. */
  method Score(g: ContextGraph.Graph, train: Frame<real>, names: seq<string>, row: seq<real>,
               forward: ContextGraph.Graph -> seq<seq<real>>) returns (r: Result<Verdict, StreamError>)
    requires Rect(train) && |names| == |row|
    ensures r == ScoreEvent(g, train, names, row, forward)
  {
    if !WidthsOk(g, row) {
      return Err(WidthMismatch);
    }
    var temp := AddNode(g, row, train, ContextCols, 0);
    if temp.Err? {
      return Err(GraphFailure(temp.error));
    }
    var out := forward(temp.value);
    if |out| == 0 || |out[|out| - 1]| != |row| {
      return Err(OutputShape);
    }
    var recon := out[|out| - 1];
    var score := SquaredError(row, recon);
    var isAnomaly := score > Threshold;
    var why := None;
    if isAnomaly {
      var top := TopTwo(AbsErrors(row, recon));
      var explanation := Explain(names, row, recon, top);
      assert explanation == Explanation(names, row, recon);
      why := Some(explanation);
    }
    r := Ok(Scored(isAnomaly, score, why));
  }

  /** The head event of `main`: reads its location, checks the local hour, and scores it when the override does not fire. */
  method JudgeHead(aligned: Frame<real>, train: Frame<real>, g: ContextGraph.Graph,
                   hourIn: string -> Hour, forward: ContextGraph.Graph -> seq<seq<real>>) returns (r: Result<Verdict, StreamError>)
    requires Rect(aligned) && Rect(train) && aligned.height > 0
    ensures r == Judge(aligned, train, g, hourIn, forward)
  {
    var row := Row(aligned, 0);
    var loc := Find(aligned.names, "location");
    if loc.None? {
      return Err(NoLocation);
    }
    var code := Trunc(row[loc.value]);
    var (hour, city) := LocalHour(code, hourIn);
    if hour.Some? && 0 <= hour.value < 4 {
      r := Ok(Medium(city, hour.value));
    } else {
      r := Score(g, train, aligned.names, row, forward);
    }
  }

  // -------------------------------------------------------------- rotation

  /** `pd.concat([df.iloc[1:], row])`: the head row moves to the end. */
  function Rotated(f: Frame<real>): (r: Frame<real>)
    requires Rect(f) && f.height > 0
    ensures Rect(r) && r.names == f.names && r.height == f.height
  {
    Frame(f.names, seq(|f.cols|, j requires 0 <= j < |f.cols| => f.cols[j][1..] + [f.cols[j][0]]), f.height)
  }

  /** Row by row, rotation is `tail ++ [head]`: nothing is lost or added. */
  lemma RotatedRows(f: Frame<real>)
    requires Rect(f) && f.height > 0
    ensures Rows(Rotated(f)) == Rows(f)[1..] + [Rows(f)[0]]
  {
    var r := Rotated(f);
    var a, b := Rows(r), Rows(f)[1..] + [Rows(f)[0]];
    forall i | 0 <= i < f.height ensures a[i] == b[i] {
      assert Row(r, i) == (if i + 1 < f.height then Row(f, i + 1) else Row(f, 0));
    }
  }

  /** `k` rotations of a row list. */
  function Rotations<T>(s: seq<T>, k: nat): seq<T>
    requires |s| > 0
  {
    if k == 0 then s else var t := Rotations(s, k - 1); t[1..] + [t[0]]
  }

  /** After `k` steps the stream starts at its `k`-th event... */
  lemma {:induction false} RotationsSplit<T>(s: seq<T>, k: nat)
    requires 0 < |s| && k <= |s|
    ensures |Rotations(s, k)| == |s|
    ensures Rotations(s, k) == s[k..] + s[..k]
  {
    if k > 0 {
      RotationsSplit(s, k - 1);
      var t := Rotations(s, k - 1);
      assert t[0] == s[k - 1];
      assert t[1..] == s[k..] + s[..k - 1];
      assert s[..k] == s[..k - 1] + [s[k - 1]];
    }
  }

  /** ...so after as many steps as it has events the stream is back where it started. */
  lemma RotationsCycle<T>(s: seq<T>)
    requires |s| > 0
    ensures Rotations(s, |s|) == s
  {
    RotationsSplit(s, |s|);
  }

  /** The stream left in the stream file: aligned, and rotated when an entry was logged. */
  function NextStream(stream: Frame<real>, train: Frame<real>, r: Result<Option<LogEntry>, StreamError>): (next: Frame<real>)
    requires Rect(stream) && Rect(train)
    ensures Rect(next) && next.names == train.names && next.height == stream.height
  {
    var aligned := Aligned(stream, train.names, 0.0);
    AlignedShape(stream, train.names, 0.0);
    if r.Ok? && r.value.Some? && aligned.height > 0 then Rotated(aligned) else aligned
  }

  /** The frame rotated `k` times. */
  function RotatedN(f: Frame<real>, k: nat): (r: Frame<real>)
    requires Rect(f) && f.height > 0
    ensures Rect(r) && r.names == f.names && r.height == f.height
  {
    if k == 0 then f else Rotated(RotatedN(f, k - 1))
  }

  /** Row by row, rotating a frame `k` times is rotating its row list `k` times. */
  lemma {:induction false} RotatedNRows(f: Frame<real>, k: nat)
    requires Rect(f) && f.height > 0
    ensures Rows(RotatedN(f, k)) == Rotations(Rows(f), k)
  {
    if k > 0 {
      RotatedNRows(f, k - 1);
      RotatedRows(RotatedN(f, k - 1));
    }
  }

  /** Aligning and rotating can be done in either order. */
  lemma AlignedRotated(f: Frame<real>, targets: seq<string>)
    requires Rect(f) && f.height > 0
    ensures Aligned(Rotated(f), targets, 0.0) == Rotated(Aligned(f, targets, 0.0))
  {
    AlignedShape(f, targets, 0.0);
    var a, b := Aligned(Rotated(f), targets, 0.0), Rotated(Aligned(f, targets, 0.0));
    forall j | 0 <= j < |targets| ensures a.cols[j] == b.cols[j] {
      var c := AlignedColumn(f, targets[j], 0.0);
      assert b.cols[j] == c[1..] + [c[0]];
    }
  }

  /** What one run of the script yields for a stream file, with the training files, clock and model fixed. */
  function RunResult(train: Frame<real>, g: ContextGraph.Graph, hourIn: string -> Hour,
                     forward: ContextGraph.Graph -> seq<seq<real>>): Frame<real> -> Result<Option<LogEntry>, StreamError>
  {
    s => if Rect(s) && Rect(train) then Infer(s, train, g, hourIn, forward) else Ok(None)
  }

  /** The stream after `k` runs, each yielding `run` of the stream it finds. */
  function Runs(stream: Frame<real>, train: Frame<real>, run: Frame<real> -> Result<Option<LogEntry>, StreamError>,
                k: nat): (s: Frame<real>)
    requires Rect(stream) && Rect(train)
    ensures Rect(s) && s.height == stream.height
  {
    if k == 0 then stream
    else
      var prev := Runs(stream, train, run, k - 1);
      NextStream(prev, train, run(prev))
  }

  /**
   * When each of `k` runs on a non-empty stream logs an entry, the stream
   * after them is the aligned stream rotated `k` times.
   */
  lemma {:induction false} RunsRotate(stream: Frame<real>, train: Frame<real>,
                                      run: Frame<real> -> Result<Option<LogEntry>, StreamError>, k: nat)
    requires Rect(stream) && Rect(train) && stream.height > 0
    requires forall i :: 0 <= i < k ==> run(Runs(stream, train, run, i)).Ok? && run(Runs(stream, train, run, i)).value.Some?
    ensures var aligned := Aligned(stream, train.names, 0.0);
      && Rect(aligned) && aligned.height > 0
      && Aligned(Runs(stream, train, run, k), train.names, 0.0) == RotatedN(aligned, k)
      && (k > 0 ==> Runs(stream, train, run, k) == RotatedN(aligned, k))
  {
    AlignedShape(stream, train.names, 0.0);
    var aligned := Aligned(stream, train.names, 0.0);
    if k == 0 {
      AlignIdempotent(stream, train.names, 0.0);
      return;
    }
    RunsRotate(stream, train, run, k - 1);
    var prev := Runs(stream, train, run, k - 1);
    var before := RotatedN(aligned, k - 1);
    AlignedShape(prev, train.names, 0.0);
    assert Runs(stream, train, run, k) == Rotated(before);
    AlignedRotated(before, train.names);
    AlignIdempotent(prev, train.names, 0.0);
  }

  /**
   * Runs of the script that raise nothing walk a non-empty stream: after
   * `k` of them (at most one per event) it holds the aligned events from
   * the `k`-th on, followed by the first `k`; after as many runs as it has
   * events it is back in its original order.
   */
  lemma RunsCycle(stream: Frame<real>, train: Frame<real>, g: ContextGraph.Graph,
                  hourIn: string -> Hour, forward: ContextGraph.Graph -> seq<seq<real>>, k: nat)
    requires Rect(stream) && Rect(train) && 0 < k <= stream.height
    requires forall i :: 0 <= i < k ==>
      RunResult(train, g, hourIn, forward)(Runs(stream, train, RunResult(train, g, hourIn, forward), i)).Ok?
    ensures var aligned := Aligned(stream, train.names, 0.0);
      var after := Runs(stream, train, RunResult(train, g, hourIn, forward), k);
      && Rect(aligned)
      && Rows(after) == Rows(aligned)[k..] + Rows(aligned)[..k]
      && (k == stream.height ==> Rows(after) == Rows(aligned))
  {
    var run := RunResult(train, g, hourIn, forward);
    forall i | 0 <= i < k
      ensures run(Runs(stream, train, run, i)).Ok? && run(Runs(stream, train, run, i)).value.Some?
    {
      EmptyStreamLogsNothing(Runs(stream, train, run, i), train, g, hourIn, forward);
    }
    AlignedShape(stream, train.names, 0.0);
    var aligned := Aligned(stream, train.names, 0.0);
    RunsRotate(stream, train, run, k);
    RotatedNRows(aligned, k);
    RotationsSplit(Rows(aligned), k);
  }

  // ------------------------------------------------------------ the script

  /** The two files one run reads and rewrites: the stream CSV and the JSON-lines log. */
  class StreamFiles {
    var stream: Frame<real>
    var log: seq<LogEntry>

    constructor(stream0: Frame<real>, log0: seq<LogEntry>)
      ensures stream == stream0 && log == log0
    {
      stream := stream0;
      log := log0;
    }

    /**
     * One run of `main`: the aligned stream is written back first; an empty
     * stream stops there; otherwise the head event is judged, one line is
     * appended to the log and the head moves to the tail. An exception
     * leaves the log as it was and the stream aligned but not rotated.
     */
    method RunOnce(train: Frame<real>, g: ContextGraph.Graph,
                   hourIn: string -> Hour, forward: ContextGraph.Graph -> seq<seq<real>>)
      returns (r: Result<Option<LogEntry>, StreamError>)
      requires Rect(stream) && Rect(train)
      modifies this
      ensures r == Infer(old(stream), train, g, hourIn, forward)
      ensures stream == NextStream(old(stream), train, r)
      ensures log == old(log) + (if r.Ok? && r.value.Some? then [r.value.value] else [])
    {
      var aligned := Align(stream, train.names, 0.0);
      AlignedShape(stream, train.names, 0.0);
      stream := aligned;
      if aligned.height == 0 {
        return Ok(None);
      }
      var verdict := JudgeHead(aligned, train, g, hourIn, forward);
      if verdict.Err? {
        return Err(verdict.error);
      }
      var entry := LogEntry(train.height, Fields(aligned.names, Row(aligned, 0)), verdict.value);
      log := log + [entry];
      stream := Rotated(aligned);
      r := Ok(Some(entry));
    }
  }

  // ------------------------------------------------------------ properties

  /** An empty stream writes no log line; a non-empty one writes one or raises. */
  lemma EmptyStreamLogsNothing(stream: Frame<real>, train: Frame<real>, g: ContextGraph.Graph,
                               hourIn: string -> Hour, forward: ContextGraph.Graph -> seq<seq<real>>)
    requires Rect(stream) && Rect(train)
    ensures Infer(stream, train, g, hourIn, forward) == Ok(None) <==> stream.height == 0
  {
  }

  /**
   * The late-night override fires exactly when the event's location has a
   * known local hour (codes 0 to 4, by `LocalHourKnown`) below 4; it logs
   * "medium" with that city and hour, no score, and does not consult the model.
   */
  lemma OverrideIff(stream: Frame<real>, train: Frame<real>, g: ContextGraph.Graph,
                    hourIn: string -> Hour, forward: ContextGraph.Graph -> seq<seq<real>>,
                    other: ContextGraph.Graph -> seq<seq<real>>)
    requires Rect(stream) && Rect(train) && stream.height > 0 && "location" in train.names
    ensures var (hour, city) := LocalHour(LocationCode(stream, train), hourIn);
            var r := Infer(stream, train, g, hourIn, forward);
      && ((r.Ok? && r.value.Some? && r.value.value.verdict.Medium?) <==> OverrideFires(hour))
      && (OverrideFires(hour) ==>
            r.Ok? && r.value.Some? && r.value.value.verdict == Medium(city, hour.value)
            && r == Infer(stream, train, g, hourIn, other))
  {
    var aligned := Aligned(stream, train.names, 0.0);
    AlignedShape(stream, train.names, 0.0);
    var loc := Find(aligned.names, "location").value;
    LocalHourKnown(Trunc(Row(aligned, 0)[loc]), hourIn);
  }

  /** The location code of the first stream event, after alignment to the training columns. */
  function LocationCode(stream: Frame<real>, train: Frame<real>): int
    requires Rect(stream) && Rect(train) && stream.height > 0 && "location" in train.names
  {
    var aligned := Aligned(stream, train.names, 0.0);
    AlignedShape(stream, train.names, 0.0);
    Trunc(Row(aligned, 0)[Find(aligned.names, "location").value])
  }

  /**
   * On the model path the log carries the score, `anomaly` holds exactly when
   * the score is strictly above 10000000, and an explanation is present
   * exactly when the event is anomalous.
   */
  lemma ScoredVerdict(g: ContextGraph.Graph, train: Frame<real>, names: seq<string>, row: seq<real>,
                      forward: ContextGraph.Graph -> seq<seq<real>>)
    requires Rect(train) && |names| == |row|
    requires ScoreEvent(g, train, names, row, forward).Ok?
    ensures var v := ScoreEvent(g, train, names, row, forward).value;
            var out := forward(Inserted(g, row, train, ContextCols, 0).value);
      && v.Scored?
      && v.score == SquaredError(row, out[|out| - 1])
      && (v.anomaly <==> v.score > 10000000.0)
      && (v.why.Some? <==> v.anomaly)
  {
  }

  /**
   * The explanation of an anomalous event names two distinct features, the
   * one with the largest absolute error first; neither is beaten by any other
   * feature; the "normal value" wording is used exactly when the feature was
   * reconstructed exactly; and the first line is never that wording, because
   * a positive score means some feature differs.
   */
  lemma ExplanationShape(names: seq<string>, orig: seq<real>, recon: seq<real>)
    requires |orig| == |recon| == |names| >= 2
    requires SquaredError(orig, recon) > Threshold
    ensures var why := Explanation(names, orig, recon);
            var errs := AbsErrors(orig, recon);
            var top := TopTwo(errs);
      && |why| == 2 && top[0] != top[1]
      && why[0].feature == names[top[0]] && why[1].feature == names[top[1]]
      && errs[top[1]] <= errs[top[0]]
      && (forall j :: 0 <= j < |orig| && j != top[0] && j != top[1] ==> errs[j] <= errs[top[1]])
      && (forall k :: 0 <= k < 2 ==> (why[k].NormalValue? <==> orig[top[k]] == recon[top[k]]))
      && why[0].Unusual?
  {
    var errs := AbsErrors(orig, recon);
    var top := TopTwo(errs);
    SquaredErrorZero(orig, recon);
    assert orig != recon;
    var j :| 0 <= j < |orig| && orig[j] != recon[j];
    assert errs[j] > 0.0;
    assert errs[top[0]] > 0.0;
  }

  /** The logged index is the number of training rows, and the raw features are the aligned head row. */
  lemma EntryIndex(stream: Frame<real>, train: Frame<real>, g: ContextGraph.Graph,
                   hourIn: string -> Hour, forward: ContextGraph.Graph -> seq<seq<real>>)
    requires Rect(stream) && Rect(train)
    requires Infer(stream, train, g, hourIn, forward).Ok? && Infer(stream, train, g, hourIn, forward).value.Some?
    ensures var e := Infer(stream, train, g, hourIn, forward).value.value;
            var aligned := Aligned(stream, train.names, 0.0);
      && e.streamIndex == train.height
      && |e.raw| == |train.names|
      && forall i :: 0 <= i < |train.names| ==>
           e.raw[i] == Field(train.names[i], aligned.cols[i][0])
  {
    AlignedShape(stream, train.names, 0.0);
  }
}
