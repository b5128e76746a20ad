/**
 * Threshold calibration over the labelled test split (`helper.py`): every
 * test event is inserted into the training graph on its own and scored by
 * the auto-encoder; events labelled "malicious" feed the anomalous list and
 * all others the normal list; the suggested threshold is the midpoint of the
 * largest normal score and the smallest anomalous one.
 */
module Calibration {
  import opened Wrappers
  import opened Text
  import opened Frames
  import opened ContextGraph
  import StreamInference

  // ------------------------------------------------------------ test split

  /**
   * The labelled test split: its numeric columns, and the `target` column
   * when the file has one (`target` is read as text).
   */
  datatype TestSplit = TestSplit(features: Frame<real>, target: Option<seq<string>>)

  predicate WellFormed(t: TestSplit)
  {
    && Rect(t.features)
    && "target" !in t.features.names
    && (t.target.Some? ==> |t.target.value| == t.features.height)
  }

  /** The column names of the split as pandas lists them. */
  function Columns(t: TestSplit): seq<string>
  {
    t.features.names + (if t.target.Some? then ["target"] else [])
  }

  /** `.astype(str).str.strip().str.lower()`: the label as it is compared. */
  function NormalizeLabel(s: string): string
  {
    Lower(Strip(s))
  }

  /** Upper-to-lower case mapping never turns a space into a non-space or back. */
  lemma LowerKeepsSpaces(s: string, i: nat)
    requires i < |s|
    ensures IsSpace(Lower(s)[i]) <==> IsSpace(s[i])
  {
    LowerAt(s, i);
  }

  /** Normalising a label twice gives the same label. */
  lemma NormalizeIdempotent(s: string)
    ensures NormalizeLabel(NormalizeLabel(s)) == NormalizeLabel(s)
  {
    var t := Strip(s);
    var u := Lower(t);
    StripIsTrimmedInfix(s);
    StripIdempotent(s);
    if u != [] {
      LowerKeepsSpaces(t, 0);
      LowerKeepsSpaces(t, |t| - 1);
      assert TrimLeft(u) == u;
      assert TrimRight(u) == u;
    }
    assert Strip(u) == u;
    LowerIdempotent(t);
  }

  /** The split after its `target` column is normalised: each label is stripped and lower-cased, one for one. */
  function Normalized(t: TestSplit): (u: TestSplit)
    requires WellFormed(t)
    ensures WellFormed(u) && u.features == t.features && u.target.Some? == t.target.Some?
    ensures u.target.Some? ==>
      && |u.target.value| == |t.target.value|
      && forall i :: 0 <= i < |t.target.value| ==> u.target.value[i] == NormalizeLabel(t.target.value[i])
  {
    match t.target
    case None => t
    case Some(labels) =>
      TestSplit(t.features, Some(seq(|labels|, i requires 0 <= i < |labels| => NormalizeLabel(labels[i]))))
  }

  /** `[c for c in train if c in names]`. */
  function Present(train: seq<string>, names: seq<string>): (r: seq<string>)
    ensures forall c :: c in r <==> c in train && c in names
    ensures |r| <= |train|
  {
    if train == [] then []
    else (if train[0] in names then [train[0]] else []) + Present(train[1..], names)
  }

  /** `Present` keeps the training order: it is the training list with the absent names taken out. */
  lemma {:induction false} PresentIsSubsequence(train: seq<string>, names: seq<string>, j: nat)
    requires j <= |train|
    ensures Present(train, names) == Present(train[..j], names) + Present(train[j..], names)
  {
    if j > 0 {
      PresentIsSubsequence(train[1..], names, j - 1);
      assert train[1..][..j - 1] == train[..j][1..];
      assert train[1..][j - 1..] == train[j..];
    }
  }

  /**
   * `columns_to_keep`: the training columns the split has, in training
   * order, then `target` when the split has one.
   */
  function KeptColumns(train: seq<string>, t: TestSplit): (kept: seq<string>)
    ensures t.target.Some? ==> |kept| > 0 && kept[|kept| - 1] == "target"
  {
    Present(train, Columns(t)) + (if t.target.Some? then ["target"] else [])
  }

  /** Kept columns are exactly the training columns the split has, plus `target` when it is there. */
  lemma KeptColumnsMembers(train: seq<string>, t: TestSplit)
    ensures forall c :: c in KeptColumns(train, t) <==>
      (c in train && c in Columns(t)) || (c == "target" && t.target.Some?)
  {
  }

  // -------------------------------------------------------------- scoring

  datatype CalibrationError =
    | MissingFeature(name: string)   // `row[numeric_columns]` raises `KeyError`
    | WidthMismatch                  // `torch.cat` of rows of different widths raises
    | GraphFailure(cause: GraphError)
    | OutputShape                    // the model output has no last row of the input's width

  /** `row[numeric_columns]` for event `i`: every training column, read from the split. */
  function NodeFeatures(train: seq<string>, t: TestSplit, i: nat): (r: Result<seq<real>, CalibrationError>)
    requires WellFormed(t) && i < t.features.height
    ensures r.Ok? ==> |r.value| == |train|
    ensures r.Err? ==> r.error.MissingFeature? && r.error.name in train && r.error.name !in t.features.names
    decreases |train|
  {
    if train == [] then Ok([])
    else
      var n := |train| - 1;
      match NodeFeatures(train[..n], t, i)
      case Err(e) => Err(e)
      case Ok(prefix) =>
        match Column(t.features, train[n])
        case None => Err(MissingFeature(train[n]))
        case Some(c) => Ok(prefix + [c[i]])
  }

  /** An event's features are read exactly when the split has every training column. */
  lemma {:induction false} NodeFeaturesOk(train: seq<string>, t: TestSplit, i: nat)
    requires WellFormed(t) && i < t.features.height
    ensures NodeFeatures(train, t, i).Ok? <==> forall c :: c in train ==> c in t.features.names
    ensures NodeFeatures(train, t, i).Ok? ==>
      forall k :: 0 <= k < |train| ==> NodeFeatures(train, t, i).value[k] == Column(t.features, train[k]).value[i]
  {
    if train != [] {
      var n := |train| - 1;
      NodeFeaturesOk(train[..n], t, i);
      assert train == train[..n] + [train[n]];
    }
  }

  /** The reconstruction error of one event scored against the training graph. */
  function RowError(g: ContextGraph.Graph, train: Frame<real>, t: TestSplit, i: nat,
                    forward: ContextGraph.Graph -> seq<seq<real>>): Result<real, CalibrationError>
    requires Rect(train) && WellFormed(t) && i < t.features.height
  {
    match NodeFeatures(train.names, t, i)
    case Err(e) => Err(e)
    case Ok(row) =>
      if exists k :: 0 <= k < |g.x| && |g.x[k]| != |row| then Err(WidthMismatch)
      else match Inserted(g, row, train, ContextCols, 0)
        case Err(e) => Err(GraphFailure(e))
        case Ok(h) =>
          var out := forward(h);
          if |out| == 0 || |out[|out| - 1]| != |row| then Err(OutputShape)
          else Ok(StreamInference.SquaredError(out[|out| - 1], row))
  }

  /** Scores one event: reads its features, inserts it, reconstructs and sums the squared differences. */
  method ScoreRow(g: ContextGraph.Graph, train: Frame<real>, t: TestSplit, i: nat,
                  forward: ContextGraph.Graph -> seq<seq<real>>) returns (r: Result<real, CalibrationError>)
    requires Rect(train) && WellFormed(t) && i < t.features.height
    ensures r == RowError(g, train, t, i, forward)
    ensures r.Ok? ==> r.value >= 0.0
  {
    var row := NodeFeatures(train.names, t, i);
    if row.Err? {
      return Err(row.error);
    }
    var k := 0;
    while k < |g.x|
      invariant 0 <= k <= |g.x|
      invariant forall m :: 0 <= m < k ==> |g.x[m]| == |row.value|
    {
      if |g.x[k]| != |row.value| {
        return Err(WidthMismatch);
      }
      k := k + 1;
    }
    var temp := AddNode(g, row.value, train, ContextCols, 0);
    if temp.Err? {
      return Err(GraphFailure(temp.error));
    }
    var out := forward(temp.value);
    if |out| == 0 || |out[|out| - 1]| != |row.value| {
      return Err(OutputShape);
    }
    r := Ok(StreamInference.SquaredError(out[|out| - 1], row.value));
  }

  // ------------------------------------------------------------ partition

  /** One log line: the event's position in the split and its reconstruction error. */
  datatype Record = Record(index: nat, error: real)

  /** The two logs the loop writes. */
  datatype Logs = Logs(normal: seq<Record>, anomalous: seq<Record>)

  /** `label == 'malicious'` for event `i`; an event without a target is normal. */
  predicate IsMalicious(t: TestSplit, i: nat)
  {
    t.target.Some? && i < |t.target.value| && t.target.value[i] == "malicious"
  }

  /** Specification of the row loop over the first `n` events of the (normalised) split. */
  function Partition(g: ContextGraph.Graph, train: Frame<real>, t: TestSplit, n: nat,
                     forward: ContextGraph.Graph -> seq<seq<real>>): Result<Logs, CalibrationError>
    requires Rect(train) && WellFormed(t) && n <= t.features.height
  {
    if n == 0 then Ok(Logs([], []))
    else match Partition(g, train, t, n - 1, forward)
      case Err(e) => Err(e)
      case Ok(logs) =>
        match RowError(g, train, t, n - 1, forward)
        case Err(e) => Err(e)
        case Ok(err) =>
          if IsMalicious(t, n - 1) then Ok(Logs(logs.normal, logs.anomalous + [Record(n - 1, err)]))
          else Ok(Logs(logs.normal + [Record(n - 1, err)], logs.anomalous))
  }

  /** The loop of `helper.py`: score every event and append it to the log its label selects. */
  method ScoreSplit(g: ContextGraph.Graph, train: Frame<real>, t: TestSplit,
                    forward: ContextGraph.Graph -> seq<seq<real>>) returns (r: Result<Logs, CalibrationError>)
    requires Rect(train) && WellFormed(t)
    ensures r == Partition(g, train, t, t.features.height, forward)
  {
    var normal: seq<Record> := [];
    var anomalous: seq<Record> := [];
    var i := 0;
    while i < t.features.height
      invariant 0 <= i <= t.features.height
      invariant Partition(g, train, t, i, forward) == Ok(Logs(normal, anomalous))
    {
      var err := ScoreRow(g, train, t, i, forward);
      if err.Err? {
        ErrPersists(g, train, t, i + 1, t.features.height, err.error, forward);
        return Err(err.error);
      }
      var target := if t.target.Some? then Some(t.target.value[i]) else None;
      if target == Some("malicious") {
        anomalous := anomalous + [Record(i, err.value)];
      } else {
        normal := normal + [Record(i, err.value)];
      }
      i := i + 1;
    }
    r := Ok(Logs(normal, anomalous));
  }

  /** Once an event fails to score, the loop has failed with that event's error. */
  lemma {:induction false} ErrPersists(g: ContextGraph.Graph, train: Frame<real>, t: TestSplit, n: nat, m: nat,
                                       e: CalibrationError, forward: ContextGraph.Graph -> seq<seq<real>>)
    requires Rect(train) && WellFormed(t) && n <= m <= t.features.height
    requires Partition(g, train, t, n, forward) == Err(e)
    ensures Partition(g, train, t, m, forward) == Err(e)
    decreases m
  {
    if m > n {
      ErrPersists(g, train, t, n, m - 1, e, forward);
    }
  }

  /** Event `i` has a line in `rs`. */
  predicate Logged(rs: seq<Record>, i: nat)
  {
    exists r :: r in rs && r.index == i
  }

  /**
   * Every event lands in exactly one log, the anomalous one exactly when its
   * label is "malicious", with its own index and error, and each log keeps
   * the events in split order.
   */
  lemma {:induction false} PartitionExact(g: ContextGraph.Graph, train: Frame<real>, t: TestSplit, n: nat,
                                          forward: ContextGraph.Graph -> seq<seq<real>>)
    requires Rect(train) && WellFormed(t) && n <= t.features.height
    requires Partition(g, train, t, n, forward).Ok?
    ensures var logs := Partition(g, train, t, n, forward).value;
      && |logs.normal| + |logs.anomalous| == n
      && (forall r :: r in logs.anomalous ==>
            (r.index < n && IsMalicious(t, r.index) && RowError(g, train, t, r.index, forward) == Ok(r.error)))
      && (forall r :: r in logs.normal ==>
            (r.index < n && !IsMalicious(t, r.index) && RowError(g, train, t, r.index, forward) == Ok(r.error)))
      && (forall i: nat :: i < n ==> Logged(logs.anomalous, i) || Logged(logs.normal, i))
      && (forall a, b :: 0 <= a < b < |logs.normal| ==> logs.normal[a].index < logs.normal[b].index)
      && (forall a, b :: 0 <= a < b < |logs.anomalous| ==> logs.anomalous[a].index < logs.anomalous[b].index)
  {
    if n > 0 {
      PartitionExact(g, train, t, n - 1, forward);
      var logs := Partition(g, train, t, n - 1, forward).value;
      var err := RowError(g, train, t, n - 1, forward).value;
      var rec := Record(n - 1, err);
      var next := Partition(g, train, t, n, forward).value;
      assert logs.anomalous <= next.anomalous && logs.normal <= next.normal;
      assert rec in next.anomalous || rec in next.normal;
      forall i: nat | i < n
        ensures Logged(next.anomalous, i) || Logged(next.normal, i)
      {
        if i == n - 1 {
          assert rec.index == i;
        } else if Logged(logs.anomalous, i) {
          var r :| r in logs.anomalous && r.index == i;
          assert r in next.anomalous;
        } else {
          var r :| r in logs.normal && r.index == i;
          assert r in next.normal;
        }
      }
    }
  }

  // ------------------------------------------------------------ threshold

  function Max(s: seq<real>): (m: real)
    requires |s| > 0
    ensures m in s && forall x :: x in s ==> x <= m
  {
    if |s| == 1 then s[0]
    else
      var r := Max(s[1..]);
      assert forall x :: x in s ==> x == s[0] || x in s[1..];
      if s[0] >= r then s[0] else r
  }

  function Min(s: seq<real>): (m: real)
    requires |s| > 0
    ensures m in s && forall x :: x in s ==> m <= x
  {
    if |s| == 1 then s[0]
    else
      var r := Min(s[1..]);
      assert forall x :: x in s ==> x == s[0] || x in s[1..];
      if s[0] <= r then s[0] else r
  }

  function Errors(rs: seq<Record>): (es: seq<real>)
    ensures |es| == |rs| && forall i :: 0 <= i < |rs| ==> es[i] == rs[i].error
  {
    seq(|rs|, i requires 0 <= i < |rs| => rs[i].error)
  }

  /** `threshold_calculated`: the midpoint of the largest normal and the smallest anomalous error. */
  function SuggestedThreshold(normal: seq<real>, anomalous: seq<real>): Option<real>
  {
    if |normal| > 0 && |anomalous| > 0 then Some((Max(normal) + Min(anomalous)) / 2.0) else None
  }

  /** There is a threshold exactly when both lists are non-empty. */
  lemma ThresholdExists(normal: seq<real>, anomalous: seq<real>)
    ensures SuggestedThreshold(normal, anomalous).Some? <==> normal != [] && anomalous != []
  {
  }

  /**
   * When the two lists do not overlap the threshold lies strictly between
   * them: every normal error is below it and every anomalous error above.
   */
  lemma ThresholdSeparates(normal: seq<real>, anomalous: seq<real>)
    requires normal != [] && anomalous != [] && Max(normal) < Min(anomalous)
    ensures var t := SuggestedThreshold(normal, anomalous).value;
      && Max(normal) < t < Min(anomalous)
      && (forall x :: x in normal ==> x < t)
      && (forall y :: y in anomalous ==> t < y)
  {
  }

  /** The threshold never leaves the range spanned by the two extremes. */
  lemma ThresholdBetweenExtremes(normal: seq<real>, anomalous: seq<real>)
    requires normal != [] && anomalous != []
    ensures var t := SuggestedThreshold(normal, anomalous).value;
      var lo := if Max(normal) <= Min(anomalous) then Max(normal) else Min(anomalous);
      var hi := if Max(normal) <= Min(anomalous) then Min(anomalous) else Max(normal);
      lo <= t <= hi
  {
  }

  /** The whole calibration: normalise labels, score and partition every event, then the threshold. */
  method Calibrate(g: ContextGraph.Graph, train: Frame<real>, t: TestSplit,
                   forward: ContextGraph.Graph -> seq<seq<real>>) returns (r: Result<(Logs, Option<real>), CalibrationError>)
    requires Rect(train) && WellFormed(t)
    ensures var spec := Partition(g, train, Normalized(t), t.features.height, forward);
      match spec
      case Err(e) => r == Err(e)
      case Ok(logs) => r == Ok((logs, SuggestedThreshold(Errors(logs.normal), Errors(logs.anomalous))))
  {
    var u := Normalized(t);
    var logs := ScoreSplit(g, train, u, forward);
    if logs.Err? {
      return Err(logs.error);
    }
    var normalErrors := Errors(logs.value.normal);
    var anomalousErrors := Errors(logs.value.anomalous);
    var threshold := None;
    if |normalErrors| > 0 && |anomalousErrors| > 0 {
      var normalMax := Max(normalErrors);
      var anomalousMin := Min(anomalousErrors);
      threshold := Some((normalMax + anomalousMin) / 2.0);
    }
    r := Ok((logs.value, threshold));
  }
}
