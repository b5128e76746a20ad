/**
 * The hand-written parts of the older detector (`anomaly_detection.py`):
 * turning raw log records into 8-wide feature rows, the class weight, the
 * threshold sweep over 17 thresholds, and the early-stopping bookkeeping of
 * the training loop. The network, the optimiser and the F1 computation are
 * parameters: `f1` gives the validation F1 at a threshold, `sweepAt` gives
 * the sweep result of an epoch.
 */
module AnomalyDetection {
  import opened Wrappers
  import opened Text
  import opened Order
  import Preprocess

  /** One record of `sample_logs.json`. */
  datatype Log = Log(user: string, action: string, location: string, role: string,
                     time: string, riskScore: real, isAnomaly: bool)

  datatype FeatureError =
    | NoTimeSeparator   // `time.split('T')[1]` raises `IndexError`
    | BadHour           // `int(...)` raises `ValueError`

  // ------------------------------------------------------------------ hour

  /** `int(time.split('T')[1].split(':')[0])`. */
  function ParseHour(time: string): Result<int, FeatureError>
  {
    var parts := Split(time, 'T');
    if |parts| < 2 then Err(NoTimeSeparator)
    else match ParseInt(Split(parts[1], ':')[0])
      case None => Err(BadHour)
      case Some(h) => Ok(h)
  }

  /** Splitting at the first separator: the text before it, then the pieces of the rest. */
  lemma SplitAtFirst(a: string, b: string, sep: char)
    requires sep !in a
    ensures Split(a + [sep] + b, sep) == [a] + Split(b, sep)
  {
    var s := a + [sep] + b;
    assert s[|a|] == sep;
    var i := FirstIndex(s, sep);
    assert s[..|a|] == a;
    assert i == |a|;
    assert s[i + 1..] == b;
  }

  /** Decimal digits contain neither separator. */
  lemma DigitsHaveNoSeparator(d: string)
    requires AllDigits(d)
    ensures 'T' !in d && ':' !in d
  {
  }

  /**
   * An ISO-style timestamp `<date>T<hour>:<rest>` (no `T` in the date or the
   * rest) parses to its hour: the number written between the `T` and the
   * first `:`.
   */
  lemma ParseHourIso(date: string, hour: nat, rest: string)
    requires 'T' !in date && 'T' !in rest
    ensures ParseHour(date + "T" + DecimalText(hour) + ":" + rest) == Ok(hour)
  {
    var digits := DecimalText(hour);
    DigitsHaveNoSeparator(digits);
    var tail := digits + ":" + rest;
    assert 'T' !in tail;
    assert date + "T" + digits + ":" + rest == date + ['T'] + tail;
    SplitAtFirst(date, tail, 'T');
    assert Split(tail, 'T') == [tail];
    assert tail == digits + [':'] + rest;
    SplitAtFirst(digits, rest, ':');
    ParseDecimalText(hour);
  }

  /** A timestamp without `T` has no second piece, which raises. */
  lemma ParseHourNeedsSeparator(time: string)
    requires 'T' !in time
    ensures ParseHour(time) == Err(NoTimeSeparator)
  {
  }

  // ---------------------------------------------------------------- flags

  /** `int("admin" in role and "deleted" in action)`. */
  function AdminDeletedFlag(l: Log): (flag: real)
    ensures flag == 1.0 <==> Contains(l.role, "admin") && Contains(l.action, "deleted")
    ensures flag == 0.0 || flag == 1.0
  {
    if Contains(l.role, "admin") && Contains(l.action, "deleted") then 1.0 else 0.0
  }

  /** `int(location in ['RU', 'UA'])`. */
  function ForeignFlag(l: Log): (flag: real)
    ensures flag == 1.0 <==> l.location == "RU" || l.location == "UA"
    ensures flag == 0.0 || flag == 1.0
  {
    if l.location in ["RU", "UA"] then 1.0 else 0.0
  }

  /** The role test is a substring test: any role naming "admin" anywhere qualifies. */
  lemma AdminAnywhere(prefix: string, suffix: string)
    ensures Contains(prefix + "admin" + suffix, "admin")
  {
    var s := prefix + "admin" + suffix;
    assert s[|prefix|..|prefix| + 5] == "admin";
    assert OccursAt(s, "admin", |prefix|);
  }

  // -------------------------------------------------------------- features

  /** The four fitted encoders. */
  datatype Encoders = Encoders(user: seq<string>, action: seq<string>, location: seq<string>, role: seq<string>)

  function Users(logs: seq<Log>): seq<string>
  {
    seq(|logs|, i requires 0 <= i < |logs| => logs[i].user)
  }

  function Actions(logs: seq<Log>): seq<string>
  {
    seq(|logs|, i requires 0 <= i < |logs| => logs[i].action)
  }

  function Locations(logs: seq<Log>): seq<string>
  {
    seq(|logs|, i requires 0 <= i < |logs| => logs[i].location)
  }

  function Roles(logs: seq<Log>): seq<string>
  {
    seq(|logs|, i requires 0 <= i < |logs| => logs[i].role)
  }

  /** The encoders fitted on all the logs. */
  function FitEncoders(logs: seq<Log>): Encoders
  {
    Encoders(Preprocess.Fit(Users(logs)), Preprocess.Fit(Actions(logs)),
             Preprocess.Fit(Locations(logs)), Preprocess.Fit(Roles(logs)))
  }

  /** The row `feature_engineering` appends for a log whose hour is `hour`. */
  function Encode(enc: Encoders, l: Log, hour: int): (row: seq<real>)
  {
    [Preprocess.Code(enc.user, l.user) as real, Preprocess.Code(enc.action, l.action) as real,
     Preprocess.Code(enc.location, l.location) as real, Preprocess.Code(enc.role, l.role) as real,
     hour as real, l.riskScore, AdminDeletedFlag(l), ForeignFlag(l)]
  }

  /** The feature row of one log, or the exception its timestamp raises. */
  function FeatureRow(enc: Encoders, l: Log): Result<seq<real>, FeatureError>
  {
    match ParseHour(l.time)
    case Err(e) => Err(e)
    case Ok(hour) => Ok(Encode(enc, l, hour))
  }

  /** Specification of a loop that appends `rowOf(l)` for each of the first `n` logs and stops at the first error. */
  function Rows(rowOf: Log -> Result<seq<real>, FeatureError>, logs: seq<Log>, n: nat): Result<seq<seq<real>>, FeatureError>
    requires n <= |logs|
  {
    if n == 0 then Ok([])
    else match Rows(rowOf, logs, n - 1)
      case Err(e) => Err(e)
      case Ok(rows) =>
        match rowOf(logs[n - 1])
        case Err(e) => Err(e)
        case Ok(row) => Ok(rows + [row])
  }

  /** The rows of `feature_engineering` under the encoders `enc`. */
  function Features(enc: Encoders, logs: seq<Log>): Result<seq<seq<real>>, FeatureError>
  {
    Rows(l => FeatureRow(enc, l), logs, |logs|)
  }

  /** `feature_engineering(logs)`: fit the four encoders, then one row per log. */
  method FeatureEngineering(logs: seq<Log>) returns (r: Result<seq<seq<real>>, FeatureError>, enc: Encoders)
    ensures enc == FitEncoders(logs)
    ensures r == Features(enc, logs)
  {
    enc := FitEncoders(logs);
    ghost var rowOf := l => FeatureRow(enc, l);
    var features: seq<seq<real>> := [];
    for i := 0 to |logs|
      invariant Rows(rowOf, logs, i) == Ok(features)
    {
      var row := FeatureRow(enc, logs[i]);
      assert rowOf(logs[i]) == row;
      if row.Err? {
        RowsErrPersists(rowOf, logs, i + 1, |logs|, row.error);
        return Err(row.error), enc;
      }
      features := features + [row.value];
    }
    r := Ok(features);
  }

  lemma {:induction false} RowsErrPersists(rowOf: Log -> Result<seq<real>, FeatureError>, logs: seq<Log>, n: nat, m: nat,
                                          e: FeatureError)
    requires n <= m <= |logs|
    requires Rows(rowOf, logs, n) == Err(e)
    ensures Rows(rowOf, logs, m) == Err(e)
    decreases m
  {
    if m > n {
      RowsErrPersists(rowOf, logs, n, m - 1, e);
    }
  }

  /** The loop succeeds exactly when every log's row does, and then holds those rows in log order. */
  lemma {:induction false} RowsExact(rowOf: Log -> Result<seq<real>, FeatureError>, logs: seq<Log>, n: nat)
    requires n <= |logs|
    ensures Rows(rowOf, logs, n).Ok? <==> forall i :: 0 <= i < n ==> rowOf(logs[i]).Ok?
    ensures Rows(rowOf, logs, n).Ok? ==>
      |Rows(rowOf, logs, n).value| == n && forall i :: 0 <= i < n ==> rowOf(logs[i]) == Ok(Rows(rowOf, logs, n).value[i])
  {
    if n > 0 {
      RowsExact(rowOf, logs, n - 1);
    }
  }

  /** What a feature row says about its log under the given encoders. */
  predicate RowDescribes(enc: Encoders, l: Log, hour: int, row: seq<real>)
  {
    && |row| == 8
    && 0.0 <= row[0] < |enc.user| as real && enc.user[row[0].Floor] == l.user
    && 0.0 <= row[1] < |enc.action| as real && enc.action[row[1].Floor] == l.action
    && 0.0 <= row[2] < |enc.location| as real && enc.location[row[2].Floor] == l.location
    && 0.0 <= row[3] < |enc.role| as real && enc.role[row[3].Floor] == l.role
    && row[4] == hour as real
    && row[5] == l.riskScore
    && row[6] == AdminDeletedFlag(l)
    && row[7] == ForeignFlag(l)
  }

  /** A log whose four fields were fitted gets codes that decode back to those fields. */
  lemma EncodeShape(enc: Encoders, l: Log, hour: int)
    requires l.user in enc.user && l.action in enc.action && l.location in enc.location && l.role in enc.role
    ensures RowDescribes(enc, l, hour, Encode(enc, l, hour))
  {
  }

  /** Every log's four fields are among the classes fitted on all the logs. */
  lemma FittedFields(logs: seq<Log>, i: nat)
    requires i < |logs|
    ensures var enc := FitEncoders(logs);
      logs[i].user in enc.user && logs[i].action in enc.action
      && logs[i].location in enc.location && logs[i].role in enc.role
  {
    assert Users(logs)[i] == logs[i].user && Actions(logs)[i] == logs[i].action;
    assert Locations(logs)[i] == logs[i].location && Roles(logs)[i] == logs[i].role;
  }

  /**
   * `feature_engineering` fails exactly when some timestamp does not parse;
   * otherwise it yields one row of width 8 per log, in log order: the four
   * codes are positions among the sorted distinct values of that field, so
   * they lie in `[0, #distinct)` and decode back to the field; then the
   * parsed hour, the risk score and the two flags.
   */
  lemma FeaturesShape(logs: seq<Log>)
    ensures Features(FitEncoders(logs), logs).Ok? <==> forall i :: 0 <= i < |logs| ==> ParseHour(logs[i].time).Ok?
    ensures Features(FitEncoders(logs), logs).Ok? ==>
      var rows := Features(FitEncoders(logs), logs).value;
      && |rows| == |logs|
      && forall i :: 0 <= i < |logs| ==> RowDescribes(FitEncoders(logs), logs[i], ParseHour(logs[i].time).value, rows[i])
  {
    var enc := FitEncoders(logs);
    var rowOf := l => FeatureRow(enc, l);
    RowsExact(rowOf, logs, |logs|);
    assert forall i :: 0 <= i < |logs| ==> (rowOf(logs[i]).Ok? <==> ParseHour(logs[i].time).Ok?);
    if Features(enc, logs).Ok? {
      var rows := Features(enc, logs).value;
      forall i | 0 <= i < |logs|
        ensures RowDescribes(enc, logs[i], ParseHour(logs[i].time).value, rows[i])
      {
        FittedFields(logs, i);
        EncodeShape(enc, logs[i], ParseHour(logs[i].time).value);
        assert rowOf(logs[i]) == Ok(rows[i]);
      }
    }
  }

  // ---------------------------------------------------------- class weight

  function Positives(labels: seq<bool>): (p: nat)
    ensures p <= |labels|
  {
    if labels == [] then 0 else Positives(labels[..|labels| - 1]) + (if labels[|labels| - 1] then 1 else 0)
  }

  /** `len(labels) / sum(labels) if sum(labels) > 0 else 1.0`. */
  function AnomalyWeight(labels: seq<bool>): real
  {
    var p := Positives(labels);
    if p > 0 then |labels| as real / p as real else 1.0
  }

  /**
   * The weight is the inverse share of anomalies: it scales the positives up
   * to the whole set, so it is at least 1, and exactly 1 when there are none
   * or when every label is positive.
   */
  lemma AnomalyWeightMeaning(labels: seq<bool>)
    ensures AnomalyWeight(labels) >= 1.0
    ensures Positives(labels) > 0 ==> Scaled(AnomalyWeight(labels), Positives(labels)) == |labels| as real
    ensures Positives(labels) == 0 || Positives(labels) == |labels| ==> AnomalyWeight(labels) == 1.0
  {
    var p := Positives(labels);
    var n := |labels|;
    if p > 0 {
      Ratio(n, p);
      assert AnomalyWeight(labels) == n as real / p as real;
    } else {
      assert AnomalyWeight(labels) == 1.0;
    }
  }

  /** `w * p`. */
  function Scaled(w: real, p: nat): real
  {
    w * p as real
  }

  /** Dividing by a positive count undoes multiplying by it, and a quotient of a larger count is at least 1. */
  lemma Ratio(a: nat, b: nat)
    requires 0 < b <= a
    ensures Scaled(a as real / b as real, b) == a as real
    ensures a as real / b as real >= 1.0
    ensures a == b ==> a as real / b as real == 1.0
  {
  }

  // --------------------------------------------------------- threshold sweep

  /** `np.linspace(0.1, 0.9, 17)[k]`. */
  function SweepThreshold(k: nat): real
  {
    0.1 + 0.05 * k as real
  }

  const SweepSize: nat := 17

  /** The sweep's thresholds run from 0.1 to 0.9 in steps of 0.05. */
  lemma SweepThresholdRange(k: nat)
    requires k < SweepSize
    ensures 0.1 <= SweepThreshold(k) <= 0.9
    ensures SweepThreshold(SweepSize - 1) == 0.9
  {
  }

  /** Threshold `k` scores `best`, and every earlier threshold scores strictly less. */
  predicate FirstBest(f1: real -> real, k: nat, best: real)
  {
    f1(SweepThreshold(k)) == best && forall j :: 0 <= j < k ==> f1(SweepThreshold(j)) < best
  }

  /**
   * The inner sweep of one epoch: the first threshold with the strictly
   * greatest F1, or 0.5 with F1 0 when no threshold scores above 0.
   */
  method Sweep(f1: real -> real) returns (bestF1: real, bestThresh: real)
    ensures bestF1 >= 0.0
    ensures forall k :: 0 <= k < SweepSize ==> f1(SweepThreshold(k)) <= bestF1
    ensures bestF1 == 0.0 ==> bestThresh == 0.5
    ensures bestF1 > 0.0 ==>
      exists k :: 0 <= k < SweepSize && bestThresh == SweepThreshold(k) && FirstBest(f1, k, bestF1)
  {
    bestF1 := 0.0;
    bestThresh := 0.5;
    ghost var at := -1;
    for k := 0 to SweepSize
      invariant bestF1 >= 0.0
      invariant forall j :: 0 <= j < k ==> f1(SweepThreshold(j)) <= bestF1
      invariant at == -1 <==> bestF1 == 0.0
      invariant at == -1 ==> bestThresh == 0.5
      invariant at != -1 ==> 0 <= at < k && bestThresh == SweepThreshold(at) && FirstBest(f1, at, bestF1)
    {
      var thresh := SweepThreshold(k);
      var f := f1(thresh);
      if f > bestF1 {
        bestF1 := f;
        bestThresh := thresh;
        at := k;
      }
    }
  }

  // ---------------------------------------------------------- early stopping

  /** What the training loop carries from epoch to epoch. */
  datatype Progress = Progress(bestF1: real, bestThresh: real, counter: nat, epochs: nat, stopped: bool)

  const MaxEpochs: nat := 50
  const Patience: nat := 10

  /** One epoch's bookkeeping, given that epoch's sweep result. */
  function Step(p: Progress, f1: real, thresh: real): Progress
  {
    if f1 > p.bestF1 then Progress(f1, thresh, 0, p.epochs + 1, false)
    else Progress(p.bestF1, p.bestThresh, p.counter + 1, p.epochs + 1, p.counter + 1 > Patience)
  }

  /** The state after the first `n` epochs (the loop ignores epochs after a stop). */
  function Run(sweepAt: nat -> (real, real), n: nat): Progress
  {
    if n == 0 then Progress(0.0, 0.5, 0, 0, false)
    else
      var p := Run(sweepAt, n - 1);
      if p.stopped then p else Step(p, sweepAt(n - 1).0, sweepAt(n - 1).1)
  }

  /** The training loop's bookkeeping: at most 50 epochs, stopping once 11 epochs in a row bring no improvement. */
  method EarlyStopping(sweepAt: nat -> (real, real)) returns (p: Progress)
    ensures p == Run(sweepAt, MaxEpochs)
  {
    var bestF1 := 0.0;
    var bestThresh := 0.5;
    var counter := 0;
    var epoch := 0;
    while epoch < MaxEpochs
      invariant epoch <= MaxEpochs
      invariant Run(sweepAt, epoch) == Progress(bestF1, bestThresh, counter, epoch, false)
    {
      var (f, t) := sweepAt(epoch);
      if f > bestF1 {
        bestF1 := f;
        bestThresh := t;
        counter := 0;
      } else {
        counter := counter + 1;
        if counter > Patience {
          StoppedStays(sweepAt, epoch + 1, MaxEpochs);
          return Progress(bestF1, bestThresh, counter, epoch + 1, true);
        }
      }
      epoch := epoch + 1;
    }
    p := Progress(bestF1, bestThresh, counter, epoch, false);
  }

  lemma {:induction false} StoppedStays(sweepAt: nat -> (real, real), n: nat, m: nat)
    requires n <= m && Run(sweepAt, n).stopped
    ensures Run(sweepAt, m) == Run(sweepAt, n)
    decreases m
  {
    if m > n {
      StoppedStays(sweepAt, n, m - 1);
    }
  }

  /**
   * The loop runs at most `n` epochs; it stops early exactly when the
   * counter reaches 11, and otherwise the counter never exceeds 10. The
   * counter is the number of epochs since the last strict improvement:
   * the best F1 is at least every epoch's score; when positive, it is the
   * score and threshold of the epoch `counter + 1` back, and every earlier
   * epoch scored strictly less; when zero, no epoch improved and the
   * counter is the number of epochs.
   */
  lemma {:induction false} RunMeaning(sweepAt: nat -> (real, real), n: nat)
    ensures var p := Run(sweepAt, n);
      && p.epochs <= n
      && (p.stopped <==> p.counter == Patience + 1)
      && (!p.stopped ==> p.epochs == n && p.counter <= Patience)
      && p.counter <= p.epochs
      && p.bestF1 >= 0.0
      && (forall e :: 0 <= e < p.epochs ==> sweepAt(e).0 <= p.bestF1)
      && (p.bestF1 == 0.0 ==> p.bestThresh == 0.5 && p.counter == p.epochs)
      && (p.bestF1 > 0.0 ==> (p.counter < p.epochs
            && sweepAt(p.epochs - p.counter - 1) == (p.bestF1, p.bestThresh)
            && forall e :: 0 <= e < p.epochs - p.counter - 1 ==> sweepAt(e).0 < p.bestF1))
  {
    if n > 0 {
      RunMeaning(sweepAt, n - 1);
    }
  }
}
