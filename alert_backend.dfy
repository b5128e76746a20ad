/**
 * The alerting backend (`backend/api.py`): the anomaly report route, the
 * threat report route that keeps the ten newest threats, and the periodic
 * monitor that alerts each high or medium threat once.
 *
 * Files are values of `Stored`: a missing or malformed file reads as the
 * empty list, as both routes and the monitor treat it. The Slack webhook is
 * an outbox of alerts; message formatting is not modelled, only what each
 * alert carries. `notifierTakesBlocks` says whether the notifier accepts the
 * block list the threat alerts pass: the notifier in `slack_alerts.py`
 * takes the message alone, so those calls raise `TypeError`.
 */
module AlertBackend {
  import opened Wrappers
  import opened Text

  /** `AnomalyReport`. */
  datatype AnomalyReport = AnomalyReport(user: string, time: string, anomalyType: string)

  /** `ThreatReport`, also the shape of each entry of the threats file. */
  datatype Threat = Threat(threatType: string, predictedTime: Option<string>, description: string,
                           riskLevel: string, affectedSystems: seq<string>, suggestedFixes: seq<string>,
                           confidenceScore: real, confidenceReasoning: string, file: string)

  /** What a Slack alert carries. */
  datatype Alert =
    | AnomalyAlert(anomalyType: string, user: string, time: string)
    | HighAlert(threatType: string, systems: seq<string>, confidence: real, description: string,
                fixes: seq<string>, file: string)
    | MediumAlert(threatType: string, confidence: real, description: string, fixes: seq<string>, file: string)

  /** A JSON file as the backend finds it. */
  datatype Stored<T> = Missing | Malformed | Json(items: seq<T>)

  datatype BackendError = TypeError

  /** `json.load`, with `FileNotFoundError` and `JSONDecodeError` read as `[]`. */
  function Load<T>(f: Stored<T>): seq<T>
  {
    if f.Json? then f.items else []
  }

  /** Python's `s[:n]`. */
  function Take<T>(s: seq<T>, n: nat): (r: seq<T>)
    ensures |r| <= n && |r| <= |s| && r == s[..|r|]
    ensures |s| <= n ==> r == s
    ensures |s| > n ==> |r| == n
  {
    if |s| <= n then s else s[..n]
  }

  // --------------------------------------------------------------- anomalies

  /** The anomaly types that raise an alert. */
  const AlertTypes: seq<string> := [
    "high_frequency_action", "impossible_location", "role_action_mismatch",
    "hard_negative", "feature_swap", "unusual_time", "subtle_time",
    "subtle_location", "random_label_noise"
  ]

  /** The alert `report_anomaly` sends, if any. */
  function AnomalyAlertFor(a: AnomalyReport): (r: Option<Alert>)
    ensures r.Some? <==> a.anomalyType in AlertTypes
    ensures r.Some? ==> r.value == AnomalyAlert(a.anomalyType, a.user, a.time)
  {
    if a.anomalyType in AlertTypes then Some(AnomalyAlert(a.anomalyType, a.user, a.time)) else None
  }

  /** Exactly nine distinct anomaly types alert; any other type, including a differently cased one, does not. */
  lemma AlertTypesExact()
    ensures |AlertTypes| == 9
    ensures forall i, j :: 0 <= i < j < |AlertTypes| ==> AlertTypes[i] != AlertTypes[j]
    ensures AnomalyAlertFor(AnomalyReport("u", "t", "Unusual_Time")).None?
    ensures AnomalyAlertFor(AnomalyReport("u", "t", "unusual_time")).Some?
  {
    assert "Unusual_Time"[0] != "unusual_time"[0];
    assert "Unusual_Time" !in AlertTypes;
  }

  // ----------------------------------------------------------------- threats

  /** How many threats the threats file keeps. */
  const Keep: nat := 10

  /** `existing_data.insert(0, new)` then `existing_data[:10]`. */
  function Kept(existing: seq<Threat>, t: Threat): seq<Threat>
  {
    Take([t] + existing, Keep)
  }

  /**
   * The newest threat is first, followed by the newest of the earlier ones
   * in their order, and the list never holds more than ten.
   */
  lemma KeptMeaning(existing: seq<Threat>, t: Threat)
    ensures var s := Kept(existing, t);
      && |s| == (if |existing| < Keep then |existing| + 1 else Keep)
      && s[0] == t
      && s[1..] == existing[..|s| - 1]
  {
    assert ([t] + existing)[1..] == existing;
  }

  /** The list after several reports, oldest report first. */
  function KeptAll(existing: seq<Threat>, reports: seq<Threat>): seq<Threat>
  {
    if reports == [] then existing else Kept(KeptAll(existing, reports[..|reports| - 1]), reports[|reports| - 1])
  }

  /** The elements of `s`, last first. */
  function Reversed<T>(s: seq<T>): seq<T>
  {
    if s == [] then [] else [s[|s| - 1]] + Reversed(s[..|s| - 1])
  }

  /**
   * After a series of reports the file holds the ten newest threats, newest
   * first: the reports in reverse order, then what the file held before.
   */
  lemma {:induction false} KeptAllNewest(existing: seq<Threat>, reports: seq<Threat>)
    requires reports != []
    ensures KeptAll(existing, reports) == Take(Reversed(reports) + existing, Keep)
    decreases |reports|
  {
    var last := reports[|reports| - 1];
    var init := reports[..|reports| - 1];
    var rest := if init == [] then existing else Take(Reversed(init) + existing, Keep);
    if init != [] {
      KeptAllNewest(existing, init);
      TakeCons(last, Reversed(init) + existing, Keep);
    }
    assert KeptAll(existing, reports) == Take([last] + rest, Keep);
    assert Reversed(reports) == [last] + Reversed(init);
    assert [last] + (Reversed(init) + existing) == Reversed(reports) + existing;
  }

  /** Truncating before or after putting an element in front gives the same list. */
  lemma TakeCons<T>(x: T, s: seq<T>, n: nat)
    requires n >= 1
    ensures Take([x] + Take(s, n), n) == Take([x] + s, n)
  {
    if |s| > n {
      assert ([x] + s)[..n] == [x] + s[..n - 1];
      assert ([x] + s[..n])[..n] == [x] + s[..n - 1];
    }
  }

  /** The level the routes compare, case-insensitively. */
  function Level(t: Threat): string
  {
    Lower(t.riskLevel)
  }

  /**
   * The alert a threat raises: a high threat carries the whole description
   * and the first three fixes; a medium one the first two fixes and, in the
   * report route only, the first 250 characters of its description followed
   * by "..."; any other level raises none.
   */
  function ThreatAlert(t: Threat, inMonitor: bool): Option<Alert>
  {
    if Level(t) == "high" then
      Some(HighAlert(t.threatType, t.affectedSystems, t.confidenceScore, t.description, Take(t.suggestedFixes, 3), t.file))
    else if Level(t) == "medium" then
      var description := if inMonitor then t.description else Take(t.description, 250) + "...";
      Some(MediumAlert(t.threatType, t.confidenceScore, description, Take(t.suggestedFixes, 2), t.file))
    else None
  }

  /**
   * Only high and medium threats alert, whatever the case of their level;
   * the alert names the threat's file and carries exactly the first three
   * (high) or two (medium) fixes, or all of them when there are fewer; a
   * medium report carries the first 250 characters of the description (all
   * of it when shorter) followed by "...".
   */
  lemma ThreatAlertMeaning(t: Threat, inMonitor: bool)
    ensures var a := ThreatAlert(t, inMonitor);
      && (a.Some? <==> Level(t) == "high" || Level(t) == "medium")
      && (a.Some? ==> a.value.file == t.file && !a.value.AnomalyAlert?)
      && (a.Some? && a.value.HighAlert? ==>
            && |a.value.fixes| == (if |t.suggestedFixes| < 3 then |t.suggestedFixes| else 3)
            && a.value.fixes == t.suggestedFixes[..|a.value.fixes|] && a.value.description == t.description)
      && (a.Some? && a.value.MediumAlert? ==>
            && |a.value.fixes| == (if |t.suggestedFixes| < 2 then |t.suggestedFixes| else 2)
            && a.value.fixes == t.suggestedFixes[..|a.value.fixes|])
      && (a.Some? && a.value.MediumAlert? && !inMonitor ==>
            && |a.value.description| == (if |t.description| < 250 then |t.description| else 250) + 3
            && a.value.description[..|a.value.description| - 3] == t.description[..|a.value.description| - 3]
            && a.value.description[|a.value.description| - 3..] == "...")
      && (a.Some? && a.value.MediumAlert? && inMonitor ==> a.value.description == t.description)
  {
  }

  /** The level is compared after lower-casing: "HIGH", "High" and "high" raise the same alert. */
  lemma LevelCaseInsensitive(t: Threat, level: string, inMonitor: bool)
    requires Lower(level) == Lower(t.riskLevel)
    ensures ThreatAlert(t.(riskLevel := level), inMonitor) == ThreatAlert(t, inMonitor)
  {
  }

  // ------------------------------------------------------------------ monitor

  /** The alerts the monitor raises for the first `n` threats: unseen ones of high or medium level, in file order. */
  function Due(threats: seq<Threat>, seen: seq<string>, n: nat): seq<Alert>
    requires n <= |threats|
  {
    if n == 0 then []
    else
      var t := threats[n - 1];
      var a := ThreatAlert(t, true);
      Due(threats, seen, n - 1) + (if t.file !in seen && a.Some? then [a.value] else [])
  }

  function AllDue(threats: seq<Threat>, seen: seq<string>): seq<Alert>
  {
    Due(threats, seen, |threats|)
  }

  /** The report file a threat alert names (anomaly alerts name none). */
  function FileOf(a: Alert): string
  {
    if a.AnomalyAlert? then "" else a.file
  }

  /** The files of a list of threat alerts: the monitor's `new_alerts`. */
  function Files(alerts: seq<Alert>): (ids: seq<string>)
  {
    if alerts == [] then [] else Files(alerts[..|alerts| - 1]) + [FileOf(alerts[|alerts| - 1])]
  }

  /** `Files` lists one file per alert, in order. */
  lemma {:induction false} FilesAt(alerts: seq<Alert>)
    ensures |Files(alerts)| == |alerts| && forall i :: 0 <= i < |alerts| ==> Files(alerts)[i] == FileOf(alerts[i])
  {
    if alerts != [] {
      FilesAt(alerts[..|alerts| - 1]);
    }
  }

  /**
   * An alert is due exactly for a threat of the cycle whose file is unseen
   * and whose level is high or medium; every due alert carries an unseen file.
   */
  lemma {:induction false} DueExact(threats: seq<Threat>, seen: seq<string>, n: nat)
    requires n <= |threats|
    ensures forall a :: a in Due(threats, seen, n) ==>
      !a.AnomalyAlert? && a.file !in seen && exists i :: 0 <= i < n && ThreatAlert(threats[i], true) == Some(a)
    ensures forall i :: 0 <= i < n && threats[i].file !in seen && ThreatAlert(threats[i], true).Some? ==>
      ThreatAlert(threats[i], true).value in Due(threats, seen, n)
  {
    if n > 0 {
      DueExact(threats, seen, n - 1);
      forall i | 0 <= i < n - 1 && threats[i].file !in seen && ThreatAlert(threats[i], true).Some?
        ensures ThreatAlert(threats[i], true).value in Due(threats, seen, n)
      {
        assert ThreatAlert(threats[i], true).value in Due(threats, seen, n - 1);
      }
      ThreatAlertMeaning(threats[n - 1], true);
    }
  }

  /**
   * `seen` is not updated during a cycle: the due alerts of two lists are
   * those of each, so a file listed twice alerts twice.
   */
  lemma {:induction false} DueAppend(a: seq<Threat>, b: seq<Threat>, seen: seq<string>, n: nat)
    requires n <= |b|
    ensures Due(a + b, seen, |a| + n) == AllDue(a, seen) + Due(b, seen, n)
  {
    if n == 0 {
      assert Due(a + b, seen, |a|) == AllDue(a, seen) by {
        DuePrefix(a, b, seen, |a|);
      }
    } else {
      DueAppend(a, b, seen, n - 1);
      assert (a + b)[|a| + n - 1] == b[n - 1];
    }
  }

  /**
   * A cycle with an unseen high or medium threat has an alert due. With the
   * one-argument notifier that alert raises, `seen` stays as it was, and the
   * next cycle finds the same threat due again: it is never recorded.
   */
  lemma SomethingDue(threats: seq<Threat>, seen: seq<string>, i: nat)
    requires i < |threats| && threats[i].file !in seen
    requires Level(threats[i]) == "high" || Level(threats[i]) == "medium"
    ensures AllDue(threats, seen) != []
  {
    ThreatAlertMeaning(threats[i], true);
    DueExact(threats, seen, |threats|);
  }

  /** Due alerts of a prefix depend only on that prefix. */
  lemma {:induction false} DuePrefix(a: seq<Threat>, b: seq<Threat>, seen: seq<string>, n: nat)
    requires n <= |a|
    ensures Due(a + b, seen, n) == Due(a, seen, n)
  {
    if n > 0 {
      DuePrefix(a, b, seen, n - 1);
      assert (a + b)[n - 1] == a[n - 1];
    }
  }

  /** A high or medium threat listed twice in one cycle and not yet seen alerts twice. */
  lemma DuplicateAlertsTwice(t: Threat, seen: seq<string>)
    requires t.file !in seen && ThreatAlert(t, true).Some?
    ensures AllDue([t, t], seen) == [ThreatAlert(t, true).value, ThreatAlert(t, true).value]
  {
    var a := ThreatAlert(t, true).value;
    assert Due([t, t], seen, 1) == [a];
  }

  /**
   * Once a cycle has recorded its alerts as seen, the same threats raise no
   * alert in the next cycle.
   */
  lemma AlertsOnce(threats: seq<Threat>, seen: seq<string>)
    ensures AllDue(threats, seen + Files(AllDue(threats, seen))) == []
  {
    var seen2 := seen + Files(AllDue(threats, seen));
    NoneDue(threats, seen, seen2, |threats|);
  }

  lemma {:induction false} NoneDue(threats: seq<Threat>, seen: seq<string>, seen2: seq<string>, n: nat)
    requires n <= |threats|
    requires seen2 == seen + Files(AllDue(threats, seen))
    ensures Due(threats, seen2, n) == []
  {
    if n > 0 {
      NoneDue(threats, seen, seen2, n - 1);
      var t := threats[n - 1];
      var a := ThreatAlert(t, true);
      if t.file !in seen && a.Some? {
        DueExact(threats, seen, |threats|);
        var due := AllDue(threats, seen);
        assert a.value in due;
        ThreatAlertMeaning(t, true);
        var k :| 0 <= k < |due| && due[k] == a.value;
        FilesAt(due);
        assert Files(due)[k] == t.file;
        assert t.file in seen2;
      }
    }
  }

  // ------------------------------------------------------------------ backend

  class Backend {
    /** `simulation_and_detection/logs/sample_logs.json`, overwritten by each anomaly report. */
    var logsFile: Option<AnomalyReport>
    /** `predictive_ai/predicted_threats.json`. */
    var threatsFile: Stored<Threat>
    /** `backend/seen_threats.json`. */
    var seenFile: Stored<string>
    /** The alerts handed to Slack, oldest first. */
    var outbox: seq<Alert>
    /** Whether the notifier accepts a block list besides the message. */
    const notifierTakesBlocks: bool

    constructor (threats: Stored<Threat>, seen: Stored<string>, takesBlocks: bool)
      ensures logsFile == None && threatsFile == threats && seenFile == seen && outbox == []
      ensures notifierTakesBlocks == takesBlocks
    {
      logsFile := None;
      threatsFile := threats;
      seenFile := seen;
      outbox := [];
      notifierTakesBlocks := takesBlocks;
    }

    /** `POST /report/anomaly`: store the report, alert if its type is listed. */
    method ReportAnomaly(a: AnomalyReport)
      modifies this
      ensures logsFile == Some(a)
      ensures outbox == old(outbox) + (if a.anomalyType in AlertTypes then [AnomalyAlert(a.anomalyType, a.user, a.time)] else [])
      ensures threatsFile == old(threatsFile) && seenFile == old(seenFile)
    {
      logsFile := Some(a);
      var alert := AnomalyAlertFor(a);
      if alert.Some? {
        outbox := outbox + [alert.value];
      }
    }

    /**
     * `POST /report/threat`: store the threat first in the file, keep ten,
     * then alert on a high or medium level; the alert call raises when the
     * notifier does not take blocks, after the file was written.
     */
    method ReportThreat(t: Threat) returns (r: Result<(), BackendError>)
      modifies this
      ensures threatsFile == Json(Kept(Load(old(threatsFile)), t))
      ensures var a := ThreatAlert(t, false);
        && (r.Err? <==> a.Some? && !notifierTakesBlocks)
        && outbox == old(outbox) + (if r.Ok? && a.Some? then [a.value] else [])
      ensures logsFile == old(logsFile) && seenFile == old(seenFile)
    {
      var existing := Load(threatsFile);
      existing := [t] + existing;
      threatsFile := Json(Take(existing, Keep));
      var alert := ThreatAlert(t, false);
      r := Ok(());
      if alert.Some? {
        if !notifierTakesBlocks {
          return Err(TypeError);
        }
        outbox := outbox + [alert.value];
      }
    }

    /**
     * One run of `monitor_predicted_threats`: alert every unseen high or
     * medium threat, then append their files to the seen list, writing it
     * only when there is something to add. When the notifier does not take
     * blocks, the first such alert raises and nothing is sent or recorded.
     */
    method MonitorCycle() returns (r: Result<seq<string>, BackendError>)
      modifies this
      ensures var due := AllDue(Load(old(threatsFile)), Load(old(seenFile)));
        && (!notifierTakesBlocks && due != [] ==>
              r == Err(TypeError) && outbox == old(outbox) && seenFile == old(seenFile))
        && (notifierTakesBlocks || due == [] ==>
              && r == Ok(Files(due))
              && outbox == old(outbox) + due
              && seenFile == if due == [] then old(seenFile) else Json(Load(old(seenFile)) + Files(due)))
      ensures logsFile == old(logsFile) && threatsFile == old(threatsFile)
    {
      var current := Load(threatsFile);
      var seen := Load(seenFile);
      var cycle := Scan(current, seen, notifierTakesBlocks);
      if cycle.Err? {
        return Err(TypeError);
      }
      var (sent, newAlerts) := cycle.value;
      outbox := outbox + sent;
      if newAlerts != [] {
        seenFile := Json(seen + newAlerts);
      }
      r := Ok(newAlerts);
    }
  }

  /**
   * The loop of `monitor_predicted_threats`: the alerts it sends and the
   * files it collects in `new_alerts`, or the `TypeError` the first alert
   * raises when the notifier does not take blocks.
   */
  method Scan(current: seq<Threat>, seen: seq<string>, takesBlocks: bool)
    returns (r: Result<(seq<Alert>, seq<string>), BackendError>)
    ensures var due := AllDue(current, seen);
      && (r.Err? <==> !takesBlocks && due != [])
      && (r.Ok? ==> r.value == (due, Files(due)))
  {
    var sent: seq<Alert> := [];
    var newAlerts: seq<string> := [];
    for i := 0 to |current|
      invariant newAlerts == Files(Due(current, seen, i))
      invariant sent == Due(current, seen, i)
      invariant takesBlocks || sent == []
    {
      DueNext(current, seen, i);
      var threat := current[i];
      if threat.file in seen {
        continue;
      }
      var alert := ThreatAlert(threat, true);
      if alert.Some? {
        if !takesBlocks {
          DueGrows(current, seen, i + 1, |current|);
          return Err(TypeError);
        }
        sent := sent + [alert.value];
        newAlerts := newAlerts + [threat.file];
      }
    }
    r := Ok((sent, newAlerts));
  }

  /** One more threat of the cycle: its alert is due, and its file added, exactly when it is unseen and high or medium. */
  lemma DueNext(threats: seq<Threat>, seen: seq<string>, i: nat)
    requires i < |threats|
    ensures var t := threats[i];
      var a := ThreatAlert(t, true);
      var isNew := t.file !in seen && a.Some?;
      && Due(threats, seen, i + 1) == Due(threats, seen, i) + (if isNew then [a.value] else [])
      && Files(Due(threats, seen, i + 1)) == Files(Due(threats, seen, i)) + (if isNew then [t.file] else [])
  {
    var t := threats[i];
    var a := ThreatAlert(t, true);
    var due := Due(threats, seen, i);
    if t.file !in seen && a.Some? {
      ThreatAlertMeaning(t, true);
      var next := due + [a.value];
      assert next[..|due|] == due;
      assert Due(threats, seen, i + 1) == next;
      assert FileOf(a.value) == t.file;
      assert Files(next) == Files(due) + [FileOf(a.value)];
    } else {
      assert due + [] == due;
      assert Files(due) + [] == Files(due);
    }
  }

  /** A due alert stays due as the cycle goes on. */
  lemma {:induction false} DueGrows(threats: seq<Threat>, seen: seq<string>, n: nat, m: nat)
    requires n <= m <= |threats|
    ensures |Due(threats, seen, n)| <= |Due(threats, seen, m)|
    decreases m
  {
    if m > n {
      DueGrows(threats, seen, n, m - 1);
    }
  }
}
