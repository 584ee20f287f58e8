/** The incident-response chain: detector, triager, decisioner, remediator and recovery verifier,
    each node's output being the next one's input, and what the whole chain can ever report. */
module IncidentPipeline {
  import opened Sequences
  import opened Wrappers

  // ----- what flows between the nodes

  datatype Signal = Signal(
    metric: Option<string>,
    source: Option<string>,
    status: string,
    value: Option<real>,
    threshold: Option<real>)

  /** `alerts` holds the severities in the alert history. */
  datatype Observations = Observations(run: string, drift: bool, signals: seq<Signal>, alerts: seq<string>)

  datatype Anomaly = Anomaly(kind: string, source: string, count: nat)

  datatype Report = Report(incident: string, detected: bool, anomalies: seq<Anomaly>, hint: string)

  datatype Blast = Drift(source: string) | Alerts(count: nat) | Resource(kind: string) | Metric(kind: string)

  datatype Assessment = Assessment(
    incident: string,
    severity: string,
    urgency: string,
    score: nat,
    blastRadius: set<Blast>,
    requiresRemediation: bool)

  datatype Decision = Decision(incident: string, mode: string, authorized: bool, action: string)

  datatype Evidence = Evidence(gate: string, outcome: string)

  datatype Remediation = Remediation(
    incident: string,
    executed: bool,
    rollbackAttempted: bool,
    finalState: string,
    evidence: seq<Evidence>)

  datatype Verification = Verification(
    incident: string,
    recovered: bool,
    verified: bool,
    status: string,
    chain: seq<Evidence>,
    executed: bool)

  // ----- detector

  predicate Anomalous(s: Signal) {
    || s.status == "critical"
    || (s.threshold.Some? && (if s.value.Some? then s.value.value else 0.0) > s.threshold.value)
  }

  function AnomalyOf(s: Signal): Anomaly {
    Anomaly(
      if s.metric.Some? then s.metric.value else "unknown",
      if s.source.Some? then s.source.value else "monitoring",
      0)
  }

  function SignalAnomalies(signals: seq<Signal>): seq<Anomaly> {
    if signals == [] then []
    else
      var last := signals[|signals| - 1];
      SignalAnomalies(signals[..|signals| - 1]) + if Anomalous(last) then [AnomalyOf(last)] else []
  }

  function CriticalAlerts(alerts: seq<string>): nat {
    if alerts == [] then 0
    else CriticalAlerts(alerts[..|alerts| - 1]) + if alerts[|alerts| - 1] == "critical" then 1 else 0
  }

  function Anomalies(seen: Observations): seq<Anomaly> {
    var alerts := CriticalAlerts(seen.alerts);
    (if seen.drift then [Anomaly("configuration_drift", "drift_detection", 0)] else [])
    + SignalAnomalies(seen.signals)
    + (if alerts > 0 then [Anomaly("critical_alerts", "alerting", alerts)] else [])
  }

  lemma {:induction false} CriticalAlertsCounted(alerts: seq<string>)
    ensures CriticalAlerts(alerts) == multiset(alerts)["critical"]
    ensures CriticalAlerts(alerts) > 0 <==> "critical" in alerts
  {
    if alerts == [] {
    } else {
      CriticalAlertsCounted(alerts[..|alerts| - 1]);
      assert alerts == alerts[..|alerts| - 1] + [alerts[|alerts| - 1]];
    }
  }

  /** What a reader calls out of bounds: critical by its status, or above the threshold it
      names, where a missing value is nought. */
  ghost predicate OutOfBounds(s: Signal) {
    || s.status == "critical"
    || match (s.threshold, s.value)
       case (None, _) => false
       case (Some(limit), Some(value)) => value > limit
       case (Some(limit), None) => limit < 0.0
  }

  ghost function NameOf(s: Signal): string {
    match s.metric case Some(name) => name case None => "unknown"
  }

  ghost function Breaches(signals: seq<Signal>): set<nat> {
    set i: nat | i < |signals| && OutOfBounds(signals[i])
  }

  lemma OneMoreBreach(signals: seq<Signal>)
    requires signals != []
    ensures var n: nat := |signals| - 1;
            && Breaches(signals) == Breaches(signals[..n]) + (if OutOfBounds(signals[n]) then {n} else {})
            && |Breaches(signals)| == |Breaches(signals[..n])| + if OutOfBounds(signals[n]) then 1 else 0
  {
    var n: nat := |signals| - 1;
    forall i: nat | i < n ensures signals[..n][i] == signals[i] {
    }
    assert Breaches(signals) == Breaches(signals[..n]) + if OutOfBounds(signals[n]) then {n} else {};
  }

  ghost function Named(s: Signal): Anomaly {
    Anomaly(NameOf(s), match s.source case Some(name) => name case None => "monitoring", 0)
  }

  lemma AnomalyNames(s: Signal)
    ensures Anomalous(s) <==> OutOfBounds(s)
    ensures AnomalyOf(s) == Named(s)
  {
  }

  /** The i-th signal's anomaly stands after those of the earlier signals out of bounds. */
  ghost predicate ListedAt(anomalies: seq<Anomaly>, signals: seq<Signal>, i: nat)
    requires i < |signals|
  {
    var k := |Breaches(signals[..i])|;
    k < |anomalies| && anomalies[k] == Named(signals[i])
  }

  lemma StaysListed(fewer: seq<Anomaly>, more: seq<Anomaly>, signals: seq<Signal>, n: nat, i: nat)
    requires fewer <= more && i < n <= |signals|
    requires ListedAt(fewer, signals[..n], i)
    ensures ListedAt(more, signals, i)
  {
    hide Breaches, Named;
    assert signals[..n][..i] == signals[..i];
  }

  /** The detector lists one anomaly for every signal out of bounds, in the order they came in,
      under the signal's own names. */
  lemma {:induction false} SignalListed(signals: seq<Signal>)
    ensures |SignalAnomalies(signals)| == |Breaches(signals)|
    ensures forall i: nat :: i in Breaches(signals) ==> ListedAt(SignalAnomalies(signals), signals, i)
  {
    hide Anomalous, AnomalyOf, OutOfBounds, Named, ListedAt;
    if signals != [] {
      var n: nat := |signals| - 1;
      SignalListed(signals[..n]);
      OneMoreBreach(signals);
      AnomalyNames(signals[n]);
      forall i: nat | i in Breaches(signals) ensures ListedAt(SignalAnomalies(signals), signals, i) {
        if i < n {
          assert i in Breaches(signals[..n]);
          StaysListed(SignalAnomalies(signals[..n]), SignalAnomalies(signals), signals, n, i);
        } else {
          LastIsListed(signals);
        }
      }
    }
  }

  lemma LastIsListed(signals: seq<Signal>)
    requires signals != [] && OutOfBounds(signals[|signals| - 1])
    requires |SignalAnomalies(signals[..|signals| - 1])| == |Breaches(signals[..|signals| - 1])|
    ensures ListedAt(SignalAnomalies(signals), signals, |signals| - 1)
  {
    hide Breaches, OutOfBounds, Anomalous, AnomalyOf, Named;
    AnomalyNames(signals[|signals| - 1]);
  }

  function IncidentOf(run: string): string {
    "INC-" + if |run| <= 8 then run else run[..8]
  }

  /** The anomalies are that of the drift, if any, then those of the signals out of bounds, then
      one that counts the critical alerts, if any. */
  lemma AnomaliesListed(seen: Observations)
    ensures var anomalies := Anomalies(seen);
            var first := if seen.drift then 1 else 0;
            var last := if "critical" in seen.alerts then 1 else 0;
            && |anomalies| == first + |Breaches(seen.signals)| + last
            && (seen.drift ==> anomalies[0] == Anomaly("configuration_drift", "drift_detection", 0))
            && (forall i: nat :: i in Breaches(seen.signals) ==> ListedAt(anomalies[first..], seen.signals, i))
            && ("critical" in seen.alerts ==>
                  anomalies[|anomalies| - 1] ==
                    Anomaly("critical_alerts", "alerting", multiset(seen.alerts)["critical"]))
  {
    hide SignalAnomalies, CriticalAlerts, OutOfBounds, Named;
    CriticalAlertsCounted(seen.alerts);
    SignalListed(seen.signals);
    var listed := SignalAnomalies(seen.signals);
    var after := Anomalies(seen)[if seen.drift then 1 else 0..];
    assert after[..|listed|] == listed;
    forall i: nat | i in Breaches(seen.signals) ensures ListedAt(after, seen.signals, i) {
      assert ListedAt(listed, seen.signals, i);
    }
  }

  method CountCriticalAlerts(alerts: seq<string>) returns (n: nat)
    ensures n == CriticalAlerts(alerts)
  {
    n := 0;
    for i := 0 to |alerts|
      invariant n == CriticalAlerts(alerts[..i])
    {
      assert alerts[..i + 1][..i] == alerts[..i];
      if alerts[i] == "critical" {
        n := n + 1;
      }
    }
    assert alerts[..|alerts|] == alerts;
  }

  lemma NoSignals()
    ensures SignalAnomalies([]) == []
  {
  }

  lemma OneMoreSignal(signals: seq<Signal>, i: nat)
    requires i < |signals|
    ensures SignalAnomalies(signals[..i + 1]) ==
              if Anomalous(signals[i]) then SignalAnomalies(signals[..i]) + [AnomalyOf(signals[i])]
              else SignalAnomalies(signals[..i])
  {
    hide Anomalous, AnomalyOf;
    assert signals[..i + 1][..i] == signals[..i];
  }

  method Detect(seen: Observations) returns (report: Report)
    ensures report.anomalies == Anomalies(seen)
    ensures report.detected <==> report.anomalies != []
    ensures report.incident == if !report.detected then ""
                               else if |seen.run| <= 8 then "INC-" + seen.run else "INC-" + seen.run[..8]
    ensures report.hint == if "critical" in seen.alerts then "critical"
                           else if report.detected then "warning" else "info"
  {
    hide Anomalous, AnomalyOf, CriticalAlerts, SignalAnomalies;
    var anomalies: seq<Anomaly> := [];
    var hint := "info";
    if seen.drift {
      anomalies := anomalies + [Anomaly("configuration_drift", "drift_detection", 0)];
      hint := "warning";
    }
    ghost var first := anomalies;
    NoSignals();
    for i := 0 to |seen.signals|
      invariant anomalies == first + SignalAnomalies(seen.signals[..i])
      invariant hint == if anomalies != [] then "warning" else "info"
    {
      OneMoreSignal(seen.signals, i);
      if Anomalous(seen.signals[i]) {
        anomalies := anomalies + [AnomalyOf(seen.signals[i])];
        if hint != "critical" {
          hint := "warning";
        }
      }
    }
    assert seen.signals[..|seen.signals|] == seen.signals;
    var criticalAlerts := CountCriticalAlerts(seen.alerts);
    CriticalAlertsCounted(seen.alerts);
    if criticalAlerts > 0 {
      anomalies := anomalies + [Anomaly("critical_alerts", "alerting", criticalAlerts)];
      hint := "critical";
    }
    var detected := |anomalies| > 0;
    report := Report(if detected then IncidentOf(seen.run) else "", detected, anomalies, hint);
  }

  // ----- triager

  function LowerChar(c: char): char {
    if 'A' <= c <= 'Z' then c + 32 as char else c
  }

  /** No letter outside ASCII lowers to one in "cpu" or "memory". */
  function Lower(s: string): (l: string)
    ensures |l| == |s|
  {
    if s == [] then [] else [LowerChar(s[0])] + Lower(s[1..])
  }

  predicate Mentions(s: string, word: string) {
    exists i :: 0 <= i <= |s| - |word| && OccursAt(s, word, i)
  }

  predicate IsResource(kind: string) {
    Mentions(Lower(kind), "cpu") || Mentions(Lower(kind), "memory")
  }

  function Weight(kind: string): nat {
    if kind == "configuration_drift" then 30
    else if kind == "critical_alerts" then 50
    else if IsResource(kind) then 25
    else 10
  }

  /** The word in small letters or capitals, or any mixture of them, anywhere in the name. */
  ghost predicate Spelt(kind: string, small: string, capital: string)
    requires |small| == |capital|
  {
    exists i :: 0 <= i <= |kind| - |small| && SpeltAt(kind, small, capital, i)
  }

  ghost predicate SpeltAt(kind: string, small: string, capital: string, i: int)
    requires 0 <= i <= |kind| - |small| && |small| == |capital|
  {
    forall j :: 0 <= j < |small| ==> kind[i + j] == small[j] || kind[i + j] == capital[j]
  }

  lemma {:induction false} LowerAt(s: string, i: nat)
    requires i < |s|
    ensures Lower(s)[i] == LowerChar(s[i])
  {
    if i > 0 {
      LowerAt(s[1..], i - 1);
    }
  }

  lemma LowersTo(small: char, capital: char, c: char)
    requires 'a' <= small <= 'z' && capital == small - 32 as char
    ensures LowerChar(c) == small <==> c == small || c == capital
  {
  }

  lemma MentionsIff(kind: string, small: string, capital: string)
    requires |small| == |capital|
    requires forall j :: 0 <= j < |small| ==> 'a' <= small[j] <= 'z' && capital[j] == small[j] - 32 as char
    ensures Mentions(Lower(kind), small) <==> Spelt(kind, small, capital)
  {
    forall i | 0 <= i <= |kind| - |small|
      ensures OccursAt(Lower(kind), small, i) <==> SpeltAt(kind, small, capital, i)
    {
      forall j | 0 <= j < |small|
        ensures Lower(kind)[i + j] == small[j] <==> kind[i + j] == small[j] || kind[i + j] == capital[j]
      {
        LowerAt(kind, i + j);
        LowersTo(small[j], capital[j], kind[i + j]);
      }
    }
  }

  datatype Kind = OfDrift | OfAlerts | OfResource | OfOther

  ghost predicate SpeltAsResource(kind: string) {
    Spelt(kind, "cpu", "CPU") || Spelt(kind, "memory", "MEMORY")
  }

  ghost predicate IsKind(kind: string, k: Kind) {
    match k
    case OfDrift => kind == "configuration_drift"
    case OfAlerts => kind == "critical_alerts"
    case OfResource => kind != "configuration_drift" && kind != "critical_alerts" && SpeltAsResource(kind)
    case OfOther => kind != "configuration_drift" && kind != "critical_alerts" && !SpeltAsResource(kind)
  }

  lemma ResourceIff(kind: string)
    ensures IsResource(kind) <==> SpeltAsResource(kind)
  {
    MentionsIff(kind, "cpu", "CPU");
    MentionsIff(kind, "memory", "MEMORY");
  }

  /** What anomalies of each kind are worth together. */
  ghost function Worth(drifts: nat, alerts: nat, resources: nat, others: nat): nat {
    30 * drifts + 50 * alerts + 25 * resources + 10 * others
  }

  lemma WeightIsWorth(kind: string)
    ensures Weight(kind) == Worth(if IsKind(kind, OfDrift) then 1 else 0, if IsKind(kind, OfAlerts) then 1 else 0,
                                  if IsKind(kind, OfResource) then 1 else 0, if IsKind(kind, OfOther) then 1 else 0)
  {
    hide IsResource, SpeltAsResource;
    ResourceIff(kind);
  }

  ghost function OfKind(anomalies: seq<Anomaly>, k: Kind): set<nat> {
    set i: nat | i < |anomalies| && IsKind(anomalies[i].kind, k)
  }

  lemma OneMoreOfKind(anomalies: seq<Anomaly>, k: Kind)
    requires anomalies != []
    ensures var n: nat := |anomalies| - 1;
            |OfKind(anomalies, k)| == |OfKind(anomalies[..n], k)| + if IsKind(anomalies[n].kind, k) then 1 else 0
  {
    hide IsKind;
    var n: nat := |anomalies| - 1;
    forall i: nat | i < n ensures anomalies[..n][i] == anomalies[i] {
    }
    assert OfKind(anomalies, k) == OfKind(anomalies[..n], k) + if IsKind(anomalies[n].kind, k) then {n} else {};
  }

  function Score(anomalies: seq<Anomaly>): nat {
    if anomalies == [] then 0
    else Score(anomalies[..|anomalies| - 1]) + Weight(anomalies[|anomalies| - 1].kind)
  }

  function Affected(a: Anomaly): Blast {
    if a.kind == "configuration_drift" then Drift(a.source)
    else if a.kind == "critical_alerts" then Alerts(a.count)
    else if IsResource(a.kind) then Resource(a.kind)
    else Metric(a.kind)
  }

  function BlastRadius(anomalies: seq<Anomaly>): set<Blast> {
    set a | a in anomalies :: Affected(a)
  }

  lemma NothingAffected()
    ensures BlastRadius([]) == {} && Score([]) == 0
  {
  }

  lemma OneMoreAffected(anomalies: seq<Anomaly>, a: Anomaly)
    ensures BlastRadius(anomalies + [a]) == BlastRadius(anomalies) + {Affected(a)}
    ensures Score(anomalies + [a]) == Score(anomalies) + Weight(a.kind)
  {
    hide Affected, Weight;
    var more := anomalies + [a];
    assert more[..|more| - 1] == anomalies;
    forall b | b in anomalies || b == a ensures Affected(b) in BlastRadius(more) {
      assert b in more;
    }
  }

  /** The score counts 30 for a drift, 50 for critical alerts, 25 for a name that spells cpu or
      memory in whatever case, and 10 for any other. */
  lemma {:induction false} ScoreCounts(anomalies: seq<Anomaly>)
    ensures Score(anomalies) == Worth(|OfKind(anomalies, OfDrift)|, |OfKind(anomalies, OfAlerts)|,
                                      |OfKind(anomalies, OfResource)|, |OfKind(anomalies, OfOther)|)
  {
    hide IsKind, Weight;
    if anomalies != [] {
      var front, last := anomalies[..|anomalies| - 1], anomalies[|anomalies| - 1];
      ScoreCounts(front);
      WeightIsWorth(last.kind);
      OneMoreOfKind(anomalies, OfDrift);
      OneMoreOfKind(anomalies, OfAlerts);
      OneMoreOfKind(anomalies, OfResource);
      OneMoreOfKind(anomalies, OfOther);
    }
  }

  /** The blast radius names the source of a drift, the number of alerts, and any other anomaly
      by its kind. */
  lemma BlastRadiusIff(anomalies: seq<Anomaly>, b: Blast)
    ensures b in BlastRadius(anomalies) <==>
              match b
              case Drift(source) =>
                exists a :: a in anomalies && IsKind(a.kind, OfDrift) && a.source == source
              case Alerts(count) =>
                exists a :: a in anomalies && IsKind(a.kind, OfAlerts) && a.count == count
              case Resource(kind) => IsKind(kind, OfResource) && exists a :: a in anomalies && a.kind == kind
              case Metric(kind) => IsKind(kind, OfOther) && exists a :: a in anomalies && a.kind == kind
  {
    hide IsResource, SpeltAsResource;
    forall a | a in anomalies ensures IsResource(a.kind) <==> SpeltAsResource(a.kind) {
      ResourceIff(a.kind);
    }
    forall a | a in anomalies ensures Affected(a) in BlastRadius(anomalies) {
    }
  }

  method Triage(report: Report) returns (assessment: Assessment)
    ensures assessment.incident == report.incident
    ensures assessment.score == Score(report.anomalies)
    ensures assessment.blastRadius == BlastRadius(report.anomalies)
    ensures assessment.severity == "critical" <==> assessment.score >= 70 || report.hint == "critical"
    ensures assessment.severity == "high" <==>
      assessment.score < 70 && report.hint != "critical" && (assessment.score >= 40 || report.hint == "warning")
    ensures assessment.severity == "medium" <==>
      15 <= assessment.score < 40 && report.hint != "critical" && report.hint != "warning"
    ensures assessment.severity in {"critical", "high", "medium", "low"}
    ensures assessment.urgency ==
              match assessment.severity
              case "critical" => "immediate"
              case "high" => "urgent"
              case "medium" => "normal"
              case _ => "low"
    ensures assessment.requiresRemediation <==> assessment.severity != "low"
  {
    hide Score, BlastRadius, IsResource;
    var score, blastRadius := 0, {};
    NothingAffected();
    for i := 0 to |report.anomalies|
      invariant score == Score(report.anomalies[..i])
      invariant blastRadius == BlastRadius(report.anomalies[..i])
    {
      var anomaly := report.anomalies[i];
      assert report.anomalies[..i + 1] == report.anomalies[..i] + [anomaly];
      OneMoreAffected(report.anomalies[..i], anomaly);
      if anomaly.kind == "configuration_drift" {
        score := score + 30;
        blastRadius := blastRadius + {Drift(anomaly.source)};
      } else if anomaly.kind == "critical_alerts" {
        score := score + 50;
        blastRadius := blastRadius + {Alerts(anomaly.count)};
      } else if IsResource(anomaly.kind) {
        score := score + 25;
        blastRadius := blastRadius + {Resource(anomaly.kind)};
      } else {
        score := score + 10;
        blastRadius := blastRadius + {Metric(anomaly.kind)};
      }
    }
    assert report.anomalies[..|report.anomalies|] == report.anomalies;
    var severity, urgency := "low", "low";
    if score >= 70 || report.hint == "critical" {
      severity, urgency := "critical", "immediate";
    } else if score >= 40 || report.hint == "warning" {
      severity, urgency := "high", "urgent";
    } else if score >= 15 {
      severity, urgency := "medium", "normal";
    }
    var requiresRemediation := severity in {"critical", "high", "medium"};
    assessment := Assessment(report.incident, severity, urgency, score, blastRadius, requiresRemediation);
  }

  // ----- decisioner

  function ModeFor(severity: string): string {
    if severity == "high" || severity == "medium" then "recommend" else "manual"
  }

  function Decide(assessment: Assessment): (decision: Decision)
    ensures decision.incident == assessment.incident
    ensures decision.mode == "recommend" <==> assessment.requiresRemediation && assessment.severity in {"high", "medium"}
    ensures decision.mode != "recommend" ==> decision.mode == "manual"
    ensures decision.authorized <==> assessment.requiresRemediation
    ensures decision.action == "rollback_artifact" <==> decision.mode == "recommend"
    ensures decision.action == "no_action" <==> !decision.authorized
  {
    if !assessment.requiresRemediation then
      Decision(assessment.incident, "manual", false, "no_action")
    else
      var mode := ModeFor(assessment.severity);
      Decision(assessment.incident, mode, true, if mode == "manual" then "alert" else "rollback_artifact")
  }

  // ----- remediator

  method Remediate(decision: Decision) returns (remediation: Remediation)
    ensures remediation.incident == decision.incident
    ensures remediation.executed == remediation.rollbackAttempted
    ensures remediation.executed <==> decision.authorized && decision.mode == "auto_rollback"
    ensures remediation.executed <==> Evidence("execution", "success") in remediation.evidence
    ensures remediation.finalState == "denied" <==> !decision.authorized
    ensures remediation.finalState == "manual_intervention_required" <==>
      decision.authorized && decision.mode == "manual"
    ensures remediation.finalState == "recommendation_produced" <==>
      decision.authorized && decision.mode == "recommend"
    ensures remediation.finalState == "executed" <==> remediation.executed
    ensures remediation.finalState == "no_action" <==>
      decision.authorized && decision.mode !in {"manual", "recommend", "auto_rollback"}
    ensures remediation.evidence ==
              match remediation.finalState
              case "denied" => [Evidence("authorization", "denied")]
              case "manual_intervention_required" => [Evidence("mode_check", "manual_mode")]
              case "recommendation_produced" =>
                [Evidence("authorization", "approved"), Evidence("action_validation", "valid")]
              case "executed" =>
                [Evidence("authorization", "approved"), Evidence("action_validation", "valid"), Evidence("execution", "success")]
              case _ => []
  {
    var evidence: seq<Evidence> := [];
    var rollbackAttempted, executed, finalState := false, false, "no_action";
    if !decision.authorized {
      evidence := evidence + [Evidence("authorization", "denied")];
      finalState := "denied";
    } else if decision.mode == "manual" {
      evidence := evidence + [Evidence("mode_check", "manual_mode")];
      finalState := "manual_intervention_required";
    } else if decision.mode == "recommend" || decision.mode == "auto_rollback" {
      rollbackAttempted := decision.mode == "auto_rollback";
      executed := decision.mode == "auto_rollback";
      evidence := evidence + [Evidence("authorization", "approved")];
      evidence := evidence + [Evidence("action_validation", "valid")];
      if decision.mode == "recommend" {
        finalState := "recommendation_produced";
      } else {
        finalState := "executed";
        evidence := evidence + [Evidence("execution", "success")];
      }
    }
    remediation := Remediation(decision.incident, executed, rollbackAttempted, finalState, evidence);
  }

  // ----- recovery verifier

  method VerifyRecovery(remediation: Remediation) returns (verification: Verification)
    ensures verification.incident == remediation.incident
    ensures verification.executed == remediation.executed
    ensures verification.status ==
              match remediation.finalState
              case "executed" => "resolved"
              case "recommendation_produced" => "remediation_pending"
              case "manual_intervention_required" => "awaiting_operator"
              case "denied" => "denied"
              case "no_action" => "no_incident"
              case _ => "open"
    ensures verification.recovered <==> verification.status in {"resolved", "no_incident"}
    ensures verification.verified <==> verification.status != "open"
    ensures verification.chain == remediation.evidence +
              match verification.status
              case "resolved" => [Evidence("recovery_verification", "verified")]
              case "remediation_pending" => [Evidence("recovery_verification", "pending")]
              case "awaiting_operator" => [Evidence("recovery_verification", "pending")]
              case "denied" => [Evidence("recovery_verification", "denied")]
              case "no_incident" => [Evidence("recovery_verification", "no_action_needed")]
              case _ => []
  {
    var chain: seq<Evidence> := [];
    for i := 0 to |remediation.evidence|
      invariant chain == remediation.evidence[..i]
    {
      chain := chain + [Evidence(remediation.evidence[i].gate, remediation.evidence[i].outcome)];
    }
    var verified, recovered, status := false, false, "open";
    var finalState := remediation.finalState;
    if finalState == "executed" {
      verified, recovered, status := true, true, "resolved";
      chain := chain + [Evidence("recovery_verification", "verified")];
    } else if finalState == "recommendation_produced" {
      verified, recovered, status := true, false, "remediation_pending";
      chain := chain + [Evidence("recovery_verification", "pending")];
    } else if finalState == "manual_intervention_required" {
      verified, recovered, status := true, false, "awaiting_operator";
      chain := chain + [Evidence("recovery_verification", "pending")];
    } else if finalState == "denied" {
      verified, recovered, status := true, false, "denied";
      chain := chain + [Evidence("recovery_verification", "denied")];
    } else if finalState == "no_action" {
      verified, recovered, status := true, true, "no_incident";
      chain := chain + [Evidence("recovery_verification", "no_action_needed")];
    }
    verification := Verification(remediation.incident, recovered, verified, status, chain, remediation.executed);
  }

  // ----- end to end

  predicate Quiet(seen: Observations) {
    && !seen.drift
    && (forall s :: s in seen.signals ==> !Anomalous(s))
    && "critical" !in seen.alerts
  }

  function SignalScore(signals: seq<Signal>): nat {
    if signals == [] then 0
    else
      var last := signals[|signals| - 1];
      SignalScore(signals[..|signals| - 1]) + if Anomalous(last) then Weight(AnomalyOf(last).kind) else 0
  }

  /** The summed score, straight from what was observed. */
  function TotalScore(seen: Observations): nat {
    (if seen.drift then 30 else 0)
    + SignalScore(seen.signals)
    + (if "critical" in seen.alerts then 50 else 0)
  }

  /** The three things the chain can say, in rising order of urgency. */
  function Outcome(seen: Observations): string {
    if Quiet(seen) then "denied"
    else if "critical" in seen.alerts || TotalScore(seen) >= 70 then "awaiting_operator"
    else "remediation_pending"
  }

  /** The signals out of bounds whose metric is of this kind. */
  ghost function BreachesOf(signals: seq<Signal>, k: Kind): set<nat> {
    set i: nat | i < |signals| && OutOfBounds(signals[i]) && IsKind(NameOf(signals[i]), k)
  }

  lemma OneMoreBreachOf(signals: seq<Signal>, k: Kind)
    requires signals != []
    ensures var n: nat := |signals| - 1;
            |BreachesOf(signals, k)| ==
              |BreachesOf(signals[..n], k)| + if OutOfBounds(signals[n]) && IsKind(NameOf(signals[n]), k) then 1 else 0
  {
    hide IsKind, OutOfBounds, NameOf;
    var n: nat := |signals| - 1;
    forall i: nat | i < n ensures signals[..n][i] == signals[i] {
    }
    assert BreachesOf(signals, k) == BreachesOf(signals[..n], k)
        + if OutOfBounds(signals[n]) && IsKind(NameOf(signals[n]), k) then {n} else {};
  }

  lemma {:induction false} SignalScoreCounts(signals: seq<Signal>)
    ensures SignalScore(signals) == Worth(|BreachesOf(signals, OfDrift)|, |BreachesOf(signals, OfAlerts)|,
                                          |BreachesOf(signals, OfResource)|, |BreachesOf(signals, OfOther)|)
  {
    hide IsKind, OutOfBounds, NameOf, Anomalous, AnomalyOf, Weight;
    if signals != [] {
      var front, last := signals[..|signals| - 1], signals[|signals| - 1];
      SignalScoreCounts(front);
      AnomalyNames(last);
      WeightIsWorth(NameOf(last));
      OneMoreBreachOf(signals, OfDrift);
      OneMoreBreachOf(signals, OfAlerts);
      OneMoreBreachOf(signals, OfResource);
      OneMoreBreachOf(signals, OfOther);
    }
  }

  /** The summed score, counted from the observations. */
  ghost function ObservedScore(seen: Observations): nat {
    Worth(|BreachesOf(seen.signals, OfDrift)| + if seen.drift then 1 else 0,
          |BreachesOf(seen.signals, OfAlerts)| + if "critical" in seen.alerts then 1 else 0,
          |BreachesOf(seen.signals, OfResource)|,
          |BreachesOf(seen.signals, OfOther)|)
  }

  ghost predicate NothingWrong(seen: Observations) {
    && !seen.drift
    && (forall s :: s in seen.signals ==> !OutOfBounds(s))
    && "critical" !in seen.alerts
  }

  lemma WorthAdds(a: nat, b: nat, c: nat, d: nat, drift: nat, alert: nat)
    ensures Worth(a + drift, b + alert, c, d) == Worth(a, b, c, d) + 30 * drift + 50 * alert
  {
  }

  lemma TotalIsObserved(seen: Observations)
    ensures TotalScore(seen) == ObservedScore(seen)
  {
    hide SignalScore, BreachesOf, Worth;
    SignalScoreCounts(seen.signals);
    WorthAdds(|BreachesOf(seen.signals, OfDrift)|, |BreachesOf(seen.signals, OfAlerts)|,
              |BreachesOf(seen.signals, OfResource)|, |BreachesOf(seen.signals, OfOther)|,
              if seen.drift then 1 else 0, if "critical" in seen.alerts then 1 else 0);
  }

  lemma QuietIff(seen: Observations)
    ensures Quiet(seen) <==> NothingWrong(seen)
  {
    hide Anomalous, OutOfBounds;
    forall s ensures Anomalous(s) <==> OutOfBounds(s) {
      AnomalyNames(s);
    }
  }

  lemma OutcomeIff(seen: Observations)
    ensures Outcome(seen) ==
              if NothingWrong(seen) then "denied"
              else if "critical" in seen.alerts || ObservedScore(seen) >= 70 then "awaiting_operator"
              else "remediation_pending"
    ensures Quiet(seen) <==> NothingWrong(seen)
  {
    hide Quiet, NothingWrong, TotalScore, ObservedScore;
    QuietIff(seen);
    TotalIsObserved(seen);
  }

  lemma {:induction false} SignalsScored(signals: seq<Signal>)
    ensures SignalAnomalies(signals) == [] <==> forall s :: s in signals ==> !Anomalous(s)
    ensures Score(SignalAnomalies(signals)) == SignalScore(signals)
  {
    hide Anomalous, AnomalyOf, Weight, Score;
    if signals == [] {
      NothingAffected();
    } else {
      var front, last := signals[..|signals| - 1], signals[|signals| - 1];
      SignalsScored(front);
      assert signals == front + [last];
      if Anomalous(last) {
        OneMoreAffected(SignalAnomalies(front), AnomalyOf(last));
      } else {
        assert SignalAnomalies(signals) == SignalAnomalies(front);
      }
    }
  }

  lemma {:induction false} ScoreOfBoth(a: seq<Anomaly>, b: seq<Anomaly>)
    ensures Score(a + b) == Score(a) + Score(b)
  {
    if b == [] {
      assert a + b == a;
    } else {
      ScoreOfBoth(a, b[..|b| - 1]);
      assert (a + b)[..|a + b| - 1] == a + b[..|b| - 1];
    }
  }

  /** What the detector passes on is empty exactly when nothing was wrong, and scores as above. */
  lemma AnomaliesScored(seen: Observations)
    ensures Anomalies(seen) == [] <==> Quiet(seen)
    ensures Score(Anomalies(seen)) == TotalScore(seen)
    ensures Quiet(seen) ==> TotalScore(seen) == 0 && CriticalAlerts(seen.alerts) == 0
  {
    var drift := if seen.drift then [Anomaly("configuration_drift", "drift_detection", 0)] else [];
    var alerts := CriticalAlerts(seen.alerts);
    var alerting := if alerts > 0 then [Anomaly("critical_alerts", "alerting", alerts)] else [];
    CriticalAlertsCounted(seen.alerts);
    SignalsScored(seen.signals);
    ScoreOfBoth(drift, SignalAnomalies(seen.signals));
    ScoreOfBoth(drift + SignalAnomalies(seen.signals), alerting);
  }

  /** The whole chain: it never executes anything and never reports recovery, and which of three
      statuses it ends with depends on the observations alone.  The severity in between is low
      exactly when nothing was wrong, critical exactly when an operator is awaited, and never
      medium. */
  method RunPipeline(seen: Observations) returns (verification: Verification, assessment: Assessment)
    ensures assessment.severity ==
              match verification.status
              case "denied" => "low"
              case "awaiting_operator" => "critical"
              case _ => "high"
    ensures verification.status == Outcome(seen)
    ensures verification.status in {"denied", "awaiting_operator", "remediation_pending"}
    ensures verification.status == "denied" <==> NothingWrong(seen)
    ensures verification.status == "awaiting_operator" <==> "critical" in seen.alerts || ObservedScore(seen) >= 70
    ensures !verification.executed && !verification.recovered && verification.verified
    ensures verification.incident ==
              if NothingWrong(seen) then ""
              else if |seen.run| <= 8 then "INC-" + seen.run else "INC-" + seen.run[..8]
    ensures verification.chain ==
              match verification.status
              case "denied" =>
                [Evidence("authorization", "denied"), Evidence("recovery_verification", "denied")]
              case "awaiting_operator" =>
                [Evidence("mode_check", "manual_mode"), Evidence("recovery_verification", "pending")]
              case _ =>
                [Evidence("authorization", "approved"), Evidence("action_validation", "valid"),
                 Evidence("recovery_verification", "pending")]
  {
    hide Anomalies, Score, TotalScore, Quiet, CriticalAlerts, Breaches, NothingWrong, ObservedScore;
    var report := Detect(seen);
    AnomaliesScored(seen);
    OutcomeIff(seen);
    if Quiet(seen) {
      QuietScoresNothing(seen);
    }
    assessment := Triage(report);
    var decision := Decide(assessment);
    var remediation := Remediate(decision);
    verification := VerifyRecovery(remediation);
  }

  lemma QuietScoresNothing(seen: Observations)
    requires Quiet(seen)
    ensures "critical" !in seen.alerts && ObservedScore(seen) == 0
  {
    hide SignalScore, TotalScore, ObservedScore, Anomalous;
    AnomaliesScored(seen);
    TotalIsObserved(seen);
  }

  lemma {:induction false} ScoreWithout(signals: seq<Signal>, i: nat)
    requires i < |signals|
    ensures SignalScore(signals) >= SignalScore(signals[..i] + signals[i + 1..])
    ensures SignalScore(signals) == SignalScore(signals[..i] + signals[i + 1..])
              + if Anomalous(signals[i]) then Weight(AnomalyOf(signals[i]).kind) else 0
  {
    hide Anomalous, Weight, AnomalyOf;
    var n := |signals| - 1;
    if i == n {
      assert signals[..i] + signals[i + 1..] == signals[..n];
    } else {
      var front, without := signals[..n], signals[..i] + signals[i + 1..];
      ScoreWithout(front, i);
      assert without[..|without| - 1] == front[..i] + front[i + 1..];
      assert without[|without| - 1] == signals[n];
    }
  }

  lemma {:induction false} MoreSignalsScoreMore(fewer: seq<Signal>, more: seq<Signal>)
    requires multiset(fewer) <= multiset(more)
    ensures SignalScore(fewer) <= SignalScore(more)
    decreases |fewer|
  {
    hide Anomalous, Weight, AnomalyOf;
    if fewer != [] {
      var front, last := fewer[..|fewer| - 1], fewer[|fewer| - 1];
      assert fewer == front + [last];
      assert last in multiset(more);
      var i :| 0 <= i < |more| && more[i] == last;
      TakingOut(more, i);
      ScoreWithout(more, i);
      MoreSignalsScoreMore(front, more[..i] + more[i + 1..]);
    }
  }

  /** More signals, more alerts or drift, in whatever order, never make the outcome less urgent. */
  lemma MoreEvidenceNeverCalms(fewer: Observations, more: Observations)
    requires fewer.drift ==> more.drift
    requires multiset(fewer.signals) <= multiset(more.signals)
    requires multiset(fewer.alerts) <= multiset(more.alerts)
    ensures Outcome(fewer) == "awaiting_operator" ==> Outcome(more) == "awaiting_operator"
    ensures Outcome(more) == "denied" ==> Outcome(fewer) == "denied"
  {
    hide Anomalous;
    MoreSignalsScoreMore(fewer.signals, more.signals);
    if "critical" in fewer.alerts {
      MembersRemain(fewer.alerts, more.alerts, "critical");
    }
    if !Quiet(fewer) && !fewer.drift && "critical" !in fewer.alerts {
      var s :| s in fewer.signals && Anomalous(s);
      MembersRemain(fewer.signals, more.signals, s);
    }
  }
}
