/** Governed drift remediation: `remediate_drift`. */
module Remediation {
  import opened Drift
  import opened Wrappers

  datatype Mode = Manual | Recommend | AutoRollback | OtherMode(name: string)

  datatype Action = RollbackArtifact | Redeploy | Alert | NoAction

  /** `allowedActions` is the normalised list: an empty one was replaced by rollback_artifact. */
  datatype RemediationPolicy = RemediationPolicy(
    mode: Mode,
    allowedActions: seq<Action>,
    requireSignedDriftPolicy: bool,
    requireSignedDriftReport: bool,
    requireReleaseHistorySnapshot: bool,
    requireLatestKnownGood: bool,
    requirePreviousAssuranceChain: bool
  )

  datatype SignatureStatus = Unsigned | SignatureValid | SignedUnverified | OtherSignature(name: string)

  datatype Report = Report(driftDetected: bool, policySignature: SignatureStatus, signed: bool)

  datatype KnownGood = KnownGood(releaseId: string, artifactDigest: string, receiptDigest: string)

  /** What the deployment adapter did, should it be called: it raised, or it returned a
      status and perhaps a final state. */
  datatype Adapter = AdapterRaises | AdapterReturns(deployStatus: string, finalState: Option<string>)

  /** The surroundings of a call.  The release history and the adapter are not part of this
      model; they answer as they like. */
  datatype World = World(
    knownGood: Option<KnownGood>,
    snapshotPath: string,
    snapshotValid: bool,
    manifestGiven: bool,
    adapter: Adapter
  )

  datatype FinalState =
    | NoRemediationNeeded
    | DriftDetected
    | Denied
    | ManualInterventionRequired
    | RecommendationProduced
    | AfterRollback(state: string)

  datatype Receipt = Receipt(
    selectedAction: Action,
    selectedReleaseId: string,
    selectedArtifactDigest: string,
    rollbackAttempted: bool,
    rollbackResult: string,
    finalState: FinalState,
    hasDenialReason: bool,
    valid: bool
  )

  /** The signature requirements of the policy that come before the mode. */
  predicate SignaturesMet(p: RemediationPolicy, report: Report) {
    && (p.requireSignedDriftPolicy ==> report.policySignature in {SignatureValid, SignedUnverified})
    && (p.requireSignedDriftReport ==> report.signed)
  }

  /** Every condition of an automatic rollback. */
  predicate RollbackWarranted(p: RemediationPolicy, report: Report, w: World) {
    && report.driftDetected
    && SignaturesMet(p, report)
    && p.mode == AutoRollback
    && RollbackArtifact in p.allowedActions
    && w.knownGood.Some?
    && (p.requireReleaseHistorySnapshot && w.snapshotPath != "" ==> w.snapshotValid)
    && (p.requirePreviousAssuranceChain ==> w.knownGood.value.receiptDigest != "")
    && w.manifestGiven
  }

  /** `remediate_drift`: a rollback is attempted exactly when it is warranted; every denial
      leaves the target alone; and a receipt is invalid only under strict, for a denial or
      because the adapter raised. */
  method RemediateDrift(report: Report, p: RemediationPolicy, w: World, strict: bool) returns (receipt: Receipt)
    ensures receipt.rollbackAttempted <==> RollbackWarranted(p, report, w)
    ensures receipt.finalState == Denied ==> !receipt.rollbackAttempted && receipt.hasDenialReason && receipt.rollbackResult == ""
    ensures receipt.valid <==> !strict || !(receipt.finalState == Denied || (receipt.rollbackAttempted && w.adapter.AdapterRaises?))
    ensures receipt.finalState == NoRemediationNeeded <==> !report.driftDetected
    ensures receipt.finalState == Denied <==>
              && report.driftDetected
              && (|| !SignaturesMet(p, report)
                  || (p.mode == Recommend && p.requireLatestKnownGood && w.knownGood.None?)
                  || (p.mode == AutoRollback
                      && !RollbackWarranted(p, report, w.(manifestGiven := true))))
    ensures receipt.rollbackAttempted ==>
              && receipt.selectedAction == RollbackArtifact
              && receipt.selectedReleaseId == w.knownGood.value.releaseId
              && receipt.selectedArtifactDigest == w.knownGood.value.artifactDigest
              && receipt.finalState == AfterRollback(
                   match w.adapter
                   case AdapterRaises => "failed"
                   case AdapterReturns(_, Some(state)) => state
                   case AdapterReturns(status, None) => if status == "accepted" then "rolled_back" else "failed")
    ensures !report.driftDetected ==> receipt.selectedAction == NoAction && receipt.valid && !receipt.hasDenialReason
    ensures receipt.finalState == ManualInterventionRequired <==>
              report.driftDetected && SignaturesMet(p, report) && p.mode == Manual
    ensures receipt.finalState == RecommendationProduced <==>
              && report.driftDetected && SignaturesMet(p, report)
              && (|| (p.mode == Recommend && (p.requireLatestKnownGood ==> w.knownGood.Some?))
                  || (!w.manifestGiven && RollbackWarranted(p, report, w.(manifestGiven := true))))
    ensures receipt.finalState == DriftDetected <==>
              report.driftDetected && SignaturesMet(p, report) && p.mode.OtherMode?
    ensures receipt.finalState == ManualInterventionRequired ==> receipt.selectedAction == Alert
    ensures receipt.selectedReleaseId != "" || receipt.selectedArtifactDigest != "" ==> w.knownGood.Some?
    ensures receipt.finalState == RecommendationProduced && (p.mode == AutoRollback || p.requireLatestKnownGood) ==>
              && receipt.selectedReleaseId == w.knownGood.value.releaseId
              && receipt.selectedArtifactDigest == w.knownGood.value.artifactDigest
    ensures receipt.finalState == RecommendationProduced && p.mode == Recommend && !p.requireLatestKnownGood ==>
              receipt.selectedReleaseId == "" && receipt.selectedArtifactDigest == ""
    ensures receipt.rollbackAttempted ==>
              receipt.rollbackResult == if w.adapter.AdapterRaises? then "exception" else w.adapter.deployStatus
    ensures receipt.hasDenialReason <==>
              || receipt.finalState == Denied || receipt.finalState == ManualInterventionRequired
              || (receipt.finalState == RecommendationProduced && p.mode == AutoRollback)
              || (receipt.rollbackAttempted && w.adapter.AdapterRaises?)
    ensures receipt.finalState == RecommendationProduced ==>
              receipt.selectedAction == if RollbackArtifact in p.allowedActions then RollbackArtifact else Alert
  {
    receipt := Receipt(NoAction, "", "", false, "", NoRemediationNeeded, false, true);
    if !report.driftDetected {
      return;
    }
    receipt := receipt.(finalState := DriftDetected);

    if p.requireSignedDriftPolicy {
      if report.policySignature == Unsigned {
        return receipt.(hasDenialReason := true, finalState := Denied, valid := !strict);
      }
      if report.policySignature != SignatureValid && report.policySignature != SignedUnverified {
        return receipt.(hasDenialReason := true, finalState := Denied, valid := !strict);
      }
    }
    if p.requireSignedDriftReport {
      if !report.signed {
        return receipt.(hasDenialReason := true, finalState := Denied, valid := !strict);
      }
    }

    if p.mode == Manual {
      return receipt.(selectedAction := Alert, finalState := ManualInterventionRequired, hasDenialReason := true);
    }

    if p.mode == Recommend {
      if p.requireLatestKnownGood {
        if w.knownGood.None? {
          return receipt.(hasDenialReason := true, finalState := Denied, valid := !strict);
        }
        receipt := receipt.(selectedReleaseId := w.knownGood.value.releaseId,
                            selectedArtifactDigest := w.knownGood.value.artifactDigest);
      }
      return receipt.(selectedAction := if RollbackArtifact in p.allowedActions then RollbackArtifact else Alert,
                      finalState := RecommendationProduced);
    }

    if p.mode == AutoRollback {
      if RollbackArtifact !in p.allowedActions {
        return receipt.(hasDenialReason := true, finalState := Denied, valid := !strict);
      }
      if w.knownGood.None? {
        return receipt.(hasDenialReason := true, finalState := Denied, valid := !strict);
      }
      receipt := receipt.(selectedReleaseId := w.knownGood.value.releaseId,
                          selectedArtifactDigest := w.knownGood.value.artifactDigest);
      if p.requireReleaseHistorySnapshot && w.snapshotPath != "" {
        if !w.snapshotValid {
          return receipt.(hasDenialReason := true, finalState := Denied, valid := !strict);
        }
      }
      if p.requirePreviousAssuranceChain {
        if w.knownGood.value.receiptDigest == "" {
          return receipt.(hasDenialReason := true, finalState := Denied, valid := !strict);
        }
      }
      receipt := receipt.(selectedAction := RollbackArtifact);
      if w.manifestGiven {
        receipt := receipt.(rollbackAttempted := true);
        match w.adapter
        case AdapterRaises =>
          receipt := receipt.(rollbackResult := "exception", finalState := AfterRollback("failed"),
                              hasDenialReason := true, valid := !strict);
        case AdapterReturns(status, finalState) =>
          var state := if finalState.Some? then finalState.value else if status == "accepted" then "rolled_back" else "failed";
          receipt := receipt.(rollbackResult := status, finalState := AfterRollback(state));
      } else {
        receipt := receipt.(rollbackAttempted := false, finalState := RecommendationProduced, hasDenialReason := true);
      }
    }
  }

  /** A required snapshot stops a rollback over an invalid history only if a snapshot path is
      given: a rollback that is otherwise warranted goes ahead over an invalid snapshot if
      and only if the requirement is off or the path is blank. */
  lemma SnapshotRequirementNeedsPath(p: RemediationPolicy, report: Report, w: World)
    requires !w.snapshotValid
    requires RollbackWarranted(p, report, w.(snapshotValid := true))
    ensures RollbackWarranted(p, report, w) <==> !p.requireReleaseHistorySnapshot || w.snapshotPath == ""
  {
  }

  /** The requirement counts for nothing with a blank path: here the history's snapshot is
      invalid, its verification is required, and the rollback is warranted all the same. */
  lemma InvalidSnapshotIsNoObstacle() returns (p: RemediationPolicy, report: Report, w: World)
    ensures p.requireReleaseHistorySnapshot && !w.snapshotValid && RollbackWarranted(p, report, w)
  {
    p := RemediationPolicy(AutoRollback, [RollbackArtifact], false, false, true, true, false);
    report := Report(true, Unsigned, false);
    w := World(Some(KnownGood("r1", "d1", "")), "", false, true, AdapterRaises);
  }

  // ----- a drift check and the remediation of its report

  /** What `create_drift_report` passes on of a check; `policySignature` and `signed` are the
      signature evidence of the policy and of the report. */
  function ReportOf(result: DriftResult, policySignature: SignatureStatus, signed: bool): Report {
    Report(result.driftDetected, policySignature, signed)
  }

  /** A check and then its remediation.  Nothing is done exactly when the check could not be
      carried out, for want of a valid policy signature or of a release, or found nothing to
      report; and a rollback is attempted exactly when it found something and the rollback is
      warranted otherwise.  A target that could not be checked is thus treated as clean. */
  method CheckAndRemediate(target: string, signed: bool, release: Option<Release>, observed: Values, source: string,
                           fieldSources: map<Field, string>, policy: DriftPolicy, now: int, order: seq<Field>,
                           policySignature: SignatureStatus, reportSigned: bool,
                           p: RemediationPolicy, w: World, strict: bool)
    returns (result: DriftResult, receipt: Receipt)
    requires IsOrder(order)
    ensures receipt.finalState == NoRemediationNeeded <==>
              || !signed || release.None?
              || forall item ::
                   !ReportedByName(policy, release.value, target, observed, source, fieldSources, now, item)
    ensures receipt.rollbackAttempted <==>
              && signed && release.Some?
              && (exists item ::
                    ReportedByName(policy, release.value, target, observed, source, fieldSources, now, item))
              && RollbackWarranted(p, Report(true, policySignature, reportSigned), w)
    ensures !signed || release.None? ==> !result.valid && receipt.valid
  {
    hide Check.Reported, ReportedByName, RollbackWarranted, IsOrder, NoDuplicates;
    result := CheckDrift(target, signed, release, observed, source, fieldSources, policy, now, order);
    receipt := RemediateDrift(ReportOf(result, policySignature, reportSigned), p, w, strict);
    WarrantNeedsDrift(p, ReportOf(result, policySignature, reportSigned), w);
    assert result.driftFields != [] ==> result.driftFields[0] in result.driftFields;
  }

  lemma WarrantNeedsDrift(p: RemediationPolicy, report: Report, w: World)
    ensures RollbackWarranted(p, report, w) ==> report.driftDetected
  {
  }
}
