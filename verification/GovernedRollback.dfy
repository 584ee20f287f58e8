/** Remediation carried out by the adapter: what `remediate_drift` makes happen on the target,
    and what its receipt then says.  The adapter does what its own manifest allows first; the
    release that remediation selected reaches it only as a digest to apply. */
module GovernedRollback {
  import opened Wire
  import opened TaskPolling
  import opened Manifest
  import opened RollbackGates
  import opened ApplyRollback
  import opened RollbackTheorems
  import opened Adapter
  import opened Wrappers
  import Lifecycle
  import LifecycleTheorems
  import Remediation

  // ----- one call of `deploy`

  datatype Deployed =
    | ByRollback(rollback: RollbackReceipt)
    | ByApply(apply: DeployReceipt)
    | ByLifecycle(lifecycle: Lifecycle.Receipt)

  /** `deploy` for the first of the manifest's allowed actions. */
  ghost function DeployRun(sha: Json -> string, m: Manifest, h: History, action: Action, digest: string,
                           remote: Remote, next: nat): Run<Deployed>
  {
    match action
    case RollbackArtifact =>
      var run := RollbackRun(sha, m, h, remote, next);
      Run(run.requests, if run.result.Raised? then Raised else Returned(ByRollback(run.result.value)))
    case ApplyArtifact =>
      var run := ApplyDeployRun(sha, m, h, digest, remote, next);
      Run(run.requests, if run.result.Raised? then Raised else Returned(ByApply(run.result.value)))
    case _ =>
      var run := Lifecycle.LifecycleRun(m, action, remote, next);
      Run(run.requests, if run.result.Raised? then Raised else Returned(ByLifecycle(run.result.value)))
  }

  method Deploy(adapter: ProxmoxApiAdapter, action: Action, digest: string) returns (deployed: Outcome<Deployed>)
    modifies adapter, adapter.session
    ensures var run := DeployRun(adapter.sha, old(adapter.manifest), adapter.history, action, digest,
                                 adapter.session.remote, |old(adapter.session.trace)|);
            adapter.session.trace == old(adapter.session.trace) + run.requests && deployed == run.result
  {
    hide RollbackRun, ApplyDeployRun, Lifecycle.LifecycleRun;
    if action == RollbackArtifact {
      var receipt := adapter.HandleRollback();
      deployed := if receipt.Raised? then Raised else Returned(ByRollback(receipt.value));
    } else if action == ApplyArtifact {
      var receipt := adapter.DeployApply(digest);
      deployed := if receipt.Raised? then Raised else Returned(ByApply(receipt.value));
    } else {
      var receipt := adapter.DeployLifecycle(action);
      deployed := if receipt.Raised? then Raised else Returned(ByLifecycle(receipt.value));
    }
  }

  // ----- remediation through it

  function Accepted(deployed: Deployed): bool {
    match deployed
    case ByRollback(r) => r.accepted
    case ByApply(a) => a.apply.accepted
    case ByLifecycle(l) => l.accepted
  }

  /** What remediation reads of the result; start, stop and reboot report no final state. */
  function AnswerOf(deployed: Outcome<Deployed>): Remediation.Adapter {
    match deployed
    case Raised => Remediation.AdapterRaises
    case Returned(d) =>
      Remediation.AdapterReturns(
        if Accepted(d) then "accepted" else "rejected",
        match d
        case ByRollback(r) => Some(StateText(r.finalState))
        case ByApply(a) => Some(StateText(a.finalState))
        case ByLifecycle(_) => None)
  }

  /** `remediate_drift` with a manifest: the adapter is called exactly when the rollback is
      warranted, and then once; nothing is sent otherwise. */
  method RemediateThrough(adapter: ProxmoxApiAdapter, action: Action, report: Remediation.Report,
                          p: Remediation.RemediationPolicy, w: Remediation.World, strict: bool)
    returns (receipt: Remediation.Receipt)
    requires w.manifestGiven
    modifies adapter, adapter.session
    ensures receipt.rollbackAttempted <==> Remediation.RollbackWarranted(p, report, w)
    ensures !receipt.rollbackAttempted ==>
              adapter.session.trace == old(adapter.session.trace) && adapter.manifest == old(adapter.manifest)
    ensures receipt.rollbackAttempted ==>
              var run := DeployRun(adapter.sha, old(adapter.manifest), adapter.history, action,
                                   w.knownGood.value.artifactDigest, adapter.session.remote,
                                   |old(adapter.session.trace)|);
              && adapter.session.trace == old(adapter.session.trace) + run.requests
              && receipt.selectedArtifactDigest == w.knownGood.value.artifactDigest
              && receipt.finalState == Remediation.AfterRollback(Reported(run.result))
  {
    hide DeployRun, AnswerOf;
    var world := w;
    if Remediation.RollbackWarranted(p, report, w) {
      var deployed := Deploy(adapter, action, w.knownGood.value.artifactDigest);
      world := w.(adapter := AnswerOf(deployed));
    }
    receipt := Remediation.RemediateDrift(report, p, world, strict);
  }

  /** The final state a remediation receipt shows. */
  function Reported(deployed: Outcome<Deployed>): string {
    match AnswerOf(deployed)
    case AdapterRaises => "failed"
    case AdapterReturns(_, Some(state)) => state
    case AdapterReturns(status, None) => if status == "accepted" then "rolled_back" else "failed"
  }

  // ----- what the receipt's words are worth

  /** The digest that the adapter's receipt claims to be in place after a deployment that ended
      "rolled_back" or "applied".  No request carries a digest. */
  function ClaimedDigest(deployed: Deployed): Option<string> {
    match deployed
    case ByRollback(r) => if r.finalState == RolledBack then Some(r.artifactDigest) else None
    case ByApply(a) =>
      if a.finalState == Applied then Some(a.apply.activatedDigest)
      else if a.finalState == RolledBack then Some(a.rollbackArtifactDigest)
      else None
    case ByLifecycle(_) => None
  }

  /** What `Reported` reads of the adapter's result. */
  lemma ReportedFromResult(deployed: Outcome<Deployed>)
    ensures Reported(deployed) == "rolled_back" <==>
              && deployed.Returned?
              && match deployed.value
                 case ByRollback(r) => r.finalState == RolledBack
                 case ByApply(a) => a.finalState == RolledBack
                 case ByLifecycle(l) => l.accepted
    ensures Reported(deployed) == "failed" <==>
              || deployed.Raised?
              || match deployed.value
                 case ByRollback(r) => r.finalState == Failed
                 case ByApply(a) => a.finalState == Failed
                 case ByLifecycle(l) => !l.accepted
    ensures Reported(deployed) == "rollback_unverified" <==>
              && deployed.Returned?
              && match deployed.value
                 case ByRollback(r) => r.finalState == RollbackUnverified
                 case ByApply(a) => a.finalState == RollbackUnverified
                 case ByLifecycle(_) => false
    ensures Reported(deployed) == "applied" <==>
              && deployed.Returned?
              && match deployed.value
                 case ByRollback(r) => r.finalState == Applied
                 case ByApply(a) => a.finalState == Applied
                 case ByLifecycle(_) => false
    ensures Reported(deployed) in {"rolled_back", "failed", "rollback_unverified", "applied", "unknown"}
  {
  }

  lemma DeployByAction(sha: Json -> string, m: Manifest, h: History, action: Action, digest: string,
                       remote: Remote, next: nat)
    ensures var run := DeployRun(sha, m, h, action, digest, remote, next);
            match action
            case RollbackArtifact =>
              var rollback := RollbackRun(sha, m, h, remote, next);
              && run.requests == rollback.requests
              && run.result == (if rollback.result.Raised? then Raised else Returned(ByRollback(rollback.result.value)))
            case ApplyArtifact =>
              var apply := ApplyDeployRun(sha, m, h, digest, remote, next);
              && run.requests == apply.requests
              && run.result == (if apply.result.Raised? then Raised else Returned(ByApply(apply.result.value)))
            case _ =>
              var lifecycle := Lifecycle.LifecycleRun(m, action, remote, next);
              && run.requests == lifecycle.requests
              && run.result == if lifecycle.result.Raised? then Raised else Returned(ByLifecycle(lifecycle.result.value))
  {
    hide RollbackRun, ApplyDeployRun, Lifecycle.LifecycleRun;
  }

  /** An apply that returned without success, after which a configured rollback went through. */
  ghost predicate FailedThenRolledBack(sha: Json -> string, m: Manifest, h: History, digest: string,
                                       remote: Remote, next: nat)
  {
    var apply := ApplyRun(m, digest, remote, next);
    && apply.result.Returned? && !ApplySucceeds(m, digest, remote, next)
    && m.rollback.rollbackOnApplyFailure && m.rollback.previousArtifactDigest != ""
    && FullyRolledBack(sha, m, h, remote, next + |apply.requests|)
  }

  lemma FailedThenRolledBackIff(sha: Json -> string, m: Manifest, h: History, digest: string, remote: Remote, next: nat)
    ensures var deploy := ApplyDeployRun(sha, m, h, digest, remote, next);
            var apply := ApplyRun(m, digest, remote, next);
            && (deploy.result.Returned? && deploy.result.value.finalState == RolledBack
                <==> FailedThenRolledBack(sha, m, h, digest, remote, next))
            && (FailedThenRolledBack(sha, m, h, digest, remote, next) ==>
                  deploy.requests == apply.requests + RollbackRun(sha, m, h, remote, next + |apply.requests|).requests)
  {
    hide ApplyRun, RollbackRun, ApplySucceeds, FullyRolledBack;
    var apply := ApplyRun(m, digest, remote, next);
    ApplyAcceptedIff(m, digest, remote, next);
    RolledBackExactly(sha, m, h, remote, next + |apply.requests|);
  }

  /** A remediation reports "rolled_back" if and only if, by what the replies say,
      - the adapter was told to roll back, and that went through;
      - or it was told to apply, which failed, and the rollback after it went through;
      - or it was told to start, stop or reboot, and that was a permitted no-op or is confirmed
        by the replies. */
  lemma RolledBackReportedIff(sha: Json -> string, m: Manifest, h: History, action: Action, digest: string,
                              remote: Remote, next: nat)
    ensures var run := DeployRun(sha, m, h, action, digest, remote, next);
            Reported(run.result) == "rolled_back" <==>
              match action
              case RollbackArtifact => FullyRolledBack(sha, m, h, remote, next)
              case ApplyArtifact => FailedThenRolledBack(sha, m, h, digest, remote, next)
              case _ =>
                LifecycleTheorems.AcceptedByReplies(m, action, remote, next, run.requests)
  {
    hide *;
    var run := DeployRun(sha, m, h, action, digest, remote, next);
    DeployByAction(sha, m, h, action, digest, remote, next);
    ReportedFromResult(run.result);
    match action
    case RollbackArtifact => RolledBackExactly(sha, m, h, remote, next);
    case ApplyArtifact => FailedThenRolledBackIff(sha, m, h, digest, remote, next);
    case _ =>
      LifecycleTheorems.AcceptedIff(m, action, remote, next);
      AcceptedMeans(Lifecycle.LifecycleRun(m, action, remote, next));
  }

  lemma AcceptedMeans(run: Run<Lifecycle.Receipt>)
    ensures LifecycleTheorems.Accepted(run) <==> run.result.Returned? && run.result.value.accepted
  {
  }

  /** A PUT at k that was answered well, and read back as expected where that is required. */
  ghost predicate PutTookEffect(m: Manifest, remote: Remote, next: nat, trace: seq<Request>, k: nat) {
    var checked := k + 1 + |TaskPollsOf(m.limits, remote, next + k)|;
    && k < |trace| && trace[k] == PutConfig
    && WriteSucceeded(m.limits, remote, next + k)
    && (m.rollback.requireRollbackVerification ==>
          && checked < |trace| && trace[checked] == GetStatus
          && ReadsAs(m.apply.expectedServiceState, remote.reply[next + checked]))
  }

  /** What a report of "rolled_back" is worth.  It is true, in that a configuration was written,
      the write and any task it started succeeded and the required read-back matched, if and
      only if the adapter's action is neither start, stop nor reboot; for those three nothing
      was written at all. */
  lemma ReportIsTrueIff(sha: Json -> string, m: Manifest, h: History, action: Action, digest: string,
                        remote: Remote, next: nat)
    requires Reported(DeployRun(sha, m, h, action, digest, remote, next).result) == "rolled_back"
    ensures var trace := DeployRun(sha, m, h, action, digest, remote, next).requests;
            && (PutConfig in trace <==> action !in {Start, Stop, Reboot})
            && ((exists k: nat :: PutTookEffect(m, remote, next, trace, k)) <==> action !in {Start, Stop, Reboot})
  {
    hide *;
    var trace := DeployRun(sha, m, h, action, digest, remote, next).requests;
    RolledBackReportedIff(sha, m, h, action, digest, remote, next);
    DeployByAction(sha, m, h, action, digest, remote, next);
    match action
    case RollbackArtifact =>
      EffectiveRollback(sha, m, h, remote, next, next, []);
      assert [] + RollbackRun(sha, m, h, remote, next).requests == trace;
      EffectIsWritten(m, remote, next, trace, 0);
    case ApplyArtifact =>
      var apply := ApplyRun(m, digest, remote, next);
      FailedThenRolledBackIff(sha, m, h, digest, remote, next);
      FailedMeans(sha, m, h, digest, remote, next);
      EffectiveRollback(sha, m, h, remote, next, next + |apply.requests|, apply.requests);
      EffectIsWritten(m, remote, next, trace, |apply.requests|);
    case _ =>
      LifecycleRollsNothingBack(sha, m, h, action, digest, remote, next);
      forall k: nat | PutTookEffect(m, remote, next, trace, k) ensures false {
        EffectIsWritten(m, remote, next, trace, k);
      }
  }

  lemma FailedMeans(sha: Json -> string, m: Manifest, h: History, digest: string, remote: Remote, next: nat)
    requires FailedThenRolledBack(sha, m, h, digest, remote, next)
    ensures FullyRolledBack(sha, m, h, remote, next + |ApplyRun(m, digest, remote, next).requests|)
  {
    hide ApplyRun, ApplySucceeds, FullyRolledBack;
  }

  lemma EffectIsWritten(m: Manifest, remote: Remote, next: nat, trace: seq<Request>, k: nat)
    requires PutTookEffect(m, remote, next, trace, k)
    ensures PutConfig in trace
  {
    hide WriteSucceeded, TaskPollsOf, ReadsAs;
  }

  /** A rollback that went through, after `before` was sent: its PUT took effect. */
  lemma EffectiveRollback(sha: Json -> string, m: Manifest, h: History, remote: Remote, next: nat, put: nat,
                          before: seq<Request>)
    requires put == next + |before| && FullyRolledBack(sha, m, h, remote, put)
    ensures var trace := before + RollbackRun(sha, m, h, remote, put).requests;
            PutTookEffect(m, remote, next, trace, |before|)
  {
    RolledBackExactly(sha, m, h, remote, put);
    hide RollbackRun, WriteSucceeded, TaskPollsOf, ReadsAs, MayWrite;
    assert put + 1 + |TaskPollsOf(m.limits, remote, put)| == next + (|before| + 1 + |TaskPollsOf(m.limits, remote, put)|);
  }

  /** A start, stop or reboot writes no configuration, and is reported as "rolled_back" exactly
      when it is accepted. */
  lemma LifecycleRollsNothingBack(sha: Json -> string, m: Manifest, h: History, action: Action, digest: string,
                                  remote: Remote, next: nat)
    requires action in {Start, Stop, Reboot}
    ensures var run := DeployRun(sha, m, h, action, digest, remote, next);
            && PutConfig !in run.requests && PostAction(ApplyArtifact) !in run.requests
            && (Reported(run.result) == "rolled_back" <==>
                  LifecycleTheorems.Accepted(Lifecycle.LifecycleRun(m, action, remote, next)))
  {
    hide Lifecycle.LifecycleRun, LifecycleTheorems.Safe;
    LifecycleTheorems.TraceSafety(m, action, remote, next);
    OnlyOwnAction(m.limits, action, remote, next, Lifecycle.LifecycleRun(m, action, remote, next).requests);
  }

  lemma OnlyOwnAction(limits: Limits, action: Action, remote: Remote, next: nat, trace: seq<Request>)
    requires LifecycleTheorems.Safe(limits, action, remote, next, trace)
    ensures forall r :: r in trace && LifecycleTheorems.IsWrite(r) ==> r == PostAction(action)
  {
    forall r | r in trace && LifecycleTheorems.IsWrite(r) ensures r == PostAction(action) {
      var k: nat :| k < |trace| && trace[k] == r;
    }
  }

  /** Such a report: the target is running already, which the manifest takes for the state it
      wants, so a start sends nothing but the status request and is accepted. */
  lemma NoopIsReportedAsRollback(sha: Json -> string, m: Manifest, h: History, digest: string, remote: Remote, next: nat)
    returns (lax: Manifest, running: Remote)
    ensures var run := DeployRun(sha, lax, h, Start, digest, running, next);
            run.requests == [GetStatus] && Reported(run.result) == "rolled_back"
  {
    lax := m.(lifecycle := m.lifecycle.(requireConfirmedTargetStatus := false, expectedPostState := "running",
                                        allowNoopIfAlreadyDesired := true));
    var data := map["status" := Str("running")];
    var status := Response(200, Obj(map["data" := Obj(data)]));
    assert "status" in data && data != map[];
    assert DataOf(status) == Returned(Obj(data)) && Obj(data).Truthy();
    running := remote.(reply := remote.reply[next := status]);
    assert StatusField(status) == Returned(Str("running"));
  }

  /** The two receipts agree on the digest if and only if the adapter was told to apply, and
      that succeeded, or its manifest, once the release history has resolved it, names the
      digest that remediation selected. */
  lemma ReceiptsAgreeIff(sha: Json -> string, m: Manifest, h: History, action: Action, selected: string,
                         remote: Remote, next: nat)
    requires DeployRun(sha, m, h, action, selected, remote, next).result.Returned?
    requires ClaimedDigest(DeployRun(sha, m, h, action, selected, remote, next).result.value).Some?
    ensures ClaimedDigest(DeployRun(sha, m, h, action, selected, remote, next).result.value) == Some(selected) <==>
              || (action == ApplyArtifact && ApplySucceeds(m, selected, remote, next))
              || AsFound(m.rollback, h).previousArtifactDigest == selected
  {
    hide ApplyRun, Followed, RollbackRun, ApplySucceeds;
    match action
    case RollbackArtifact =>
      RolledBackDigest(sha, m, h, remote, next);
    case ApplyArtifact =>
      var apply := ApplyRun(m, selected, remote, next);
      ApplyAcceptedIff(m, selected, remote, next);
      DeployFinalState(sha, m, h, selected, remote, next);
      FollowedDigest(m.rollback, apply, RollbackRun(sha, m, h, remote, next + |apply.requests|));
      RolledBackDigest(sha, m, h, remote, next + |apply.requests|);
    case _ =>
  }

  /** Where they disagree: remediation names one release, the manifest another, and the rollback
      succeeds all the same. */
  lemma AnotherReleaseIsRolledBackTo(sha: Json -> string, m: Manifest, h: History, remote: Remote, next: nat)
    returns (other: Manifest, willing: Remote)
    ensures var result := DeployRun(sha, other, h, RollbackArtifact, "named", willing, next).result;
            && Reported(result) == "rolled_back"
            && result.Returned? && ClaimedDigest(result.value) == Some("another")
  {
    other := m.(rollback := m.rollback.(previousArtifactDigest := "another", resolveReleaseBy := NoResolution,
                                        requirePreviousReceiptVerified := false, requirePreviousAssuranceChain := false,
                                        requireRollbackVerification := false));
    var done := Response(200, Obj(map[]));
    willing := remote.(reply := remote.reply[next := done]);
    assert UpidText(done) == Returned(Null);
    assert WriteEffect(other.limits, willing, next) == Returned(Effect(true, Null, Str("")));
  }

  /** A rollback that succeeded claims the digest that its manifest, once resolved, names. */
  lemma RolledBackDigest(sha: Json -> string, m: Manifest, h: History, remote: Remote, next: nat)
    ensures var result := RollbackRun(sha, m, h, remote, next).result;
            result.Returned? && result.value.finalState == RolledBack ==>
              result.value.artifactDigest == AsFound(m.rollback, h).previousArtifactDigest
  {
    hide RollbackRun, AsFound, HistoryAllows, WriteSucceeded, TaskPollsOf, ReadsAs, GatesPassed;
    if RollbackRun(sha, m, h, remote, next).result.Returned? {
      RolledBackIff(sha, m, h, remote, next);
      ReceiptNamesTarget(sha, m, h, remote, next);
    }
  }

  lemma FollowedDigest(p: RollbackPolicy, apply: Run<ApplyReceipt>, rollback: Run<RollbackReceipt>)
    ensures var result := Followed(p, apply, rollback).result;
            result.Returned? && result.value.rollbackAttempted ==>
              rollback.result.Returned? && result.value.rollbackArtifactDigest == rollback.result.value.artifactDigest
  {
  }
}
