/** `ProxmoxApiAdapter`: the methods that talk to the remote, each proved to send exactly the
    requests of its run and to end as that run does. */
module Adapter {
  import opened Wire
  import opened TaskPolling
  import opened Manifest
  import Lifecycle
  import opened RollbackGates
  import opened ApplyRollback
  import opened Wrappers

  class ProxmoxApiAdapter {
    const session: Session
    const sha: Json -> string
    const history: History
    var manifest: Manifest

    constructor (manifest: Manifest, session: Session, sha: Json -> string, history: History)
      ensures this.manifest == manifest && this.session == session
      ensures this.sha == sha && this.history == history
    {
      this.manifest := manifest;
      this.session := session;
      this.sha := sha;
      this.history := history;
    }

    // ----- start, stop, reboot

    /** `_capture_boot_evidence` */
    method CaptureBootEvidence() returns (evidence: Outcome<Lifecycle.BootEvidence>)
      modifies session
      ensures var run := Lifecycle.CaptureBoot(manifest.lifecycle, session.remote, |old(session.trace)|);
              session.trace == old(session.trace) + run.requests && evidence == run.result
    {
      var r := session.Send(GetStatus);
      var data :- DataOf(r);
      if !data.Truthy() {
        return Returned(Lifecycle.NO_EVIDENCE);
      }
      if !data.Obj? {
        return Raised;
      }
      var bootId := "";
      if manifest.lifecycle.asksGuestAgent {
        var answer := session.Send(GetBootId);
        bootId := Lifecycle.BootIdFrom(session.remote, answer);
      }
      evidence := Returned(Lifecycle.BootEvidence(Lifecycle.Uptime(data), bootId, bootId != ""));
    }

    /** Boot evidence around the mutation, for a reboot only. */
    method BootAround(action: Action) returns (evidence: Outcome<Lifecycle.BootEvidence>)
      modifies session
      ensures var run := Lifecycle.BootAround(manifest.lifecycle, action, session.remote, |old(session.trace)|);
              session.trace == old(session.trace) + run.requests && evidence == run.result
    {
      evidence := Returned(Lifecycle.NO_EVIDENCE);
      if action == Reboot {
        evidence := CaptureBootEvidence();
      }
    }

    /** The flags of a receipt, set step by step from the evidence. */
    method Judge(action: Action, pre: Json, upid: Json, report: PollReport, post: Json,
                 before: Lifecycle.BootEvidence, after: Lifecycle.BootEvidence)
      returns (receipt: Lifecycle.Receipt)
      ensures receipt == Lifecycle.Verdict(manifest.lifecycle, action, pre, upid, report, post, before, after)
    {
      var m := manifest.lifecycle;
      var taskSuccess := report.status == STOPPED && (!m.requireTaskSuccess || report.exitstatus == OK);
      if m.requireTaskSuccess && report.timedOut {
        taskSuccess := false;
      }

      var transition := false;
      if m.expectedPostState != "" && post == Str(m.expectedPostState) {
        transition := true;
      } else if m.expectedPostState == "" {
        transition := true;
      }

      var bootIdentityChanged, uptimeReset, bootIdChanged, uptimeFallbackUsed := false, false, false, false;
      if action == Reboot {
        if before.uptime > 0.0 && after.uptime >= 0.0 && after.uptime < before.uptime {
          uptimeReset := true;
        }
        if before.bootIdAvailable && after.bootIdAvailable {
          if before.bootId != "" && after.bootId != "" && before.bootId != after.bootId {
            bootIdChanged, bootIdentityChanged := true, true;
          }
        } else if uptimeReset {
          bootIdentityChanged := true;
          if !before.bootIdAvailable {
            uptimeFallbackUsed := true;
          }
        }
      }

      var overall := taskSuccess && (m.expectedPostState == "" || transition);
      if action == Reboot && overall {
        if m.requireBootIdChange {
          if !before.bootIdAvailable {
            if !m.allowUptimeOnlyFallback {
              overall := false;
            } else if !uptimeReset {
              overall := false;
            }
          } else if !bootIdChanged {
            overall := false;
          }
        }
        if m.requireUptimeReset && !uptimeReset {
          overall := false;
        }
      }
      receipt := Lifecycle.Receipt(
        overall, false, pre, post, transition, upid, report.polls, taskSuccess,
        bootIdentityChanged, bootIdChanged, uptimeReset, uptimeFallbackUsed);
    }

    /** From the first poll of a started task to the receipt. */
    method FollowTask(action: Action, pre: Json, upid: Json, before: Lifecycle.BootEvidence)
      returns (receipt: Outcome<Lifecycle.Receipt>)
      modifies session
      ensures var first := |old(session.trace)|;
              && session.trace == old(session.trace) + Poll(manifest.limits, session.remote, upid, first).requests
                                  + Lifecycle.AfterPolls(manifest, action, session.remote, first, upid)
              && receipt == Lifecycle.TaskResult(manifest, action, session.remote, first, pre, upid, before)
    {
      hide *;
      ghost var first, remote := |session.trace|, session.remote;
      TaskSteps(manifest, action, remote, first, pre, upid, before);
      var report := PollTask(session, manifest.limits, upid);
      if report.Raised? {
        return Raised;
      }
      var r := session.Send(GetStatus);
      var post := StatusField(r);
      if post.Raised? {
        return Raised;
      }
      var after := BootAround(action);
      if after.Raised? || !Sliceable(upid) {
        return Raised;
      }
      var judged := Judge(action, pre, upid, report.value, post.value, before, after.value);
      receipt := Returned(judged);
    }

    /** The POST and what follows, once the status was read and the pre-state allows it. */
    method Mutate(action: Action, ghost next: nat, pre: Json) returns (receipt: Outcome<Lifecycle.Receipt>)
      requires |session.trace| == next + 1 && session.trace[next] == GetStatus
      modifies session
      ensures session.trace == old(session.trace)[..next] + Lifecycle.MutationTrace(manifest, action, session.remote, next)
      ensures receipt == Lifecycle.MutationResult(manifest, action, session.remote, next, pre)
    {
      hide *;
      ghost var remote := session.remote;
      MutationSteps(manifest, action, remote, next, pre);
      var before := BootAround(action);
      if before.Raised? {
        return Raised;
      }
      var r := session.Send(PostAction(action));
      var upid := Lifecycle.UpidOf(r);
      if upid.Raised? {
        return Raised;
      }
      if upid.value.Truthy() {
        receipt := FollowTask(action, pre, upid.value, before.value);
      } else if Sliceable(upid.value) {
        receipt := Returned(Lifecycle.FailedReceipt(pre, upid.value));
      } else {
        receipt := Raised;
      }
    }

    /** `deploy` for start, stop and reboot */
    method DeployLifecycle(action: Action) returns (receipt: Outcome<Lifecycle.Receipt>)
      modifies session
      ensures var run := Lifecycle.LifecycleRun(manifest, action, session.remote, |old(session.trace)|);
              session.trace == old(session.trace) + run.requests && receipt == run.result
    {
      hide Lifecycle.MutationTrace, Lifecycle.MutationResult, StatusField;
      var m := manifest.lifecycle;
      ghost var next := |session.trace|;
      var r := session.Send(GetStatus);
      var pre :- StatusField(r);
      if m.requireConfirmedTargetStatus {
        if m.expectedPreState != "" && pre != Str(m.expectedPreState) {
          return Returned(Lifecycle.RefusedReceipt(pre, Str("")));
        }
      }
      var noOp := false;
      if m.expectedPostState != "" && pre == Str(m.expectedPostState) && action != Reboot {
        if m.allowNoopIfAlreadyDesired {
          noOp := true;
        } else if m.idempotency.AllowNoop? {
          noOp := true;
        } else if m.idempotency.RejectNoop? {
          return Returned(Lifecycle.RefusedReceipt(pre, pre));
        }
      }
      if noOp {
        return Returned(Lifecycle.NoopReceipt(pre));
      }
      receipt := Mutate(action, next, pre);
    }

    // ----- apply_artifact and rollback_artifact

    /** A write, and polling of the task it starts if its answer names one. */
    method Write(request: Request) returns (effect: Outcome<Effect>)
      modifies session
      ensures session.trace
              == old(session.trace) + [request] + TaskPollsOf(manifest.limits, session.remote, |old(session.trace)|)
      ensures effect == WriteEffect(manifest.limits, session.remote, |old(session.trace)|)
    {
      hide *;
      WriteSteps(manifest.limits, session.remote, |session.trace|);
      var r := session.Send(request);
      var succeeded := r.code == 200;
      var upid := UpidText(r);
      if upid.Raised? {
        return Raised;
      }
      var exitstatus := Str("");
      if !upid.value.Null? {
        var report := PollTask(session, manifest.limits, upid.value);
        if report.Raised? {
          return Raised;
        }
        exitstatus := report.value.exitstatus;
        if report.value.status != STOPPED {
          succeeded := false;
        } else if exitstatus != OK {
          succeeded := false;
        }
      }
      effect := Returned(Effect(succeeded, upid.value, exitstatus));
    }

    /** Take the rollback target, and the prior receipt if none is configured, from a release. */
    method AdoptRelease(release: Release)
      modifies this
      ensures manifest == old(manifest).(rollback := Adopt(old(manifest).rollback, release))
    {
      var p := manifest.rollback;
      var digest, receipt := p.previousArtifactDigest, p.previousDeploymentReceipt;
      if release.artifactDigest != "" {
        digest := release.artifactDigest;
      }
      if !receipt.Truthy() && release.storedReceipt.Some? {
        receipt := release.storedReceipt.value;
      }
      manifest := manifest.(rollback := p.(previousArtifactDigest := digest, previousDeploymentReceipt := receipt));
    }

    /** Resolve the rollback target from the release history; this overwrites fields of the
        adapter's manifest. */
    method ResolveRelease() returns (refused: Option<RefusedBecause>)
      modifies this
      ensures var resolution := Resolve(old(manifest).rollback, history);
              manifest == old(manifest).(rollback := resolution.policy) && refused == resolution.refused
    {
      hide Adopt;
      refused := None;
      var p := manifest.rollback;
      if p.resolveReleaseBy.NoResolution? {
        return;
      }
      if p.requireRetentionVerification && !history.integrityValid {
        return Some(HistoryMalformed);
      }
      if p.requireReleaseHistorySnapshot && p.releaseHistorySnapshotPath != "" {
        if !history.snapshotValid {
          return Some(SnapshotInvalid);
        }
      }
      if !p.resolveReleaseBy.UnknownResolver? && history.found.Some? {
        AdoptRelease(history.found.value);
        if p.requireRetentionVerification && !history.retentionValid {
          return Some(RetentionFailed);
        }
      } else if p.requirePreviousReceiptVerified {
        return Some(ReleaseNotFound);
      }
    }

    /** `_handle_rollback_artifact` */
    method HandleRollback() returns (receipt: Outcome<RollbackReceipt>)
      modifies this, session
      ensures var run := RollbackRun(sha, old(manifest), history, session.remote, |old(session.trace)|);
              session.trace == old(session.trace) + run.requests && receipt == run.result
      ensures manifest == old(manifest).(rollback := Resolve(old(manifest).rollback, history).policy)
    {
      hide *;
      RollbackSteps(sha, manifest, history, session.remote, |session.trace|);
      var refused := ResolveRelease();
      if refused.Some? {
        return Returned(Refusal(RefusalDigest(refused.value, history), false, NotChecked, ChainNotChecked));
      }
      var p := manifest.rollback;
      GateSteps(sha, p);
      if p.previousArtifactDigest == "" {
        return Returned(Refusal("", false, NotChecked, ChainNotChecked));
      }
      var traced := VerifyProvenance(sha, p, p.previousArtifactDigest);
      if traced.Raised? {
        return Raised;
      }
      var provenance := traced.value;
      var chain := VerifyChain(p, provenance);
      if chain.Raised? {
        return Raised;
      }
      if !provenance.verified && p.requirePreviousReceiptVerified {
        return Returned(Refusal(p.previousArtifactDigest, false, provenance.status, chain.value.status));
      }
      if !chain.value.verified && p.requirePreviousAssuranceChain {
        return Returned(Refusal(p.previousArtifactDigest, true, ProvenanceVerified, chain.value.status));
      }

      var effect := Write(PutConfig);
      if effect.Raised? {
        return Raised;
      }
      if !effect.value.succeeded {
        return Returned(RollbackReceipt(
          false, RollbackFailed, p.previousArtifactDigest, false, UnknownState, provenance.verified,
          provenance.verified, provenance.status, chain.value.verified, chain.value.status));
      }
      var verified := true;
      if p.requireRollbackVerification {
        var r := session.Send(GetStatus);
        verified := ServiceReads(manifest.apply.expectedServiceState, r);
      }
      receipt := Returned(RollbackReceipt(
        verified, if verified then Succeeded else VerificationFailed, p.previousArtifactDigest, verified,
        if verified then RolledBack else RollbackUnverified, provenance.verified,
        if p.requirePreviousAssuranceChain then chain.value.verified else provenance.verified,
        provenance.status, chain.value.verified, chain.value.status));
    }

    /** `_handle_apply_artifact` */
    method HandleApply(digest: string) returns (receipt: Outcome<ApplyReceipt>)
      modifies session
      ensures var run := ApplyRun(manifest, digest, session.remote, |old(session.trace)|);
              session.trace == old(session.trace) + run.requests && receipt == run.result
    {
      hide *;
      var a := manifest.apply;
      ApplySteps(manifest, digest, session.remote, |session.trace|);
      if a.requirePromotedArtifact && digest == "" {
        return Returned(ApplyRefused(PromotedArtifactMissing));
      }
      var stored := session.Send(GetStorageContent);
      if a.requirePromotedArtifact && stored.code != 200 {
        return Returned(ApplyRefused(PromotedArtifactMissing));
      }
      var allowed := TargetIsAllowed();
      if !allowed {
        return Returned(ApplyRefused(TargetNotAllowed));
      }
      var status := session.Send(GetStatus);
      var pre := StatusFieldOrUnknown(status);
      var effect := Write(PostAction(ApplyArtifact));
      if effect.Raised? {
        return Raised;
      }
      if !effect.value.succeeded {
        return Returned(ApplyReceipt(false, ApplyFailed, "", false, pre, Str("")));
      }
      var readBack := session.Send(GetStatus);
      var post := StatusFieldOrUnknown(readBack);
      var verified := true;
      if a.expectedServiceState != "" {
        if post != Str(a.expectedServiceState) {
          verified := false;
        }
      }
      receipt := Returned(ApplyReceipt(
        verified, if verified then NoFailure else ServiceStateMismatch, digest, verified, pre, post));
    }

    /** `any(...)` over the allowed apply targets */
    method TargetIsAllowed() returns (allowed: bool)
      ensures allowed == TargetAllowed(manifest.apply)
    {
      var a := manifest.apply;
      if a.allowedApplyTargets == [] || a.finalPath == "" {
        return true;
      }
      allowed := false;
      for k := 0 to |a.allowedApplyTargets|
        invariant !allowed
        invariant forall j :: 0 <= j < k ==>
                    a.finalPath != a.allowedApplyTargets[j] && !(StripSlashes(a.allowedApplyTargets[j]) <= a.finalPath)
      {
        var t := a.allowedApplyTargets[k];
        if a.finalPath == t || StripSlashes(t) <= a.finalPath {
          return true;
        }
      }
    }

    /** `deploy` for apply_artifact */
    method DeployApply(digest: string) returns (receipt: Outcome<DeployReceipt>)
      modifies this, session
      ensures var run := ApplyDeployRun(sha, old(manifest), history, digest, session.remote, |old(session.trace)|);
              session.trace == old(session.trace) + run.requests && receipt == run.result
    {
      hide ApplyRun, RollbackRun;
      var apply := HandleApply(digest);
      if apply.Raised? {
        return Raised;
      }
      if !apply.value.accepted && manifest.rollback.rollbackOnApplyFailure && manifest.rollback.previousArtifactDigest != "" {
        var rollback := HandleRollback();
        if rollback.Raised? {
          return Raised;
        }
        return Returned(DeployReceipt(apply.value, true, rollback.value.status, rollback.value.artifactDigest,
                                      rollback.value.verified, rollback.value.finalState));
      }
      receipt := Returned(DeployReceipt(apply.value, false, NotAttempted, "", false,
                                        if apply.value.accepted then Applied else Failed));
    }
  }

  // ----- the definitions of a run, one step at a time

  lemma TaskSteps(m: Manifest, action: Action, remote: Remote, first: nat, pre: Json, upid: Json,
                  before: Lifecycle.BootEvidence)
    ensures var poll := Poll(m.limits, remote, upid, first);
            var checked := first + |poll.requests|;
            var post := StatusField(remote.reply[checked]);
            var after := Lifecycle.BootAround(m.lifecycle, action, remote, checked + 1);
            && Lifecycle.AfterPolls(m, action, remote, first, upid)
               == (if poll.result.Raised? then [] else if post.Raised? then [GetStatus] else [GetStatus] + after.requests)
            && Lifecycle.TaskResult(m, action, remote, first, pre, upid, before)
               == (if poll.result.Raised? || post.Raised? || after.result.Raised? || !Sliceable(upid) then Raised
                   else Returned(Lifecycle.Verdict(m.lifecycle, action, pre, upid, poll.result.value, post.value, before, after.result.value)))
  {
  }

  lemma MutationSteps(m: Manifest, action: Action, remote: Remote, next: nat, pre: Json)
    ensures var before := Lifecycle.BootAround(m.lifecycle, action, remote, next + 1);
            var posted := next + 1 + |before.requests|;
            var upid := Lifecycle.UpidOf(remote.reply[posted]);
            var trace := Lifecycle.MutationTrace(m, action, remote, next);
            var result := Lifecycle.MutationResult(m, action, remote, next, pre);
            if before.result.Raised? then trace == [GetStatus] + before.requests && result == Raised
            else if upid.Raised? then trace == [GetStatus] + before.requests + [PostAction(action)] && result == Raised
            else if !upid.value.Truthy() then
              && trace == [GetStatus] + before.requests + [PostAction(action)]
              && result == if Sliceable(upid.value) then Returned(Lifecycle.FailedReceipt(pre, upid.value)) else Raised
            else
              && trace == [GetStatus] + before.requests + [PostAction(action)]
                          + Poll(m.limits, remote, upid.value, posted + 1).requests
                          + Lifecycle.AfterPolls(m, action, remote, posted + 1, upid.value)
              && result == Lifecycle.TaskResult(m, action, remote, posted + 1, pre, upid.value, before.result.value)
  {
    hide Lifecycle.BootAround, Lifecycle.UpidOf, Poll, Lifecycle.AfterPolls, Lifecycle.TaskResult, Sliceable;
  }

  lemma WriteSteps(limits: Limits, remote: Remote, written: nat)
    ensures var r := remote.reply[written];
            var upid := UpidText(r);
            var polls := TaskPollsOf(limits, remote, written);
            var effect := WriteEffect(limits, remote, written);
            if upid.Raised? then polls == [] && effect == Raised
            else if upid.value.Null? then polls == [] && effect == Returned(Effect(r.code == 200, Null, Str("")))
            else
              var poll := Poll(limits, remote, upid.value, written + 1);
              && r.code == 200
              && polls == poll.requests
              && effect ==
                 if poll.result.Raised? then Raised
                 else
                   var report := poll.result.value;
                   Returned(Effect(report.status == STOPPED && report.exitstatus == OK, upid.value, report.exitstatus))
  {
  }

  lemma RollbackSteps(sha: Json -> string, m: Manifest, h: History, remote: Remote, next: nat)
    ensures var resolution := Resolve(m.rollback, h);
            var p := resolution.policy;
            var run := RollbackRun(sha, m, h, remote, next);
            var gate := Gate(sha, p);
            if resolution.refused.Some? then
              run == Run([], Returned(Refusal(RefusalDigest(resolution.refused.value, h), false, NotChecked, ChainNotChecked)))
            else if gate.Raised? then run == Run([], Raised)
            else if gate.value.Some? then run == Run([], Returned(gate.value.value))
            else
              var effect := WriteEffect(m.limits, remote, next);
              var put := [PutConfig] + TaskPollsOf(m.limits, remote, next);
              if effect.Raised? then run == Run(put, Raised)
              else if !effect.value.succeeded then run == Run(put, AfterPut(sha, p, false, true))
              else if !p.requireRollbackVerification then run == Run(put, AfterPut(sha, p, true, true))
              else
                run == Run(put + [GetStatus],
                           AfterPut(sha, p, true, ServiceReads(m.apply.expectedServiceState, remote.reply[next + |put|])))
  {
    hide VerifyProvenance, VerifyChain, WriteEffect, TaskPollsOf, ServiceReads, Resolve, Gate;
    var p := Resolve(m.rollback, h).policy;
    var effect := WriteEffect(m.limits, remote, next);
    if effect.Returned? && !effect.value.succeeded {
      assert AfterPut(sha, p, false, true) == AfterPut(sha, p, false, false);
    }
  }

  lemma GateSteps(sha: Json -> string, p: RollbackPolicy)
    ensures var target := p.previousArtifactDigest;
            var traced := VerifyProvenance(sha, p, target);
            if target == "" then Gate(sha, p) == Returned(Some(Refusal("", false, NotChecked, ChainNotChecked)))
            else if traced.Raised? then Gate(sha, p) == Raised
            else
              var provenance := traced.value;
              var chain := VerifyChain(p, provenance);
              Gate(sha, p) ==
                if chain.Raised? then Raised
                else if !provenance.verified && p.requirePreviousReceiptVerified then
                  Returned(Some(Refusal(target, false, provenance.status, chain.value.status)))
                else if !chain.value.verified && p.requirePreviousAssuranceChain then
                  Returned(Some(Refusal(target, true, ProvenanceVerified, chain.value.status)))
                else Returned(None)
    ensures var target := p.previousArtifactDigest;
            var traced := VerifyProvenance(sha, p, target);
            traced.Returned? ==>
              var provenance := traced.value;
              var chain := VerifyChain(p, provenance);
              chain.Returned? ==>
                && AfterPut(sha, p, false, true) == Returned(RollbackReceipt(
                     false, RollbackFailed, target, false, UnknownState, provenance.verified, provenance.verified,
                     provenance.status, chain.value.verified, chain.value.status))
                && forall verified :: AfterPut(sha, p, true, verified) == Returned(RollbackReceipt(
                     verified, if verified then Succeeded else VerificationFailed, target, verified,
                     if verified then RolledBack else RollbackUnverified, provenance.verified,
                     if p.requirePreviousAssuranceChain then chain.value.verified else provenance.verified,
                     provenance.status, chain.value.verified, chain.value.status))
  {
  }

  lemma ApplySteps(m: Manifest, digest: string, remote: Remote, next: nat)
    ensures var run := ApplyRun(m, digest, remote, next);
            var pre := StatusFieldOrUnknown(remote.reply[next + 1]);
            var effect := WriteEffect(m.limits, remote, next + 2);
            var post := [GetStorageContent, GetStatus] + [PostAction(ApplyArtifact)] + TaskPollsOf(m.limits, remote, next + 2);
            if m.apply.requirePromotedArtifact && digest == "" then
              run == Run([], Returned(ApplyRefused(PromotedArtifactMissing)))
            else if m.apply.requirePromotedArtifact && remote.reply[next].code != 200 then
              run == Run([GetStorageContent], Returned(ApplyRefused(PromotedArtifactMissing)))
            else if !TargetAllowed(m.apply) then
              run == Run([GetStorageContent], Returned(ApplyRefused(TargetNotAllowed)))
            else if effect.Raised? then run == Run(post, Raised)
            else if !effect.value.succeeded then
              run == Run(post, Returned(ApplyReceipt(false, ApplyFailed, "", false, pre, Str(""))))
            else
              var read := StatusFieldOrUnknown(remote.reply[next + |post|]);
              var verified := m.apply.expectedServiceState == "" || read == Str(m.apply.expectedServiceState);
              run == Run(post + [GetStatus], Returned(ApplyReceipt(
                verified, if verified then NoFailure else ServiceStateMismatch, digest, verified, pre, read)))
  {
    hide WriteEffect, TaskPollsOf, TargetAllowed, StatusFieldOrUnknown;
    var post := PostTrace(m, remote, next + 2);
    assert [GetStorageContent, GetStatus] + post
        == [GetStorageContent, GetStatus] + [PostAction(ApplyArtifact)] + post[1..];
  }
}
