/** When a rollback writes to the target, what its receipt then says, and how apply and
    rollback fit together, over every remote and every release history. */
module RollbackTheorems {
  import opened Wire
  import opened TaskPolling
  import opened Manifest
  import opened Readings
  import opened RollbackGates
  import opened ApplyRollback
  import opened DeploymentReceipt
  import opened ReceiptDigests
  import opened Wrappers

  // ----- the release history

  /** A release is looked for and found, the history having passed the checks before that. */
  predicate Finds(p: RollbackPolicy, h: History) {
    && !p.resolveReleaseBy.NoResolution? && !p.resolveReleaseBy.UnknownResolver?
    && (p.requireRetentionVerification ==> h.integrityValid)
    && (p.requireReleaseHistorySnapshot && p.releaseHistorySnapshotPath != "" ==> h.snapshotValid)
    && h.found.Some?
  }

  /** Nothing about the history forbids a rollback: it is not consulted; or its integrity and
      snapshot are in order as far as that is required, and a release is found that passes
      retention as far as that is required, or none is found and receipts are not checked. */
  predicate HistoryAllows(p: RollbackPolicy, h: History) {
    || p.resolveReleaseBy.NoResolution?
    || (&& (p.requireRetentionVerification ==> h.integrityValid)
        && (p.requireReleaseHistorySnapshot && p.releaseHistorySnapshotPath != "" ==> h.snapshotValid)
        && (if Finds(p, h) then p.requireRetentionVerification ==> h.retentionValid
            else !p.requirePreviousReceiptVerified))
  }

  /** The digest of the release that is found, unless that is blank. */
  function FoundDigest(p: RollbackPolicy, h: History): string {
    if Finds(p, h) && h.found.value.artifactDigest != "" then h.found.value.artifactDigest
    else p.previousArtifactDigest
  }

  /** Its stored receipt, where none is configured. */
  function FoundReceipt(p: RollbackPolicy, h: History): Json {
    if Finds(p, h) && h.found.value.storedReceipt.Some? && Blank(p.previousDeploymentReceipt)
    then h.found.value.storedReceipt.value
    else p.previousDeploymentReceipt
  }

  /** The policy with the found release in it. */
  function AsFound(p: RollbackPolicy, h: History): RollbackPolicy {
    p.(previousArtifactDigest := FoundDigest(p, h), previousDeploymentReceipt := FoundReceipt(p, h))
  }

  /** Resolution refuses exactly when the history forbids the rollback, for the first reason
      there is, and leaves the policy with the found release in it, also when that is refused. */
  lemma ResolutionIff(p: RollbackPolicy, h: History)
    ensures var resolution := Resolve(p, h);
            && (resolution.refused.None? <==> HistoryAllows(p, h))
            && resolution.policy == AsFound(p, h)
            && (resolution.refused == Some(HistoryMalformed) <==>
                  !p.resolveReleaseBy.NoResolution? && p.requireRetentionVerification && !h.integrityValid)
            && (resolution.refused == Some(RetentionFailed) <==>
                  Finds(p, h) && p.requireRetentionVerification && !h.retentionValid)
            && (resolution.refused == Some(SnapshotInvalid) <==>
                  && !p.resolveReleaseBy.NoResolution? && (p.requireRetentionVerification ==> h.integrityValid)
                  && p.requireReleaseHistorySnapshot && p.releaseHistorySnapshotPath != "" && !h.snapshotValid)
  {
    hide Resolve, HistoryAllows, AsFound, Finds;
    RefusalIff(p, h);
    AdoptionIs(p, h);
  }

  lemma RefusalIff(p: RollbackPolicy, h: History)
    ensures var refused := Resolve(p, h).refused;
            && (refused.None? <==> HistoryAllows(p, h))
            && (refused == Some(HistoryMalformed) <==>
                  !p.resolveReleaseBy.NoResolution? && p.requireRetentionVerification && !h.integrityValid)
            && (refused == Some(RetentionFailed) <==>
                  Finds(p, h) && p.requireRetentionVerification && !h.retentionValid)
            && (refused == Some(SnapshotInvalid) <==>
                  && !p.resolveReleaseBy.NoResolution? && (p.requireRetentionVerification ==> h.integrityValid)
                  && p.requireReleaseHistorySnapshot && p.releaseHistorySnapshotPath != "" && !h.snapshotValid)
  {
    hide Adopt;
  }

  lemma AdoptionIs(p: RollbackPolicy, h: History)
    ensures Resolve(p, h).policy == AsFound(p, h)
  {
    if Finds(p, h) {
      TruthyIff(p.previousDeploymentReceipt);
      hide Blank;
      assert FoundDigest(p, h) == Adopt(p, h.found.value).previousArtifactDigest;
      assert FoundReceipt(p, h) == Adopt(p, h.found.value).previousDeploymentReceipt;
    } else {
      assert AsFound(p, h) == p;
    }
  }

  // ----- the gates

  /** A target is named, and the receipt and the chain are in order as far as that is required. */
  ghost predicate GatesPassed(sha: Json -> string, p: RollbackPolicy) {
    && p.previousArtifactDigest != ""
    && (p.requirePreviousReceiptVerified ==> ReceiptVouches(sha, p, p.previousArtifactDigest))
    && (p.requirePreviousAssuranceChain ==> ChainHolds(p))
  }

  /** Everything that must hold before a rollback may write. */
  ghost predicate GatesOpen(sha: Json -> string, resolution: Resolution) {
    resolution.refused.None? && GatesPassed(sha, resolution.policy)
  }

  /** The same by policy and history. */
  ghost predicate MayWrite(sha: Json -> string, p: RollbackPolicy, h: History) {
    HistoryAllows(p, h) && GatesPassed(sha, AsFound(p, h))
  }

  lemma MayWriteIff(sha: Json -> string, p: RollbackPolicy, h: History)
    ensures GatesOpen(sha, Resolve(p, h)) <==> MayWrite(sha, p, h)
  {
    hide Resolve, HistoryAllows, AsFound, GatesPassed;
    ResolutionIff(p, h);
  }

  lemma FoundKeepsFlags(p: RollbackPolicy, h: History)
    ensures var q := AsFound(p, h);
            && q.requirePreviousReceiptVerified == p.requirePreviousReceiptVerified
            && q.requirePreviousAssuranceChain == p.requirePreviousAssuranceChain
            && q.requireRollbackVerification == p.requireRollbackVerification
  {
    hide FoundDigest, FoundReceipt;
  }

  lemma GateIff(sha: Json -> string, p: RollbackPolicy)
    ensures Gate(sha, p) == Returned(None) <==> GatesOpen(sha, Resolution(p, None))
  {
    var provenance := VerifyProvenance(sha, p, p.previousArtifactDigest);
    ProvenanceIff(sha, p, p.previousArtifactDigest);
    if provenance.Returned? {
      ChainIff(p, provenance.value);
    }
  }

  /** The PUT is the only write of a rollback and its first request, and it is issued if and
      only if policy and history allow it. */
  lemma PutIssuedIff(sha: Json -> string, m: Manifest, h: History, remote: Remote, next: nat)
    ensures var trace := RollbackRun(sha, m, h, remote, next).requests;
            && (PutConfig in trace <==> MayWrite(sha, m.rollback, h))
            && (trace != [] ==> trace[0] == PutConfig)
            && (forall k: nat :: 0 < k < |trace| ==> trace[k].GetTask? || trace[k] == GetStatus)
  {
    MayWriteIff(sha, m.rollback, h);
    hide MayWrite;
    var resolution := Resolve(m.rollback, h);
    if resolution.refused.None? {
      GateIff(sha, resolution.policy);
      WriteSucceededIff(m.limits, remote, next);
    }
  }

  /** With every gate open both checks return and say verified, and their statuses tell
      whether they were required. */
  lemma OpenGatesVerify(sha: Json -> string, p: RollbackPolicy)
    requires GatesOpen(sha, Resolution(p, None))
    ensures var provenance := VerifyProvenance(sha, p, p.previousArtifactDigest);
            && provenance.Returned? && provenance.value.verified
            && (provenance.value.status == ProvenanceVerified <==> p.requirePreviousReceiptVerified)
            && var chain := VerifyChain(p, provenance.value);
               && chain.Returned? && chain.value.verified
               && (chain.value.status == ChainVerified <==> p.requirePreviousAssuranceChain)
  {
    hide ReceiptVouches, ReceiptApplied, ChainHolds, VerifyProvenance;
    ProvenanceIff(sha, p, p.previousArtifactDigest);
    var provenance := VerifyProvenance(sha, p, p.previousArtifactDigest).value;
    ChainIff(p, provenance);
    ChainStatusIff(p, provenance);
  }

  lemma ChainStatusIff(p: RollbackPolicy, provenance: Provenance)
    requires VerifyChain(p, provenance).Returned? && VerifyChain(p, provenance).value.verified
    ensures VerifyChain(p, provenance).value.status == ChainVerified <==> p.requirePreviousAssuranceChain
  {
    hide HasSignature, ProfileTrusted, AllowsDeployment;
  }

  lemma WrittenFlags(sha: Json -> string, m: Manifest, h: History, remote: Remote, next: nat)
    requires GatesOpen(sha, Resolve(m.rollback, h)) && RollbackRun(sha, m, h, remote, next).result.Returned?
    ensures var receipt := RollbackRun(sha, m, h, remote, next).result.value;
            var p := Resolve(m.rollback, h).policy;
            && receipt.previousReleaseVerified && receipt.chainVerified && receipt.toKnownGood
            && (receipt.provenanceStatus == ProvenanceVerified <==> p.requirePreviousReceiptVerified)
            && (receipt.chainStatus == ChainVerified <==> p.requirePreviousAssuranceChain)
            && receipt.artifactDigest == p.previousArtifactDigest
  {
    hide Resolve, WriteEffect, TaskPollsOf, ServiceReads, VerifyProvenance, VerifyChain, ReceiptVouches, ChainHolds;
    OpenGatesVerify(sha, Resolve(m.rollback, h).policy);
    GateIff(sha, Resolve(m.rollback, h).policy);
  }

  /** Every receipt of a rollback that wrote says that the prior release and its chain were
      verified, and that the rollback is to a known-good release; only the two statuses tell
      whether that was checked, and each does so exactly when its check was required.  It
      names the digest of the found release, or the policy's. */
  lemma WrittenReceiptsAreVerified(sha: Json -> string, m: Manifest, h: History, remote: Remote, next: nat)
    requires PutConfig in RollbackRun(sha, m, h, remote, next).requests
    requires RollbackRun(sha, m, h, remote, next).result.Returned?
    ensures var receipt := RollbackRun(sha, m, h, remote, next).result.value;
            && receipt.previousReleaseVerified && receipt.chainVerified && receipt.toKnownGood
            && (receipt.provenanceStatus == ProvenanceVerified <==> m.rollback.requirePreviousReceiptVerified)
            && (receipt.chainStatus == ChainVerified <==> m.rollback.requirePreviousAssuranceChain)
            && receipt.artifactDigest == AsFound(m.rollback, h).previousArtifactDigest
  {
    hide Resolve, HistoryAllows, AsFound, GatesPassed;
    hide RollbackRun;
    MayWriteIff(sha, m.rollback, h);
    ResolutionIff(m.rollback, h);
    FoundKeepsFlags(m.rollback, h);
    PutIssuedIff(sha, m, h, remote, next);
    WrittenFlags(sha, m, h, remote, next);
  }

  /** A rollback that was written without any check of the prior release, of which there is not
      even a receipt: its own receipt says verified three times. */
  lemma NothingCheckedIsVerified(sha: Json -> string, m: Manifest, h: History, remote: Remote, next: nat)
    returns (lax: Manifest, willing: Remote)
    ensures var p := AsFound(lax.rollback, h);
            && !p.requirePreviousReceiptVerified && !p.requirePreviousAssuranceChain && p.previousDeploymentReceipt.Null?
    ensures var run := RollbackRun(sha, lax, h, willing, next);
            && PutConfig in run.requests && run.result.Returned?
            && run.result.value.previousReleaseVerified && run.result.value.chainVerified && run.result.value.toKnownGood
  {
    lax := m.(rollback := m.rollback.(previousArtifactDigest := "d", resolveReleaseBy := NoResolution,
                                      previousDeploymentReceipt := Null, requirePreviousReceiptVerified := false,
                                      requirePreviousAssuranceChain := false, requireRollbackVerification := false));
    var done := Response(200, Obj(map[]));
    willing := remote.(reply := remote.reply[next := done]);
    assert UpidText(done) == Returned(Null);
    assert WriteEffect(lax.limits, willing, next) == Returned(Effect(true, Null, Str("")));
  }

  // ----- the outcome

  /** The state told by a reply is the expected one, if there is one; and there is one told. */
  ghost predicate ReadsAs(expected: string, r: Response) {
    exists fields :: Carries(r, Obj(fields)) && fields != map[]
                     && (expected != "" ==> Has(fields, "status", Str("unknown"), Str(expected)))
  }

  lemma ServiceReadsIff(expected: string, r: Response)
    ensures ServiceReads(expected, r) <==> ReadsAs(expected, r)
  {
    if r.code == 200 && r.body.Obj? && "data" in r.body.fields && r.body.fields["data"].Obj? {
      var fields := r.body.fields["data"].fields;
      assert Carries(r, Obj(fields));
    }
  }

  /** A rollback ends "rolled_back", and is accepted, if and only if policy and history allowed
      it, the PUT and any task it started succeeded, and the state read back is the expected one
      where verification is required.  Where only that last read fails, it ends
      "rollback_unverified"; in every other case the final state is "unknown".  Its status
      tells the four cases apart. */
  lemma RolledBackIff(sha: Json -> string, m: Manifest, h: History, remote: Remote, next: nat)
    requires RollbackRun(sha, m, h, remote, next).result.Returned?
    ensures var receipt := RollbackRun(sha, m, h, remote, next).result.value;
            var readBack := remote.reply[next + 1 + |TaskPollsOf(m.limits, remote, next)|];
            var allowed := MayWrite(sha, m.rollback, h);
            var wrote := allowed && WriteSucceeded(m.limits, remote, next);
            var verified := m.rollback.requireRollbackVerification ==> ReadsAs(m.apply.expectedServiceState, readBack);
            && receipt.finalState == (if !wrote then UnknownState else if verified then RolledBack else RollbackUnverified)
            && receipt.status == (if !allowed then Rejected else if !wrote then RollbackFailed
                                  else if verified then Succeeded else VerificationFailed)
            && (receipt.accepted <==> receipt.finalState == RolledBack)
            && (receipt.verified <==> receipt.finalState == RolledBack)
  {
    hide Resolve, WriteEffect, WriteSucceeded, TaskPollsOf, ServiceReads, VerifyProvenance, VerifyChain,
         MayWrite, AsFound, GatesPassed, ReadsAs;
    var resolution := Resolve(m.rollback, h);
    MayWriteIff(sha, m.rollback, h);
    ResolutionIff(m.rollback, h);
    FoundKeepsFlags(m.rollback, h);
    ServiceReadsIff(m.apply.expectedServiceState, remote.reply[next + 1 + |TaskPollsOf(m.limits, remote, next)|]);
    if resolution.refused.None? {
      GateIff(sha, resolution.policy);
      WriteSucceededIff(m.limits, remote, next);
    }
  }

  /** The digest that a receipt shows: none when the history refuses, except that a release
      failing retention is named; else the target's. */
  lemma ReceiptNamesTarget(sha: Json -> string, m: Manifest, h: History, remote: Remote, next: nat)
    requires RollbackRun(sha, m, h, remote, next).result.Returned?
    ensures RollbackRun(sha, m, h, remote, next).result.value.artifactDigest ==
              if HistoryAllows(m.rollback, h) then AsFound(m.rollback, h).previousArtifactDigest
              else if Finds(m.rollback, h) then h.found.value.artifactDigest
              else ""
  {
    hide Resolve, WriteEffect, TaskPollsOf, ServiceReads, VerifyProvenance, VerifyChain, AsFound;
    ResolutionIff(m.rollback, h);
    if !HistoryAllows(m.rollback, h) {
      RefusalsByHistory(m.rollback, h);
    }
  }

  lemma RefusalsByHistory(p: RollbackPolicy, h: History)
    requires !HistoryAllows(p, h)
    ensures RefusalDigest(Resolve(p, h).refused.value, h) == if Finds(p, h) then h.found.value.artifactDigest else ""
  {
  }

  /** In terms of policy, history and replies alone: the rollback is allowed, the PUT and any task it
      starts succeed, and the state read back is the expected one where verification is
      required. */
  ghost predicate FullyRolledBack(sha: Json -> string, m: Manifest, h: History, remote: Remote, next: nat) {
    && MayWrite(sha, m.rollback, h)
    && WriteSucceeded(m.limits, remote, next)
    && (m.rollback.requireRollbackVerification ==>
          ReadsAs(m.apply.expectedServiceState, remote.reply[next + 1 + |TaskPollsOf(m.limits, remote, next)|]))
  }

  /** `RolledBackIff` over every run, those that raise included; and what such a run sends. */
  lemma RolledBackExactly(sha: Json -> string, m: Manifest, h: History, remote: Remote, next: nat)
    ensures var run := RollbackRun(sha, m, h, remote, next);
            && (run.result.Returned? && run.result.value.finalState == RolledBack
                <==> FullyRolledBack(sha, m, h, remote, next))
            && (FullyRolledBack(sha, m, h, remote, next) ==>
                  run.requests == [PutConfig] + TaskPollsOf(m.limits, remote, next)
                                  + if m.rollback.requireRollbackVerification then [GetStatus] else [])
  {
    hide RollbackRun, Resolve, WriteEffect, WriteSucceeded, TaskPollsOf, ReadsAs, MayWrite;
    if RollbackRun(sha, m, h, remote, next).result.Returned? {
      RolledBackIff(sha, m, h, remote, next);
    }
    if FullyRolledBack(sha, m, h, remote, next) {
      RollbackReturns(sha, m, h, remote, next);
    }
  }

  lemma RollbackReturns(sha: Json -> string, m: Manifest, h: History, remote: Remote, next: nat)
    requires FullyRolledBack(sha, m, h, remote, next)
    ensures var run := RollbackRun(sha, m, h, remote, next);
            && run.result.Returned?
            && run.requests == [PutConfig] + TaskPollsOf(m.limits, remote, next)
                               + if m.rollback.requireRollbackVerification then [GetStatus] else []
  {
    hide Resolve, WriteEffect, WriteSucceeded, TaskPollsOf, ServiceReads, VerifyProvenance, VerifyChain,
         MayWrite, AsFound, GatesPassed, ReadsAs;
    var p := Resolve(m.rollback, h).policy;
    MayWriteIff(sha, m.rollback, h);
    ResolutionIff(m.rollback, h);
    FoundKeepsFlags(m.rollback, h);
    GateIff(sha, p);
    WriteSucceededIff(m.limits, remote, next);
    OpenGatesVerify(sha, p);
  }

  /** The status of the service as an apply shows it: "unknown" also where reading it fails. */
  ghost predicate ShowsStatus(r: Response, status: Json) {
    SaysStatus(r, status) || (IsGarbled(r) && status == Str("unknown"))
  }

  /** Nothing stands in the way of an apply, its POST and any task it starts succeed, and the
      service then reads as expected. */
  ghost predicate ApplySucceeds(m: Manifest, digest: string, remote: Remote, next: nat) {
    var readBack := remote.reply[next + 3 + |TaskPollsOf(m.limits, remote, next + 2)|];
    && (m.apply.requirePromotedArtifact ==> digest != "" && remote.reply[next].code == 200)
    && PathAllowed(m.apply.allowedApplyTargets, m.apply.finalPath)
    && WriteSucceeded(m.limits, remote, next + 2)
    && (m.apply.expectedServiceState != "" ==> ShowsStatus(readBack, Str(m.apply.expectedServiceState)))
  }

  /** Exactly then it is accepted. */
  lemma ApplyAcceptedIff(m: Manifest, digest: string, remote: Remote, next: nat)
    ensures var apply := ApplyRun(m, digest, remote, next).result;
            apply.Returned? && apply.value.accepted <==> ApplySucceeds(m, digest, remote, next)
    ensures var apply := ApplyRun(m, digest, remote, next).result;
            apply.Returned? ==> (apply.value.accepted <==> apply.value.activationVerified)
                                && (apply.value.accepted ==> apply.value.activatedDigest == digest)
  {
    hide WriteEffect, WriteSucceeded, TaskPollsOf, TargetAllowed, StatusFieldOrUnknown, PathAllowed, SaysStatus, IsGarbled;
    WriteSucceededIff(m.limits, remote, next + 2);
    TargetAllowedIff(m.apply);
    StatusFieldIff(remote.reply[next + 3 + |TaskPollsOf(m.limits, remote, next + 2)|], Str(m.apply.expectedServiceState));
  }

  /** The POST of an apply is sent if and only if the digest and the storage query are in order,
      where that is required, and the path is allowed; it is then the third request. */
  lemma ApplyPostedIff(m: Manifest, digest: string, remote: Remote, next: nat)
    ensures var trace := ApplyRun(m, digest, remote, next).requests;
            var posts := && (m.apply.requirePromotedArtifact ==> digest != "" && remote.reply[next].code == 200)
                         && PathAllowed(m.apply.allowedApplyTargets, m.apply.finalPath);
            && (PostAction(ApplyArtifact) in trace <==> posts)
            && (posts ==> |trace| > 2 && trace[..3] == [GetStorageContent, GetStatus, PostAction(ApplyArtifact)])
            && (!posts ==> trace == [] || trace == [GetStorageContent])
  {
    hide WriteEffect, TaskPollsOf, TargetAllowed, PathAllowed;
    TargetAllowedIff(m.apply);
  }

  /** What the receipt of an apply tells: which fault stopped it, and the status before and
      after the POST. */
  lemma ApplyReceiptTells(m: Manifest, digest: string, remote: Remote, next: nat)
    requires ApplyRun(m, digest, remote, next).result.Returned?
    ensures var receipt := ApplyRun(m, digest, remote, next).result.value;
            var promoted := m.apply.requirePromotedArtifact ==> digest != "" && remote.reply[next].code == 200;
            var allowed := PathAllowed(m.apply.allowedApplyTargets, m.apply.finalPath);
            var wrote := promoted && allowed && WriteSucceeded(m.limits, remote, next + 2);
            && receipt.failure == (if !promoted then PromotedArtifactMissing else if !allowed then TargetNotAllowed
                                   else if !wrote then ApplyFailed
                                   else if ApplySucceeds(m, digest, remote, next) then NoFailure
                                   else ServiceStateMismatch)
            && (promoted && allowed ==> ShowsStatus(remote.reply[next + 1], receipt.preState))
            && (wrote ==> ShowsStatus(remote.reply[next + 3 + |TaskPollsOf(m.limits, remote, next + 2)|], receipt.postState))
            && receipt.activatedDigest == if wrote then digest else ""
  {
    hide WriteEffect, WriteSucceeded, TaskPollsOf, TargetAllowed, StatusFieldOrUnknown, PathAllowed, SaysStatus, IsGarbled;
    var readBack := remote.reply[next + 3 + |TaskPollsOf(m.limits, remote, next + 2)|];
    WriteSucceededIff(m.limits, remote, next + 2);
    TargetAllowedIff(m.apply);
    StatusFieldIff(remote.reply[next + 1], StatusFieldOrUnknown(remote.reply[next + 1]));
    StatusFieldIff(readBack, StatusFieldOrUnknown(readBack));
    StatusFieldIff(readBack, Str(m.apply.expectedServiceState));
  }

  /** What an apply and the rollback after it amount to. */
  ghost predicate CombinedOutcome(p: RollbackPolicy, apply: Outcome<ApplyReceipt>, rollback: Outcome<RollbackReceipt>, receipt: DeployReceipt) {
    && apply == Returned(receipt.apply)
    && (receipt.apply.accepted <==> receipt.finalState == Applied)
    && (receipt.rollbackAttempted <==>
          !receipt.apply.accepted && p.rollbackOnApplyFailure && p.previousArtifactDigest != "")
    && (!receipt.rollbackAttempted ==> receipt.finalState == Applied || receipt.finalState == Failed)
    && (receipt.rollbackAttempted ==>
          && rollback.Returned?
          && receipt.finalState == rollback.value.finalState
          && receipt.finalState in {RolledBack, RollbackUnverified, UnknownState}
          && (receipt.rollbackVerified <==> receipt.finalState == RolledBack))
  }

  lemma FollowedOutcome(p: RollbackPolicy, apply: Run<ApplyReceipt>, rollback: Run<RollbackReceipt>)
    requires Followed(p, apply, rollback).result.Returned?
    requires rollback.result.Returned? ==>
               var r := rollback.result.value;
               r.finalState in {RolledBack, RollbackUnverified, UnknownState} && (r.verified <==> r.finalState == RolledBack)
    ensures CombinedOutcome(p, apply.result, rollback.result, Followed(p, apply, rollback).result.value)
  {
  }

  /** One deploy of apply_artifact, over every remote: accepted exactly when the final state
      is "applied"; a rollback is attempted exactly when the apply was rejected, rollback on
      failure is configured and a previous digest is set; and the final state then is the
      rollback's, which `RolledBackIff` pins down. */
  lemma DeployFinalState(sha: Json -> string, m: Manifest, h: History, digest: string, remote: Remote, next: nat)
    requires ApplyDeployRun(sha, m, h, digest, remote, next).result.Returned?
    ensures var apply := ApplyRun(m, digest, remote, next);
            var rollback := RollbackRun(sha, m, h, remote, next + |apply.requests|);
            CombinedOutcome(m.rollback, apply.result, rollback.result,
                            ApplyDeployRun(sha, m, h, digest, remote, next).result.value)
  {
    hide ApplyRun, RollbackRun, Followed, CombinedOutcome;
    var apply := ApplyRun(m, digest, remote, next);
    var rollback := RollbackRun(sha, m, h, remote, next + |apply.requests|);
    if rollback.result.Returned? {
      RolledBackIff(sha, m, h, remote, next + |apply.requests|);
    }
    FollowedOutcome(m.rollback, apply, rollback);
  }

  // ----- the writes of a deploy

  lemma ApplyWrites(m: Manifest, digest: string, remote: Remote, next: nat)
    ensures var trace := ApplyRun(m, digest, remote, next).requests;
            && PutConfig !in trace
            && forall k: nat :: k < |trace| && trace[k].PostAction? ==> k == 2 && trace[k] == PostAction(ApplyArtifact)
  {
    hide WriteEffect, TargetAllowed, StatusFieldOrUnknown, TaskPollsOf;
    WriteSucceededIff(m.limits, remote, next + 2);
  }

  /** The only writes of a trace: a POST at 2, a PUT at `put`. */
  ghost predicate WritesAt(trace: seq<Request>, put: nat) {
    && (forall k: nat :: k < |trace| && trace[k].PostAction? ==> k == 2 && trace[k] == PostAction(ApplyArtifact))
    && (forall k: nat :: k < |trace| && trace[k] == PutConfig ==> k == put)
  }

  lemma FollowedWrites(p: RollbackPolicy, apply: Run<ApplyReceipt>, rollback: Run<RollbackReceipt>)
    requires PutConfig !in apply.requests && WritesAt(apply.requests, 0)
    requires forall k: nat :: 0 < k < |rollback.requests| ==> rollback.requests[k].GetTask? || rollback.requests[k] == GetStatus
    requires rollback.requests != [] ==> rollback.requests[0] == PutConfig
    ensures var trace := Followed(p, apply, rollback).requests;
            && WritesAt(trace, |apply.requests|)
            && (PutConfig in trace <==>
                  PutConfig in rollback.requests && apply.result.Returned? && RollsBack(p, apply.result.value))
  {
  }

  /** A deploy of apply_artifact sends at most one POST and at most one PUT; the PUT comes
      after everything the apply sent, and it comes if and only if the apply was rejected with
      rollback configured and the rollback's gates are open. */
  lemma DeployWrites(sha: Json -> string, m: Manifest, h: History, digest: string, remote: Remote, next: nat)
    ensures var trace := ApplyDeployRun(sha, m, h, digest, remote, next).requests;
            var apply := ApplyRun(m, digest, remote, next);
            && WritesAt(trace, |apply.requests|)
            && (PutConfig in trace <==>
                  && apply.result.Returned? && RollsBack(m.rollback, apply.result.value)
                  && MayWrite(sha, m.rollback, h))
  {
    var apply := ApplyRun(m, digest, remote, next);
    hide RollbackRun, ApplyRun, MayWrite;
    ApplyWrites(m, digest, remote, next);
    PutIssuedIff(sha, m, h, remote, next + |apply.requests|);
    FollowedWrites(m.rollback, apply, RollbackRun(sha, m, h, remote, next + |apply.requests|));
  }

  // ----- where the receipts overstate or cannot meet the gates

  /** A refusal by the chain says the prior release was verified; that is so exactly when the
      receipt check was on. */
  lemma ChainRefusalClaimsProvenance(sha: Json -> string, p: RollbackPolicy)
    requires Gate(sha, p).Returned? && Gate(sha, p).value.Some?
    requires Gate(sha, p).value.value.previousReleaseVerified
    ensures var refusal := Gate(sha, p).value.value;
            && refusal.provenanceStatus == ProvenanceVerified
            && p.requirePreviousAssuranceChain
            && VerifyProvenance(sha, p, p.previousArtifactDigest).Returned?
            && (VerifyProvenance(sha, p, p.previousArtifactDigest).value.status == ProvenanceVerified
                <==> p.requirePreviousReceiptVerified)
  {
    ProvenanceIff(sha, p, p.previousArtifactDigest);
  }

  /** What a refusal by the gates tells.  Whether it says that the prior release was verified
      depends on whether the receipt, as far as it is checked, was in order. */
  lemma GateRefusalTells(sha: Json -> string, p: RollbackPolicy)
    requires Gate(sha, p).Returned? && Gate(sha, p).value.Some?
    ensures var refusal := Gate(sha, p).value.value;
            var target := p.previousArtifactDigest;
            && !GatesPassed(sha, p)
            && !refusal.accepted && !refusal.toKnownGood && !refusal.chainVerified && !refusal.verified
            && (refusal.previousReleaseVerified <==>
                  target != "" && (p.requirePreviousReceiptVerified ==> ReceiptVouches(sha, p, target)))
            && (refusal.previousReleaseVerified ==>
                  && p.requirePreviousAssuranceChain && !ChainHolds(p)
                  && refusal.provenanceStatus == ProvenanceVerified && refusal.chainStatus != ChainVerified)
            && (target != "" && !refusal.previousReleaseVerified ==>
                  refusal.provenanceStatus == VerifyProvenance(sha, p, target).value.status)
            && (target == "" ==> refusal.provenanceStatus == NotChecked && refusal.chainStatus == ChainNotChecked)
  {
    hide VerifyProvenance, ReceiptVouches, ChainHolds;
    var target := p.previousArtifactDigest;
    var provenance := VerifyProvenance(sha, p, target);
    ProvenanceIff(sha, p, target);
    if provenance.Returned? {
      ChainIff(p, provenance.value);
      UnverifiedChainStatus(p, provenance.value);
    }
  }

  lemma UnverifiedChainStatus(p: RollbackPolicy, provenance: Provenance)
    ensures var chain := VerifyChain(p, provenance);
            chain.Returned? && !chain.value.verified ==> chain.value.status != ChainVerified
  {
    hide HasSignature, ProfileTrusted, AllowsDeployment;
  }

  /** The same over every run that returned without writing: nothing is claimed when the history
      refused, and otherwise what the gates say of the policy with the found release in it. */
  lemma RefusedReceiptTells(sha: Json -> string, m: Manifest, h: History, remote: Remote, next: nat)
    requires PutConfig !in RollbackRun(sha, m, h, remote, next).requests
    requires RollbackRun(sha, m, h, remote, next).result.Returned?
    ensures var receipt := RollbackRun(sha, m, h, remote, next).result.value;
            var p := AsFound(m.rollback, h);
            && !receipt.accepted && !receipt.toKnownGood && !receipt.chainVerified && !receipt.verified
            && (receipt.previousReleaseVerified <==>
                  && HistoryAllows(m.rollback, h) && p.previousArtifactDigest != ""
                  && (p.requirePreviousReceiptVerified ==> ReceiptVouches(sha, p, p.previousArtifactDigest)))
            && (receipt.previousReleaseVerified ==>
                  receipt.provenanceStatus == ProvenanceVerified && receipt.chainStatus != ChainVerified)
            && (!HistoryAllows(m.rollback, h) || p.previousArtifactDigest == "" ==>
                  receipt.provenanceStatus == NotChecked && receipt.chainStatus == ChainNotChecked)
  {
    hide Resolve, Gate, HistoryAllows, AsFound, GatesPassed, ReceiptVouches, PutResult;
    ResolutionIff(m.rollback, h);
    var resolution := Resolve(m.rollback, h);
    if resolution.refused.None? {
      var gate := Gate(sha, resolution.policy);
      if gate.Returned? && gate.value.Some? {
        GateRefusalTells(sha, resolution.policy);
      }
    }
  }

  /** Such a refusal, of a policy that never checked the prior release. */
  lemma UncheckedProvenanceIsClaimed(sha: Json -> string, p: RollbackPolicy) returns (unchecked: RollbackPolicy)
    ensures VerifyProvenance(sha, unchecked, unchecked.previousArtifactDigest) == Returned(Provenance(true, NotChecked))
    ensures Gate(sha, unchecked).Returned? && Gate(sha, unchecked).value.Some?
    ensures Gate(sha, unchecked).value.value.provenanceStatus == ProvenanceVerified
  {
    unchecked := p.(previousArtifactDigest := "d", requirePreviousReceiptVerified := false,
                    previousDeploymentReceipt := Null, previousReceiptSignatureRequired := false,
                    requirePreviousAssuranceChain := true, previousAttestation := Null);
  }

  // ----- receipts as prior receipts

  /** What `deploy` returns to its caller, as a document: `others` are its other fields, none of
      which is called "artifact_digest".  Early refusals lack some of the fields named here;
      none of those is accepted.  Nothing in the repository keeps this document: the receipt
      that `create_deployment_receipt` makes of it drops these fields. */
  function Handed(receipt: DeployReceipt, digest: string, others: map<string, Json>): Json {
    Obj(others + map[
      "final_deployment_state" := Str(StateText(receipt.finalState)),
      "activation_verified" := Bool(receipt.apply.activationVerified),
      "activated_artifact_digest" := Str(receipt.apply.activatedDigest),
      "promoted_artifact_digest" := Str(digest)
    ])
  }

  /** Round trip: what any deploy returned, whatever its other fields, vouches for a target, if
      somebody keeps it as the prior receipt of a later rollback, if and only if that deploy
      was accepted and applied that target (or no digest at all). */
  lemma AppliedReceiptVouches(sha: Json -> string, m: Manifest, h: History, digest: string, remote: Remote, next: nat,
                              p: RollbackPolicy, target: string, others: map<string, Json>)
    requires ApplyDeployRun(sha, m, h, digest, remote, next).result.Returned?
    requires "artifact_digest" !in others
    requires p.previousDeploymentReceipt
             == Handed(ApplyDeployRun(sha, m, h, digest, remote, next).result.value, digest, others)
    requires p.previousDeploymentReceiptDigest in {"", sha(p.previousDeploymentReceipt)}
    ensures ReceiptVouches(sha, p, target) <==>
              ApplyDeployRun(sha, m, h, digest, remote, next).result.value.apply.accepted && (digest == "" || digest == target)
  {
    hide ApplyDeployRun, ApplyRun, RollbackRun, Followed, ReceiptVouches, Handed;
    var receipt := ApplyDeployRun(sha, m, h, digest, remote, next).result.value;
    DeployFinalState(sha, m, h, digest, remote, next);
    ApplyAcceptedIff(m, digest, remote, next);
    HandedVouches(sha, p, receipt, digest, target, others);
  }

  lemma HandedVouches(sha: Json -> string, p: RollbackPolicy, receipt: DeployReceipt, digest: string, target: string,
                          others: map<string, Json>)
    requires "artifact_digest" !in others
    requires p.previousDeploymentReceipt == Handed(receipt, digest, others)
    requires p.previousDeploymentReceiptDigest in {"", sha(p.previousDeploymentReceipt)}
    requires receipt.finalState == Applied <==> receipt.apply.accepted
    requires receipt.apply.accepted <==> receipt.apply.activationVerified
    requires receipt.apply.accepted ==> receipt.apply.activatedDigest == digest
    ensures ReceiptVouches(sha, p, target) <==> receipt.apply.accepted && digest in {"", target}
  {
    var doc := p.previousDeploymentReceipt;
    assert "artifact_digest" !in doc.fields && doc.fields["promoted_artifact_digest"] == Str(digest);
    assert doc.fields != map[] by {
      assert "activation_verified" in doc.fields;
    }
    if receipt.apply.accepted {
      assert NamedArtifact(doc) == Str(digest).Or(Null);
    }
  }

  /** As long as prior receipts are checked, one that has no `final_deployment_state` never
      lets a rollback write. */
  lemma StatelessReceiptsNeverVouch(sha: Json -> string, m: Manifest, h: History, remote: Remote, next: nat)
    requires var p := AsFound(m.rollback, h);
             && p.requirePreviousReceiptVerified
             && (p.previousDeploymentReceipt.Obj? ==> "final_deployment_state" !in p.previousDeploymentReceipt.fields)
    ensures PutConfig !in RollbackRun(sha, m, h, remote, next).requests
  {
    hide RollbackRun, AsFound;
    PutIssuedIff(sha, m, h, remote, next);
  }

  /** Nor does any receipt made by `create_deployment_receipt`, signed or not: of whatever the
      adapter returned, it does not keep how the deployment ended. */
  lemma CreatedReceiptsNeverVouch(sha: Json -> string, m: Manifest, h: History, remote: Remote, next: nat,
                                  docSha: Sha, own: Doc, deployed: Doc, signature: Doc)
    requires own.Keys <= OWN + OF_MANIFEST && signature.Keys <= RECEIPT_SIGNATURE
    ensures var p := AsFound(m.rollback, h);
            p.requirePreviousReceiptVerified
            && p.previousDeploymentReceipt == Obj(Sign(DEPLOYMENT_RECEIPT, Created(docSha, own, deployed), signature))
            ==> PutConfig !in RollbackRun(sha, m, h, remote, next).requests
  {
    hide RollbackRun, AsFound, Created;
    CreatedReceiptsLoseActivation(docSha, own, deployed, "final_deployment_state");
    assert "final_deployment_state" !in RECEIPT_SIGNATURE;
    var p := AsFound(m.rollback, h);
    if p.requirePreviousReceiptVerified
       && p.previousDeploymentReceipt == Obj(Sign(DEPLOYMENT_RECEIPT, Created(docSha, own, deployed), signature)) {
      StatelessReceiptsNeverVouch(sha, m, h, remote, next);
    }
  }
}
