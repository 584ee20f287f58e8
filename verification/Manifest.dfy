/** The parts of `AdapterManifest` that steer the Proxmox API adapter. */
module Manifest {
  import opened Wire
  import opened TaskPolling

  datatype Idempotency = RejectNoop | AllowNoop | OtherPolicy(name: string)

  /** start, stop and reboot */
  datatype LifecyclePolicy = LifecyclePolicy(
    requireConfirmedTargetStatus: bool,
    expectedPreState: string,
    expectedPostState: string,
    allowNoopIfAlreadyDesired: bool,
    idempotency: Idempotency,
    requireTaskSuccess: bool,
    requireBootIdChange: bool,
    requireUptimeReset: bool,
    allowUptimeOnlyFallback: bool,
    asksGuestAgent: bool  // boot_evidence_source is "guest_agent" or "auto"
  )

  /** apply_artifact */
  datatype ApplyPolicy = ApplyPolicy(
    requirePromotedArtifact: bool,
    allowedApplyTargets: seq<string>,
    finalPath: string,
    expectedServiceState: string
  )

  datatype ResolveBy = NoResolution | ByReleaseId | ByArtifactDigest | ByLatestKnownGood | UnknownResolver(name: string)

  /** rollback_artifact.  Prior documents are JSON values, null when not configured. */
  datatype RollbackPolicy = RollbackPolicy(
    previousArtifactDigest: string,
    requireRollbackVerification: bool,
    rollbackOnApplyFailure: bool,
    requirePreviousReceiptVerified: bool,
    previousDeploymentReceipt: Json,
    previousDeploymentReceiptDigest: string,
    requirePreviousAssuranceChain: bool,
    previousAttestation: Json,
    previousVerifierProfile: Json,
    previousGateReceipt: Json,
    previousAuditBundleDigest: string,
    previousReceiptSignatureRequired: bool,
    previousAttestationSignatureRequired: bool,
    previousVerifierProfileTrustRequired: bool,
    resolveReleaseBy: ResolveBy,
    requireRetentionVerification: bool,
    requireReleaseHistorySnapshot: bool,
    releaseHistorySnapshotPath: string
  )

  datatype Manifest = Manifest(
    limits: Limits,
    lifecycle: LifecyclePolicy,
    apply: ApplyPolicy,
    rollback: RollbackPolicy
  )
}
