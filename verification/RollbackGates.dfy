/** The two gates in front of a rollback: provenance of the prior release and its
    assurance chain.  `sha` is the digest of canonical JSON, an arbitrary function. */
module RollbackGates {
  import opened Wire
  import opened Manifest

  // ----- _verify_rollback_provenance

  datatype ProvenanceStatus =
    | NotChecked
    | ProvenanceVerified
    | ReceiptMissing
    | ReceiptInvalid
    | ReleaseNotApplied
    | ActivationNotVerified
    | DigestMismatch

  datatype Provenance = Provenance(verified: bool, status: ProvenanceStatus)

  /** The artifact a prior receipt names, null if it names none. */
  function NamedArtifact(receipt: Json): Json
    requires receipt.Obj?
  {
    receipt.Get("activated_artifact_digest", Null)
    .Or(receipt.Get("artifact_digest", Null))
    .Or(receipt.Get("promoted_artifact_digest", Null))
    .Or(Null)
  }

  function VerifyProvenance(sha: Json -> string, p: RollbackPolicy, target: string): Outcome<Provenance> {
    var receipt := p.previousDeploymentReceipt;
    if !p.requirePreviousReceiptVerified then Returned(Provenance(true, NotChecked))
    else if !receipt.Truthy() then Returned(Provenance(false, ReceiptMissing))
    else if !receipt.Obj? then Returned(Provenance(false, ReceiptInvalid))
    else if p.previousDeploymentReceiptDigest != "" && sha(receipt) != p.previousDeploymentReceiptDigest then
      Returned(Provenance(false, ReceiptInvalid))
    else if receipt.Get("final_deployment_state", Str("")) != Str("applied") then
      Returned(Provenance(false, ReleaseNotApplied))
    else if !receipt.Get("activation_verified", Bool(false)).Truthy() then
      Returned(Provenance(false, ActivationNotVerified))
    else if NamedArtifact(receipt).Truthy() && NamedArtifact(receipt) != Str(target) then
      if Sliceable(NamedArtifact(receipt)) then Returned(Provenance(false, DigestMismatch)) else Raised
    else Returned(Provenance(true, ProvenanceVerified))
  }

  /** The prior receipt is there, is the pinned one, and tells of a verified activation. */
  predicate ReceiptApplied(sha: Json -> string, p: RollbackPolicy) {
    var receipt := p.previousDeploymentReceipt;
    && receipt.Obj? && receipt.Truthy()
    && (p.previousDeploymentReceiptDigest == "" || sha(receipt) == p.previousDeploymentReceiptDigest)
    && "final_deployment_state" in receipt.fields && receipt.fields["final_deployment_state"] == Str("applied")
    && "activation_verified" in receipt.fields && receipt.fields["activation_verified"].Truthy()
  }

  /** The prior receipt speaks for `target`. */
  predicate ReceiptVouches(sha: Json -> string, p: RollbackPolicy, target: string) {
    && ReceiptApplied(sha, p)
    && var artifact := NamedArtifact(p.previousDeploymentReceipt);
       !artifact.Truthy() || artifact == Str(target)
  }

  /** The chain of early returns lets exactly the vouching receipts through.  It raises
      exactly for a receipt that would vouch but for naming some other artifact by a value
      that its message cannot cut short. */
  lemma ProvenanceIff(sha: Json -> string, p: RollbackPolicy, target: string)
    ensures var r := VerifyProvenance(sha, p, target);
            && (r.Returned? && r.value.verified
                <==> !p.requirePreviousReceiptVerified || ReceiptVouches(sha, p, target))
            && (r.Returned? && r.value.status == ProvenanceVerified
                <==> p.requirePreviousReceiptVerified && ReceiptVouches(sha, p, target))
            && (r.Raised? <==>
                  && p.requirePreviousReceiptVerified
                  && ReceiptApplied(sha, p) && !ReceiptVouches(sha, p, target)
                  && !Sliceable(NamedArtifact(p.previousDeploymentReceipt)))
  {
  }

  /** The artifact named is the first of three fields that is not blank. */
  lemma NamedArtifactIs(fields: map<string, Json>)
    ensures var given := (key: string) => key in fields && !Blank(fields[key]);
            NamedArtifact(Obj(fields)) ==
              if given("activated_artifact_digest") then fields["activated_artifact_digest"]
              else if given("artifact_digest") then fields["artifact_digest"]
              else if given("promoted_artifact_digest") then fields["promoted_artifact_digest"]
              else Null
  {
    TruthyAt(fields, "activated_artifact_digest");
    TruthyAt(fields, "artifact_digest");
    TruthyAt(fields, "promoted_artifact_digest");
  }

  lemma TruthyAt(fields: map<string, Json>, key: string)
    ensures key in fields ==> (fields[key].Truthy() <==> !Blank(fields[key]))
  {
    if key in fields {
      TruthyIff(fields[key]);
    }
  }

  /** Which status is reported for which fault of the prior receipt. */
  lemma ProvenanceStatusIff(sha: Json -> string, p: RollbackPolicy, target: string)
    requires VerifyProvenance(sha, p, target).Returned?
    ensures var receipt := p.previousDeploymentReceipt;
            var status := VerifyProvenance(sha, p, target).value.status;
            var pinned := p.previousDeploymentReceiptDigest == "" || sha(receipt) == p.previousDeploymentReceiptDigest;
            && (status == NotChecked <==> !p.requirePreviousReceiptVerified)
            && (status == ReceiptMissing <==> p.requirePreviousReceiptVerified && Blank(receipt))
            && (status == ReceiptInvalid <==>
                  p.requirePreviousReceiptVerified && !Blank(receipt) && (!receipt.Obj? || !pinned))
            && (status == ReleaseNotApplied <==>
                  && p.requirePreviousReceiptVerified && !Blank(receipt) && receipt.Obj? && pinned
                  && !("final_deployment_state" in receipt.fields
                       && receipt.fields["final_deployment_state"] == Str("applied")))
            && (status == DigestMismatch <==>
                  p.requirePreviousReceiptVerified && ReceiptApplied(sha, p) && !ReceiptVouches(sha, p, target))
  {
    hide NamedArtifact, Blank;
    TruthyIff(p.previousDeploymentReceipt);
  }

  /** Such a receipt: applied, activation-verified, and naming a number. */
  lemma ANumberForADigestRaises(sha: Json -> string, p: RollbackPolicy) returns (pinned: RollbackPolicy)
    ensures pinned.requirePreviousReceiptVerified && VerifyProvenance(sha, pinned, "d") == Raised
  {
    var fields := map["final_deployment_state" := Str("applied"), "activation_verified" := Bool(true),
                      "activated_artifact_digest" := Num(7.0)];
    assert "activation_verified" in fields;
    pinned := p.(requirePreviousReceiptVerified := true, previousDeploymentReceipt := Obj(fields),
                 previousDeploymentReceiptDigest := "");
  }

  // ----- _verify_rollback_assurance_chain

  datatype ChainStatus =
    | ChainNotChecked
    | ChainVerified
    | ProvenanceFailed
    | NotDeploymentSystemReceipt
    | ReceiptUnsigned
    | AttestationMissing
    | AttestationNonCompliant
    | AttestationUnsigned
    | ProfileUntrusted
    | AuditBundleMismatch
    | GateReceiptInvalid
    | GateReceiptDenied

  datatype Chain = Chain(verified: bool, status: ChainStatus)

  /** A signature is a non-empty string, or an object that holds one. */
  predicate HasSignature(signature: Json) {
    (signature.Obj? && signature.Get("signature", Null).Truthy()) || (signature.Str? && signature.s != "")
  }

  /** A profile that is not an object is not looked into. */
  predicate ProfileTrusted(profile: Json) {
    && !profile.Null?
    && (profile.Obj? ==>
          && profile.Get("trusted", Bool(true)).Truthy()
          && (profile.Get("profile_signature", Str("")).Truthy()
              || profile.Get("profile_signer_fingerprint", Str("")).Truthy()))
  }

  predicate AllowsDeployment(document: Json)
    requires document.Obj?
  {
    document.Get("deploy_allowed", Bool(true)) != Bool(false)
  }

  function VerifyChain(p: RollbackPolicy, provenance: Provenance): Outcome<Chain> {
    if !p.requirePreviousAssuranceChain then Returned(Chain(provenance.verified, ChainNotChecked))
    else if !provenance.verified then Returned(Chain(false, ProvenanceFailed))
    else
      var receipt := p.previousDeploymentReceipt.Or(Obj(map[]));
      if !receipt.Obj? then Raised else
      var kind := receipt.Get("receipt_type", Str(""));
      if kind.Truthy() && kind != Str("deployment_system_receipt") then
        Returned(Chain(false, NotDeploymentSystemReceipt))
      else if p.previousReceiptSignatureRequired && !HasSignature(receipt.Get("receipt_signature", Obj(map[]))) then
        Returned(Chain(false, ReceiptUnsigned))
      else
        VerifyChainDocuments(p)
  }

  /** Steps 4 to 8: attestation, profile, audit bundle and gate receipt. */
  function VerifyChainDocuments(p: RollbackPolicy): Outcome<Chain> {
    var attestation := p.previousAttestation;
    var gate := p.previousGateReceipt;
    if attestation.Null? then Returned(Chain(false, AttestationMissing))
    else if !attestation.Obj? || !AllowsDeployment(attestation) then Returned(Chain(false, AttestationNonCompliant))
    else if p.previousAttestationSignatureRequired
            && !HasSignature(attestation.Get("attestation_signature", Obj(map[]))) then
      Returned(Chain(false, AttestationUnsigned))
    else if p.previousVerifierProfileTrustRequired && !ProfileTrusted(p.previousVerifierProfile) then
      Returned(Chain(false, ProfileUntrusted))
    else
      var bundle := attestation.Get("audit_bundle_sha256", Str(""));
      if p.previousAuditBundleDigest != "" && bundle.Truthy() && bundle != Str(p.previousAuditBundleDigest) then
        if Sliceable(bundle) then Returned(Chain(false, AuditBundleMismatch)) else Raised
      else if !gate.Null? && !gate.Obj? then Returned(Chain(false, GateReceiptInvalid))
      else if !gate.Null? && !AllowsDeployment(gate) then Returned(Chain(false, GateReceiptDenied))
      else Returned(Chain(true, ChainVerified))
  }

  // What the chain asks of each document.

  predicate ReceiptInOrder(p: RollbackPolicy) {
    var receipt := p.previousDeploymentReceipt.Or(Obj(map[]));
    && receipt.Obj?
    && receipt.Get("receipt_type", Str("")).Or(Str("deployment_system_receipt")) == Str("deployment_system_receipt")
    && (p.previousReceiptSignatureRequired ==> HasSignature(receipt.Get("receipt_signature", Null)))
  }

  predicate AttestationInOrder(p: RollbackPolicy) {
    var attestation := p.previousAttestation;
    && attestation.Obj? && AllowsDeployment(attestation)
    && (p.previousAttestationSignatureRequired ==> HasSignature(attestation.Get("attestation_signature", Null)))
    && (p.previousVerifierProfileTrustRequired ==> ProfileTrusted(p.previousVerifierProfile))
  }

  predicate BundleAgrees(p: RollbackPolicy)
    requires p.previousAttestation.Obj?
  {
    var pinned := Str(p.previousAuditBundleDigest);
    pinned == Str("") || p.previousAttestation.Get("audit_bundle_sha256", Str("")).Or(pinned) == pinned
  }

  predicate GateAgrees(p: RollbackPolicy) {
    p.previousGateReceipt.Null? || (p.previousGateReceipt.Obj? && AllowsDeployment(p.previousGateReceipt))
  }

  /** A signature is a text that is not empty, or an object with a signature in it. */
  lemma HasSignatureIff(v: Json)
    ensures HasSignature(v) <==>
              || (v.Str? && v.s != "")
              || (v.Obj? && "signature" in v.fields && !Blank(v.fields["signature"]))
  {
    if v.Obj? && "signature" in v.fields {
      TruthyIff(v.fields["signature"]);
    }
  }

  /** A profile is there; and if it is an object, it is not marked untrusted and bears a
      signature or the fingerprint of a signer. */
  lemma ProfileTrustedIff(profile: Json)
    ensures ProfileTrusted(profile) <==>
              && profile != Null
              && (profile.Obj? ==>
                    var given := (key: string) => key in profile.fields && !Blank(profile.fields[key]);
                    && ("trusted" !in profile.fields || given("trusted"))
                    && (given("profile_signature") || given("profile_signer_fingerprint")))
  {
    if profile.Obj? {
      TruthyAt(profile.fields, "trusted");
      TruthyAt(profile.fields, "profile_signature");
      TruthyAt(profile.fields, "profile_signer_fingerprint");
    }
  }

  /** Only an explicit false forbids. */
  lemma AllowsDeploymentIff(document: Json)
    requires document.Obj?
    ensures AllowsDeployment(document) <==>
              "deploy_allowed" !in document.fields || document.fields["deploy_allowed"] != Bool(false)
  {
  }

  /** Every condition the chain asks for, in no particular order. */
  predicate ChainHolds(p: RollbackPolicy) {
    ReceiptInOrder(p) && AttestationInOrder(p) && BundleAgrees(p) && GateAgrees(p)
  }

  /** The chain cannot be checked to its end: the prior receipt is not an object, or a bundle
      digest that disagrees cannot be cut short for the message. */
  predicate ChainRaises(p: RollbackPolicy) {
    || !p.previousDeploymentReceipt.Or(Obj(map[])).Obj?
    || (&& ReceiptInOrder(p) && AttestationInOrder(p) && !BundleAgrees(p)
        && !Sliceable(p.previousAttestation.Get("audit_bundle_sha256", Str(""))))
  }

  /** The chain is verified exactly when provenance is and, where the chain is required,
      all its conditions hold; it raises exactly when provenance is verified, the chain is
      required and cannot be checked to its end. */
  lemma ChainIff(p: RollbackPolicy, provenance: Provenance)
    ensures var chain := VerifyChain(p, provenance);
            && (chain.Returned? && chain.value.verified
                <==> provenance.verified && (p.requirePreviousAssuranceChain ==> ChainHolds(p)))
            && (chain.Raised? <==> provenance.verified && p.requirePreviousAssuranceChain && ChainRaises(p))
  {
  }

  predicate Forbids(document: map<string, Json>) {
    "deploy_allowed" in document && document["deploy_allowed"] == Bool(false)
  }

  /** The status tells the first thing found wrong: first of the prior receipt. */
  lemma ReceiptStatusTells(p: RollbackPolicy, provenance: Provenance)
    requires VerifyChain(p, provenance).Returned?
    ensures var status := VerifyChain(p, provenance).value.status;
            var asked := p.requirePreviousAssuranceChain && provenance.verified;
            && (status == ChainNotChecked <==> !p.requirePreviousAssuranceChain)
            && (status == ProvenanceFailed <==> p.requirePreviousAssuranceChain && !provenance.verified)
            && (status in {NotDeploymentSystemReceipt, ReceiptUnsigned} <==> asked && !ReceiptInOrder(p))
            && (status == NotDeploymentSystemReceipt <==>
                  && asked && p.previousDeploymentReceipt.Obj? && "receipt_type" in p.previousDeploymentReceipt.fields
                  && var kind := p.previousDeploymentReceipt.fields["receipt_type"];
                     !Blank(kind) && kind != Str("deployment_system_receipt"))
            && (asked && ReceiptInOrder(p) ==> VerifyChain(p, provenance) == VerifyChainDocuments(p))
  {
    NothingIsNoSignature();
    if VerifyChainDocuments(p).Returned? {
      DocumentStatusTells(p);
    }
    hide HasSignature, VerifyChainDocuments, AttestationInOrder, BundleAgrees, GateAgrees, ProfileTrusted;
    TruthyIff(p.previousDeploymentReceipt);
    if p.previousDeploymentReceipt.Obj? && "receipt_type" in p.previousDeploymentReceipt.fields {
      TruthyIff(p.previousDeploymentReceipt.fields["receipt_type"]);
    }
  }

  lemma NothingIsNoSignature()
    ensures !HasSignature(Null) && !HasSignature(Obj(map[]))
  {
  }

  /** Then of attestation, profile, bundle and gate, none of which is like a status above. */
  lemma DocumentStatusTells(p: RollbackPolicy)
    requires VerifyChainDocuments(p).Returned?
    ensures var status := VerifyChainDocuments(p).value.status;
            var attestation := p.previousAttestation;
            var gate := p.previousGateReceipt;
            && (status == AttestationMissing <==> attestation == Null)
            && (status == AttestationNonCompliant <==>
                  attestation != Null && (attestation.Obj? ==> Forbids(attestation.fields)))
            && (status in {AttestationUnsigned, ProfileUntrusted} <==>
                  attestation.Obj? && !Forbids(attestation.fields) && !AttestationInOrder(p))
            && (status == ProfileUntrusted ==>
                  p.previousVerifierProfileTrustRequired && !ProfileTrusted(p.previousVerifierProfile))
            && (status == AttestationUnsigned ==> p.previousAttestationSignatureRequired)
            && (status == AuditBundleMismatch <==> AttestationInOrder(p) && !BundleAgrees(p))
            && (status == GateReceiptInvalid <==>
                  AttestationInOrder(p) && BundleAgrees(p) && gate != Null && !gate.Obj?)
            && (status == GateReceiptDenied <==>
                  AttestationInOrder(p) && BundleAgrees(p) && gate.Obj? && Forbids(gate.fields))
            && (status == ChainVerified <==> AttestationInOrder(p) && BundleAgrees(p) && GateAgrees(p))
            && status !in {ChainNotChecked, ProvenanceFailed, NotDeploymentSystemReceipt, ReceiptUnsigned}
  {
    NothingIsNoSignature();
    hide HasSignature, ProfileTrusted;
  }

  /** Such an attestation: in order but for a bundle digest that is a number, with a digest pinned. */
  lemma ANumberForABundleRaises(p: RollbackPolicy) returns (pinned: RollbackPolicy)
    ensures pinned.requirePreviousAssuranceChain && VerifyChain(pinned, Provenance(true, NotChecked)) == Raised
  {
    pinned := p.(requirePreviousAssuranceChain := true, previousDeploymentReceipt := Null,
                 previousReceiptSignatureRequired := false,
                 previousAttestation := Obj(map["audit_bundle_sha256" := Num(7.0)]),
                 previousAttestationSignatureRequired := false, previousVerifierProfileTrustRequired := false,
                 previousAuditBundleDigest := "b");
  }

  /** With the receipt check on, a prior receipt that is not an object is never looked into. */
  lemma CheckedReceiptIsObject(sha: Json -> string, p: RollbackPolicy, target: string)
    requires p.requirePreviousReceiptVerified
    requires VerifyProvenance(sha, p, target).Returned? && VerifyProvenance(sha, p, target).value.verified
    ensures p.previousDeploymentReceipt.Obj?
    ensures VerifyChain(p, VerifyProvenance(sha, p, target).value).Raised? ==> ReceiptInOrder(p) && AttestationInOrder(p)
  {
  }
}
