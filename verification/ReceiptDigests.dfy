/** Digest binding of evidence documents: gate receipts, deployment receipts, certifications,
    signed drift policies, registry entries and registry snapshots.

    Creator and verifier each digest the document without some of its fields, and their lists
    are not always the same.  `sha` digests canonical JSON of a dict; it is an arbitrary
    function.  A signature covers the document without the signature fields. */
module ReceiptDigests {
  import opened Wire

  type Doc = map<string, Json>
  type Sha = Doc -> string

  datatype Scheme = Scheme(
    digestField: string,
    signatureFields: set<string>,
    creatorExcludes: set<string>,
    verifierExcludes: set<string>,
    digestRequired: bool  // a document without a digest is refused rather than not checked
  ) {
    /** What the verifier excludes and the creator does not. */
    function Late(): set<string> {
      verifierExcludes - creatorExcludes
    }

    /** The fields the digest is there to protect. */
    function Covered(doc: Doc): Doc {
      doc - verifierExcludes
    }
  }

  const RECEIPT_SIGNATURE := {"receipt_signature", "receipt_signature_algorithm", "receipt_signer_fingerprint"}
  const POLICY_SIGNATURE := {"policy_signature", "policy_signature_algorithm", "policy_signer_fingerprint"}
  const CERTIFICATION_SIGNATURE :=
    {"certification_signature", "certification_signature_algorithm", "certifier_fingerprint"}
  const REGISTRY_SIGNATURE := {"registry_signature", "registry_signature_algorithm", "publisher_fingerprint"}

  const GATE_RECEIPT := Scheme("receipt_digest", RECEIPT_SIGNATURE,
                               RECEIPT_SIGNATURE, RECEIPT_SIGNATURE + {"receipt_digest"}, false)
  const DEPLOYMENT_RECEIPT := Scheme("receipt_digest", RECEIPT_SIGNATURE,
                                     RECEIPT_SIGNATURE + {"receipt_digest"}, RECEIPT_SIGNATURE + {"receipt_digest"}, false)
  const CERTIFICATION := Scheme("certification_digest", CERTIFICATION_SIGNATURE,
                                CERTIFICATION_SIGNATURE + {"certification_digest"},
                                CERTIFICATION_SIGNATURE + {"certification_digest"}, true)
  const DRIFT_POLICY := Scheme("policy_digest", POLICY_SIGNATURE,
                               {"type"}, POLICY_SIGNATURE + {"type", "policy_digest"}, true)
  const REGISTRY_ENTRY := Scheme("entry_digest", REGISTRY_SIGNATURE,
                                 REGISTRY_SIGNATURE + {"entry_digest"}, REGISTRY_SIGNATURE + {"entry_digest"}, true)
  const REGISTRY_SNAPSHOT := Scheme("snapshot_digest", {}, {"snapshot_digest"}, {"snapshot_digest"}, true)

  const SCHEMES: set<Scheme> :=
    {GATE_RECEIPT, DEPLOYMENT_RECEIPT, CERTIFICATION, DRIFT_POLICY, REGISTRY_ENTRY, REGISTRY_SNAPSHOT}

  // ----- create, sign, verify

  /** Store the digest of a document that is otherwise complete. */
  function Seal(sha: Sha, scheme: Scheme, doc: Doc): Doc {
    doc[scheme.digestField := Str(sha(doc - scheme.creatorExcludes))]
  }

  /** What a signature covers. */
  function SignedContent(scheme: Scheme, doc: Doc): Doc {
    doc - scheme.signatureFields
  }

  /** Add the signature fields. */
  function Sign(scheme: Scheme, doc: Doc, signature: Doc): Doc {
    doc + signature
  }

  function Get(doc: Doc, field: string): Json {
    if field in doc then doc[field] else Str("")
  }

  function StoredDigest(scheme: Scheme, doc: Doc): Json {
    Get(doc, scheme.digestField)
  }

  /** The digest check of the verifiers; each of them is proved to do just this below. */
  predicate DigestHolds(sha: Sha, scheme: Scheme, doc: Doc) {
    var stored := StoredDigest(scheme, doc);
    if !stored.Truthy() then !scheme.digestRequired
    else stored == Str(sha(doc - scheme.verifierExcludes))
  }

  // ----- the digest checks of the verifiers, as each is written

  /** the branch that passes over a missing digest */
  method CheckIfPresent(sha: Sha, doc: Doc, field: string, excluded: set<string>) returns (ok: bool)
    ensures ok <==> (Get(doc, field).Truthy() ==> Get(doc, field) == Str(sha(doc - excluded)))
  {
    ok := true;
    var stored := Get(doc, field);
    if stored.Truthy() {
      var computed := sha(doc - excluded);
      if stored != Str(computed) {
        ok := false;
      }
    }
  }

  /** the branch that refuses a missing digest */
  method CheckRequired(sha: Sha, doc: Doc, field: string, excluded: set<string>) returns (ok: bool)
    ensures ok <==> Get(doc, field).Truthy() && Get(doc, field) == Str(sha(doc - excluded))
  {
    ok := true;
    var stored := Get(doc, field);
    if !stored.Truthy() {
      ok := false;
    } else {
      var recomputed := sha(doc - excluded);
      if stored != Str(recomputed) {
        ok := false;
      }
    }
  }

  /** in `verify_receipt` and in `verify_deployment_receipt`, which exclude the same fields */
  method CheckReceipt(sha: Sha, scheme: Scheme, receipt: Doc) returns (ok: bool)
    requires scheme in {GATE_RECEIPT, DEPLOYMENT_RECEIPT}
    ensures ok == DigestHolds(sha, scheme, receipt)
  {
    var excluded :=
      {"receipt_signature", "receipt_signature_algorithm", "receipt_signer_fingerprint", "receipt_digest"};
    assert excluded == RECEIPT_SIGNATURE + {"receipt_digest"};
    ok := CheckIfPresent(sha, receipt, "receipt_digest", excluded);
  }

  /** in `verify_certification` */
  method CheckCertification(sha: Sha, certification: Doc) returns (ok: bool)
    ensures ok == DigestHolds(sha, CERTIFICATION, certification)
  {
    var excluded := {"certification_signature", "certification_signature_algorithm", "certifier_fingerprint",
                     "certification_digest"};
    assert excluded == CERTIFICATION_SIGNATURE + {"certification_digest"};
    ok := CheckRequired(sha, certification, "certification_digest", excluded);
  }

  /** in `verify_drift_policy_signature` */
  method CheckDriftPolicy(sha: Sha, policy: Doc) returns (ok: bool)
    ensures ok == DigestHolds(sha, DRIFT_POLICY, policy)
  {
    var excluded :=
      {"policy_signature", "policy_signature_algorithm", "policy_signer_fingerprint", "type", "policy_digest"};
    assert excluded == POLICY_SIGNATURE + {"type", "policy_digest"};
    ok := CheckRequired(sha, policy, "policy_digest", excluded);
  }

  /** in `verify_registry_entry`, of an entry that is signed */
  method CheckRegistryEntry(sha: Sha, entry: Doc) returns (ok: bool)
    ensures ok == DigestHolds(sha, REGISTRY_ENTRY, entry)
  {
    var excluded :=
      {"registry_signature", "registry_signature_algorithm", "publisher_fingerprint", "entry_digest"};
    assert excluded == REGISTRY_SIGNATURE + {"entry_digest"};
    ok := CheckRequired(sha, entry, "entry_digest", excluded);
  }

  /** in `verify_registry_snapshot` */
  method CheckRegistrySnapshot(sha: Sha, snapshot: Doc) returns (ok: bool)
    ensures ok == DigestHolds(sha, REGISTRY_SNAPSHOT, snapshot)
  {
    ok := CheckRequired(sha, snapshot, "snapshot_digest", {"snapshot_digest"});
  }

  /** At creation the document has none of the fields that only the verifier excludes. */
  predicate Ready(scheme: Scheme, doc: Doc) {
    doc.Keys !! scheme.Late()
  }

  predicate WellFormed(scheme: Scheme) {
    && scheme.creatorExcludes <= scheme.verifierExcludes
    && scheme.signatureFields <= scheme.verifierExcludes
    && scheme.digestField in scheme.verifierExcludes
    && scheme.digestField !in scheme.signatureFields
  }

  lemma SchemesAreWellFormed(scheme: Scheme)
    requires scheme in SCHEMES
    ensures WellFormed(scheme)
  {
    assert "receipt_digest" !in RECEIPT_SIGNATURE;
    assert "certification_digest" !in CERTIFICATION_SIGNATURE;
    assert "policy_digest" !in POLICY_SIGNATURE;
    assert "entry_digest" !in REGISTRY_SIGNATURE;
  }

  /** For every kind of document: what the verifier recomputes is what the creator stored,
      before signing and after, although their lists of excluded fields differ; and signing
      leaves what the signature covers as it was. */
  lemma SealedVerifies(sha: Sha, scheme: Scheme, doc: Doc, signature: Doc)
    requires scheme in SCHEMES && Ready(scheme, doc)
    requires signature.Keys <= scheme.signatureFields
    requires forall d :: sha(d) != ""
    ensures var sealed := Seal(sha, scheme, doc);
            var signed := Sign(scheme, sealed, signature);
            && DigestHolds(sha, scheme, sealed)
            && DigestHolds(sha, scheme, signed)
            && StoredDigest(scheme, signed) == StoredDigest(scheme, sealed) == Str(sha(doc - scheme.creatorExcludes))
            && SignedContent(scheme, signed) == SignedContent(scheme, sealed)
  {
    SchemesAreWellFormed(scheme);
    SealedCoverage(sha, scheme, doc, signature);
  }

  lemma SealedCoverage(sha: Sha, scheme: Scheme, doc: Doc, signature: Doc)
    requires WellFormed(scheme) && Ready(scheme, doc)
    requires signature.Keys <= scheme.signatureFields
    ensures var sealed := Seal(sha, scheme, doc);
            var signed := Sign(scheme, sealed, signature);
            && scheme.Covered(sealed) == scheme.Covered(signed) == doc - scheme.creatorExcludes
            && SignedContent(scheme, signed) == SignedContent(scheme, sealed)
            && StoredDigest(scheme, signed) == StoredDigest(scheme, sealed)
  {
    var sealed := Seal(sha, scheme, doc);
    var signed := Sign(scheme, sealed, signature);
    assert scheme.Covered(sealed) == doc - scheme.creatorExcludes;
    assert scheme.Covered(signed) == scheme.Covered(sealed);
    assert SignedContent(scheme, signed) == SignedContent(scheme, sealed);
  }

  /** Tampering: a document that keeps the stored digest of a sealed one passes the check if
      and only if every covered field is as it was when sealed, provided the two contents do
      not collide. */
  lemma TamperingIsDetected(sha: Sha, scheme: Scheme, doc: Doc, tampered: Doc)
    requires scheme in SCHEMES && Ready(scheme, doc)
    requires StoredDigest(scheme, tampered) == StoredDigest(scheme, Seal(sha, scheme, doc))
    requires sha(doc - scheme.creatorExcludes) != ""
    requires sha(scheme.Covered(tampered)) == sha(doc - scheme.creatorExcludes)
             ==> scheme.Covered(tampered) == doc - scheme.creatorExcludes
    ensures DigestHolds(sha, scheme, tampered) <==> scheme.Covered(tampered) == scheme.Covered(Seal(sha, scheme, doc))
  {
    SchemesAreWellFormed(scheme);
    SealedCoverage(sha, scheme, doc, map[]);
  }

  /** Taking the digest out of a document defeats the check exactly where a digest is not
      required, which is so for receipts of both kinds. */
  lemma MissingDigest(sha: Sha, scheme: Scheme, doc: Doc)
    requires scheme in SCHEMES && scheme.digestField !in doc
    ensures DigestHolds(sha, scheme, doc) <==> scheme == GATE_RECEIPT || scheme == DEPLOYMENT_RECEIPT
  {
  }

  /** A second seal, as `sign_certification` and `sign_registry_entry` make it, changes
      nothing: the digest does not depend on the digest that is there already. */
  lemma SealingTwice(sha: Sha, scheme: Scheme, doc: Doc)
    requires scheme in {DEPLOYMENT_RECEIPT, CERTIFICATION, REGISTRY_ENTRY, REGISTRY_SNAPSHOT}
    ensures Seal(sha, scheme, Seal(sha, scheme, doc)) == Seal(sha, scheme, doc)
  {
    assert Seal(sha, scheme, doc) - scheme.creatorExcludes == doc - scheme.creatorExcludes;
  }
}
