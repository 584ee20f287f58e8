/** Deployment attestations: generating one, and verifying one under options and a verifier
    profile.  Signatures are checked by an oracle: an option says what it would answer. */
module Attestation {

  import opened Wrappers

  datatype RequiredField =
    | SchemaVersionField | TypeField | RunIdField | GeneratedAtField | BundleShaField
    | BundleSignatureField | PresetField | VerdictField | PlatformField

  datatype Verdict = Compliant | CompliantWithWarnings | NonCompliant | UnknownVerdict(text: string)

  /** "" stands for a field that is absent or blank. */
  datatype Attestation = Attestation(
    missing: set<RequiredField>,
    schemaVersion: string,
    bundleSha: string,
    artifactDigest: string,
    lockfileDigest: string,
    policyId: string,
    policyDigest: string,
    target: string,
    verdict: Verdict,
    deployAllowed: bool,
    signed: bool,
    signerFingerprint: string
  )

  /** The attestation file. */
  datatype File = NotFound | Unparsable | Parsed(attestation: Attestation)

  /** What a caller or a profile expects of the attestation; "" expects nothing. */
  datatype Expectations = Expectations(policyDigest: string, target: string, artifactDigest: string, lockfileDigest: string)

  datatype Profile = Profile(
    signed: bool,
    signerTrusted: bool,
    signatureVerifies: bool,
    requireSignature: bool,
    strictMode: bool,
    expected: Expectations,
    trustedFingerprints: seq<string>,
    allowedSchemas: seq<string>
  )

  datatype ProfileFile = NoProfile | Unloadable | Loaded(profile: Profile)

  /** `signatureVerifies` is what the signature check answers for the given public key. */
  datatype Options = Options(
    pubkeyGiven: bool,
    signatureVerifies: bool,
    requireSignature: bool,
    strict: bool,
    expectedBundleSha: string,
    expected: Expectations,
    profile: ProfileFile,
    requireProfileSignature: bool
  )

  datatype Error =
    | FileNotFound
    | CannotParse
    | CannotLoadProfile
    | ProfileUnsigned
    | ProfileSignatureInvalid
    | ProfileSignerUntrusted
    | SchemaNotAllowed
    | MissingField(field: RequiredField)
    | BundleMismatch
    | ArtifactMismatch
    | LockfileMismatch
    | PolicyMismatch
    | TargetMismatch
    | PolicyNotBound
    | NotCompliant
    | SignatureMissing
    | SignatureInvalid
    | SignatureUnverifiable
    | SignerNotTrusted
    | DeploymentDenied

  // ----- what the options come to

  function Prefer(explicit: string, fromProfile: string): string {
    if explicit != "" then explicit else fromProfile
  }

  /** An option given explicitly wins over the profile; flags add up. */
  function Effective(o: Options): Options {
    if !o.profile.Loaded? then o
    else
      var p := o.profile.profile;
      o.(requireSignature := o.requireSignature || p.requireSignature,
         strict := o.strict || p.strictMode,
         expected := Expectations(
           Prefer(o.expected.policyDigest, p.expected.policyDigest),
           Prefer(o.expected.target, p.expected.target),
           Prefer(o.expected.artifactDigest, p.expected.artifactDigest),
           Prefer(o.expected.lockfileDigest, p.expected.lockfileDigest)))
  }

  predicate Misses(expected: string, actual: string) {
    expected != "" && expected != actual
  }

  // ----- when each error is reported

  predicate ProfileError(o: Options, a: Attestation, e: Error)
    requires o.profile.Loaded?
  {
    var p := o.profile.profile;
    match e
    case ProfileUnsigned => o.requireProfileSignature && !p.signed
    case ProfileSignatureInvalid => p.signed && p.signerTrusted && !p.signatureVerifies
    case ProfileSignerUntrusted => p.signed && !p.signerTrusted
    case SchemaNotAllowed => p.allowedSchemas != [] && a.schemaVersion !in p.allowedSchemas
    case SignerNotTrusted =>
      p.trustedFingerprints != [] && a.signerFingerprint != "" && a.signerFingerprint !in p.trustedFingerprints
    case _ => false
  }

  /** The errors of the options in force, `o` being effective. */
  predicate OptionError(o: Options, a: Attestation, e: Error) {
    match e
    case MissingField(field) => field in a.missing
    case BundleMismatch => Misses(o.expectedBundleSha, a.bundleSha)
    case ArtifactMismatch => Misses(o.expected.artifactDigest, a.artifactDigest)
    case LockfileMismatch => Misses(o.expected.lockfileDigest, a.lockfileDigest)
    case PolicyMismatch => Misses(o.expected.policyDigest, a.policyDigest)
    case TargetMismatch => Misses(o.expected.target, a.target)
    case PolicyNotBound => o.strict && a.policyId == ""
    case NotCompliant => o.strict && a.verdict == NonCompliant
    case SignatureMissing => o.requireSignature && !a.signed
    case SignatureInvalid => a.signed && o.pubkeyGiven && !o.signatureVerifies
    case SignatureUnverifiable => o.requireSignature && a.signed && !o.pubkeyGiven
    case DeploymentDenied => o.strict && !a.deployAllowed
    case _ => false
  }

  /** Every error `verify_attestation` reports. */
  predicate Reports(file: File, o: Options, e: Error) {
    match file
    case NotFound => e == FileNotFound
    case Unparsable => e == CannotParse
    case Parsed(a) =>
      if o.profile.Unloadable? then e == CannotLoadProfile
      else (o.profile.Loaded? && ProfileError(o, a, e)) || OptionError(Effective(o), a, e)
  }

  ghost predicate Accepts(file: File, o: Options) {
    forall e :: !Reports(file, o, e)
  }

  // ----- verify_attestation

  method VerifyAttestation(file: File, options: Options) returns (valid: bool, errors: seq<Error>)
    ensures forall e :: e in errors <==> Reports(file, options, e)
    ensures valid <==> Accepts(file, options)
  {
    errors := [];
    valid := true;
    match file {
    case NotFound =>
      errors := [FileNotFound];
    case Unparsable =>
      errors := [CannotParse];
    case Parsed(a) =>
      if options.profile.Unloadable? {
        errors := [CannotLoadProfile];
      } else {
        var o := options;
        if options.profile.Loaded? {
          errors := ProfileErrors(options, a);
          o := Override(options);
        }
        var more := OptionErrors(o, a);
        errors := errors + more;
      }
    }
    if errors != [] {
      valid := false;
    }
    NoErrorsIff(file, options, errors);
  }

  lemma NoErrorsIff(file: File, options: Options, errors: seq<Error>)
    requires forall e :: e in errors <==> Reports(file, options, e)
    ensures errors == [] <==> Accepts(file, options)
  {
    if errors != [] {
      assert Reports(file, options, errors[0]);
    } else {
      assert forall e :: e !in errors;
    }
  }

  /** The profile overrides what the caller left unset. */
  method Override(o: Options) returns (r: Options)
    requires o.profile.Loaded?
    ensures r == Effective(o)
  {
    var p := o.profile.profile;
    var requireSignature, strict, expected := o.requireSignature, o.strict, o.expected;
    if p.requireSignature && !requireSignature {
      requireSignature := true;
    }
    if p.strictMode && !strict {
      strict := true;
    }
    if p.expected.policyDigest != "" && expected.policyDigest == "" {
      expected := expected.(policyDigest := p.expected.policyDigest);
    }
    if p.expected.target != "" && expected.target == "" {
      expected := expected.(target := p.expected.target);
    }
    if p.expected.artifactDigest != "" && expected.artifactDigest == "" {
      expected := expected.(artifactDigest := p.expected.artifactDigest);
    }
    if p.expected.lockfileDigest != "" && expected.lockfileDigest == "" {
      expected := expected.(lockfileDigest := p.expected.lockfileDigest);
    }
    r := o.(requireSignature := requireSignature, strict := strict, expected := expected);
  }

  method ProfileErrors(o: Options, a: Attestation) returns (errors: seq<Error>)
    requires o.profile.Loaded?
    ensures forall e :: e in errors <==> ProfileError(o, a, e)
  {
    var p := o.profile.profile;
    errors := [];
    if o.requireProfileSignature && !p.signed {
      errors := errors + [ProfileUnsigned];
    } else if p.signed {
      if p.signerTrusted {
        if !p.signatureVerifies {
          errors := errors + [ProfileSignatureInvalid];
        }
      } else {
        errors := errors + [ProfileSignerUntrusted];
      }
    }
    if p.allowedSchemas != [] && a.schemaVersion !in p.allowedSchemas {
      errors := errors + [SchemaNotAllowed];
    }
    if p.trustedFingerprints != [] {
      if a.signerFingerprint != "" && a.signerFingerprint !in p.trustedFingerprints {
        errors := errors + [SignerNotTrusted];
      }
    }
  }

  method OptionErrors(o: Options, a: Attestation) returns (errors: seq<Error>)
    ensures forall e :: e in errors <==> OptionError(o, a, e)
  {
    var missing := MissingFields(a);
    var misses := ExpectationErrors(o, a);
    var strict := StrictErrors(o, a);
    var signature := SignatureErrors(o, a);
    errors := missing + misses + strict + signature;
  }

  method ExpectationErrors(o: Options, a: Attestation) returns (errors: seq<Error>)
    ensures forall e :: e in errors <==>
              OptionError(o, a, e)
              && (e.BundleMismatch? || e.ArtifactMismatch? || e.LockfileMismatch? || e.PolicyMismatch? || e.TargetMismatch?)
  {
    var bundle := Compare(o.expectedBundleSha, a.bundleSha, BundleMismatch);
    var artifact := Compare(o.expected.artifactDigest, a.artifactDigest, ArtifactMismatch);
    var lockfile := Compare(o.expected.lockfileDigest, a.lockfileDigest, LockfileMismatch);
    var policy := [];
    if o.expected.policyDigest != "" {
      if a.policyDigest == "" {
        policy := [PolicyMismatch];
      } else if o.expected.policyDigest != a.policyDigest {
        policy := [PolicyMismatch];
      }
    }
    var target := Compare(o.expected.target, a.target, TargetMismatch);
    errors := bundle + artifact + lockfile + policy + target;
  }

  method Compare(expected: string, actual: string, mismatch: Error) returns (errors: seq<Error>)
    ensures forall e :: e in errors <==> e == mismatch && Misses(expected, actual)
  {
    errors := [];
    if expected != "" {
      if expected != actual {
        errors := [mismatch];
      }
    }
  }

  method StrictErrors(o: Options, a: Attestation) returns (errors: seq<Error>)
    ensures forall e :: e in errors <==>
              OptionError(o, a, e) && (e.PolicyNotBound? || e.NotCompliant? || e.DeploymentDenied?)
  {
    errors := [];
    if o.strict {
      if a.policyId == "" {
        errors := errors + [PolicyNotBound];
      }
    }
    if o.strict && a.verdict == NonCompliant {
      errors := errors + [NotCompliant];
    }
    if o.strict && !a.deployAllowed {
      errors := errors + [DeploymentDenied];
    }
  }

  method SignatureErrors(o: Options, a: Attestation) returns (errors: seq<Error>)
    ensures forall e :: e in errors <==>
              OptionError(o, a, e) && (e.SignatureMissing? || e.SignatureInvalid? || e.SignatureUnverifiable?)
  {
    errors := [];
    if o.pubkeyGiven {
      if !a.signed {
        if o.requireSignature {
          errors := errors + [SignatureMissing];
        }
      } else {
        if !o.signatureVerifies {
          errors := errors + [SignatureInvalid];
        }
      }
    } else if a.signed {
      if o.requireSignature {
        errors := errors + [SignatureUnverifiable];
      }
    } else if o.requireSignature {
      errors := errors + [SignatureMissing];
    }
  }

  method MissingFields(a: Attestation) returns (errors: seq<Error>)
    ensures forall e :: e in errors <==> e.MissingField? && e.field in a.missing
  {
    errors := [];
    var rest := a.missing;
    while rest != {}
      invariant rest <= a.missing
      invariant forall e :: e in errors <==> e.MissingField? && e.field in a.missing && e.field !in rest
      decreases rest
    {
      var field :| field in rest;
      rest := rest - {field};
      errors := errors + [MissingField(field)];
    }
  }

  // ----- options only tighten

  predicate NoLooser(less: string, more: string) {
    less == "" || less == more
  }

  /** What `more` asks for includes what `less` asks for; the public key is the same. */
  predicate AsksMore(less: Options, more: Options) {
    && less.pubkeyGiven == more.pubkeyGiven && less.signatureVerifies == more.signatureVerifies
    && (less.requireSignature ==> more.requireSignature)
    && (less.strict ==> more.strict)
    && (less.requireProfileSignature ==> more.requireProfileSignature)
    && (less.profile.NoProfile? || less.profile == more.profile)
    && NoLooser(less.expectedBundleSha, more.expectedBundleSha)
    && NoLooser(less.expected.policyDigest, more.expected.policyDigest)
    && NoLooser(less.expected.target, more.expected.target)
    && NoLooser(less.expected.artifactDigest, more.expected.artifactDigest)
    && NoLooser(less.expected.lockfileDigest, more.expected.lockfileDigest)
  }

  /** `more` gives an expectation that `less` leaves to a profile, which expects something else. */
  predicate Overrides(less: string, more: string, fromProfile: string) {
    less == "" && more != "" && fromProfile != "" && fromProfile != more
  }

  predicate OverridesProfile(less: Options, more: Options) {
    && less.profile.Loaded?
    && var p := less.profile.profile.expected;
       || Overrides(less.expected.policyDigest, more.expected.policyDigest, p.policyDigest)
       || Overrides(less.expected.target, more.expected.target, p.target)
       || Overrides(less.expected.artifactDigest, more.expected.artifactDigest, p.artifactDigest)
       || Overrides(less.expected.lockfileDigest, more.expected.lockfileDigest, p.lockfileDigest)
  }

  /** Asking for more never accepts what was rejected, on any file and across every branch,
      with one exception, which is exact: an explicit expectation takes the place of what a
      profile already in force expects.  So what the stricter options accept, the laxer ones
      accept if and only if nothing in the profile was overridden. */
  lemma TighteningIff(file: File, less: Options, more: Options)
    requires AsksMore(less, more) && Accepts(file, more)
    ensures Accepts(file, less) <==> !OverridesProfile(less, more)
  {
    assert !Reports(file, more, FileNotFound) && !Reports(file, more, CannotParse) && !Reports(file, more, CannotLoadProfile);
    hide OptionError, ProfileError, Effective, OverridesProfile, AsksMore;
    var a := file.attestation;
    if OverridesProfile(less, more) {
      OverrideIsRejected(a, less, more);
    } else {
      forall e ensures !Reports(file, less, e) {
        ErrorsGrow(a, less, more, e);
        assert !Reports(file, more, e);
      }
    }
  }

  /** Such an override: the profile expects target "t1", the attestation is of "t2", and the
      explicit expectation of "t2" is what makes it acceptable. */
  lemma AnOptionLoosens() returns (a: Attestation, less: Options, more: Options)
    ensures AsksMore(less, more) && OverridesProfile(less, more)
    ensures Accepts(Parsed(a), more) && !Accepts(Parsed(a), less)
  {
    var profile := Profile(false, false, false, false, false, Expectations("", "t1", "", ""), [], []);
    a := Attestation({}, "1", "b", "", "", "", "", "t2", Compliant, true, false, "");
    less := Options(false, false, false, false, "", Expectations("", "", "", ""), Loaded(profile), false);
    more := less.(expected := Expectations("", "t2", "", ""));
    assert Reports(Parsed(a), less, TargetMismatch);
  }

  lemma OverrideIsRejected(a: Attestation, less: Options, more: Options)
    requires AsksMore(less, more) && Accepts(Parsed(a), more) && OverridesProfile(less, more)
    ensures !Accepts(Parsed(a), less)
  {
    Agreements(a, more);
    var l := Effective(less).expected;
    var e := if Misses(l.policyDigest, a.policyDigest) then PolicyMismatch
             else if Misses(l.target, a.target) then TargetMismatch
             else if Misses(l.artifactDigest, a.artifactDigest) then ArtifactMismatch
             else LockfileMismatch;
    assert Reports(Parsed(a), less, e);
  }

  /** What acceptance says about the expectations in force. */
  lemma Agreements(a: Attestation, o: Options)
    requires Accepts(Parsed(a), o)
    ensures var expected := Effective(o).expected;
            && expected.policyDigest in {"", a.policyDigest} && expected.target in {"", a.target}
            && expected.artifactDigest in {"", a.artifactDigest} && expected.lockfileDigest in {"", a.lockfileDigest}
  {
    assert !Reports(Parsed(a), o, CannotLoadProfile);
    assert !Reports(Parsed(a), o, PolicyMismatch);
    assert !Reports(Parsed(a), o, TargetMismatch);
    assert !Reports(Parsed(a), o, ArtifactMismatch);
    assert !Reports(Parsed(a), o, LockfileMismatch);
  }

  /** What is in force under a profile: each expectation is the explicit one or, where there is
      none, the profile's of the same name; a flag is on if either sets it. */
  lemma EffectiveIs(o: Options, p: Profile)
    requires o.profile == Loaded(p)
    ensures var e := Effective(o);
            && (e.strict <==> o.strict || p.strictMode) && (e.requireSignature <==> o.requireSignature || p.requireSignature)
            && e.expected.policyDigest in {o.expected.policyDigest, p.expected.policyDigest}
            && e.expected.target in {o.expected.target, p.expected.target}
            && e.expected.artifactDigest in {o.expected.artifactDigest, p.expected.artifactDigest}
            && e.expected.lockfileDigest in {o.expected.lockfileDigest, p.expected.lockfileDigest}
            && (o.expected.policyDigest != "" ==> e.expected.policyDigest == o.expected.policyDigest)
            && (o.expected.target != "" ==> e.expected.target == o.expected.target)
            && (o.expected.artifactDigest != "" ==> e.expected.artifactDigest == o.expected.artifactDigest)
            && (o.expected.lockfileDigest != "" ==> e.expected.lockfileDigest == o.expected.lockfileDigest)
            && (e.expected.policyDigest == "" ==> p.expected.policyDigest == "")
            && (e.expected.target == "" ==> p.expected.target == "")
            && (e.expected.artifactDigest == "" ==> p.expected.artifactDigest == "")
            && (e.expected.lockfileDigest == "" ==> p.expected.lockfileDigest == "")
  {
  }

  lemma EffectiveAsksMore(less: Options, more: Options)
    requires AsksMore(less, more) && !OverridesProfile(less, more) && !more.profile.Unloadable?
    ensures var l, m := Effective(less), Effective(more);
            && AsksMore(l, m)
            && (l.expected.policyDigest == "" || l.expected.policyDigest == m.expected.policyDigest)
  {
    PreferAsksMore();
    hide Prefer, Overrides;
  }

  lemma PreferAsksMore()
    ensures forall less: string, more: string, p: string {:trigger Prefer(less, p), Prefer(more, p)} ::
              NoLooser(less, more) && !Overrides(less, more, p) ==> NoLooser(Prefer(less, p), Prefer(more, p))
    ensures forall less: string, more: string, p: string {:trigger NoLooser(less, more), Prefer(more, p)} ::
              NoLooser(less, more) ==> NoLooser(less, Prefer(more, p))
  {
  }

  lemma OptionErrorsGrow(less: Options, more: Options, a: Attestation, e: Error)
    requires AsksMore(less, more) && OptionError(less, a, e)
    ensures OptionError(more, a, e)
  {
  }

  /** Unless a profile was overridden, every error of the laxer options is one of the stricter. */
  lemma ErrorsGrow(a: Attestation, less: Options, more: Options, e: Error)
    requires AsksMore(less, more) && !OverridesProfile(less, more) && !more.profile.Unloadable?
    ensures Reports(Parsed(a), less, e) ==> Reports(Parsed(a), more, e)
  {
    hide Effective, OverridesProfile, OptionError;
    EffectiveAsksMore(less, more);
    if OptionError(Effective(less), a, e) {
      OptionErrorsGrow(Effective(less), Effective(more), a, e);
    }
  }

  // ----- generating, and verifying what was generated

  /** What is read from the audit bundle. */
  datatype Bundle = Bundle(sha256: string, verdict: Verdict, signerFingerprint: string)

  datatype Request = Request(
    target: string,
    artifactDigest: string,
    lockfileDigest: string,
    policyId: string,
    policyVersion: string,
    signerFingerprint: Option<string>  // of the key the attestation is signed with, if it is
  )

  function PolicyDigest(sha: string -> string, r: Request): string {
    if r.policyId == "" then "" else sha(r.policyId + ":" + if r.policyVersion != "" then r.policyVersion else "1")
  }

  predicate VerdictAllows(v: Verdict) {
    v == Compliant || v == CompliantWithWarnings
  }

  /** The decision fields of `generate_attestation`. */
  function Generate(sha: string -> string, b: Bundle, r: Request): Attestation {
    Attestation({}, "1", b.sha256, r.artifactDigest, r.lockfileDigest, r.policyId, PolicyDigest(sha, r), r.target,
                b.verdict, VerdictAllows(b.verdict), r.signerFingerprint.Some?,
                if r.signerFingerprint.Some? then r.signerFingerprint.value else b.signerFingerprint)
  }

  /** The options in force expect nothing but what the attestation was generated from. */
  predicate Matching(sha: string -> string, b: Bundle, r: Request, o: Options) {
    && o.expectedBundleSha in {"", b.sha256}
    && o.expected.policyDigest in {"", PolicyDigest(sha, r)}
    && o.expected.target in {"", r.target}
    && o.expected.artifactDigest in {"", r.artifactDigest}
    && o.expected.lockfileDigest in {"", r.lockfileDigest}
  }

  /** A profile is signed as far as that is asked for, by a trusted signer, and admits the
      attestation's schema version and signer. */
  predicate ProfileAdmits(o: Options, schemaVersion: string, fingerprint: string)
    requires o.profile.Loaded?
  {
    var p := o.profile.profile;
    && (o.requireProfileSignature ==> p.signed)
    && (p.signed ==> p.signerTrusted && p.signatureVerifies)
    && (p.allowedSchemas == [] || schemaVersion in p.allowedSchemas)
    && (p.trustedFingerprints == [] || fingerprint == "" || fingerprint in p.trustedFingerprints)
  }

  /** The fingerprint an attestation shows: that of the key it was signed with, or else the
      bundle's. */
  function Shown(b: Bundle, r: Request): string {
    match r.signerFingerprint
    case Some(own) => own
    case None => b.signerFingerprint
  }

  /** A generated attestation satisfies strict mode and the signature requirements. */
  predicate Presentable(b: Bundle, r: Request, o: Options) {
    && (o.strict ==> (b.verdict == Compliant || b.verdict == CompliantWithWarnings) && r.policyId != "")
    && (o.requireSignature ==> r.signerFingerprint.Some? && o.pubkeyGiven)
    && (r.signerFingerprint.Some? && o.pubkeyGiven ==> o.signatureVerifies)
  }

  /** Round trip, under any options and any profile: a generated attestation is accepted if and
      only if the profile could be loaded and admits it, the options in force expect what it
      was generated from, its verdict was compliant and a policy was named under strict, and
      its signature is there and verifies as far as that is asked for. */
  lemma GenerateThenVerify(sha: string -> string, b: Bundle, r: Request, o: Options)
    ensures Accepts(Parsed(Generate(sha, b, r)), o) <==>
              && !o.profile.Unloadable?
              && (o.profile.Loaded? ==> ProfileAdmits(o, "1", Shown(b, r)))
              && Matching(sha, b, r, Effective(o))
              && Presentable(b, r, Effective(o))
  {
    var a := Generate(sha, b, r);
    assert a.schemaVersion == "1" && a.signerFingerprint == Shown(b, r);
    hide Effective, Generate, Shown;
    if o.profile.Unloadable? {
      assert Reports(Parsed(a), o, CannotLoadProfile);
    } else {
      GeneratedOptionErrors(sha, b, r, Effective(o));
      if o.profile.Loaded? {
        AdmittedIff(o, a);
      }
      assert forall e :: Reports(Parsed(a), o, e) <==>
                (o.profile.Loaded? && ProfileError(o, a, e)) || OptionError(Effective(o), a, e);
    }
  }

  lemma AdmittedIff(o: Options, a: Attestation)
    requires o.profile.Loaded?
    ensures ProfileAdmits(o, a.schemaVersion, a.signerFingerprint) <==> forall e :: !ProfileError(o, a, e)
  {
    var p := o.profile.profile;
    assert ProfileError(o, a, ProfileUnsigned) <==> o.requireProfileSignature && !p.signed;
    assert ProfileError(o, a, ProfileSignatureInvalid) <==> p.signed && p.signerTrusted && !p.signatureVerifies;
    assert ProfileError(o, a, ProfileSignerUntrusted) <==> p.signed && !p.signerTrusted;
    assert ProfileError(o, a, SchemaNotAllowed) <==> p.allowedSchemas != [] && a.schemaVersion !in p.allowedSchemas;
    assert ProfileError(o, a, SignerNotTrusted) <==>
             p.trustedFingerprints != [] && a.signerFingerprint != "" && a.signerFingerprint !in p.trustedFingerprints;
  }

  lemma GeneratedOptionErrors(sha: string -> string, b: Bundle, r: Request, o: Options)
    ensures (forall e :: !OptionError(o, Generate(sha, b, r), e)) <==> Matching(sha, b, r, o) && Presentable(b, r, o)
  {
    hide PolicyDigest;
    var a := Generate(sha, b, r);
    if forall e :: !OptionError(o, a, e) {
      assert !OptionError(o, a, BundleMismatch) && !OptionError(o, a, PolicyMismatch) && !OptionError(o, a, TargetMismatch);
      assert !OptionError(o, a, ArtifactMismatch) && !OptionError(o, a, LockfileMismatch);
      assert !OptionError(o, a, DeploymentDenied) && !OptionError(o, a, PolicyNotBound);
      assert !OptionError(o, a, SignatureMissing) && !OptionError(o, a, SignatureUnverifiable);
      assert !OptionError(o, a, SignatureInvalid);
    }
  }

  /** A generated attestation that any strict verification accepts, whatever the other options
      and the profile, had a compliant verdict and a policy bound to it by its digest. */
  lemma StrictAcceptance(sha: string -> string, b: Bundle, r: Request, o: Options)
    requires Accepts(Parsed(Generate(sha, b, r)), o) && Effective(o).strict
    ensures (b.verdict == Compliant || b.verdict == CompliantWithWarnings) && r.policyId != ""
    ensures Generate(sha, b, r).policyDigest == sha(r.policyId + ":" + if r.policyVersion != "" then r.policyVersion else "1")
  {
    var file := Parsed(Generate(sha, b, r));
    assert !Reports(file, o, CannotLoadProfile);
    assert !Reports(file, o, DeploymentDenied);
    assert !Reports(file, o, PolicyNotBound);
  }

  /** Verification reads the verdict of an attestation only to refuse "non_compliant" under
      strict: whatever is accepted stays accepted with another verdict exactly unless that is
      the one.  So a strictly accepted attestation, which need not have been generated here,
      has an allowing verdict if and only if its verdict is known at all. */
  lemma StrictTrustsTheClaim(a: Attestation, o: Options, verdict: Verdict)
    requires Accepts(Parsed(a), o)
    ensures Accepts(Parsed(a.(verdict := verdict)), o) <==> !(Effective(o).strict && verdict == NonCompliant)
    ensures Effective(o).strict ==>
              (a.verdict == Compliant || a.verdict == CompliantWithWarnings <==> !a.verdict.UnknownVerdict?)
  {
    hide Effective, ProfileError;
    assert !Reports(Parsed(a), o, CannotLoadProfile) && !Reports(Parsed(a), o, NotCompliant);
    var b := a.(verdict := verdict);
    SameProfileErrors(o, a, verdict);
    if Effective(o).strict && verdict == NonCompliant {
      assert Reports(Parsed(b), o, NotCompliant);
    } else {
      forall e ensures !Reports(Parsed(b), o, e) {
        assert !Reports(Parsed(a), o, e);
      }
    }
  }

  lemma SameProfileErrors(o: Options, a: Attestation, verdict: Verdict)
    ensures o.profile.Loaded? ==> forall e :: ProfileError(o, a, e) <==> ProfileError(o, a.(verdict := verdict), e)
  {
  }

  /** An attestation that strict verification accepts though nobody knows its verdict. */
  lemma UnknownVerdictIsAccepted(text: string) returns (a: Attestation, o: Options)
    ensures o.strict && Accepts(Parsed(a), o) && a.verdict == UnknownVerdict(text)
  {
    a := Attestation({}, "1", "b", "", "", "policy", "", "", UnknownVerdict(text), true, false, "");
    o := Options(false, false, false, true, "", Expectations("", "", "", ""), NoProfile, false);
  }
}
