/** Drift detection: `check_drift`, its policies and evidence strengths. */
module Drift {

  import opened Wrappers

  datatype Field = ArtifactDigest | FinalPath | ServiceState | TargetIdentity | PolicyDigest | DeploymentReceiptDigest

  /** One value per field, "" where there is none. */
  datatype Values = Values(
    artifactDigest: string,
    finalPath: string,
    serviceState: string,
    targetIdentity: string,
    policyDigest: string,
    deploymentReceiptDigest: string
  ) {
    function At(f: Field): string {
      match f
      case ArtifactDigest => artifactDigest
      case FinalPath => finalPath
      case ServiceState => serviceState
      case TargetIdentity => targetIdentity
      case PolicyDigest => policyDigest
      case DeploymentReceiptDigest => deploymentReceiptDigest
    }
  }

  // ----- evidence strength

  datatype Strength = Unavailable | Inferred | Observed | Verified {
    function Rank(): nat {
      match this
      case Unavailable => 0
      case Inferred => 1
      case Observed => 2
      case Verified => 3
    }
  }

  /** A minimum strength as written in a policy; a word that is no level ranks lowest. */
  datatype Minimum = Level(strength: Strength) | Unrecognised(word: string)

  predicate StrengthMeets(minimum: Minimum, actual: Strength) {
    actual.Rank() >= if minimum.Level? then minimum.strength.Rank() else 0
  }

  const INFERRED_SOURCES: set<string> := {"configuration", "manifest", "config", "release_record"}

  function ClassifyStrength(observed: string, source: string): Strength {
    if observed == "" then Unavailable
    else if source in INFERRED_SOURCES then Inferred
    else Observed
  }

  // ----- policies

  datatype Status = Active | Deprecated | Revoked | OtherStatus(name: string)

  /** Lists are the normalised ones: an empty list of required fields was replaced by all fields. */
  datatype DriftPolicy = DriftPolicy(
    requiredFields: seq<Field>,
    advisoryFields: seq<Field>,
    ignoredFields: seq<Field>,
    acceptableDrift: map<Field, seq<string>>,
    strengthRequired: map<Field, Minimum>,
    strictMode: bool,
    validFrom: Option<int>,
    validUntil: Option<int>,
    status: Status
  ) {
    function MinStrength(f: Field): Minimum {
      if f in strengthRequired then strengthRequired[f] else Level(Unavailable)
    }

    predicate IsAcceptable(f: Field, observed: string) {
      f in acceptableDrift && observed in acceptableDrift[f]
    }

    /** `check_validity`: any status that is neither revoked nor deprecated will do. */
    predicate Valid(now: int) {
      && status != Revoked && status != Deprecated
      && (validFrom.Some? ==> now >= validFrom.value)
      && (validUntil.Some? ==> now <= validUntil.value)
    }
  }

  // ----- what a check means, field by field

  datatype Comparison = Ignored | NotObserved | ExpectedMissing | Match | AcceptableDrift | Mismatch

  function Compare(p: DriftPolicy, f: Field, expected: string, observed: string): Comparison {
    if f in p.ignoredFields then Ignored
    else if observed == "" then NotObserved
    else if expected == "" then ExpectedMissing
    else if expected == observed then Match
    else if p.IsAcceptable(f, observed) then AcceptableDrift
    else Mismatch
  }

  /** Everything one check looks at. */
  datatype Check = Check(
    policy: DriftPolicy,
    expected: Values,
    observed: Values,
    source: string,
    fieldSources: map<Field, string>
  ) {
    function ComparisonOf(f: Field): Comparison {
      Compare(policy, f, expected.At(f), observed.At(f))
    }

    function SourceOf(f: Field): string {
      if f in fieldSources then fieldSources[f] else source
    }

    function StrengthOf(f: Field): Strength {
      ClassifyStrength(observed.At(f), SourceOf(f))
    }

    predicate Counted(f: Field) {
      f !in policy.ignoredFields
    }

    /** Enough evidence for what the policy asks of the field. */
    predicate StrongEnough(f: Field) {
      StrengthMeets(policy.MinStrength(f), StrengthOf(f))
    }

    /** A required field that does not meet the policy, and how. */
    predicate Fails(failure: Failure) {
      var f := failure.field;
      && Counted(f) && f in policy.requiredFields
      && match failure.kind
         case UnavailableField => ComparisonOf(f) == NotObserved
         case MismatchedField => ComparisonOf(f) == Mismatch
         case NothingExpected => ComparisonOf(f) == ExpectedMissing
         case InsufficientEvidence => !StrongEnough(f)
    }

    /** What the final list of drift fields holds. */
    ghost predicate Reported(item: Label, now: int) {
      match item
      case PolicyLifecycle => policy.strictMode && !policy.Valid(now)
      case OfField(f) =>
        || ComparisonOf(f) == Mismatch
        || (policy.strictMode && FailsSomehow(f))
    }

    ghost predicate FailsSomehow(f: Field) {
      exists kind :: Fails(Failure(f, kind))
    }
  }

  datatype FailureKind = UnavailableField | MismatchedField | NothingExpected | InsufficientEvidence

  datatype Failure = Failure(field: Field, kind: FailureKind)

  datatype Label = OfField(field: Field) | PolicyLifecycle

  datatype Detail = Detail(comparison: Comparison, source: string, strength: Strength)

  datatype DriftResult = DriftResult(
    driftDetected: bool,
    driftFields: seq<Label>,
    valid: bool,
    details: map<Field, Detail>,
    failures: seq<Failure>,
    warnings: seq<Field>,
    strengths: map<Strength, nat>
  )

  // ----- releases

  datatype Release = Release(
    artifactDigest: string,
    artifactPath: string,
    finalDeploymentState: string,
    target: string,
    verifierProfileDigest: string,
    deploymentReceiptDigest: string
  )

  function ExpectedOf(r: Release): Values {
    Values(r.artifactDigest, r.artifactPath,
           if r.finalDeploymentState == "applied" then "running" else r.finalDeploymentState,
           r.target, r.verifierProfileDigest, r.deploymentReceiptDigest)
  }

  /** A target that was not observed is taken to be the one asked about. */
  function ObservedOf(target: string, observed: Values): Values {
    if observed.targetIdentity != "" then observed else observed.(targetIdentity := target)
  }

  // ----- the same by the names of the fields

  /** What a release leads to expect of each field. */
  function ExpectedByName(r: Release, f: Field): string {
    match f
    case ArtifactDigest => r.artifactDigest
    case FinalPath => r.artifactPath
    case ServiceState => if r.finalDeploymentState == "applied" then "running" else r.finalDeploymentState
    case TargetIdentity => r.target
    case PolicyDigest => r.verifierProfileDigest
    case DeploymentReceiptDigest => r.deploymentReceiptDigest
  }

  /** What was observed of each field; the target asked about stands in for a blank identity. */
  function ObservedByName(target: string, o: Values, f: Field): string {
    match f
    case ArtifactDigest => o.artifactDigest
    case FinalPath => o.finalPath
    case ServiceState => o.serviceState
    case TargetIdentity => if o.targetIdentity == "" then target else o.targetIdentity
    case PolicyDigest => o.policyDigest
    case DeploymentReceiptDigest => o.deploymentReceiptDigest
  }

  /** Two values that are both there and differ, which the policy neither ignores nor accepts. */
  predicate Departs(p: DriftPolicy, f: Field, expected: string, observed: string) {
    && f !in p.ignoredFields
    && expected != "" && observed != "" && expected != observed
    && !(f in p.acceptableDrift && observed in p.acceptableDrift[f])
  }

  /** The evidence is weaker than the minimum that the policy spells out. */
  predicate TooWeak(p: DriftPolicy, f: Field, observed: string, source: string) {
    && f in p.strengthRequired
    && match p.strengthRequired[f]
       case Unrecognised(_) => false
       case Level(Unavailable) => false
       case Level(Inferred) => observed == ""
       case Level(Observed) => observed == "" || source in {"configuration", "manifest", "config", "release_record"}
       case Level(Verified) => true
  }

  predicate OutOfForce(p: DriftPolicy, now: int) {
    || p.status == Revoked || p.status == Deprecated
    || (p.validFrom.Some? && now < p.validFrom.value)
    || (p.validUntil.Some? && now > p.validUntil.value)
  }

  /** What a check reports, by the release, the observation and the policy. */
  predicate ReportedByName(policy: DriftPolicy, release: Release, target: string, observed: Values, source: string,
                           fieldSources: map<Field, string>, now: int, item: Label)
  {
    match item
    case PolicyLifecycle => policy.strictMode && OutOfForce(policy, now)
    case OfField(f) =>
      var e, o := ExpectedByName(release, f), ObservedByName(target, observed, f);
      || Departs(policy, f, e, o)
      || (&& policy.strictMode && f in policy.requiredFields && f !in policy.ignoredFields
          && (e == "" || o == "" || TooWeak(policy, f, o, if f in fieldSources then fieldSources[f] else source)))
  }

  lemma ValuesByName(release: Release, target: string, observed: Values, f: Field)
    ensures ExpectedOf(release).At(f) == ExpectedByName(release, f)
    ensures ObservedOf(target, observed).At(f) == ObservedByName(target, observed, f)
  {
  }

  lemma ComparedByName(check: Check, f: Field)
    ensures check.ComparisonOf(f) == Mismatch <==> Departs(check.policy, f, check.expected.At(f), check.observed.At(f))
    ensures check.ComparisonOf(f) == NotObserved <==> f !in check.policy.ignoredFields && check.observed.At(f) == ""
    ensures check.ComparisonOf(f) == ExpectedMissing <==>
              f !in check.policy.ignoredFields && check.observed.At(f) != "" && check.expected.At(f) == ""
    ensures check.Counted(f) ==>
              (!check.StrongEnough(f) <==> TooWeak(check.policy, f, check.observed.At(f), check.SourceOf(f)))
  {
    if f in check.policy.strengthRequired && check.policy.strengthRequired[f].Level? {
      var level := check.policy.strengthRequired[f].strength;
      assert level.Rank() <= 3;
    }
  }

  /** How strong the evidence of a field is: none, or from a source that only infers, or observed. */
  lemma StrengthByName(check: Check, f: Field)
    ensures var source := if f in check.fieldSources then check.fieldSources[f] else check.source;
            check.StrengthOf(f) ==
              if check.observed.At(f) == "" then Unavailable
              else if source in {"configuration", "manifest", "config", "release_record"} then Inferred
              else Observed
  {
  }

  /** The reported items are those told by name. */
  lemma ReportedIff(policy: DriftPolicy, release: Release, target: string, observed: Values, source: string,
                    fieldSources: map<Field, string>, now: int, item: Label)
    ensures Check(policy, ExpectedOf(release), ObservedOf(target, observed), source, fieldSources).Reported(item, now)
       <==> ReportedByName(policy, release, target, observed, source, fieldSources, now, item)
  {
    var check := Check(policy, ExpectedOf(release), ObservedOf(target, observed), source, fieldSources);
    if item.OfField? {
      var f := item.field;
      ValuesByName(release, target, observed, f);
      ComparedByName(check, f);
      FailsSomehowIff(check, f);
      hide ExpectedOf, ObservedOf, Values.At, Check.ComparisonOf, Check.FailsSomehow, Check.StrongEnough, ExpectedByName,
           ObservedByName, TooWeak, Departs;
    }
  }

  lemma FailsSomehowIff(check: Check, f: Field)
    ensures check.FailsSomehow(f) <==>
              && check.Counted(f) && f in check.policy.requiredFields
              && (check.ComparisonOf(f) in {NotObserved, Mismatch, ExpectedMissing} || !check.StrongEnough(f))
  {
    hide Check.Counted, Check.ComparisonOf, Check.StrongEnough;
    assert check.Fails(Failure(f, UnavailableField)) <==>
             check.Counted(f) && f in check.policy.requiredFields && check.ComparisonOf(f) == NotObserved;
    assert check.Fails(Failure(f, MismatchedField)) <==>
             check.Counted(f) && f in check.policy.requiredFields && check.ComparisonOf(f) == Mismatch;
    assert check.Fails(Failure(f, NothingExpected)) <==>
             check.Counted(f) && f in check.policy.requiredFields && check.ComparisonOf(f) == ExpectedMissing;
    assert check.Fails(Failure(f, InsufficientEvidence)) <==>
             check.Counted(f) && f in check.policy.requiredFields && !check.StrongEnough(f);
  }

  /** An observation that agrees with the release, field by field, departs from it in none. */
  lemma AgreementIsClean(policy: DriftPolicy, release: Release, target: string, observed: Values, source: string,
                         fieldSources: map<Field, string>, now: int, item: Label)
    requires !policy.strictMode
    requires forall f :: ExpectedByName(release, f) == ObservedByName(target, observed, f)
    ensures !ReportedByName(policy, release, target, observed, source, fieldSources, now, item)
  {
    hide ExpectedByName, ObservedByName;
  }

  /** One field that differs, both values being there, is what a policy that ignores and accepts
      nothing reports, and nothing else. */
  lemma OneChangeIsOneReport(policy: DriftPolicy, release: Release, target: string, observed: Values, source: string,
                             fieldSources: map<Field, string>, now: int, changed: Field)
    requires !policy.strictMode && policy.ignoredFields == [] && policy.acceptableDrift == map[]
    requires forall f :: f != changed ==> ExpectedByName(release, f) == ObservedByName(target, observed, f)
    requires ExpectedByName(release, changed) != "" && ObservedByName(target, observed, changed) != ""
    requires ExpectedByName(release, changed) != ObservedByName(target, observed, changed)
    ensures forall item :: ReportedByName(policy, release, target, observed, source, fieldSources, now, item)
                           <==> item == OfField(changed)
  {
    hide ExpectedByName, ObservedByName;
  }

  // ----- check_drift

  predicate NoDuplicates<T(==)>(s: seq<T>) {
    forall i, j :: 0 <= i < j < |s| ==> s[i] != s[j]
  }

  /** Some order in which the set of fields is iterated. */
  predicate IsOrder(order: seq<Field>) {
    NoDuplicates(order) && forall f: Field :: f in order
  }

  function Total(strengths: map<Strength, nat>): nat
    requires strengths.Keys == {Unavailable, Inferred, Observed, Verified}
  {
    strengths[Unavailable] + strengths[Inferred] + strengths[Observed] + strengths[Verified]
  }

  function CountedIn(check: Check, order: seq<Field>): nat {
    if order == [] then 0
    else CountedIn(check, order[..|order| - 1]) + if check.Counted(order[|order| - 1]) then 1 else 0
  }

  /** How many of the fields that count have evidence of a given strength. */
  function CountedWith(check: Check, order: seq<Field>, strength: Strength): nat {
    if order == [] then 0
    else
      var last := order[|order| - 1];
      CountedWith(check, order[..|order| - 1], strength)
      + if check.Counted(last) && check.StrengthOf(last) == strength then 1 else 0
  }

  const UNCHECKED := DriftResult(false, [], false, map[], [], [], map[])

  /** The first pass: the fields that drifted, as version 1.14.0 compares them. */
  method LegacyPass(check: Check, order: seq<Field>) returns (driftFields: seq<Label>)
    requires IsOrder(order)
    ensures NoDuplicates(driftFields)
    ensures PolicyLifecycle !in driftFields
    ensures forall f :: OfField(f) in driftFields <==> check.ComparisonOf(f) == Mismatch
  {
    driftFields := [];
    for i := 0 to |order|
      invariant NoDuplicates(driftFields)
      invariant PolicyLifecycle !in driftFields
      invariant forall f :: OfField(f) in driftFields <==> f in order[..i] && check.ComparisonOf(f) == Mismatch
    {
      var f := order[i];
      assert order[..i + 1] == order[..i] + [f];
      assert f !in order[..i];
      if f in check.policy.ignoredFields {
        continue;
      }
      var expected, observed := check.expected.At(f), check.observed.At(f);
      if observed == "" {
        continue;
      }
      if expected == "" {
        continue;
      }
      if expected != observed && check.policy.IsAcceptable(f, observed) {
        continue;
      }
      if expected != observed {
        driftFields := driftFields + [OfField(f)];
      }
    }
    assert order[..|order|] == order;
  }

  // What the second pass has built once it has seen some fields.

  ghost predicate DetailsOf(check: Check, seen: seq<Field>, details: map<Field, Detail>) {
    && (forall f :: f in details <==> f in seen)
    && (forall f :: f in details ==> details[f].comparison == check.ComparisonOf(f))
    && (forall f :: f in details && check.Counted(f) ==>
          details[f].strength == check.StrengthOf(f) && details[f].source == check.SourceOf(f))
  }

  ghost predicate FailuresOf(check: Check, seen: seq<Field>, failures: seq<Failure>) {
    forall failure :: failure in failures <==> failure.field in seen && check.Fails(failure)
  }

  ghost predicate WarningsOf(check: Check, seen: seq<Field>, warnings: seq<Field>) {
    forall f :: f in warnings <==> f in seen && f in check.policy.advisoryFields && check.ComparisonOf(f) == Mismatch
  }

  ghost predicate StrengthsOf(check: Check, seen: seq<Field>, strengths: map<Strength, nat>) {
    && strengths.Keys == {Unavailable, Inferred, Observed, Verified}
    && forall strength :: strength in strengths ==> strengths[strength] == CountedWith(check, seen, strength)
  }

  /** The second pass: every field's detail, the failures of required fields, the warnings
      of advisory ones, and how many fields there are of each strength. */
  method PolicyPass(check: Check, order: seq<Field>)
    returns (details: map<Field, Detail>, failures: seq<Failure>, warnings: seq<Field>, strengths: map<Strength, nat>)
    requires IsOrder(order)
    ensures DetailsOf(check, order, details) && FailuresOf(check, order, failures)
    ensures WarningsOf(check, order, warnings) && StrengthsOf(check, order, strengths)
  {
    NothingSeen(check);
    hide *;
    details, failures, warnings := map[], [], [];
    strengths := map[Observed := 0, Verified := 0, Inferred := 0, Unavailable := 0];
    assert order[..0] == [];
    for i := 0 to |order|
      invariant DetailsOf(check, order[..i], details)
      invariant FailuresOf(check, order[..i], failures)
      invariant WarningsOf(check, order[..i], warnings)
      invariant StrengthsOf(check, order[..i], strengths)
    {
      var f := order[i];
      ghost var seen := order[..i];
      assert order[..i + 1] == seen + [f];
      if f in check.policy.ignoredFields {
        IgnoredStep(check, seen, f, details, failures, warnings, strengths);
        details := details[f := Detail(Ignored, "", Unavailable)];
        continue;
      }
      var detail := Evaluate(check, f);
      var more := RequiredFailures(check, f, detail.comparison, detail.strength);
      CountedStep(check, seen, f, detail, more, details, failures, warnings, strengths);
      strengths := strengths[detail.strength := strengths[detail.strength] + 1];
      details := details[f := detail];
      failures := failures + more;
      if f in check.policy.advisoryFields && detail.comparison == Mismatch {
        warnings := warnings + [f];
      }
    }
    assert order[..|order|] == order;
  }

  lemma NothingSeen(check: Check)
    ensures DetailsOf(check, [], map[]) && FailuresOf(check, [], []) && WarningsOf(check, [], [])
    ensures StrengthsOf(check, [], map[Observed := 0, Verified := 0, Inferred := 0, Unavailable := 0])
  {
  }

  lemma IgnoredStep(check: Check, seen: seq<Field>, f: Field, details: map<Field, Detail>, failures: seq<Failure>,
                    warnings: seq<Field>, strengths: map<Strength, nat>)
    requires f in check.policy.ignoredFields
    requires DetailsOf(check, seen, details) && FailuresOf(check, seen, failures)
    requires WarningsOf(check, seen, warnings) && StrengthsOf(check, seen, strengths)
    ensures DetailsOf(check, seen + [f], details[f := Detail(Ignored, "", Unavailable)])
    ensures FailuresOf(check, seen + [f], failures)
    ensures WarningsOf(check, seen + [f], warnings) && StrengthsOf(check, seen + [f], strengths)
  {
    assert (seen + [f])[..|seen|] == seen;
  }

  lemma CountedStep(check: Check, seen: seq<Field>, f: Field, detail: Detail, more: seq<Failure>, details: map<Field, Detail>,
                    failures: seq<Failure>, warnings: seq<Field>, strengths: map<Strength, nat>)
    requires check.Counted(f)
    requires detail == Detail(check.ComparisonOf(f), check.SourceOf(f), check.StrengthOf(f))
    requires forall failure :: failure in more <==> failure.field == f && check.Fails(failure)
    requires DetailsOf(check, seen, details) && FailuresOf(check, seen, failures)
    requires WarningsOf(check, seen, warnings) && StrengthsOf(check, seen, strengths)
    ensures detail.strength in strengths
    ensures DetailsOf(check, seen + [f], details[f := detail])
    ensures FailuresOf(check, seen + [f], failures + more)
    ensures WarningsOf(check, seen + [f],
                       if f in check.policy.advisoryFields && detail.comparison == Mismatch then warnings + [f] else warnings)
    ensures StrengthsOf(check, seen + [f], strengths[detail.strength := strengths[detail.strength] + 1])
  {
    StrengthStep(check, seen, f, detail.strength, strengths);
    FailuresStep(check, seen, f, more, failures);
    DetailsStep(check, seen, f, detail, details);
    WarningsStep(check, seen, f, detail.comparison, warnings);
    hide *;
  }

  lemma DetailsStep(check: Check, seen: seq<Field>, f: Field, detail: Detail, details: map<Field, Detail>)
    requires detail == Detail(check.ComparisonOf(f), check.SourceOf(f), check.StrengthOf(f))
    requires DetailsOf(check, seen, details)
    ensures DetailsOf(check, seen + [f], details[f := detail])
  {
    hide Check.ComparisonOf, Check.SourceOf, Check.StrengthOf, Check.Counted;
  }

  lemma WarningsStep(check: Check, seen: seq<Field>, f: Field, comparison: Comparison, warnings: seq<Field>)
    requires comparison == check.ComparisonOf(f) && WarningsOf(check, seen, warnings)
    ensures WarningsOf(check, seen + [f],
                       if f in check.policy.advisoryFields && comparison == Mismatch then warnings + [f] else warnings)
  {
    hide Check.ComparisonOf;
  }

  lemma FailuresStep(check: Check, seen: seq<Field>, f: Field, more: seq<Failure>, failures: seq<Failure>)
    requires forall failure :: failure in more <==> failure.field == f && check.Fails(failure)
    requires FailuresOf(check, seen, failures)
    ensures FailuresOf(check, seen + [f], failures + more)
  {
    hide Check.Fails;
  }

  lemma StrengthStep(check: Check, seen: seq<Field>, f: Field, strength: Strength, strengths: map<Strength, nat>)
    requires check.Counted(f) && strength == check.StrengthOf(f) && StrengthsOf(check, seen, strengths)
    ensures strength in strengths
    ensures StrengthsOf(check, seen + [f], strengths[strength := strengths[strength] + 1])
  {
    assert (seen + [f])[..|seen|] == seen;
    match strength
    case Unavailable =>
    case Inferred =>
    case Observed =>
    case Verified =>
  }

  /** Source, strength and comparison of a field that counts. */
  method Evaluate(check: Check, f: Field) returns (detail: Detail)
    requires f !in check.policy.ignoredFields
    ensures check.Counted(f)
    ensures detail == Detail(check.ComparisonOf(f), check.SourceOf(f), check.StrengthOf(f))
  {
    var expected, observed := check.expected.At(f), check.observed.At(f);
    var source := if f in check.fieldSources then check.fieldSources[f] else check.source;
    var strength := ClassifyStrength(observed, source);
    var comparison;
    if observed == "" {
      comparison := NotObserved;
    } else if expected == "" {
      comparison := ExpectedMissing;
    } else if expected == observed {
      comparison := Match;
    } else if check.policy.IsAcceptable(f, observed) {
      comparison := AcceptableDrift;
    } else {
      comparison := Mismatch;
    }
    detail := Detail(comparison, source, strength);
  }

  /** The failures of one field. */
  method RequiredFailures(check: Check, f: Field, comparison: Comparison, strength: Strength) returns (failures: seq<Failure>)
    requires check.Counted(f) && comparison == check.ComparisonOf(f) && strength == check.StrengthOf(f)
    ensures forall failure :: failure in failures <==> failure.field == f && check.Fails(failure)
  {
    failures := [];
    if f in check.policy.requiredFields {
      if comparison == NotObserved {
        failures := failures + [Failure(f, UnavailableField)];
      } else if comparison == Mismatch {
        failures := failures + [Failure(f, MismatchedField)];
      } else if comparison == ExpectedMissing {
        failures := failures + [Failure(f, NothingExpected)];
      }
      var minimum := check.policy.MinStrength(f);
      if minimum != Level(Unavailable) && !StrengthMeets(minimum, strength) {
        failures := failures + [Failure(f, InsufficientEvidence)];
      }
    }
  }

  /** Strict mode: failures of required fields and an invalid policy count as drift. */
  method Escalate(check: Check, now: int, legacy: seq<Label>, failures: seq<Failure>) returns (driftFields: seq<Label>)
    requires NoDuplicates(legacy) && PolicyLifecycle !in legacy
    requires forall f :: OfField(f) in legacy <==> check.ComparisonOf(f) == Mismatch
    requires forall failure :: failure in failures <==> check.Fails(failure)
    ensures NoDuplicates(driftFields)
    ensures forall item :: item in driftFields <==> check.Reported(item, now)
  {
    driftFields := legacy;
    if !check.policy.Valid(now) && check.policy.strictMode {
      driftFields := driftFields + [PolicyLifecycle];
    }
    if check.policy.strictMode && |failures| > 0 {
      for i := 0 to |failures|
        invariant NoDuplicates(driftFields)
        invariant PolicyLifecycle in driftFields <==> !check.policy.Valid(now)
        invariant forall f :: OfField(f) in driftFields <==>
                    check.ComparisonOf(f) == Mismatch || HasFailure(failures[..i], f)
      {
        var f := failures[i].field;
        assert failures[..i + 1] == failures[..i] + [failures[i]];
        assert failures[..i + 1][i].field == f;
        assert forall k :: 0 <= k < i ==> failures[..i + 1][k] == failures[..i][k];
        if OfField(f) !in driftFields {
          driftFields := driftFields + [OfField(f)];
        }
      }
      assert failures[..|failures|] == failures;
    }
    FieldsOfFailures(check, failures);
  }

  ghost predicate HasFailure(failures: seq<Failure>, f: Field) {
    exists k :: 0 <= k < |failures| && failures[k].field == f
  }

  lemma FieldsOfFailures(check: Check, failures: seq<Failure>)
    requires forall failure :: failure in failures <==> check.Fails(failure)
    ensures forall f :: HasFailure(failures, f) <==> check.FailsSomehow(f)
  {
    forall f | check.FailsSomehow(f) ensures HasFailure(failures, f) {
      var kind :| check.Fails(Failure(f, kind));
      assert Failure(f, kind) in failures;
    }
    forall f | HasFailure(failures, f) ensures check.FailsSomehow(f) {
      var k :| 0 <= k < |failures| && failures[k].field == f;
      assert failures[k] in failures;
      assert check.Fails(Failure(f, failures[k].kind));
    }
  }

  lemma ValidIff(policy: DriftPolicy, now: int)
    ensures policy.Valid(now) <==> !OutOfForce(policy, now)
  {
  }

  lemma DetailsByName(check: Check, order: seq<Field>, details: map<Field, Detail>)
    requires DetailsOf(check, order, details)
    ensures forall f :: f in order ==> f in details && details[f].comparison == check.ComparisonOf(f)
  {
  }

  lemma ByName(policy: DriftPolicy, release: Release, target: string, observed: Values, source: string,
               fieldSources: map<Field, string>, now: int)
    ensures var check := Check(policy, ExpectedOf(release), ObservedOf(target, observed), source, fieldSources);
            && (forall item :: check.Reported(item, now) <==>
                  ReportedByName(policy, release, target, observed, source, fieldSources, now, item))
            && (forall f :: check.ComparisonOf(f) == Mismatch <==>
                  Departs(policy, f, ExpectedByName(release, f), ObservedByName(target, observed, f)))
            && (policy.Valid(now) <==> !OutOfForce(policy, now))
  {
    ValidIff(policy, now);
    hide *;
    var check := Check(policy, ExpectedOf(release), ObservedOf(target, observed), source, fieldSources);
    forall item
      ensures check.Reported(item, now)
         <==> ReportedByName(policy, release, target, observed, source, fieldSources, now, item)
    {
      ReportedIff(policy, release, target, observed, source, fieldSources, now, item);
    }
    forall f
      ensures check.ComparisonOf(f) == Mismatch
         <==> Departs(policy, f, ExpectedByName(release, f), ObservedByName(target, observed, f))
    {
      ValuesByName(release, target, observed, f);
      ComparedByName(check, f);
    }
  }

  /** `check_drift`.  `signed` is false when a required policy signature did not verify, and
      `release` is what the release history resolved to. */
  method CheckDrift(target: string, signed: bool, release: Option<Release>, observed: Values, source: string,
                    fieldSources: map<Field, string>, policy: DriftPolicy, now: int, order: seq<Field>)
    returns (result: DriftResult)
    requires IsOrder(order)
    ensures !signed || release.None? ==>
              result == UNCHECKED && !result.driftDetected && result.driftFields == [] && !result.valid
    ensures signed && release.Some? ==>
              var check := Check(policy, ExpectedOf(release.value), ObservedOf(target, observed), source, fieldSources);
              && NoDuplicates(result.driftFields)
              && (result.driftDetected <==> result.driftFields != [])
              && (forall item :: item in result.driftFields <==> check.Reported(item, now))
              && (forall item :: item in result.driftFields <==>
                    ReportedByName(policy, release.value, target, observed, source, fieldSources, now, item))
              && (forall f :: f in order ==> f in result.details && (result.details[f].comparison == Mismatch <==>
                    Departs(policy, f, ExpectedByName(release.value, f), ObservedByName(target, observed, f))))
              && (result.valid <==> !(policy.strictMode && OutOfForce(policy, now)))
              && (forall failure :: failure in result.failures <==> check.Fails(failure))
              && DetailsOf(check, order, result.details)
              && WarningsOf(check, order, result.warnings)
              && StrengthsOf(check, order, result.strengths)
  {
    hide ReportedByName, Departs, ExpectedByName, ObservedByName, OutOfForce, ExpectedOf, ObservedOf, Check.ComparisonOf,
         DriftPolicy.Valid, DetailsOf, WarningsOf, StrengthsOf;
    if !signed {
      return UNCHECKED;
    }
    if release.None? {
      return UNCHECKED;
    }
    var check := Check(policy, ExpectedOf(release.value), ObservedOf(target, observed), source, fieldSources);
    var legacy := LegacyPass(check, order);
    var details, failures, warnings, strengths := PolicyPass(check, order);
    var driftFields := Escalate(check, now, legacy, failures);
    var driftDetected := |legacy| > 0;
    var valid := true;
    if !policy.Valid(now) && policy.strictMode {
      assert check.Reported(PolicyLifecycle, now);
      driftDetected, valid := true, false;
    }
    if policy.strictMode && |failures| > 0 {
      assert check.Fails(Failure(failures[0].field, failures[0].kind));
      assert check.Reported(OfField(failures[0].field), now);
      driftDetected := true;
    }
    if |legacy| > 0 {
      assert legacy[0] in legacy;
      assert check.Reported(legacy[0], now);
    }
    if driftFields != [] {
      assert driftFields[0] in driftFields;
    }
    ByName(policy, release.value, target, observed, source, fieldSources, now);
    DetailsByName(check, order, details);
    result := DriftResult(driftDetected, driftFields, valid, details, failures, warnings, strengths);
  }

  // ----- what a clean strict result means

  /** In strict mode nothing is reported if and only if no field that counts mismatches,
      every required one matches or drifts acceptably on sufficient evidence, and the policy
      is valid. */
  lemma StrictCleanIff(check: Check, now: int)
    requires check.policy.strictMode
    ensures (forall item :: !check.Reported(item, now)) <==>
              && (forall f :: check.ComparisonOf(f) != Mismatch)
              && (forall f :: check.Counted(f) && f in check.policy.requiredFields ==>
                    check.ComparisonOf(f) in {Match, AcceptableDrift} && check.StrongEnough(f))
              && check.policy.Valid(now)
  {
    assert check.Reported(PolicyLifecycle, now) <==> !check.policy.Valid(now);
    forall f | check.Counted(f) && f in check.policy.requiredFields
      ensures !check.Reported(OfField(f), now) <==> check.ComparisonOf(f) in {Match, AcceptableDrift} && check.StrongEnough(f)
    {
      assert check.Fails(Failure(f, UnavailableField)) <==> check.ComparisonOf(f) == NotObserved;
      assert check.Fails(Failure(f, MismatchedField)) <==> check.ComparisonOf(f) == Mismatch;
      assert check.Fails(Failure(f, NothingExpected)) <==> check.ComparisonOf(f) == ExpectedMissing;
      assert check.Fails(Failure(f, InsufficientEvidence)) <==> !check.StrongEnough(f);
    }
    forall f | !check.Counted(f) || f !in check.policy.requiredFields
      ensures check.Reported(OfField(f), now) <==> check.ComparisonOf(f) == Mismatch
    {
    }
    if forall item :: !check.Reported(item, now) {
      assert forall f :: !check.Reported(OfField(f), now);
    }
  }

  /** Without strict mode only mismatches are reported, whatever else fails. */
  lemma LenientIff(check: Check, now: int, item: Label)
    requires !check.policy.strictMode
    ensures check.Reported(item, now) <==> item.OfField? && check.ComparisonOf(item.field) == Mismatch
  {
  }

  /** No observation is ever classified "verified": a strict policy that asks for verified
      evidence of a required field reports drift on every target. */
  lemma VerifiedEvidenceIsUnattainable(check: Check, now: int, f: Field)
    ensures check.StrengthOf(f) != Verified
    ensures (check.policy.strictMode && check.Counted(f) && f in check.policy.requiredFields
             && check.policy.MinStrength(f) == Level(Verified)) ==> check.Reported(OfField(f), now)
  {
    if check.Counted(f) && f in check.policy.requiredFields && check.policy.MinStrength(f) == Level(Verified) {
      assert check.Fails(Failure(f, InsufficientEvidence));
    }
  }

  /** A required field fails for want of evidence if and only if its minimum is spelt as a
      level and lies above what the observation and its source amount to. */
  lemma InsufficientEvidenceIff(check: Check, f: Field)
    requires check.Counted(f) && f in check.policy.requiredFields
    ensures check.Fails(Failure(f, InsufficientEvidence)) <==>
              TooWeak(check.policy, f, check.observed.At(f),
                      if f in check.fieldSources then check.fieldSources[f] else check.source)
  {
    var minimum := check.policy.MinStrength(f);
    assert minimum.Level? ==> minimum.strength.Rank() <= 3;
  }

  /** A misspelt minimum asks for nothing: without any observation of a required field, the
      level itself fails it unless it is the lowest, and the misspelling never does. */
  lemma MisspeltStrengthAsksNothing(check: Check, f: Field, word: string, meant: Strength)
    requires check.Counted(f) && f in check.policy.requiredFields && check.observed.At(f) == ""
    ensures var spelt := check.(policy := check.policy.(strengthRequired := check.policy.strengthRequired[f := Level(meant)]));
            var misspelt := check.(policy := check.policy.(strengthRequired := check.policy.strengthRequired[f := Unrecognised(word)]));
            && (spelt.Fails(Failure(f, InsufficientEvidence)) <==> meant != Unavailable)
            && !misspelt.Fails(Failure(f, InsufficientEvidence))
  {
    InsufficientEvidenceIff(check.(policy := check.policy.(strengthRequired := check.policy.strengthRequired[f := Level(meant)])), f);
  }

  function CountedFields(check: Check, order: seq<Field>): set<Field> {
    set f | f in order && check.Counted(f)
  }

  lemma CountedFieldsSnoc(check: Check, init: seq<Field>, last: Field)
    requires last !in init
    ensures |CountedFields(check, init + [last])| == |CountedFields(check, init)| + if check.Counted(last) then 1 else 0
  {
    hide Check.Counted;
    var before := CountedFields(check, init);
    assert CountedFields(check, init + [last]) == if check.Counted(last) then before + {last} else before;
  }

  lemma NoDuplicatesFront(order: seq<Field>)
    requires order != [] && NoDuplicates(order)
    ensures NoDuplicates(order[..|order| - 1]) && order[|order| - 1] !in order[..|order| - 1]
  {
  }

  lemma {:induction false} CountedIsSize(check: Check, order: seq<Field>)
    requires NoDuplicates(order)
    ensures CountedIn(check, order) == |CountedFields(check, order)|
  {
    if order == [] {
      assert CountedFields(check, order) == {};
    } else {
      hide Check.Counted, CountedFields, NoDuplicates;
      var init, last := order[..|order| - 1], order[|order| - 1];
      NoDuplicatesFront(order);
      CountedIsSize(check, init);
      CountedFieldsSnoc(check, init, last);
      assert order == init + [last];
    }
  }

  lemma {:induction false} LevelsAddUp(check: Check, order: seq<Field>)
    ensures CountedWith(check, order, Unavailable) + CountedWith(check, order, Inferred)
            + CountedWith(check, order, Observed) + CountedWith(check, order, Verified) == CountedIn(check, order)
  {
    if order != [] {
      hide Check.Counted, Check.StrengthOf;
      LevelsAddUp(check, order[..|order| - 1]);
    }
  }

  /** The strength counts of a check add up to the number of fields that count. */
  lemma StrengthsCoverCountedFields(check: Check, order: seq<Field>, strengths: map<Strength, nat>)
    requires IsOrder(order) && StrengthsOf(check, order, strengths)
    ensures Total(strengths) == |set f: Field | check.Counted(f)|
  {
    hide CountedWith, CountedIn;
    LevelsAddUp(check, order);
    CountedIsSize(check, order);
    assert CountedFields(check, order) == (set f: Field | check.Counted(f));
  }
}
