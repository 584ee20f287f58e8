/** apply_artifact with its automatic rollback, and rollback_artifact: what one call does. */
module ApplyRollback {
  import opened Wire
  import opened TaskPolling
  import opened Manifest
  import opened Readings
  import opened RollbackGates
  import opened Wrappers

  // ----- a write followed by polling of the task it may start

  /** The task id of a write: a string that starts with "UPID:"; null when there is none. */
  function UpidText(r: Response): Outcome<Json> {
    var data :- DataOf(r);
    Returned(if data.Str? && "UPID:" <= data.s then data else Null)
  }

  datatype Effect = Effect(succeeded: bool, upid: Json, exitstatus: Json)

  /** The requests that follow a write. */
  ghost function TaskPollsOf(limits: Limits, remote: Remote, written: nat): seq<Request> {
    var upid := UpidText(remote.reply[written]);
    if upid.Raised? || upid.value.Null? then [] else Poll(limits, remote, upid.value, written + 1).requests
  }

  ghost function WriteEffect(limits: Limits, remote: Remote, written: nat): Outcome<Effect> {
    var r := remote.reply[written];
    var upid :- UpidText(r);
    if upid.Null? then Returned(Effect(r.code == 200, Null, Str("")))
    else
      var report :- Poll(limits, remote, upid, written + 1).result;
      Returned(Effect(report.status == STOPPED && report.exitstatus == OK, upid, report.exitstatus))
  }

  /** The data of the reply is a text that starts with "UPID:". */
  ghost predicate NamesUpid(r: Response, upid: Json) {
    Carries(r, upid) && upid.Str? && "UPID:" <= upid.s
  }

  lemma UpidTextIff(r: Response, upid: Json)
    ensures !upid.Null? ==> (UpidText(r) == Returned(upid) <==> NamesUpid(r, upid))
    ensures UpidText(r).Raised? <==> r.code == 200 && !r.body.Obj?
    ensures UpidText(r) == Returned(Null) ==> !NamesUpid(r, upid)
  {
    if r.code == 200 && r.body.Obj? {
      assert Carries(r, if "data" in r.body.fields then r.body.fields["data"] else Null);
    }
  }

  /** The write was answered 200 by an object, and the task it named, if any, was seen done by
      the last of its polls, with a passing exit status. */
  ghost predicate WriteSucceeded(limits: Limits, remote: Remote, written: nat) {
    && remote.reply[written].code == 200 && remote.reply[written].body.Obj?
    && forall upid :: NamesUpid(remote.reply[written], upid) ==>
         var n := |Poll(limits, remote, upid, written + 1).requests|;
         n > 0 && SaysDone(remote.reply[written + n], true)
  }

  lemma WriteSucceededIff(limits: Limits, remote: Remote, written: nat)
    ensures var effect := WriteEffect(limits, remote, written);
            effect.Returned? && effect.value.succeeded <==> WriteSucceeded(limits, remote, written)
    ensures forall k: nat :: k < |TaskPollsOf(limits, remote, written)| ==> TaskPollsOf(limits, remote, written)[k].GetTask?
  {
    hide LastReading, Report, SaysDone, UpidText, Stopped, NamesUpid, RaisesAt;
    var upid := UpidText(remote.reply[written]);
    UpidTextIff(remote.reply[written], Null);
    if upid.Returned? && !upid.value.Null? {
      var poll := Poll(limits, remote, upid.value, written + 1);
      var n := |poll.requests|;
      UpidTextIff(remote.reply[written], upid.value);
      NamedIsText(remote.reply[written], upid.value);
      PolledWell(limits, remote, upid.value, written + 1);
      OnlyTasks(upid.value, n);
      StoppedIff(remote, written + 1, n, true);
      assert n > 0 ==> written + 1 + n - 1 == written + n;
    }
    forall other | NamesUpid(remote.reply[written], other) ensures upid == Returned(other) && other.Str? {
      UpidTextIff(remote.reply[written], other);
      NamedIsText(remote.reply[written], other);
    }
    if upid == Returned(Null) {
      NoUpidIsWellFormed(remote.reply[written]);
    }
  }

  lemma NamedIsText(r: Response, upid: Json)
    requires NamesUpid(r, upid)
    ensures upid.Str? && r.code == 200 && r.body.Obj?
  {
  }

  lemma NoUpidIsWellFormed(r: Response)
    requires UpidText(r).Returned?
    ensures r.code == 200 ==> r.body.Obj?
    ensures !UpidText(r).value.Null? ==> r.code == 200
  {
  }

  /** The verdict on a task after a write is what its last poll says. */
  lemma PolledWell(limits: Limits, remote: Remote, upid: Json, next: nat)
    ensures var poll := Poll(limits, remote, upid, next);
            && poll.requests == TaskRequests(upid, |poll.requests|)
            && (poll.result.Returned? && poll.result.value.status == STOPPED && poll.result.value.exitstatus == OK
                <==> Stopped(remote, next, |poll.requests|, true))
  {
    hide LastReading, Report;
    PollingIsBounded(limits, remote, upid, next);
    if Poll(limits, remote, upid, next).result.Returned? {
      VerdictIsStopped(limits, remote, upid, next, true);
    }
  }

  // ----- rollback: resolving the target from the release history

  /** `storedReceipt` is what the record's receipt file holds, if it can be read. */
  datatype Release = Release(artifactDigest: string, storedReceipt: Option<Json>)

  /** What the release history, which is not part of this model, answers. */
  datatype History = History(integrityValid: bool, snapshotValid: bool, found: Option<Release>, retentionValid: bool)

  datatype RefusedBecause = HistoryMalformed | SnapshotInvalid | RetentionFailed | ReleaseNotFound

  /** The policy as resolution leaves it, and whether resolution refused the rollback. */
  datatype Resolution = Resolution(policy: RollbackPolicy, refused: Option<RefusedBecause>)

  function Adopt(p: RollbackPolicy, release: Release): RollbackPolicy {
    p.(previousArtifactDigest := if release.artifactDigest != "" then release.artifactDigest else p.previousArtifactDigest,
       previousDeploymentReceipt :=
         if !p.previousDeploymentReceipt.Truthy() && release.storedReceipt.Some? then release.storedReceipt.value
         else p.previousDeploymentReceipt)
  }

  function Resolve(p: RollbackPolicy, h: History): Resolution {
    if p.resolveReleaseBy.NoResolution? then Resolution(p, None)
    else if p.requireRetentionVerification && !h.integrityValid then Resolution(p, Some(HistoryMalformed))
    else if p.requireReleaseHistorySnapshot && p.releaseHistorySnapshotPath != "" && !h.snapshotValid then
      Resolution(p, Some(SnapshotInvalid))
    else if p.resolveReleaseBy.UnknownResolver? || h.found.None? then
      Resolution(p, if p.requirePreviousReceiptVerified then Some(ReleaseNotFound) else None)
    else
      Resolution(Adopt(p, h.found.value),
                 if p.requireRetentionVerification && !h.retentionValid then Some(RetentionFailed) else None)
  }

  // ----- rollback: the receipt

  datatype FinalState = Applied | Failed | RolledBack | RollbackUnverified | UnknownState

  function StateText(state: FinalState): string {
    match state
    case Applied => "applied"
    case Failed => "failed"
    case RolledBack => "rolled_back"
    case RollbackUnverified => "rollback_unverified"
    case UnknownState => "unknown"
  }

  datatype RollbackStatus = NotAttempted | Rejected | RollbackFailed | VerificationFailed | Succeeded

  datatype RollbackReceipt = RollbackReceipt(
    accepted: bool,
    status: RollbackStatus,
    artifactDigest: string,
    verified: bool,
    finalState: FinalState,
    previousReleaseVerified: bool,
    toKnownGood: bool,
    provenanceStatus: ProvenanceStatus,
    chainVerified: bool,
    chainStatus: ChainStatus
  )

  function Refusal(digest: string, releaseVerified: bool, status: ProvenanceStatus, chainStatus: ChainStatus): RollbackReceipt {
    RollbackReceipt(false, Rejected, digest, false, UnknownState, releaseVerified, false, status, false, chainStatus)
  }

  /** The state read back after a write, inside a `try` that turns any exception into "no". */
  predicate ServiceReads(expected: string, r: Response) {
    var data := DataOf(r);
    && data.Returned? && data.value.Truthy() && data.value.Obj?
    && (expected == "" || data.value.Get("status", Str("unknown")) == Str(expected))
  }

  /** The digest shown on a refusal by the history. */
  function RefusalDigest(why: RefusedBecause, h: History): string {
    if why.RetentionFailed? && h.found.Some? then h.found.value.artifactDigest else ""
  }

  /** The gates: a refusal, or nothing when the rollback may go ahead. */
  function Gate(sha: Json -> string, p: RollbackPolicy): Outcome<Option<RollbackReceipt>> {
    var target := p.previousArtifactDigest;
    if target == "" then Returned(Some(Refusal("", false, NotChecked, ChainNotChecked)))
    else
      var provenance :- VerifyProvenance(sha, p, target);
      var chain :- VerifyChain(p, provenance);
      Returned(
        if !provenance.verified && p.requirePreviousReceiptVerified then
          Some(Refusal(target, false, provenance.status, chain.status))
        else if !chain.verified && p.requirePreviousAssuranceChain then
          Some(Refusal(target, true, ProvenanceVerified, chain.status))
        else None)
  }

  /** After the PUT: the receipt from its effect and, where required, the state read back. */
  function AfterPut(sha: Json -> string, p: RollbackPolicy, succeeded: bool, verified: bool): Outcome<RollbackReceipt> {
    var provenance :- VerifyProvenance(sha, p, p.previousArtifactDigest);
    var chain :- VerifyChain(p, provenance);
    Returned(
      if !succeeded then
        RollbackReceipt(false, RollbackFailed, p.previousArtifactDigest, false, UnknownState, provenance.verified,
                        provenance.verified, provenance.status, chain.verified, chain.status)
      else
        RollbackReceipt(verified, if verified then Succeeded else VerificationFailed, p.previousArtifactDigest, verified,
                        if verified then RolledBack else RollbackUnverified, provenance.verified,
                        if p.requirePreviousAssuranceChain then chain.verified else provenance.verified,
                        provenance.status, chain.verified, chain.status))
  }

  /** The requests of a rollback that got past its gates. */
  ghost function PutTrace(m: Manifest, p: RollbackPolicy, remote: Remote, next: nat): seq<Request> {
    var effect := WriteEffect(m.limits, remote, next);
    [PutConfig] + TaskPollsOf(m.limits, remote, next)
    + if effect.Returned? && effect.value.succeeded && p.requireRollbackVerification then [GetStatus] else []
  }

  ghost function PutResult(sha: Json -> string, m: Manifest, p: RollbackPolicy, remote: Remote, next: nat): Outcome<RollbackReceipt> {
    var effect :- WriteEffect(m.limits, remote, next);
    var checked := next + 1 + |TaskPollsOf(m.limits, remote, next)|;
    AfterPut(sha, p, effect.succeeded,
             p.requireRollbackVerification ==> ServiceReads(m.apply.expectedServiceState, remote.reply[checked]))
  }

  /** `_handle_rollback_artifact` */
  ghost function RollbackRun(sha: Json -> string, m: Manifest, h: History, remote: Remote, next: nat): Run<RollbackReceipt> {
    var resolution := Resolve(m.rollback, h);
    if resolution.refused.Some? then
      Run([], Returned(Refusal(RefusalDigest(resolution.refused.value, h), false, NotChecked, ChainNotChecked)))
    else
      match Gate(sha, resolution.policy)
      case Raised => Run([], Raised)
      case Returned(Some(refusal)) => Run([], Returned(refusal))
      case Returned(None) =>
        Run(PutTrace(m, resolution.policy, remote, next), PutResult(sha, m, resolution.policy, remote, next))
  }

  // ----- apply

  datatype ApplyFailure = NoFailure | PromotedArtifactMissing | TargetNotAllowed | ApplyFailed | ServiceStateMismatch

  datatype ApplyReceipt = ApplyReceipt(
    accepted: bool,
    failure: ApplyFailure,
    activatedDigest: string,
    activationVerified: bool,
    preState: Json,
    postState: Json
  )

  function ApplyRefused(failure: ApplyFailure): ApplyReceipt {
    ApplyReceipt(false, failure, "", false, Str(""), Str(""))
  }

  /** `t.rstrip("/")` */
  function StripSlashes(t: string): string {
    if t != "" && t[|t| - 1] == '/' then StripSlashes(t[..|t| - 1]) else t
  }

  /** The first n characters of t are followed by slashes only, and do not end in one. */
  predicate IsStem(t: string, n: nat) {
    && n <= |t|
    && (forall k :: n <= k < |t| ==> t[k] == '/')
    && (n > 0 ==> t[n - 1] != '/')
  }

  lemma StemIsUnique(t: string, n: nat, n': nat)
    requires IsStem(t, n) && IsStem(t, n')
    ensures n == n'
  {
  }

  lemma {:induction false} StripSlashesIs(t: string)
    ensures StripSlashes(t) <= t && IsStem(t, |StripSlashes(t)|)
  {
    if t != "" && t[|t| - 1] == '/' {
      StripSlashesIs(t[..|t| - 1]);
    }
  }

  /** The final path is one of the targets, or begins with one that had its trailing slashes
      taken off; with no targets or no path there is nothing to allow. */
  ghost predicate PathAllowed(targets: seq<string>, path: string) {
    || targets == [] || path == ""
    || path in targets
    || exists t: string, n: nat :: t in targets && IsStem(t, n) && t[..n] <= path
  }

  lemma TargetAllowedIff(a: ApplyPolicy)
    ensures TargetAllowed(a) <==> PathAllowed(a.allowedApplyTargets, a.finalPath)
  {
    hide StripSlashes;
    var targets, path := a.allowedApplyTargets, a.finalPath;
    forall t: string, n: nat | IsStem(t, n) ensures StripSlashes(t) == t[..n] {
      StripSlashesIs(t);
      StemIsUnique(t, n, |StripSlashes(t)|);
    }
    if k :| 0 <= k < |targets| && (path == targets[k] || StripSlashes(targets[k]) <= path) {
      StripSlashesIs(targets[k]);
      assert targets[k] in targets && targets[k][..|StripSlashes(targets[k])|] == StripSlashes(targets[k]);
    }
  }

  predicate TargetAllowed(a: ApplyPolicy) {
    a.allowedApplyTargets == []
    || a.finalPath == ""
    || exists k :: 0 <= k < |a.allowedApplyTargets|
                   && (a.finalPath == a.allowedApplyTargets[k] || StripSlashes(a.allowedApplyTargets[k]) <= a.finalPath)
  }

  /** The checks before the POST; `stored` is the reply of the storage query. */
  function ApplyRefusal(a: ApplyPolicy, digest: string, stored: Response): ApplyFailure {
    if a.requirePromotedArtifact && stored.code != 200 then PromotedArtifactMissing
    else if !TargetAllowed(a) then TargetNotAllowed
    else NoFailure
  }

  /** The requests of an apply whose POST is request `posted`. */
  ghost function PostTrace(m: Manifest, remote: Remote, posted: nat): seq<Request> {
    var effect := WriteEffect(m.limits, remote, posted);
    [PostAction(ApplyArtifact)] + TaskPollsOf(m.limits, remote, posted)
    + if effect.Returned? && effect.value.succeeded then [GetStatus] else []
  }

  ghost function PostResult(m: Manifest, digest: string, remote: Remote, posted: nat, pre: Json): Outcome<ApplyReceipt> {
    var effect :- WriteEffect(m.limits, remote, posted);
    var expected := m.apply.expectedServiceState;
    if !effect.succeeded then Returned(ApplyReceipt(false, ApplyFailed, "", false, pre, Str("")))
    else
      var post := StatusFieldOrUnknown(remote.reply[posted + 1 + |TaskPollsOf(m.limits, remote, posted)|]);
      var verified := expected == "" || post == Str(expected);
      Returned(ApplyReceipt(verified, if verified then NoFailure else ServiceStateMismatch, digest, verified, pre, post))
  }

  /** `_handle_apply_artifact` */
  ghost function ApplyRun(m: Manifest, digest: string, remote: Remote, next: nat): Run<ApplyReceipt> {
    if m.apply.requirePromotedArtifact && digest == "" then Run([], Returned(ApplyRefused(PromotedArtifactMissing)))
    else
      var refusal := ApplyRefusal(m.apply, digest, remote.reply[next]);
      if !refusal.NoFailure? then Run([GetStorageContent], Returned(ApplyRefused(refusal)))
      else
        Run([GetStorageContent, GetStatus] + PostTrace(m, remote, next + 2),
            PostResult(m, digest, remote, next + 2, StatusFieldOrUnknown(remote.reply[next + 1])))
  }

  // ----- deploy: apply, then on rejection an automatic rollback

  datatype DeployReceipt = DeployReceipt(
    apply: ApplyReceipt,
    rollbackAttempted: bool,
    rollbackStatus: RollbackStatus,
    rollbackArtifactDigest: string,
    rollbackVerified: bool,
    finalState: FinalState
  )

  function WithoutRollback(apply: ApplyReceipt): DeployReceipt {
    DeployReceipt(apply, false, NotAttempted, "", false, if apply.accepted then Applied else Failed)
  }

  function WithRollback(apply: ApplyReceipt, rollback: RollbackReceipt): DeployReceipt {
    DeployReceipt(apply, true, rollback.status, rollback.artifactDigest, rollback.verified, rollback.finalState)
  }

  predicate RollsBack(p: RollbackPolicy, apply: ApplyReceipt) {
    !apply.accepted && p.rollbackOnApplyFailure && p.previousArtifactDigest != ""
  }

  /** An apply and the rollback that may follow it, as one run. */
  ghost function Followed(p: RollbackPolicy, apply: Run<ApplyReceipt>, rollback: Run<RollbackReceipt>): Run<DeployReceipt> {
    if apply.result.Raised? then Run(apply.requests, Raised)
    else if !RollsBack(p, apply.result.value) then Run(apply.requests, Returned(WithoutRollback(apply.result.value)))
    else
      Run(apply.requests + rollback.requests,
          if rollback.result.Raised? then Raised else Returned(WithRollback(apply.result.value, rollback.result.value)))
  }

  ghost function ApplyDeployRun(sha: Json -> string, m: Manifest, h: History, digest: string, remote: Remote, next: nat): Run<DeployReceipt> {
    var apply := ApplyRun(m, digest, remote, next);
    Followed(m.rollback, apply, RollbackRun(sha, m, h, remote, next + |apply.requests|))
  }
}
