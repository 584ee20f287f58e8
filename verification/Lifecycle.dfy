/** start, stop and reboot of a target: what one `deploy` call does and means. */
module Lifecycle {
  import opened Wire
  import opened TaskPolling
  import opened Manifest

  datatype BootEvidence = BootEvidence(uptime: real, bootId: string, bootIdAvailable: bool)

  const NO_EVIDENCE := BootEvidence(0.0, "", false)

  datatype Receipt = Receipt(
    accepted: bool,
    noOp: bool,
    preState: Json,
    postState: Json,
    transitionVerified: bool,
    upid: Json,
    polls: nat,
    taskSuccess: bool,
    bootIdentityChanged: bool,
    bootIdChanged: bool,
    uptimeReset: bool,
    uptimeFallbackUsed: bool
  )

  // ----- before the mutation

  datatype Plan = RefusePreState | RefuseNoop | TakeNoop | Mutate

  predicate GatePassed(m: LifecyclePolicy, pre: Json) {
    m.requireConfirmedTargetStatus && m.expectedPreState != "" ==> pre == Str(m.expectedPreState)
  }

  predicate AlreadyDesired(m: LifecyclePolicy, action: Action, pre: Json) {
    m.expectedPostState != "" && pre == Str(m.expectedPostState) && action != Reboot
  }

  /** The pre-state gate comes before the no-op decision. */
  function Decide(m: LifecyclePolicy, action: Action, pre: Json): Plan {
    if !GatePassed(m, pre) then RefusePreState
    else if AlreadyDesired(m, action, pre) then
      if m.allowNoopIfAlreadyDesired || m.idempotency.AllowNoop? then TakeNoop
      else if m.idempotency.RejectNoop? then RefuseNoop
      else Mutate
    else Mutate
  }

  function RefusedReceipt(pre: Json, post: Json): Receipt {
    Receipt(false, false, pre, post, false, Str(""), 0, false, false, false, false, false)
  }

  function NoopReceipt(pre: Json): Receipt {
    Receipt(true, true, pre, pre, true, Str(""), 0, true, false, false, false, false)
  }

  // ----- boot evidence

  /** `isinstance(uptime, (int, float))`, and a Python bool is an int. */
  function Uptime(data: Json): real
    requires data.Obj?
  {
    match data.Get("uptime", Num(0.0))
    case Num(n) => n
    case Bool(b) => if b then 1.0 else 0.0
    case _ => 0.0
  }

  /** `_capture_boot_id_evidence`, which catches every exception. */
  function BootIdFrom(remote: Remote, r: Response): string {
    match DataOf(r)
    case Returned(Obj(fields)) =>
      var content := Obj(fields).Get("content", Str(""));
      if content.Truthy() then remote.bootIdOf(content) else ""
    case _ => ""
  }

  /** `_capture_boot_evidence` */
  ghost function CaptureBoot(m: LifecyclePolicy, remote: Remote, next: nat): Run<BootEvidence> {
    match DataOf(remote.reply[next])
    case Raised => Run([GetStatus], Raised)
    case Returned(data) =>
      if !data.Truthy() then Run([GetStatus], Returned(NO_EVIDENCE))
      else if !data.Obj? then Run([GetStatus], Raised)
      else if !m.asksGuestAgent then Run([GetStatus], Returned(BootEvidence(Uptime(data), "", false)))
      else
        var bootId := BootIdFrom(remote, remote.reply[next + 1]);
        Run([GetStatus, GetBootId], Returned(BootEvidence(Uptime(data), bootId, bootId != "")))
  }

  /** Boot evidence is taken for a reboot only. */
  ghost function BootAround(m: LifecyclePolicy, action: Action, remote: Remote, next: nat): Run<BootEvidence> {
    if action == Reboot then CaptureBoot(m, remote, next) else Run([], Returned(NO_EVIDENCE))
  }

  // ----- the mutation

  /** `str(value)` of a non-empty value that is neither a string nor a dict; only its
      being non-empty matters here. */
  function Repr(value: Json): (text: string)
    ensures text != ""
  {
    match value
    case Arr(_) => "[...]"
    case _ => "True"
  }

  /** The task id in the answer to a POST. */
  function UpidOf(r: Response): Outcome<Json> {
    var data :- DataOf(r);
    Returned(
      if !data.Truthy() then Str("")
      else
        match data
        case Obj(_) => data.Get("upid", Str(""))
        case Str(_) => data
        case _ => Str(Repr(data)))
  }

  predicate UptimeReset(before: BootEvidence, after: BootEvidence) {
    before.uptime > 0.0 && after.uptime >= 0.0 && after.uptime < before.uptime
  }

  predicate BootIdChanged(before: BootEvidence, after: BootEvidence) {
    before.bootIdAvailable && after.bootIdAvailable
    && before.bootId != "" && after.bootId != "" && before.bootId != after.bootId
  }

  /** The receipt of an action whose POST gave a task id, from the evidence gathered. */
  function Verdict(m: LifecyclePolicy, action: Action, pre: Json, upid: Json, report: PollReport, post: Json,
                   before: BootEvidence, after: BootEvidence): Receipt
  {
    var taskSuccess := report.status == STOPPED && (!m.requireTaskSuccess || report.exitstatus == OK)
                       && !(m.requireTaskSuccess && report.timedOut);
    var transition := m.expectedPostState == "" || post == Str(m.expectedPostState);
    var reset := action == Reboot && UptimeReset(before, after);
    var idChanged := action == Reboot && BootIdChanged(before, after);
    var bothIds := before.bootIdAvailable && after.bootIdAvailable;
    var bootOk := action != Reboot
      || ((m.requireBootIdChange ==>
             if before.bootIdAvailable then idChanged else m.allowUptimeOnlyFallback && reset)
          && (m.requireUptimeReset ==> reset));
    Receipt(taskSuccess && transition && bootOk, false, pre, post, transition, upid, report.polls, taskSuccess,
            idChanged || (!bothIds && reset), idChanged, reset, !before.bootIdAvailable && reset)
  }

  /** No task id: the action failed and the state is taken to be unchanged. */
  function FailedReceipt(pre: Json, upid: Json): Receipt {
    Receipt(false, false, pre, pre, false, upid, 0, false, false, false, false, false)
  }

  // The parts of a run, each from the replies alone.  `next` is the first request of the
  // run, `posted` its POST, `first` the first task poll.

  /** What is read before the POST. */
  ghost function BeforePost(m: Manifest, action: Action, remote: Remote, next: nat): seq<Request> {
    [GetStatus] + BootAround(m.lifecycle, action, remote, next + 1).requests
  }

  /** Reading the boot evidence did not raise, so the POST is sent. */
  ghost predicate Posts(m: Manifest, action: Action, remote: Remote, next: nat) {
    BootAround(m.lifecycle, action, remote, next + 1).result.Returned?
  }

  /** The answer to the POST carries a task id. */
  ghost predicate TaskStarted(remote: Remote, posted: nat) {
    var upid := UpidOf(remote.reply[posted]);
    upid.Returned? && upid.value.Truthy()
  }

  /** What is read after the polls. */
  ghost function AfterPolls(m: Manifest, action: Action, remote: Remote, first: nat, upid: Json): seq<Request> {
    var poll := Poll(m.limits, remote, upid, first);
    var checked := first + |poll.requests|;
    if poll.result.Raised? then []
    else if StatusField(remote.reply[checked]).Raised? then [GetStatus]
    else [GetStatus] + BootAround(m.lifecycle, action, remote, checked + 1).requests
  }

  ghost function TaskResult(m: Manifest, action: Action, remote: Remote, first: nat, pre: Json, upid: Json,
                            before: BootEvidence): Outcome<Receipt>
  {
    var poll := Poll(m.limits, remote, upid, first);
    var checked := first + |poll.requests|;
    var report :- poll.result;
    var post :- StatusField(remote.reply[checked]);
    var after :- BootAround(m.lifecycle, action, remote, checked + 1).result;
    if !Sliceable(upid) then Raised
    else Returned(Verdict(m.lifecycle, action, pre, upid, report, post, before, after))
  }

  /** The trace of a run that decided to mutate. */
  ghost function MutationTrace(m: Manifest, action: Action, remote: Remote, next: nat): seq<Request> {
    var quiet := BeforePost(m, action, remote, next);
    var posted := next + |quiet|;
    if !Posts(m, action, remote, next) then quiet
    else if !TaskStarted(remote, posted) then quiet + [PostAction(action)]
    else
      var upid := UpidOf(remote.reply[posted]).value;
      quiet + [PostAction(action)] + Poll(m.limits, remote, upid, posted + 1).requests
      + AfterPolls(m, action, remote, posted + 1, upid)
  }

  ghost function MutationResult(m: Manifest, action: Action, remote: Remote, next: nat, pre: Json): Outcome<Receipt> {
    var before :- BootAround(m.lifecycle, action, remote, next + 1).result;
    var posted := next + |BeforePost(m, action, remote, next)|;
    var upid :- UpidOf(remote.reply[posted]);
    if upid.Truthy() then TaskResult(m, action, remote, posted + 1, pre, upid, before)
    else if Sliceable(upid) then Returned(FailedReceipt(pre, upid))
    else Raised
  }

  /** One call of `deploy` for start, stop or reboot. */
  ghost function LifecycleRun(m: Manifest, action: Action, remote: Remote, next: nat): Run<Receipt> {
    match StatusField(remote.reply[next])
    case Raised => Run([GetStatus], Raised)
    case Returned(pre) =>
      match Decide(m.lifecycle, action, pre)
      case RefusePreState => Run([GetStatus], Returned(RefusedReceipt(pre, Str(""))))
      case RefuseNoop => Run([GetStatus], Returned(RefusedReceipt(pre, pre)))
      case TakeNoop => Run([GetStatus], Returned(NoopReceipt(pre)))
      case Mutate =>
        Run(MutationTrace(m, action, remote, next), MutationResult(m, action, remote, next, pre))
  }
}
