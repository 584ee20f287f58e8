/** What every run of start, stop and reboot keeps, over every remote. */
module LifecycleTheorems {
  import opened Wire
  import opened TaskPolling
  import opened Manifest
  import opened Lifecycle
  import opened Readings

  predicate IsWrite(r: Request) {
    r.PostAction? || r.PutConfig?
  }

  predicate IsRead(r: Request) {
    !IsWrite(r) && !r.GetTask?
  }

  ghost predicate Reads(trace: seq<Request>) {
    forall k: nat :: k < |trace| ==> IsRead(trace[k])
  }

  /** reads, one POST at `p`, `n` polls of one task, reads */
  ghost predicate Shape(trace: seq<Request>, action: Action, p: nat, upid: Json, n: nat) {
    && p + 1 + n <= |trace|
    && (forall k: nat :: k < p ==> IsRead(trace[k]))
    && trace[p] == PostAction(action)
    && (forall k: nat :: p < k <= p + n ==> trace[k] == GetTask(upid))
    && (forall k: nat :: p + n < k < |trace| ==> IsRead(trace[k]))
  }

  lemma ShapeIsUnique(trace: seq<Request>, action: Action, p: nat, upid: Json, n: nat, p': nat, upid': Json, n': nat)
    requires Shape(trace, action, p, upid, n) && Shape(trace, action, p', upid', n')
    ensures p == p' && n == n'
  {
    assert IsWrite(trace[p]) && IsWrite(trace[p']);
    assert n' > n ==> !IsRead(trace[p' + n + 1]);
    assert n > n' ==> !IsRead(trace[p + n' + 1]);
  }

  lemma ShapeOf(quiet: seq<Request>, action: Action, upid: Json, n: nat, tail: seq<Request>)
    requires Reads(quiet) && Reads(tail)
    ensures Shape(quiet + [PostAction(action)] + TaskRequests(upid, n) + tail, action, |quiet|, upid, n)
  {
    OnlyTasks(upid, n);
  }

  // ----- request-trace safety

  lemma QuietParts(m: Manifest, action: Action, remote: Remote, next: nat, first: nat, upid: Json)
    ensures Reads(BeforePost(m, action, remote, next))
    ensures Reads(AfterPolls(m, action, remote, first, upid))
  {
  }

  lemma TaskShape(m: Manifest, action: Action, remote: Remote, next: nat)
    requires Posts(m, action, remote, next)
    requires TaskStarted(remote, next + |BeforePost(m, action, remote, next)|)
    ensures var p := |BeforePost(m, action, remote, next)|;
            var upid := UpidOf(remote.reply[next + p]).value;
            var n := |Poll(m.limits, remote, upid, next + p + 1).requests|;
            Shape(MutationTrace(m, action, remote, next), action, p, upid, n)
  {
    hide UpidOf, BootAround, BeforePost, AfterPolls, Poll, Shape, Reads, Posts;
    var quiet := BeforePost(m, action, remote, next);
    var posted := next + |quiet|;
    var upid := UpidOf(remote.reply[posted]).value;
    QuietParts(m, action, remote, next, posted + 1, upid);
    PollingIsBounded(m.limits, remote, upid, posted + 1);
    ShapeOf(quiet, action, upid, |Poll(m.limits, remote, upid, posted + 1).requests|,
            AfterPolls(m, action, remote, posted + 1, upid));
  }

  lemma NoTaskShape(m: Manifest, action: Action, remote: Remote, next: nat)
    requires Posts(m, action, remote, next)
    requires !TaskStarted(remote, next + |BeforePost(m, action, remote, next)|)
    ensures Shape(MutationTrace(m, action, remote, next), action, |BeforePost(m, action, remote, next)|, Null, 0)
  {
    hide BootAround, BeforePost, AfterPolls, UpidOf, IsRead, IsWrite;
    QuietParts(m, action, remote, next, 0, Null);
  }

  /** - At most one write, and it is the POST of `action`;
      - task polls only after that POST, of the task its answer named;
      - polling stops at the first reply that says "stopped" and sends at most `maxPolls` requests. */
  ghost predicate Safe(limits: Limits, action: Action, remote: Remote, next: nat, trace: seq<Request>) {
    && (forall k: nat :: k < |trace| && IsWrite(trace[k]) ==> trace[k] == PostAction(action))
    && (forall j: nat, k: nat :: j < |trace| && k < |trace| && IsWrite(trace[j]) && IsWrite(trace[k]) ==> j == k)
    && (forall k: nat :: k < |trace| && trace[k].GetTask? ==>
          exists p: nat :: p < k && IsWrite(trace[p]) && NamesTask(remote.reply[next + p], trace[k].upid))
    && (forall j: nat, k: nat :: j < k < |trace| && trace[j].GetTask? && trace[k].GetTask? ==>
          !Halts(remote.reply[next + j]) && k - j < limits.maxPolls)
  }

  lemma ShapeIsSafe(limits: Limits, action: Action, remote: Remote, next: nat, trace: seq<Request>, p: nat, upid: Json, n: nat)
    requires Shape(trace, action, p, upid, n)
    requires n > 0 ==> NamesTask(remote.reply[next + p], upid) && n <= limits.maxPolls
    requires forall j: nat {:trigger remote.reply[j]} :: next + p < j < next + p + n ==> !Halts(remote.reply[j])
    ensures Safe(limits, action, remote, next, trace)
  {
    assert IsWrite(trace[p]);
  }

  lemma TaskRunIsSafe(m: Manifest, action: Action, remote: Remote, next: nat)
    requires Posts(m, action, remote, next)
    requires TaskStarted(remote, next + |BeforePost(m, action, remote, next)|)
    ensures Safe(m.limits, action, remote, next, MutationTrace(m, action, remote, next))
  {
    hide MutationTrace, Shape, Safe, Poll, BeforePost, Posts, UpidOf, Halts, LastReading;
    var p := |BeforePost(m, action, remote, next)|;
    var upid := UpidOf(remote.reply[next + p]).value;
    var n := |Poll(m.limits, remote, upid, next + p + 1).requests|;
    TaskShape(m, action, remote, next);
    PollingIsBounded(m.limits, remote, upid, next + p + 1);
    NamesTaskIff(remote.reply[next + p], upid);
    ShapeIsSafe(m.limits, action, remote, next, MutationTrace(m, action, remote, next), p, upid, n);
  }

  lemma MutationIsSafe(m: Manifest, action: Action, remote: Remote, next: nat)
    ensures Safe(m.limits, action, remote, next, MutationTrace(m, action, remote, next))
  {
    var p := |BeforePost(m, action, remote, next)|;
    if !Posts(m, action, remote, next) {
      QuietParts(m, action, remote, next, 0, Null);
    } else if TaskStarted(remote, next + p) {
      TaskRunIsSafe(m, action, remote, next);
    } else {
      NoTaskShape(m, action, remote, next);
      ShapeIsSafe(m.limits, action, remote, next, MutationTrace(m, action, remote, next), p, Null, 0);
    }
  }

  /** The status told before the action settles the matter: it is not the one expected, where
      one is expected; or it is the state wanted, for which nothing or a refusal is in order. */
  predicate Settles(m: LifecyclePolicy, action: Action, pre: Json) {
    || (m.requireConfirmedTargetStatus && m.expectedPreState != "" && pre != Str(m.expectedPreState))
    || (&& action != Reboot && m.expectedPostState != "" && pre == Str(m.expectedPostState)
        && (m.allowNoopIfAlreadyDesired || m.idempotency.AllowNoop? || m.idempotency.RejectNoop?))
  }

  lemma SettlesIff(m: LifecyclePolicy, action: Action, pre: Json)
    ensures Settles(m, action, pre) <==> Decide(m, action, pre) != Mutate
  {
  }

  /** Over every remote, a lifecycle call reads the status first; it sends nothing else if and
      only if that reading raises or settles the matter; and whatever it sends is safe. */
  lemma TraceSafety(m: Manifest, action: Action, remote: Remote, next: nat)
    ensures var trace := LifecycleRun(m, action, remote, next).requests;
            && |trace| > 0 && trace[0] == GetStatus
            && (trace == [GetStatus] <==>
                  || IsGarbled(remote.reply[next])
                  || exists pre :: SaysStatus(remote.reply[next], pre) && Settles(m.lifecycle, action, pre))
            && Safe(m.limits, action, remote, next, trace)
  {
    var pre := StatusField(remote.reply[next]);
    if pre.Returned? && Decide(m.lifecycle, action, pre.value) == Mutate {
      MutationIsSafe(m, action, remote, next);
    }
    SettledOrLonger(m, action, remote, next);
    hide *;
    if pre.Returned? {
      StatusFieldIff(remote.reply[next], pre.value);
      SettlesIff(m.lifecycle, action, pre.value);
    } else {
      StatusFieldIff(remote.reply[next], Null);
    }
    forall status | SaysStatus(remote.reply[next], status) ensures pre == Returned(status) {
      StatusFieldIff(remote.reply[next], status);
    }
  }

  lemma SettledOrLonger(m: Manifest, action: Action, remote: Remote, next: nat)
    ensures var trace := LifecycleRun(m, action, remote, next).requests;
            var pre := StatusField(remote.reply[next]);
            && |trace| > 0 && trace[0] == GetStatus
            && (trace == [GetStatus] <==> pre.Raised? || Decide(m.lifecycle, action, pre.value) != Mutate)
  {
    hide StatusField, Decide, AfterPolls, Poll, UpidOf;
    var trace := MutationTrace(m, action, remote, next);
    assert |trace| > 1;
  }

  // ----- when an action is accepted

  ghost predicate Accepted(run: Run<Receipt>) {
    run.result.Returned? && run.result.value.accepted
  }

  predicate NoopPermitted(m: LifecyclePolicy, action: Action, pre: Json) {
    && action != Reboot
    && m.expectedPostState != ""
    && pre == Str(m.expectedPostState)
    && (m.allowNoopIfAlreadyDesired || m.idempotency.AllowNoop?)
  }

  /** Required boot evidence: a changed boot id, or a reset uptime where that is allowed to stand in. */
  predicate BootPolicyHolds(m: LifecyclePolicy, before: BootEvidence, after: BootEvidence) {
    && (m.requireBootIdChange ==>
          || BootIdChanged(before, after)
          || (!before.bootIdAvailable && m.allowUptimeOnlyFallback && UptimeReset(before, after)))
    && (m.requireUptimeReset ==> UptimeReset(before, after))
  }

  /** What the run gathers from the replies to a POST at `p`, `n` polls and the reads after them
      proves the action done. */
  ghost predicate Captured(m: Manifest, action: Action, remote: Remote, next: nat, p: nat, upid: Json, n: nat) {
    && remote.reply[next + p].code == 200
    && UpidOf(remote.reply[next + p]) == Returned(upid) && upid.Truthy() && Sliceable(upid)
    && Stopped(remote, next + p + 1, n, m.lifecycle.requireTaskSuccess)
    && (var post := StatusField(remote.reply[next + p + n + 1]);
        post.Returned? && (m.lifecycle.expectedPostState != "" ==> post.value == Str(m.lifecycle.expectedPostState)))
    && (action == Reboot ==>
          var before := CaptureBoot(m.lifecycle, remote, next + 1).result;
          var after := CaptureBoot(m.lifecycle, remote, next + p + n + 2).result;
          before.Returned? && after.Returned? && BootPolicyHolds(m.lifecycle, before.value, after.value))
  }

  /** The requests those replies answered were status reads. */
  predicate AsksForStatus(trace: seq<Request>, action: Action, p: nat, n: nat) {
    && p + n + 1 < |trace| && trace[p + n + 1] == GetStatus
    && (action == Reboot ==> p + n + 2 < |trace| && trace[1] == GetStatus && trace[p + n + 2] == GetStatus)
  }

  ghost predicate CapturedIn(m: Manifest, action: Action, remote: Remote, next: nat, trace: seq<Request>) {
    exists p: nat, upid: Json, n: nat ::
      && Shape(trace, action, p, upid, n)
      && AsksForStatus(trace, action, p, n)
      && Captured(m, action, remote, next, p, upid, n)
  }

  lemma EvidenceIsStatus(m: Manifest, action: Action, remote: Remote, next: nat, first: nat, upid: Json)
    requires Poll(m.limits, remote, upid, first).result.Returned?
    requires StatusField(remote.reply[first + |Poll(m.limits, remote, upid, first).requests|]).Returned?
    ensures var tail := AfterPolls(m, action, remote, first, upid);
            tail != [] && tail[0] == GetStatus && (action == Reboot ==> |tail| > 1 && tail[1] == GetStatus)
    ensures var quiet := BeforePost(m, action, remote, next);
            quiet != [] && quiet[0] == GetStatus && (action == Reboot ==> |quiet| > 1 && quiet[1] == GetStatus)
  {
  }

  lemma StatusAfter(quiet: seq<Request>, polls: seq<Request>, tail: seq<Request>, action: Action)
    requires tail != [] && tail[0] == GetStatus && (action == Reboot ==> |tail| > 1 && tail[1] == GetStatus)
    requires quiet != [] && (action == Reboot ==> |quiet| > 1 && quiet[1] == GetStatus)
    ensures AsksForStatus(quiet + [PostAction(action)] + polls + tail, action, |quiet|, |polls|)
  {
  }

  lemma AskedForStatus(m: Manifest, action: Action, remote: Remote, next: nat, p: nat, upid: Json)
    requires Posts(m, action, remote, next) && TaskStarted(remote, next + p)
    requires p == |BeforePost(m, action, remote, next)|
    requires UpidOf(remote.reply[next + p]) == Returned(upid)
    requires var poll := Poll(m.limits, remote, upid, next + p + 1);
             Captured(m, action, remote, next, p, upid, |poll.requests|)
    ensures AsksForStatus(MutationTrace(m, action, remote, next), action, p, |Poll(m.limits, remote, upid, next + p + 1).requests|)
  {
    hide Poll, BootAround, StatusField, AfterPolls, BeforePost, AsksForStatus, CaptureBoot, UpidOf;
    var poll := Poll(m.limits, remote, upid, next + p + 1);
    PollingIsBounded(m.limits, remote, upid, next + p + 1);
    assert next + p + |poll.requests| + 1 == next + p + 1 + |poll.requests|;
    EvidenceIsStatus(m, action, remote, next, next + p + 1, upid);
    StatusAfter(BeforePost(m, action, remote, next), poll.requests, AfterPolls(m, action, remote, next + p + 1, upid), action);
  }

  /** `TaskResult` in terms of the replies that follow the POST. */
  lemma TaskResultAccepted(m: Manifest, action: Action, remote: Remote, first: nat, pre: Json, upid: Json, before: BootEvidence)
    ensures var result := TaskResult(m, action, remote, first, pre, upid, before);
            var n := |Poll(m.limits, remote, upid, first).requests|;
            var post := StatusField(remote.reply[first + n]);
            var after := BootAround(m.lifecycle, action, remote, first + n + 1).result;
            result.Returned? && result.value.accepted <==>
              && Sliceable(upid)
              && Stopped(remote, first, n, m.lifecycle.requireTaskSuccess)
              && post.Returned? && (m.lifecycle.expectedPostState != "" ==> post.value == Str(m.lifecycle.expectedPostState))
              && after.Returned? && (action == Reboot ==> BootPolicyHolds(m.lifecycle, before, after.value))
  {
    hide Poll, StatusField, CaptureBoot, LastReading, UpidOf;
    var poll := Poll(m.limits, remote, upid, first);
    PollingIsBounded(m.limits, remote, upid, first);
    if poll.result.Returned? {
      VerdictIsStopped(m.limits, remote, upid, first, m.lifecycle.requireTaskSuccess);
    }
  }

  /** With a task running, the verdict is exactly the evidence in the replies. */
  lemma TaskAcceptedIff(m: Manifest, action: Action, remote: Remote, next: nat, p: nat, pre: Json, before: BootEvidence)
    requires TaskStarted(remote, next + p)
    requires BootAround(m.lifecycle, action, remote, next + 1).result == Returned(before)
    ensures var upid := UpidOf(remote.reply[next + p]).value;
            var n := |Poll(m.limits, remote, upid, next + p + 1).requests|;
            var result := TaskResult(m, action, remote, next + p + 1, pre, upid, before);
            result.Returned? && result.value.accepted <==> Captured(m, action, remote, next, p, upid, n)
  {
    hide TaskResult, Poll, Stopped, BootPolicyHolds;
    var upid := UpidOf(remote.reply[next + p]).value;
    var n := |Poll(m.limits, remote, upid, next + p + 1).requests|;
    TaskResultAccepted(m, action, remote, next + p + 1, pre, upid, before);
    assert next + p + 1 + n == next + p + n + 1;
  }

  lemma MutationAcceptedIff(m: Manifest, action: Action, remote: Remote, next: nat, pre: Json)
    ensures var result := MutationResult(m, action, remote, next, pre);
            result.Returned? && result.value.accepted
            <==> CapturedIn(m, action, remote, next, MutationTrace(m, action, remote, next))
  {
    hide TaskResult, Stopped, BootPolicyHolds, CaptureBoot, Poll, AfterPolls;
    var trace := MutationTrace(m, action, remote, next);
    var q := |BeforePost(m, action, remote, next)|;
    if !Posts(m, action, remote, next) {
      QuietParts(m, action, remote, next, 0, Null);
      assert forall p: nat :: p < |trace| ==> IsRead(trace[p]);
    } else if TaskStarted(remote, next + q) {
      TaskConfirmedIff(m, action, remote, next, pre);
    } else {
      NoTaskShape(m, action, remote, next);
      forall p: nat, upid: Json, n: nat | Shape(trace, action, p, upid, n) ensures p == q {
        ShapeIsUnique(trace, action, p, upid, n, q, Null, 0);
      }
    }
  }

  /** A trace has one shape, so there is one piece of evidence to look at. */
  lemma ConfirmedByShape(m: Manifest, action: Action, remote: Remote, next: nat, trace: seq<Request>, p: nat, upid: Json, n: nat)
    requires Shape(trace, action, p, upid, n)
    requires UpidOf(remote.reply[next + p]) == Returned(upid)
    requires Captured(m, action, remote, next, p, upid, n) ==> AsksForStatus(trace, action, p, n)
    ensures CapturedIn(m, action, remote, next, trace) <==> Captured(m, action, remote, next, p, upid, n)
  {
    forall p': nat, upid': Json, n': nat | Shape(trace, action, p', upid', n') ensures p' == p && n' == n {
      ShapeIsUnique(trace, action, p', upid', n', p, upid, n);
    }
  }

  lemma TaskDecides(m: Manifest, action: Action, remote: Remote, next: nat, pre: Json)
    requires Posts(m, action, remote, next)
    requires TaskStarted(remote, next + |BeforePost(m, action, remote, next)|)
    ensures var posted := next + |BeforePost(m, action, remote, next)|;
            MutationResult(m, action, remote, next, pre)
            == TaskResult(m, action, remote, posted + 1, pre, UpidOf(remote.reply[posted]).value,
                          BootAround(m.lifecycle, action, remote, next + 1).result.value)
  {
    hide TaskResult, BootAround, UpidOf;
  }

  lemma TaskConfirmedIff(m: Manifest, action: Action, remote: Remote, next: nat, pre: Json)
    requires Posts(m, action, remote, next)
    requires TaskStarted(remote, next + |BeforePost(m, action, remote, next)|)
    ensures var result := MutationResult(m, action, remote, next, pre);
            result.Returned? && result.value.accepted
            <==> CapturedIn(m, action, remote, next, MutationTrace(m, action, remote, next))
  {
    hide MutationTrace, MutationResult, TaskResult, Captured, CapturedIn, Shape, Poll, BeforePost, UpidOf, BootAround;
    var p := |BeforePost(m, action, remote, next)|;
    var upid := UpidOf(remote.reply[next + p]).value;
    var n := |Poll(m.limits, remote, upid, next + p + 1).requests|;
    var before := BootAround(m.lifecycle, action, remote, next + 1).result.value;
    TaskAcceptedIff(m, action, remote, next, p, pre, before);
    TaskDecides(m, action, remote, next, pre);
    TaskShape(m, action, remote, next);
    if Captured(m, action, remote, next, p, upid, n) {
      AskedForStatus(m, action, remote, next, p, upid);
    }
    ConfirmedByShape(m, action, remote, next, MutationTrace(m, action, remote, next), p, upid, n);
  }

  /** The replies prove the action done, by what their JSON says. */
  ghost predicate Evidence(m: Manifest, action: Action, remote: Remote, next: nat, p: nat, upid: Json, n: nat) {
    && NamesTask(remote.reply[next + p], upid) && (upid.Str? || upid.Arr?)
    && n > 0 && SaysDone(remote.reply[next + p + n], m.lifecycle.requireTaskSuccess)
    && (if m.lifecycle.expectedPostState != ""
        then SaysStatus(remote.reply[next + p + n + 1], Str(m.lifecycle.expectedPostState))
        else !IsGarbled(remote.reply[next + p + n + 1]))
    && (action == Reboot ==> BootConfirmed(m.lifecycle, remote, next + 1, next + p + n + 2))
  }

  lemma EvidenceIff(m: Manifest, action: Action, remote: Remote, next: nat, p: nat, upid: Json, n: nat)
    ensures Captured(m, action, remote, next, p, upid, n) <==> Evidence(m, action, remote, next, p, upid, n)
  {
    hide *;
    NamesTaskIff(remote.reply[next + p], upid);
    SliceableIff(upid);
    TaskIdNeedsOk(remote.reply[next + p]);
    StoppedIff(remote, next + p + 1, n, m.lifecycle.requireTaskSuccess);
    assert n > 0 ==> next + p + 1 + n - 1 == next + p + n;
    PostStateIff(m.lifecycle, remote.reply[next + p + n + 1]);
    BootConfirmedIff(m.lifecycle, remote, next + 1, next + p + n + 2);
    CapturedMeans(m, action, remote, next, p, upid, n);
    EvidenceMeans(m, action, remote, next, p, upid, n);
  }

  lemma SliceableIff(upid: Json)
    ensures Sliceable(upid) <==> upid.Str? || upid.Arr?
  {
  }

  lemma TaskIdNeedsOk(r: Response)
    ensures UpidOf(r).Returned? && UpidOf(r).value.Truthy() ==> r.code == 200
  {
  }

  predicate PostStateAllowed(m: LifecyclePolicy, post: Outcome<Json>) {
    post.Returned? && (m.expectedPostState != "" ==> post.value == Str(m.expectedPostState))
  }

  lemma PostStateIff(m: LifecyclePolicy, r: Response)
    ensures PostStateAllowed(m, StatusField(r)) <==>
              if m.expectedPostState != "" then SaysStatus(r, Str(m.expectedPostState)) else !IsGarbled(r)
  {
    hide SaysStatus, IsGarbled, StatusField;
    StatusFieldIff(r, Str(m.expectedPostState));
  }

  ghost predicate BootAllowed(m: LifecyclePolicy, remote: Remote, before: nat, after: nat) {
    var first, second := CaptureBoot(m, remote, before).result, CaptureBoot(m, remote, after).result;
    first.Returned? && second.Returned? && BootPolicyHolds(m, first.value, second.value)
  }

  lemma BootConfirmedIff(m: LifecyclePolicy, remote: Remote, before: nat, after: nat)
    ensures BootAllowed(m, remote, before, after) <==> BootConfirmed(m, remote, before, after)
  {
    hide CaptureBoot, TellsBoot;
    var first, second := CaptureBoot(m, remote, before).result, CaptureBoot(m, remote, after).result;
    if first.Returned? {
      BootEvidenceIff(m, remote, before, first.value);
    }
    if second.Returned? {
      BootEvidenceIff(m, remote, after, second.value);
    }
    forall u: real, id: string | TellsBoot(m, remote, before, u, id)
      ensures first == Returned(BootEvidence(u, id, id != ""))
    {
      BootEvidenceIff(m, remote, before, BootEvidence(u, id, id != ""));
    }
    forall u: real, id: string | TellsBoot(m, remote, after, u, id)
      ensures second == Returned(BootEvidence(u, id, id != ""))
    {
      BootEvidenceIff(m, remote, after, BootEvidence(u, id, id != ""));
    }
  }

  lemma CapturedMeans(m: Manifest, action: Action, remote: Remote, next: nat, p: nat, upid: Json, n: nat)
    ensures Captured(m, action, remote, next, p, upid, n) <==>
              && remote.reply[next + p].code == 200
              && UpidOf(remote.reply[next + p]) == Returned(upid) && upid.Truthy() && Sliceable(upid)
              && Stopped(remote, next + p + 1, n, m.lifecycle.requireTaskSuccess)
              && PostStateAllowed(m.lifecycle, StatusField(remote.reply[next + p + n + 1]))
              && (action == Reboot ==> BootAllowed(m.lifecycle, remote, next + 1, next + p + n + 2))
  {
    hide UpidOf, Stopped, StatusField, CaptureBoot, BootPolicyHolds;
  }

  lemma EvidenceMeans(m: Manifest, action: Action, remote: Remote, next: nat, p: nat, upid: Json, n: nat)
    ensures Evidence(m, action, remote, next, p, upid, n) <==>
              && NamesTask(remote.reply[next + p], upid) && (upid.Str? || upid.Arr?)
              && n > 0 && SaysDone(remote.reply[next + p + n], m.lifecycle.requireTaskSuccess)
              && (if m.lifecycle.expectedPostState != ""
                  then SaysStatus(remote.reply[next + p + n + 1], Str(m.lifecycle.expectedPostState))
                  else !IsGarbled(remote.reply[next + p + n + 1]))
              && (action == Reboot ==> BootConfirmed(m.lifecycle, remote, next + 1, next + p + n + 2))
  {
  }

  ghost predicate Confirmed(m: Manifest, action: Action, remote: Remote, next: nat, trace: seq<Request>) {
    exists p: nat, upid: Json, n: nat ::
      && Shape(trace, action, p, upid, n)
      && AsksForStatus(trace, action, p, n)
      && Evidence(m, action, remote, next, p, upid, n)
  }

  lemma ConfirmedIff(m: Manifest, action: Action, remote: Remote, next: nat, trace: seq<Request>)
    ensures CapturedIn(m, action, remote, next, trace) <==> Confirmed(m, action, remote, next, trace)
  {
    hide Captured, Evidence, Shape, AsksForStatus;
    forall p: nat, upid: Json, n: nat
      ensures Captured(m, action, remote, next, p, upid, n) <==> Evidence(m, action, remote, next, p, upid, n)
    {
      EvidenceIff(m, action, remote, next, p, upid, n);
    }
  }

  /** The status told before the action is the expected one, where one is expected, and either a
      no-op is permitted and nothing but that status was asked for, or the rest of the trace
      and its replies confirm the action. */
  ghost predicate AcceptedByReplies(m: Manifest, action: Action, remote: Remote, next: nat, trace: seq<Request>) {
    exists pre ::
      && SaysStatus(remote.reply[next], pre)
      && (m.lifecycle.requireConfirmedTargetStatus && m.lifecycle.expectedPreState != "" ==>
            pre == Str(m.lifecycle.expectedPreState))
      && (|| (NoopPermitted(m.lifecycle, action, pre) && trace == [GetStatus])
          || Confirmed(m, action, remote, next, trace))
  }

  /** The main result: over every remote, the receipt of a start, stop or reboot says
      "accepted" if and only if the pre-state gate passed and either a no-op was permitted
      (and then nothing but the status was requested), or the trace holds a POST that was
      answered 200 with a task id, whose last poll saw the task stopped (with a passing exit
      status where required), after which the state read back matches the expectation and,
      for a reboot, the required boot evidence is there; all of it by what the replies say. */
  lemma AcceptedIff(m: Manifest, action: Action, remote: Remote, next: nat)
    ensures var run := LifecycleRun(m, action, remote, next);
            Accepted(run) <==> AcceptedByReplies(m, action, remote, next, run.requests)
  {
    hide *;
    var run := LifecycleRun(m, action, remote, next);
    AcceptedByCapture(m, action, remote, next);
    ConfirmedIff(m, action, remote, next, run.requests);
    RepliesAndCapture(m, action, remote, next, run.requests);
  }

  lemma RepliesAndCapture(m: Manifest, action: Action, remote: Remote, next: nat, trace: seq<Request>)
    ensures var pre := StatusField(remote.reply[next]);
            AcceptedByReplies(m, action, remote, next, trace) <==>
              && pre.Returned?
              && GatePassed(m.lifecycle, pre.value)
              && (|| (NoopPermitted(m.lifecycle, action, pre.value) && trace == [GetStatus])
                  || Confirmed(m, action, remote, next, trace))
  {
    hide StatusField, SaysStatus, Confirmed, NoopPermitted;
    var pre := StatusField(remote.reply[next]);
    if pre.Returned? {
      StatusFieldIff(remote.reply[next], pre.value);
    }
    forall status | SaysStatus(remote.reply[next], status) ensures pre == Returned(status) {
      StatusFieldIff(remote.reply[next], status);
    }
  }

  lemma AcceptedByCapture(m: Manifest, action: Action, remote: Remote, next: nat)
    ensures var run := LifecycleRun(m, action, remote, next);
            var pre := StatusField(remote.reply[next]);
            Accepted(run) <==>
              && pre.Returned?
              && GatePassed(m.lifecycle, pre.value)
              && (|| (NoopPermitted(m.lifecycle, action, pre.value) && run.requests == [GetStatus])
                  || CapturedIn(m, action, remote, next, run.requests))
  {
    var run := LifecycleRun(m, action, remote, next);
    var pre := StatusField(remote.reply[next]);
    if pre.Returned? && Decide(m.lifecycle, action, pre.value) == Mutate {
      MutationAcceptedIff(m, action, remote, next, pre.value);
    } else {
      assert forall p: nat, upid: Json, n: nat :: Shape(run.requests, action, p, upid, n) ==> !IsRead(run.requests[p]);
    }
  }

  /** An accepted reboot that required a changed boot id records a changed boot identity. */
  lemma AcceptedRebootChangedIdentity(m: Manifest, remote: Remote, next: nat)
    requires m.lifecycle.requireBootIdChange
    requires Accepted(LifecycleRun(m, Reboot, remote, next))
    ensures LifecycleRun(m, Reboot, remote, next).result.value.bootIdentityChanged
  {
    var pre := StatusField(remote.reply[next]).value;
    var before := BootAround(m.lifecycle, Reboot, remote, next + 1).result.value;
    assert MutationResult(m, Reboot, remote, next, pre).value.accepted;
  }

  // ----- what the receipts tell

  /** Where the status told settles the matter, the receipt says so and shows that status. */
  lemma SettledReceipt(m: Manifest, action: Action, remote: Remote, next: nat, pre: Json)
    requires SaysStatus(remote.reply[next], pre) && Settles(m.lifecycle, action, pre)
    ensures var result := LifecycleRun(m, action, remote, next).result;
            var gateFailed := m.lifecycle.requireConfirmedTargetStatus && m.lifecycle.expectedPreState != ""
                              && pre != Str(m.lifecycle.expectedPreState);
            && result.Returned?
            && var receipt := result.value;
               && (receipt.accepted <==> !gateFailed && NoopPermitted(m.lifecycle, action, pre))
               && receipt.accepted == receipt.noOp == receipt.transitionVerified == receipt.taskSuccess
               && receipt.preState == pre && receipt.postState == (if gateFailed then Str("") else pre)
               && receipt.polls == 0 && receipt.upid == Str("")
               && !receipt.bootIdChanged && !receipt.bootIdentityChanged && !receipt.uptimeReset
               && !receipt.uptimeFallbackUsed
  {
    hide SaysStatus, IsGarbled, StatusField, MutationResult, MutationTrace;
    StatusFieldIff(remote.reply[next], pre);
  }

  /** A run that ends with its POST and does not raise: the answer named no task, and the
      receipt shows a failure that changed nothing. */
  lemma UnnamedTaskReceipt(m: Manifest, action: Action, remote: Remote, next: nat, pre: Json)
    requires SaysStatus(remote.reply[next], pre)
    requires var run := LifecycleRun(m, action, remote, next);
             run.result.Returned? && run.requests != [] && run.requests[|run.requests| - 1] == PostAction(action)
    ensures var run := LifecycleRun(m, action, remote, next);
            var receipt := run.result.value;
            var answer := remote.reply[next + |run.requests| - 1];
            && (forall upid :: !NamesTask(answer, upid))
            && !receipt.accepted && !receipt.noOp && !receipt.transitionVerified && !receipt.taskSuccess
            && receipt.preState == receipt.postState == pre && receipt.polls == 0
            && !receipt.bootIdChanged && !receipt.bootIdentityChanged && !receipt.uptimeReset
            && !receipt.uptimeFallbackUsed
  {
    hide SaysStatus, IsGarbled, StatusField, NamesTask, UpidOf, CaptureBoot, Decide, MutationTrace, MutationResult, TaskStarted;
    var posted := next + |BeforePost(m, action, remote, next)|;
    StatusFieldIff(remote.reply[next], pre);
    PostIsLast(m, action, remote, next, pre);
    forall upid | NamesTask(remote.reply[posted], upid) ensures false {
      NamesNoTask(remote, posted, upid);
    }
  }

  lemma NamesNoTask(remote: Remote, posted: nat, upid: Json)
    requires !TaskStarted(remote, posted)
    ensures !NamesTask(remote.reply[posted], upid)
  {
    hide NamesTask, UpidOf;
    NamesTaskIff(remote.reply[posted], upid);
  }

  lemma PostIsLast(m: Manifest, action: Action, remote: Remote, next: nat, pre: Json)
    requires MutationResult(m, action, remote, next, pre).Returned?
    requires MutationTrace(m, action, remote, next) != []
    requires var trace := MutationTrace(m, action, remote, next); trace[|trace| - 1] == PostAction(action)
    ensures var quiet := BeforePost(m, action, remote, next);
            var result := MutationResult(m, action, remote, next, pre);
            && MutationTrace(m, action, remote, next) == quiet + [PostAction(action)]
            && !TaskStarted(remote, next + |quiet|)
            && exists upid :: result.value == FailedReceipt(pre, upid)
  {
    hide UpidOf, BootAround, BeforePost, AfterPolls, Poll, Reads, TaskResult;
    var posted := next + |BeforePost(m, action, remote, next)|;
    var upid := UpidOf(remote.reply[posted]);
    if TaskStarted(remote, posted) {
      EndsReading(m, action, remote, posted + 1, pre, upid.value, BootAround(m.lifecycle, action, remote, next + 1).result.value);
      assert false;
    }
  }

  lemma EndsReading(m: Manifest, action: Action, remote: Remote, first: nat, pre: Json, upid: Json, before: BootEvidence)
    requires TaskResult(m, action, remote, first, pre, upid, before).Returned?
    ensures var tail := AfterPolls(m, action, remote, first, upid);
            tail != [] && IsRead(tail[|tail| - 1])
  {
    hide Poll, Verdict, StatusField;
  }

  /** What a receipt says of a reboot: the flags of the boot evidence, by what was told before
      and after it. */
  predicate FlagsTell(receipt: Receipt, u: real, v: real, first: string, second: string) {
    && (receipt.bootIdChanged <==> first != "" && second != "" && first != second)
    && (receipt.uptimeReset <==> u > 0.0 && 0.0 <= v < u)
    && (receipt.bootIdentityChanged <==>
          receipt.bootIdChanged || ((first == "" || second == "") && receipt.uptimeReset))
    && (receipt.uptimeFallbackUsed <==> first == "" && receipt.uptimeReset)
  }

  lemma VerdictTells(m: LifecyclePolicy, action: Action, pre: Json, upid: Json, report: PollReport, post: Json,
                     before: BootEvidence, after: BootEvidence)
    requires action == Reboot ==> (before.bootIdAvailable <==> before.bootId != "")
                                  && (after.bootIdAvailable <==> after.bootId != "")
    ensures var receipt := Verdict(m, action, pre, upid, report, post, before, after);
            && !receipt.noOp && receipt.preState == pre && receipt.postState == post
            && receipt.upid == upid && receipt.polls == report.polls
            && (receipt.transitionVerified <==> m.expectedPostState == "" || post == Str(m.expectedPostState))
            && (action == Reboot ==> FlagsTell(receipt, before.uptime, after.uptime, before.bootId, after.bootId))
            && (action != Reboot ==> !receipt.bootIdChanged && !receipt.bootIdentityChanged && !receipt.uptimeReset
                                     && !receipt.uptimeFallbackUsed)
  {
  }

  /** What the receipt says of an action whose POST named a task: the status before and after,
      the id, the number of polls, whether the task was seen done, and for a reboot what the
      boot evidence amounts to. */
  ghost predicate TellsOfTask(receipt: Receipt, m: LifecyclePolicy, action: Action, remote: Remote, next: nat, pre: Json,
                              p: nat, upid: Json, n: nat)
  {
    && !receipt.noOp && receipt.preState == pre && receipt.upid == upid && receipt.polls == n
    && SaysStatus(remote.reply[next + p + n + 1], receipt.postState)
    && (receipt.transitionVerified <==> m.expectedPostState == "" || receipt.postState == Str(m.expectedPostState))
    && (receipt.taskSuccess <==> n > 0 && SaysDone(remote.reply[next + p + n], m.requireTaskSuccess))
    && (action == Reboot ==>
          exists u: real, v: real, first: string, second: string ::
            && TellsBoot(m, remote, next + 1, u, first)
            && TellsBoot(m, remote, next + p + n + 2, v, second)
            && FlagsTell(receipt, u, v, first, second))
    && (action != Reboot ==>
          !receipt.bootIdChanged && !receipt.bootIdentityChanged && !receipt.uptimeReset && !receipt.uptimeFallbackUsed)
  }

  /** Every receipt of a run whose POST named a task tells what the replies tell. */
  lemma TaskReceiptTells(m: Manifest, action: Action, remote: Remote, next: nat, pre: Json, p: nat, upid: Json, n: nat)
    ensures var run := LifecycleRun(m, action, remote, next);
            && run.result.Returned? && Shape(run.requests, action, p, upid, n)
            && SaysStatus(remote.reply[next], pre) && NamesTask(remote.reply[next + p], upid)
            ==> TellsOfTask(run.result.value, m.lifecycle, action, remote, next, pre, p, upid, n)
  {
    hide *;
    var run := LifecycleRun(m, action, remote, next);
    if run.result.Returned? && Shape(run.requests, action, p, upid, n)
       && SaysStatus(remote.reply[next], pre) && NamesTask(remote.reply[next + p], upid)
    {
      StatusFieldIff(remote.reply[next], pre);
      NamesTaskIff(remote.reply[next + p], upid);
      MutatedByShape(m, action, remote, next, pre, p, upid, n);
      ResultByTask(m, action, remote, next, p, pre, upid);
      TaskReceiptByReplies(m, action, remote, next, p, n, pre, upid);
    }
  }

  /** A trace with a POST is that of a run that mutates, and has its shape. */
  lemma MutatedByShape(m: Manifest, action: Action, remote: Remote, next: nat, pre: Json, p: nat, upid: Json, n: nat)
    requires StatusField(remote.reply[next]) == Returned(pre)
    requires Shape(LifecycleRun(m, action, remote, next).requests, action, p, upid, n)
    requires UpidOf(remote.reply[next + p]) == Returned(upid) && upid.Truthy()
    ensures LifecycleRun(m, action, remote, next).result == MutationResult(m, action, remote, next, pre)
    ensures Posts(m, action, remote, next) && p == |BeforePost(m, action, remote, next)|
    ensures TaskStarted(remote, next + p) && n == |Poll(m.limits, remote, upid, next + p + 1).requests|
  {
    hide StatusField, UpidOf, Poll, AfterPolls, BootAround, MutationResult;
    var trace := LifecycleRun(m, action, remote, next).requests;
    assert p < |trace| && IsWrite(trace[p]);
    QuietParts(m, action, remote, next, next, upid);
    hide Shape;
    if Decide(m.lifecycle, action, pre) == Mutate && Posts(m, action, remote, next) {
      var q := |BeforePost(m, action, remote, next)|;
      if TaskStarted(remote, next + q) {
        TaskShape(m, action, remote, next);
        var id := UpidOf(remote.reply[next + q]).value;
        ShapeIsUnique(trace, action, p, upid, n, q, id, |Poll(m.limits, remote, id, next + q + 1).requests|);
      } else {
        assert trace == BeforePost(m, action, remote, next) + [PostAction(action)];
      }
    }
  }

  lemma ResultByTask(m: Manifest, action: Action, remote: Remote, next: nat, p: nat, pre: Json, upid: Json)
    requires Posts(m, action, remote, next) && p == |BeforePost(m, action, remote, next)|
    requires UpidOf(remote.reply[next + p]) == Returned(upid) && upid.Truthy()
    ensures BootAround(m.lifecycle, action, remote, next + 1).result.Returned?
    ensures MutationResult(m, action, remote, next, pre)
         == TaskResult(m, action, remote, next + p + 1, pre, upid,
                       BootAround(m.lifecycle, action, remote, next + 1).result.value)
  {
    hide TaskResult, BootAround, UpidOf;
  }

  lemma TaskReceiptByReplies(m: Manifest, action: Action, remote: Remote, next: nat, p: nat, n: nat, pre: Json, upid: Json)
    requires BootAround(m.lifecycle, action, remote, next + 1).result.Returned?
    requires n == |Poll(m.limits, remote, upid, next + p + 1).requests|
    requires TaskResult(m, action, remote, next + p + 1, pre, upid,
                        BootAround(m.lifecycle, action, remote, next + 1).result.value).Returned?
    ensures var receipt := TaskResult(m, action, remote, next + p + 1, pre, upid,
                                      BootAround(m.lifecycle, action, remote, next + 1).result.value).value;
            TellsOfTask(receipt, m.lifecycle, action, remote, next, pre, p, upid, n)
  {
    hide Poll, BootAround, StatusField, SaysStatus, SaysDone, TellsBoot, FlagsTell, Verdict, Stopped;
    var first := next + p + 1;
    assert first + n == next + p + n + 1 && first + n + 1 == next + p + n + 2;
    var before := BootAround(m.lifecycle, action, remote, next + 1).result.value;
    var poll := Poll(m.limits, remote, upid, first);
    PollingIsBounded(m.limits, remote, upid, first);
    var report, post := poll.result.value, StatusField(remote.reply[first + n]).value;
    var after := BootAround(m.lifecycle, action, remote, first + n + 1).result.value;
    StatusFieldIff(remote.reply[first + n], post);
    BootTold(m.lifecycle, action, remote, next + 1, before);
    BootTold(m.lifecycle, action, remote, first + n + 1, after);
    VerdictTells(m.lifecycle, action, pre, upid, report, post, before, after);
    VerdictIsStopped(m.limits, remote, upid, first, m.lifecycle.requireTaskSuccess);
    StoppedIff(remote, first, n, m.lifecycle.requireTaskSuccess);
    VerdictOnTask(m.lifecycle, action, pre, upid, report, post, before, after);
  }

  lemma VerdictOnTask(m: LifecyclePolicy, action: Action, pre: Json, upid: Json, report: PollReport, post: Json,
                      before: BootEvidence, after: BootEvidence)
    requires report.timedOut ==> report.status != STOPPED
    ensures Verdict(m, action, pre, upid, report, post, before, after).taskSuccess
       <==> report.status == STOPPED && (!m.requireTaskSuccess || report.exitstatus == OK)
  {
  }

  lemma BootTold(m: LifecyclePolicy, action: Action, remote: Remote, at: nat, evidence: BootEvidence)
    requires BootAround(m, action, remote, at).result == Returned(evidence)
    ensures action == Reboot ==> TellsBoot(m, remote, at, evidence.uptime, evidence.bootId)
                                 && (evidence.bootIdAvailable <==> evidence.bootId != "")
  {
    hide CaptureBoot, TellsBoot;
    BootEvidenceIff(m, remote, at, evidence);
  }
}
