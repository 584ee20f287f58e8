/** Bounded polling of a remote task: `ProxmoxApiAdapter._poll_task`. */
module TaskPolling {
  import opened Wire

  datatype Limits = Limits(maxPolls: int, timeout: real)

  datatype PollReport = PollReport(status: Json, exitstatus: Json, polls: nat, timedOut: bool)

  const STOPPED := Str("stopped")
  const OK := Str("OK")

  /** What one task reply says: nothing unless it is a 200, else its status and exit status. */
  datatype Reading = Silent | Reading(status: Json, exitstatus: Json)

  function Read(r: Response): Outcome<Reading> {
    if r.code != 200 then Returned(Silent)
    else if !r.body.Obj? then Raised
    else
      var data := r.body.Get("data", Obj(map[]));
      if !data.Obj? then Raised
      else Returned(Reading(data.Get("status", Str("unknown")), data.Get("exitstatus", Str(""))))
  }

  predicate SaysStopped(r: Response) {
    var reading := Read(r);
    reading.Returned? && reading.value.Reading? && reading.value.status == STOPPED
  }

  /** The reply ends the loop: it says "stopped", or reading it raises. */
  predicate Halts(r: Response) {
    Read(r).Raised? || SaysStopped(r)
  }

  /** The last task reply with status code 200 among the `n` replies from `next` on. */
  ghost function LastReading(remote: Remote, next: nat, n: nat): (r: Reading)
    ensures r.Reading?
  {
    if n == 0 then Reading(Str("unknown"), Str(""))
    else
      var latest := Read(remote.reply[next + n - 1]);
      if latest.Returned? && latest.value.Reading? then latest.value
      else LastReading(remote, next, n - 1)
  }

  /** How many requests a run sends in all, `k` of which it has already sent. */
  ghost function Polls(limits: Limits, remote: Remote, next: nat, k: nat): (n: nat)
    ensures k <= n && (k <= limits.maxPolls ==> n <= limits.maxPolls)
    decreases limits.maxPolls - k
  {
    if k >= limits.maxPolls || remote.elapsed[next + k] > limits.timeout then k
    else if Halts(remote.reply[next + k]) then k + 1
    else Polls(limits, remote, next, k + 1)
  }

  ghost predicate RaisesAt(remote: Remote, next: nat, n: nat) {
    n > 0 && Read(remote.reply[next + n - 1]).Raised?
  }

  ghost predicate StopsAt(remote: Remote, next: nat, n: nat) {
    n > 0 && SaysStopped(remote.reply[next + n - 1])
  }

  /** What the loop's variables amount to. */
  function Report(limits: Limits, last: Reading, n: nat): PollReport
    requires last.Reading?
  {
    PollReport(
      last.status,
      last.exitstatus.Or(if last.status == STOPPED then OK else Str("UNKNOWN")),
      n,
      last.status != STOPPED && n >= limits.maxPolls)
  }

  ghost function TaskRequests(upid: Json, n: nat): (requests: seq<Request>)
    ensures |requests| == n
  {
    if n == 0 then [] else TaskRequests(upid, n - 1) + [GetTask(upid)]
  }

  lemma {:induction false} OnlyTasks(upid: Json, n: nat)
    ensures forall k: nat :: k < n ==> TaskRequests(upid, n)[k] == GetTask(upid)
  {
    if n > 0 {
      OnlyTasks(upid, n - 1);
    }
  }

  ghost function Poll(limits: Limits, remote: Remote, upid: Json, next: nat): Run<PollReport> {
    var n := Polls(limits, remote, next, 0);
    Run(TaskRequests(upid, n),
        if RaisesAt(remote, next, n) then Raised
        else Returned(Report(limits, LastReading(remote, next, n), n)))
  }

  /** What one more turn of the loop makes of the functions above. */
  lemma PollStep(limits: Limits, remote: Remote, upid: Json, next: nat, k: nat, last: Reading)
    requires k < limits.maxPolls && LastReading(remote, next, k) == last
    ensures remote.elapsed[next + k] > limits.timeout ==> Polls(limits, remote, next, k) == k
    ensures TaskRequests(upid, k + 1) == TaskRequests(upid, k) + [GetTask(upid)]
    ensures remote.elapsed[next + k] <= limits.timeout ==>
              var r := remote.reply[next + k];
              Polls(limits, remote, next, k) == if Halts(r) then k + 1 else Polls(limits, remote, next, k + 1)
    ensures var reading := Read(remote.reply[next + k]);
            && (RaisesAt(remote, next, k + 1) <==> reading.Raised?)
            && (Halts(remote.reply[next + k]) <==>
                  reading.Raised? || (reading.value.Reading? && reading.value.status == STOPPED))
            && (reading.Returned? ==>
                  LastReading(remote, next, k + 1) == if reading.value.Reading? then reading.value else last)
  {
    hide Read;
    assert next + (k + 1) - 1 == next + k;
  }

  lemma PollStarts(remote: Remote, upid: Json, next: nat)
    ensures TaskRequests(upid, 0) == []
    ensures LastReading(remote, next, 0) == Reading(Str("unknown"), Str(""))
    ensures !RaisesAt(remote, next, 0)
  {
  }

  lemma PollEnds(limits: Limits, remote: Remote, upid: Json, next: nat, n: nat)
    requires Polls(limits, remote, next, 0) == n
    ensures Poll(limits, remote, upid, next) ==
              Run(TaskRequests(upid, n),
                  if RaisesAt(remote, next, n) then Raised
                  else Returned(Report(limits, LastReading(remote, next, n), n)))
  {
  }

  lemma PollsUsedUp(limits: Limits, remote: Remote, next: nat, k: nat)
    requires k >= limits.maxPolls
    ensures Polls(limits, remote, next, k) == k
  {
  }

  /** The loop of `_poll_task`. */
  method PollTask(session: Session, limits: Limits, upid: Json) returns (report: Outcome<PollReport>)
    modifies session
    ensures var run := Poll(limits, session.remote, upid, |old(session.trace)|);
            session.trace == old(session.trace) + run.requests && report == run.result
  {
    hide *;
    ghost var next, remote := |session.trace|, session.remote;
    var polls := 0;
    var status, exitstatus := Str("unknown"), Str("");
    PollStarts(remote, upid, next);
    while polls < limits.maxPolls
      invariant session.trace == old(session.trace) + TaskRequests(upid, polls)
      invariant Polls(limits, remote, next, 0) == Polls(limits, remote, next, polls)
      invariant LastReading(remote, next, polls) == Reading(status, exitstatus)
      invariant !RaisesAt(remote, next, polls)
      decreases limits.maxPolls - polls
    {
      PollStep(limits, remote, upid, next, polls, Reading(status, exitstatus));
      if session.remote.elapsed[|session.trace|] > limits.timeout {
        break;
      }
      polls := polls + 1;
      var r := session.Send(GetTask(upid));
      var reading := Read(r);
      if reading.Raised? {
        PollEnds(limits, remote, upid, next, polls);
        return Raised;
      }
      if reading.value.Silent? {
        continue;
      }
      status, exitstatus := reading.value.status, reading.value.exitstatus;
      if status == STOPPED {
        break;
      }
    }
    if polls >= limits.maxPolls {
      PollsUsedUp(limits, remote, next, polls);
    }
    PollEnds(limits, remote, upid, next, polls);
    report := Returned(Report(limits, Reading(status, exitstatus), polls));
  }

  // ----- what a run means

  /** Every request but the last was answered by a reply that kept the loop going. */
  lemma {:induction false} PollsKeptGoing(limits: Limits, remote: Remote, next: nat, k: nat)
    ensures var n := Polls(limits, remote, next, k);
            && (forall j: nat {:trigger remote.reply[j]} :: next + k <= j < next + n - 1 ==> !Halts(remote.reply[j]))
            && (forall j: nat {:trigger remote.elapsed[j]} :: next + k <= j < next + n ==> remote.elapsed[j] <= limits.timeout)
            && (n == k || !Halts(remote.reply[next + n - 1]) ==>
                  n >= limits.maxPolls || remote.elapsed[next + n] > limits.timeout)
    decreases limits.maxPolls - k
  {
    hide Halts;
    if k >= limits.maxPolls || remote.elapsed[next + k] > limits.timeout {
    } else if !Halts(remote.reply[next + k]) {
      PollsKeptGoing(limits, remote, next, k + 1);
    }
  }

  lemma {:induction false} LastReadingStopped(remote: Remote, next: nat, n: nat)
    requires forall j: nat {:trigger remote.reply[j]} :: next <= j < next + n - 1 ==> !Halts(remote.reply[j])
    requires !RaisesAt(remote, next, n)
    ensures LastReading(remote, next, n).status == STOPPED <==> StopsAt(remote, next, n)
  {
    if n > 0 {
      var latest := Read(remote.reply[next + n - 1]);
      if latest.value.Silent? {
        if n > 1 {
          assert !Halts(remote.reply[next + n - 2]);
        }
        LastReadingStopped(remote, next, n - 1);
      }
    }
  }

  /** Over every remote and clock, polling sends at most `maxPolls` requests and stops at
      the first reply that says "stopped"; it reports that status exactly when some poll
      saw it; and a run that saw no stop went on until its polls or its time were used up.
      `timedOut` tells only of the polls: when it is the clock that ends the loop it
      stays false. */
  lemma PollingIsBounded(limits: Limits, remote: Remote, upid: Json, next: nat)
    ensures var run := Poll(limits, remote, upid, next);
            var n := |run.requests|;
            && n <= (if limits.maxPolls > 0 then limits.maxPolls else 0)
            && run.requests == TaskRequests(upid, n)
            && (forall j: nat {:trigger remote.reply[j]} :: next <= j < next + n - 1 ==> !Halts(remote.reply[j]))
            && (run.result.Raised? <==> RaisesAt(remote, next, n))
            && (run.result.Returned? ==>
                  var report := run.result.value;
                  && report.polls == n
                  && report.status == LastReading(remote, next, n).status
                  && (report.status == STOPPED <==> StopsAt(remote, next, n))
                  && (var told := LastReading(remote, next, n).exitstatus;
                      report.exitstatus == if told.Truthy() then told
                                           else if report.status == STOPPED then Str("OK") else Str("UNKNOWN"))
                  && (report.timedOut ==> report.status != STOPPED)
                  && (report.status != STOPPED ==>
                        report.timedOut != (n < limits.maxPolls && remote.elapsed[next + n] > limits.timeout)))
  {
    PollsKeptGoing(limits, remote, next, 0);
    var n := Polls(limits, remote, next, 0);
    if !RaisesAt(remote, next, n) {
      LastReadingStopped(remote, next, n);
    }
  }

  /** What the report goes by: the last of the replies that had something to tell, if any had. */
  lemma {:induction false} LastReadingIs(remote: Remote, next: nat, n: nat)
    ensures var last := LastReading(remote, next, n);
            || (last == Reading(Str("unknown"), Str(""))
                && forall k: nat {:trigger remote.reply[k]} :: next <= k < next + n ==>
                     Read(remote.reply[k]).Raised? || Read(remote.reply[k]).value.Silent?)
            || exists k: nat {:trigger remote.reply[k]} ::
                 && next <= k < next + n && Read(remote.reply[k]) == Returned(last)
                 && forall j: nat {:trigger remote.reply[j]} :: k < j < next + n ==>
                      Read(remote.reply[j]).Raised? || Read(remote.reply[j]).value.Silent?
  {
    hide Read;
    if n > 0 {
      LastReadingIs(remote, next, n - 1);
      var latest := Read(remote.reply[next + n - 1]);
    }
  }

  /** A slow remote: two polls find the remote task running, each answered late, and then the
      time is up, long before the polls are.  The report does not say that it timed out. */
  lemma ClockEndsPollingUnnoticed(remote: Remote, upid: Json, next: nat) returns (limits: Limits, slow: Remote)
    ensures limits.maxPolls > 2 && slow.elapsed[next] == 0.0
    ensures var run := Poll(limits, slow, upid, next);
            && |run.requests| == 2 && run.result.Returned?
            && run.result.value.status == Str("running") && !run.result.value.timedOut
  {
    var data := map["status" := Str("running")];
    var running := Response(200, Obj(map["data" := Obj(data)]));
    limits := Limits(60, 300.0);
    slow := remote.(reply := remote.reply[next := running][next + 1 := running],
                    elapsed := remote.elapsed[next := 0.0][next + 1 := 200.0][next + 2 := 400.0]);
    assert Read(running) == Returned(Reading(Str("running"), Str("")));
    assert !Halts(running);
    assert Polls(limits, slow, next, 2) == 2;
    assert Polls(limits, slow, next, 1) == 2;
    assert LastReading(slow, next, 2).status == Str("running");
  }

  /** A poll saw the task stop, and with a passing exit status; blank counts as passing. */
  ghost predicate Stopped(remote: Remote, next: nat, n: nat, needOk: bool) {
    && StopsAt(remote, next, n)
    && (needOk ==> var exitstatus := Read(remote.reply[next + n - 1]).value.exitstatus;
                   !exitstatus.Truthy() || exitstatus == OK)
  }

  /** The caller's verdict on a task agrees with what the last reply says.  The override of
      a timed-out task that follows it in the source never changes the verdict. */
  lemma VerdictIsStopped(limits: Limits, remote: Remote, upid: Json, next: nat, needOk: bool)
    requires Poll(limits, remote, upid, next).result.Returned?
    ensures var run := Poll(limits, remote, upid, next);
            var report := run.result.value;
            var verdict := report.status == STOPPED && (!needOk || report.exitstatus == OK);
            && (verdict <==> Stopped(remote, next, |run.requests|, needOk))
            && (verdict ==> !report.timedOut)
  {
    PollingIsBounded(limits, remote, upid, next);
  }
}
