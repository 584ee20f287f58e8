/** What replies say, told from their JSON alone, and that the adapter reads just that.

    The predicates here name no function of the adapter; each is tied to the one that does the
    reading by a lemma that holds in both directions. */
module Readings {
  import opened Wire
  import opened TaskPolling
  import opened Manifest
  import opened Lifecycle

  // ----- replies

  /** The status a reply tells: "unknown" when it is not 200 or carries nothing. */
  ghost predicate SaysStatus(r: Response, status: Json) {
    || (r.code != 200 && status == Str("unknown"))
    || (exists data :: Carries(r, data) && Blank(data) && status == Str("unknown"))
    || (exists fields :: Carries(r, Obj(fields)) && fields != map[] && Has(fields, "status", Str("unknown"), status))
  }

  /** Nor an object: such replies make the reading raise. */
  ghost predicate IsGarbled(r: Response) {
    r.code == 200 && (!r.body.Obj? || exists data :: Carries(r, data) && !Blank(data) && !data.Obj?)
  }

  lemma StatusFieldIff(r: Response, status: Json)
    ensures StatusField(r) == Returned(status) <==> SaysStatus(r, status)
    ensures StatusField(r).Raised? <==> IsGarbled(r)
    ensures StatusFieldOrUnknown(r) == status <==> SaysStatus(r, status) || (IsGarbled(r) && status == Str("unknown"))
  {
    if r.code == 200 && r.body.Obj? {
      var data := if "data" in r.body.fields then r.body.fields["data"] else Null;
      assert Carries(r, data);
      TruthyIff(data);
      assert data.Obj? ==> data == Obj(data.fields);
    }
  }

  /** What a reply to a task poll tells: nothing unless it is a 200. */
  ghost predicate SaysTask(r: Response, status: Json, exitstatus: Json) {
    && r.code == 200 && r.body.Obj?
    && exists fields :: Has(r.body.fields, "data", Obj(map[]), Obj(fields))
                        && Has(fields, "status", Str("unknown"), status) && Has(fields, "exitstatus", Str(""), exitstatus)
  }

  lemma ReadIff(r: Response, status: Json, exitstatus: Json)
    ensures Read(r) == Returned(Reading(status, exitstatus)) <==> SaysTask(r, status, exitstatus)
    ensures Read(r) == Returned(Silent) <==> r.code != 200
  {
    if r.code == 200 && r.body.Obj? {
      var data := if "data" in r.body.fields then r.body.fields["data"] else Obj(map[]);
      assert Has(r.body.fields, "data", Obj(map[]), data);
      assert data.Obj? ==> data == Obj(data.fields);
    }
  }

  /** A poll that found the remote task stopped; where that is asked for with exit status OK,
      for which blank will do. */
  ghost predicate SaysDone(r: Response, needOk: bool) {
    exists exitstatus :: SaysTask(r, Str("stopped"), exitstatus)
                         && (needOk ==> Blank(exitstatus) || exitstatus == Str("OK"))
  }

  lemma StoppedIff(remote: Remote, next: nat, n: nat, needOk: bool)
    ensures Stopped(remote, next, n, needOk) <==> n > 0 && SaysDone(remote.reply[next + n - 1], needOk)
  {
    if n > 0 {
      var r := remote.reply[next + n - 1];
      var reading := Read(r);
      if reading.Returned? && reading.value.Reading? {
        ReadIff(r, reading.value.status, reading.value.exitstatus);
        TruthyIff(reading.value.exitstatus);
      }
      forall exitstatus | SaysTask(r, Str("stopped"), exitstatus)
        ensures reading == Returned(Reading(Str("stopped"), exitstatus))
      {
        ReadIff(r, Str("stopped"), exitstatus);
      }
    }
  }

  /** The answer to a POST names a task: as its data, as the field of its data, or as the text of
      whatever else its data is. */
  ghost predicate NamesTask(r: Response, upid: Json) {
    exists data ::
      && Carries(r, data) && !Blank(data)
      && match data
         case Str(_) => upid == data
         case Obj(fields) => "upid" in fields && upid == fields["upid"] && !Blank(upid)
         case _ => upid == Str(Repr(data))
  }

  lemma NamesTaskIff(r: Response, upid: Json)
    ensures UpidOf(r) == Returned(upid) && upid.Truthy() <==> NamesTask(r, upid)
  {
    TruthyIff(upid);
    if r.code == 200 && r.body.Obj? {
      var data := if "data" in r.body.fields then r.body.fields["data"] else Null;
      assert Carries(r, data);
      TruthyIff(data);
    }
  }

  // ----- boot evidence

  /** A number is taken as it is, a bool as 1 or 0, anything else as 0. */
  ghost predicate SaysUptime(fields: map<string, Json>, uptime: real) {
    if "uptime" !in fields then uptime == 0.0
    else
      match fields["uptime"]
      case Num(n) => uptime == n
      case Bool(b) => uptime == if b then 1.0 else 0.0
      case _ => uptime == 0.0
  }

  /** What the guest agent answers: the decoded content, or "" if it has none. */
  ghost predicate SaysBootId(remote: Remote, r: Response, bootId: string) {
    || (exists fields :: Carries(r, Obj(fields)) && "content" in fields && !Blank(fields["content"])
                         && bootId == remote.bootIdOf(fields["content"]))
    || (bootId == "" && !exists fields :: Carries(r, Obj(fields)) && "content" in fields && !Blank(fields["content"]))
  }

  /** Uptime and boot id as the replies from `at` on tell them: the status reply, and the
      agent's where it is asked.  A status reply that carries nothing tells 0 and "". */
  ghost predicate TellsBoot(m: LifecyclePolicy, remote: Remote, at: nat, uptime: real, bootId: string) {
    var r := remote.reply[at];
    || ((r.code != 200 || exists data :: Carries(r, data) && Blank(data)) && uptime == 0.0 && bootId == "")
    || (exists fields ::
          && Carries(r, Obj(fields)) && fields != map[] && SaysUptime(fields, uptime)
          && if m.asksGuestAgent then SaysBootId(remote, remote.reply[at + 1], bootId) else bootId == "")
  }

  lemma BootIdFromIff(remote: Remote, r: Response, bootId: string)
    ensures BootIdFrom(remote, r) == bootId <==> SaysBootId(remote, r, bootId)
  {
    if fields :| Carries(r, Obj(fields)) && "content" in fields && !Blank(fields["content"]) {
      TruthyIff(fields["content"]);
      assert forall other :: Carries(r, Obj(other)) ==> other == fields;
    } else if r.code == 200 && r.body.Obj? && "data" in r.body.fields && r.body.fields["data"].Obj? {
      var fields := r.body.fields["data"].fields;
      assert Carries(r, Obj(fields));
      if "content" in fields {
        TruthyIff(fields["content"]);
      }
    }
  }

  lemma UptimeIff(fields: map<string, Json>, uptime: real)
    ensures Uptime(Obj(fields)) == uptime <==> SaysUptime(fields, uptime)
  {
  }

  /** Boot evidence is what the replies tell, and the id counts as available if and only if it
      is not empty. */
  lemma BootEvidenceIff(m: LifecyclePolicy, remote: Remote, at: nat, evidence: BootEvidence)
    ensures CaptureBoot(m, remote, at).result == Returned(evidence) <==>
              && TellsBoot(m, remote, at, evidence.uptime, evidence.bootId)
              && (evidence.bootIdAvailable <==> evidence.bootId != "")
  {
    hide BootIdFrom, SaysBootId, Uptime, SaysUptime;
    var r := remote.reply[at];
    if r.code == 200 && r.body.Obj? {
      var data := if "data" in r.body.fields then r.body.fields["data"] else Null;
      assert Carries(r, data);
      TruthyIff(data);
      if data.Obj? {
        assert data == Obj(data.fields);
        UptimeIff(data.fields, evidence.uptime);
        BootIdFromIff(remote, remote.reply[at + 1], evidence.bootId);
      }
    }
  }

  ghost predicate Resets(before: real, after: real) {
    before > 0.0 && 0.0 <= after < before
  }

  /** The boot evidence a policy asks for, from the replies at `before` and at `after`.  A boot
      id that was told before must be followed by another; only where none was told may a reset
      uptime stand in, if that is allowed. */
  ghost predicate BootConfirmed(m: LifecyclePolicy, remote: Remote, before: nat, after: nat) {
    exists u: real, v: real, first: string, second: string ::
      && TellsBoot(m, remote, before, u, first) && TellsBoot(m, remote, after, v, second)
      && (m.requireBootIdChange ==>
            if first != "" then second != "" && second != first
            else m.allowUptimeOnlyFallback && Resets(u, v))
      && (m.requireUptimeReset ==> Resets(u, v))
  }
}
