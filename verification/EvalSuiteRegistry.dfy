/** The registry of evaluation suites: register, revoke, verify. */
module EvalSuiteRegistry {

  import opened Wrappers

  type Digest = string

  const ACTIVE := "active"
  const REVOKED := "revoked"

  /** A suite's content, without its signature fields; a blank bound is no bound. */
  datatype Suite = Suite(
    suiteId: string,
    status: string,
    validFrom: Option<int>,
    validUntil: Option<int>,
    content: string
  )

  datatype Entry = Entry(suiteId: string, status: string, validFrom: Option<int>, validUntil: Option<int>)

  datatype Event = Registered(digest: Digest) | RevokedSuite(digest: Digest)

  type Sha = Suite -> Digest

  datatype State = State(entries: map<Digest, Entry>, auditLog: seq<Event>)

  datatype Op = Register(suite: Suite) | Revoke(digest: Digest)

  function EntryOf(suite: Suite): Entry {
    Entry(suite.suiteId, suite.status, suite.validFrom, suite.validUntil)
  }

  function After(sha: Sha, s: State, op: Op): State {
    match op
    case Register(suite) =>
      if sha(suite) in s.entries then s
      else State(s.entries[sha(suite) := EntryOf(suite)], s.auditLog + [Registered(sha(suite))])
    case Revoke(digest) =>
      if digest !in s.entries then s
      else State(s.entries[digest := s.entries[digest].(status := REVOKED)], s.auditLog + [RevokedSuite(digest)])
  }

  function Run(sha: Sha, s: State, ops: seq<Op>): State
    decreases |ops|
  {
    if ops == [] then s else Run(sha, After(sha, s, ops[0]), ops[1..])
  }

  datatype Verdict = Verdict(valid: bool, inRegistry: bool, status: string)

  /** Within the validity window of an entry. */
  predicate InWindow(e: Entry, now: int) {
    && (e.validFrom.Some? ==> now >= e.validFrom.value)
    && (e.validUntil.Some? ==> now <= e.validUntil.value)
  }

  class EvalSuiteRegistry {
    const sha: Sha
    var entries: map<Digest, Entry>
    var auditLog: seq<Event>

    function Contents(): State
      reads this
    {
      State(entries, auditLog)
    }

    constructor (sha: Sha)
      ensures this.sha == sha && Contents() == State(map[], [])
    {
      this.sha := sha;
      entries, auditLog := map[], [];
    }

    /** `register_suite`: a digest that is there already is returned as it is. */
    method RegisterSuite(suite: Suite) returns (entry: Entry)
      modifies this
      ensures Contents() == After(sha, old(Contents()), Register(suite))
      ensures sha(suite) in entries && entry == entries[sha(suite)]
    {
      var digest := sha(suite);
      if digest in entries {
        return entries[digest];
      }
      entry := Entry(suite.suiteId, suite.status, suite.validFrom, suite.validUntil);
      entries := entries[digest := entry];
      auditLog := auditLog + [Registered(digest)];
    }

    /** `revoke_suite`; `found` is false where the source raises KeyError. */
    method RevokeSuite(digest: Digest) returns (found: bool)
      modifies this
      ensures found == (digest in old(entries))
      ensures Contents() == After(sha, old(Contents()), Revoke(digest))
    {
      if digest !in entries {
        return false;
      }
      var entry := entries[digest];
      entry := entry.(status := REVOKED);
      entries := entries[digest := entry];
      auditLog := auditLog + [RevokedSuite(digest)];
      found := true;
    }

    /** `verify_suite_in_registry` */
    method VerifySuite(digest: Digest, requireActive: bool, now: int) returns (verdict: Verdict)
      ensures verdict.valid <==>
                && digest in entries
                && (requireActive ==> entries[digest].status == ACTIVE)
                && InWindow(entries[digest], now)
      ensures verdict.inRegistry <==> digest in entries
      ensures digest in entries ==> verdict.status == entries[digest].status
    {
      if digest !in entries {
        return Verdict(false, false, "");
      }
      var entry := entries[digest];
      var errors := 0;
      if requireActive && entry.status != ACTIVE {
        errors := errors + 1;
      }
      if entry.validFrom.Some? && now < entry.validFrom.value {
        errors := errors + 1;
      }
      if entry.validUntil.Some? && now > entry.validUntil.value {
        errors := errors + 1;
      }
      verdict := Verdict(errors == 0, true, entry.status);
    }
  }

  /** A revoked digest stays revoked under any later operations: registering the same content
      again brings nothing back.  The status a suite claims is part of its content, so the
      same suite with another status has another digest and is another entry. */
  lemma {:induction false} RevokedStaysRevoked(sha: Sha, s: State, ops: seq<Op>, digest: Digest)
    requires digest in s.entries && s.entries[digest].status == REVOKED
    ensures var after := Run(sha, s, ops);
            digest in after.entries && after.entries[digest].status == REVOKED
    decreases |ops|
  {
    if ops != [] {
      RevokedStaysRevoked(sha, After(sha, s, ops[0]), ops[1..], digest);
    }
  }

  ghost predicate EntriesAreLogged(s: State) {
    forall digest :: digest in s.entries <==> Registered(digest) in s.auditLog
  }

  ghost predicate RegisteredOnce(auditLog: seq<Event>) {
    forall j, k :: 0 <= j < k < |auditLog| && auditLog[j].Registered? ==> auditLog[j] != auditLog[k]
  }

  ghost predicate RevocationsHold(s: State) {
    forall digest :: RevokedSuite(digest) in s.auditLog ==> digest in s.entries && s.entries[digest].status == REVOKED
  }

  ghost predicate OthersAsRegistered(sha: Sha, s: State) {
    forall digest :: digest in s.entries && RevokedSuite(digest) !in s.auditLog ==> WasRegistered(sha, digest, s.entries[digest])
  }

  ghost predicate WasRegistered(sha: Sha, digest: Digest, entry: Entry) {
    exists suite ::
      && sha(suite) == digest
      && entry.suiteId == suite.suiteId && entry.status == suite.status
      && entry.validFrom == suite.validFrom && entry.validUntil == suite.validUntil
  }

  /** Each digest was registered once, and its entry is what was registered, except that it
      may have been revoked since. */
  ghost predicate Faithful(sha: Sha, s: State) {
    EntriesAreLogged(s) && RegisteredOnce(s.auditLog) && RevocationsHold(s) && OthersAsRegistered(sha, s)
  }

  lemma RegisterIsFaithful(sha: Sha, s: State, suite: Suite)
    requires Faithful(sha, s) && sha(suite) !in s.entries
    ensures Faithful(sha, After(sha, s, Register(suite)))
  {
    hide WasRegistered, EntryOf;
    var digest, after := sha(suite), After(sha, s, Register(suite));
    assert WasRegistered(sha, digest, EntryOf(suite)) by {
      WasRegisteredNow(sha, suite);
    }
    assert after.auditLog == s.auditLog + [Registered(digest)];
    assert after.entries == s.entries[digest := EntryOf(suite)];
  }

  lemma WasRegisteredNow(sha: Sha, suite: Suite)
    ensures WasRegistered(sha, sha(suite), EntryOf(suite))
  {
  }

  lemma RevokeIsFaithful(sha: Sha, s: State, digest: Digest)
    requires Faithful(sha, s) && digest in s.entries
    ensures Faithful(sha, After(sha, s, Revoke(digest)))
  {
    hide WasRegistered, EntryOf;
    var after := After(sha, s, Revoke(digest));
    assert after.auditLog == s.auditLog + [RevokedSuite(digest)];
    assert after.entries == s.entries[digest := s.entries[digest].(status := REVOKED)];
    assert RevokedSuite(digest) in after.auditLog;
  }

  lemma StepIsFaithful(sha: Sha, s: State, op: Op)
    requires Faithful(sha, s)
    ensures Faithful(sha, After(sha, s, op))
  {
    hide Faithful;
    match op
    case Register(suite) =>
      if sha(suite) !in s.entries {
        RegisterIsFaithful(sha, s, suite);
      }
    case Revoke(digest) =>
      if digest in s.entries {
        RevokeIsFaithful(sha, s, digest);
      }
  }

  /** Over every sequence of operations from an empty registry, the log accounts for every
      entry and its status, and each digest is registered once. */
  lemma {:induction false} RunIsFaithful(sha: Sha, s: State, ops: seq<Op>)
    requires Faithful(sha, s)
    ensures Faithful(sha, Run(sha, s, ops))
    decreases |ops|
  {
    if ops != [] {
      StepIsFaithful(sha, s, ops[0]);
      RunIsFaithful(sha, After(sha, s, ops[0]), ops[1..]);
    }
  }

  /** A suite that verifies, with the window it was registered with: the first bound it gives is
      where it starts to be valid, the second where it ends. */
  lemma RegisteredWindow(sha: Sha, ops: seq<Op>, suite: Suite, now: int)
    requires forall other :: sha(other) == sha(suite) ==> other == suite
    requires var s := Run(sha, State(map[], []), ops); sha(suite) in s.entries && RevokedSuite(sha(suite)) !in s.auditLog
    ensures InWindow(Run(sha, State(map[], []), ops).entries[sha(suite)], now) <==>
              && (suite.validFrom.Some? ==> suite.validFrom.value <= now)
              && (suite.validUntil.Some? ==> now <= suite.validUntil.value)
  {
    RunIsFaithful(sha, State(map[], []), ops);
  }

  /** A suite's entry is active exactly when the suite was registered, claims to be active and
      was never revoked. */
  lemma ActiveIff(sha: Sha, ops: seq<Op>, suite: Suite)
    requires forall other :: sha(other) == sha(suite) ==> other == suite
    ensures var s := Run(sha, State(map[], []), ops);
            sha(suite) in s.entries && s.entries[sha(suite)].status == ACTIVE <==>
              Registered(sha(suite)) in s.auditLog && RevokedSuite(sha(suite)) !in s.auditLog && suite.status == ACTIVE
  {
    RunIsFaithful(sha, State(map[], []), ops);
  }
}
