/** The certified registry: publishing, deprecating and revoking entries, with an audit log.
    The digests of an entry and of all entries are arbitrary functions. */
module CertifiedRegistry {

  import opened Wrappers

  type EntryId = string

  datatype Status = Active | Deprecated | Revoked | Denied

  datatype Entry = Entry(
    packageId: string,
    packageDigest: string,
    certified: bool,
    status: Status,
    deprecateReason: Option<string>,
    revokeReason: Option<string>,
    digest: string
  ) {
    /** What an entry's digest covers. */
    function Content(): Entry {
      this.(digest := "")
    }

    /** The entry as it was when it was published. */
    function AsPublished(): Entry {
      this.(status := Active, deprecateReason := None, revokeReason := None)
    }
  }

  datatype Event = Published | WasDeprecated | WasRevoked

  datatype Record = Record(event: Event, entryId: EntryId)

  datatype Sha = Sha(ofEntry: Entry -> string, ofEntries: map<EntryId, Entry> -> string)

  /** The registry as the file holds it. */
  datatype State = State(entries: map<EntryId, Entry>, auditLog: seq<Record>, entriesDigest: string)

  const EMPTY := State(map[], [], "")

  // ----- what is asked of a package

  datatype Certification = Certification(status: string, targetDigest: string, signed: bool)

  datatype Request = Request(
    packageId: string,
    declaredDigest: string,
    manifestDigest: string,
    certification: Option<Certification>,
    requireCertification: bool,
    requireSignature: bool
  ) {
    function PackageDigest(): string {
      if declaredDigest == "" then manifestDigest else declaredDigest
    }

    /** A package that may be published: it has an id, and where certification is required a
        certification that says "certified" and, if it names a target, names this package;
        where a signature is required, any certification given is signed. */
    predicate Publishable() {
      && packageId != ""
      && (requireCertification ==>
            && certification.Some?
            && certification.value.status == "certified"
            && certification.value.targetDigest in {"", PackageDigest()})
      && (requireSignature && certification.Some? ==> certification.value.signed)
    }

    function NewEntry(sha: Sha, status: Status): Entry {
      var entry := Entry(packageId, PackageDigest(), certification.Some? && certification.value.status == "certified",
                         status, None, None, "");
      entry.(digest := sha.ofEntry(entry.Content()))
    }
  }

  // ----- operations as functions of the state

  datatype Op =
    | Publish(entryId: EntryId, request: Request)
    | Deprecate(entryId: EntryId, reason: string)
    | Revoke(entryId: EntryId, reason: string)

  function Save(sha: Sha, entries: map<EntryId, Entry>, auditLog: seq<Record>): State {
    State(entries, auditLog, sha.ofEntries(entries))
  }

  /** A refused package and an unknown entry leave the registry as it was. */
  function After(sha: Sha, s: State, op: Op): State {
    match op
    case Publish(id, request) =>
      if request.Publishable() then
        Save(sha, s.entries[id := request.NewEntry(sha, Active)], s.auditLog + [Record(Published, id)])
      else s
    case Deprecate(id, reason) =>
      if id in s.entries then
        Save(sha, s.entries[id := s.entries[id].(status := Deprecated, deprecateReason := Some(reason))],
             s.auditLog + [Record(WasDeprecated, id)])
      else s
    case Revoke(id, reason) =>
      if id in s.entries then
        Save(sha, s.entries[id := s.entries[id].(status := Revoked, revokeReason := Some(reason))],
             s.auditLog + [Record(WasRevoked, id)])
      else s
  }

  /** Ids are fresh uuids. */
  predicate Fresh(s: State, op: Op) {
    op.Publish? ==> op.entryId !in s.entries
  }

  class CertifiedRegistry {
    const sha: Sha
    var entries: map<EntryId, Entry>
    var auditLog: seq<Record>
    var entriesDigest: string

    function Contents(): State
      reads this
    {
      State(entries, auditLog, entriesDigest)
    }

    constructor (sha: Sha)
      ensures this.sha == sha && Contents() == EMPTY
    {
      this.sha := sha;
      entries, auditLog, entriesDigest := map[], [], "";
    }

    method SaveRegistry()
      modifies this`entriesDigest
      ensures entriesDigest == sha.ofEntries(entries)
    {
      entriesDigest := sha.ofEntries(entries);
    }

    /** `publish_package`; `entryId` is the uuid drawn for the entry. */
    method PublishPackage(entryId: EntryId, request: Request) returns (entry: Entry)
      modifies this
      ensures Contents() == After(sha, old(Contents()), Publish(entryId, request))
      ensures entry == request.NewEntry(sha, if request.Publishable() then Active else Denied)
      ensures entry.certified <==> request.certification.Some? && request.certification.value.status == "certified"
      ensures entry.status == Active <==> Contents() != old(Contents())
      ensures entry.status == Active <==>
                && request.packageId != ""
                && (request.requireCertification ==>
                      && entry.certified
                      && (|| request.certification.value.targetDigest == ""
                          || request.certification.value.targetDigest == entry.packageDigest))
                && (request.requireSignature ==> request.certification.None? || request.certification.value.signed)
      ensures entry.packageId == request.packageId
      ensures entry.packageDigest == if request.declaredDigest != "" then request.declaredDigest else request.manifestDigest
      ensures entry.deprecateReason == entry.revokeReason == None
      ensures entry.digest == sha.ofEntry(entry.(digest := ""))
    {
      var errors := 0;
      if request.packageId == "" {
        errors := errors + 1;
      }
      if request.requireCertification {
        if request.certification.None? {
          errors := errors + 1;
        } else if request.certification.value.status != "certified" {
          errors := errors + 1;
        }
        var target := if request.certification.Some? then request.certification.value.targetDigest else "";
        if target != "" && target != request.PackageDigest() {
          errors := errors + 1;
        }
      }
      if request.requireSignature && request.certification.Some? {
        if !request.certification.value.signed {
          errors := errors + 1;
        }
      }
      entry := request.NewEntry(sha, if errors == 0 then Active else Denied);
      if errors == 0 {
        entries := entries[entryId := entry];
        auditLog := auditLog + [Record(Published, entryId)];
        assert auditLog != old(auditLog) by {
          assert |auditLog| == |old(auditLog)| + 1;
        }
        SaveRegistry();
      }
    }

    /** `deprecate_entry`; `found` is false where the source raises KeyError. */
    method DeprecateEntry(entryId: EntryId, reason: string) returns (found: bool)
      modifies this
      ensures found == (entryId in old(entries))
      ensures Contents() == After(sha, old(Contents()), Deprecate(entryId, reason))
    {
      if entryId !in entries {
        return false;
      }
      var entry := entries[entryId];
      entry := entry.(status := Deprecated);
      entry := entry.(deprecateReason := Some(reason));
      entries := entries[entryId := entry];
      auditLog := auditLog + [Record(WasDeprecated, entryId)];
      SaveRegistry();
      found := true;
    }

    /** `revoke_entry` */
    method RevokeEntry(entryId: EntryId, reason: string) returns (found: bool)
      modifies this
      ensures found == (entryId in old(entries))
      ensures Contents() == After(sha, old(Contents()), Revoke(entryId, reason))
    {
      if entryId !in entries {
        return false;
      }
      var entry := entries[entryId];
      entry := entry.(status := Revoked);
      entry := entry.(revokeReason := Some(reason));
      entries := entries[entryId := entry];
      auditLog := auditLog + [Record(WasRevoked, entryId)];
      SaveRegistry();
      found := true;
    }

    /** Count the entries of each status. */
    method CountByStatus() returns (active: nat, deprecated: nat, revoked: nat, denied: nat)
      ensures active == |WithStatus(entries, Active)| && deprecated == |WithStatus(entries, Deprecated)|
      ensures revoked == |WithStatus(entries, Revoked)| && denied == |WithStatus(entries, Denied)|
      ensures active + deprecated + revoked + denied == |entries|
    {
      active, deprecated, revoked, denied := 0, 0, 0, 0;
      var rest := entries.Keys;
      NoneSeen(entries);
      hide *;
      while rest != {}
        invariant rest <= entries.Keys
        invariant active == Seen(entries, rest, Active) && deprecated == Seen(entries, rest, Deprecated)
        invariant revoked == Seen(entries, rest, Revoked) && denied == Seen(entries, rest, Denied)
        invariant active + deprecated + revoked + denied + |rest| == |entries|
        decreases rest
      {
        var id :| id in rest;
        TakeOne(entries, rest, id);
        rest := rest - {id};
        match entries[id].status
        case Active => active := active + 1;
        case Deprecated => deprecated := deprecated + 1;
        case Revoked => revoked := revoked + 1;
        case Denied => denied := denied + 1;
      }
      AllSeen(entries);
    }

    /** The dashboard's counts and health of the registry. */
    method CollectStatus() returns (active: nat, deprecated: nat, revoked: nat, denied: nat, health: Health)
      ensures active == |WithStatus(entries, Active)| && deprecated == |WithStatus(entries, Deprecated)|
      ensures revoked == |WithStatus(entries, Revoked)| && denied == |WithStatus(entries, Denied)|
      ensures active + deprecated + revoked + denied == |entries|
      ensures health == if denied > 0 && active == 0 then Degraded else if revoked > 0 then Warning else Healthy
    {
      active, deprecated, revoked, denied := CountByStatus();
      health := Healthy;
      if revoked > 0 {
        health := Warning;
      }
      if denied > 0 && active == 0 {
        health := Degraded;
      }
    }
  }

  datatype Health = Healthy | Warning | Degraded

  function WithStatus(entries: map<EntryId, Entry>, status: Status): set<EntryId> {
    set id | id in entries && entries[id].status == status
  }

  /** How many entries outside `rest` have a status. */
  ghost function Seen(entries: map<EntryId, Entry>, rest: set<EntryId>, status: Status): nat {
    |WithStatus(entries, status) - rest|
  }

  lemma NoneSeen(entries: map<EntryId, Entry>)
    ensures forall status :: Seen(entries, entries.Keys, status) == 0
  {
    forall status ensures Seen(entries, entries.Keys, status) == 0 {
      assert WithStatus(entries, status) - entries.Keys == {};
    }
  }

  lemma AllSeen(entries: map<EntryId, Entry>)
    ensures forall status :: Seen(entries, {}, status) == |WithStatus(entries, status)|
  {
    forall status ensures Seen(entries, {}, status) == |WithStatus(entries, status)| {
      assert WithStatus(entries, status) - {} == WithStatus(entries, status);
    }
  }

  lemma TakeOne(entries: map<EntryId, Entry>, rest: set<EntryId>, id: EntryId)
    requires id in rest && id in entries
    ensures |rest - {id}| == |rest| - 1
    ensures forall status :: Seen(entries, rest - {id}, status)
                             == Seen(entries, rest, status) + if status == entries[id].status then 1 else 0
  {
    forall status
      ensures Seen(entries, rest - {id}, status)
              == Seen(entries, rest, status) + if status == entries[id].status then 1 else 0
    {
      var all := WithStatus(entries, status);
      if status == entries[id].status {
        assert all - (rest - {id}) == (all - rest) + {id};
      } else {
        assert all - (rest - {id}) == all - rest;
      }
    }
  }

  // ----- replay of the audit log

  function StatusGiven(event: Event): Status {
    match event
    case Published => Active
    case WasDeprecated => Deprecated
    case WasRevoked => Revoked
  }

  /** The status an entry has according to the log alone: that of its last record. */
  function Replayed(auditLog: seq<Record>, id: EntryId): Option<Status> {
    if auditLog == [] then None
    else
      var last := auditLog[|auditLog| - 1];
      if last.entryId == id then Some(StatusGiven(last.event)) else Replayed(auditLog[..|auditLog| - 1], id)
  }

  /** The entries are what the log says, none of them denied, and the digest is theirs. */
  ghost predicate Consistent(sha: Sha, s: State) {
    && (forall id :: id in s.entries <==> Replayed(s.auditLog, id).Some?)
    && (forall id :: id in s.entries ==> Replayed(s.auditLog, id) == Some(s.entries[id].status))
    && (s.auditLog != [] ==> s.entriesDigest == sha.ofEntries(s.entries))
  }

  /** The states that sequences of operations lead through. */
  function Run(sha: Sha, s: State, ops: seq<Op>): State
    decreases |ops|
  {
    if ops == [] then s else Run(sha, After(sha, s, ops[0]), ops[1..])
  }

  predicate FreshAlong(sha: Sha, s: State, ops: seq<Op>)
    decreases |ops|
  {
    ops == [] || (Fresh(s, ops[0]) && FreshAlong(sha, After(sha, s, ops[0]), ops[1..]))
  }

  lemma ReplayedSnoc(auditLog: seq<Record>, record: Record, id: EntryId)
    ensures Replayed(auditLog + [record], id)
            == if record.entryId == id then Some(StatusGiven(record.event)) else Replayed(auditLog, id)
  {
    assert (auditLog + [record])[..|auditLog|] == auditLog;
  }

  /** Writing an entry and logging the event that gave it its status keeps consistency. */
  lemma WriteIsConsistent(sha: Sha, s: State, id: EntryId, entry: Entry, event: Event)
    requires Consistent(sha, s) && entry.status == StatusGiven(event)
    ensures Consistent(sha, Save(sha, s.entries[id := entry], s.auditLog + [Record(event, id)]))
  {
    var auditLog := s.auditLog + [Record(event, id)];
    forall other ensures Replayed(auditLog, other) == if id == other then Some(entry.status) else Replayed(s.auditLog, other) {
      ReplayedSnoc(s.auditLog, Record(event, id), other);
    }
    hide Replayed;
  }

  lemma StepIsConsistent(sha: Sha, s: State, op: Op)
    requires Consistent(sha, s)
    ensures Consistent(sha, After(sha, s, op))
    ensures forall id :: id in s.entries ==> id in After(sha, s, op).entries
  {
    hide Consistent;
    match op
    case Publish(id, request) => WriteIsConsistent(sha, s, id, request.NewEntry(sha, Active), Published);
    case Deprecate(id, reason) =>
      if id in s.entries {
        WriteIsConsistent(sha, s, id, s.entries[id].(status := Deprecated, deprecateReason := Some(reason)), WasDeprecated);
      }
    case Revoke(id, reason) =>
      if id in s.entries {
        WriteIsConsistent(sha, s, id, s.entries[id].(status := Revoked, revokeReason := Some(reason)), WasRevoked);
      }
  }

  /** Every sequence of operations keeps a consistent state consistent. */
  lemma {:induction false} RunIsConsistent(sha: Sha, s: State, ops: seq<Op>)
    requires Consistent(sha, s)
    ensures Consistent(sha, Run(sha, s, ops))
    decreases |ops|
  {
    if ops != [] {
      StepIsConsistent(sha, s, ops[0]);
      RunIsConsistent(sha, After(sha, s, ops[0]), ops[1..]);
    }
  }

  /** Over every sequence of operations from an empty registry, the state equals the replay
      of its own log, no entry is denied, and the digest is that of the entries. */
  lemma ReachableIsConsistent(sha: Sha, ops: seq<Op>)
    ensures var s := Run(sha, EMPTY, ops);
            && Consistent(sha, s)
            && forall id :: id in s.entries ==> s.entries[id].status != Denied
  {
    RunIsConsistent(sha, EMPTY, ops);
    var s := Run(sha, EMPTY, ops);
    forall id | id in s.entries ensures s.entries[id].status != Denied {
      ReplayNeverDenies(s.auditLog, id);
    }
  }

  lemma {:induction false} ReplayNeverDenies(auditLog: seq<Record>, id: EntryId)
    ensures Replayed(auditLog, id) != Some(Denied)
  {
    if auditLog != [] {
      ReplayNeverDenies(auditLog[..|auditLog| - 1], id);
    }
  }

  lemma StatusesPartition(entries: map<EntryId, Entry>)
    requires forall id :: id in entries ==> entries[id].status != Denied
    ensures |WithStatus(entries, Active)| + |WithStatus(entries, Deprecated)| + |WithStatus(entries, Revoked)| == |entries|
  {
    var a, d, r := WithStatus(entries, Active), WithStatus(entries, Deprecated), WithStatus(entries, Revoked);
    assert entries.Keys == a + d + r;
    SizeOfThree(a, d, r);
  }

  lemma SizeOfThree<T>(a: set<T>, b: set<T>, c: set<T>)
    requires a !! b !! c
    ensures |a + b + c| == |a| + |b| + |c|
  {
    assert |a + b| == |a| + |b|;
  }

  /** The three counts the dashboard shows add up to its total. */
  lemma CountsAddUp(sha: Sha, ops: seq<Op>)
    ensures var entries := Run(sha, EMPTY, ops).entries;
            |WithStatus(entries, Active)| + |WithStatus(entries, Deprecated)| + |WithStatus(entries, Revoked)| == |entries|
  {
    ReachableIsConsistent(sha, ops);
    hide *;
    StatusesPartition(Run(sha, EMPTY, ops).entries);
  }

  /** An entry that is not active never becomes active again. */
  lemma {:induction false} NeverActiveAgain(sha: Sha, s: State, ops: seq<Op>, id: EntryId)
    requires id in s.entries && s.entries[id].status != Active
    requires FreshAlong(sha, s, ops)
    ensures id in Run(sha, s, ops).entries && Run(sha, s, ops).entries[id].status != Active
    decreases |ops|
  {
    if ops != [] {
      NeverActiveAgain(sha, After(sha, s, ops[0]), ops[1..], id);
    }
  }

  /** The operations of a sequence that deprecate an entry. */
  ghost predicate DeprecatedAfterwards(ops: seq<Op>, id: EntryId) {
    exists k :: 0 <= k < |ops| && ops[k].Deprecate? && ops[k].entryId == id
                && forall j :: k < j < |ops| && ops[j].Revoke? ==> ops[j].entryId != id
  }

  /** Revocation is not final: a revoked entry is still revoked after further operations
      exactly when no deprecation of it came after its last revocation. */
  lemma {:induction false} RevocationLasts(sha: Sha, s: State, ops: seq<Op>, id: EntryId)
    requires id in s.entries && s.entries[id].status in {Revoked, Deprecated}
    requires FreshAlong(sha, s, ops)
    ensures var after := Run(sha, s, ops);
            id in after.entries && after.entries[id].status ==
              if DeprecatedAfterwards(ops, id) then Deprecated
              else if exists k :: 0 <= k < |ops| && ops[k].Revoke? && ops[k].entryId == id then Revoked
              else s.entries[id].status
    decreases |ops|
  {
    if ops != [] {
      var next := After(sha, s, ops[0]);
      var rest := ops[1..];
      RevocationLasts(sha, next, rest, id);
      assert forall j :: 0 <= j < |rest| ==> rest[j] == ops[j + 1];
      if DeprecatedAfterwards(rest, id) {
        var k :| 0 <= k < |rest| && rest[k].Deprecate? && rest[k].entryId == id
                 && forall j :: k < j < |rest| && rest[j].Revoke? ==> rest[j].entryId != id;
        assert forall j :: k + 1 < j < |ops| && ops[j].Revoke? ==> rest[j - 1] == ops[j];
        assert ops[k + 1].Deprecate?;
      }
    }
  }

  /** Such a sequence, from an empty registry. */
  lemma RevokedThenDeprecated(sha: Sha, id: EntryId, request: Request)
    requires request.Publishable()
    ensures var published := After(sha, EMPTY, Publish(id, request));
            var revoked := After(sha, published, Revoke(id, "broken"));
            var deprecated := After(sha, revoked, Deprecate(id, "old"));
            && revoked.entries[id].status == Revoked
            && deprecated.entries[id].status == Deprecated
            && deprecated == Run(sha, EMPTY, [Publish(id, request), Revoke(id, "broken"), Deprecate(id, "old")])
  {
    var published := After(sha, EMPTY, Publish(id, request));
    var revoked := After(sha, published, Revoke(id, "broken"));
    var deprecated := After(sha, revoked, Deprecate(id, "old"));
    assert id in revoked.entries && revoked.entries[id].status == Revoked;
    assert id in deprecated.entries && deprecated.entries[id].status == Deprecated;
    hide After;
    var ops := [Publish(id, request), Revoke(id, "broken"), Deprecate(id, "old")];
    assert ops[1..] == [Revoke(id, "broken"), Deprecate(id, "old")];
    assert ops[1..][1..] == [Deprecate(id, "old")];
    assert Run(sha, revoked, [Deprecate(id, "old")]) == deprecated;
    assert Run(sha, published, ops[1..]) == Run(sha, revoked, ops[1..][1..]);
  }

  // ----- the digests of single entries

  /** Every entry keeps the digest it was published with. */
  ghost predicate Stamped(sha: Sha, s: State) {
    forall id :: id in s.entries ==>
      var entry := s.entries[id];
      && entry.digest == sha.ofEntry(entry.AsPublished().Content())
      && (entry.status == Active ==> entry == entry.AsPublished())
  }

  lemma {:induction false} RunIsStamped(sha: Sha, s: State, ops: seq<Op>)
    requires Stamped(sha, s)
    ensures Stamped(sha, Run(sha, s, ops))
    decreases |ops|
  {
    if ops != [] {
      StepIsStamped(sha, s, ops[0]);
      RunIsStamped(sha, After(sha, s, ops[0]), ops[1..]);
    }
  }

  lemma StepIsStamped(sha: Sha, s: State, op: Op)
    requires Stamped(sha, s)
    ensures Stamped(sha, After(sha, s, op))
  {
    if op.Publish? {
      var entry := op.request.NewEntry(sha, Active);
      assert entry.AsPublished() == entry;
    }
  }

  /** Deprecating and revoking change an entry but leave its digest, so on every reachable
      state the digest of an entry is that of its content if and only if the entry is still
      active, provided the two contents do not collide. */
  lemma EntryDigestHoldsIff(sha: Sha, ops: seq<Op>, id: EntryId)
    requires id in Run(sha, EMPTY, ops).entries
    requires var entry := Run(sha, EMPTY, ops).entries[id];
             sha.ofEntry(entry.Content()) == sha.ofEntry(entry.AsPublished().Content())
             ==> entry.Content() == entry.AsPublished().Content()
    ensures var entry := Run(sha, EMPTY, ops).entries[id];
            entry.digest == sha.ofEntry(entry.Content()) <==> entry.status == Active
  {
    RunIsStamped(sha, EMPTY, ops);
  }
}
