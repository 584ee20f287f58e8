/** Snapshots of the certified registry: what they say of the registry they were taken of. */
module RegistrySnapshot {
  import opened Wire
  import opened ReceiptDigests
  import CertifiedRegistry

  /** The fields of a snapshot before its digest is computed; the digest field is there, blank.
      `registryId` and `createdAt` come from the registry file and the clock. */
  function Fields(s: CertifiedRegistry.State, registryId: string, createdAt: string): Doc {
    map[
      "type" := Str("certified_registry_snapshot"),
      "schema_version" := Str("1.0"),
      "registry_id" := Str(registryId),
      "entry_count" := Num(|s.entries| as real),
      "entries_digest" := Str(s.entriesDigest),
      "snapshot_digest" := Str(""),
      "created_at" := Str(createdAt)
    ]
  }

  /** `create_registry_snapshot` */
  function SnapshotOf(sha: Sha, s: CertifiedRegistry.State, registryId: string, createdAt: string): Doc {
    Seal(sha, REGISTRY_SNAPSHOT, Fields(s, registryId, createdAt))
  }

  lemma SnapshotSays(sha: Sha, s: CertifiedRegistry.State, registryId: string, createdAt: string)
    ensures var snapshot := SnapshotOf(sha, s, registryId, createdAt);
            && "entry_count" in snapshot && snapshot["entry_count"] == Num(|s.entries| as real)
            && "entries_digest" in snapshot && snapshot["entries_digest"] == Str(s.entriesDigest)
            && "type" in snapshot && snapshot["type"] == Str("certified_registry_snapshot")
            && "registry_id" in snapshot && snapshot["registry_id"] == Str(registryId)
  {
  }

  /** A registry with entries in it has been saved. */
  lemma EntriesAreDigested(entrySha: CertifiedRegistry.Sha, ops: seq<CertifiedRegistry.Op>)
    ensures var s := CertifiedRegistry.Run(entrySha, CertifiedRegistry.EMPTY, ops);
            s.entries != map[] ==> s.entriesDigest == entrySha.ofEntries(s.entries)
  {
    hide CertifiedRegistry.Run;
    CertifiedRegistry.ReachableIsConsistent(entrySha, ops);
    var s := CertifiedRegistry.Run(entrySha, CertifiedRegistry.EMPTY, ops);
    if s.entries != map[] {
      var id :| id in s.entries;
      assert CertifiedRegistry.Replayed(s.auditLog, id).Some?;
    }
  }

  /** A snapshot of any reachable registry verifies; and unless the registry is empty, what it
      carries is the digest of the entries that are there, not of some earlier ones. */
  lemma SnapshotIsCurrent(sha: Sha, entrySha: CertifiedRegistry.Sha, ops: seq<CertifiedRegistry.Op>,
                          registryId: string, createdAt: string)
    requires forall d :: sha(d) != ""
    ensures var s := CertifiedRegistry.Run(entrySha, CertifiedRegistry.EMPTY, ops);
            var snapshot := SnapshotOf(sha, s, registryId, createdAt);
            && DigestHolds(sha, REGISTRY_SNAPSHOT, snapshot)
            && "entry_count" in snapshot && snapshot["entry_count"] == Num(|s.entries| as real)
            && "type" in snapshot && snapshot["type"] == Str("certified_registry_snapshot")
            && "registry_id" in snapshot && snapshot["registry_id"] == Str(registryId)
            && "entries_digest" in snapshot
            && (s.entries != map[] ==> snapshot["entries_digest"] == Str(entrySha.ofEntries(s.entries)))
  {
    hide CertifiedRegistry.Run, DigestHolds, Fields, Seal;
    var s := CertifiedRegistry.Run(entrySha, CertifiedRegistry.EMPTY, ops);
    SealedVerifies(sha, REGISTRY_SNAPSHOT, Fields(s, registryId, createdAt), map[]);
    SnapshotSays(sha, s, registryId, createdAt);
    EntriesAreDigested(entrySha, ops);
  }

  /** Snapshots of two reachable, non-empty registries carry the same digest if and only if the
      registries hold the same entries (no collision). */
  lemma SnapshotIdentifiesEntries(sha: Sha, entrySha: CertifiedRegistry.Sha, ops: seq<CertifiedRegistry.Op>,
                                  others: seq<CertifiedRegistry.Op>, registryId: string, createdAt: string)
    requires var a := CertifiedRegistry.Run(entrySha, CertifiedRegistry.EMPTY, ops).entries;
             var b := CertifiedRegistry.Run(entrySha, CertifiedRegistry.EMPTY, others).entries;
             a != map[] && b != map[] && (entrySha.ofEntries(a) == entrySha.ofEntries(b) ==> a == b)
    ensures var a := CertifiedRegistry.Run(entrySha, CertifiedRegistry.EMPTY, ops);
            var b := CertifiedRegistry.Run(entrySha, CertifiedRegistry.EMPTY, others);
            var x, y := SnapshotOf(sha, a, registryId, createdAt), SnapshotOf(sha, b, registryId, createdAt);
            Get(x, "entries_digest") == Get(y, "entries_digest") <==> a.entries == b.entries
  {
    hide CertifiedRegistry.Run, SnapshotOf;
    var a := CertifiedRegistry.Run(entrySha, CertifiedRegistry.EMPTY, ops);
    var b := CertifiedRegistry.Run(entrySha, CertifiedRegistry.EMPTY, others);
    SnapshotSays(sha, a, registryId, createdAt);
    SnapshotSays(sha, b, registryId, createdAt);
    EntriesAreDigested(entrySha, ops);
    EntriesAreDigested(entrySha, others);
  }
}
