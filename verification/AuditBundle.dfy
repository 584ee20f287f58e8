/** Audit bundles: the content manifest, its verification, and how a bundle is written.
    `sha` digests raw bytes; it is an arbitrary function. */
module AuditBundle {

  type Path = string
  type Bytes = seq<bv8>
  type Files = map<Path, Bytes>
  type Sha = Bytes -> string

  const META: Path := "bundle_meta.json"
  const SUMMARY: Path := "SUMMARY.md"

  datatype Entry = Entry(path: Path, sha256: string, size: nat)

  function EntryFor(sha: Sha, files: Files, path: Path): Entry
    requires path in files
  {
    Entry(path, sha(files[path]), |files[path]|)
  }

  /** `paths` lists some set of paths, each once. */
  ghost predicate Lists(paths: seq<Path>, s: set<Path>) {
    && (forall p :: p in paths <==> p in s)
    && (forall i, j :: 0 <= i < j < |paths| ==> paths[i] != paths[j])
  }

  /** `_build_file_manifest`; `order` is `sorted(files)`. */
  method BuildFileManifest(sha: Sha, files: Files, order: seq<Path>) returns (manifest: seq<Entry>)
    requires Lists(order, files.Keys)
    ensures IsManifestOf(sha, files, manifest)
    ensures |manifest| == |order| == |files|
    ensures forall i :: 0 <= i < |manifest| ==> manifest[i].path == order[i]
  {
    manifest := [];
    for i := 0 to |order|
      invariant |manifest| == i
      invariant forall k :: 0 <= k < i ==> manifest[k] == EntryFor(sha, files, order[k])
    {
      var path := order[i];
      var raw := files[path];
      manifest := manifest + [Entry(path, sha(raw), |raw|)];
    }
    ListsSize(order, files.Keys);
  }

  lemma {:induction false} ListsSize(paths: seq<Path>, s: set<Path>)
    requires Lists(paths, s)
    ensures |paths| == |s|
  {
    if paths == [] {
      assert s == {};
    } else {
      var init, last := paths[..|paths| - 1], paths[|paths| - 1];
      assert paths == init + [last];
      ListsSize(init, s - {last});
    }
  }

  /** One entry for every file, with its digest and size, and no other. */
  ghost predicate IsManifestOf(sha: Sha, files: Files, manifest: seq<Entry>) {
    && (forall e :: e in manifest ==> e.path in files && e == EntryFor(sha, files, e.path))
    && (forall path :: path in files ==> EntryFor(sha, files, path) in manifest)
  }

  // ----- verification

  datatype Finding =
    | MissingFile(path: Path)
    | HashMismatch(path: Path)
    | SizeMismatch(path: Path)
    | UnexpectedFile(path: Path)

  ghost predicate Listed(manifest: seq<Entry>, path: Path) {
    exists e :: e in manifest && e.path == path
  }

  /** What content integrity means for an archive: a bundle without a manifest is not checked. */
  ghost predicate Finds(sha: Sha, manifest: seq<Entry>, archive: Files, finding: Finding) {
    var path := finding.path;
    && manifest != []
    && match finding
       case MissingFile(_) => Listed(manifest, path) && path !in archive
       case HashMismatch(_) => path in archive && exists e :: e in manifest && e.path == path && e.sha256 != sha(archive[path])
       case SizeMismatch(_) => path in archive && exists e :: e in manifest && e.path == path && e.size != |archive[path]|
       case UnexpectedFile(_) => path in archive && path != META && !Listed(manifest, path)
  }

  /** The integrity half of `verify_audit_bundle`; `names` is the archive's name list. */
  method VerifyIntegrity(sha: Sha, manifest: seq<Entry>, archive: Files, names: seq<Path>) returns (findings: seq<Finding>)
    requires forall p :: p in names <==> p in archive
    ensures forall finding :: finding in findings <==> Finds(sha, manifest, archive, finding)
  {
    findings := [];
    if manifest == [] {
      return;
    }
    for i := 0 to |manifest|
      invariant forall finding :: finding in findings <==>
                  !finding.UnexpectedFile? && Finds(sha, manifest[..i], archive, finding)
    {
      var entry := manifest[i];
      assert manifest[..i + 1] == manifest[..i] + [entry];
      ghost var before := findings;
      if entry.path !in archive {
        findings := findings + [MissingFile(entry.path)];
      } else {
        var raw := archive[entry.path];
        if sha(raw) != entry.sha256 {
          findings := findings + [HashMismatch(entry.path)];
        }
        if |raw| != entry.size {
          findings := findings + [SizeMismatch(entry.path)];
        }
      }
      EntryStep(sha, manifest[..i], entry, archive, before, findings);
    }
    assert manifest[..|manifest|] == manifest;
    for i := 0 to |names|
      invariant forall finding :: finding in findings <==>
                  Finds(sha, manifest, archive, finding) && (finding.UnexpectedFile? ==> finding.path in names[..i])
    {
      var path := names[i];
      assert names[..i + 1] == names[..i] + [path];
      if path == META {
        continue;
      }
      var listed := IsListed(manifest, path);
      if !listed {
        findings := findings + [UnexpectedFile(path)];
      }
    }
    assert names[..|names|] == names;
  }

  method IsListed(manifest: seq<Entry>, path: Path) returns (listed: bool)
    ensures listed == Listed(manifest, path)
  {
    for i := 0 to |manifest|
      invariant forall k :: 0 <= k < i ==> manifest[k].path != path
    {
      if manifest[i].path == path {
        assert manifest[i] in manifest;
        return true;
      }
    }
    listed := false;
  }

  /** The findings that one more manifest entry adds. */
  lemma EntryStep(sha: Sha, seen: seq<Entry>, entry: Entry, archive: Files, before: seq<Finding>, after: seq<Finding>)
    requires forall finding :: finding in before <==> !finding.UnexpectedFile? && Finds(sha, seen, archive, finding)
    requires forall finding :: finding in after <==> finding in before || Adds(sha, entry, archive, finding)
    ensures forall finding :: finding in after <==>
              !finding.UnexpectedFile? && Finds(sha, seen + [entry], archive, finding)
  {
    forall finding: Finding | !finding.UnexpectedFile?
      ensures Finds(sha, seen + [entry], archive, finding) <==> Finds(sha, seen, archive, finding) || Adds(sha, entry, archive, finding)
    {
      assert forall e :: e in seen + [entry] <==> e in seen || e == entry;
      assert entry in seen + [entry];
    }
  }

  predicate Adds(sha: Sha, entry: Entry, archive: Files, finding: Finding) {
    finding.path == entry.path &&
    match finding
    case MissingFile(_) => entry.path !in archive
    case HashMismatch(_) => entry.path in archive && sha(archive[entry.path]) != entry.sha256
    case SizeMismatch(_) => entry.path in archive && |archive[entry.path]| != entry.size
    case UnexpectedFile(_) => false
  }

  // ----- build, then verify

  /** No two different contents that are compared share a digest. */
  ghost predicate NoCollision(sha: Sha, files: Files, archive: Files) {
    forall p :: p in files && p in archive && sha(files[p]) == sha(archive[p]) ==> files[p] == archive[p]
  }

  ghost predicate Intact(sha: Sha, manifest: seq<Entry>, archive: Files) {
    forall finding :: !Finds(sha, manifest, archive, finding)
  }

  /** A manifest built over a non-empty file map finds nothing wrong with an archive if and
      only if the archive, apart from the bundle's own metadata, holds exactly those paths
      with those contents. */
  lemma IntactIff(sha: Sha, files: Files, manifest: seq<Entry>, archive: Files)
    requires files != map[] && META !in files
    requires IsManifestOf(sha, files, manifest)
    requires NoCollision(sha, files, archive)
    ensures Intact(sha, manifest, archive) <==> archive - {META} == files
  {
    assert manifest != [] by {
      var path :| path in files;
      assert EntryFor(sha, files, path) in manifest;
    }
    forall path ensures Listed(manifest, path) <==> path in files {
      if path in files {
        assert EntryFor(sha, files, path) in manifest;
      }
    }
    if Intact(sha, manifest, archive) {
      ListedFilesAgree(sha, files, manifest, archive);
      forall path | path in archive && path != META ensures path in files {
        assert !Finds(sha, manifest, archive, UnexpectedFile(path));
      }
      assert archive - {META} == files;
    }
  }

  lemma ListedFilesAgree(sha: Sha, files: Files, manifest: seq<Entry>, archive: Files)
    requires IsManifestOf(sha, files, manifest) && NoCollision(sha, files, archive)
    requires Intact(sha, manifest, archive)
    ensures forall path :: path in files ==> path in archive && archive[path] == files[path]
  {
    forall path | path in files ensures path in archive && archive[path] == files[path] {
      var e := EntryFor(sha, files, path);
      assert e in manifest && e.path == path;
      assert !Finds(sha, manifest, archive, MissingFile(path));
      assert !Finds(sha, manifest, archive, HashMismatch(path));
    }
  }

  // ----- how a bundle is written

  /** The write steps of `generate_audit_bundle`: the manifest is built, the metadata that
      holds it is added, and then the summary is rewritten with a footer. */
  method GenerateBundle(sha: Sha, evidence: Files, order: seq<Path>, meta: Bytes, footer: Bytes)
    returns (manifest: seq<Entry>, archive: Files)
    requires SUMMARY in evidence && META !in evidence
    requires Lists(order, evidence.Keys)
    ensures IsManifestOf(sha, evidence, manifest)
    ensures archive == Written(evidence, meta, footer)
  {
    var files := evidence;
    manifest := BuildFileManifest(sha, files, order);
    files := files[META := meta];
    archive := RewriteSummary(files, evidence[SUMMARY] + footer);
  }

  /** Copy an archive, file by file, with another summary. */
  method RewriteSummary(zipped: Files, summary: Bytes) returns (archive: Files)
    requires SUMMARY in zipped
    ensures archive == zipped[SUMMARY := summary]
  {
    archive := map[];
    var rest := zipped.Keys;
    ghost var goal := zipped[SUMMARY := summary];
    assert goal.Keys == zipped.Keys;
    while rest != {}
      invariant rest <= goal.Keys && archive.Keys == goal.Keys - rest
      invariant forall name :: name in archive ==> archive[name] == goal[name]
      decreases rest
    {
      var name :| name in rest;
      rest := rest - {name};
      if name == SUMMARY {
        archive := archive[name := summary];
      } else {
        archive := archive[name := zipped[name]];
      }
    }
    assert archive == goal;
  }

  /** What ends up in the archive. */
  function Written(evidence: Files, meta: Bytes, footer: Bytes): Files
    requires SUMMARY in evidence
  {
    evidence[META := meta][SUMMARY := evidence[SUMMARY] + footer]
  }

  /** The rewrite comes after the manifest, so a generated bundle never passes its own
      verification: the size of the summary is wrong whatever the digest, its hash is wrong
      unless the two texts collide, and nothing else is wrong. */
  lemma GeneratedBundleFindings(sha: Sha, evidence: Files, manifest: seq<Entry>, meta: Bytes, footer: Bytes)
    requires SUMMARY in evidence && META !in evidence && footer != []
    requires IsManifestOf(sha, evidence, manifest)
    ensures var archive := Written(evidence, meta, footer);
            && Finds(sha, manifest, archive, SizeMismatch(SUMMARY))
            && (Finds(sha, manifest, archive, HashMismatch(SUMMARY)) <==> sha(archive[SUMMARY]) != sha(evidence[SUMMARY]))
            && (forall finding :: Finds(sha, manifest, archive, finding) ==>
                  finding in {SizeMismatch(SUMMARY), HashMismatch(SUMMARY)})
  {
    var archive := Written(evidence, meta, footer);
    var e := EntryFor(sha, evidence, SUMMARY);
    assert e in manifest && e.path == SUMMARY && e.size != |archive[SUMMARY]|;
    forall finding | Finds(sha, manifest, archive, finding) ensures finding in {SizeMismatch(SUMMARY), HashMismatch(SUMMARY)} {
      if finding.path in evidence {
        assert EntryFor(sha, evidence, finding.path) in manifest;
        assert Listed(manifest, finding.path);
      }
    }
  }

  /** The bundle as it was before the rewrite would have been intact. */
  lemma UnrewrittenBundleIsIntact(sha: Sha, evidence: Files, manifest: seq<Entry>, meta: Bytes)
    requires SUMMARY in evidence && META !in evidence
    requires IsManifestOf(sha, evidence, manifest)
    ensures Intact(sha, manifest, Written(evidence, meta, []))
  {
    var archive := Written(evidence, meta, []);
    assert evidence[SUMMARY] + [] == evidence[SUMMARY];
    assert archive - {META} == evidence;
    assert NoCollision(sha, evidence, archive);
    IntactIff(sha, evidence, manifest, archive);
  }
}
