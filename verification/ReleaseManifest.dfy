/**
 The signed release manifest: safe member paths, what binds a file to an
 artifact, and the validation loops against one declarative statement.
 */
module ReleaseManifest {
  import opened Common
  import opened Text
  import opened Paths
  import opened ArchiveExtract

  type Bytes = seq<byte>

  const FORMAT_VERSION := "boetticher/release-bundle/v1"
  const ABI_VERSION := "boetticher/artifact/v1"
  const ARCHITECTURE := "amd64"
  const MANIFEST_NAME := "manifest.json"
  const SIGNATURE_NAME := "manifest.sig"
  const MAX_MANIFEST: nat := 0x10_0000
  const MAX_FILE: int64 := 0x2_0000_0000
  const MAX_BUNDLE: int64 := 0x8_0000_0000
  const STREAMDECK_PATH := "companion/" + "streamdeck/boetticher-streamdeck-linux-arm64"
  const STATUS_PATH := "companion/" + "status/boetticher-companion-linux-arm64"
  const STREAMDECK_KIND := "companion"
  const STATUS_KIND := "companion-status"

  /** `rest` stands for the definition fields that no check here reads. */
  datatype Artifact = Artifact(name: string, contentSha256: string, rest: string)

  datatype ReleaseArtifact = ReleaseArtifact(artifact: Artifact, artifactPath: string, evidencePath: string)

  datatype File = File(path: string, sha256: string, size: int64, kind: string, artifact: string)

  datatype Manifest = Manifest(
    formatVersion: string, releaseVersion: string, sourceCommit: string, buildWorkflow: string,
    siteApiVersion: string, schemaVersion: int, abiVersion: string, architecture: string,
    controllerMin: string, controllerMax: string, controllerSha256: string, controllerSize: int64,
    policyVersion: string, artifacts: seq<ReleaseArtifact>, files: seq<File>,
    streamDeck: Option<File>, status: Option<File>)

  // ----- member paths -----

  /** `validateBundlePath`. */
  predicate BundlePath(name: string) {
    var clean := Clean(name);
    && name != "" && '\0' !in name && clean != "." && clean != ".." && !HasPrefix(clean, "../") && !HasPrefix(name, "/")
    && '\\' !in clean && clean == name
    && (HasPrefix(clean, "artifacts/") || HasPrefix(clean, "evidence/") || HasPrefix(clean, "companion/"))
  }

  const TREES := {"artifacts", "evidence", "companion"}

  lemma PrefixHasTail(name: string, dir: string)
    requires HasPrefix(name, dir + "/") && '/' !in dir
    ensures Split(name, '/')[0] == dir && |Split(name, '/')| >= 2
  {
    FirstComponent(name, dir);
    JoinSplit(name, '/');
  }

  lemma ParentHasHead(name: string)
    requires HasPrefix(name, "../")
    ensures Split(name, '/')[0] == ".."
  {
    assert ".." + "/" == "../";
    FirstComponent(name, "..");
  }

  lemma TreePrefix(name: string, dir: string)
    requires dir in TREES
    ensures HasPrefix(name, dir + "/") <==> Split(name, '/')[0] == dir && |Split(name, '/')| >= 2
  {
    if HasPrefix(name, dir + "/") {
      PrefixHasTail(name, dir);
    } else if Split(name, '/')[0] == dir && |Split(name, '/')| >= 2 {
      HeadPrefix(name);
    }
  }

  ghost predicate InTrees(name: string) {
    Split(name, '/')[0] in TREES && |Split(name, '/')| >= 2
  }

  lemma TreePrefixes(name: string)
    ensures InTrees(name) <==> HasPrefix(name, "artifacts/") || HasPrefix(name, "evidence/") ||
                               HasPrefix(name, "companion/")
  {
    TreePrefix(name, "artifacts");
    TreePrefix(name, "evidence");
    TreePrefix(name, "companion");
    assert "artifacts" + "/" == "artifacts/" && "evidence" + "/" == "evidence/" && "companion" + "/" == "companion/";
  }

  /** Exactly the paths with ordinary components only, properly below one of the three content trees. */
  lemma BundlePathIff(name: string)
    ensures BundlePath(name) <==> Plain(name) && InTrees(name) && '\0' !in name && '\\' !in name
  {
    TreePrefixes(name);
    if BundlePath(name) {
      CleanIsPlain(name);
    } else if Plain(name) && InTrees(name) && '\0' !in name && '\\' !in name {
      PlainIsClean(name);
      if HasPrefix(name, "../") {
        ParentHasHead(name);
      }
    }
  }

  // ----- metadata -----

  predicate IsSha256(s: string) {
    |s| == 64 && forall i :: 0 <= i < |s| ==> IsHex(s[i])
  }

  predicate HasSuffix(s: string, suffix: string) {
    |suffix| <= |s| && s[|s| - |suffix|..] == suffix
  }

  /** `releaseFileArtifact`: the artifact a member path belongs to. */
  function FileArtifact(path: string, kind: string): Option<string> {
    var parts := Split(path, '/');
    if kind == "artifact" then
      if |parts| != 3 || parts[0] != "artifacts" || parts[1] == "" || parts[2] == "" then None else Some(parts[1])
    else if kind == "evidence" then
      if |parts| == 2 && HasSuffix(parts[1], ".json") then
        var artifact := TrimSuffix(parts[1], ".json");
        if artifact == "" then None else Some(artifact)
      else if |parts| >= 3 && parts[0] == "evidence" && parts[1] != "" && parts[2] != "" then Some(parts[1])
      else None
    else None
  }

  function EvidencePath(name: string): string {
    Clean("evidence" + "/" + (name + ".json"))
  }

  // ----- validity, stated at once -----

  predicate FieldsOk(m: Manifest) {
    && m.formatVersion == FORMAT_VERSION && m.releaseVersion != "" && m.sourceCommit != "" && m.buildWorkflow != ""
    && m.siteApiVersion != "" && m.schemaVersion > 0 && m.abiVersion == ABI_VERSION && m.architecture == ARCHITECTURE
    && m.controllerMin != "" && m.controllerMax != ""
    && (m.controllerSha256 == "" <==> m.controllerSize == 0)
    && (m.controllerSha256 != "" ==> IsSha256(m.controllerSha256) && 0 <= m.controllerSize <= MAX_FILE)
    && (m.buildWorkflow != "local" ==> m.controllerSha256 != "" && m.controllerSize > 0)
    && m.artifacts != [] && m.files != []
  }

  predicate FileOk(m: Manifest, f: File) {
    && BundlePath(f.path) && IsSha256(f.sha256) && 0 <= f.size <= MAX_FILE
    && if f.kind == STREAMDECK_KIND then m.streamDeck == Some(f) && f.path == STREAMDECK_PATH && f.artifact == ""
       else if f.kind == STATUS_KIND then m.status == Some(f) && f.path == STATUS_PATH && f.artifact == ""
       else (f.kind == "artifact" || f.kind == "evidence") && FileArtifact(f.path, f.kind) == Some(f.artifact)
  }

  ghost predicate DistinctPaths(fs: seq<File>) {
    forall i, j :: 0 <= i < j < |fs| ==> fs[i].path != fs[j].path
  }

  ghost predicate FilesOk(m: Manifest) {
    (forall f <- m.files :: FileOk(m, f)) && DistinctPaths(m.files)
  }

  ghost predicate CompanionsOk(m: Manifest) {
    && (m.streamDeck.Some? ==> m.streamDeck.value in m.files && m.streamDeck.value.kind == STREAMDECK_KIND)
    && (m.status.Some? ==> m.status.value in m.files && m.status.value.kind == STATUS_KIND)
  }

  predicate BindsContent(f: File, a: ReleaseArtifact) {
    f.path == a.artifactPath && f.kind == "artifact" && f.sha256 == a.artifact.contentSha256 &&
      f.artifact == a.artifact.name
  }

  predicate BindsEvidence(f: File, a: ReleaseArtifact) {
    f.path == a.evidencePath && f.kind == "evidence" && f.artifact == a.artifact.name
  }

  ghost predicate ArtifactOk(fs: seq<File>, a: ReleaseArtifact) {
    && a.artifact.name != "" && IsSha256(a.artifact.contentSha256)
    && (exists f <- fs :: BindsContent(f, a))
    && (a.evidencePath != "" ==> a.evidencePath == EvidencePath(a.artifact.name) &&
                                 exists f <- fs :: BindsEvidence(f, a))
  }

  ghost predicate DistinctNames(artifacts: seq<ReleaseArtifact>) {
    forall i, j :: 0 <= i < j < |artifacts| ==> artifacts[i].artifact.name != artifacts[j].artifact.name
  }

  ghost predicate ArtifactsOk(m: Manifest) {
    (forall a <- m.artifacts :: ArtifactOk(m.files, a)) && DistinctNames(m.artifacts)
  }

  predicate IsCompanion(f: File) {
    f.kind == STREAMDECK_KIND || f.kind == STATUS_KIND
  }

  ghost predicate ReferencesOk(m: Manifest) {
    forall f <- m.files :: IsCompanion(f) || exists a <- m.artifacts :: a.artifact.name == f.artifact
  }

  /** Paths safe and unique, every file bound to a listed artifact or companion, and every one of those to a file. */
  ghost predicate ValidManifest(m: Manifest) {
    FieldsOk(m) && FilesOk(m) && CompanionsOk(m) && ArtifactsOk(m) && ReferencesOk(m)
  }

  // ----- validation as it runs -----

  /** `files` finds every listed file under its path, and nothing else. */
  ghost predicate Indexed(files: map<string, File>, fs: seq<File>) {
    (forall f <- fs :: f.path in files && files[f.path] == f) &&
      (forall p <- files :: files[p].path == p && files[p] in fs)
  }

  lemma IndexStep(files: map<string, File>, fs: seq<File>, f: File)
    requires Indexed(files, fs) && f.path !in files
    ensures Indexed(files[f.path := f], fs + [f])
  {
    var next := files[f.path := f];
    forall p <- next ensures next[p].path == p && next[p] in fs + [f] {
    }
    forall g <- fs + [f] ensures g.path in next && next[g.path] == g {
      assert g == f || g in fs;
    }
  }

  /** The loop over the files, for any test of one file. */
  method IndexFiles(fs: seq<File>, good: File -> bool) returns (ok: bool, files: map<string, File>)
    ensures ok <==> (forall f <- fs :: good(f)) && DistinctPaths(fs)
    ensures ok ==> Indexed(files, fs)
  {
    files := map[];
    for i := 0 to |fs|
      invariant Indexed(files, fs[..i])
      invariant forall f <- fs[..i] :: good(f)
      invariant DistinctPaths(fs[..i])
    {
      var file := fs[i];
      if !good(file) {
        return false, files;
      }
      if file.path in files {
        assert files[file.path] in fs[..i];
        ghost var j :| 0 <= j < i && fs[j] == files[file.path];
        return false, files;
      }
      IndexStep(files, fs[..i], file);
      assert fs[..i + 1] == fs[..i] + [file];
      files := files[file.path := file];
    }
    assert fs[..|fs|] == fs;
    ok := true;
  }

  method CheckCompanions(m: Manifest, files: map<string, File>) returns (ok: bool)
    requires FilesOk(m) && Indexed(files, m.files)
    ensures ok <==> CompanionsOk(m)
  {
    if m.streamDeck.Some? {
      var companion := m.streamDeck.value;
      if companion.kind != STREAMDECK_KIND || companion.path !in files || files[companion.path] != companion {
        return false;
      }
    }
    if m.status.Some? {
      var file := m.status.value;
      if file.kind != STATUS_KIND || file.path !in files || files[file.path] != file {
        return false;
      }
    }
    return true;
  }

  /** The checks on one artifact against the index. */
  predicate ArtifactChecks(files: map<string, File>, a: ReleaseArtifact) {
    && a.artifact.name != "" && IsSha256(a.artifact.contentSha256)
    && BundlePath(a.artifactPath) && FileArtifact(a.artifactPath, "artifact") == Some(a.artifact.name)
    && a.artifactPath in files && BindsContent(files[a.artifactPath], a)
    && (a.evidencePath != "" ==>
          && BundlePath(a.evidencePath) && a.evidencePath == EvidencePath(a.artifact.name)
          && a.evidencePath in files && BindsEvidence(files[a.evidencePath], a))
  }

  lemma ArtifactChecksIff(m: Manifest, files: map<string, File>, a: ReleaseArtifact)
    requires FilesOk(m) && Indexed(files, m.files)
    ensures ArtifactChecks(files, a) <==> ArtifactOk(m.files, a)
  {
    if ArtifactOk(m.files, a) {
      var f :| f in m.files && BindsContent(f, a);
      assert FileOk(m, f);
      if a.evidencePath != "" {
        var g :| g in m.files && BindsEvidence(g, a);
        assert FileOk(m, g);
      }
    }
  }

  /** The loop over the artifacts, for any test of one. */
  method CollectNames(artifacts: seq<ReleaseArtifact>, good: ReleaseArtifact -> bool)
    returns (ok: bool, seen: set<string>)
    ensures ok <==> (forall a <- artifacts :: good(a)) && DistinctNames(artifacts)
    ensures ok ==> seen == set a <- artifacts :: a.artifact.name
  {
    seen := {};
    for i := 0 to |artifacts|
      invariant seen == set a <- artifacts[..i] :: a.artifact.name
      invariant forall a <- artifacts[..i] :: good(a)
      invariant DistinctNames(artifacts[..i])
    {
      var a := artifacts[i];
      if !good(a) {
        return false, seen;
      }
      if a.artifact.name in seen {
        ghost var b :| b in artifacts[..i] && b.artifact.name == a.artifact.name;
        ghost var j :| 0 <= j < i && artifacts[j] == b;
        return false, seen;
      }
      assert artifacts[..i + 1] == artifacts[..i] + [a];
      seen := seen + {a.artifact.name};
    }
    assert artifacts[..|artifacts|] == artifacts;
    ok := true;
  }

  /** The last loop, over the index in whatever order the map is visited. */
  method CheckReferences(m: Manifest, files: map<string, File>, seen: set<string>) returns (ok: bool)
    requires Indexed(files, m.files) && seen == set a <- m.artifacts :: a.artifact.name
    ensures ok <==> ReferencesOk(m)
  {
    var todo := files.Keys;
    while todo != {}
      invariant todo <= files.Keys
      invariant forall p <- files.Keys - todo :: IsCompanion(files[p]) || files[p].artifact in seen
      decreases |todo|
    {
      var path :| path in todo;
      var file := files[path];
      if !IsCompanion(file) && file.artifact !in seen {
        return false;
      }
      todo := todo - {path};
    }
    return true;
  }

  /** `validateReleaseManifest` accepts exactly the valid manifests. */
  method ValidateReleaseManifest(m: Manifest) returns (ok: bool)
    ensures ok <==> ValidManifest(m)
  {
    if !FieldsOk(m) {
      return false;
    }
    var filesOk, files := IndexFiles(m.files, f => FileOk(m, f));
    if !filesOk {
      return false;
    }
    var companionsOk := CheckCompanions(m, files);
    if !companionsOk {
      return false;
    }
    var artifactsOk, seen := CollectNames(m.artifacts, a => ArtifactChecks(files, a));
    forall a <- m.artifacts ensures ArtifactChecks(files, a) <==> ArtifactOk(m.files, a) {
      ArtifactChecksIff(m, files, a);
    }
    if !artifactsOk {
      return false;
    }
    ok := CheckReferences(m, files, seen);
  }
}
