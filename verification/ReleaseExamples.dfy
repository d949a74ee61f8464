/**
 Two builds followed to the end: a release of one artifact that imports, and a
 release that builds and does not import, an artifact NAME with evidence next to an
 artifact NAME.json with a qualification file.
 */
module ReleaseExamples {
  import opened Common
  import opened Text
  import opened Paths
  import opened ArchiveExtract
  import opened ReleaseManifest
  import opened ReleaseImport
  import opened ReleaseBuild
  import opened ReleaseAssembly

  // ----- manifests of members -----

  lemma FilesOfMembers(xs: seq<Member>, digest: Bytes -> string)
    requires AllSmall(xs)
    ensures forall i :: 0 <= i < |xs| ==> FileOf(xs[i], digest) in SortBy(FilesOf(xs, digest), FilePath)
    ensures forall f <- SortBy(FilesOf(xs, digest), FilePath) :: f in FilesOf(xs, digest)
  {
    var fs := FilesOf(xs, digest);
    SortByKeeps(fs, FilePath);
    forall i | 0 <= i < |xs| ensures FileOf(xs[i], digest) in SortBy(fs, FilePath) {
      assert fs[i] in multiset(fs);
      assert fs[i] in multiset(SortBy(fs, FilePath));
    }
    forall f <- SortBy(fs, FilePath) ensures f in fs {
      assert f in multiset(SortBy(fs, FilePath));
    }
  }

  lemma ArtifactsOfInputs(inputs: seq<Input>)
    ensures forall i :: 0 <= i < |inputs| ==> ReleaseArtifactOf(inputs[i]) in SortBy(ReleaseArtifacts(inputs),
            ArtifactName)
    ensures forall a <- SortBy(ReleaseArtifacts(inputs), ArtifactName) :: a in ReleaseArtifacts(inputs)
  {
    var all := ReleaseArtifacts(inputs);
    SortByKeeps(all, ArtifactName);
    forall i | 0 <= i < |inputs| ensures ReleaseArtifactOf(inputs[i]) in SortBy(all, ArtifactName) {
      assert all[i] in multiset(all);
      assert all[i] in multiset(SortBy(all, ArtifactName));
    }
    forall a <- SortBy(all, ArtifactName) ensures a in all {
      assert a in multiset(SortBy(all, ArtifactName));
    }
  }

  lemma SortedFilesAreDistinct(xs: seq<Member>, digest: Bytes -> string)
    requires AllSmall(xs) && DistinctBy(xs, MemberPath)
    ensures DistinctPaths(SortBy(FilesOf(xs, digest), FilePath))
  {
    var fs := FilesOf(xs, digest);
    forall i, j | 0 <= i < j < |fs| ensures FilePath(fs[i]) != FilePath(fs[j]) {
      assert MemberPath(xs[i]) != MemberPath(xs[j]);
    }
    SortByKeeps(fs, FilePath);
    DistinctInAnyOrder(fs, SortBy(fs, FilePath), FilePath);
    forall i, j | 0 <= i < j < |fs| ensures SortBy(fs, FilePath)[i].path != SortBy(fs, FilePath)[j].path {
      assert FilePath(SortBy(fs, FilePath)[i]) != FilePath(SortBy(fs, FilePath)[j]);
    }
  }

  lemma SortedNamesAreDistinct(inputs: seq<Input>)
    requires DistinctInputs(inputs)
    ensures DistinctNames(SortBy(ReleaseArtifacts(inputs), ArtifactName))
  {
    var all := ReleaseArtifacts(inputs);
    NamesAreDistinct(inputs);
    SortByKeeps(all, ArtifactName);
    DistinctInAnyOrder(all, SortBy(all, ArtifactName), ArtifactName);
    var sorted := SortBy(all, ArtifactName);
    forall i, j | 0 <= i < j < |sorted| ensures sorted[i].artifact.name != sorted[j].artifact.name {
      assert ArtifactName(sorted[i]) != ArtifactName(sorted[j]);
    }
  }

  predicate MetadataOk(meta: Metadata) {
    && meta.releaseVersion != "" && meta.sourceCommit != "" && meta.buildWorkflow != "" && meta.siteApiVersion != ""
    && meta.schemaVersion > 0 && meta.controllerMin != "" && meta.controllerMax != ""
    && (meta.controllerSha256 == "" <==> meta.controllerSize == 0)
    && (meta.controllerSha256 != "" ==> IsSha256(meta.controllerSha256) && 0 <= meta.controllerSize <= MAX_FILE)
    && (meta.buildWorkflow != "local" ==> meta.controllerSha256 != "" && meta.controllerSize > 0)
  }

  /** A member of an artifact, as the manifest wants it. */
  predicate Bound(x: Member, digest: Bytes -> string) {
    && Small(x) && BundlePath(x.path) && IsSha256(digest(x.bytes)) && (x.kind == "artifact" || x.kind == "evidence")
    && FileArtifact(x.path, x.kind) == Some(x.artifact)
  }

  lemma BoundIsOk(m: Manifest, x: Member, digest: Bytes -> string)
    requires Bound(x, digest)
    ensures FileOk(m, FileOf(x, digest)) && !IsCompanion(FileOf(x, digest))
  {
    KindsDiffer(x.kind);
  }

  /** The input's content member, and its evidence member if it has evidence, are there. */
  ghost predicate Listed(xs: seq<Member>, input: Input, digest: Bytes -> string) {
    && input.artifact.name != "" && IsSha256(input.artifact.contentSha256)
    && (exists i :: 0 <= i < |xs| && Small(xs[i]) && BindsContent(FileOf(xs[i], digest), ReleaseArtifactOf(input)))
    && (input.evidenceSource != "" ==>
          exists i :: 0 <= i < |xs| && Small(xs[i]) && BindsEvidence(FileOf(xs[i], digest), ReleaseArtifactOf(input)))
  }

  lemma ListedIsOk(xs: seq<Member>, input: Input, digest: Bytes -> string)
    requires AllSmall(xs) && Listed(xs, input, digest)
    ensures ArtifactOk(SortBy(FilesOf(xs, digest), FilePath), ReleaseArtifactOf(input))
  {
    FilesOfMembers(xs, digest);
    var i :| 0 <= i < |xs| && Small(xs[i]) && BindsContent(FileOf(xs[i], digest), ReleaseArtifactOf(input));
    assert FileOf(xs[i], digest) in SortBy(FilesOf(xs, digest), FilePath);
    if input.evidenceSource != "" {
      var j :| 0 <= j < |xs| && Small(xs[j]) && BindsEvidence(FileOf(xs[j], digest), ReleaseArtifactOf(input));
      assert FileOf(xs[j], digest) in SortBy(FilesOf(xs, digest), FilePath);
    }
  }

  ghost predicate Owned(x: Member, inputs: seq<Input>) {
    exists i :: 0 <= i < |inputs| && inputs[i].artifact.name == x.artifact
  }

  lemma OwnerIsListed(x: Member, inputs: seq<Input>)
    requires Owned(x, inputs)
    ensures exists a <- SortBy(ReleaseArtifacts(inputs), ArtifactName) :: a.artifact.name == x.artifact
  {
    ArtifactsOfInputs(inputs);
    var k :| 0 <= k < |inputs| && inputs[k].artifact.name == x.artifact;
    assert ReleaseArtifactOf(inputs[k]) in SortBy(ReleaseArtifacts(inputs), ArtifactName);
  }

  lemma MemberOfFile(xs: seq<Member>, digest: Bytes -> string, f: File) returns (i: nat)
    requires AllSmall(xs) && f in SortBy(FilesOf(xs, digest), FilePath)
    ensures i < |xs| && f == FileOf(xs[i], digest)
  {
    FilesOfMembers(xs, digest);
    var fs := FilesOf(xs, digest);
    i :| 0 <= i < |fs| && fs[i] == f;
  }

  lemma FilesAreOk(m: Manifest, xs: seq<Member>, digest: Bytes -> string)
    requires AllSmall(xs) && DistinctBy(xs, MemberPath) && m.files == SortBy(FilesOf(xs, digest), FilePath)
    requires forall i :: 0 <= i < |xs| ==> Bound(xs[i], digest)
    ensures FilesOk(m)
  {
    SortedFilesAreDistinct(xs, digest);
    forall f <- m.files ensures FileOk(m, f) {
      var i := MemberOfFile(xs, digest, f);
      BoundIsOk(m, xs[i], digest);
    }
  }

  lemma ReferencesAreOk(m: Manifest, xs: seq<Member>, inputs: seq<Input>, digest: Bytes -> string)
    requires AllSmall(xs) && m.files == SortBy(FilesOf(xs, digest), FilePath)
    requires m.artifacts == SortBy(ReleaseArtifacts(inputs), ArtifactName)
    requires forall i :: 0 <= i < |xs| ==> Owned(xs[i], inputs)
    ensures ReferencesOk(m)
  {
    forall f <- m.files ensures exists a <- m.artifacts :: a.artifact.name == f.artifact {
      var i := MemberOfFile(xs, digest, f);
      OwnerIsListed(xs[i], inputs);
    }
  }

  lemma ArtifactsAreOk(m: Manifest, xs: seq<Member>, inputs: seq<Input>, digest: Bytes -> string)
    requires AllSmall(xs) && DistinctInputs(inputs)
    requires forall i :: 0 <= i < |inputs| ==> Listed(xs, inputs[i], digest)
    requires m.files == SortBy(FilesOf(xs, digest), FilePath)
    requires m.artifacts == SortBy(ReleaseArtifacts(inputs), ArtifactName)
    ensures ArtifactsOk(m)
  {
    ArtifactsOfInputs(inputs);
    SortedNamesAreDistinct(inputs);
    forall a <- m.artifacts ensures ArtifactOk(m.files, a) {
      var all := ReleaseArtifacts(inputs);
      var i :| 0 <= i < |all| && all[i] == a;
      ListedIsOk(xs, inputs[i], digest);
    }
  }

  /** Bound members of listed inputs, with distinct paths and names, make a valid manifest. */
  lemma MembersMakeAManifest(meta: Metadata, inputs: seq<Input>, xs: seq<Member>, digest: Bytes -> string)
    requires MetadataOk(meta) && inputs != [] && xs != [] && AllSmall(xs) && DistinctInputs(inputs) &&
             DistinctBy(xs, MemberPath)
    requires forall i :: 0 <= i < |xs| ==> Bound(xs[i], digest) && Owned(xs[i], inputs)
    requires forall i :: 0 <= i < |inputs| ==> Listed(xs, inputs[i], digest)
    ensures ValidManifest(MakeManifest(meta, inputs, xs, None, None, digest))
  {
    var m := MakeManifest(meta, inputs, xs, None, None, digest);
    FilesAreOk(m, xs, digest);
    ReferencesAreOk(m, xs, inputs, digest);
    ArtifactsAreOk(m, xs, inputs, digest);
    assert |m.files| == |xs| && |m.artifacts| == |inputs|;
  }

  // ----- a release of one artifact -----

  function PlainInput(name: string, bytes: Bytes, digest: Bytes -> string): Input {
    Input(Artifact(name, digest(bytes), ""), "a", "", [])
  }

  function PlainMember(name: string, bytes: Bytes): Member {
    Member("artifacts" + "/" + name + "/" + "a", bytes, "artifact", name)
  }

  lemma PlainIsBound(name: string, bytes: Bytes, digest: Bytes -> string)
    requires PlainName(name) && |bytes| <= MAX_FILE as int && IsSha256(digest(bytes))
    ensures var x, input := PlainMember(name, bytes), PlainInput(name, bytes, digest);
            Bound(x, digest) && Listed([x], input, digest) && Owned(x, [input])
  {
    var x, input := PlainMember(name, bytes), PlainInput(name, bytes, digest);
    ContentIsBound(name, "a", bytes, digest);
    ArtifactPathIs(input, "a");
    assert BindsContent(FileOf([x][0], digest), ReleaseArtifactOf(input));
    assert [input][0].artifact.name == x.artifact;
  }

  lemma PlainIsGathered(name: string, bytes: Bytes, b: Maker)
    requires PlainName(name)
    ensures Gathered([PlainMember(name, bytes)], [PlainInput(name, bytes, b.codec.digest)], map["a" := bytes], b)
  {
    var x, input, sources := PlainMember(name, bytes), PlainInput(name, bytes, b.codec.digest), map["a" := bytes];
    ArtifactPathIs(input, "a");
    assert IsArtifact(x, input, sources) && FromInput(x, input, sources, b);
    assert [x][0] in [x] && [input][0] in [input];
    assert HasArtifact([x], input, sources);
  }

  lemma OneMember(x: Member)
    requires Small(x)
    ensures AllSmall([x]) && MemberTotal([x]) == |x.bytes| && DistinctBy([x], MemberPath) && Sorted([x]) == [x]
    ensures MemberPaths([x]) == {x.path} && NoNesting(MemberPaths([x]))
  {
    assert [x][1..] == [];
    assert |x.path + "/"| > |x.path|;
  }

  lemma PlainIsAssembled(name: string, bytes: Bytes, meta: Metadata, digest: Bytes -> string)
    requires PlainName(name) && |bytes| <= MAX_FILE as int && IsSha256(digest(bytes)) && MetadataOk(meta)
    ensures var x, input := PlainMember(name, bytes), PlainInput(name, bytes, digest);
            && AllSmall([x]) && AllSmall(Sorted([x])) && NoNesting(MemberPaths([x]))
            && Assembled(MakeManifest(meta, [input], [x], None, None, digest), [x], digest)
  {
    var x, input := PlainMember(name, bytes), PlainInput(name, bytes, digest);
    PlainIsBound(name, bytes, digest);
    OneMember(x);
    MembersMakeAManifest(meta, [input], [x], digest);
  }

  /**
   Everything the round trip asks for can be had at once: for any plain name and
   contents there is a built release, a codec and a controller that accepts it.
   */
  lemma RoundTripOccurs(name: string, bytes: Bytes, meta: Metadata, key: string, keyId: string, digest: Bytes -> string)
    returns (r: Built, b: Maker, k: Controller)
    requires PlainName(name) && |bytes| <= MAX_FILE as int && IsSha256(digest(bytes))
    requires MetadataOk(meta) && meta.controllerSha256 == "" && ValidKeyId(keyId)
    ensures var inputs, sources := [PlainInput(name, bytes, digest)], map["a" := bytes];
            && BuiltFrom(r, inputs, meta, key, keyId, "", "", sources, b) && ReadsBack(b, r.manifest, key, keyId)
            && Matches(k, meta, key, keyId, b) && AcceptedArchive(r.archive, b.codec, k)
  {
    var x, input := PlainMember(name, bytes), PlainInput(name, bytes, digest);
    PlainIsAssembled(name, bytes, meta, digest);
    var m := MakeManifest(meta, [input], [x], None, None, digest);
    b := ReadsBackCanBeMet(m, key, keyId, digest, (_, _, _) => None, 0);
    PlainIsGathered(name, bytes, b);
    r := Built(m, [x], Archive(b, m, key, keyId, [x]));
    k := Controller([TrustedKey(keyId, b.publicKey(key))], meta.releaseVersion, meta.siteApiVersion,
                    meta.schemaVersion, None);
    assert TrustedKey(keyId, b.publicKey(key)) in k.trusted;
    BuiltBundleImportsIff(r, [input], meta, key, keyId, "", "", map["a" := bytes], b, k);
  }

  // ----- the nested release -----

  /** The contents of the four sources. */
  datatype Contents = Contents(first: Bytes, evidence: Bytes, second: Bytes, qualification: Bytes)

  function NestedSources(c: Contents): Sources {
    map["a" := c.first, "e" := c.evidence, "b" := c.second, "q" := c.qualification]
  }

  function Json(name: string): string {
    name + ".json"
  }

  function NestedPath(name: string, file: string): string {
    "evidence" + "/" + Json(name) + "/" + file
  }

  function FirstInput(name: string, c: Contents, digest: Bytes -> string): Input {
    Input(Artifact(name, digest(c.first), ""), "a", "e", [])
  }

  function SecondInput(name: string, file: string, c: Contents, digest: Bytes -> string): Input {
    Input(Artifact(Json(name), digest(c.second), ""), "b", "", [(NestedPath(name, file), "q")])
  }

  function NestedInputs(name: string, file: string, c: Contents, digest: Bytes -> string): seq<Input> {
    [FirstInput(name, c, digest), SecondInput(name, file, c, digest)]
  }

  /** Any plain names, contents within the limits, and evidence that is bound to the first artifact. */
  ghost predicate NestedCase(name: string, file: string, c: Contents, rewritten: Bytes, b: Maker) {
    && PlainName(name) && PlainName(file) && |c.evidence| <= MAX_EVIDENCE
    && |c.first| + |rewritten| + |c.second| + |c.qualification| <= MAX_FILE as int
    && IsSha256(b.codec.digest(c.first)) && IsSha256(b.codec.digest(rewritten))
    && IsSha256(b.codec.digest(c.second)) && IsSha256(b.codec.digest(c.qualification))
    && b.evidence(c.evidence, FirstInput(name, c, b.codec.digest).artifact, "artifacts" + "/" + name + "/" + "a") ==
      Some(rewritten)
  }

  /** Every pair of plain names is such a case, with some contents. */
  lemma NestedCaseOccurs(name: string, file: string) returns (c: Contents, rewritten: Bytes, b: Maker)
    requires PlainName(name) && PlainName(file)
    ensures NestedCase(name, file, c, rewritten, b)
  {
    var zeros: string := seq(64, _ => '0');
    var codec := Codec(_ => zeros, _ => None, _ => None, (_, _, _) => true);
    b := Maker(codec, _ => [], _ => [], (_, _) => "", k => k, (bytes, _, _) => Some(bytes));
    c, rewritten := Contents([], [], [], []), [];
  }

  function NestedMembers(name: string, file: string, c: Contents, rewritten: Bytes): seq<Member> {
    [Member("artifacts" + "/" + name + "/" + "a", c.first, "artifact", name),
     Member("evidence" + "/" + Json(name), rewritten, "evidence", name),
     Member("artifacts" + "/" + Json(name) + "/" + "b", c.second, "artifact", Json(name)),
     Member(NestedPath(name, file), c.qualification, "evidence", Json(name))]
  }

  lemma ArtifactPathIs(input: Input, source: string)
    requires PlainName(input.artifact.name) && PlainName(source) && input.artifactSource == source
    ensures ArtifactPath(input) == "artifacts" + "/" + input.artifact.name + "/" + source &&
            BundlePath(ArtifactPath(input))
  {
    BaseOfName(source);
    PartsAreSafe("artifacts", input.artifact.name, source);
    SafeIsClean("artifacts" + "/" + input.artifact.name + "/" + source);
  }

  lemma EvidencePathIs(name: string)
    requires PlainName(name)
    ensures EvidencePath(name) == "evidence" + "/" + Json(name) && BundlePath(EvidencePath(name)) &&
            PlainName(Json(name))
  {
    EvidenceParts(name);
    PartsAreSafe("evidence", Json(name), name);
  }

  lemma QualificationIsPlaced(name: string, file: string, c: Contents, digest: Bytes -> string)
    requires PlainName(name) && PlainName(file)
    ensures QualificationOk(SecondInput(name, file, c, digest), (NestedPath(name, file), "q"))
  {
    JsonIsPlain(name);
    BaseOfPath("evidence", Json(name), file);
    PartsAreSafe("evidence", Json(name), file);
    SafeIsClean(NestedPath(name, file));
  }

  /** Four paths that differ in their components. */
  lemma PathsDiffer(p: string, q: string, r: string, t: string)
    requires Split(p, '/')[0] == "artifacts" == Split(r, '/')[0] && Split(q, '/')[0] == "evidence" == Split(t, '/')[0]
    requires |Split(p, '/')| >= 2 && |Split(r, '/')| >= 2 && Split(p, '/')[1] != Split(r, '/')[1]
    requires |Split(q, '/')| != |Split(t, '/')|
    ensures p != q && p != r && p != t && q != r && q != t && r != t
  {
    assert "artifacts"[0] == 'a' && "evidence"[0] == 'e';
  }

  lemma TreesDiffer()
    ensures "artifacts" in TREES && "evidence" in TREES
  {
  }

  lemma NestedParts(name: string, file: string)
    requires PlainName(name) && PlainName(file)
    ensures var p, r := "artifacts" + "/" + name + "/" + "a", "artifacts" + "/" + Json(name) + "/" + "b";
            && Split(p, '/')[0] == "artifacts" == Split(r, '/')[0] && |Split(p, '/')| >= 2 && |Split(r, '/')| >= 2
            && Split(p, '/')[1] != Split(r, '/')[1]
    ensures var q, t := "evidence" + "/" + Json(name), NestedPath(name, file);
            Split(q, '/')[0] == "evidence" == Split(t, '/')[0] && |Split(q, '/')| != |Split(t, '/')|
  {
    TreesDiffer();
    JsonIsPlain(name);
    PartsAreSafe("artifacts", name, "a");
    PartsAreSafe("evidence", Json(name), file);
    PartsAreSafe("artifacts", Json(name), "b");
    assert |Json(name)| == |name| + 5;
  }

  lemma FourDistinct(xs: seq<Member>)
    requires |xs| == 4 && xs[0].path != xs[1].path && xs[0].path != xs[2].path && xs[0].path != xs[3].path
    requires xs[1].path != xs[2].path && xs[1].path != xs[3].path && xs[2].path != xs[3].path
    ensures DistinctBy(xs, MemberPath)
  {
  }

  lemma NestedPathsDiffer(name: string, file: string, c: Contents, rewritten: Bytes)
    requires PlainName(name) && PlainName(file)
    ensures DistinctBy(NestedMembers(name, file, c, rewritten), MemberPath)
  {
    NestedParts(name, file);
    var xs := NestedMembers(name, file, c, rewritten);
    PathsDiffer(xs[0].path, xs[1].path, xs[2].path, xs[3].path);
    FourDistinct(xs);
  }

  // ----- it is gathered as it should be -----

  lemma FirstIsGathered(name: string, file: string, c: Contents, rewritten: Bytes, b: Maker)
    requires NestedCase(name, file, c, rewritten, b)
    ensures var input, sources := FirstInput(name, c, b.codec.digest), NestedSources(c);
            && WithInput([], input, sources, b) == NestedMembers(name, file, c, rewritten)[..2]
            && !BadInput(input, sources, b) && InputSize(input, sources, b) == |c.first| + |rewritten|
  {
    var input, sources := FirstInput(name, c, b.codec.digest), NestedSources(c);
    ArtifactPathIs(input, "a");
    EvidencePathIs(name);
    assert RewrittenEvidence(input, sources, b) == Some(rewritten);
    assert [] + [ArtifactMember(input, sources)] == [ArtifactMember(input, sources)];
  }

  lemma OneQualification(before: seq<Member>, input: Input, q: (string, string), sources: Sources)
    requires q.0 !in MemberPaths(before)
    ensures WithQualification(before, input, [q], sources) ==
            before + [Member(q.0, Content(q.1, sources), "evidence", input.artifact.name)]
    ensures QualificationSize([q], sources) == SizeOf(q.1, sources)
  {
    var qs := [q];
    assert qs[..0] == [];
  }

  lemma LastPathIsNew(xs: seq<Member>, i: nat)
    requires i < |xs| && DistinctBy(xs, MemberPath)
    ensures xs[i].path !in MemberPaths(xs[..i])
  {
    forall x <- xs[..i] ensures x.path != xs[i].path {
      var j :| 0 <= j < i && xs[j] == x;
      assert MemberPath(xs[j]) != MemberPath(xs[i]);
    }
  }

  lemma SecondIsGathered(name: string, file: string, c: Contents, rewritten: Bytes, b: Maker)
    requires PlainName(name) && PlainName(file)
    ensures var input, sources := SecondInput(name, file, c, b.codec.digest), NestedSources(c);
            var xs := NestedMembers(name, file, c, rewritten);
            WithInput(xs[..2], input, sources, b) == xs &&
              InputSize(input, sources, b) == |c.second| + |c.qualification|
  {
    var input, sources := SecondInput(name, file, c, b.codec.digest), NestedSources(c);
    var xs := NestedMembers(name, file, c, rewritten);
    JsonIsPlain(name);
    ArtifactPathIs(input, "b");
    NestedPathsDiffer(name, file, c, rewritten);
    LastPathIsNew(xs, 3);
    assert EvidenceMembers(input, sources, b) == [] && ArtifactMember(input, sources) == xs[2];
    assert xs[..2] + [xs[2]] + [] == xs[..3] && xs[..3] + [xs[3]] == xs;
    OneQualification(xs[..3], input, (NestedPath(name, file), "q"), sources);
  }

  lemma SecondIsGood(name: string, file: string, c: Contents, rewritten: Bytes, b: Maker)
    requires NestedCase(name, file, c, rewritten, b)
    ensures !BadInput(SecondInput(name, file, c, b.codec.digest), NestedSources(c), b)
  {
    var input := SecondInput(name, file, c, b.codec.digest);
    JsonIsPlain(name);
    ArtifactPathIs(input, "b");
    QualificationIsPlaced(name, file, c, b.codec.digest);
  }

  lemma NestedIsGathered(name: string, file: string, c: Contents, rewritten: Bytes, b: Maker)
    requires NestedCase(name, file, c, rewritten, b)
    ensures var inputs, sources := NestedInputs(name, file, c, b.codec.digest), NestedSources(c);
            && AllMembers(inputs, sources, b) == NestedMembers(name, file, c, rewritten)
            && InputsSize(inputs, sources, b) <= MAX_BUNDLE as int
  {
    var inputs, sources := NestedInputs(name, file, c, b.codec.digest), NestedSources(c);
    FirstIsGathered(name, file, c, rewritten, b);
    SecondIsGathered(name, file, c, rewritten, b);
    var one := [inputs[0]];
    assert inputs[..1] == one && one[..0] == [];
    assert AllMembers(one, sources, b) == WithInput([], inputs[0], sources, b);
    assert InputsSize(one, sources, b) == InputSize(inputs[0], sources, b);
  }

  // ----- and its manifest is valid -----

  lemma ContentIsBound(name: string, source: string, bytes: Bytes, digest: Bytes -> string)
    requires PlainName(name) && PlainName(source) && |bytes| <= MAX_FILE as int && IsSha256(digest(bytes))
    ensures Bound(Member("artifacts" + "/" + name + "/" + source, bytes, "artifact", name), digest)
  {
    TreesDiffer();
    PartsAreSafe("artifacts", name, source);
  }

  lemma EvidenceIsBound(name: string, bytes: Bytes, digest: Bytes -> string)
    requires PlainName(name) && |bytes| <= MAX_FILE as int && IsSha256(digest(bytes))
    ensures Bound(Member("evidence" + "/" + Json(name), bytes, "evidence", name), digest)
  {
    TreesDiffer();
    JsonIsPlain(name);
    PartsAreSafe("evidence", Json(name), name);
    EvidenceNames("evidence" + "/" + Json(name), name);
    KindsAreTwo();
  }

  lemma KindsAreTwo()
    ensures "artifact" != "evidence"
  {
    assert "artifact"[0] == 'a' && "evidence"[0] == 'e';
  }

  lemma QualificationIsBound(name: string, file: string, bytes: Bytes, digest: Bytes -> string)
    requires PlainName(name) && PlainName(file) && |bytes| <= MAX_FILE as int && IsSha256(digest(bytes))
    ensures Bound(Member("evidence" + "/" + name + "/" + file, bytes, "evidence", name), digest)
  {
    TreesDiffer();
    PartsAreSafe("evidence", name, file);
    KindsAreTwo();
  }

  lemma FourAll<T>(xs: seq<T>, p: T -> bool)
    requires |xs| == 4 && p(xs[0]) && p(xs[1]) && p(xs[2]) && p(xs[3])
    ensures forall i :: 0 <= i < |xs| ==> p(xs[i])
  {
  }

  lemma NestedAreBound(name: string, file: string, c: Contents, rewritten: Bytes, b: Maker)
    requires NestedCase(name, file, c, rewritten, b)
    ensures var xs := NestedMembers(name, file, c, rewritten);
            AllSmall(xs) && forall i :: 0 <= i < |xs| ==> Bound(xs[i], b.codec.digest)
  {
    var xs, digest := NestedMembers(name, file, c, rewritten), b.codec.digest;
    FirstAreBound(name, file, c, rewritten, b);
    SecondAreBound(name, file, c, rewritten, b);
    FourAreBound(xs, digest);
    BoundAreSmall(xs, digest);
  }

  lemma FourAreBound(xs: seq<Member>, digest: Bytes -> string)
    requires |xs| == 4
    requires Bound(xs[0], digest) && Bound(xs[1], digest) && Bound(xs[2], digest) && Bound(xs[3], digest)
    ensures forall i :: 0 <= i < |xs| ==> Bound(xs[i], digest)
  {
    FourAll(xs, x => Bound(x, digest));
  }

  lemma FirstAreBound(name: string, file: string, c: Contents, rewritten: Bytes, b: Maker)
    requires NestedCase(name, file, c, rewritten, b)
    ensures var xs := NestedMembers(name, file, c, rewritten);
            Bound(xs[0], b.codec.digest) && Bound(xs[1], b.codec.digest)
  {
    ContentIsBound(name, "a", c.first, b.codec.digest);
    EvidenceIsBound(name, rewritten, b.codec.digest);
  }

  lemma SecondAreBound(name: string, file: string, c: Contents, rewritten: Bytes, b: Maker)
    requires NestedCase(name, file, c, rewritten, b)
    ensures var xs := NestedMembers(name, file, c, rewritten);
            Bound(xs[2], b.codec.digest) && Bound(xs[3], b.codec.digest)
  {
    JsonIsPlain(name);
    ContentIsBound(Json(name), "b", c.second, b.codec.digest);
    QualificationIsBound(Json(name), file, c.qualification, b.codec.digest);
  }

  lemma BoundAreSmall(xs: seq<Member>, digest: Bytes -> string)
    requires forall i :: 0 <= i < |xs| ==> Bound(xs[i], digest)
    ensures AllSmall(xs)
  {
  }

  lemma NestedAreOwned(name: string, file: string, c: Contents, rewritten: Bytes, digest: Bytes -> string)
    ensures var xs := NestedMembers(name, file, c, rewritten);
            forall i :: 0 <= i < |xs| ==> Owned(xs[i], NestedInputs(name, file, c, digest))
  {
    var inputs := NestedInputs(name, file, c, digest);
    assert inputs[0].artifact.name == name && inputs[1].artifact.name == Json(name);
  }

  lemma NestedAreListed(name: string, file: string, c: Contents, rewritten: Bytes, b: Maker)
    requires NestedCase(name, file, c, rewritten, b)
    ensures var xs, inputs := NestedMembers(name, file, c, rewritten), NestedInputs(name, file, c, b.codec.digest);
            DistinctInputs(inputs) && forall i :: 0 <= i < |inputs| ==> Listed(xs, inputs[i], b.codec.digest)
  {
    var xs, inputs := NestedMembers(name, file, c, rewritten), NestedInputs(name, file, c, b.codec.digest);
    var digest := b.codec.digest;
    JsonIsPlain(name);
    assert |Json(name)| == |name| + 5;
    ArtifactPathIs(inputs[0], "a");
    ArtifactPathIs(inputs[1], "b");
    EvidencePathIs(name);
    assert Small(xs[0]) && Small(xs[1]) && Small(xs[2]);
    assert BindsContent(FileOf(xs[0], digest), ReleaseArtifactOf(inputs[0]));
    assert BindsEvidence(FileOf(xs[1], digest), ReleaseArtifactOf(inputs[0]));
    assert BindsContent(FileOf(xs[2], digest), ReleaseArtifactOf(inputs[1]));
  }

  lemma NestedIsValid(name: string, file: string, c: Contents, rewritten: Bytes, meta: Metadata, b: Maker)
    requires NestedCase(name, file, c, rewritten, b) && MetadataOk(meta)
    ensures var xs, inputs := NestedMembers(name, file, c, rewritten), NestedInputs(name, file, c, b.codec.digest);
            AllSmall(xs) && ValidManifest(MakeManifest(meta, inputs, xs, None, None, b.codec.digest))
  {
    NestedAreBound(name, file, c, rewritten, b);
    NestedAreOwned(name, file, c, rewritten, b.codec.digest);
    NestedAreListed(name, file, c, rewritten, b);
    NestedPathsDiffer(name, file, c, rewritten);
    MembersMakeAManifest(meta, NestedInputs(name, file, c, b.codec.digest), NestedMembers(name, file, c, rewritten),
                         b.codec.digest);
  }

  // ----- so it is built, and refused by every controller -----

  lemma NestedInputsAreGood(name: string, file: string, c: Contents, rewritten: Bytes, b: Maker)
    requires NestedCase(name, file, c, rewritten, b)
    ensures forall input <- NestedInputs(name, file, c, b.codec.digest) :: !BadInput(input, NestedSources(c), b)
  {
    FirstIsGathered(name, file, c, rewritten, b);
    SecondIsGood(name, file, c, rewritten, b);
  }

  lemma NestedAreMembers(name: string, file: string, c: Contents, rewritten: Bytes, b: Maker)
    requires NestedCase(name, file, c, rewritten, b)
    ensures ReleaseMembers(NestedInputs(name, file, c, b.codec.digest), "", "", NestedSources(c), b) ==
            NestedMembers(name, file, c, rewritten)
  {
    NestedIsGathered(name, file, c, rewritten, b);
    var xs := NestedMembers(name, file, c, rewritten);
    assert xs + [] + [] == xs;
  }

  lemma NestedIsDescribed(name: string, file: string, c: Contents, rewritten: Bytes, meta: Metadata, b: Maker,
                          m: Manifest)
    requires NestedCase(name, file, c, rewritten, b) && MetadataOk(meta)
    requires Describes(m, NestedInputs(name, file, c, b.codec.digest), meta, "", "", NestedSources(c), b)
    ensures ValidManifest(m)
  {
    NestedAreMembers(name, file, c, rewritten, b);
    NestedIsValid(name, file, c, rewritten, meta, b);
  }

  lemma NoSource(c: Contents)
    ensures StreamDeckSource("") == "" && "" !in NestedSources(c)
  {
  }

  /** No reason to refuse the build applies. */
  lemma NestedIsNotRefused(name: string, file: string, c: Contents, rewritten: Bytes, meta: Metadata, keyId: string,
                           b: Maker)
    requires NestedCase(name, file, c, rewritten, b) && MetadataOk(meta) && ValidKeyId(keyId)
    ensures !RefusesToBuild(NestedInputs(name, file, c, b.codec.digest), meta, keyId, "", "", NestedSources(c), b)
  {
    var inputs, sources := NestedInputs(name, file, c, b.codec.digest), NestedSources(c);
    NoSource(c);
    assert forall input <- inputs :: !BadInput(input, sources,
                                               b) by { NestedInputsAreGood(name, file, c, rewritten, b); }
    assert DistinctInputs(inputs) by { NestedAreListed(name, file, c, rewritten, b); }
    assert InputsSize(inputs, sources, b) <= MAX_BUNDLE as int by { NestedIsGathered(name, file, c, rewritten, b); }
    forall m | Describes(m, inputs, meta, "", "", sources, b) ensures ValidManifest(m) {
      NestedIsDescribed(name, file, c, rewritten, meta, b, m);
    }
  }

  lemma NestedIsNested(name: string, file: string, c: Contents, rewritten: Bytes)
    requires PlainName(name) && PlainName(file)
    ensures !NoNesting(MemberPaths(NestedMembers(name, file, c, rewritten)))
  {
    var xs := NestedMembers(name, file, c, rewritten);
    assert xs[1] in xs && xs[3] in xs;
    assert xs[3].path[..|xs[1].path| + 1] == xs[1].path + "/";
    assert Below(xs[3].path, xs[1].path);
  }

  /** Whatever the controller and its keys, an archive with nested members is refused. */
  lemma NestedArchiveIsRefused(b: Maker, m: Manifest, key: string, keyId: string, xs: seq<Member>, k: Controller)
    requires Writable(b, m, key, keyId) && AllSmall(xs) && AllSmall(Sorted(xs)) && !NoNesting(MemberPaths(xs))
    ensures !AcceptedArchive(Archive(b, m, key, keyId, xs), b.codec, k)
  {
    var archive := Archive(b, m, key, keyId, xs);
    assert archive[2..] == EntriesOf(Sorted(xs));
    SortedPaths(xs);
    NamesOfMembers(Sorted(xs), b.codec.digest);
  }

  /**
   The builder accepts the inputs, and unless writing the archive fails it emits
   one that no controller imports.
   */
  method BuildNested(name: string, file: string, c: Contents, ghost rewritten: Bytes, meta: Metadata, key: string,
                     keyId: string, b: Maker, fails: Failures)
    returns (r: Result<Built>, fault: bool)
    requires NestedCase(name, file, c, rewritten, b) && MetadataOk(meta) && ValidKeyId(keyId)
    ensures fault ==> Fails(fails) || exists m :: !Writable(b, m, key, keyId)
    ensures !fault ==> r.Ok? && ValidManifest(r.value.manifest) &&
                       forall k :: !AcceptedArchive(r.value.archive, b.codec, k)
  {
    var inputs, sources := NestedInputs(name, file, c, b.codec.digest), NestedSources(c);
    NestedIsNotRefused(name, file, c, rewritten, meta, keyId, b);
    NoSource(c);
    r, fault := BuildReleaseBundle(inputs, meta, key, keyId, "", "", sources, b, fails);
    if r.Ok? {
      NestedAreMembers(name, file, c, rewritten, b);
      NestedIsNested(name, file, c, rewritten);
      forall k ensures !AcceptedArchive(r.value.archive, b.codec, k) {
        NestedArchiveIsRefused(b, r.value.manifest, key, keyId, r.value.members, k);
      }
    }
  }
}
