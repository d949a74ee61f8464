/**
 What an importable release is, said without the functions that check it: in
 terms of path components, digits, members of the archive and the codec alone.
 */
module ReleaseDemands {
  import opened Common
  import opened Text
  import opened Paths
  import opened ArchiveExtract
  import opened ReleaseManifest
  import opened ReleaseImport

  // ----- the manifest -----

  /** A relative path of ordinary components, properly below one of the three trees. */
  ghost predicate SafePath(path: string) {
    && '\0' !in path && '\\' !in path
    && (forall p <- Split(path, '/') :: p !in {"", ".", ".."})
    && |Split(path, '/')| >= 2 && Split(path, '/')[0] in {"artifacts", "evidence", "companion"}
  }

  ghost predicate HexDigest(s: string) {
    |s| == 64 && forall c <- s :: c in "0123456789" || c in "abcdef" || c in "ABCDEF"
  }

  lemma HexDigits(c: char)
    ensures IsHex(c) <==> c in "0123456789" || c in "abcdef" || c in "ABCDEF"
  {
    var digits, small, capital := "0123456789", "abcdef", "ABCDEF";
    if '0' <= c <= '9' {
      assert digits[(c - '0') as int] == c;
    } else if 'a' <= c <= 'f' {
      assert small[(c - 'a') as int] == c;
    } else if 'A' <= c <= 'F' {
      assert capital[(c - 'A') as int] == c;
    }
  }

  lemma HexDigestIff(s: string)
    ensures IsSha256(s) <==> HexDigest(s)
  {
    forall c: char ensures IsHex(c) <==> c in "0123456789" || c in "abcdef" || c in "ABCDEF" {
      HexDigits(c);
    }
  }

  /** The artifact that a member of the given kind belongs to is the one its path names. */
  ghost predicate PathNames(path: string, kind: string, artifact: string) {
    var parts := Split(path, '/');
    && artifact != ""
    && (|| (kind == "artifact" && |parts| == 3 && parts[0] == "artifacts" && parts[1] == artifact)
        || (kind == "evidence" && |parts| == 2 && parts[1] == artifact + ".json")
        || (kind == "evidence" && |parts| >= 3 && parts[0] == "evidence" && parts[1] == artifact))
  }

  lemma JsonName(file: string, artifact: string)
    ensures HasSuffix(file, ".json") && TrimSuffix(file, ".json") == artifact <==> file == artifact + ".json"
  {
    if HasSuffix(file, ".json") {
      assert file == file[..|file| - 5] + file[|file| - 5..];
    }
    if file == artifact + ".json" {
      assert file[|file| - 5..] == ".json" && file[..|file| - 5] == artifact;
    }
  }

  lemma PathNamesIff(path: string, kind: string, artifact: string)
    requires forall p <- Split(path, '/') :: p != ""
    ensures FileArtifact(path, kind) == Some(artifact) <==> PathNames(path, kind, artifact)
  {
    var parts := Split(path, '/');
    if |parts| == 2 {
      JsonName(parts[1], artifact);
    }
    assert forall i :: 0 <= i < |parts| ==> parts[i] in parts;
  }

  /** The name of a listed evidence file. */
  lemma EvidenceName(name: string)
    requires name != "" && '/' !in name
    ensures EvidencePath(name) == "evidence/" + name + ".json"
  {
    var file := name + ".json";
    var path := "evidence" + "/" + file;
    assert "evidence/" == "evidence" + "/" && path == "evidence/" + name + ".json";
    assert ".json"[0] == '.' && ".json"[1] == 'j' && '/' !in ".json";
    assert '/' !in "evidence" && file[|name|] == '.';
    SplitHead("evidence", '/', file);
    SplitWhole(file, '/');
    PlainIsClean(path);
  }

  ghost predicate Complete(m: Manifest) {
    && "" !in {m.releaseVersion, m.sourceCommit, m.buildWorkflow, m.siteApiVersion, m.controllerMin, m.controllerMax}
    && m.formatVersion == "boetticher/release-bundle/v1" && m.abiVersion == "boetticher/artifact/v1"
    && m.architecture == "amd64" && m.schemaVersion > 0 && |m.artifacts| > 0 && |m.files| > 0
  }

  /** Bound to one controller file, or to none if built locally. */
  ghost predicate Bound(m: Manifest) {
    || (m.controllerSha256 == "" && m.controllerSize == 0 && m.buildWorkflow == "local")
    || (HexDigest(m.controllerSha256) && 1 <= m.controllerSize <= 8589934592)
  }

  lemma FieldsIff(m: Manifest)
    ensures FieldsOk(m) <==> Complete(m) && Bound(m)
  {
    HexDigestIff(m.controllerSha256);
  }

  ghost predicate SafeFile(m: Manifest, f: File) {
    && SafePath(f.path) && HexDigest(f.sha256) && 0 <= f.size <= 8589934592
    && (|| PathNames(f.path, f.kind, f.artifact)
        || (f.kind == "companion" && f.path == "companion/" + "streamdeck/boetticher-streamdeck-linux-arm64" &&
            f.artifact == "" && m.streamDeck == Some(f))
        || (f.kind == "companion-status" && f.path == "companion/" + "status/boetticher-companion-linux-arm64" &&
            f.artifact == "" && m.status == Some(f)))
  }

  lemma SafePathIff(path: string)
    ensures BundlePath(path) <==> SafePath(path)
  {
    BundlePathIff(path);
  }

  lemma FileIff(m: Manifest, f: File)
    ensures FileOk(m, f) <==> SafeFile(m, f)
  {
    SafePathIff(f.path);
    HexDigestIff(f.sha256);
    if SafePath(f.path) {
      PathNamesIff(f.path, f.kind, f.artifact);
    }
  }

  /** The listed file `f` with this path, kind and artifact. */
  predicate Lists(f: File, path: string, kind: string, artifact: string) {
    f.path == path && f.kind == kind && f.artifact == artifact
  }

  ghost predicate Backed(m: Manifest, a: ReleaseArtifact) {
    && (exists f <- m.files :: Lists(f, a.artifactPath, "artifact", a.artifact.name) &&
          f.sha256 == a.artifact.contentSha256)
    && (a.evidencePath == "" || (a.evidencePath == "evidence/" + a.artifact.name + ".json" &&
          exists f <- m.files :: Lists(f, a.evidencePath, "evidence", a.artifact.name)))
  }

  lemma BackedIff(m: Manifest, a: ReleaseArtifact)
    requires forall f <- m.files :: FileOk(m, f)
    ensures ArtifactOk(m.files, a) <==> a.artifact.name != "" && HexDigest(a.artifact.contentSha256) && Backed(m, a)
  {
    HexDigestIff(a.artifact.contentSha256);
    forall f | f in m.files && Lists(f, a.artifactPath, "artifact", a.artifact.name)
      ensures '/' !in a.artifact.name {
      FileIff(m, f);
      assert Split(f.path, '/')[1] in Split(f.path, '/');
    }
    if a.artifact.name != "" && '/' !in a.artifact.name {
      EvidenceName(a.artifact.name);
    }
    if ArtifactOk(m.files, a) {
      var f :| f in m.files && BindsContent(f, a);
      assert Lists(f, a.artifactPath, "artifact", a.artifact.name);
      if a.evidencePath != "" {
        var g :| g in m.files && BindsEvidence(g, a);
        assert Lists(g, a.evidencePath, "evidence", a.artifact.name);
      }
    } else if a.artifact.name != "" && HexDigest(a.artifact.contentSha256) && Backed(m, a) {
      var f :| f in m.files && Lists(f, a.artifactPath, "artifact", a.artifact.name) &&
               f.sha256 == a.artifact.contentSha256;
      assert BindsContent(f, a);
      if a.evidencePath != "" {
        var g :| g in m.files && Lists(g, a.evidencePath, "evidence", a.artifact.name);
        assert BindsEvidence(g, a);
      }
    }
  }

  /** Whatever is listed has a file, and every file is of something listed. */
  ghost predicate FilesFit(m: Manifest) {
    && (forall f <- m.files :: SafeFile(m, f))
    && (forall a <- m.artifacts ::
          a.artifact.name != "" && HexDigest(a.artifact.contentSha256) && Backed(m, a))
    && (m.streamDeck.Some? ==> m.streamDeck.value in m.files && m.streamDeck.value.kind == "companion")
    && (m.status.Some? ==> m.status.value in m.files && m.status.value.kind == "companion-status")
    && (forall f <- m.files :: f.kind in {"companion", "companion-status"} ||
          exists a <- m.artifacts :: a.artifact.name == f.artifact)
  }

  /** No path and no artifact name is listed twice. */
  ghost predicate NoRepeats(m: Manifest) {
    && (forall i, j :: 0 <= i < j < |m.files| ==> m.files[i].path != m.files[j].path)
    && (forall i, j :: 0 <= i < j < |m.artifacts| ==> m.artifacts[i].artifact.name != m.artifacts[j].artifact.name)
  }

  lemma NoRepeatsIff(m: Manifest)
    ensures NoRepeats(m) <==> DistinctPaths(m.files) && DistinctNames(m.artifacts)
  {
  }

  lemma FilesFitIff(m: Manifest)
    ensures FilesFit(m) <==> (forall f <- m.files :: FileOk(m, f)) && CompanionsOk(m) &&
                             (forall a <- m.artifacts :: ArtifactOk(m.files, a)) && ReferencesOk(m)
  {
    forall f <- m.files ensures FileOk(m, f) <==> SafeFile(m, f) {
      FileIff(m, f);
    }
    if forall f <- m.files :: FileOk(m, f) {
      forall a <- m.artifacts
        ensures ArtifactOk(m.files, a) <==>
                a.artifact.name != "" && HexDigest(a.artifact.contentSha256) && Backed(m, a) {
        BackedIff(m, a);
      }
    }
  }

  /** What a valid manifest is, for every manifest. */
  lemma ValidManifestIff(m: Manifest)
    ensures ValidManifest(m) <==> Complete(m) && Bound(m) && FilesFit(m) && NoRepeats(m)
  {
    FieldsIff(m);
    FilesFitIff(m);
    NoRepeatsIff(m);
  }

  // ----- the archive -----

  /** A regular member, there in full with these bytes. */
  predicate Holds(e: Entry, name: string, data: Bytes) {
    e.name == name && e.kind == Regular && e.size as int == |data| && data <= e.bytes
  }

  lemma MemberBytesIff(e: Entry, data: Bytes)
    ensures MemberBytes(e) == Some(data) <==> e.size as int == |data| && data <= e.bytes
  {
    if e.size as int == |data| && |data| <= |e.bytes| {
      assert data <= e.bytes <==> e.bytes[..|data|] == data;
    }
  }

  lemma HeadIff(archive: seq<Entry>, i: nat, name: string, data: Bytes)
    ensures HeadMember(archive, i, name) == Some(data) <==>
            i < |archive| && Holds(archive[i], name, data) && |data| <= 1048576
  {
    if i < |archive| {
      MemberBytesIff(archive[i], data);
    }
  }

  /** Some trusted key with the signature's key id verifies exactly these bytes. */
  ghost predicate Verified(manifest: Bytes, s: Signature, c: Codec, trusted: seq<TrustedKey>) {
    && s.algorithm == "ed25519" && s.keyId != ""
    && exists i :: 0 <= i < |trusted| && trusted[i].id == s.keyId &&
                   c.verify(trusted[i].publicKey, manifest, s.signature)
  }

  lemma VerifiedIff(manifest: Bytes, s: Signature, c: Codec, trusted: seq<TrustedKey>)
    ensures SignedByTrusted(manifest, s, c, trusted) <==> Verified(manifest, s, c, trusted)
  {
  }

  /** The archive begins with a manifest and a signature that verifies its bytes. */
  ghost predicate Begins(archive: seq<Entry>, c: Codec, trusted: seq<TrustedKey>, m: Manifest) {
    exists manifest, signature, s ::
      && |archive| >= 2 && |manifest| <= 1048576 && |signature| <= 1048576
      && Holds(archive[0], "manifest.json", manifest) && Holds(archive[1], "manifest.sig", signature)
      && c.decodeSignature(signature) == Some(s) && Verified(manifest, s, c, trusted)
      && c.decode(manifest) == Some(m)
  }

  lemma BeginsIff(archive: seq<Entry>, c: Codec, k: Controller, m: Manifest)
    ensures SignedManifest(archive, c, k) == Some(m) <==> Begins(archive, c, k.trusted, m)
  {
    var head, tail := HeadMember(archive, 0, MANIFEST_NAME), HeadMember(archive, 1, SIGNATURE_NAME);
    if SignedManifest(archive, c, k) == Some(m) {
      HeadIff(archive, 0, MANIFEST_NAME, head.value);
      HeadIff(archive, 1, SIGNATURE_NAME, tail.value);
      VerifiedIff(head.value, c.decodeSignature(tail.value).value, c, k.trusted);
    } else if Begins(archive, c, k.trusted, m) {
      var manifest, signature, s :|
        && |archive| >= 2 && |manifest| <= 1048576 && |signature| <= 1048576
        && Holds(archive[0], "manifest.json", manifest) && Holds(archive[1], "manifest.sig", signature)
        && c.decodeSignature(signature) == Some(s) && Verified(manifest, s, c, k.trusted)
        && c.decode(manifest) == Some(m);
      HeadIff(archive, 0, MANIFEST_NAME, manifest);
      HeadIff(archive, 1, SIGNATURE_NAME, signature);
      VerifiedIff(manifest, s, c, k.trusted);
    }
  }

  /** Made for this controller: its release, its APIs, its architecture and, if bound, its own file. */
  ghost predicate MadeFor(m: Manifest, k: Controller) {
    && m.releaseVersion == k.releaseVersion && m.siteApiVersion == k.siteApiVersion
    && m.schemaVersion == k.schemaVersion && m.architecture == "amd64"
    && (m.controllerSha256 != "" ==>
          exists sha :: k.executable == Some((sha, m.controllerSize)) && |sha| == |m.controllerSha256| &&
            forall i :: 0 <= i < |sha| ==> SameLetter(sha[i], m.controllerSha256[i]))
  }

  lemma MadeForIff(m: Manifest, k: Controller)
    ensures Compatible(m, k) && BindingOk(m, k) <==> MadeFor(m, k)
  {
    if k.executable.Some? {
      EqualFoldIff(k.executable.value.0, m.controllerSha256);
    }
  }

  /** The file's member, with bytes of the declared size and digest. */
  predicate Carries(e: Entry, f: File, digest: Bytes -> string) {
    && e.name == f.path && e.kind == Regular && e.size == f.size && 0 <= f.size as int <= |e.bytes|
    && digest(e.bytes[..f.size]) == f.sha256
  }

  /** `path` goes through the directory `dir`. */
  predicate Inside(path: string, dir: string) {
    |dir| < |path| && path[..|dir|] == dir && path[|dir|] == '/'
  }

  lemma InsideIff(path: string, dir: string)
    ensures Below(path, dir) <==> Inside(path, dir)
  {
    if |dir| < |path| {
      assert path[..|dir| + 1] == path[..|dir|] + [path[|dir|]];
      assert path[..|dir| + 1] == dir + "/" ==> path[..|dir| + 1][..|dir|] == dir;
      assert path[..|dir| + 1] == dir + "/" ==> path[..|dir| + 1][|dir|] == '/';
    }
  }

  ghost predicate EveryMemberListed(fs: seq<File>, es: seq<Entry>, digest: Bytes -> string) {
    forall e <- es :: exists f <- fs :: Carries(e, f, digest)
  }

  ghost predicate EveryFileThere(fs: seq<File>, es: seq<Entry>, digest: Bytes -> string) {
    forall f <- fs :: exists e <- es :: Carries(e, f, digest)
  }

  /** One intact member for each file, and one file for each member. */
  ghost predicate CarriesEach(fs: seq<File>, es: seq<Entry>, digest: Bytes -> string) {
    EveryMemberListed(fs, es, digest) && EveryFileThere(fs, es, digest)
  }

  /** No member twice and none inside another. */
  ghost predicate SideBySide(es: seq<Entry>) {
    && (forall i, j :: 0 <= i < j < |es| ==> es[i].name != es[j].name)
    && (forall i, j :: 0 <= i < |es| && 0 <= j < |es| ==> !Inside(es[i].name, es[j].name))
  }

  lemma SideBySideIff(es: seq<Entry>)
    ensures SideBySide(es) <==> DistinctEntries(es) && NoNesting(Names(es))
  {
    forall a, b ensures Below(a, b) <==> Inside(a, b) {
      InsideIff(a, b);
    }
    if NoNesting(Names(es)) {
      forall i, j | 0 <= i < |es| && 0 <= j < |es| ensures !Inside(es[i].name, es[j].name) {
        assert es[i].name in Names(es) && es[j].name in Names(es);
      }
    }
    if SideBySide(es) {
      forall a, b | a in Names(es) && b in Names(es) ensures !Below(a, b) {
        var i :| 0 <= i < |es| && es[i].name == a;
        var j :| 0 <= j < |es| && es[j].name == b;
      }
    }
  }

  lemma CarriedFits(e: Entry, f: File, digest: Bytes -> string)
    requires Carries(e, f, digest)
    ensures Fits(f, e)
  {
  }

  lemma CarriedIsIntact(es: seq<Entry>, e: Entry, f: File, digest: Bytes -> string)
    requires DistinctEntries(es) && e in es && Carries(e, f, digest)
    ensures f.path in Names(es) && Intact(TreeOf(es), f, digest)
  {
    var i :| 0 <= i < |es| && es[i] == e;
    TreeContent(es, i);
  }

  lemma CarriedAreDeclared(fs: seq<File>, es: seq<Entry>, digest: Bytes -> string)
    requires EveryMemberListed(fs, es, digest)
    ensures forall e <- es :: Declared(fs, e)
  {
    forall e | e in es ensures Declared(fs, e) {
      var f :| f in fs && Carries(e, f, digest);
      CarriedFits(e, f, digest);
    }
  }

  lemma CarriedAreIntact(fs: seq<File>, es: seq<Entry>, digest: Bytes -> string)
    requires EveryFileThere(fs, es, digest) && DistinctEntries(es)
    ensures forall f <- fs :: f.path in Names(es) && Intact(TreeOf(es), f, digest)
  {
    forall f | f in fs ensures f.path in Names(es) && Intact(TreeOf(es), f, digest) {
      var e :| e in es && Carries(e, f, digest);
      CarriedIsIntact(es, e, f, digest);
    }
  }

  lemma DeclaredAreListed(fs: seq<File>, es: seq<Entry>, digest: Bytes -> string)
    requires DistinctEntries(es) && (forall e <- es :: Declared(fs, e))
    requires forall f <- fs :: Intact(TreeOf(es), f, digest)
    ensures EveryMemberListed(fs, es, digest)
  {
    forall e | e in es ensures exists f <- fs :: Carries(e, f, digest) {
      assert Declared(fs, e);
      var f :| f in fs && Fits(f, e);
      FitIsCarried(es, e, f, digest);
    }
  }

  lemma NamedAreThere(fs: seq<File>, es: seq<Entry>, digest: Bytes -> string)
    requires DistinctEntries(es) && (forall e <- es :: Declared(fs, e)) && PathsOf(fs) <= Names(es)
    requires DistinctPaths(fs) && forall f <- fs :: Intact(TreeOf(es), f, digest)
    ensures EveryFileThere(fs, es, digest)
  {
    forall f | f in fs ensures exists e <- es :: Carries(e, f, digest) {
      assert f.path in PathsOf(fs);
      var e :| e in es && e.name == f.path;
      assert Declared(fs, e);
      var g :| g in fs && Fits(g, e);
      assert g == f;
      FitIsCarried(es, e, f, digest);
    }
  }

  lemma FitIsCarried(es: seq<Entry>, e: Entry, f: File, digest: Bytes -> string)
    requires DistinctEntries(es) && e in es && Fits(f, e) && Intact(TreeOf(es), f, digest)
    ensures Carries(e, f, digest)
  {
    var i :| 0 <= i < |es| && es[i] == e;
    TreeContent(es, i);
  }

  lemma ImportableIff(fs: seq<File>, es: seq<Entry>, digest: Bytes -> string)
    requires DistinctPaths(fs)
    ensures Importable(fs, es, digest) <==>
            CarriesEach(fs, es, digest) && SideBySide(es) && FileTotal(fs) <= 34359738368
  {
    SideBySideIff(es);
    if Importable(fs, es, digest) {
      DeclaredAreListed(fs, es, digest);
      NamedAreThere(fs, es, digest);
      TotalsAgree(fs, es);
    } else if CarriesEach(fs, es, digest) && SideBySide(es) {
      CarriedAreDeclared(fs, es, digest);
      CarriedAreIntact(fs, es, digest);
      TotalsAgree(fs, es);
    }
  }

  ghost predicate SoundManifest(m: Manifest) {
    Complete(m) && Bound(m) && FilesFit(m) && NoRepeats(m)
  }

  /**
   What the import accepts, for every archive: a sound manifest whose exact bytes a
   trusted key verifies, made for this controller, and its files, each once and intact.
   */
  lemma AcceptedArchiveIff(archive: seq<Entry>, c: Codec, k: Controller)
    ensures AcceptedArchive(archive, c, k) <==>
            exists m :: && Begins(archive, c, k.trusted, m) && SoundManifest(m) && MadeFor(m, k)
                        && CarriesEach(m.files, archive[2..], c.digest) && SideBySide(archive[2..])
                        && FileTotal(m.files) <= 34359738368
  {
    forall m ensures SignedManifest(archive, c, k) == Some(m) <==> Begins(archive, c, k.trusted, m) {
      BeginsIff(archive, c, k, m);
    }
    forall m | Begins(archive, c, k.trusted, m)
      ensures ValidManifest(m) <==> SoundManifest(m)
      ensures Compatible(m, k) && BindingOk(m, k) <==> MadeFor(m, k)
      ensures ValidManifest(m) ==>
                (Importable(m.files, archive[2..], c.digest) <==>
                 CarriesEach(m.files, archive[2..], c.digest) && SideBySide(archive[2..]) &&
                 FileTotal(m.files) <= 34359738368) {
      ValidManifestIff(m);
      MadeForIff(m, k);
      if ValidManifest(m) {
        ImportableIff(m.files, archive[2..], c.digest);
      }
    }
  }

  // ----- the installed tree -----

  /** Manifest and signature, verified, and under each declared path bytes of the declared size and digest; no more. */
  ghost predicate Genuine(tree: Tree, m: Manifest, c: Codec, trusted: seq<TrustedKey>) {
    && tree.Keys == {"manifest.json", "manifest.sig"} + (set f <- m.files :: f.path)
    && (exists s :: c.decodeSignature(tree["manifest.sig"]) == Some(s) &&
                    Verified(tree["manifest.json"], s, c, trusted))
    && c.decode(tree["manifest.json"]) == Some(m)
    && (forall f <- m.files :: |tree[f.path]| == f.size as int && c.digest(tree[f.path]) == f.sha256)
    && FileTotal(m.files) <= 34359738368
  }

  lemma GenuineIff(tree: Tree, m: Manifest, c: Codec, trusted: seq<TrustedKey>)
    ensures SignedTree(tree, m, c, trusted) && HoldsExactly(tree, m.files, c.digest) <==> Genuine(tree, m, c, trusted)
  {
    if MANIFEST_NAME in tree && SIGNATURE_NAME in tree && c.decodeSignature(tree[SIGNATURE_NAME]).Some? {
      VerifiedIff(tree[MANIFEST_NAME], c.decodeSignature(tree[SIGNATURE_NAME]).value, c, trusted);
    }
  }

  /** What a complete release is, for every tree. */
  lemma CompleteReleaseIff(tree: Tree, m: Manifest, c: Codec, k: Controller)
    ensures CompleteRelease(tree, m, c, k) <==> SoundManifest(m) && MadeFor(m, k) && Genuine(tree, m, c, k.trusted)
  {
    ValidManifestIff(m);
    MadeForIff(m, k);
    GenuineIff(tree, m, c, k.trusted);
  }

  /** What is installed is genuine, and its manifest and signature are the archive's first two members. */
  lemma InstalledIsGenuine(archive: seq<Entry>, c: Codec, k: Controller, m: Manifest)
    requires AcceptedArchive(archive, c, k) && Begins(archive, c, k.trusted, m)
    ensures SoundManifest(m) && MadeFor(m, k) && Genuine(Installed(archive), m, c, k.trusted)
    ensures Holds(archive[0], "manifest.json", Installed(archive)["manifest.json"])
    ensures Holds(archive[1], "manifest.sig", Installed(archive)["manifest.sig"])
  {
    BeginsIff(archive, c, k, m);
    ImportIsSound(archive, c, k);
    CompleteReleaseIff(Installed(archive), m, c, k);
    HeadNamesDiffer();
    HeadIff(archive, 0, MANIFEST_NAME, Installed(archive)[MANIFEST_NAME]);
    HeadIff(archive, 1, SIGNATURE_NAME, Installed(archive)[SIGNATURE_NAME]);
  }
}