/**
 Importing a release bundle: the signed manifest first, then every member into
 a staging tree, and one rename at the end. An archive is the sequence of its
 members; JSON, signatures and digests are parameters.
 */
module ReleaseImport {
  import opened Common
  import opened Text
  import opened Paths
  import opened ArchiveExtract
  import opened ReleaseManifest

  type Tree = map<string, Bytes>

  datatype Signature = Signature(algorithm: string, keyId: string, signature: string)

  datatype TrustedKey = TrustedKey(id: string, publicKey: string)

  /** `verify` includes decoding the signature text and the checks on key and signature length. */
  datatype Codec = Codec(digest: Bytes -> string, decode: Bytes -> Option<Manifest>,
                         decodeSignature: Bytes -> Option<Signature>, verify: (string, Bytes, string) -> bool)

  /** The running controller; `executable` is the digest and size of its own file, when they can be read. */
  datatype Controller = Controller(trusted: seq<TrustedKey>, releaseVersion: string, siteApiVersion: string,
                                   schemaVersion: int, executable: Option<(string, int64)>)

  // ----- manifest and signature -----

  /** What reading a member to its end gives; an archive cut short gives nothing. */
  function MemberBytes(e: Entry): Option<Bytes> {
    if 0 <= e.size as int <= |e.bytes| then Some(e.bytes[..e.size]) else None
  }

  function HeadMember(archive: seq<Entry>, i: nat, name: string): Option<Bytes> {
    if i < |archive| && archive[i].name == name && archive[i].kind == Regular &&
       MemberBytes(archive[i]).Some? && |MemberBytes(archive[i]).value| <= MAX_MANIFEST
    then MemberBytes(archive[i]) else None
  }

  predicate SignedByTrusted(manifest: Bytes, s: Signature, c: Codec, trusted: seq<TrustedKey>) {
    && s.algorithm == "ed25519" && s.keyId != ""
    && exists key <- trusted :: key.id == s.keyId && c.verify(key.publicKey, manifest, s.signature)
  }

  predicate BindingOk(m: Manifest, k: Controller) {
    || m.controllerSha256 == ""
    || (k.executable.Some? && EqualFold(k.executable.value.0, m.controllerSha256) &&
        k.executable.value.1 == m.controllerSize)
  }

  predicate Compatible(m: Manifest, k: Controller) {
    && m.releaseVersion == k.releaseVersion && m.siteApiVersion == k.siteApiVersion
    && m.schemaVersion == k.schemaVersion && m.architecture == ARCHITECTURE
  }

  /** The decoded manifest, once its exact bytes are known to be signed by a trusted key. */
  function SignedManifest(archive: seq<Entry>, c: Codec, k: Controller): Option<Manifest> {
    var manifest, signature := HeadMember(archive, 0, MANIFEST_NAME), HeadMember(archive, 1, SIGNATURE_NAME);
    if manifest.None? || signature.None? then None
    else
      var s := c.decodeSignature(signature.value);
      if s.None? || !SignedByTrusted(manifest.value, s.value, c, k.trusted) then None
      else c.decode(manifest.value)
  }

  ghost predicate HeadAccepted(archive: seq<Entry>, c: Codec, k: Controller) {
    var m := SignedManifest(archive, c, k);
    m.Some? && ValidManifest(m.value) && Compatible(m.value, k) && BindingOk(m.value, k)
  }

  /** Everything checked before any member is extracted. */
  method ReadHead(archive: seq<Entry>, c: Codec, k: Controller) returns (r: Result<Manifest>)
    ensures r.Ok? <==> HeadAccepted(archive, c, k)
    ensures r.Ok? ==> |archive| >= 2 && SignedManifest(archive, c, k) == Some(r.value)
  {
    var m := SignedManifest(archive, c, k);
    if m.None? {
      return Err;
    }
    var valid := ValidateReleaseManifest(m.value);
    if !valid || !Compatible(m.value, k) || !BindingOk(m.value, k) {
      return Err;
    }
    return Ok(m.value);
  }

  // ----- what can be imported -----

  /** `path` lies below the directory `dir`. */
  predicate Below(path: string, dir: string) {
    HasPrefix(path, dir + "/")
  }

  /** A file and a directory cannot have the same path. */
  predicate Apart(a: string, b: string) {
    !Below(a, b) && !Below(b, a)
  }

  ghost predicate NoNesting(paths: set<string>) {
    forall a, b :: a in paths && b in paths ==> !Below(a, b)
  }

  /** A regular, complete member with a declared path and size. */
  predicate Fits(f: File, e: Entry) {
    e.kind == Regular && f.path == e.name && f.size == e.size && MemberBytes(e).Some?
  }

  ghost predicate DistinctEntries(es: seq<Entry>) {
    forall i, j :: 0 <= i < j < |es| ==> es[i].name != es[j].name
  }

  function Names(es: seq<Entry>): set<string> {
    set e <- es :: e.name
  }

  function PathsOf(fs: seq<File>): set<string> {
    set f <- fs :: f.path
  }

  ghost predicate Declared(fs: seq<File>, e: Entry) {
    exists f <- fs :: Fits(f, e)
  }

  /** All members declared, once each, none missing, within the limit, none below another. */
  ghost predicate Layable(fs: seq<File>, es: seq<Entry>) {
    && (forall e <- es :: Declared(fs, e))
    && DistinctEntries(es)
    && PathsOf(fs) <= Names(es)
    && TotalSize(es) <= MAX_BUNDLE as int
    && NoNesting(Names(es))
  }

  /** The tree the members spell. */
  function TreeOf(es: seq<Entry>): Tree {
    if es == [] then map[]
    else
      var e := es[|es| - 1];
      TreeOf(es[..|es| - 1])[e.name := if MemberBytes(e).Some? then MemberBytes(e).value else []]
  }

  predicate Intact(tree: Tree, f: File, digest: Bytes -> string) {
    f.path in tree && |tree[f.path]| == f.size as int && digest(tree[f.path]) == f.sha256
  }

  ghost predicate Importable(fs: seq<File>, es: seq<Entry>, digest: Bytes -> string) {
    Layable(fs, es) && forall f <- fs :: Intact(TreeOf(es), f, digest)
  }

  lemma {:induction false} TreeKeys(es: seq<Entry>)
    ensures TreeOf(es).Keys == Names(es)
  {
    if es != [] {
      var init, e := es[..|es| - 1], es[|es| - 1];
      TreeKeys(init);
      assert es == init + [e];
    }
  }

  /** Each member's own bytes are found under its name. */
  lemma {:induction false} TreeContent(es: seq<Entry>, i: nat)
    requires i < |es| && DistinctEntries(es) && MemberBytes(es[i]).Some?
    ensures es[i].name in TreeOf(es) && TreeOf(es)[es[i].name] == MemberBytes(es[i]).value
  {
    if i < |es| - 1 {
      TreeContent(es[..|es| - 1], i);
    }
  }

  /** Members already staged: the invariant of the import loop. */
  ghost predicate Staged(fs: seq<File>, es: seq<Entry>, tree: Tree) {
    && (forall e <- es :: Declared(fs, e))
    && DistinctEntries(es) && tree == TreeOf(es) && NoNesting(tree.Keys)
  }

  lemma DistinctStep(es: seq<Entry>, e: Entry)
    requires DistinctEntries(es) && e.name !in Names(es)
    ensures DistinctEntries(es + [e])
  {
    forall i | 0 <= i < |es| ensures es[i].name != e.name {
      assert es[i] in es;
    }
  }

  lemma NestingStep(paths: set<string>, path: string)
    requires NoNesting(paths) && forall q <- paths :: Apart(path, q)
    ensures NoNesting(paths + {path})
  {
    assert |path + "/"| > |path|;
  }

  lemma TreeStep(es: seq<Entry>, e: Entry)
    requires MemberBytes(e).Some?
    ensures TreeOf(es + [e]) == TreeOf(es)[e.name := MemberBytes(e).value]
  {
    assert (es + [e])[..|es|] == es;
  }

  lemma StagedStep(fs: seq<File>, es: seq<Entry>, i: nat, tree: Tree, f: File)
    requires i < |es| && Staged(fs, es[..i], tree) && f in fs && Fits(f, es[i])
    requires es[i].name !in tree && forall q <- tree :: Apart(es[i].name, q)
    ensures Staged(fs, es[..i + 1], tree[es[i].name := MemberBytes(es[i]).value])
  {
    var e := es[i];
    assert es[..i + 1] == es[..i] + [e];
    TreeKeys(es[..i]);
    DistinctStep(es[..i], e);
    TreeStep(es[..i], e);
    NestingStep(tree.Keys, e.name);
    assert tree[e.name := MemberBytes(e).value].Keys == tree.Keys + {e.name};
    assert Declared(fs, e);
  }

  lemma RepeatedName(es: seq<Entry>, i: nat)
    requires i < |es| && es[i].name in Names(es[..i])
    ensures !DistinctEntries(es)
  {
    var x :| x in es[..i] && x.name == es[i].name;
    var j :| 0 <= j < i && es[..i][j] == x;
    assert es[j].name == es[i].name;
  }

  lemma NestedName(es: seq<Entry>, i: nat, q: string)
    requires i < |es| && q in Names(es[..i]) && !Apart(es[i].name, q)
    ensures !NoNesting(Names(es))
  {
    assert es[i] in es && es[i].name in Names(es) && q in Names(es);
  }

  lemma TooLarge(fs: seq<File>, es: seq<Entry>, i: nat)
    requires i < |es| && TotalSize(es[..i]) + es[i].size as int > MAX_BUNDLE as int
    ensures !Layable(fs, es)
  {
    if Layable(fs, es) {
      forall e <- es ensures e.size >= 0 {
        assert Declared(fs, e);
      }
      TotalSizeStep(es, i);
      TotalGrows(es, i + 1);
    }
  }

  /** Why the loop may turn a member away. */
  ghost predicate Refused(fs: seq<File>, e: Entry, tree: Tree, total: int) {
    || !Declared(fs, e) || e.name in tree || total + e.size as int > MAX_BUNDLE as int
    || exists q <- tree :: !Apart(e.name, q)
  }

  /** Such a member cannot be part of a layable archive. */
  lemma RefusedEntry(fs: seq<File>, es: seq<Entry>, i: nat, tree: Tree)
    requires i < |es| && tree == TreeOf(es[..i]) && Refused(fs, es[i], tree, TotalSize(es[..i]))
    ensures !Layable(fs, es)
  {
    var e := es[i];
    assert e in es;
    TreeKeys(es[..i]);
    if e.name in tree {
      RepeatedName(es, i);
    } else if exists q <- tree :: !Apart(e.name, q) {
      var q :| q in tree && !Apart(e.name, q);
      NestedName(es, i, q);
    } else if Declared(fs, e) {
      TooLarge(fs, es, i);
    }
  }

  lemma SameCount<T>(a: set<T>, b: set<T>)
    requires a <= b
    ensures |a| == |b| <==> b <= a
  {
    assert |b - a| == |b| - |a|;
    assert b - a == {} <==> b <= a;
  }

  lemma NamesAreDeclared(fs: seq<File>, es: seq<Entry>)
    requires forall e <- es :: Declared(fs, e)
    ensures Names(es) <= PathsOf(fs)
  {
    forall e <- es ensures e.name in PathsOf(fs) {
      assert Declared(fs, e);
    }
  }

  lemma IndexKeys(expected: map<string, File>, fs: seq<File>)
    requires Indexed(expected, fs)
    ensures expected.Keys == PathsOf(fs)
  {
  }

  /** At the end of the archive, counting the members seen settles it. */
  lemma CountSettles(fs: seq<File>, es: seq<Entry>, tree: Tree, expected: map<string, File>)
    requires Staged(fs, es, tree) && TotalSize(es) <= MAX_BUNDLE as int && Indexed(expected, fs)
    ensures |tree.Keys| == |expected.Keys| <==> Layable(fs, es)
  {
    var names, paths := Names(es), PathsOf(fs);
    assert tree.Keys == names by { TreeKeys(es); }
    assert expected.Keys == paths by { IndexKeys(expected, fs); }
    assert |names| == |paths| <==> paths <= names by {
      NamesAreDeclared(fs, es);
      SameCount(names, paths);
    }
  }

  // ----- staging -----

  /** The map of declared files; a repeated path would keep the last. */
  method Expected(fs: seq<File>) returns (expected: map<string, File>)
    requires DistinctPaths(fs)
    ensures Indexed(expected, fs)
  {
    expected := map[];
    for i := 0 to |fs|
      invariant Indexed(expected, fs[..i])
    {
      IndexStep(expected, fs[..i], fs[i]);
      assert fs[..i + 1] == fs[..i] + [fs[i]];
      expected := expected[fs[i].path := fs[i]];
    }
    assert fs[..|fs|] == fs;
  }

  /** The header checks of one member, and its copy through the exact reader. */
  method StageMember(expected: map<string, File>, ghost fs: seq<File>, e: Entry, tree: Tree, total: int64,
                     fails: Failures, call: nat)
    returns (r: Result<Bytes>, fault: bool)
    requires Indexed(expected, fs) && 0 <= total <= MAX_BUNDLE
    requires forall f <- fs :: 0 <= f.size <= MAX_FILE && BundlePath(f.path)
    ensures r.Ok? ==> e.name in expected && Fits(expected[e.name], e) && r.value == MemberBytes(e).value
    ensures r.Ok? ==> e.name !in tree && (forall q <- tree :: Apart(e.name, q)) &&
                      total as int + e.size as int <= MAX_BUNDLE as int
    ensures r.Err? && !fault ==> Refused(fs, e, tree, total as int)
    ensures fault ==> Fails(fails)
  {
    r, fault := Err, false;
    if e.kind != Regular || e.name !in expected || e.name in tree {
      return;
    }
    if e.size != expected[e.name].size || e.size < 0 || e.size > MAX_FILE {
      return;
    }
    if total > MAX_BUNDLE - e.size {
      return;
    }
    if !BundlePath(e.name) || exists q <- tree :: !Apart(e.name, q) {
      return;
    }
    r, fault := CopyExact(e.bytes, e.size, fails(call));
    if r.Ok? && fails(call + 1) {
      r, fault := Err, true;
    }
  }

  /** The import loop. Without a host fault it succeeds exactly on layable members. */
  method StageMembers(expected: map<string, File>, ghost fs: seq<File>, es: seq<Entry>, fails: Failures)
    returns (r: Result<Tree>, fault: bool)
    requires Indexed(expected, fs) && forall f <- fs :: 0 <= f.size <= MAX_FILE && BundlePath(f.path)
    ensures r.Ok? ==> Layable(fs, es) && r.value == TreeOf(es)
    ensures !fault ==> (r.Ok? <==> Layable(fs, es))
    ensures fault ==> Fails(fails)
  {
    var tree: Tree, total: int64 := map[], 0;
    r, fault := Err, false;
    for i := 0 to |es|
      invariant r == Err && !fault && 0 <= total <= MAX_BUNDLE && total as int == TotalSize(es[..i])
      invariant Staged(fs, es[..i], tree)
    {
      var staged, failed := StageMember(expected, fs, es[i], tree, total, fails, 2 + 2 * i);
      if staged.Err? {
        if !failed {
          RefusedEntry(fs, es, i, tree);
        }
        return Err, failed;
      }
      TotalSizeStep(es, i);
      StagedStep(fs, es, i, tree, expected[es[i].name]);
      total := total + es[i].size;
      tree := tree[es[i].name := staged.value];
    }
    assert es[..|es|] == es;
    CountSettles(fs, es, tree, expected);
    if |tree.Keys| != |expected.Keys| {
      return;
    }
    return Ok(tree), false;
  }

  /** The digest loop over the declared files, in whatever order the map is visited. */
  method CheckDigests(expected: map<string, File>, fs: seq<File>, tree: Tree, digest: Bytes -> string,
                      fails: Failures, call: nat)
    returns (ok: bool, fault: bool)
    requires Indexed(expected, fs)
    ensures ok ==> forall f <- fs :: Intact(tree, f, digest)
    ensures !fault && !ok ==> exists f <- fs :: !Intact(tree, f, digest)
    ensures fault ==> !ok && Fails(fails)
  {
    var todo, read: nat := expected.Keys, call;
    while todo != {}
      invariant todo <= expected.Keys
      invariant forall p <- expected.Keys - todo :: Intact(tree, expected[p], digest)
      decreases |todo|
    {
      var path :| path in todo;
      if fails(read) {
        return false, true;
      }
      read := read + 1;
      if !Intact(tree, expected[path], digest) {
        return false, false;
      }
      todo := todo - {path};
    }
    return true, false;
  }

  // ----- the import -----

  /** The tree an accepted archive is installed as. */
  function Installed(archive: seq<Entry>): Tree
    requires HeadMember(archive, 0, MANIFEST_NAME).Some? && HeadMember(archive, 1, SIGNATURE_NAME).Some?
  {
    WithHead(TreeOf(archive[2..]), HeadMember(archive, 0, MANIFEST_NAME).value,
             HeadMember(archive, 1, SIGNATURE_NAME).value)
  }

  ghost predicate AcceptedArchive(archive: seq<Entry>, c: Codec, k: Controller) {
    && HeadAccepted(archive, c, k)
    && Importable(SignedManifest(archive, c, k).value.files, archive[2..], c.digest)
  }

  /** A trusted key of the signature's key id verifies exactly the bytes of the first member. */
  ghost predicate VerifiedMember(archive: seq<Entry>, c: Codec, trusted: seq<TrustedKey>) {
    && |archive| >= 2 && 0 <= archive[0].size as int <= |archive[0].bytes|
    && 0 <= archive[1].size as int <= |archive[1].bytes|
    && exists key, s :: key in trusted && c.decodeSignature(archive[1].bytes[..archive[1].size]) == Some(s) &&
                        key.id == s.keyId && c.verify(key.publicKey, archive[0].bytes[..archive[0].size], s.signature)
  }

  lemma SignedIsVerified(archive: seq<Entry>, c: Codec, k: Controller)
    requires SignedManifest(archive, c, k).Some?
    ensures VerifiedMember(archive, c, k.trusted)
  {
  }

  class ReleaseStore {
    /** The tree at the destination path, when there is one. */
    var destination: Option<Tree>

    /**
     `ImportReleaseBundle`. `fault` reports a failed host operation. On an error
     the destination is as it was; without a fault, success is exactly an
     accepted archive and a free destination.
     */
    method ImportReleaseBundle(archive: seq<Entry>, c: Codec, k: Controller, fails: Failures)
      returns (r: Result<Manifest>, fault: bool)
      modifies this
      ensures fault ==> r.Err? && Fails(fails)
      ensures r.Err? ==> destination == old(destination)
      ensures r.Ok? ==> old(destination).None? && AcceptedArchive(archive, c, k) &&
                        SignedManifest(archive, c, k) == Some(r.value)
      ensures r.Ok? ==> destination == Some(Installed(archive))
      ensures !fault ==> (r.Ok? <==> old(destination).None? && AcceptedArchive(archive, c, k))
      ensures r.Ok? ==> VerifiedMember(archive, c, k.trusted)
    {
      r, fault := Err, false;
      if k.trusted == [] || destination.Some? {
        return;
      }
      var head := ReadHead(archive, c, k);
      if head.Err? {
        return;
      }
      var m := head.value;
      SignedIsVerified(archive, c, k);
      if fails(0) {
        fault := true;
        return;
      }
      var expected := Expected(m.files);
      assert forall f <- m.files :: FileOk(m, f);
      var staged, failed := StageMembers(expected, m.files, archive[2..], fails);
      if staged.Err? {
        fault := failed;
        return;
      }
      var intact, unreadable := CheckDigests(expected, m.files, staged.value, c.digest, fails, 2 + 2 * |archive|);
      if !intact {
        fault := unreadable;
        return;
      }
      if fails(1) {
        fault := true;
        return;
      }
      destination := Some(WithHead(staged.value, HeadMember(archive, 0, MANIFEST_NAME).value,
                                   HeadMember(archive, 1, SIGNATURE_NAME).value));
      return Ok(m), false;
    }
  }

  // ----- what an installed tree is -----

  function FileTotal(fs: seq<File>): int {
    if fs == [] then 0 else FileTotal(fs[..|fs| - 1]) + fs[|fs| - 1].size as int
  }

  ghost predicate SignedTree(tree: Tree, m: Manifest, c: Codec, trusted: seq<TrustedKey>) {
    && MANIFEST_NAME in tree && SIGNATURE_NAME in tree && c.decode(tree[MANIFEST_NAME]) == Some(m)
    && c.decodeSignature(tree[SIGNATURE_NAME]).Some?
    && SignedByTrusted(tree[MANIFEST_NAME], c.decodeSignature(tree[SIGNATURE_NAME]).value, c, trusted)
  }

  ghost predicate HoldsExactly(tree: Tree, fs: seq<File>, digest: Bytes -> string) {
    && tree.Keys == {MANIFEST_NAME, SIGNATURE_NAME} + PathsOf(fs)
    && (forall f <- fs :: Intact(tree, f, digest))
    && FileTotal(fs) <= MAX_BUNDLE as int
  }

  /** Signed by a trusted key, holding exactly the declared files, each as declared, within the limit. */
  ghost predicate CompleteRelease(tree: Tree, m: Manifest, c: Codec, k: Controller) {
    && SignedTree(tree, m, c, k.trusted) && ValidManifest(m) && Compatible(m, k) && BindingOk(m, k)
    && HoldsExactly(tree, m.files, c.digest)
  }

  lemma HeadNames()
    ensures '/' !in MANIFEST_NAME && '/' !in SIGNATURE_NAME && MANIFEST_NAME !in TREES && SIGNATURE_NAME !in TREES
  {
    assert MANIFEST_NAME[0] == 'm' && SIGNATURE_NAME[0] == 'm';
    assert "artifacts"[0] == 'a' && "evidence"[0] == 'e' && "companion"[0] == 'c';
  }

  lemma BelowHasSlash(path: string, dir: string)
    requires Below(path, dir)
    ensures '/' in path
  {
    assert path[..|dir| + 1] == dir + "/";
    assert path[|dir|] == (dir + "/")[|dir|];
  }

  lemma TopLevelIsApart(path: string, name: string)
    requires InTrees(path) && '/' !in name && name !in TREES
    ensures path != name && Apart(path, name)
  {
    SplitWhole(name, '/');
    if Below(path, name) {
      FirstComponent(path, name);
    }
    if Below(name, path) {
      BelowHasSlash(name, path);
    }
  }

  /** Members never touch the manifest or the signature. */
  lemma HeadNamesAreNotMembers(path: string)
    requires BundlePath(path)
    ensures path != MANIFEST_NAME && path != SIGNATURE_NAME && Apart(path, MANIFEST_NAME) && Apart(path, SIGNATURE_NAME)
  {
    BundlePathIff(path);
    HeadNames();
    TopLevelIsApart(path, MANIFEST_NAME);
    TopLevelIsApart(path, SIGNATURE_NAME);
  }

  lemma {:induction false} FileTotalConcat(a: seq<File>, b: seq<File>)
    ensures FileTotal(a + b) == FileTotal(a) + FileTotal(b)
    decreases |b|
  {
    if b == [] {
      assert a + b == a;
    } else {
      var init := b[..|b| - 1];
      FileTotalConcat(a, init);
      assert (a + b)[..|a + b| - 1] == a + init;
    }
  }

  lemma FileTotalOne(f: File)
    ensures FileTotal([f]) == f.size as int
  {
    assert [f][..0] == [];
  }

  function Without(fs: seq<File>, j: nat): seq<File>
    requires j < |fs|
  {
    fs[..j] + fs[j + 1..]
  }

  lemma FileTotalAround(a: seq<File>, x: File, b: seq<File>)
    ensures FileTotal(a + ([x] + b)) == FileTotal(a + b) + x.size as int
  {
    FileTotalConcat(a, [x] + b);
    FileTotalConcat([x], b);
    FileTotalConcat(a, b);
    FileTotalOne(x);
  }

  lemma Pieces<T>(s: seq<T>, j: nat)
    requires j < |s|
    ensures s[..j] + ([s[j]] + s[j + 1..]) == s
  {
  }

  lemma FileTotalRemove(fs: seq<File>, j: nat)
    requires j < |fs|
    ensures FileTotal(fs) == FileTotal(Without(fs, j)) + fs[j].size as int
  {
    FileTotalAround(fs[..j], fs[j], fs[j + 1..]);
    Pieces(fs, j);
  }

  lemma WithoutKeeps(fs: seq<File>, j: nat, f: File)
    requires j < |fs| && DistinctPaths(fs)
    ensures f in Without(fs, j) <==> f in fs && f.path != fs[j].path
  {
    if f in fs {
      var i :| 0 <= i < |fs| && fs[i] == f;
      if i < j {
        assert Without(fs, j)[i] == f;
      } else if i > j {
        assert Without(fs, j)[i - 1] == f;
      }
    }
  }

  lemma WithoutDistinct(fs: seq<File>, j: nat)
    requires j < |fs| && DistinctPaths(fs)
    ensures DistinctPaths(Without(fs, j))
  {
  }

  lemma StillDeclared(fs: seq<File>, j: nat, e: Entry)
    requires j < |fs| && DistinctPaths(fs) && Declared(fs, e) && e.name != fs[j].path
    ensures Declared(Without(fs, j), e)
  {
    var f :| f in fs && Fits(f, e);
    WithoutKeeps(fs, j, f);
  }

  lemma StillNamed(fs: seq<File>, j: nat, es: seq<Entry>, f: File)
    requires j < |fs| && DistinctPaths(fs) && f in Without(fs, j)
    requires es != [] && fs[j].path == es[|es| - 1].name && PathsOf(fs) <= Names(es)
    ensures f.path in Names(es[..|es| - 1])
  {
    WithoutKeeps(fs, j, f);
    assert f.path in PathsOf(fs);
    var e :| e in es && e.name == f.path;
    assert e in es[..|es| - 1];
  }

  lemma FirstPath(fs: seq<File>)
    requires fs != []
    ensures fs[0].path in PathsOf(fs)
  {
    assert fs[0] in fs;
  }

  /** The members' sizes add up to the declared ones. */
  lemma {:induction false} TotalsAgree(fs: seq<File>, es: seq<Entry>)
    requires DistinctPaths(fs) && DistinctEntries(es)
    requires (forall e <- es :: Declared(fs, e)) && PathsOf(fs) <= Names(es)
    ensures FileTotal(fs) == TotalSize(es)
    decreases |es|
  {
    if es == [] {
      if fs != [] {
        FirstPath(fs);
      }
    } else {
      var last, init := es[|es| - 1], es[..|es| - 1];
      assert Declared(fs, last);
      var f :| f in fs && Fits(f, last);
      var j :| 0 <= j < |fs| && fs[j] == f;
      FileTotalRemove(fs, j);
      WithoutDistinct(fs, j);
      forall i | 0 <= i < |init| ensures Declared(Without(fs, j), init[i]) {
        assert es[i] in es;
        StillDeclared(fs, j, es[i]);
      }
      forall g <- Without(fs, j) ensures g.path in Names(init) {
        StillNamed(fs, j, es, g);
      }
      TotalsAgree(Without(fs, j), init);
    }
  }

  lemma LayableNames(fs: seq<File>, es: seq<Entry>)
    requires Layable(fs, es) && DistinctPaths(fs)
    ensures TreeOf(es).Keys == PathsOf(fs) && FileTotal(fs) == TotalSize(es)
  {
    TreeKeys(es);
    NamesAreDeclared(fs, es);
    TotalsAgree(fs, es);
  }

  lemma HeadNamesDiffer()
    ensures MANIFEST_NAME != SIGNATURE_NAME
  {
    assert |MANIFEST_NAME| != |SIGNATURE_NAME|;
  }

  function WithHead(tree: Tree, manifest: Bytes, signature: Bytes): Tree {
    tree[MANIFEST_NAME := manifest][SIGNATURE_NAME := signature]
  }

  lemma HeadKeeps(tree: Tree, manifest: Bytes, signature: Bytes, f: File, digest: Bytes -> string)
    requires BundlePath(f.path) && Intact(tree, f, digest)
    ensures Intact(WithHead(tree, manifest, signature), f, digest)
  {
    HeadNamesAreNotMembers(f.path);
  }

  lemma InstalledMembers(fs: seq<File>, es: seq<Entry>, manifest: Bytes, signature: Bytes, digest: Bytes -> string)
    requires Importable(fs, es, digest) && DistinctPaths(fs) && forall f <- fs :: BundlePath(f.path)
    ensures HoldsExactly(WithHead(TreeOf(es), manifest, signature), fs, digest)
  {
    LayableNames(fs, es);
    var tree := WithHead(TreeOf(es), manifest, signature);
    assert tree.Keys == TreeOf(es).Keys + {MANIFEST_NAME, SIGNATURE_NAME};
    forall f <- fs ensures Intact(tree, f, digest) {
      HeadKeeps(TreeOf(es), manifest, signature, f, digest);
    }
  }

  lemma InstalledHead(archive: seq<Entry>, c: Codec, k: Controller)
    requires SignedManifest(archive, c, k).Some?
    ensures SignedTree(Installed(archive), SignedManifest(archive, c, k).value, c, k.trusted)
  {
    HeadNamesDiffer();
  }

  /** Soundness: whatever the archive, what import installs is a complete release. */
  lemma ImportIsSound(archive: seq<Entry>, c: Codec, k: Controller)
    requires AcceptedArchive(archive, c, k)
    ensures CompleteRelease(Installed(archive), SignedManifest(archive, c, k).value, c, k)
  {
    InstalledHead(archive, c, k);
    var m := SignedManifest(archive, c, k).value;
    assert forall f <- m.files :: FileOk(m, f);
    InstalledMembers(m.files, archive[2..], HeadMember(archive, 0, MANIFEST_NAME).value,
                     HeadMember(archive, 1, SIGNATURE_NAME).value, c.digest);
  }
}
