/**
 Building a release bundle from qualified inputs, and the round trip through
 import.
 */
module ReleaseBuild {
  import opened Common
  import opened Text
  import opened Paths
  import opened ArchiveExtract
  import opened ReleaseManifest
  import opened ReleaseImport

  // ----- sorting by path -----

  /** String order, as Go compares strings. */
  predicate Less(a: string, b: string) {
    b != "" && (a == "" || a[0] < b[0] || (a[0] == b[0] && Less(a[1..], b[1..])))
  }

  /** They agree up to a point where the first ends or has the smaller character. */
  predicate FirstDifference(a: string, b: string, i: nat) {
    && i <= |a| && i < |b| && a[..i] == b[..i]
    && (i == |a| || a[i] < b[i])
  }

  lemma FirstCharacters(a: string, b: string)
    requires a != "" && b != ""
    ensures forall i: nat | FirstDifference(a, b, i) :: a[0] <= b[0]
  {
    forall i: nat | FirstDifference(a, b, i) ensures a[0] <= b[0] {
      assert i > 0 ==> a[..i][0] == a[0] && b[..i][0] == b[0];
    }
  }

  lemma {:induction false} LessIff(a: string, b: string)
    ensures Less(a, b) <==> exists i :: FirstDifference(a, b, i)
    decreases |a|
  {
    if a != "" && b != "" {
      FirstCharacters(a, b);
    }
    if b != "" {
      if a == "" || a[0] < b[0] {
        assert FirstDifference(a, b, 0);
      } else if a[0] == b[0] {
        LessIff(a[1..], b[1..]);
        if i: nat :| FirstDifference(a[1..], b[1..], i) {
          assert a[..i + 1] == [a[0]] + a[1..][..i] && b[..i + 1] == [b[0]] + b[1..][..i];
          assert FirstDifference(a, b, i + 1);
        }
        if i: nat :| FirstDifference(a, b, i) {
          assert i > 0;
          assert a[1..][..i - 1] == a[..i][1..] && b[1..][..i - 1] == b[..i][1..];
          assert FirstDifference(a[1..], b[1..], i - 1);
        }
      }
    }
  }

  function InsertBy<T>(s: seq<T>, x: T, key: T -> string): (r: seq<T>)
    ensures |r| == |s| + 1
  {
    if s == [] || !Less(key(s[0]), key(x)) then [x] + s else [s[0]] + InsertBy(s[1..], x, key)
  }

  /** Insertion sort on a string key. */
  function SortBy<T>(s: seq<T>, key: T -> string): (r: seq<T>)
    ensures |r| == |s|
  {
    if s == [] then [] else InsertBy(SortBy(s[1..], key), s[0], key)
  }

  lemma {:induction false} InsertByKeeps<T>(s: seq<T>, x: T, key: T -> string)
    ensures multiset(InsertBy(s, x, key)) == multiset(s) + multiset{x}
  {
    if s != [] && Less(key(s[0]), key(x)) {
      InsertByKeeps(s[1..], x, key);
      assert s == [s[0]] + s[1..];
    }
  }

  lemma {:induction false} SortByKeeps<T>(s: seq<T>, key: T -> string)
    ensures multiset(SortBy(s, key)) == multiset(s)
  {
    if s != [] {
      SortByKeeps(s[1..], key);
      InsertByKeeps(SortBy(s[1..], key), s[0], key);
      assert s == [s[0]] + s[1..];
    }
  }

  lemma {:induction false} LessTransitive(a: string, b: string, c: string)
    requires !Less(b, a) && !Less(c, b)
    ensures !Less(c, a)
    decreases |a|
  {
    if a != "" && c != "" && a[0] == c[0] && b != "" && a[0] == b[0] {
      LessTransitive(a[1..], b[1..], c[1..]);
    }
  }

  lemma {:induction false} LessAntisymmetric(a: string, b: string)
    requires Less(a, b)
    ensures !Less(b, a)
    decreases |a|
  {
    if a != "" && a[0] == b[0] {
      LessAntisymmetric(a[1..], b[1..]);
    }
  }

  predicate SortedBy<T>(s: seq<T>, key: T -> string) {
    forall i, j :: 0 <= i < j < |s| ==> !Less(key(s[j]), key(s[i]))
  }

  lemma {:induction false} InsertBySorts<T>(s: seq<T>, x: T, key: T -> string)
    requires SortedBy(s, key)
    ensures SortedBy(InsertBy(s, x, key), key)
  {
    if s != [] {
      var r := InsertBy(s, x, key);
      if Less(key(s[0]), key(x)) {
        InsertBySorts(s[1..], x, key);
        InsertByKeeps(s[1..], x, key);
        forall j | 1 <= j < |r| ensures !Less(key(r[j]), key(r[0])) {
          var y := r[j];
          assert y in multiset(InsertBy(s[1..], x, key));
          if y == x {
            LessAntisymmetric(key(s[0]), key(x));
          } else {
            assert y in s[1..];
          }
        }
      } else {
        forall j | 1 <= j < |r| ensures !Less(key(r[j]), key(r[0])) {
          if j > 1 {
            LessTransitive(key(x), key(s[0]), key(s[j - 1]));
          }
        }
      }
    }
  }

  lemma {:induction false} SortBySorts<T>(s: seq<T>, key: T -> string)
    ensures SortedBy(SortBy(s, key), key)
  {
    if s != [] {
      SortBySorts(s[1..], key);
      InsertBySorts(SortBy(s[1..], key), s[0], key);
    }
  }

  // ----- the sorted order is the only one -----

  lemma {:induction false} LessIsTotal(a: string, b: string)
    requires !Less(a, b) && !Less(b, a)
    ensures a == b
    decreases |a|
  {
    if a != "" && b != "" {
      LessIsTotal(a[1..], b[1..]);
      assert a == [a[0]] + a[1..] && b == [b[0]] + b[1..];
    }
  }

  ghost predicate DistinctBy<T>(s: seq<T>, key: T -> string) {
    forall i, j :: 0 <= i < j < |s| ==> key(s[i]) != key(s[j])
  }

  lemma FirstIsSame<T>(a: seq<T>, b: seq<T>, key: T -> string)
    requires multiset(a) == multiset(b) && a != [] && b != []
    requires SortedBy(a, key) && SortedBy(b, key) && DistinctBy(a, key)
    ensures a[0] == b[0]
  {
    assert b[0] in multiset(a) && a[0] in multiset(b);
    var i :| 0 <= i < |a| && a[i] == b[0];
    var j :| 0 <= j < |b| && b[j] == a[0];
    if i > 0 && j > 0 {
      LessIsTotal(key(a[0]), key(b[0]));
    }
  }

  lemma RestOf<T>(s: seq<T>)
    requires s != []
    ensures s == [s[0]] + s[1..] && multiset(s[1..]) == multiset(s) - multiset{s[0]}
  {
    assert s == [s[0]] + s[1..];
  }

  /** Two sorted arrangements of the same elements are equal when their keys are distinct. */
  lemma {:induction false} SortedOrderIsUnique<T>(a: seq<T>, b: seq<T>, key: T -> string)
    requires multiset(a) == multiset(b) && SortedBy(a, key) && SortedBy(b, key) && DistinctBy(a, key)
    ensures a == b
    decreases |a|
  {
    assert |multiset(a)| == |a| && |multiset(b)| == |b|;
    if a != [] {
      FirstIsSame(a, b, key);
      RestOf(a);
      RestOf(b);
      SortedOrderIsUnique(a[1..], b[1..], key);
    }
  }

  ghost function KeysOf<T>(s: seq<T>, key: T -> string): set<string> {
    set x <- s :: key(x)
  }

  lemma DistinctSnoc<T>(s: seq<T>, x: T, key: T -> string)
    ensures DistinctBy(s + [x], key) <==> DistinctBy(s, key) && key(x) !in KeysOf(s, key)
    ensures KeysOf(s + [x], key) == KeysOf(s, key) + {key(x)}
  {
    var all := s + [x];
    if key(x) in KeysOf(s, key) {
      var y :| y in s && key(y) == key(x);
      var i :| 0 <= i < |s| && s[i] == y;
      assert all[i] == y && all[|s|] == x;
    } else {
      forall i | 0 <= i < |s| ensures key(s[i]) != key(x) {
        assert s[i] in s;
      }
    }
    if DistinctBy(all, key) {
      assert forall i :: 0 <= i < |s| ==> all[i] == s[i];
    }
  }

  lemma {:induction false} DistinctIffCounted<T>(s: seq<T>, key: T -> string)
    ensures |KeysOf(s, key)| <= |s| && (DistinctBy(s, key) <==> |KeysOf(s, key)| == |s|)
  {
    if s != [] {
      var init, last := s[..|s| - 1], s[|s| - 1];
      DistinctIffCounted(init, key);
      assert s == init + [last];
      DistinctSnoc(init, last, key);
    }
  }

  lemma DistinctInAnyOrder<T>(a: seq<T>, b: seq<T>, key: T -> string)
    requires multiset(a) == multiset(b)
    ensures DistinctBy(a, key) <==> DistinctBy(b, key)
  {
    assert |multiset(a)| == |a| && |multiset(b)| == |b|;
    assert forall x :: x in a <==> x in multiset(a);
    assert forall x :: x in b <==> x in multiset(b);
    assert KeysOf(a, key) == KeysOf(b, key);
    DistinctIffCounted(a, key);
    DistinctIffCounted(b, key);
  }

  /** `sort.Slice`, of which nothing is known but that the result is a sorted arrangement of its input. */
  method SortSlice<T>(s: seq<T>, key: T -> string) returns (r: seq<T>)
    ensures multiset(r) == multiset(s) && SortedBy(r, key)
  {
    SortByKeeps(s, key);
    SortBySorts(s, key);
    r := SortBy(s, key);
  }

  /** With distinct keys, which can be seen on either side, that is the order of `SortBy`. */
  lemma SortedSlice<T>(s: seq<T>, r: seq<T>, key: T -> string)
    requires multiset(r) == multiset(s) && SortedBy(r, key)
    ensures DistinctBy(r, key) <==> DistinctBy(SortBy(s, key), key)
    ensures DistinctBy(s, key) <==> DistinctBy(r, key)
    ensures DistinctBy(r, key) ==> r == SortBy(s, key)
  {
    SortByKeeps(s, key);
    SortBySorts(s, key);
    DistinctInAnyOrder(r, SortBy(s, key), key);
    DistinctInAnyOrder(s, r, key);
    if DistinctBy(r, key) {
      SortedOrderIsUnique(r, SortBy(s, key), key);
    }
  }

  // ----- members -----

  datatype Member = Member(path: string, bytes: Bytes, kind: string, artifact: string)

  predicate Small(x: Member) {
    |x.bytes| <= MAX_FILE as int
  }

  predicate AllSmall(xs: seq<Member>) {
    forall i :: 0 <= i < |xs| ==> Small(xs[i])
  }

  function FileOf(x: Member, digest: Bytes -> string): File
    requires Small(x)
  {
    File(x.path, digest(x.bytes), |x.bytes| as int64, x.kind, x.artifact)
  }

  function EntryOf(x: Member): Entry
    requires Small(x)
  {
    Entry(x.path, Regular, |x.bytes| as int64, x.bytes)
  }

  function FilesOf(xs: seq<Member>, digest: Bytes -> string): (r: seq<File>)
    requires AllSmall(xs)
    ensures |r| == |xs| && forall i :: 0 <= i < |xs| ==> r[i] == FileOf(xs[i], digest)
  {
    if xs == [] then [] else [FileOf(xs[0], digest)] + FilesOf(xs[1..], digest)
  }

  function EntriesOf(xs: seq<Member>): (r: seq<Entry>)
    requires AllSmall(xs)
    ensures |r| == |xs| && forall i :: 0 <= i < |xs| ==> r[i] == EntryOf(xs[i])
  {
    if xs == [] then [] else [EntryOf(xs[0])] + EntriesOf(xs[1..])
  }

  function MemberPath(x: Member): string { x.path }

  function FilePath(f: File): string { f.path }

  function Sorted(xs: seq<Member>): seq<Member> {
    SortBy(xs, MemberPath)
  }

  lemma {:induction false} InsertCommutes(xs: seq<Member>, x: Member, digest: Bytes -> string)
    requires AllSmall(xs) && Small(x)
    ensures AllSmall(InsertBy(xs, x, MemberPath))
    ensures InsertBy(FilesOf(xs, digest), FileOf(x, digest), FilePath) == FilesOf(InsertBy(xs, x, MemberPath), digest)
  {
    if xs != [] && Less(xs[0].path, x.path) {
      InsertCommutes(xs[1..], x, digest);
      assert FilesOf(xs, digest)[1..] == FilesOf(xs[1..], digest);
      assert InsertBy(xs, x, MemberPath) == [xs[0]] + InsertBy(xs[1..], x, MemberPath);
    }
  }

  /** Sorting the file list and sorting the members give the same order. */
  lemma {:induction false} SortCommutes(xs: seq<Member>, digest: Bytes -> string)
    requires AllSmall(xs)
    ensures AllSmall(Sorted(xs)) && SortBy(FilesOf(xs, digest), FilePath) == FilesOf(Sorted(xs), digest)
  {
    if xs != [] {
      SortCommutes(xs[1..], digest);
      assert FilesOf(xs, digest)[1..] == FilesOf(xs[1..], digest);
      InsertCommutes(Sorted(xs[1..]), xs[0], digest);
    }
  }

  // ----- total size -----

  function MemberTotal(xs: seq<Member>): int {
    if xs == [] then 0 else |xs[0].bytes| + MemberTotal(xs[1..])
  }

  lemma {:induction false} MemberTotalSnoc(xs: seq<Member>, x: Member)
    ensures MemberTotal(xs + [x]) == MemberTotal(xs) + |x.bytes|
  {
    if xs == [] {
      assert [] + [x] == [x] && [x][1..] == [];
    } else {
      assert (xs + [x])[0] == xs[0] && (xs + [x])[1..] == xs[1..] + [x];
      MemberTotalSnoc(xs[1..], x);
    }
  }

  lemma {:induction false} InsertTotal(xs: seq<Member>, x: Member)
    ensures MemberTotal(InsertBy(xs, x, MemberPath)) == MemberTotal(xs) + |x.bytes|
  {
    if xs == [] || !Less(xs[0].path, x.path) {
      assert ([x] + xs)[1..] == xs;
    } else {
      InsertTotal(xs[1..], x);
      var rest := InsertBy(xs[1..], x, MemberPath);
      assert ([xs[0]] + rest)[1..] == rest;
    }
  }

  lemma {:induction false} SortTotal(xs: seq<Member>)
    ensures MemberTotal(Sorted(xs)) == MemberTotal(xs)
  {
    if xs != [] {
      SortTotal(xs[1..]);
      InsertTotal(Sorted(xs[1..]), xs[0]);
    }
  }

  lemma {:induction false} EntryTotal(xs: seq<Member>)
    requires AllSmall(xs)
    ensures TotalSize(EntriesOf(xs)) == MemberTotal(xs)
    decreases |xs|
  {
    if xs != [] {
      var init, last := xs[..|xs| - 1], xs[|xs| - 1];
      EntryTotal(init);
      MemberTotalSnoc(init, last);
      assert xs == init + [last];
      assert EntriesOf(xs)[..|xs| - 1] == EntriesOf(init);
    }
  }

  // ----- the round trip -----

  /** The maintainer's side of the codec; `evidence` checks, binds and rewrites qualification evidence. */
  datatype Maker = Maker(codec: Codec, encode: Manifest -> Bytes, encodeSignature: Signature -> Bytes,
                         sign: (string, Bytes) -> string, publicKey: string -> string,
                         evidence: (Bytes, Artifact, string) -> Option<Bytes>)

  function HeadEntry(name: string, bytes: Bytes): Entry
    requires |bytes| < 0x8000_0000_0000_0000
  {
    Entry(name, Regular, |bytes| as int64, bytes)
  }

  function SignatureFor(b: Maker, m: Manifest, key: string, keyId: string): Signature {
    Signature("ed25519", keyId, b.sign(key, b.encode(m)))
  }

  function SignatureBytes(b: Maker, m: Manifest, key: string, keyId: string): Bytes {
    b.encodeSignature(SignatureFor(b, m, key, keyId))
  }

  /**
   What the round trip needs of JSON and of the signature scheme, at the one
   manifest and signature that are written: both are read back as they were, the
   signature verifies under its own key, and the signature file is small.
   */
  ghost predicate ReadsBack(b: Maker, m: Manifest, key: string, keyId: string) {
    && b.codec.decode(b.encode(m)) == Some(m)
    && b.codec.decodeSignature(SignatureBytes(b, m, key, keyId)) == Some(SignatureFor(b, m, key, keyId))
    && b.codec.verify(b.publicKey(key), b.encode(m), b.sign(key, b.encode(m)))
    && |SignatureBytes(b, m, key, keyId)| <= MAX_MANIFEST
  }

  /** For every manifest, digest and evidence rule there is such a codec, whatever size the manifest is to take. */
  lemma ReadsBackCanBeMet(m: Manifest, key: string, keyId: string, digest: Bytes -> string,
                          evidence: (Bytes, Artifact, string) -> Option<Bytes>, size: nat) returns (b: Maker)
    ensures ReadsBack(b, m, key, keyId) && b.codec.digest == digest && b.evidence == evidence && |b.encode(m)| == size
  {
    var written: Bytes := seq(size, _ => 0);
    var codec := Codec(digest, _ => Some(m), _ => Some(Signature("ed25519", keyId, "")), (_, _, _) => true);
    b := Maker(codec, _ => written, _ => [], (_, _) => "", k => k, evidence);
  }

  /** Go slices are shorter than this. */
  predicate Writable(b: Maker, m: Manifest, key: string, keyId: string) {
    |b.encode(m)| < 0x8000_0000_0000_0000 && |SignatureBytes(b, m, key, keyId)| < 0x8000_0000_0000_0000
  }

  /** `writeReleaseArchive`: manifest, signature, then the members sorted by path. */
  function Archive(b: Maker, m: Manifest, key: string, keyId: string, xs: seq<Member>): seq<Entry>
    requires Writable(b, m, key, keyId) && AllSmall(Sorted(xs))
  {
    [HeadEntry(MANIFEST_NAME, b.encode(m)), HeadEntry(SIGNATURE_NAME, SignatureBytes(b, m, key, keyId))]
    + EntriesOf(Sorted(xs))
  }

  predicate ValidKeyId(id: string) {
    id != "" && Utf8Size(id) <= 64 && TrimSpace(id) == id && '/' !in id && '\\' !in id && '\0' !in id
  }

  /** A key id: 1 to 64 bytes, without white space around it, without separators and NUL. */
  lemma KeyIdIff(id: string)
    ensures ValidKeyId(id) <==>
            1 <= Utf8Size(id) <= 64 && Trimmed(id) && forall c <- id :: c !in {'/', '\\', '\0'}
  {
    if Trimmed(id) {
      TrimTrimmed(id);
    }
    TrimSpaceTrims(id);
    AsciiSize(id);
  }

  /** What a successful build has established about its members and manifest. */
  ghost predicate Assembled(m: Manifest, xs: seq<Member>, digest: Bytes -> string) {
    ValidManifest(m) && AllSmall(xs) && MemberTotal(xs) <= MAX_BUNDLE as int &&
      m.files == SortBy(FilesOf(xs, digest), FilePath)
  }

  function MemberPaths(xs: seq<Member>): set<string> {
    set x <- xs :: x.path
  }

  lemma HeadIsRead(b: Maker, m: Manifest, key: string, keyId: string, xs: seq<Member>)
    requires Writable(b, m, key, keyId) && |SignatureBytes(b, m, key, keyId)| <= MAX_MANIFEST && AllSmall(Sorted(xs))
    ensures var archive := Archive(b, m, key, keyId, xs);
            && HeadMember(archive, 0, MANIFEST_NAME) ==
              (if |b.encode(m)| <= MAX_MANIFEST then Some(b.encode(m)) else None)
            && HeadMember(archive, 1, SIGNATURE_NAME) == Some(SignatureBytes(b, m, key, keyId))
            && archive[2..] == EntriesOf(Sorted(xs))
  {
    var archive := Archive(b, m, key, keyId, xs);
    var bytes, s := b.encode(m), SignatureBytes(b, m, key, keyId);
    assert archive[0] == HeadEntry(MANIFEST_NAME, bytes) && archive[1] == HeadEntry(SIGNATURE_NAME, s);
    assert bytes[..|bytes|] == bytes && s[..|s|] == s;
  }

  lemma HeadIsAccepted(b: Maker, m: Manifest, key: string, keyId: string, xs: seq<Member>, k: Controller)
    requires ReadsBack(b, m, key, keyId) && Writable(b, m, key, keyId) && AllSmall(Sorted(xs)) && ValidKeyId(keyId)
    requires TrustedKey(keyId, b.publicKey(key)) in k.trusted
    ensures SignedManifest(Archive(b, m, key, keyId, xs), b.codec, k) ==
            if |b.encode(m)| <= MAX_MANIFEST then Some(m) else None
  {
    HeadIsRead(b, m, key, keyId, xs);
    assert SignedByTrusted(b.encode(m), SignatureFor(b, m, key, keyId), b.codec, k.trusted);
  }

  lemma EntriesAreDistinct(xs: seq<Member>, digest: Bytes -> string)
    requires AllSmall(xs) && DistinctPaths(FilesOf(xs, digest))
    ensures DistinctEntries(EntriesOf(xs))
  {
    var fs, es := FilesOf(xs, digest), EntriesOf(xs);
    forall i, j | 0 <= i < j < |es| ensures es[i].name != es[j].name {
      assert fs[i].path != fs[j].path;
    }
  }

  lemma EntriesAreDeclared(xs: seq<Member>, digest: Bytes -> string, e: Entry)
    requires AllSmall(xs) && e in EntriesOf(xs)
    ensures Declared(FilesOf(xs, digest), e)
  {
    var fs, es := FilesOf(xs, digest), EntriesOf(xs);
    var i :| 0 <= i < |es| && es[i] == e;
    assert fs[i] in fs && Fits(fs[i], e);
  }

  /** Members in manifest order: everything but nesting is settled. */
  lemma {:induction false} SortedAreLayable(xs: seq<Member>, digest: Bytes -> string)
    requires AllSmall(xs) && DistinctPaths(FilesOf(xs, digest)) && MemberTotal(xs) <= MAX_BUNDLE as int
    ensures Layable(FilesOf(xs, digest), EntriesOf(xs)) <==> NoNesting(MemberPaths(xs))
  {
    forall e <- EntriesOf(xs) ensures Declared(FilesOf(xs, digest), e) {
      EntriesAreDeclared(xs, digest, e);
    }
    EntriesAreDistinct(xs, digest);
    EntryTotal(xs);
    NamesOfMembers(xs, digest);
  }

  lemma NamesOfMembers(xs: seq<Member>, digest: Bytes -> string)
    requires AllSmall(xs)
    ensures Names(EntriesOf(xs)) == MemberPaths(xs) == PathsOf(FilesOf(xs, digest))
  {
    var fs, es := FilesOf(xs, digest), EntriesOf(xs);
    forall i | 0 <= i < |xs| ensures xs[i].path in Names(es) && xs[i].path in PathsOf(fs) &&
      es[i].name in MemberPaths(xs) && fs[i].path in MemberPaths(xs) {
      assert xs[i] in xs && es[i] in es && fs[i] in fs;
    }
  }

  lemma {:induction false} MemberIsFound(xs: seq<Member>, digest: Bytes -> string, i: nat)
    requires AllSmall(xs) && DistinctPaths(FilesOf(xs, digest)) && i < |xs|
    ensures xs[i].path in TreeOf(EntriesOf(xs)) && TreeOf(EntriesOf(xs))[xs[i].path] == xs[i].bytes
  {
    var es := EntriesOf(xs);
    EntriesAreDistinct(xs, digest);
    assert es[i].bytes[..es[i].size] == xs[i].bytes;
    TreeContent(es, i);
  }

  lemma SortedAreImportable(xs: seq<Member>, digest: Bytes -> string)
    requires AllSmall(xs) && DistinctPaths(FilesOf(xs, digest)) && MemberTotal(xs) <= MAX_BUNDLE as int
    ensures Importable(FilesOf(xs, digest), EntriesOf(xs), digest) <==> NoNesting(MemberPaths(xs))
  {
    SortedAreLayable(xs, digest);
    var fs := FilesOf(xs, digest);
    forall i | 0 <= i < |fs| ensures Intact(TreeOf(EntriesOf(xs)), fs[i], digest) {
      MemberIsFound(xs, digest, i);
    }
  }

  lemma SortedPaths(xs: seq<Member>)
    ensures MemberPaths(Sorted(xs)) == MemberPaths(xs)
  {
    SortByKeeps(xs, MemberPath);
    assert forall x :: x in xs <==> x in multiset(xs);
    assert forall x :: x in Sorted(xs) <==> x in multiset(Sorted(xs));
  }

  /**
   The round trip. For every release that was assembled, a controller of matching
   version and binding that trusts the key accepts the archive exactly when the
   manifest is at most 1 MiB and no member path is a directory of another.
   */
  lemma BuiltReleaseImportsIff(b: Maker, m: Manifest, key: string, keyId: string, xs: seq<Member>, k: Controller)
    requires ReadsBack(b, m, key, keyId) && Writable(b, m, key, keyId)
    requires Assembled(m, xs, b.codec.digest) && ValidKeyId(keyId)
    requires TrustedKey(keyId, b.publicKey(key)) in k.trusted && Compatible(m, k) && BindingOk(m, k)
    ensures AllSmall(Sorted(xs))
    ensures AcceptedArchive(Archive(b, m, key, keyId, xs), b.codec, k) <==>
            |b.encode(m)| <= MAX_MANIFEST && NoNesting(MemberPaths(xs))
  {
    var digest := b.codec.digest;
    SortCommutes(xs, digest);
    SortTotal(xs);
    SortedPaths(xs);
    SortedAreImportable(Sorted(xs), digest);
    HeadIsAccepted(b, m, key, keyId, xs, k);
    HeadIsRead(b, m, key, keyId, xs);
  }

  lemma SortedMemberIsFound(xs: seq<Member>, fs: seq<File>, digest: Bytes -> string, x: Member)
    requires AllSmall(xs) && fs == SortBy(FilesOf(xs, digest), FilePath) && DistinctPaths(fs) && x in xs
    ensures AllSmall(Sorted(xs)) && x.path in TreeOf(EntriesOf(Sorted(xs))) &&
            TreeOf(EntriesOf(Sorted(xs)))[x.path] == x.bytes
    ensures x.path in PathsOf(fs)
  {
    SortCommutes(xs, digest);
    SortByKeeps(xs, MemberPath);
    assert x in multiset(Sorted(xs));
    var i :| 0 <= i < |Sorted(xs)| && Sorted(xs)[i] == x;
    MemberIsFound(Sorted(xs), digest, i);
    assert fs[i] in fs;
  }

  lemma DeclaredPathIsSafe(m: Manifest, path: string)
    requires FilesOk(m) && path in PathsOf(m.files)
    ensures BundlePath(path)
  {
    var f :| f in m.files && f.path == path;
    assert FileOk(m, f);
  }

  lemma FoundUnderHead(tree: Tree, manifest: Bytes, signature: Bytes, path: string)
    requires BundlePath(path) && path in tree
    ensures path in WithHead(tree, manifest, signature) && WithHead(tree, manifest, signature)[path] == tree[path]
  {
    HeadNamesAreNotMembers(path);
  }

  /** And then the installed tree holds every member's own bytes at its path. */
  lemma BuiltReleaseKeepsBytes(b: Maker, m: Manifest, key: string, keyId: string, xs: seq<Member>, x: Member)
    requires Writable(b, m, key, keyId) && |SignatureBytes(b, m, key, keyId)| <= MAX_MANIFEST
    requires AllSmall(xs) && m.files == SortBy(FilesOf(xs, b.codec.digest), FilePath) && FilesOk(m) && x in xs
    requires |b.encode(m)| <= MAX_MANIFEST && AllSmall(Sorted(xs))
    ensures var archive := Archive(b, m, key, keyId, xs);
            && HeadMember(archive, 0, MANIFEST_NAME).Some? && HeadMember(archive, 1, SIGNATURE_NAME).Some?
            && x.path in Installed(archive) && Installed(archive)[x.path] == x.bytes
  {
    SortedMemberIsFound(xs, m.files, b.codec.digest, x);
    HeadIsRead(b, m, key, keyId, xs);
    DeclaredPathIsSafe(m, x.path);
    FoundUnderHead(TreeOf(EntriesOf(Sorted(xs))), b.encode(m), SignatureBytes(b, m, key, keyId), x.path);
  }
}
