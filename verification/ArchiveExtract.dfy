/**
 Bounded extraction of a builder archive: an exact reader over a source that may
 return short reads, and a loop with entry and byte counters.
 */
module ArchiveExtract {
  import opened Common
  import opened Text
  import opened Paths

  newtype int64 = x: int | -0x8000_0000_0000_0000 <= x < 0x8000_0000_0000_0000

  newtype byte = x: int | 0 <= x < 256

  datatype ReadStatus = More | EndOfFile | UnexpectedEnd | ReadFailed

  /** The tar member being read: it hands out its bytes in pieces of its own choosing, and may be broken. */
  class Source {
    const bytes: seq<byte>
    const broken: bool
    var pos: nat

    constructor (bytes: seq<byte>, broken: bool)
      ensures this.bytes == bytes && this.broken == broken && pos == 0
    {
      this.bytes, this.broken, pos := bytes, broken, 0;
    }

    /**
     At most `n` bytes; end of file is reported only once everything was handed
     out, possibly together with the last bytes; an empty answer is never `More`.
     */
    method Read(n: nat) returns (chunk: seq<byte>, status: ReadStatus)
      requires pos <= |bytes| && n > 0
      modifies this
      ensures old(pos) <= pos <= |bytes| && chunk == bytes[old(pos)..pos] && |chunk| <= n
      ensures status != UnexpectedEnd && (status == EndOfFile ==> pos == |bytes|)
      ensures chunk == [] ==> status != More
      ensures status == ReadFailed ==> broken
    {
      var left := |bytes| - pos;
      var k: nat :| k <= n && k <= left && (k == 0 ==> left == 0 || broken) by {
        assert n > 0;
        assert left == 0 || 1 <= left;
      }
      var failed: bool, early: bool := *, *;
      chunk := bytes[pos..pos + k];
      pos := pos + k;
      status := if broken && (k == 0 || failed) then ReadFailed
                else if pos == |bytes| && (k == 0 || early) then EndOfFile
                else More;
    }
  }

  /** Stops the copy at the header's size, and turns an early end into an error. */
  class ExactReader {
    const reader: Source
    var remaining: int64

    constructor (reader: Source, size: int64)
      requires size >= 0
      ensures this.reader == reader && remaining == size
    {
      this.reader, remaining := reader, size;
    }

    method Read(n: nat) returns (chunk: seq<byte>, status: ReadStatus)
      requires reader.pos <= |reader.bytes| && n > 0 && remaining >= 0
      modifies this, reader
      ensures old(reader.pos) <= reader.pos <= |reader.bytes|
      ensures chunk == reader.bytes[old(reader.pos)..reader.pos]
      ensures remaining >= 0 && remaining as int == old(remaining) as int - |chunk|
      ensures status == EndOfFile ==> remaining == 0
      ensures status == UnexpectedEnd ==> reader.pos == |reader.bytes| && remaining > 0
      ensures chunk == [] ==> status != More
      ensures status == ReadFailed ==> reader.broken
    {
      if remaining == 0 {
        return [], EndOfFile;
      }
      var limit := if n > remaining as int then remaining as int else n;
      chunk, status := reader.Read(limit);
      remaining := remaining - |chunk| as int64;
      if status == EndOfFile && remaining > 0 {
        status := UnexpectedEnd;
      }
    }
  }

  const BUFFER: nat := 32 * 1024

  /**
   The copy loop of `WriteFileFrom` over an exact reader.  Whatever the short
   reads, success means exactly the first `size` bytes of the member, and unless
   the source itself failed, an error means that the member is shorter than that.
   */
  method CopyExact(bytes: seq<byte>, size: int64, broken: bool) returns (r: Result<seq<byte>>, fault: bool)
    requires size >= 0
    ensures fault ==> broken
    ensures r.Ok? ==> size as int <= |bytes| && r.value == bytes[..size]
    ensures !fault ==> (r.Ok? <==> size as int <= |bytes|)
  {
    var source := new Source(bytes, broken);
    var reader := new ExactReader(source, size);
    var written: seq<byte> := [];
    while true
      invariant reader.reader == source && source.bytes == bytes && source.broken == broken
      invariant source.pos <= |bytes| && written == bytes[..source.pos]
      invariant reader.remaining >= 0 && reader.remaining as int + source.pos == size as int
      decreases |bytes| - source.pos
    {
      var chunk, status := reader.Read(BUFFER);
      written := written + chunk;
      if status == EndOfFile {
        break;
      }
      if status != More {
        return Err, status == ReadFailed;
      }
    }
    return Ok(written), false;
  }

  // ----- entries and policies -----

  datatype Kind = Directory | Regular | OtherKind

  /** A tar header and the bytes the stream really holds for it. */
  datatype Entry = Entry(name: string, kind: Kind, size: int64, bytes: seq<byte>)

  datatype Policy = Policy(allowed: string -> bool, maxBytes: int64, maxEntry: int64)

  predicate SourceAllowed(clean: string) {
    HasPrefix(clean, "ansible/") || HasPrefix(clean, "pi/kiosk/")
  }

  predicate BuilderAllowed(clean: string) {
    clean == "generated" || HasPrefix(clean, "generated/")
  }

  const SOURCE_POLICY := Policy(SourceAllowed, 0x1000_0000, 0x400_0000)
  const BUILDER_POLICY := Policy(BuilderAllowed, 0x8_0000_0000, 0x2_0000_0000)

  const MAX_ENTRIES: nat := 8192

  function CanonicalName(e: Entry): string {
    if e.kind == Directory then TrimSuffix(e.name, "/") else e.name
  }

  /** The path test of the extraction loop. */
  predicate PathAccepted(e: Entry, allowed: string -> bool) {
    var clean := Clean(CanonicalName(e));
    && e.name != "" && clean == CanonicalName(e) && !HasPrefix(clean, "/")
    && '\\' !in clean && '\0' !in clean && allowed(clean)
  }

  /** A policy whose allow-list names only fixed directories below the root. */
  ghost predicate Confining(allowed: string -> bool) {
    forall clean :: allowed(clean) ==> clean != "." && Split(clean, '/')[0] != ".."
  }

  lemma PolicyConfines()
    ensures Confining(SourceAllowed) && Confining(BuilderAllowed)
  {
    forall clean | SourceAllowed(clean) ensures clean != "." && Split(clean, '/')[0] in {"ansible", "pi"} {
      if HasPrefix(clean, "ansible/") {
        FirstComponent(clean, "ansible");
      } else {
        assert clean[..3] == clean[..9][..3] == "pi/kiosk/"[..3] == "pi/";
        FirstComponent(clean, "pi");
      }
    }
    forall clean | BuilderAllowed(clean) ensures clean != "." && Split(clean, '/')[0] == "generated" {
      if clean == "generated" {
        SplitWhole(clean, '/');
      } else {
        FirstComponent(clean, "generated");
      }
    }
  }

  /** Properly below ansible/ or pi/kiosk/. */
  ghost predicate InSourceTrees(path: string) {
    var parts := Split(path, '/');
    (|parts| >= 2 && parts[0] == "ansible") || (|parts| >= 3 && parts[0] == "pi" && parts[1] == "kiosk")
  }

  lemma BelowIff(path: string, dir: string)
    requires '/' !in dir
    ensures HasPrefix(path, dir + "/") <==> |Split(path, '/')| >= 2 && Split(path, '/')[0] == dir
    ensures HasPrefix(path, dir + "/") ==> Split(path, '/') == [dir] + Split(path[|dir| + 1..], '/')
  {
    if HasPrefix(path, dir + "/") {
      assert path == dir + ['/'] + path[|dir| + 1..];
      SplitHead(dir, '/', path[|dir| + 1..]);
    }
    if |Split(path, '/')| >= 2 {
      HeadPrefix(path);
    }
  }

  lemma PrefixInside(path: string, a: string, b: string)
    ensures HasPrefix(path, a + b) <==> HasPrefix(path, a) && HasPrefix(path[|a|..], b)
  {
    if HasPrefix(path, a) && HasPrefix(path[|a|..], b) {
      assert path[..|a + b|] == path[..|a|] + path[|a|..][..|b|];
    }
    if HasPrefix(path, a + b) {
      assert path[..|a|] == path[..|a + b|][..|a|] && path[|a|..][..|b|] == path[..|a + b|][|a|..];
    }
  }

  lemma SourceAllowedIff(path: string)
    ensures SourceAllowed(path) <==> InSourceTrees(path)
  {
    assert "ansible/" == "ansible" + "/" && "pi/kiosk/" == ("pi" + "/") + ("kiosk" + "/");
    assert "ansible"[0] == 'a' && "pi"[0] == 'p';
    BelowIff(path, "ansible");
    BelowIff(path, "pi");
    PrefixInside(path, "pi" + "/", "kiosk" + "/");
    if HasPrefix(path, "pi" + "/") {
      BelowIff(path[3..], "kiosk");
    }
  }

  lemma BuilderAllowedIff(path: string)
    ensures BuilderAllowed(path) <==> Split(path, '/')[0] == "generated"
  {
    assert "generated/" == "generated" + "/";
    BelowIff(path, "generated");
    if path == "generated" {
      SplitWhole(path, '/');
    } else if |Split(path, '/')| == 1 {
      JoinSplit(path, '/');
    }
  }

  /** The path an entry is written at: a directory may be spelled with a slash at its end. */
  function WrittenAt(e: Entry): string {
    if e.kind == Directory && e.name != "" && e.name[|e.name| - 1] == '/' then e.name[..|e.name| - 1] else e.name
  }

  /** Ordinary components only, without backslash and NUL. */
  ghost predicate OrdinaryPath(path: string) {
    (forall p <- Split(path, '/') :: p !in {"", ".", ".."}) && '\\' !in path && '\0' !in path
  }

  lemma PathAcceptedIff(e: Entry, allowed: string -> bool)
    requires Confining(allowed)
    ensures PathAccepted(e, allowed) <==> e.name != "" && OrdinaryPath(WrittenAt(e)) && allowed(WrittenAt(e))
  {
    var path := WrittenAt(e);
    assert CanonicalName(e) == path by {
      assert e.name != "" ==> e.name[|e.name| - 1..] == [e.name[|e.name| - 1]];
    }
    if PathAccepted(e, allowed) {
      CleanIsPlain(path);
    } else if OrdinaryPath(path) {
      PlainIsClean(path);
    }
  }

  function TotalSize(entries: seq<Entry>): int {
    if entries == [] then 0 else TotalSize(entries[..|entries| - 1]) + entries[|entries| - 1].size as int
  }

  lemma TotalSizeStep(entries: seq<Entry>, i: nat)
    requires i < |entries|
    ensures TotalSize(entries[..i + 1]) == TotalSize(entries[..i]) + entries[i].size as int
  {
    assert entries[..i + 1][..i] == entries[..i];
  }

  lemma {:induction false} TotalGrows(entries: seq<Entry>, i: nat)
    requires i <= |entries| && forall e <- entries :: e.size >= 0
    ensures TotalSize(entries[..i]) <= TotalSize(entries)
    decreases |entries|
  {
    if i == |entries| {
      assert entries[..i] == entries;
    } else {
      var init := entries[..|entries| - 1];
      TotalGrows(init, i);
      assert init[..i] == entries[..i];
      assert entries[|entries| - 1] in entries;
    }
  }

  /** A written path: plain components, inside the allow-list. */
  ghost predicate Contained(path: string, allowed: string -> bool) {
    Plain(path) && allowed(path) && '\\' !in path && '\0' !in path
  }

  /** The file holds exactly the declared bytes of some accepted regular entry of that name. */
  ghost predicate FromEntry(path: string, content: seq<byte>, entries: seq<Entry>) {
    exists e <- entries :: e.kind == Regular && e.name == path && 0 <= e.size as int <= |e.bytes| &&
      content == e.bytes[..e.size]
  }

  /** Only contained paths, and every file is one declared entry. */
  ghost predicate SafeTree(files: map<string, seq<byte>>, dirs: set<string>, entries: seq<Entry>,
                           allowed: string -> bool) {
    && (forall path <- files :: Contained(path, allowed) && FromEntry(path, files[path], entries))
    && (forall path <- dirs :: Contained(path, allowed))
  }

  /** A bounded, allowed directory or a regular file that is all there. */
  ghost predicate Accepted(e: Entry, policy: Policy) {
    && 0 <= e.size <= policy.maxEntry && PathAccepted(e, policy.allowed) && e.kind != OtherKind
    && (e.kind == Regular ==> e.size as int <= |e.bytes|)
  }

  /** What the extraction accepts, stated at once. */
  ghost predicate Extractable(entries: seq<Entry>, policy: Policy) {
    |entries| <= MAX_ENTRIES && TotalSize(entries) <= policy.maxBytes as int &&
      forall e <- entries :: Accepted(e, policy)
  }

  /** What the source policy accepts. */
  lemma SourceExtractableIff(entries: seq<Entry>)
    ensures Extractable(entries, SOURCE_POLICY) <==>
            && |entries| <= 8192 && TotalSize(entries) <= 268435456
            && forall e <- entries ::
                 && 0 <= e.size <= 67108864 && e.kind != OtherKind && (e.kind == Regular ==> e.size as int <= |e.bytes|)
                 && e.name != "" && OrdinaryPath(WrittenAt(e)) && InSourceTrees(WrittenAt(e))
  {
    PolicyConfines();
    forall e <- entries
      ensures PathAccepted(e, SourceAllowed) <==>
              e.name != "" && OrdinaryPath(WrittenAt(e)) && InSourceTrees(WrittenAt(e)) {
      PathAcceptedIff(e, SourceAllowed);
      SourceAllowedIff(WrittenAt(e));
    }
  }

  /** What the builder policy accepts. */
  lemma BuilderExtractableIff(entries: seq<Entry>)
    ensures Extractable(entries, BUILDER_POLICY) <==>
            && |entries| <= 8192 && TotalSize(entries) <= 34359738368
            && forall e <- entries ::
                 && 0 <= e.size <= 8589934592 && e.kind != OtherKind
                 && (e.kind == Regular ==> e.size as int <= |e.bytes|)
                 && e.name != "" && OrdinaryPath(WrittenAt(e)) && Split(WrittenAt(e), '/')[0] == "generated"
  {
    PolicyConfines();
    forall e <- entries
      ensures PathAccepted(e, BuilderAllowed) <==>
              e.name != "" && OrdinaryPath(WrittenAt(e)) && Split(WrittenAt(e), '/')[0] == "generated" {
      PathAcceptedIff(e, BuilderAllowed);
      BuilderAllowedIff(WrittenAt(e));
    }
  }

  predicate Regularly(e: Entry, name: string) {
    e.kind == Regular && e.name == name && 0 <= e.size as int <= |e.bytes|
  }

  /** The files once a whole regular entry has been written. */
  function Written(e: Entry, files: map<string, seq<byte>>): map<string, seq<byte>> {
    if Regularly(e, e.name) then files[e.name := e.bytes[..e.size]] else files
  }

  /** All regular entries, written one after the other. */
  function Unpacked(entries: seq<Entry>): map<string, seq<byte>> {
    if entries == [] then map[] else Written(entries[|entries| - 1], Unpacked(entries[..|entries| - 1]))
  }

  lemma UnpackedStep(entries: seq<Entry>, i: nat)
    requires i < |entries|
    ensures Unpacked(entries[..i + 1]) == Written(entries[i], Unpacked(entries[..i]))
  {
    assert entries[..i + 1][..i] == entries[..i];
  }

  /** A name that occurs more than once has the bytes of its last entry. */
  lemma {:induction false} LastEntryWins(entries: seq<Entry>, i: nat)
    requires i < |entries| && Regularly(entries[i], entries[i].name)
    requires forall j :: i < j < |entries| ==> !Regularly(entries[j], entries[i].name)
    ensures entries[i].name in Unpacked(entries)
    ensures Unpacked(entries)[entries[i].name] == entries[i].bytes[..entries[i].size]
    decreases |entries|
  {
    if i < |entries| - 1 {
      var init, last := entries[..|entries| - 1], entries[|entries| - 1];
      LastEntryWins(init, i);
      assert !Regularly(last, entries[i].name);
    }
  }

  predicate Present(e: Entry, files: map<string, seq<byte>>, dirs: set<string>) {
    match e.kind
    case Directory => CanonicalName(e) in dirs
    case Regular => e.name in files
    case OtherKind => false
  }

  ghost predicate AllDone(entries: seq<Entry>, policy: Policy, files: map<string, seq<byte>>, dirs: set<string>) {
    (forall e <- entries :: Accepted(e, policy)) && (forall e <- entries :: Present(e, files, dirs))
  }

  lemma AllDoneStep(entries: seq<Entry>, i: nat, policy: Policy, files: map<string, seq<byte>>, dirs: set<string>,
                    files': map<string, seq<byte>>, dirs': set<string>)
    requires i < |entries| && AllDone(entries[..i], policy, files, dirs) && files.Keys <= files'.Keys && dirs <= dirs'
    requires Accepted(entries[i], policy) && Present(entries[i], files', dirs')
    ensures AllDone(entries[..i + 1], policy, files', dirs')
  {
    assert entries[..i + 1] == entries[..i] + [entries[i]];
    forall x <- entries[..i + 1] ensures Accepted(x, policy) && Present(x, files', dirs') {
      if x in entries[..i] {
        assert Present(x, files, dirs);
      }
    }
  }

  /** An entry over either budget rules out the whole archive. */
  lemma NotExtractable(entries: seq<Entry>, i: nat, policy: Policy)
    requires i < |entries|
    requires || entries[i].size < 0 || entries[i].size > policy.maxEntry
             || TotalSize(entries[..i]) + entries[i].size as int > policy.maxBytes as int
    ensures !Extractable(entries, policy)
  {
    assert entries[i] in entries;
    if forall e <- entries :: Accepted(e, policy) {
      TotalSizeStep(entries, i);
      TotalGrows(entries, i + 1);
    }
  }

  /** The path test, the kind, and the write of one entry; any host call may fail. */
  method ExtractEntry(header: Entry, policy: Policy, files: map<string, seq<byte>>, dirs: set<string>,
                      ghost entries: seq<Entry>, fails: Failures, call: nat)
    returns (ok: bool, fault: bool, files': map<string, seq<byte>>, dirs': set<string>)
    requires Confining(policy.allowed) && header in entries && 0 <= header.size <= policy.maxEntry
    requires SafeTree(files, dirs, entries, policy.allowed)
    ensures SafeTree(files', dirs', entries, policy.allowed)
    ensures files.Keys <= files'.Keys && dirs <= dirs'
    ensures ok ==> Accepted(header, policy) && Present(header, files', dirs') && files' == Written(header, files)
    ensures !ok && !fault ==> !Accepted(header, policy)
    ensures fault ==> Fails(fails)
  {
    ok, fault, files', dirs' := false, false, files, dirs;
    if !PathAccepted(header, policy.allowed) {
      return;
    }
    var clean := Clean(CanonicalName(header));
    assert Contained(clean, policy.allowed) by { CleanIsPlain(clean); }
    if fails(call) {
      fault := true;
      return;
    }
    match header.kind
    case Directory =>
      dirs' := dirs + {clean};
      ok := true;
    case Regular =>
      var copied;
      copied, fault := CopyExact(header.bytes, header.size, fails(call + 1));
      if copied.Err? || |copied.value| != header.size as int {
        return;
      }
      files' := files[clean := copied.value];
      ok := true;
    case OtherKind =>
  }

  /**
   `extractArchiveReader`.  Whatever the archive and however it ends, only
   contained paths are written, and every file written is exactly one declared
   entry; success means at most 8192 entries within both byte budgets, all of
   them extracted; and without a host fault it succeeds on all such archives.
   */
  method ExtractArchive(entries: seq<Entry>, policy: Policy, fails: Failures)
    returns (ok: bool, fault: bool, files: map<string, seq<byte>>, dirs: set<string>)
    requires Confining(policy.allowed) && policy.maxBytes > 0 && policy.maxEntry > 0
    ensures SafeTree(files, dirs, entries, policy.allowed)
    ensures ok ==> Extractable(entries, policy) && AllDone(entries, policy, files, dirs) && files == Unpacked(entries)
    ensures !fault ==> (ok <==> Extractable(entries, policy))
    ensures fault ==> Fails(fails)
  {
    files, dirs, ok, fault := map[], {}, false, false;
    var count := 0;
    var totalBytes: int64 := 0;
    for i := 0 to |entries|
      invariant count == i && i <= MAX_ENTRIES && !ok && !fault
      invariant 0 <= totalBytes <= policy.maxBytes && totalBytes as int == TotalSize(entries[..i])
      invariant SafeTree(files, dirs, entries, policy.allowed)
      invariant AllDone(entries[..i], policy, files, dirs) && files == Unpacked(entries[..i])
    {
      var header := entries[i];
      TotalSizeStep(entries, i);
      count := count + 1;
      if count > MAX_ENTRIES {
        return;
      }
      if header.size < 0 || header.size > policy.maxBytes - totalBytes || header.size > policy.maxEntry {
        NotExtractable(entries, i, policy);
        return;
      }
      totalBytes := totalBytes + header.size;
      var taken, failed, files', dirs' := ExtractEntry(header, policy, files, dirs, entries, fails, 2 * i);
      if !taken {
        files, dirs, fault := files', dirs', failed;
        return;
      }
      AllDoneStep(entries, i, policy, files, dirs, files', dirs');
      UnpackedStep(entries, i);
      files, dirs := files', dirs';
    }
    assert entries[..|entries|] == entries;
    ok := true;
  }

  /** `ExtractSourceArchiveReader`: nothing is written outside ansible/ and pi/kiosk/. */
  method ExtractSourceArchive(entries: seq<Entry>, fails: Failures)
    returns (ok: bool, fault: bool, files: map<string, seq<byte>>, dirs: set<string>)
    ensures forall path <- files.Keys + dirs :: Plain(path) && SourceAllowed(path)
    ensures ok ==> TotalSize(entries) <= 256 * 1024 * 1024 && AllDone(entries, SOURCE_POLICY, files, dirs)
    ensures ok ==> files == Unpacked(entries)
    ensures !fault ==> (ok <==> Extractable(entries, SOURCE_POLICY))
    ensures fault ==> Fails(fails)
  {
    PolicyConfines();
    ok, fault, files, dirs := ExtractArchive(entries, SOURCE_POLICY, fails);
  }

  /** `ExtractNativeBuilderOutputReader`: nothing is written outside generated/. */
  method ExtractNativeBuilderOutput(entries: seq<Entry>, fails: Failures)
    returns (ok: bool, fault: bool, files: map<string, seq<byte>>, dirs: set<string>)
    ensures forall path <- files.Keys + dirs :: Plain(path) && BuilderAllowed(path)
    ensures ok ==> TotalSize(entries) <= 32 * 1024 * 1024 * 1024 && AllDone(entries, BUILDER_POLICY, files, dirs)
    ensures ok ==> files == Unpacked(entries)
    ensures !fault ==> (ok <==> Extractable(entries, BUILDER_POLICY))
    ensures fault ==> Fails(fails)
  {
    PolicyConfines();
    ok, fault, files, dirs := ExtractArchive(entries, BUILDER_POLICY, fails);
  }
}
