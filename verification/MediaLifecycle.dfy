/**
 The media VM over whole histories: creation, recovery and runtime installation
 interrupted anywhere, with the pending marker, the content of the media disk,
 and a log of every allocation, every format and every clearing of the marker.
 */
module MediaLifecycle {
  import opened Common
  import opened Text
  import opened MediaGuest

  datatype Content = Blank | Dirty | Filesystem(kind: string)

  const EXT4 := Filesystem("ext4")

  datatype Action = Allocated(pending: bool) | Formatted(pending: bool, before: Content) | MarkerCleared

  datatype Stage =
    | Idle
    | Creating(result: Config, imageGiB: int, mediaGiB: int)
    | Script(cmds: seq<Command>, imageGiB: int, mediaGiB: int)
    | Mounting(pending: bool)
    | Clearing

  datatype World = World(vm: Option<Config>, media: Content, log: seq<Action>, stage: Stage)

  /** Every call brings its own sizes, and every creation its own image. */
  datatype Event =
    | Crash
    | Ensure(created: Config, imageGiB: int, mediaGiB: int)
    | Step(ok: bool, effect: bool)
    | Install(mediaGiB: int)
    | Mount(ok: bool, after: Content)
    | Clear(ok: bool, effect: bool)

  const Init := World(None, Blank, [], Idle)

  predicate Pending(c: Config) {
    HasTag(Get(c, "tags"), PENDING)
  }

  function WithoutPending(tags: seq<string>): (r: seq<string>)
    ensures forall tag :: tag in r <==> tag in tags && tag != PENDING && tag != ""
  {
    if tags == [] then []
    else
      var rest := WithoutPending(tags[..|tags| - 1]);
      var last := tags[|tags| - 1];
      if last == PENDING || last == "" then rest else rest + [last]
  }

  /** `clearMediaPendingTagCommand`. */
  function Cleared(c: Config): Config {
    if !Get(c, "tags").Tags? || WithoutPending(c["tags"].tags) == [] then c - {"tags"}
    else c["tags" := Tags(WithoutPending(c["tags"].tags))]
  }

  // ----- steps -----

  /** `created` is what `qm create` will store, should this call get to create the VM. */
  function EnsureStep(w: World, created: Config, imageGiB: int, mediaGiB: int): World {
    if mediaGiB < 1 then w
    else if w.vm.None? then
      if CreateResult(created) then w.(stage := Creating(created, imageGiB, mediaGiB)) else w
    else if !Exact(w.vm.value, mediaGiB) && Recoverable(w.vm.value, mediaGiB) then
      w.(stage := Script(RecoveryScript(w.vm.value), imageGiB, mediaGiB))
    else w
  }

  ghost function ScriptStep(w: World, ok: bool, effect: bool): World
    requires w.stage.Script?
  {
    var Script(cmds, imageGiB, mediaGiB) := w.stage;
    if cmds == [] || w.vm.None? then w.(stage := Idle)
    else
      var r := Execute(w.vm.value, cmds[0], imageGiB, mediaGiB);
      if r.Err? then w.(stage := Idle)
      else
        var moved := w.(stage := if ok then Script(cmds[1..], imageGiB, mediaGiB) else Idle);
        if !ok && !effect then moved
        else if cmds[0] == AttachMedia then
          moved.(vm := Some(r.value), media := Blank, log := w.log + [Allocated(Pending(w.vm.value))])
        else moved.(vm := Some(r.value))
  }

  /** What a mkfs that did not finish can leave behind. */
  predicate MkfsLeaves(ok: bool, after: Content) {
    after == EXT4 || (!ok && (after == Blank || after == Dirty))
  }

  /** The guest mount script: format only when allowed and blank, then insist on ext4. */
  function MountStep(w: World, ok: bool, after: Content): World
    requires w.stage.Mounting?
  {
    var pending := w.stage.pending;
    var done := if pending then Clearing else Idle;
    if pending && w.media == Blank then
      if !MkfsLeaves(ok, after) then w
      else
        w.(media := after, stage := if ok then done else Idle,
           log := if after == Blank then w.log else w.log + [Formatted(pending, w.media)])
    else w.(stage := if ok && w.media == EXT4 then done else Idle)
  }

  ghost function Next(w: World, e: Event): World {
    match e
    case Crash => w.(stage := Idle)
    case Ensure(created, imageGiB, mediaGiB) =>
      if w.stage.Idle? then EnsureStep(w, created, imageGiB, mediaGiB) else w
    case Step(ok, effect) =>
      if w.stage.Creating? then
        w.(vm := if ok || effect then Some(w.stage.result) else w.vm,
           stage := if ok then Script(AFTER_CREATE, w.stage.imageGiB, w.stage.mediaGiB) else Idle)
      else if w.stage.Script? then ScriptStep(w, ok, effect)
      else w
    case Install(mediaGiB) =>
      if w.stage.Idle? && w.vm.Some? && Exact(w.vm.value, mediaGiB)
      then w.(stage := Mounting(Pending(w.vm.value))) else w
    case Mount(ok, after) => if w.stage.Mounting? then MountStep(w, ok, after) else w
    case Clear(ok, effect) =>
      if !w.stage.Clearing? || w.vm.None? then w
      else if ok || effect then
        World(Some(Cleared(w.vm.value)), w.media, w.log + [MarkerCleared], Idle)
      else w.(stage := Idle)
  }

  ghost function Run(es: seq<Event>): World {
    if es == [] then Init else Next(Run(es[..|es| - 1]), es[|es| - 1])
  }

  // ----- shapes of a VM under construction -----

  /** 0: no disk yet; 1: root imported; 2: attached but not yet resized; 3: root ready; 4: media attached. */
  function ShapeOf(c: Config): nat {
    if "scsi1" in c then 4
    else if "scsi0" in c then (if DiskOwned(c["scsi0"], 0, ROOT_GIB) then 3 else 2)
    else if "unused0" in c then 1
    else 0
  }

  predicate IsDisk(v: Value, disk: nat) {
    v.Volume? && DiskOwned(v, disk, v.gib)
  }

  predicate DisksOfShape(c: Config) {
    && (forall key <- c :: key in PLAIN_KEYS || key == "unused0")
    && (forall key <- c :: c[key].Volume? ==> key in DISK_KEYS)
    && ("unused0" in c ==> "scsi0" !in c && "scsi1" !in c && IsDisk(c["unused0"], 0))
    && ("scsi0" in c ==> IsDisk(c["scsi0"], 0))
    && ("scsi1" in c ==> "scsi0" in c && DiskOwned(c["scsi0"], 0, ROOT_GIB) && IsDisk(c["scsi1"], 1))
    && ("scsi1" !in c ==> Pending(c))
  }

  predicate Good(c: Config) {
    Identity(c) && NetValues(c) && c["net0"].options.Keys == NET_KEYS && DisksOfShape(c)
  }

  /** The script continues what the shape has reached. */
  predicate Fits(shape: nat, cmds: seq<Command>)
    decreases |cmds|
  {
    cmds == [] ||
    match cmds[0]
    case ImportDisk => shape == 0 && Fits(1, cmds[1..])
    case AttachRoot => shape == 1 && Fits(2, cmds[1..])
    case ResizeRoot => shape >= 2 && Fits(if shape == 2 then 3 else shape, cmds[1..])
    case CheckPending => shape == 3 && Fits(3, cmds[1..])
    case AttachMedia => shape == 3 && Fits(4, cmds[1..])
  }

  /** An image of the root size is ready as soon as it is attached. */
  lemma FitsReadyRoot(cmds: seq<Command>)
    requires Fits(2, cmds)
    ensures Fits(3, cmds)
  {
  }

  lemma UnusedOfShape(c: Config)
    requires DisksOfShape(c)
    ensures UnusedKeys(c) == if "unused0" in c then {"unused0"} else {}
  {
    PlainKeysAreNotUnused();
    assert UnusedKey("unused0");
  }

  predicate MediaMatches(c: Config, mediaGiB: int) {
    "scsi1" in c ==> c["scsi1"] == Volume(STORAGE, VMID, 1, mediaGiB)
  }

  /** The root is attached, or what it will be made from is no larger than the root size. */
  predicate RootFits(c: Config, imageGiB: int) {
    if "scsi0" in c then true
    else if "unused0" in c then c["unused0"].Volume? && c["unused0"].gib <= ROOT_GIB
    else imageGiB <= ROOT_GIB
  }

  lemma ShapeDisksAreRecoverable(c: Config, imageGiB: int, mediaGiB: int)
    requires DisksOfShape(c)
    ensures Typed(c) && (RecoverableDisks(c, mediaGiB) <==> ShapeOf(c) != 2 && MediaMatches(c, mediaGiB))
    ensures CanRepair(c, imageGiB) <==> RootFits(c, imageGiB)
  {
    UnusedOfShape(c);
    assert UnusedKey("unused0");
    assert forall key <- c :: UnusedKey(key) ==> key in UnusedKeys(c);
  }

  lemma ShapeKeysAreRecoverable(c: Config)
    requires DisksOfShape(c)
    ensures forall key <- c :: if UnusedKey(key) then Digits(key[6..]) else key in PLAIN_KEYS
    ensures "unused0" !in c ==> forall key <- c :: key in PLAIN_KEYS
  {
    PlainKeysAreNotUnused();
    var key := "unused0";
    assert key[6..] == "0" && Digits("0");
    assert UnusedKey(key);
  }

  /** Every shape but an unresized root is accepted by the recoverable validator, the last one by the exact one too. */
  lemma GoodIsAccepted(c: Config, imageGiB: int, mediaGiB: int)
    requires Good(c)
    ensures Recoverable(c, mediaGiB) <==> mediaGiB >= 1 && ShapeOf(c) != 2 && MediaMatches(c, mediaGiB)
    ensures Exact(c, mediaGiB) <==> mediaGiB >= 1 && ShapeOf(c) == 4 && MediaMatches(c, mediaGiB)
    ensures Typed(c) && (CanRepair(c, imageGiB) <==> RootFits(c, imageGiB))
  {
    ShapeDisksAreRecoverable(c, imageGiB, mediaGiB);
    ShapeKeysAreRecoverable(c);
    FourNetKeys(c);
  }

  // ----- one command at a time -----

  lemma DiskKeysDiffer()
    ensures UnusedKey("unused0") && !UnusedKey("scsi0") && !UnusedKey("scsi1")
    ensures "tags" !in DISK_KEYS && "net0" !in DISK_KEYS && "unused0" !in PLAIN_KEYS
  {
    PlainKeysAreNotUnused();
    assert "scsi0" in PLAIN_KEYS && "scsi1" in PLAIN_KEYS;
  }

  lemma ShapeDisksUsed(c: Config)
    requires DisksOfShape(c)
    ensures ShapeOf(c) == 0 ==> LeastNotIn(UsedDisks(c), 0) == 0
    ensures ShapeOf(c) == 3 ==> LeastNotIn(UsedDisks(c), 0) == 1
  {
    if ShapeOf(c) == 0 {
      assert UsedDisks(c) == {};
    }
    if ShapeOf(c) == 3 {
      assert c["scsi0"].disk in UsedDisks(c);
      assert UsedDisks(c) == {0};
      LeastAfterZero();
    }
  }

  /** The one fitting command that can fail: shrinking a root that came from too large an image. */
  predicate CannotShrink(c: Config, cmd: Command) {
    cmd == ResizeRoot && "scsi0" in c && c["scsi0"].Volume? && c["scsi0"].gib > ROOT_GIB
  }

  /** Any other fitting command succeeds and leads to the next shape; only the disk entries change. */
  lemma CommandKeepsShape(c: Config, cmd: Command, imageGiB: int, mediaGiB: int)
    requires DisksOfShape(c) && Fits(ShapeOf(c), [cmd])
    ensures var r := Execute(c, cmd, imageGiB, mediaGiB);
            && (r.Err? <==> CannotShrink(c, cmd))
            && (r.Ok? ==> DisksOfShape(r.value))
            && (r.Ok? ==> match cmd
                          case ImportDisk => ShapeOf(r.value) == 1
                          case AttachRoot => ShapeOf(r.value) == 2 || ShapeOf(r.value) == 3
                          case ResizeRoot => ShapeOf(r.value) == if ShapeOf(c) == 2 then 3 else ShapeOf(c)
                          case CheckPending => ShapeOf(r.value) == 3
                          case AttachMedia => ShapeOf(r.value) == 4)
  {
    DiskKeysDiffer();
    UnusedOfShape(c);
    ShapeDisksUsed(c);
    var r := Execute(c, cmd, imageGiB, mediaGiB);
    if r.Ok? {
      assert Get(r.value, "tags") == Get(c, "tags");
    }
  }

  lemma CommandKeepsFit(c: Config, cmds: seq<Command>, imageGiB: int, mediaGiB: int)
    requires DisksOfShape(c) && cmds != [] && Fits(ShapeOf(c), cmds)
    ensures var r := Execute(c, cmds[0], imageGiB, mediaGiB);
            && (r.Err? <==> CannotShrink(c, cmds[0]))
            && (r.Ok? ==> DisksOfShape(r.value) && Fits(ShapeOf(r.value), cmds[1..]))
  {
    assert [cmds[0]][1..] == [];
    CommandKeepsShape(c, cmds[0], imageGiB, mediaGiB);
    if cmds[0] == AttachRoot {
      FitsReadyRoot(cmds[1..]);
    }
  }

  lemma CommandKeepsGood(c: Config, cmds: seq<Command>, imageGiB: int, mediaGiB: int)
    requires Good(c) && cmds != [] && Fits(ShapeOf(c), cmds)
    ensures var r := Execute(c, cmds[0], imageGiB, mediaGiB);
            && (r.Err? <==> CannotShrink(c, cmds[0]))
            && (r.Ok? ==> Good(r.value) && Fits(ShapeOf(r.value), cmds[1..]))
  {
    CommandKeepsFit(c, cmds, imageGiB, mediaGiB);
    var r := Execute(c, cmds[0], imageGiB, mediaGiB);
    if r.Ok? {
      ExecuteKeepsIdentity(c, cmds[0], imageGiB, mediaGiB);
      IdentityFrame(c, r.value);
      assert "net0" in IDENTITY_KEYS;
    }
  }

  lemma RequestedValues()
    ensures OwnerTags(Tags(OWNER_TAGS + [PENDING]))
    ensures BootsFromRoot(Text("order=scsi0"))
    ensures CloudInitDrive(Text(STORAGE + ":cloudinit"))
  {
    var boot := "order=scsi0";
    assert boot[0..|boot|] == boot && HasAt(boot, "order=scsi0", 0);
    var ide2 := STORAGE + ":cloudinit";
    assert ide2[..|ide2|] == ide2;
  }

  lemma NoGpuIsRequested()
    ensures "hostpci0" !in REQUESTED_KEYS + GENERATED_KEYS
  {
  }

  lemma CreatedIdentity(c: Config)
    requires CreateResult(c)
    ensures Identity(c) && NetValues(c)
  {
    RequestedValues();
    NoGpuIsRequested();
  }

  lemma CreateKeysArePlain()
    ensures REQUESTED_KEYS <= PLAIN_KEYS && GENERATED_KEYS <= PLAIN_KEYS
  {
  }

  lemma NoDiskIsRequested()
    ensures "scsi0" !in REQUESTED_KEYS + GENERATED_KEYS
    ensures "scsi1" !in REQUESTED_KEYS + GENERATED_KEYS
    ensures "unused0" !in REQUESTED_KEYS + GENERATED_KEYS
  {
    CreateKeysArePlain();
    DiskKeysDiffer();
  }

  lemma CreatedDisks(c: Config)
    requires REQUESTED_KEYS <= c.Keys <= REQUESTED_KEYS + GENERATED_KEYS && (forall key <- c :: !c[key].Volume?)
    requires c["tags"] == Tags(OWNER_TAGS + [PENDING])
    ensures DisksOfShape(c) && ShapeOf(c) == 0
  {
    CreateKeysArePlain();
    NoDiskIsRequested();
    var tags := OWNER_TAGS + [PENDING];
    assert tags[|tags| - 1] == PENDING;
  }

  // ----- the invariant over histories -----

  predicate AllocatedIn(log: seq<Action>) {
    exists a <- log :: a.Allocated?
  }

  predicate FormattedIn(log: seq<Action>) {
    exists a <- log :: a.Formatted?
  }

  /**
   What the log may contain: allocation and formatting only under the marker,
   formatting only of a blank disk, each at most once, and nothing at all once
   the marker has been cleared.
   */
  predicate Guarded(log: seq<Action>) {
    && (forall a <- log :: (a.Allocated? ==> a.pending) && (a.Formatted? ==> a.pending && a.before == Blank))
    && (forall i, j :: 0 <= i < j < |log| ==>
          && !(log[i].Allocated? && log[j].Allocated?)
          && !(log[i].Formatted? && log[j].Formatted?)
          && !log[i].MarkerCleared?)
  }

  predicate LogInv(w: World) {
    && Guarded(w.log)
    && (AllocatedIn(w.log) <==> w.vm.Some? && "scsi1" in w.vm.value)
    && (FormattedIn(w.log) <==> w.media != Blank) && w.media in {Blank, Dirty, EXT4}
    && (FormattedIn(w.log) ==> AllocatedIn(w.log))
    && (MarkerCleared in w.log <==> w.vm.Some? && !Pending(w.vm.value))
    && (MarkerCleared in w.log ==> AllocatedIn(w.log) && w.media == EXT4)
  }

  predicate StageInv(w: World) {
    match w.stage
    case Idle => true
    case Creating(c, _, _) => w.vm.None? && CreateResult(c)
    case Script(cmds, _, _) => w.vm.Some? && Fits(ShapeOf(w.vm.value), cmds)
    case Mounting(pending) => w.vm.Some? && "scsi1" in w.vm.value && pending == Pending(w.vm.value)
    case Clearing => w.vm.Some? && "scsi1" in w.vm.value && Pending(w.vm.value) && w.media == EXT4
  }

  predicate Inv(w: World) {
    (w.vm.Some? ==> Good(w.vm.value)) && LogInv(w) && StageInv(w)
  }

  /** The part of the invariant that does not look at the identity of the VM. */
  predicate RestInv(w: World) {
    (w.vm.Some? ==> DisksOfShape(w.vm.value)) && LogInv(w) && StageInv(w)
  }

  lemma MediaFits(shape: nat, c: Config)
    requires if "scsi1" in c then shape == 4 else shape == 2 || shape == 3
    ensures Fits(shape, [ResizeRoot] + MediaPart(c))
  {
    var media := MediaPart(c);
    assert ([ResizeRoot] + media)[1..] == media;
    if "scsi1" !in c {
      assert media[1..] == [AttachMedia] && [AttachMedia][1..] == [];
    }
  }

  lemma ScriptFits(c: Config)
    requires DisksOfShape(c)
    ensures Fits(ShapeOf(c), RecoveryScript(c))
  {
    UnusedOfShape(c);
    var tail := [ResizeRoot] + MediaPart(c);
    var s := RecoveryScript(c);
    assert s == RootPart(c) + tail;
    MediaFits(if "scsi1" in c then 4 else if "scsi0" in c then ShapeOf(c) else 2, c);
    if "scsi0" !in c {
      if "unused0" in c {
        assert s[0] == AttachRoot && s[1..] == tail;
      } else {
        var rest := [AttachRoot] + tail;
        assert rest[1..] == tail && s == [ImportDisk] + rest && s[1..] == rest;
      }
    } else {
      assert s == tail;
    }
  }

  lemma AfterCreateFits()
    ensures Fits(0, AFTER_CREATE)
  {
    assert AFTER_CREATE[1..] == [AttachRoot, ResizeRoot, AttachMedia];
    assert AFTER_CREATE[1..][1..] == [ResizeRoot, AttachMedia];
    assert AFTER_CREATE[1..][1..][1..] == [AttachMedia];
    assert AFTER_CREATE[1..][1..][1..][1..] == [];
  }

  predicate MayAppend(log: seq<Action>, a: Action) {
    && Guarded(log) && MarkerCleared !in log
    && !(a.Allocated? && AllocatedIn(log)) && !(a.Formatted? && FormattedIn(log))
    && (a.Allocated? ==> a.pending) && (a.Formatted? ==> a.pending && a.before == Blank)
  }

  lemma Append(log: seq<Action>, a: Action)
    ensures AllocatedIn(log + [a]) <==> AllocatedIn(log) || a.Allocated?
    ensures FormattedIn(log + [a]) <==> FormattedIn(log) || a.Formatted?
    ensures MarkerCleared in log + [a] <==> MarkerCleared in log || a.MarkerCleared?
    ensures MayAppend(log, a) ==> Guarded(log + [a])
  {
    assert forall x :: x in log + [a] <==> x in log || x == a;
  }

  /** The log after a configuration change that keeps the tags. */
  lemma LogFollows(w: World, d: Config, allocate: bool)
    requires LogInv(w) && w.vm.Some? && Pending(d) == Pending(w.vm.value)
    requires if allocate then "scsi1" !in w.vm.value && "scsi1" in d && Pending(d)
             else ("scsi1" in d <==> "scsi1" in w.vm.value)
    ensures LogInv(if allocate then w.(vm := Some(d), media := Blank, log := w.log + [Allocated(Pending(w.vm.value))])
                   else w.(vm := Some(d)))
  {
    Append(w.log, Allocated(Pending(w.vm.value)));
  }

  lemma CommandOnLog(c: Config, cmds: seq<Command>, imageGiB: int, mediaGiB: int)
    requires DisksOfShape(c) && cmds != [] && Fits(ShapeOf(c), cmds)
    ensures var r := Execute(c, cmds[0], imageGiB, mediaGiB);
            r.Ok? ==>
              && Pending(r.value) == Pending(c)
              && if cmds[0] == AttachMedia then "scsi1" !in c && "scsi1" in r.value && Pending(c)
                 else ("scsi1" in r.value <==> "scsi1" in c)
  {
    assert [cmds[0]][1..] == [];
    CommandKeepsShape(c, cmds[0], imageGiB, mediaGiB);
    if Execute(c, cmds[0], imageGiB, mediaGiB).Ok? {
      ExecuteKeepsIdentity(c, cmds[0], imageGiB, mediaGiB);
      assert "tags" in IDENTITY_KEYS;
    }
  }

  lemma ScriptKeepsRest(w: World, ok: bool, effect: bool)
    requires RestInv(w) && w.stage.Script?
    ensures RestInv(ScriptStep(w, ok, effect))
  {
    var Script(cmds, imageGiB, mediaGiB) := w.stage;
    if cmds != [] {
      var c := w.vm.value;
      CommandKeepsFit(c, cmds, imageGiB, mediaGiB);
      CommandOnLog(c, cmds, imageGiB, mediaGiB);
      var r := Execute(c, cmds[0], imageGiB, mediaGiB);
      if r.Ok? {
        LogFollows(w, r.value, cmds[0] == AttachMedia);
      }
    }
  }

  lemma MountKeepsRest(w: World, ok: bool, after: Content)
    requires RestInv(w) && w.stage.Mounting?
    ensures RestInv(MountStep(w, ok, after))
  {
    Append(w.log, Formatted(w.stage.pending, w.media));
  }

  /** Clearing the marker keeps the owner tags, and everything else. */
  lemma ClearedIsGood(c: Config)
    requires Good(c) && "scsi1" in c
    ensures Good(Cleared(c)) && "scsi1" in Cleared(c) && !Pending(Cleared(c))
  {
    assert HasTag(Get(c, "tags"), OWNER_TAGS[0]);
    var tags := c["tags"].tags;
    var kept := WithoutPending(tags);
    assert OwnerTags(Tags(kept)) by {
      forall tag <- OWNER_TAGS ensures tag in kept {
        assert HasTag(c["tags"], tag);
        assert tag != PENDING && tag != "";
      }
    }
    assert OWNER_TAGS[0] in kept;
    OnlyTagsChange(c, kept);
    ClearedDisks(c);
  }

  lemma OnlyTagsChange(c: Config, tags: seq<string>)
    requires Identity(c) && NetValues(c) && OwnerTags(Tags(tags))
    ensures var d := c["tags" := Tags(tags)]; Identity(d) && NetValues(d) && d["net0"] == c["net0"]
  {
  }

  lemma ClearedDisks(c: Config)
    requires DisksOfShape(c) && "scsi1" in c
    ensures DisksOfShape(Cleared(c)) && "scsi1" in Cleared(c) && !Pending(Cleared(c))
  {
    DiskKeysDiffer();
    assert "tags" in PLAIN_KEYS;
  }

  lemma ClearKeepsRest(w: World, ok: bool, effect: bool)
    requires RestInv(w) && w.stage.Clearing?
    ensures RestInv(Next(w, Clear(ok, effect)))
  {
    ClearedDisks(w.vm.value);
    Append(w.log, MarkerCleared);
  }

  lemma CreationKeepsRest(w: World, ok: bool, effect: bool)
    requires RestInv(w) && w.stage.Creating?
    ensures RestInv(Next(w, Step(ok, effect)))
  {
    CreatedDisks(w.stage.result);
    AfterCreateFits();
  }

  lemma NextKeepsRest(w: World, e: Event)
    requires Inv(w)
    ensures RestInv(Next(w, e))
  {
    assert RestInv(w);
    match e
    case Crash =>
    case Ensure(_, _, _) =>
      if w.stage.Idle? && w.vm.Some? {
        ScriptFits(w.vm.value);
      }
    case Step(ok, effect) =>
      if w.stage.Script? {
        ScriptKeepsRest(w, ok, effect);
      } else if w.stage.Creating? {
        CreationKeepsRest(w, ok, effect);
      }
    case Install(_) =>
    case Mount(ok, after) => if w.stage.Mounting? { MountKeepsRest(w, ok, after); }
    case Clear(ok, effect) => if w.stage.Clearing? { ClearKeepsRest(w, ok, effect); }
  }

  lemma ScriptChangesVm(w: World, ok: bool, effect: bool)
    requires w.stage.Script? && ScriptStep(w, ok, effect).vm != w.vm
    ensures w.vm.Some? && w.stage.cmds != []
    ensures var r := Execute(w.vm.value, w.stage.cmds[0], w.stage.imageGiB, w.stage.mediaGiB);
            r.Ok? && ScriptStep(w, ok, effect).vm == Some(r.value)
  {
  }

  lemma NextChangesVm(w: World, e: Event)
    requires Next(w, e).vm != w.vm
    ensures e.Step? || e.Clear?
    ensures e.Step? ==> w.stage.Creating? || w.stage.Script?
    ensures e.Step? && w.stage.Creating? ==> Next(w, e).vm == Some(w.stage.result)
    ensures e.Clear? ==> w.stage.Clearing? && w.vm.Some? &&
                         Next(w, e).vm == Some(Cleared(w.vm.value))
  {
  }

  lemma CreatedIsGood(c: Config)
    requires CreateResult(c)
    ensures Good(c)
  {
    CreatedIdentity(c);
    CreatedDisks(c);
  }

  /** Every step that changes the configuration leads from a good one to a good one. */
  lemma NextKeepsGood(w: World, e: Event)
    requires w.vm.Some? ==> Good(w.vm.value)
    requires StageInv(w)
    ensures var vm := Next(w, e).vm; vm.Some? ==> Good(vm.value)
  {
    if Next(w, e).vm != w.vm {
      NextChangesVm(w, e);
      match e
      case Step(ok, effect) =>
        if w.stage.Creating? {
          CreatedIsGood(w.stage.result);
        } else {
          ScriptChangesVm(w, ok, effect);
          CommandKeepsGood(w.vm.value, w.stage.cmds, w.stage.imageGiB, w.stage.mediaGiB);
        }
      case Clear(_, _) => ClearedIsGood(w.vm.value);
    }
  }

  lemma {:induction false} RunsKeepInv(es: seq<Event>)
    ensures Inv(Run(es))
  {
    if es != [] {
      RunsKeepInv(es[..|es| - 1]);
      NextKeepsGood(Run(es[..|es| - 1]), es[|es| - 1]);
      NextKeepsRest(Run(es[..|es| - 1]), es[|es| - 1]);
    }
  }

  // ----- theorems -----

  /** The root was attached from an image of another size, and the resize has not happened. */
  predicate RootNotResized(c: Config) {
    "scsi0" in c && c["scsi0"] != Volume(STORAGE, VMID, 0, ROOT_GIB)
  }

  /** The VM is accepted, and recovering it with this image ends in the exact configuration. */
  ghost predicate Recovers(c: Config, imageGiB: int, mediaGiB: int) {
    var r := RunScript(c, RecoveryScript(c), imageGiB, mediaGiB);
    Recoverable(c, mediaGiB) && r.Ok? && Exact(r.value, mediaGiB)
  }

  /**
   Whatever was interrupted, however often, and with whatever sizes: a call finds a
   VM that recovers if and only if it was not stopped between attaching and
   resizing its root, what a missing root will be made from is no larger than the
   root size, and a media disk that is there has the size the call asks for.
   */
  lemma InterruptedVmIsRecoverableIff(es: seq<Event>, imageGiB: int, mediaGiB: int)
    ensures var vm := Run(es).vm;
            vm.Some? ==>
              (Recovers(vm.value, imageGiB, mediaGiB) <==>
               mediaGiB >= 1 && !RootNotResized(vm.value) && RootFits(vm.value, imageGiB) &&
               MediaMatches(vm.value, mediaGiB))
  {
    RunsKeepInv(es);
    var vm := Run(es).vm;
    if vm.Some? {
      GoodIsAccepted(vm.value, imageGiB, mediaGiB);
      if Recoverable(vm.value, mediaGiB) {
        RecoveryGivesExactIff(vm.value, imageGiB, mediaGiB);
      }
    }
  }

  /**
   Over every history, whatever sizes its calls use, the media disk is allocated at
   most once and only under the marker, formatted at most once and only while the
   marker is set and the disk is blank, and neither ever happens after the marker
   was cleared.
   */
  lemma FormattingIsGuarded(es: seq<Event>)
    ensures Guarded(Run(es).log)
  {
    RunsKeepInv(es);
  }

  /** A media disk is never smaller than 1 GiB, and no call under way asks for less. */
  predicate MediaHasSize(w: World) {
    && (w.vm.Some? && "scsi1" in w.vm.value ==> w.vm.value["scsi1"].Volume? && w.vm.value["scsi1"].gib >= 1)
    && (w.stage.Creating? || w.stage.Script? ==> w.stage.mediaGiB >= 1)
  }

  lemma CommandKeepsMedia(c: Config, cmds: seq<Command>, imageGiB: int, mediaGiB: int)
    requires DisksOfShape(c) && cmds != [] && Fits(ShapeOf(c), cmds)
    ensures var r := Execute(c, cmds[0], imageGiB, mediaGiB);
            r.Ok? && "scsi1" in r.value ==>
              if cmds[0] == AttachMedia then r.value["scsi1"].Volume? && r.value["scsi1"].gib == mediaGiB
              else "scsi1" in c && r.value["scsi1"] == c["scsi1"]
  {
    DiskKeysDiffer();
    UnusedOfShape(c);
  }

  lemma StagesKeepMediaSize(w: World, e: Event)
    requires MediaHasSize(w)
    ensures Next(w, e).stage.Creating? || Next(w, e).stage.Script? ==> Next(w, e).stage.mediaGiB >= 1
  {
  }

  lemma ScriptKeepsMediaSize(w: World, e: Event)
    requires (w.vm.Some? ==> DisksOfShape(w.vm.value)) && StageInv(w) && MediaHasSize(w) && w.stage.Script?
    requires e.Step? && ScriptStep(w, e.ok, e.effect).vm != w.vm
    ensures var vm := ScriptStep(w, e.ok, e.effect).vm;
            vm.Some? && "scsi1" in vm.value ==> vm.value["scsi1"].Volume? && vm.value["scsi1"].gib >= 1
  {
    ScriptChangesVm(w, e.ok, e.effect);
    CommandKeepsMedia(w.vm.value, w.stage.cmds, w.stage.imageGiB, w.stage.mediaGiB);
  }

  lemma StepKeepsMediaSize(w: World, e: Event)
    requires (w.vm.Some? ==> DisksOfShape(w.vm.value)) && StageInv(w) && MediaHasSize(w)
    ensures MediaHasSize(Next(w, e))
  {
    StagesKeepMediaSize(w, e);
    if Next(w, e).vm != w.vm {
      NextChangesVm(w, e);
      if e.Clear? {
        DiskKeysDiffer();
      } else if w.stage.Creating? {
        CreatedDisks(w.stage.result);
      } else {
        ScriptKeepsMediaSize(w, e);
      }
    }
  }

  lemma {:induction false} MediaAlwaysHasSize(es: seq<Event>)
    ensures MediaHasSize(Run(es))
  {
    if es != [] {
      MediaAlwaysHasSize(es[..|es| - 1]);
      RunsKeepInv(es[..|es| - 1]);
      StepKeepsMediaSize(Run(es[..|es| - 1]), es[|es| - 1]);
    }
  }

  /** Over every history, a cleared marker means a disk that was formatted and is ext4. */
  lemma ClearedMeansFormatted(es: seq<Event>)
    ensures MarkerCleared in Run(es).log ==> Run(es).media == Filesystem("ext4") && FormattedIn(Run(es).log)
    ensures MarkerCleared in Run(es).log <==> Run(es).vm.Some? && !Pending(Run(es).vm.value)
  {
    RunsKeepInv(es);
  }

  /** And nothing that any later call does changes what a disk that is not blank holds. */
  lemma MediaIsKept(es: seq<Event>, e: Event)
    requires Run(es).media != Blank
    ensures Run(es + [e]).media == Run(es).media
  {
    RunsKeepInv(es);
    RunAppend(es, e);
    var w := Run(es);
    if e.Step? && w.stage.Script? && w.stage.cmds != [] {
      CommandOnLog(w.vm.value, w.stage.cmds, w.stage.imageGiB, w.stage.mediaGiB);
    }
  }

  /** The tags that are left: all of them but the marker and empty ones. */
  ghost predicate OnlyMarkerGone(before: Config, after: Config) {
    && after - {"tags"} == before - {"tags"}
    && forall tag :: HasTag(Get(after, "tags"), tag) <==>
                     HasTag(Get(before, "tags"), tag) && tag != "boetticher-arrstack-media-pending" && tag != ""
  }

  lemma ClearingLeavesTheRest(c: Config)
    requires Get(c, "tags").Tags?
    ensures OnlyMarkerGone(c, Cleared(c))
  {
    ClearedKeepsDisks(c);
  }

  /** Installation in which nothing fails: mount, and clear the marker if it is set. */
  ghost function Installed(w: World, mediaGiB: int): World {
    Next(Next(Next(w, Install(mediaGiB)), Mount(true, EXT4)), Clear(true, true))
  }

  lemma PendingInstallation(w: World, mediaGiB: int)
    requires w.stage == Idle && w.vm.Some? && Exact(w.vm.value, mediaGiB) && Pending(w.vm.value)
    ensures w.media in {Blank, EXT4} ==>
              var w' := Installed(w, mediaGiB);
              w'.stage == Idle && w'.vm == Some(Cleared(w.vm.value)) && w'.media == EXT4 && MarkerCleared in w'.log
    ensures w.media == Dirty ==> Installed(w, mediaGiB) == w
  {
    var mounting := Next(w, Install(mediaGiB));
    assert mounting == w.(stage := Mounting(true));
    var mounted := Next(mounting, Mount(true, EXT4));
    if w.media in {Blank, EXT4} {
      assert mounted.stage == Clearing && mounted.media == EXT4 && mounted.vm == w.vm;
    }
  }

  lemma OrdinaryInstallation(w: World, mediaGiB: int)
    requires w.stage == Idle && w.vm.Some? && Exact(w.vm.value, mediaGiB) && !Pending(w.vm.value)
    ensures Installed(w, mediaGiB) == w
  {
    var mounting := Next(w, Install(mediaGiB));
    assert mounting == w.(stage := Mounting(false));
    assert Next(mounting, Mount(true, EXT4)) == w;
  }

  lemma ClearedIsExact(c: Config, mediaGiB: int)
    requires Good(c) && Exact(c, mediaGiB)
    ensures Exact(Cleared(c), mediaGiB) && !Pending(Cleared(c)) && Cleared(c) - {"tags"} == c - {"tags"}
  {
    ClearedIsGood(c);
    ClearedKeepsDisks(c);
    GoodIsAccepted(c, ROOT_GIB, mediaGiB);
    GoodIsAccepted(Cleared(c), ROOT_GIB, mediaGiB);
  }

  lemma ClearedKeepsDisks(c: Config)
    ensures Cleared(c) - {"tags"} == c - {"tags"} && ShapeOf(Cleared(c)) == ShapeOf(c)
    ensures forall mediaGiB :: MediaMatches(Cleared(c), mediaGiB) <==> MediaMatches(c, mediaGiB)
  {
    DiskKeysDiffer();
  }

  /**
   After every history: unless something fails, installing on an exact VM ends with an ext4 disk,
   the marker cleared and the rest of the configuration as it was, if and only if the
   disk is not the half-written one that a failed mkfs may have left.
   */
  lemma InstallationEndsCleanIff(es: seq<Event>, mediaGiB: int)
    requires var w := Run(es); w.stage == Idle && w.vm.Some? && Exact(w.vm.value, mediaGiB)
    ensures var w, w' := Run(es), Installed(Run(es), mediaGiB);
            && (w.media != Dirty <==> w'.media == Filesystem("ext4") && MarkerCleared in w'.log)
            && w'.stage == Idle && w'.vm.Some? && Exact(w'.vm.value, mediaGiB)
            && (w.media != Dirty && Pending(w.vm.value) ==> OnlyMarkerGone(w.vm.value, w'.vm.value))
            && (w.media == Dirty || !Pending(w.vm.value) ==> w' == w)
  {
    RunsKeepInv(es);
    var w := Run(es);
    if Pending(w.vm.value) {
      PendingInstallation(w, mediaGiB);
      ClearedIsExact(w.vm.value, mediaGiB);
      ClearingLeavesTheRest(w.vm.value);
    } else {
      OrdinaryInstallation(w, mediaGiB);
    }
  }

  // ----- histories with one image size -----

  predicate UsesOnly(es: seq<Event>, imageGiB: int, mediaGiB: int) {
    forall e <- es :: e.Ensure? ==> e.imageGiB == imageGiB && e.mediaGiB == mediaGiB
  }

  predicate SizedDisks(c: Config, imageGiB: int, mediaGiB: int) {
    && ("unused0" in c ==> c["unused0"] == Volume(STORAGE, VMID, 0, imageGiB))
    && ("scsi0" in c ==> c["scsi0"] in {Volume(STORAGE, VMID, 0, imageGiB), Volume(STORAGE, VMID, 0, ROOT_GIB)})
    && MediaMatches(c, mediaGiB)
  }

  /** Every disk and every script under way has the one size. */
  predicate Sized(w: World, imageGiB: int, mediaGiB: int) {
    && (w.vm.Some? ==> SizedDisks(w.vm.value, imageGiB, mediaGiB))
    && (w.stage.Creating? || w.stage.Script? ==> w.stage.imageGiB == imageGiB && w.stage.mediaGiB == mediaGiB)
  }

  lemma CommandKeepsSizes(c: Config, cmds: seq<Command>, imageGiB: int, mediaGiB: int)
    requires DisksOfShape(c) && cmds != [] && Fits(ShapeOf(c), cmds) && SizedDisks(c, imageGiB, mediaGiB)
    ensures var r := Execute(c, cmds[0], imageGiB, mediaGiB); r.Ok? ==> SizedDisks(r.value, imageGiB, mediaGiB)
  {
    DiskKeysDiffer();
    UnusedOfShape(c);
    ShapeDisksUsed(c);
  }

  lemma ClearedKeepsSizes(c: Config, imageGiB: int, mediaGiB: int)
    requires SizedDisks(c, imageGiB, mediaGiB)
    ensures SizedDisks(Cleared(c), imageGiB, mediaGiB)
  {
    DiskKeysDiffer();
  }

  lemma CreatedKeepsSizes(c: Config, imageGiB: int, mediaGiB: int)
    requires CreateResult(c)
    ensures SizedDisks(c, imageGiB, mediaGiB)
  {
    CreatedDisks(c);
  }

  lemma StagesKeepSizes(w: World, e: Event, imageGiB: int, mediaGiB: int)
    requires Sized(w, imageGiB, mediaGiB) && (e.Ensure? ==> e.imageGiB == imageGiB && e.mediaGiB == mediaGiB)
    ensures var stage := Next(w, e).stage;
            stage.Creating? || stage.Script? ==> stage.imageGiB == imageGiB && stage.mediaGiB == mediaGiB
  {
  }

  lemma NextKeepsSizes(w: World, e: Event, imageGiB: int, mediaGiB: int)
    requires (w.vm.Some? ==> DisksOfShape(w.vm.value)) && StageInv(w) && Sized(w, imageGiB, mediaGiB)
    requires e.Ensure? ==> e.imageGiB == imageGiB && e.mediaGiB == mediaGiB
    ensures Sized(Next(w, e), imageGiB, mediaGiB)
  {
    StagesKeepSizes(w, e, imageGiB, mediaGiB);
    if Next(w, e).vm != w.vm {
      NextChangesVm(w, e);
      match e
      case Step(ok, effect) =>
        if w.stage.Creating? {
          CreatedKeepsSizes(w.stage.result, imageGiB, mediaGiB);
        } else {
          ScriptChangesVm(w, ok, effect);
          CommandKeepsSizes(w.vm.value, w.stage.cmds, imageGiB, mediaGiB);
        }
      case Clear(_, _) => ClearedKeepsSizes(w.vm.value, imageGiB, mediaGiB);
    }
  }

  lemma {:induction false} RunsKeepSizes(es: seq<Event>, imageGiB: int, mediaGiB: int)
    requires UsesOnly(es, imageGiB, mediaGiB)
    ensures Sized(Run(es), imageGiB, mediaGiB)
  {
    if es != [] {
      var init, last := es[..|es| - 1], es[|es| - 1];
      assert last in es && forall e <- init :: e in es;
      RunsKeepSizes(init, imageGiB, mediaGiB);
      RunsKeepInv(init);
      NextKeepsSizes(Run(init), last, imageGiB, mediaGiB);
    }
  }

  lemma RootSizedRecovers(es: seq<Event>, mediaGiB: int)
    requires UsesOnly(es, ROOT_GIB, mediaGiB) && mediaGiB >= 1 && Run(es).vm.Some?
    ensures Recovers(Run(es).vm.value, ROOT_GIB, mediaGiB)
  {
    RunsKeepSizes(es, ROOT_GIB, mediaGiB);
    InterruptedVmIsRecoverableIff(es, ROOT_GIB, mediaGiB);
  }

  lemma RunAppend(es: seq<Event>, e: Event)
    ensures Run(es + [e]) == Next(Run(es), e)
  {
    assert (es + [e])[..|es|] == es;
  }

  function RootAttached(c: Config, imageGiB: int): Config {
    c["scsi0" := Volume(STORAGE, VMID, 0, imageGiB)]
  }

  lemma RootComesFromImage(c: Config, imageGiB: int, mediaGiB: int)
    requires DisksOfShape(c) && ShapeOf(c) == 0
    ensures var r := Execute(c, ImportDisk, imageGiB, mediaGiB);
            r.Ok? && Execute(r.value, AttachRoot, imageGiB, mediaGiB) == Ok(RootAttached(c, imageGiB))
  {
    ShapeDisksUsed(c);
    DiskKeysDiffer();
    UnusedOfShape(c);
    var d := c["unused0" := Volume(STORAGE, VMID, 0, imageGiB)];
    assert UnusedKeys(d) == {"unused0"};
    assert (d - {"unused0"})["scsi0" := d["unused0"]] == RootAttached(c, imageGiB);
  }

  lemma StepScript(es: seq<Event>, cmd: Command, rest: seq<Command>, imageGiB: int, mediaGiB: int)
    requires var w := Run(es);
             && w.stage == Script([cmd] + rest, imageGiB, mediaGiB) && w.vm.Some? && cmd != AttachMedia
             && Execute(w.vm.value, cmd, imageGiB, mediaGiB).Ok?
    ensures var w, w' := Run(es), Run(es + [Step(true, true)]);
            && w'.stage == Script(rest, imageGiB, mediaGiB)
            && w'.vm == Some(Execute(w.vm.value, cmd, imageGiB, mediaGiB).value)
  {
    RunAppend(es, Step(true, true));
    assert ([cmd] + rest)[1..] == rest;
  }

  const DONE := Step(true, true)

  lemma CreationStarts(c: Config, imageGiB: int, mediaGiB: int)
    requires CreateResult(c) && mediaGiB >= 1
    ensures var w := Run([Ensure(c, imageGiB, mediaGiB), DONE]);
            w.vm == Some(c) && w.stage == Script(AFTER_CREATE, imageGiB, mediaGiB) && w.media == Blank
  {
    var es := [Ensure(c, imageGiB, mediaGiB)];
    assert es[..0] == [];
    assert Run(es) == Init.(stage := Creating(c, imageGiB, mediaGiB));
    RunAppend(es, DONE);
    assert es + [DONE] == [Ensure(c, imageGiB, mediaGiB), DONE];
  }

  /** Creation stopped right after the root was attached. */
  function StoppedCreation(c: Config, imageGiB: int, mediaGiB: int): seq<Event> {
    [Ensure(c, imageGiB, mediaGiB), DONE, DONE, DONE]
  }

  lemma ScriptAttachesRoot(created: seq<Event>, c: Config, imageGiB: int, mediaGiB: int)
    requires var w := Run(created); w.vm == Some(c) && w.stage == Script(AFTER_CREATE, imageGiB, mediaGiB)
    requires DisksOfShape(c) && ShapeOf(c) == 0
    ensures Run(created + [DONE] + [DONE]).vm == Some(RootAttached(c, imageGiB))
  {
    RootComesFromImage(c, imageGiB, mediaGiB);
    var rest := [AttachRoot, ResizeRoot, AttachMedia];
    assert AFTER_CREATE == [ImportDisk] + rest;
    StepScript(created, ImportDisk, rest, imageGiB, mediaGiB);
    assert rest == [AttachRoot] + [ResizeRoot, AttachMedia];
    StepScript(created + [DONE], AttachRoot, [ResizeRoot, AttachMedia], imageGiB, mediaGiB);
  }

  lemma CreationAttachesRoot(c: Config, imageGiB: int, mediaGiB: int)
    requires CreateResult(c) && mediaGiB >= 1
    ensures Run(StoppedCreation(c, imageGiB, mediaGiB)).vm == Some(RootAttached(c, imageGiB))
  {
    var created := [Ensure(c, imageGiB, mediaGiB), DONE];
    CreationStarts(c, imageGiB, mediaGiB);
    CreatedDisks(c);
    ScriptAttachesRoot(created, c, imageGiB, mediaGiB);
    assert created + [DONE] + [DONE] == StoppedCreation(c, imageGiB, mediaGiB);
  }

  lemma WrongRootIsRefused(d: Config, gib: int, mediaGiB: int)
    requires "scsi0" in d && d["scsi0"] == Volume(STORAGE, VMID, 0, gib) && gib != ROOT_GIB
    ensures !Exact(d, mediaGiB) && !Recoverable(d, mediaGiB)
  {
  }

  /** With an image of any other size, a VM stopped there is accepted by neither validator, so it is stranded. */
  lemma OtherImageSizesStrand(c: Config, imageGiB: int, mediaGiB: int)
    requires CreateResult(c) && imageGiB != ROOT_GIB && mediaGiB >= 1
    ensures var vm := Run(StoppedCreation(c, imageGiB, mediaGiB)).vm;
            vm.Some? && !Exact(vm.value, mediaGiB) && !Recoverable(vm.value, mediaGiB)
  {
    CreationAttachesRoot(c, imageGiB, mediaGiB);
    WrongRootIsRefused(RootAttached(c, imageGiB), imageGiB, mediaGiB);
  }

  ghost predicate AlwaysRecovers(imageGiB: int, mediaGiB: int) {
    forall es :: UsesOnly(es, imageGiB, mediaGiB) && Run(es).vm.Some? ==> Recovers(Run(es).vm.value, imageGiB, mediaGiB)
  }

  /** Exactly with images of the root size does every interrupted VM recover. */
  lemma AlwaysRecoversIffRootSized(imageGiB: int, mediaGiB: int)
    requires mediaGiB >= 1
    ensures AlwaysRecovers(imageGiB, mediaGiB) <==> imageGiB == ROOT_GIB
  {
    if imageGiB == ROOT_GIB {
      forall es | UsesOnly(es, imageGiB, mediaGiB) && Run(es).vm.Some?
        ensures Recovers(Run(es).vm.value, imageGiB, mediaGiB) {
        RootSizedRecovers(es, mediaGiB);
      }
    } else {
      var c := CreateResultOccurs();
      var es := StoppedCreation(c, imageGiB, mediaGiB);
      OtherImageSizesStrand(c, imageGiB, mediaGiB);
      assert UsesOnly(es, imageGiB, mediaGiB) && Run(es).vm.Some?;
    }
  }

  // ----- calls in which nothing fails -----

  function Repeat(n: nat): seq<Event> {
    if n == 0 then [] else Repeat(n - 1) + [DONE]
  }

  ghost function Steps(w: World, n: nat): World
    decreases n
  {
    if n == 0 then w else Steps(Next(w, DONE), n - 1)
  }

  lemma {:induction false} StepsOneMore(w: World, n: nat)
    ensures Steps(w, n + 1) == Next(Steps(w, n), DONE)
    decreases n
  {
    if n > 0 {
      StepsOneMore(Next(w, DONE), n - 1);
    }
  }

  lemma RepeatOneMore(es: seq<Event>, n: nat)
    ensures es + Repeat(n + 1) == es + Repeat(n) + [DONE]
  {
  }

  lemma RunOneMore(es: seq<Event>, n: nat)
    ensures Run(es + Repeat(n + 1)) == Next(Run(es + Repeat(n)), DONE)
    ensures Steps(Run(es), n + 1) == Next(Steps(Run(es), n), DONE)
  {
    RepeatOneMore(es, n);
    RunAppend(es + Repeat(n), DONE);
    StepsOneMore(Run(es), n);
  }

  lemma {:induction false} RunRepeat(es: seq<Event>, n: nat)
    ensures Run(es + Repeat(n)) == Steps(Run(es), n)
  {
    if n == 0 {
      assert es + [] == es;
    } else {
      RunRepeat(es, n - 1);
      RunOneMore(es, n - 1);
    }
  }

  /** A script whose commands succeed is run to its end, command by command. */
  lemma {:induction false} ScriptCompletes(w: World)
    requires w.stage.Script? && w.vm.Some?
    requires RunScript(w.vm.value, w.stage.cmds, w.stage.imageGiB, w.stage.mediaGiB).Ok?
    ensures var w' := Steps(w, |w.stage.cmds| + 1);
            && w'.stage == Idle
            && w'.vm == Some(RunScript(w.vm.value, w.stage.cmds, w.stage.imageGiB, w.stage.mediaGiB).value)
            && w'.media in {w.media, Blank}
    decreases |w.stage.cmds|
  {
    var Script(cmds, imageGiB, mediaGiB) := w.stage;
    if cmds == [] {
      assert Steps(w, 1) == Steps(Next(w, DONE), 0);
    } else {
      var next := Next(w, DONE);
      assert next.stage == Script(cmds[1..], imageGiB, mediaGiB);
      ScriptCompletes(next);
    }
  }

  lemma CallStartsScript(w: World, created: Config, imageGiB: int, mediaGiB: int)
    requires w.stage == Idle && w.vm.Some? && !Exact(w.vm.value, mediaGiB) && Recoverable(w.vm.value, mediaGiB)
    ensures Next(w, Ensure(created, imageGiB, mediaGiB)) ==
            w.(stage := Script(RecoveryScript(w.vm.value), imageGiB, mediaGiB))
  {
  }

  ghost predicate EndsExact(w: World, mediaGiB: int) {
    w.stage == Idle && w.vm.Some? && Exact(w.vm.value, mediaGiB)
  }

  /** The VM a call finds can be recovered by it. */
  ghost predicate FindsRecoverable(w: World, imageGiB: int, mediaGiB: int) {
    w.stage == Idle && w.vm.Some? && Recovers(w.vm.value, imageGiB, mediaGiB)
  }

  /** Every command of the recovery script, and the end of the script. */
  function ScriptLength(w: World): nat {
    if w.vm.Some? then |RecoveryScript(w.vm.value)| + 1 else 0
  }

  lemma ExactCall(w: World, created: Config, imageGiB: int, mediaGiB: int, n: nat)
    requires EndsExact(w, mediaGiB)
    ensures Steps(Next(w, Ensure(created, imageGiB, mediaGiB)), n) == w
  {
    IdleStays(w, n);
  }

  lemma PartialCall(w: World, created: Config, imageGiB: int, mediaGiB: int)
    requires FindsRecoverable(w, imageGiB, mediaGiB) && !EndsExact(w, mediaGiB)
    ensures EndsExact(Steps(Next(w, Ensure(created, imageGiB, mediaGiB)), ScriptLength(w)), mediaGiB)
  {
    CallStartsScript(w, created, imageGiB, mediaGiB);
    ScriptEndsExact(Next(w, Ensure(created, imageGiB, mediaGiB)));
  }

  lemma CallCompletes(w: World, created: Config, imageGiB: int, mediaGiB: int)
    requires FindsRecoverable(w, imageGiB, mediaGiB)
    ensures EndsExact(Steps(Next(w, Ensure(created, imageGiB, mediaGiB)), ScriptLength(w)), mediaGiB)
  {
    if EndsExact(w, mediaGiB) {
      ExactCall(w, created, imageGiB, mediaGiB, ScriptLength(w));
    } else {
      PartialCall(w, created, imageGiB, mediaGiB);
    }
  }

  lemma ScriptEndsExact(w: World)
    requires w.stage.Script? && w.vm.Some?
    requires var r := RunScript(w.vm.value, w.stage.cmds, w.stage.imageGiB, w.stage.mediaGiB);
             r.Ok? && Exact(r.value, w.stage.mediaGiB)
    ensures EndsExact(Steps(w, |w.stage.cmds| + 1), w.stage.mediaGiB)
  {
    ScriptCompletes(w);
  }

  /**
   After every history: a call that finds a VM which recovers, and in which nothing fails,
   leaves the exact VM.
   */
  lemma RecoveryCompletes(es: seq<Event>, created: Config, imageGiB: int, mediaGiB: int)
    requires FindsRecoverable(Run(es), imageGiB, mediaGiB)
    ensures EndsExact(Run(es + [Ensure(created, imageGiB, mediaGiB)] + Repeat(ScriptLength(Run(es)))), mediaGiB)
  {
    CallCompletes(Run(es), created, imageGiB, mediaGiB);
    RunCall(es, Ensure(created, imageGiB, mediaGiB), ScriptLength(Run(es)));
  }

  lemma RunCall(es: seq<Event>, call: Event, n: nat)
    ensures Run(es + [call] + Repeat(n)) == Steps(Next(Run(es), call), n)
  {
    RunAppend(es, call);
    RunRepeat(es + [call], n);
  }

  lemma {:induction false} IdleStays(w: World, n: nat)
    requires w.stage == Idle
    ensures Steps(w, n) == w
    decreases n
  {
    if n > 0 {
      IdleStays(Next(w, DONE), n - 1);
    }
  }

  lemma ResizeRuns(c: Config, imageGiB: int, mediaGiB: int)
    requires imageGiB <= ROOT_GIB
    ensures Execute(RootAttached(c, imageGiB), ResizeRoot, imageGiB, mediaGiB) == Ok(RootAttached(c, ROOT_GIB))
  {
    var d := RootAttached(c, imageGiB);
    assert d["scsi0" := d["scsi0"].(gib := ROOT_GIB)] == RootAttached(c, ROOT_GIB);
  }

  lemma MediaAttached(c: Config, imageGiB: int, mediaGiB: int)
    requires Good(c) && ShapeOf(c) == 3 && mediaGiB >= 1
    ensures var r := Execute(c, AttachMedia, imageGiB, mediaGiB);
            r.Ok? && Exact(r.value, mediaGiB) && Pending(r.value)
  {
    assert [AttachMedia][1..] == [];
    CommandKeepsGood(c, [AttachMedia], imageGiB, mediaGiB);
    CommandOnLog(c, [AttachMedia], imageGiB, mediaGiB);
    ShapeDisksUsed(c);
    GoodIsAccepted(Execute(c, AttachMedia, imageGiB, mediaGiB).value, imageGiB, mediaGiB);
  }

  lemma RootAttachedIsGood(c: Config)
    requires Good(c) && ShapeOf(c) == 0
    ensures Good(RootAttached(c, ROOT_GIB)) && ShapeOf(RootAttached(c, ROOT_GIB)) == 3
  {
    RootComesFromImage(c, ROOT_GIB, 1);
    AfterCreateFits();
    assert AFTER_CREATE[1..][0] == AttachRoot;
    CommandKeepsGood(c, AFTER_CREATE, ROOT_GIB, 1);
    CommandKeepsGood(Execute(c, ImportDisk, ROOT_GIB, 1).value, AFTER_CREATE[1..], ROOT_GIB, 1);
  }

  /** Creation from an image within the root size, if nothing fails. */
  lemma CreationRuns(c: Config, imageGiB: int, mediaGiB: int)
    requires CreateResult(c) && imageGiB <= ROOT_GIB && mediaGiB >= 1
    ensures var r := RunScript(c, AFTER_CREATE, imageGiB, mediaGiB);
            r.Ok? && Exact(r.value, mediaGiB) && Pending(r.value)
  {
    CreatedIsGood(c);
    CreatedDisks(c);
    RootComesFromImage(c, imageGiB, mediaGiB);
    ResizeRuns(c, imageGiB, mediaGiB);
    RootAttachedIsGood(c);
    MediaAttached(RootAttached(c, ROOT_GIB), imageGiB, mediaGiB);
    assert AFTER_CREATE == [ImportDisk, AttachRoot] + [ResizeRoot, AttachMedia];
    RunConcat(c, [ImportDisk, AttachRoot], [ResizeRoot, AttachMedia], imageGiB, mediaGiB);
    RunTwo(c, ImportDisk, AttachRoot, imageGiB, mediaGiB);
    RunTwo(RootAttached(c, imageGiB), ResizeRoot, AttachMedia, imageGiB, mediaGiB);
  }

  function FirstCreation(c: Config, imageGiB: int, mediaGiB: int): seq<Event> {
    [Ensure(c, imageGiB, mediaGiB), DONE] + Repeat(5)
  }

  lemma FirstCreationIsExact(c: Config, imageGiB: int, mediaGiB: int)
    requires CreateResult(c) && imageGiB <= ROOT_GIB && mediaGiB >= 1
    ensures var w := Run(FirstCreation(c, imageGiB, mediaGiB));
            w.stage == Idle && w.vm.Some? && Exact(w.vm.value, mediaGiB) && w.media == Blank
  {
    CreationStarts(c, imageGiB, mediaGiB);
    var started := [Ensure(c, imageGiB, mediaGiB), DONE];
    CreationRuns(c, imageGiB, mediaGiB);
    RunRepeat(started, 5);
    ScriptCompletes(Run(started));
  }

  lemma RunInstallation(es: seq<Event>, mediaGiB: int)
    ensures Run(es + [Install(mediaGiB), Mount(true, EXT4), Clear(true, true)]) == Installed(Run(es), mediaGiB)
  {
    var one, two := es + [Install(mediaGiB)], es + [Install(mediaGiB), Mount(true, EXT4)];
    RunAppend(es, Install(mediaGiB));
    assert two == one + [Mount(true, EXT4)];
    RunAppend(one, Mount(true, EXT4));
    assert es + [Install(mediaGiB), Mount(true, EXT4), Clear(true, true)] == two + [Clear(true, true)];
    RunAppend(two, Clear(true, true));
  }

  /**
   The first installation, if nothing fails: from creation to the cleared marker it ends with
   the exact VM on a formatted disk.
   */
  lemma FirstInstallationFormats(c: Config, imageGiB: int, mediaGiB: int)
    requires CreateResult(c) && imageGiB <= ROOT_GIB && mediaGiB >= 1
    ensures var w := Run(FirstCreation(c, imageGiB, mediaGiB) +
                         [Install(mediaGiB), Mount(true, EXT4), Clear(true, true)]);
            && w.stage == Idle && w.vm.Some? && Exact(w.vm.value, mediaGiB) && !Pending(w.vm.value)
            && w.media == Filesystem("ext4") && FormattedIn(w.log) && MarkerCleared in w.log
  {
    var es := FirstCreation(c, imageGiB, mediaGiB);
    FirstCreationIsExact(c, imageGiB, mediaGiB);
    RunInstallation(es, mediaGiB);
    InstallationEndsCleanIff(es, mediaGiB);
    ClearedMeansFormatted(es + [Install(mediaGiB), Mount(true, EXT4), Clear(true, true)]);
  }

  function WithSpareDisk(c: Config): Config {
    c["unused0" := Volume(STORAGE, VMID, 1, ROOT_GIB)]
  }

  lemma SpareDiskKeepsIdentity(c: Config)
    requires CreateResult(c)
    ensures var d := WithSpareDisk(c); Identity(d) && NetValues(d) && |d["net0"].options| == 4
  {
    CreatedIdentity(c);
    DiskKeysAreNotIdentity("unused0");
    IdentityFrame(c, WithSpareDisk(c));
    assert "net0" in IDENTITY_KEYS;
    FourNetKeys(c);
  }

  lemma SpareDiskKeys(c: Config)
    requires REQUESTED_KEYS <= c.Keys <= REQUESTED_KEYS + GENERATED_KEYS && (forall key <- c :: !c[key].Volume?)
    ensures var d := WithSpareDisk(c);
            && UnusedKeys(d) == {"unused0"} && "scsi0" !in d && "scsi1" !in d && Typed(d)
            && (forall key <- d :: if UnusedKey(key) then Digits(key[6..]) else key in PLAIN_KEYS)
  {
    CreateKeysArePlain();
    NoDiskIsRequested();
    DiskKeysDiffer();
    PlainKeysAreNotUnused();
    var key := "unused0";
    assert key[6..] == "0" && Digits("0");
  }

  lemma SpareDiskIsNotRepaired(d: Config, imageGiB: int, mediaGiB: int)
    requires UnusedKeys(d) == {"unused0"} && "scsi0" !in d && "scsi1" !in d &&
             d["unused0"] == Volume(STORAGE, VMID, 1, ROOT_GIB)
    ensures RecoverableDisks(d, mediaGiB) && !CanRepair(d, imageGiB)
  {
    assert forall key <- d :: UnusedKey(key) ==> key in UnusedKeys(d);
    assert FirstUnused(d) == "unused0";
  }

  lemma SpareDiskIsAccepted(d: Config, mediaGiB: int)
    requires mediaGiB >= 1 && Identity(d) && NetValues(d) && |d["net0"].options| == 4 && RecoverableDisks(d, mediaGiB)
    requires forall key <- d :: if UnusedKey(key) then Digits(key[6..]) else key in PLAIN_KEYS
    ensures Recoverable(d, mediaGiB)
  {
  }

  /**
   The recoverable validator is wider than what recovery can repair: a created VM
   whose root was imported as disk 1 is accepted, and its recovery does
   not end in the exact configuration.
   */
  lemma AcceptedButNotRepaired(c: Config, imageGiB: int, mediaGiB: int)
    requires CreateResult(c) && mediaGiB >= 1
    ensures var d := WithSpareDisk(c);
            var r := RunScript(d, RecoveryScript(d), imageGiB, mediaGiB);
            Recoverable(d, mediaGiB) && !(r.Ok? && Exact(r.value, mediaGiB))
  {
    SpareDiskKeys(c);
    SpareDiskIsNotRepaired(WithSpareDisk(c), imageGiB, mediaGiB);
    SpareDiskKeepsIdentity(c);
    SpareDiskIsAccepted(WithSpareDisk(c), mediaGiB);
    RecoveryGivesExactIff(WithSpareDisk(c), imageGiB, mediaGiB);
  }
}
