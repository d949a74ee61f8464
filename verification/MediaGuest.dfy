/**
 The media VM: the exact and the recoverable validator of its Proxmox
 configuration, the command sequences that create and recover it, and the
 marker that guards first-use formatting of its media disk.
 */
module MediaGuest {
  import opened Common
  import opened Text

  const VMID := 290
  const STORAGE := "boetticher-data"
  const ROOT_GIB := 32
  const PENDING := "boetticher-arrstack-media-pending"
  const OWNER_TAGS := ["boetticher", "managed", "module", "boetticher-module-media"]
  const MAC := "02:00:00:00:20:e6"

  const PLAIN_KEYS: set<string> :=
    {"agent", "boot", "cores", "cpu", "digest", "hostpci0", "ide2", "machine", "memory", "meta", "name", "net0",
     "numa", "onboot", "ostype", "scsi0", "scsi1", "scsihw", "serial0", "smbios1", "tags", "ipconfig0",
     "nameserver", "vmgenid"}

  /** A configuration value: plain text, a tag list, an option list, or a volume with its size. */
  datatype Value =
    | Text(text: string)
    | Tags(tags: seq<string>)
    | Options(options: map<string, string>)
    | Volume(storage: string, vm: int, disk: nat, gib: int)

  type Config = map<string, Value>

  /** A missing key reads as the empty text. */
  function Get(c: Config, key: string): Value {
    if key in c then c[key] else Text("")
  }

  predicate HasTag(v: Value, tag: string) {
    v.Tags? && tag in v.tags
  }

  /** The one accepted GPU function: 0000:XX:02.0, PCIe, optionally without its ROM. */
  predicate ValidGpu(v: Value) {
    && v.Text? && |v.text| > 7 && v.text[..5] == "0000:" && IsHex(v.text[5]) && IsHex(v.text[6])
    && (v.text[7..] == ":02.0,pcie=1" || v.text[7..] == ":02.0,pcie=1,rombar=0")
  }

  predicate DiskOwned(v: Value, disk: nat, gib: int) {
    v == Volume(STORAGE, VMID, disk, gib)
  }

  // ----- what both validators demand -----

  predicate OwnerTags(v: Value) {
    forall tag <- OWNER_TAGS :: HasTag(v, tag)
  }

  predicate BootsFromRoot(v: Value) {
    v.Text? && ContainsText(v.text, "order=scsi0")
  }

  predicate CloudInitDrive(v: Value) {
    v.Text? && (HasPrefix(v.text, STORAGE + ":cloudinit") || HasPrefix(v.text, STORAGE + ":vm-290-cloudinit"))
  }

  predicate Identity(c: Config) {
    && Get(c, "name") == Text("lab-media-01") && Get(c, "cpu") == Text("x86-64-v3")
    && Get(c, "cores") == Text("4") && Get(c, "memory") == Text("8192")
    && Get(c, "onboot") == Text("0") && Get(c, "agent") == Text("1")
    && Get(c, "ostype") == Text("l26") && Get(c, "scsihw") == Text("virtio-scsi-single")
    && OwnerTags(Get(c, "tags")) && BootsFromRoot(Get(c, "boot"))
    && Get(c, "ipconfig0") == Text("ip=10.10.20.230/24,gw=10.10.20.1")
    && Get(c, "nameserver") == Text("10.10.20.1") && Get(c, "serial0") == Text("socket")
    && CloudInitDrive(Get(c, "ide2"))
    && ("hostpci0" in c ==> ValidGpu(c["hostpci0"]))
  }

  predicate NetValues(c: Config) {
    && Get(c, "net0").Options?
    && var net := Get(c, "net0").options;
    && NET_KEYS <= net.Keys
    && net["bridge"] == "vmbr1" && net["tag"] == "20" && net["firewall"] == "1" && EqualFold(net["virtio"], MAC)
  }

  /** `ValidateGuestConfigForSize`. */
  predicate Exact(c: Config, mediaGiB: int) {
    && mediaGiB >= 1
    && (forall key <- c :: key in PLAIN_KEYS)
    && Identity(c)
    && NetValues(c) && (forall key <- c["net0"].options :: key in NET_KEYS)
    && DiskOwned(Get(c, "scsi0"), 0, ROOT_GIB) && DiskOwned(Get(c, "scsi1"), 1, mediaGiB)
  }

  // ----- the same demands, entry by entry -----

  predicate Says(c: Config, key: string, text: string) {
    key in c && c[key] == Text(text)
  }

  lemma GetIs(c: Config, key: string, text: string)
    requires text != ""
    ensures Get(c, key) == Text(text) <==> Says(c, key, text)
  {
  }

  /** The options that are fixed to one text. */
  predicate SaysFixed(c: Config) {
    && Says(c, "name", "lab-media-01") && Says(c, "cpu", "x86-64-v3") && Says(c, "cores", "4")
    && Says(c, "memory", "8192") && Says(c, "onboot", "0") && Says(c, "agent", "1") && Says(c, "ostype", "l26")
    && Says(c, "scsihw", "virtio-scsi-single") && Says(c, "serial0", "socket")
    && Says(c, "ipconfig0", "ip=10.10.20.230/24,gw=10.10.20.1") && Says(c, "nameserver", "10.10.20.1")
  }

  /** The four owner tags, a boot order from the root disk, a cloud-init drive of the store, and no foreign GPU. */
  ghost predicate SaysRest(c: Config) {
    && "tags" in c && c["tags"].Tags?
    && {"boetticher", "managed", "module", "boetticher-module-media"} <= (set tag <- c["tags"].tags)
    && (exists a, b :: Says(c, "boot", a + "order=scsi0" + b))
    && (exists rest :: Says(c, "ide2", "boetticher-data" + ":cloudinit" + rest) ||
                       Says(c, "ide2", "boetticher-data" + ":vm-290-cloudinit" + rest))
    && ("hostpci0" in c ==> exists text, x, y :: c["hostpci0"] == Text(text) && GpuText(text, x, y))
  }

  /** 0000:XY:02.0,pcie=1, with or without a ROM bar. */
  ghost predicate GpuText(text: string, x: char, y: char) {
    IsHex(x) && IsHex(y) && (text == "0000:" + [x, y] + ":02.0,pcie=1" ||
                             text == "0000:" + [x, y] + ":02.0,pcie=1,rombar=0")
  }

  lemma FixedIff(c: Config)
    ensures SaysFixed(c) <==>
            && Get(c, "name") == Text("lab-media-01") && Get(c, "cpu") == Text("x86-64-v3")
            && Get(c, "cores") == Text("4") && Get(c, "memory") == Text("8192")
            && Get(c, "onboot") == Text("0") && Get(c, "agent") == Text("1")
            && Get(c, "ostype") == Text("l26") && Get(c, "scsihw") == Text("virtio-scsi-single")
            && Get(c, "ipconfig0") == Text("ip=10.10.20.230/24,gw=10.10.20.1")
            && Get(c, "nameserver") == Text("10.10.20.1") && Get(c, "serial0") == Text("socket")
  {
    GetIs(c, "name", "lab-media-01");
    GetIs(c, "cpu", "x86-64-v3");
    GetIs(c, "cores", "4");
    GetIs(c, "memory", "8192");
    GetIs(c, "onboot", "0");
    GetIs(c, "agent", "1");
    GetIs(c, "ostype", "l26");
    GetIs(c, "scsihw", "virtio-scsi-single");
    GetIs(c, "serial0", "socket");
    GetIs(c, "ipconfig0", "ip=10.10.20.230/24,gw=10.10.20.1");
    GetIs(c, "nameserver", "10.10.20.1");
  }

  lemma GpuIff(v: Value)
    ensures ValidGpu(v) <==> exists text, x, y :: v == Text(text) && GpuText(text, x, y)
  {
    if ValidGpu(v) {
      var text := v.text;
      assert text == text[..5] + [text[5], text[6]] + text[7..];
      assert GpuText(text, text[5], text[6]);
    }
    if text, x, y :| v == Text(text) && GpuText(text, x, y) {
      assert text[..5] == "0000:" && text[5] == x && text[6] == y;
      assert text[7..] == ":02.0,pcie=1" || text[7..] == ":02.0,pcie=1,rombar=0";
    }
  }
  predicate UnusedKey(key: string) {
    HasPrefix(key, "unused")
  }

  predicate Digits(s: string) {
    s != "" && forall ch <- s :: '0' <= ch <= '9'
  }

  function UnusedKeys(c: Config): set<string> {
    set key | key in c && UnusedKey(key)
  }

  /** The disk entries of a recoverable configuration. */
  predicate RecoverableDisks(c: Config, mediaGiB: int) {
    && (forall key <- c :: UnusedKey(key) ==> c[key].Volume? && c[key].storage == STORAGE && c[key].vm == VMID)
    && ("scsi0" in c ==> DiskOwned(c["scsi0"], 0, ROOT_GIB))
    && ("scsi1" in c ==> DiskOwned(c["scsi1"], 1, mediaGiB))
    && ("scsi0" in c ==> |UnusedKeys(c)| == 0)
    && ("scsi0" !in c ==> |UnusedKeys(c)| <= 1)
  }

  /** `ValidateRecoverableGuestConfigForSize`. */
  predicate Recoverable(c: Config, mediaGiB: int) {
    && mediaGiB >= 1
    && (forall key <- c :: if UnusedKey(key) then Digits(key[6..]) else key in PLAIN_KEYS)
    && Identity(c)
    && NetValues(c) && |c["net0"].options| == 4
    && RecoverableDisks(c, mediaGiB)
  }

  lemma PlainKeysAreNotUnused()
    ensures forall key <- PLAIN_KEYS :: !UnusedKey(key)
  {
    assert forall key <- PLAIN_KEYS :: |key| > 0 && key[0] != 'u';
    forall key: string | |key| > 0 && key[0] != 'u' ensures !UnusedKey(key) {
      assert |key| >= 6 ==> key[..6][0] == key[0];
    }
  }

  /** The exact configuration is also recoverable. */
  lemma ExactIsRecoverable(c: Config, mediaGiB: int)
    requires Exact(c, mediaGiB)
    ensures Recoverable(c, mediaGiB)
  {
    PlainKeysAreNotUnused();
    assert c["net0"].options.Keys == NET_KEYS;
    assert |NET_KEYS| == 4;
    assert UnusedKeys(c) == {};
  }

  // ----- both validators, entry by entry -----

  /** The one network card, and nothing else about it. */
  ghost predicate SaysCard(c: Config) {
    && "net0" in c && c["net0"].Options? && c["net0"].options.Keys == {"virtio", "bridge", "tag", "firewall"}
    && c["net0"].options["bridge"] == "vmbr1" && c["net0"].options["tag"] == "20"
    && c["net0"].options["firewall"] == "1" && |c["net0"].options["virtio"]| == |MAC_TEXT|
    && forall i :: 0 <= i < |MAC_TEXT| ==> SameLetter(c["net0"].options["virtio"][i], MAC_TEXT[i])
  }

  const MAC_TEXT := "02:00:00:00:20:e6"

  lemma CardIff(c: Config)
    ensures SaysCard(c) <==> NetValues(c) && c["net0"].options.Keys == NET_KEYS
  {
    if "net0" in c && c["net0"].Options? && "virtio" in c["net0"].options {
      EqualFoldIff(c["net0"].options["virtio"], MAC);
    }
  }

  lemma TagsIff(c: Config)
    ensures OwnerTags(Get(c, "tags")) <==>
            "tags" in c && c["tags"].Tags? &&
            {"boetticher", "managed", "module", "boetticher-module-media"} <= (set tag <- c["tags"].tags)
  {
    OwnerTagsAre();
    if OwnerTags(Get(c, "tags")) {
      forall tag <- OWNER_TAGS ensures tag in Get(c, "tags").tags {
      }
      assert HasTag(Get(c, "tags"), OWNER_TAGS[0]);
    }
  }

  lemma OwnerTagsAre()
    ensures (set tag <- OWNER_TAGS) == {"boetticher", "managed", "module", "boetticher-module-media"}
  {
    var tags := OWNER_TAGS;
    assert tags[0] in tags && tags[1] in tags && tags[2] in tags && tags[3] in tags;
  }

  lemma BootIff(c: Config)
    ensures BootsFromRoot(Get(c, "boot")) <==> exists a, b :: Says(c, "boot", a + "order=scsi0" + b)
  {
    var order := "order=scsi0";
    if BootsFromRoot(Get(c, "boot")) {
      var text := Get(c, "boot").text;
      var i :| 0 <= i <= |text| && HasAt(text, order, i);
      assert text == text[..i] + order + text[i + |order|..];
      assert text != "";
    }
    if a, b :| Says(c, "boot", a + order + b) {
      var text := a + order + b;
      assert text[|a|..|a| + |order|] == order;
      assert HasAt(text, order, |a|);
    }
  }

  lemma PrefixIff(text: string, prefix: string)
    ensures HasPrefix(text, prefix) <==> exists rest :: text == prefix + rest
  {
    if HasPrefix(text, prefix) {
      assert text == prefix + text[|prefix|..];
    }
  }

  lemma CloudIff(c: Config)
    ensures CloudInitDrive(Get(c, "ide2")) <==>
            exists rest :: Says(c, "ide2", "boetticher-data" + ":cloudinit" + rest) ||
                           Says(c, "ide2", "boetticher-data" + ":vm-290-cloudinit" + rest)
  {
    if Get(c, "ide2").Text? {
      PrefixIff(Get(c, "ide2").text, STORAGE + ":cloudinit");
      PrefixIff(Get(c, "ide2").text, STORAGE + ":vm-290-cloudinit");
    }
    assert |STORAGE + ":cloudinit"| > 0 && |STORAGE + ":vm-290-cloudinit"| > 0;
  }

  lemma IdentityIff(c: Config)
    ensures Identity(c) <==> SaysFixed(c) && SaysRest(c)
  {
    FixedIff(c);
    TagsIff(c);
    BootIff(c);
    CloudIff(c);
    if "hostpci0" in c {
      GpuIff(c["hostpci0"]);
    }
  }

  ghost predicate KnownKeys(keys: set<string>) {
    keys <= {"agent", "boot", "cores", "cpu", "digest", "hostpci0", "ide2", "machine", "memory", "meta", "name",
             "net0", "numa", "onboot", "ostype", "scsi0", "scsi1", "scsihw", "serial0", "smbios1", "tags",
             "ipconfig0", "nameserver", "vmgenid"}
  }

  lemma KnownKeysIff(c: Config)
    ensures KnownKeys(c.Keys) <==> forall key <- c :: key in PLAIN_KEYS
  {
  }

  /** The exact configuration, entry by entry. */
  lemma ExactIff(c: Config, mediaGiB: int)
    ensures Exact(c, mediaGiB) <==>
            && mediaGiB >= 1 && KnownKeys(c.Keys) && SaysFixed(c) && SaysRest(c) && SaysCard(c)
            && "scsi0" in c && c["scsi0"] == Volume("boetticher-data", 290, 0, 32)
            && "scsi1" in c && c["scsi1"] == Volume("boetticher-data", 290, 1, mediaGiB)
  {
    KnownKeysIff(c);
    IdentityIff(c);
    CardIff(c);
  }

  /** One more key: a volume of this VM that is attached nowhere. */
  ghost predicate Spare(c: Config, key: string)
    requires key in c
  {
    && (exists n :: key == "unused" + n && Digits(n))
    && c[key].Volume? && c[key].storage == "boetticher-data" && c[key].vm == 290
  }

  lemma SpareIff(c: Config, key: string)
    requires key in c
    ensures Spare(c, key) <==>
            UnusedKey(key) && Digits(key[6..]) && c[key].Volume? && c[key].storage == STORAGE && c[key].vm == VMID
  {
    if UnusedKey(key) {
      assert key == "unused" + key[6..];
    }
    if n :| key == "unused" + n && Digits(n) {
      assert key[6..] == n;
    }
  }

  ghost predicate RootOrOneSpare(c: Config) {
    forall key, other :: key in c && other in c && UnusedKey(key) && UnusedKey(other) ==>
      key == other && "scsi0" !in c
  }

  lemma RootOrOneSpareIff(c: Config)
    ensures RootOrOneSpare(c) <==>
            ("scsi0" in c ==> |UnusedKeys(c)| == 0) && ("scsi0" !in c ==> |UnusedKeys(c)| <= 1)
  {
    var spare := UnusedKeys(c);
    assert forall key :: key in spare <==> key in c && UnusedKey(key);
    if spare != {} {
      var key :| key in spare;
      assert |spare| == |spare - {key}| + 1;
      if RootOrOneSpare(c) {
        assert "scsi0" !in c && spare - {key} == {};
      } else if |spare| <= 1 {
        assert spare - {key} == {};
      }
    }
  }

  /** The configurations that recovery accepts, entry by entry. */
  lemma RecoverableIff(c: Config, mediaGiB: int)
    ensures Recoverable(c, mediaGiB) <==>
            && mediaGiB >= 1 && SaysFixed(c) && SaysRest(c) && SaysCard(c) && RootOrOneSpare(c)
            && (forall key <- c :: if UnusedKey(key) then Spare(c, key) else KnownKeys({key}))
            && ("scsi0" in c ==> c["scsi0"] == Volume("boetticher-data", 290, 0, 32))
            && ("scsi1" in c ==> c["scsi1"] == Volume("boetticher-data", 290, 1, mediaGiB))
  {
    IdentityIff(c);
    CardIff(c);
    RootOrOneSpareIff(c);
    if NetValues(c) {
      FourNetKeys(c);
    }
    forall key <- c
      ensures Spare(c, key) <==>
              UnusedKey(key) && Digits(key[6..]) && c[key].Volume? && c[key].storage == STORAGE && c[key].vm == VMID
      ensures KnownKeys({key}) <==> key in PLAIN_KEYS {
      SpareIff(c, key);
      KeyIsKnown(key);
    }
  }

  lemma KeyIsKnown(key: string)
    ensures KnownKeys({key}) <==> key in PLAIN_KEYS
  {
  }

  // ----- the Host commands and what they do -----

  datatype Command = ImportDisk | AttachRoot | ResizeRoot | CheckPending | AttachMedia

  /** Disk numbers already taken by volumes of this VM. */
  function UsedDisks(c: Config): set<nat> {
    set key | key in c && c[key].Volume? :: c[key].disk
  }

  function LeastNotIn(used: set<nat>, from: nat): (n: nat)
    ensures n >= from && n !in used && forall k: nat :: from <= k < n ==> k in used
    decreases |used|
  {
    if from !in used then from
    else
      var rest := used - {from};
      assert forall k <- rest :: k in used;
      LeastNotIn(rest, from + 1)
  }

  /** Keys Proxmox adds on its own. */
  const GENERATED_KEYS: set<string> := {"digest", "machine", "meta", "numa", "smbios1", "vmgenid"}

  const REQUESTED_KEYS: set<string> :=
    {"name", "cpu", "cores", "memory", "onboot", "agent", "ostype", "scsihw", "boot", "serial0", "tags", "net0",
     "ipconfig0", "nameserver", "ide2"}

  const NET_KEYS: set<string> := {"virtio", "bridge", "tag", "firewall"}

  /** What `qm create` stores for the requested network card; Proxmox may respell the MAC. */
  predicate CreatedNet(v: Value) {
    && v.Options? && v.options.Keys == NET_KEYS
    && v.options["bridge"] == "vmbr1" && v.options["tag"] == "20" && v.options["firewall"] == "1"
    && EqualFold(v.options["virtio"], MAC)
  }

  predicate RequestedTexts(c: Config) {
    && Get(c, "name") == Text("lab-media-01") && Get(c, "cpu") == Text("x86-64-v3")
    && Get(c, "cores") == Text("4") && Get(c, "memory") == Text("8192")
    && Get(c, "onboot") == Text("0") && Get(c, "agent") == Text("1")
    && Get(c, "ostype") == Text("l26") && Get(c, "scsihw") == Text("virtio-scsi-single")
    && Get(c, "boot") == Text("order=scsi0") && Get(c, "serial0") == Text("socket")
    && Get(c, "ipconfig0") == Text("ip=10.10.20.230/24,gw=10.10.20.1") && Get(c, "nameserver") == Text("10.10.20.1")
    && Get(c, "ide2") == Text(STORAGE + ":cloudinit")
  }

  /** The effect of `qm create`: every requested option as requested, and generated keys besides. */
  predicate CreateResult(c: Config) {
    && REQUESTED_KEYS <= c.Keys <= REQUESTED_KEYS + GENERATED_KEYS
    && (forall key <- c :: !c[key].Volume?)
    && RequestedTexts(c) && c["tags"] == Tags(OWNER_TAGS + [PENDING]) && CreatedNet(c["net0"])
  }

  function CreatedCard(): Value {
    Options(map["virtio" := MAC, "bridge" := "vmbr1", "tag" := "20", "firewall" := "1"])
  }

  function CreatedTexts(): Config {
    map["name" := Text("lab-media-01"), "cpu" := Text("x86-64-v3"), "cores" := Text("4"), "memory" := Text("8192"),
        "onboot" := Text("0"), "agent" := Text("1"), "ostype" := Text("l26"), "scsihw" := Text("virtio-scsi-single"),
        "boot" := Text("order=scsi0"), "serial0" := Text("socket"),
        "ipconfig0" := Text("ip=10.10.20.230/24,gw=10.10.20.1"), "nameserver" := Text("10.10.20.1"),
        "ide2" := Text(STORAGE + ":cloudinit")]
  }

  lemma CardIsCreated()
    ensures CreatedNet(CreatedCard())
  {
  }

  lemma TextKeysAreRequested()
    ensures CreatedTexts().Keys + {"tags", "net0"} == REQUESTED_KEYS
  {
  }

  lemma TextsAreTexts()
    ensures forall key <- CreatedTexts() :: CreatedTexts()[key].Text?
  {
  }

  lemma WithTagsAndCard(c: Config, texts: Config)
    requires c == texts["tags" := Tags(OWNER_TAGS + [PENDING])]["net0" := CreatedCard()]
    requires "tags" !in texts && "net0" !in texts && forall key <- texts :: texts[key].Text?
    ensures c["tags"] == Tags(OWNER_TAGS + [PENDING]) && CreatedNet(c["net0"])
    ensures c.Keys == texts.Keys + {"tags", "net0"}
    ensures (forall key <- c :: !c[key].Volume?) && forall key <- texts :: c[key] == texts[key]
  {
    CardIsCreated();
    assert "tags"[0] == 't' && "net0"[0] == 'n';
  }

  lemma TextsAreAsRequested()
    ensures RequestedTexts(CreatedTexts())
  {
  }

  /** Texts that are not empty are found again in a configuration that agrees with them. */
  lemma TextsCarryOver(c: Config, texts: Config)
    requires RequestedTexts(texts) && forall key <- texts :: key in c && c[key] == texts[key]
    ensures RequestedTexts(c)
  {
    forall key | Get(texts, key) != Text("") ensures Get(c, key) == Get(texts, key) {
    }
    assert |STORAGE + ":cloudinit"| > 0;
  }

  lemma NoTagsAmongTexts()
    ensures "tags" !in CreatedTexts() && "net0" !in CreatedTexts()
  {
  }

  /** A configuration that `qm create` may store. */
  lemma CreateResultOccurs() returns (c: Config)
    ensures CreateResult(c)
  {
    var texts := CreatedTexts();
    c := texts["tags" := Tags(OWNER_TAGS + [PENDING])]["net0" := CreatedCard()];
    NoTagsAmongTexts();
    TextsAreTexts();
    WithTagsAndCard(c, texts);
    TextKeysAreRequested();
    TextsAreAsRequested();
    TextsCarryOver(c, texts);
  }

  /** The unused entry `qm config` lists first; the accepted shapes have at most one. */
  ghost function FirstUnused(c: Config): (key: string)
    requires UnusedKeys(c) != {}
    ensures key in UnusedKeys(c)
  {
    var key :| key in UnusedKeys(c);
    key
  }

  /**
   One command of a script run with `set -eu`: the new configuration, or an
   error.  `imageGiB` is the size of the imported image.
   */
  ghost function Execute(c: Config, cmd: Command, imageGiB: int, mediaGiB: int): Result<Config> {
    match cmd
    case ImportDisk =>
      if "unused0" in c then Err
      else Ok(c["unused0" := Volume(STORAGE, VMID, LeastNotIn(UsedDisks(c), 0), imageGiB)])
    case AttachRoot =>
      if UnusedKeys(c) == {} then Err
      else
        var key := FirstUnused(c);
        if c[key].Volume? && c[key].storage == STORAGE && c[key].vm == VMID
        then Ok((c - {key})["scsi0" := c[key]]) else Err
    case ResizeRoot =>
      if "scsi0" in c && c["scsi0"].Volume? && c["scsi0"].gib <= ROOT_GIB
      then Ok(c["scsi0" := c["scsi0"].(gib := ROOT_GIB)]) else Err
    case CheckPending =>
      if HasTag(Get(c, "tags"), PENDING) then Ok(c) else Err
    case AttachMedia =>
      Ok(c["scsi1" := Volume(STORAGE, VMID, LeastNotIn(UsedDisks(c), 0), mediaGiB)])
  }

  /** After `qm create`, the rest of the creation script. */
  const AFTER_CREATE := [ImportDisk, AttachRoot, ResizeRoot, AttachMedia]

  function RootPart(c: Config): seq<Command> {
    if "scsi0" in c then [] else if UnusedKeys(c) == {} then [ImportDisk, AttachRoot] else [AttachRoot]
  }

  function MediaPart(c: Config): seq<Command> {
    if "scsi1" in c then [] else [CheckPending, AttachMedia]
  }

  /** `recoveryCommand`. */
  function RecoveryScript(c: Config): seq<Command> {
    RootPart(c) + [ResizeRoot] + MediaPart(c)
  }

  ghost function RunScript(c: Config, cmds: seq<Command>, imageGiB: int, mediaGiB: int): Result<Config>
    decreases |cmds|
  {
    if cmds == [] then Ok(c)
    else
      var r := Execute(c, cmds[0], imageGiB, mediaGiB);
      if r.Err? then Err else RunScript(r.value, cmds[1..], imageGiB, mediaGiB)
  }

  // ----- frames -----

  const IDENTITY_KEYS: set<string> :=
    {"name", "cpu", "cores", "memory", "onboot", "agent", "ostype", "scsihw", "tags", "boot", "ipconfig0",
     "nameserver", "serial0", "ide2", "hostpci0", "net0"}

  const DISK_KEYS: set<string> := {"scsi0", "scsi1", "unused0"}

  predicate AgreeOnIdentity(c: Config, d: Config) {
    forall key <- IDENTITY_KEYS :: (key in c <==> key in d) && (key in c ==> c[key] == d[key])
  }

  lemma IdentityFrame(c: Config, d: Config)
    requires AgreeOnIdentity(c, d)
    ensures Identity(c) == Identity(d) && NetValues(c) == NetValues(d)
  {
    forall key <- IDENTITY_KEYS ensures Get(c, key) == Get(d, key) {
    }
  }

  /** Commands touch only disk keys. */
  lemma DiskKeysAreNotIdentity(key: string)
    requires key in {"scsi0", "scsi1"} || UnusedKey(key)
    ensures key !in IDENTITY_KEYS
  {
    assert IDENTITY_KEYS <= PLAIN_KEYS;
    PlainKeysAreNotUnused();
  }

  lemma ExecuteKeepsIdentity(c: Config, cmd: Command, imageGiB: int, mediaGiB: int)
    requires Execute(c, cmd, imageGiB, mediaGiB).Ok?
    ensures AgreeOnIdentity(c, Execute(c, cmd, imageGiB, mediaGiB).value)
  {
    DiskKeysAreNotIdentity("scsi0");
    DiskKeysAreNotIdentity("scsi1");
    DiskKeysAreNotIdentity("unused0");
    if UnusedKeys(c) != {} {
      DiskKeysAreNotIdentity(FirstUnused(c));
    }
  }

  // ----- recovery run to completion -----

  /** Only disk entries hold volumes. */
  predicate Typed(c: Config) {
    forall key <- c :: c[key].Volume? ==> key == "scsi0" || key == "scsi1" || UnusedKey(key)
  }

  lemma {:induction false} RunConcat(c: Config, a: seq<Command>, b: seq<Command>, imageGiB: int, mediaGiB: int)
    ensures RunScript(c, a + b, imageGiB, mediaGiB) ==
            var r := RunScript(c, a, imageGiB, mediaGiB);
            if r.Err? then Err else RunScript(r.value, b, imageGiB, mediaGiB)
    decreases |a|
  {
    if a == [] {
      assert a + b == b;
    } else {
      assert (a + b)[1..] == a[1..] + b;
      var r := Execute(c, a[0], imageGiB, mediaGiB);
      if r.Ok? {
        RunConcat(r.value, a[1..], b, imageGiB, mediaGiB);
      }
    }
  }

  lemma RunOne(c: Config, cmd: Command, imageGiB: int, mediaGiB: int)
    ensures RunScript(c, [cmd], imageGiB, mediaGiB) == Execute(c, cmd, imageGiB, mediaGiB)
  {
    assert [cmd][1..] == [];
  }

  lemma RunTwo(c: Config, one: Command, two: Command, imageGiB: int, mediaGiB: int)
    ensures RunScript(c, [one, two], imageGiB, mediaGiB) ==
            var r := Execute(c, one, imageGiB, mediaGiB);
            if r.Err? then Err else Execute(r.value, two, imageGiB, mediaGiB)
  {
    assert [one, two] == [one] + [two];
    RunConcat(c, [one], [two], imageGiB, mediaGiB);
    RunOne(c, one, imageGiB, mediaGiB);
    var r := Execute(c, one, imageGiB, mediaGiB);
    if r.Ok? {
      RunOne(r.value, two, imageGiB, mediaGiB);
    }
  }

  /** The root volume that recovery ends up attaching, before it is resized. */
  ghost function RootVolume(c: Config, imageGiB: int): Value {
    if "scsi0" in c then c["scsi0"]
    else if UnusedKeys(c) == {} then Volume(STORAGE, VMID, 0, imageGiB)
    else c[FirstUnused(c)]
  }

  lemma OneUnused(c: Config, key: string)
    requires key in UnusedKeys(c) && |UnusedKeys(c)| <= 1
    ensures UnusedKeys(c) == {key}
  {
    var rest := UnusedKeys(c) - {key};
    assert UnusedKeys(c) == rest + {key};
    assert |UnusedKeys(c)| == |rest| + 1;
  }

  ghost function WithRoot(c: Config, root: Value): Config {
    (c - UnusedKeys(c))["scsi0" := root]
  }

  lemma RecoverRoot(c: Config, imageGiB: int, mediaGiB: int)
    requires RecoverableDisks(c, mediaGiB) && Typed(c)
    ensures RunScript(c, RootPart(c), imageGiB, mediaGiB) == Ok(WithRoot(c, RootVolume(c, imageGiB)))
  {
    if "scsi0" in c {
      assert UnusedKeys(c) == {};
      assert WithRoot(c, c["scsi0"]) == c;
    } else if UnusedKeys(c) == {} {
      RunTwo(c, ImportDisk, AttachRoot, imageGiB, mediaGiB);
      assert UnusedKey("unused0");
      assert "unused0" !in c by { assert "unused0" !in UnusedKeys(c); }
      assert forall key <- c :: UnusedKey(key) ==> key in UnusedKeys(c);
      assert forall key <- c :: c[key].Volume? ==> key == "scsi1";
      assert UsedDisks(c) <= {1};
      var d := c["unused0" := Volume(STORAGE, VMID, 0, imageGiB)];
      assert Execute(c, ImportDisk, imageGiB, mediaGiB) == Ok(d);
      assert UnusedKeys(d) == {"unused0"};
      assert d - {"unused0"} == c - UnusedKeys(c);
    } else {
      RunOne(c, AttachRoot, imageGiB, mediaGiB);
      OneUnused(c, FirstUnused(c));
    }
  }

  /** The configuration recovery aims at. */
  ghost function Repaired(c: Config, imageGiB: int, mediaGiB: int): Config {
    var root := RootVolume(c, imageGiB);
    var withRoot := WithRoot(c, if root.Volume? then root.(gib := ROOT_GIB) else root);
    if "scsi1" in c then withRoot
    else withRoot["scsi1" := Volume(STORAGE, VMID, LeastNotIn(UsedDisks(withRoot), 0), mediaGiB)]
  }

  lemma RecoveryRuns(c: Config, imageGiB: int, mediaGiB: int)
    requires RecoverableDisks(c, mediaGiB) && Typed(c)
    ensures RunScript(c, RecoveryScript(c), imageGiB, mediaGiB) ==
            if RootVolume(c, imageGiB).gib <= ROOT_GIB && ("scsi1" in c || HasTag(Get(c, "tags"), PENDING))
            then Ok(Repaired(c, imageGiB, mediaGiB)) else Err
  {
    var root := RootVolume(c, imageGiB);
    var withRoot := WithRoot(c, root);
    RecoverRoot(c, imageGiB, mediaGiB);
    assert RecoveryScript(c) == RootPart(c) + ([ResizeRoot] + MediaPart(c));
    RunConcat(c, RootPart(c), [ResizeRoot] + MediaPart(c), imageGiB, mediaGiB);
    RunConcat(withRoot, [ResizeRoot], MediaPart(c), imageGiB, mediaGiB);
    RunOne(withRoot, ResizeRoot, imageGiB, mediaGiB);
    if root.gib <= ROOT_GIB {
      var resized := WithRoot(c, root.(gib := ROOT_GIB));
      assert Execute(withRoot, ResizeRoot, imageGiB, mediaGiB) == Ok(resized) by {
        assert withRoot["scsi0" := root.(gib := ROOT_GIB)] == resized;
      }
      if "scsi1" !in c {
        RunTwo(resized, CheckPending, AttachMedia, imageGiB, mediaGiB);
        TagsSurvive(c, resized);
      }
    }
  }

  lemma TagsSurvive(c: Config, d: Config)
    requires exists root :: d == WithRoot(c, root)
    ensures Get(d, "tags") == Get(c, "tags")
  {
    PlainKeysAreNotUnused();
    assert "tags" in PLAIN_KEYS;
  }

  /** What recovery can repair, read off the configuration and the image before it starts. */
  ghost predicate CanRepair(c: Config, imageGiB: int) {
    && (if "scsi0" in c then true
        else if UnusedKeys(c) == {} then imageGiB <= ROOT_GIB
        else c[FirstUnused(c)].Volume? && c[FirstUnused(c)].disk == 0 && c[FirstUnused(c)].gib <= ROOT_GIB)
    && ("scsi1" in c || HasTag(Get(c, "tags"), PENDING))
  }

  lemma RepairedKeepsIdentity(c: Config, imageGiB: int, mediaGiB: int)
    ensures AgreeOnIdentity(c, Repaired(c, imageGiB, mediaGiB))
  {
    DiskKeysAreNotIdentity("scsi0");
    DiskKeysAreNotIdentity("scsi1");
    forall key <- IDENTITY_KEYS ensures key !in UnusedKeys(c) {
      if UnusedKey(key) {
        DiskKeysAreNotIdentity(key);
      }
    }
  }

  lemma RepairedHasPlainKeys(c: Config, imageGiB: int, mediaGiB: int)
    requires forall key <- c :: UnusedKey(key) || key in PLAIN_KEYS
    ensures forall key <- Repaired(c, imageGiB, mediaGiB) :: key in PLAIN_KEYS
  {
    assert forall key <- c :: UnusedKey(key) ==> key in UnusedKeys(c);
  }

  lemma LeastAfterZero()
    ensures LeastNotIn({0}, 0) == 1
  {
    assert {0} - {0} == {};
  }

  /** Both disks of the repaired configuration, when the root that was found is disk 0. */
  lemma RepairedDisks(c: Config, imageGiB: int, mediaGiB: int)
    requires RecoverableDisks(c, mediaGiB) && Typed(c)
    ensures var d := Repaired(c, imageGiB, mediaGiB);
            (DiskOwned(Get(d, "scsi0"), 0, ROOT_GIB) && DiskOwned(Get(d, "scsi1"), 1, mediaGiB)) <==>
            RootVolume(c, imageGiB).disk == 0
  {
    var d := Repaired(c, imageGiB, mediaGiB);
    var root := RootVolume(c, imageGiB);
    var withRoot := WithRoot(c, root.(gib := ROOT_GIB));
    assert !UnusedKey("scsi0") && !UnusedKey("scsi1") by { PlainKeysAreNotUnused(); }
    if "scsi1" !in c {
      assert forall key <- c :: UnusedKey(key) ==> key in UnusedKeys(c);
      assert forall key <- withRoot :: withRoot[key].Volume? ==> key == "scsi0";
      assert UsedDisks(withRoot) == {root.disk} by {
        assert withRoot["scsi0"].disk in UsedDisks(withRoot);
      }
      LeastAfterZero();
    }
  }

  lemma RepairedIsExactIff(c: Config, imageGiB: int, mediaGiB: int)
    requires Recoverable(c, mediaGiB) && Typed(c)
    ensures Exact(Repaired(c, imageGiB, mediaGiB), mediaGiB) <==> RootVolume(c, imageGiB).disk == 0
  {
    RepairedDisks(c, imageGiB, mediaGiB);
    RepairedKeepsIdentity(c, imageGiB, mediaGiB);
    RepairedHasPlainKeys(c, imageGiB, mediaGiB);
    var d := Repaired(c, imageGiB, mediaGiB);
    IdentityFrame(c, d);
    FourNetKeys(c);
    assert d["net0"] == c["net0"] by { assert "net0" in IDENTITY_KEYS; }
  }

  /** The guard, in terms of the root that recovery will find. */
  lemma CanRepairMeans(c: Config, imageGiB: int, mediaGiB: int)
    requires RecoverableDisks(c, mediaGiB)
    ensures CanRepair(c, imageGiB) <==>
            RootVolume(c, imageGiB).disk == 0 && RootVolume(c, imageGiB).gib <= ROOT_GIB &&
            ("scsi1" in c || HasTag(Get(c, "tags"), PENDING))
  {
  }

  /**
   Recovery of any accepted partial VM, run to completion, ends in the exact
   configuration if and only if the partial VM can be repaired: its root is
   attached, or is to come from an image no larger than the root size, or waits as
   disk 0 no larger than that; and its media disk is attached or still marked
   pending.
   */
  lemma RecoveryGivesExactIff(c: Config, imageGiB: int, mediaGiB: int)
    requires Recoverable(c, mediaGiB) && Typed(c)
    ensures var r := RunScript(c, RecoveryScript(c), imageGiB, mediaGiB);
            (r.Ok? && Exact(r.value, mediaGiB)) <==> CanRepair(c, imageGiB)
  {
    RecoveryRuns(c, imageGiB, mediaGiB);
    RepairedIsExactIff(c, imageGiB, mediaGiB);
    CanRepairMeans(c, imageGiB, mediaGiB);
  }

  lemma FourNetKeys(c: Config)
    requires NetValues(c)
    ensures |c["net0"].options| == 4 <==> c["net0"].options.Keys == NET_KEYS
  {
    var keys := c["net0"].options.Keys;
    assert |NET_KEYS| == 4;
    assert keys == NET_KEYS + (keys - NET_KEYS);
    assert |keys| == |NET_KEYS| + |keys - NET_KEYS|;
  }
}
