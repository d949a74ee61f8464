/**
 The owned network fixture of the lab speed test: setup, cleanup, and the
 ownership proof that decides whether a leftover may be removed.

 `LabHost` is the native surface the helper drives.  A command may succeed,
 fail without effect, or fail after taking effect, and existence checks may err
 on the side of "present".  The ghost field `trace` records every state the
 kernel has been in, so a property of all its elements is a property of every
 point at which the helper could have been killed.
 */
module LabFixture {
  import opened Common

  const ACCESS_VLAN := 20
  const DEFAULT_VLAN := 1
  const BRIDGE := "vmbr1"
  const SUBNET := "10.10.20"

  datatype VlanFlags = VlanFlags(pvid: bool, untagged: bool)

  /** The host end of the veth pair; `vlans` is the bridge VLAN table of that port. */
  datatype HostLink = HostLink(index: int, peer: int, master: string, vlans: map<int, VlanFlags>)

  /** An IPv4 address: its /24 network and the host octet. */
  datatype Address = Address(network: string, host: int)

  datatype NsLink = NsLink(index: int, peer: int, addresses: seq<Address>)

  /** The namespace `bt4s-lab` with its links by name, and the host link `bt4s-lab-h`. */
  datatype Kernel = Kernel(ns: Option<map<string, NsLink>>, veth: Option<HostLink>)

  datatype Command =
    | NetnsAdd | LinkAdd | DisableIPv6All | DisableIPv6Default | SetMaster | VlanAdd | VlanDelDefault
    | LinkUp | LoopbackUp | Eth0Up | AddressAdd(address: Address) | RouteReplace
    | NetnsDel | LinkDel

  predicate Absent(k: Kernel) {
    k.ns.None? && k.veth.None?
  }

  /** The link is the other end of the host veth. */
  predicate IsPeer(host: HostLink, link: NsLink) {
    link.index == host.peer && link.peer == host.index
  }

  predicate PeerInNamespace(k: Kernel) {
    k.ns.Some? && k.veth.Some? && exists name <- k.ns.value :: IsPeer(k.veth.value, k.ns.value[name])
  }

  /** What the kernel refuses outright. */
  predicate Applicable(k: Kernel, c: Command) {
    match c
    case NetnsAdd => k.ns.None?
    case LinkAdd => k.ns.Some? && "eth0" !in k.ns.value && k.veth.None?
    case SetMaster => k.veth.Some?
    case VlanAdd => k.veth.Some? && k.veth.value.master != ""
    case VlanDelDefault => k.veth.Some? && DEFAULT_VLAN in k.veth.value.vlans
    case LinkUp => k.veth.Some?
    case LinkDel => k.veth.Some?
    case AddressAdd(_) => k.ns.Some? && "eth0" in k.ns.value
    case _ => k.ns.Some?
  }

  /** A port that gets a new PVID loses the old one. */
  function WithAccess(vlans: map<int, VlanFlags>): map<int, VlanFlags> {
    (map id | id in vlans :: vlans[id].(pvid := false))[ACCESS_VLAN := VlanFlags(true, true)]
  }

  function Effect(k: Kernel, c: Command, index: int, peer: int, defaultPvid: bool): Kernel
    requires Applicable(k, c)
  {
    match c
    case NetnsAdd => k.(ns := Some(map["lo" := NsLink(1, 0, [])]))
    case LinkAdd =>
      Kernel(Some(k.ns.value["eth0" := NsLink(peer, index, [])]), Some(HostLink(index, peer, "", map[])))
    case SetMaster =>
      k.(veth := Some(k.veth.value.(master := BRIDGE,
                                    vlans := if defaultPvid then map[DEFAULT_VLAN := VlanFlags(true, true)]
                                             else map[])))
    case VlanAdd => k.(veth := Some(k.veth.value.(vlans := WithAccess(k.veth.value.vlans))))
    case VlanDelDefault => k.(veth := Some(k.veth.value.(vlans := k.veth.value.vlans - {DEFAULT_VLAN})))
    case AddressAdd(a) =>
      var eth0 := k.ns.value["eth0"];
      k.(ns := Some(k.ns.value["eth0" := eth0.(addresses := eth0.addresses + [a])]))
    case NetnsDel => Kernel(None, if PeerInNamespace(k) then None else k.veth)
    case LinkDel =>
      Kernel(if k.ns.None? then None
             else Some(map name | name in k.ns.value && !IsPeer(k.veth.value, k.ns.value[name]) :: k.ns.value[name]),
             None)
    case _ => k
  }

  // ----- the pure predicates of the ownership proof -----

  predicate ExactAccess(vlans: map<int, VlanFlags>) {
    vlans == map[ACCESS_VLAN := VlanFlags(true, true)]
  }

  predicate SetupPrefix(vlans: map<int, VlanFlags>) {
    forall id <- vlans :: id == DEFAULT_VLAN || (id == ACCESS_VLAN && vlans[id].pvid && vlans[id].untagged)
  }

  predicate OnlyLoopbackAnd(links: map<string, NsLink>, allowed: set<string>) {
    forall name <- links :: name == "lo" || name in allowed
  }

  predicate InSubnet(addresses: seq<Address>) {
    forall a <- addresses :: a.network == SUBNET
  }

  /** The answer of `labLeftoverOwned` when every query it makes is answered. */
  predicate Owned(k: Kernel, vethPresent: bool) {
    && k.ns.Some?
    && if !vethPresent then OnlyLoopbackAnd(k.ns.value, {})
       else
         && k.veth.Some?
         && var host, links := k.veth.value, k.ns.value;
         && host.index > 0 && host.peer > 0
         && (host.master == "" || host.master == BRIDGE)
         && "eth0" in links && IsPeer(host, links["eth0"]) && OnlyLoopbackAnd(links, {"eth0"})
         && (host.master == BRIDGE ==> SetupPrefix(host.vlans))
         && InSubnet(links["eth0"].addresses)
  }

  /** What ownership comes to, link by link and number by number. */
  lemma OwnedIff(k: Kernel)
    ensures Owned(k, k.veth.Some?) <==>
            && k.ns.Some?
            && (k.veth.None? ==> k.ns.value.Keys <= {"lo"})
            && (k.veth.Some? ==>
                  && k.ns.value.Keys <= {"lo", "eth0"} && "eth0" in k.ns.value
                  && k.veth.value.index > 0 && k.ns.value["eth0"].peer == k.veth.value.index
                  && k.veth.value.peer > 0 && k.ns.value["eth0"].index == k.veth.value.peer
                  && (k.veth.value.master == "" ||
                      (k.veth.value.master == "vmbr1" && k.veth.value.vlans.Keys <= {1, 20} &&
                       (20 in k.veth.value.vlans ==> k.veth.value.vlans[20] == VlanFlags(true, true))))
                  && (forall a <- k.ns.value["eth0"].addresses :: a.network == "10.10.20"))
  {
    if k.ns.Some? {
      NamesIff(k.ns.value, {});
      NamesIff(k.ns.value, {"eth0"});
      assert {"lo"} + {} == {"lo"} && {"lo"} + {"eth0"} == {"lo", "eth0"};
    }
    if k.veth.Some? {
      VlansIff(k.veth.value.vlans);
    }
  }

  lemma NamesIff(links: map<string, NsLink>, allowed: set<string>)
    ensures OnlyLoopbackAnd(links, allowed) <==> links.Keys <= {"lo"} + allowed
  {
  }

  lemma VlansIff(vlans: map<int, VlanFlags>)
    ensures SetupPrefix(vlans) <==>
            vlans.Keys <= {1, 20} && (20 in vlans ==> vlans[20] == VlanFlags(true, true))
  {
    if SetupPrefix(vlans) {
      forall id | id in vlans ensures id in {1, 20} {
      }
    }
  }

  /** Nothing is there, or the next recovery will accept what is there. */
  predicate Recoverable(k: Kernel) {
    Absent(k) || Owned(k, k.veth.Some?)
  }

  // ----- the host -----

  /** What a duplicate-address probe reports. */
  datatype Reply = Free | Occupied | Unanswered

  /** `inUse` are the host octets that some other machine of the subnet answers for. */
  class LabHost {
    var kernel: Kernel
    const defaultPvid: bool
    const inUse: set<int>
    ghost var trace: seq<Kernel>
    ghost var commands: seq<Command>
    ghost var failures: nat

    constructor (kernel: Kernel, defaultPvid: bool, inUse: set<int>)
      ensures this.kernel == kernel && this.defaultPvid == defaultPvid && this.inUse == inUse
      ensures trace == [] && commands == [] && failures == 0
    {
      this.kernel, this.defaultPvid, this.inUse := kernel, defaultPvid, inUse;
      trace, commands, failures := [], [], 0;
    }

    /** The command took effect, with whatever interface indices the kernel picked. */
    ghost predicate Took(before: Kernel, c: Command)
      reads this
    {
      Applicable(before, c) &&
      exists index, peer :: index > 0 && peer > 0 && kernel == Effect(before, c, index, peer, defaultPvid)
    }

    /** A refusal by the kernel is not counted as a failure of the host. */
    method Run(c: Command) returns (ok: bool)
      modifies this
      ensures trace == old(trace) + [kernel] && commands == old(commands) + [c]
      ensures failures == old(failures) + (if Applicable(old(kernel), c) && !ok then 1 else 0)
      ensures kernel == old(kernel) || Took(old(kernel), c)
      ensures ok ==> Took(old(kernel), c)
    {
      ok := *;
      var effect: bool := *;
      ok := ok && Applicable(kernel, c);
      failures := failures + if Applicable(kernel, c) && !ok then 1 else 0;
      if Applicable(kernel, c) && (ok || effect) {
        var index: int, peer: int :| index > 0 && peer > 0;
        kernel := Effect(kernel, c, index, peer, defaultPvid);
      }
      trace, commands := trace + [kernel], commands + [c];
    }

    /** A read: it either answers or fails, and changes nothing. */
    method Query() returns (ok: bool)
      modifies this`failures
      ensures failures == old(failures) + (if ok then 0 else 1)
    {
      ok := *;
      failures := failures + if ok then 0 else 1;
    }

    method Probe(candidate: int) returns (reply: Reply)
      modifies this`failures
      ensures failures >= old(failures)
      ensures failures == old(failures) ==> reply == if candidate in inUse then Occupied else Free
    {
      var ok := Query();
      reply := *;
      if ok {
        reply := if candidate in inUse then Occupied else Free;
      }
    }

    /** Only a definite "does not exist" counts as absence. */
    method NamespaceExists() returns (present: bool)
      modifies this`failures
      ensures failures >= old(failures)
      ensures !present ==> kernel.ns.None?
      ensures failures == old(failures) ==> present == kernel.ns.Some?
    {
      var ok := Query();
      present := !ok || kernel.ns.Some?;
    }

    method LinkExists() returns (present: bool)
      modifies this`failures
      ensures failures >= old(failures)
      ensures !present ==> kernel.veth.None?
      ensures failures == old(failures) ==> present == kernel.veth.Some?
    {
      var ok := Query();
      present := !ok || kernel.veth.Some?;
    }
  }

  // ----- one command of the setup sequence -----

  /** The states in which setup issues each of its commands. */
  predicate SetupMayRun(k: Kernel, c: Command) {
    match c
    case NetnsAdd => Absent(k)
    case LinkAdd => k.veth.None? && Owned(k, false) && "eth0" !in k.ns.value
    case AddressAdd(a) => Owned(k, true) && a.network == SUBNET
    case NetnsDel => false
    case LinkDel => false
    case _ => Owned(k, true)
  }

  lemma SetupStepsAreOwned(k: Kernel, c: Command, index: int, peer: int, defaultPvid: bool)
    requires SetupMayRun(k, c) && Applicable(k, c) && index > 0 && peer > 0
    ensures Owned(Effect(k, c, index, peer, defaultPvid), !c.NetnsAdd?)
    ensures Recoverable(k) && Recoverable(Effect(k, c, index, peer, defaultPvid))
  {
  }

  /** The trace only grew, by states any of which may be the last one of an interrupted helper. */
  ghost predicate Grew(before: seq<Kernel>, after: seq<Kernel>) {
    && |before| <= |after|
    && (forall i :: 0 <= i < |before| ==> after[i] == before[i])
    && (forall i :: |before| <= i < |after| ==> Recoverable(after[i]))
  }

  predicate EndsIn(before: seq<Kernel>, after: seq<Kernel>, k: Kernel) {
    |after| > |before| && after[|after| - 1] == k
  }

  method SetupCommand(host: LabHost, c: Command) returns (ok: bool)
    requires SetupMayRun(host.kernel, c)
    modifies host
    ensures Grew(old(host.trace), host.trace) && Recoverable(host.kernel)
    ensures host.kernel == old(host.kernel) || (host.Took(old(host.kernel), c) && Owned(host.kernel, !c.NetnsAdd?))
    ensures ok ==> host.Took(old(host.kernel), c) && Owned(host.kernel, !c.NetnsAdd?)
    ensures host.trace == old(host.trace) + [host.kernel] && host.failures >= old(host.failures)
    ensures host.commands == old(host.commands) + [c]
    ensures host.failures == old(host.failures) ==> (ok <==> Applicable(old(host.kernel), c))
  {
    ghost var before := host.kernel;
    ok := host.Run(c);
    if host.Took(before, c) {
      ghost var index, peer :| index > 0 && peer > 0 && host.kernel == Effect(before, c, index, peer, host.defaultPvid);
      SetupStepsAreOwned(before, c, index, peer, host.defaultPvid);
    } else {
      assert Recoverable(before);
    }
  }

  /** A command on an existing fixture that leaves its pairing alone. */
  predicate OnFixture(c: Command) {
    match c
    case NetnsAdd => false
    case LinkAdd => false
    case NetnsDel => false
    case LinkDel => false
    case AddressAdd(a) => a.network == SUBNET
    case _ => true
  }

  /** The kernel after steps that all succeed; nothing when the kernel refuses one. */
  function After(k: Kernel, steps: seq<Command>, defaultPvid: bool): Option<Kernel> {
    if steps == [] then Some(k)
    else
      var before := After(k, steps[..|steps| - 1], defaultPvid);
      if before.Some? && Applicable(before.value, steps[|steps| - 1])
      then Some(Effect(before.value, steps[|steps| - 1], 1, 1, defaultPvid)) else None
  }

  lemma AfterStep(k: Kernel, steps: seq<Command>, i: nat, defaultPvid: bool)
    requires i < |steps| && After(k, steps[..i], defaultPvid).Some?
    ensures var before := After(k, steps[..i], defaultPvid).value;
            After(k, steps[..i + 1], defaultPvid) ==
            if Applicable(before, steps[i]) then Some(Effect(before, steps[i], 1, 1, defaultPvid)) else None
  {
    assert steps[..i + 1][..i] == steps[..i];
  }

  lemma {:induction false} AfterStops(k: Kernel, steps: seq<Command>, i: nat, defaultPvid: bool)
    requires i <= |steps| && After(k, steps[..i], defaultPvid).None?
    ensures After(k, steps, defaultPvid).None?
    decreases |steps|
  {
    if i == |steps| {
      assert steps[..i] == steps;
    } else {
      assert steps[..|steps| - 1][..i] == steps[..i];
      AfterStops(k, steps[..|steps| - 1], i, defaultPvid);
    }
  }

  /**
   Runs a list of setup steps, stopping at the first error. Success means the effect of
   all of them, and unless the host fails only a step that the kernel refuses is an error.
   */
  method SetupCommands(host: LabHost, steps: seq<Command>) returns (ok: bool)
    requires Owned(host.kernel, true) && forall c <- steps :: OnFixture(c)
    modifies host
    ensures Owned(host.kernel, true)
    ensures Grew(old(host.trace), host.trace) && host.failures >= old(host.failures)
    ensures ok ==> After(old(host.kernel), steps, host.defaultPvid) == Some(host.kernel)
    ensures ok ==> host.commands == old(host.commands) + steps
    ensures ok && steps != [] ==> EndsIn(old(host.trace), host.trace, host.kernel)
    ensures host.failures == old(host.failures) ==> (ok <==> After(old(host.kernel), steps, host.defaultPvid).Some?)
  {
    ghost var start := host.kernel;
    for i := 0 to |steps|
      invariant Owned(host.kernel, true)
      invariant Grew(old(host.trace), host.trace) && host.failures >= old(host.failures)
      invariant After(start, steps[..i], host.defaultPvid) == Some(host.kernel)
      invariant host.commands == old(host.commands) + steps[..i]
      invariant i > 0 ==> EndsIn(old(host.trace), host.trace, host.kernel)
    {
      assert steps[i] in steps;
      AfterStep(start, steps, i, host.defaultPvid);
      ok := SetupCommand(host, steps[i]);
      if !ok {
        if host.failures == old(host.failures) {
          AfterStops(start, steps, i + 1, host.defaultPvid);
        }
        return;
      }
    }
    assert steps[..|steps|] == steps;
    ok := true;
  }

  /** The duplicate-address probe over the reserved .250-.254 hosts: the first free one. */
  method ChooseLabAddress(host: LabHost) returns (r: Option<Address>)
    modifies host`failures
    ensures host.failures >= old(host.failures)
    ensures r.Some? ==> r.value.network == "10.10.20" && 250 <= r.value.host <= 254
    ensures host.failures == old(host.failures) && r.Some? ==>
              r.value.host !in host.inUse && forall a :: 250 <= a < r.value.host ==> a in host.inUse
    ensures host.failures == old(host.failures) && r.None? ==> forall a :: 250 <= a <= 254 ==> a in host.inUse
  {
    var candidate := 250;
    while candidate <= 254
      invariant 250 <= candidate <= 255 && host.failures >= old(host.failures)
      invariant host.failures == old(host.failures) ==> forall a :: 250 <= a < candidate ==> a in host.inUse
    {
      var reply := host.Probe(candidate);
      if reply == Free {
        return Some(Address(SUBNET, candidate));
      }
      if reply == Unanswered {
        return None;
      }
      candidate := candidate + 1;
    }
    return None;
  }

  lemma RemovalKeepsRecoverable(k: Kernel, c: Command, index: int, peer: int, defaultPvid: bool)
    requires Recoverable(k) && Applicable(k, c) && (c == NetnsDel || c == LinkDel)
    ensures Recoverable(Effect(k, c, index, peer, defaultPvid))
    ensures c == NetnsDel ==> Absent(Effect(k, c, index, peer, defaultPvid))
  {
  }

  method Present(host: LabHost, c: Command) returns (present: bool)
    requires c == NetnsDel || c == LinkDel
    modifies host`failures
    ensures host.failures >= old(host.failures)
    ensures host.failures == old(host.failures) ==> present == Applicable(host.kernel, c)
  {
    if c == NetnsDel {
      present := host.NamespaceExists();
    } else {
      present := host.LinkExists();
    }
  }

  /** No command but the two removals was issued. */
  ghost predicate OnlyRemovals(before: seq<Command>, after: seq<Command>) {
    before <= after && forall i :: |before| <= i < |after| ==> after[i] in {NetnsDel, LinkDel}
  }

  /** Deletes a resource that is present; an error counts only if the resource is still there. */
  method Remove(host: LabHost, c: Command) returns (ok: bool)
    requires c == NetnsDel || c == LinkDel
    modifies host
    ensures OnlyRemovals(old(host.commands), host.commands)
    ensures host.failures >= old(host.failures) && |host.trace| >= |old(host.trace)|
    ensures Recoverable(old(host.kernel)) ==> Grew(old(host.trace), host.trace) && Recoverable(host.kernel)
    ensures host.failures == old(host.failures) ==> ok
    ensures host.failures == old(host.failures) && c == NetnsDel && Recoverable(old(host.kernel)) ==>
            Absent(host.kernel)
    ensures Absent(old(host.kernel)) ==> Absent(host.kernel)
    ensures host.failures == old(host.failures) ==>
              if c == NetnsDel then host.kernel.ns.None?
              else host.kernel.veth.None? && (old(host.kernel).ns.None? ==> host.kernel.ns.None?)
  {
    ghost var before := host.kernel;
    ok := true;
    var present := Present(host, c);
    if present {
      var done := host.Run(c);
      if Recoverable(before) && host.Took(before, c) {
        ghost var index, peer :| index > 0 && peer > 0 &&
          host.kernel == Effect(before, c, index, peer, host.defaultPvid);
        RemovalKeepsRecoverable(before, c, index, peer, host.defaultPvid);
      }
      if !done {
        present := Present(host, c);
        ok := !present;
      }
    }
  }

  // ----- the steps of setup -----

  const PORT_STEPS := [DisableIPv6All, DisableIPv6Default, SetMaster, VlanAdd]
  const UP_STEPS := [LinkUp, LoopbackUp, Eth0Up]

  /** Everything setup does, in order. */
  function SetupSteps(address: Address): seq<Command> {
    [NetnsAdd, LinkAdd, DisableIPv6All, DisableIPv6Default, SetMaster, VlanAdd, VlanDelDefault, LinkUp, LoopbackUp,
     Eth0Up, AddressAdd(address), RouteReplace]
  }

  lemma StepsInOrder(before: seq<Command>, address: Address)
    ensures before + [NetnsAdd, LinkAdd] + PORT_STEPS + [VlanDelDefault] + UP_STEPS +
            [AddressAdd(address), RouteReplace] == before + SetupSteps(address)
  {
  }

  /** A port of the bridge on exactly the access VLAN, untagged and as PVID. */
  predicate OnAccess(k: Kernel) {
    k.veth.Some? && k.veth.value.master == "vmbr1" && k.veth.value.vlans == map[20 := VlanFlags(true, true)]
  }

  /** What the measurement needs: such a port, its peer in the namespace, and an address there. */
  predicate ReadyState(k: Kernel, address: Address) {
    && OnAccess(k) && PeerInNamespace(k) && "eth0" in k.ns.value && address in k.ns.value["eth0"].addresses
    && address.network == "10.10.20" && 250 <= address.host <= 254
  }

  lemma PortSteps(k: Kernel, defaultPvid: bool)
    requires Owned(k, true)
    ensures After(k, PORT_STEPS, defaultPvid).Some?
    ensures var port := After(k, PORT_STEPS, defaultPvid).value;
            && port.ns == k.ns && port.veth.Some? && port.veth.value.master == "vmbr1"
            && port.veth.value.vlans - {1} == map[20 := VlanFlags(true, true)]
  {
    AfterStep(k, PORT_STEPS, 0, defaultPvid);
    AfterStep(k, PORT_STEPS, 1, defaultPvid);
    AfterStep(k, PORT_STEPS, 2, defaultPvid);
    AfterStep(k, PORT_STEPS, 3, defaultPvid);
    assert PORT_STEPS[..4] == PORT_STEPS;
  }

  lemma UpSteps(k: Kernel, defaultPvid: bool)
    requires Owned(k, true)
    ensures After(k, UP_STEPS, defaultPvid) == Some(k)
  {
    AfterStep(k, UP_STEPS, 0, defaultPvid);
    AfterStep(k, UP_STEPS, 1, defaultPvid);
    AfterStep(k, UP_STEPS, 2, defaultPvid);
    assert UP_STEPS[..3] == UP_STEPS;
  }

  lemma FinalSteps(k: Kernel, address: Address, defaultPvid: bool)
    requires Owned(k, true) && OnAccess(k) && address.network == "10.10.20" && 250 <= address.host <= 254
    ensures After(k, [AddressAdd(address), RouteReplace], defaultPvid).Some?
    ensures ReadyState(After(k, [AddressAdd(address), RouteReplace], defaultPvid).value, address)
  {
    var steps := [AddressAdd(address), RouteReplace];
    AfterStep(k, steps, 0, defaultPvid);
    AfterStep(k, steps, 1, defaultPvid);
    assert steps[..2] == steps;
    var ready := After(k, steps, defaultPvid).value;
    assert IsPeer(ready.veth.value, ready.ns.value["eth0"]);
  }

  datatype Event = Done | Error

  class LabFixture {
    const host: LabHost
    var address: Option<Address>
    var createdNS: bool
    var createdVeth: bool

    constructor (host: LabHost, createdNS: bool, createdVeth: bool)
      ensures this.host == host && this.createdNS == createdNS && this.createdVeth == createdVeth
    {
      this.host, this.address, this.createdNS, this.createdVeth := host, None, createdNS, createdVeth;
    }

    /** The namespace and the veth pair. */
    method SetupPair() returns (ok: bool)
      requires !createdNS && !createdVeth && Absent(host.kernel)
      modifies this`createdNS, this`createdVeth, host
      ensures Grew(old(host.trace), host.trace) && Recoverable(host.kernel) && host.failures >= old(host.failures)
      ensures ok ==> createdNS && createdVeth && Owned(host.kernel, true)
      ensures ok ==> host.commands == old(host.commands) + [NetnsAdd, LinkAdd]
      ensures host.failures == old(host.failures) ==> ok
    {
      ok := SetupCommand(host, NetnsAdd);
      if !ok {
        return;
      }
      createdNS := true;
      ok := SetupCommand(host, LinkAdd);
      createdVeth := ok;
    }

    /** From nothing to a port on exactly the access VLAN. */
    method SetupPort() returns (ok: bool)
      requires !createdNS && !createdVeth && Absent(host.kernel)
      modifies this`createdNS, this`createdVeth, host
      ensures Grew(old(host.trace), host.trace) && Recoverable(host.kernel) && host.failures >= old(host.failures)
      ensures ok ==> createdNS && createdVeth && Owned(host.kernel, true) && OnAccess(host.kernel)
      ensures ok ==> host.commands == old(host.commands) + [NetnsAdd, LinkAdd] + PORT_STEPS + [VlanDelDefault]
      ensures host.failures == old(host.failures) ==> ok
    {
      ok := SetupPair();
      if !ok {
        return;
      }
      PortSteps(host.kernel, host.defaultPvid);
      ok := SetupCommands(host, PORT_STEPS);
      if !ok {
        return;
      }
      var _ := SetupCommand(host, VlanDelDefault);
      ok := host.Query();
      ok := ok && ExactAccess(host.kernel.veth.value.vlans);
    }

    /** The probe, the address and the route. */
    method SetupAddress() returns (ok: bool)
      requires Owned(host.kernel, true) && OnAccess(host.kernel)
      modifies this`address, host
      ensures Grew(old(host.trace), host.trace) && Recoverable(host.kernel) && host.failures >= old(host.failures)
      ensures ok ==> address.Some? && ReadyState(host.kernel, address.value)
      ensures ok ==> host.commands == old(host.commands) + [AddressAdd(address.value), RouteReplace]
      ensures ok ==> EndsIn(old(host.trace), host.trace, host.kernel)
      ensures host.failures == old(host.failures) ==> (ok <==> exists a :: 250 <= a <= 254 && a !in host.inUse)
    {
      var chosen := ChooseLabAddress(host);
      if chosen.None? {
        return false;
      }
      address := chosen;
      FinalSteps(host.kernel, chosen.value, host.defaultPvid);
      ok := SetupCommands(host, [AddressAdd(chosen.value), RouteReplace]);
    }

    /**
     `setup`.  Whatever fails and wherever the helper is killed, every state it
     passes through is one that recovery accepts.  From nothing, and unless the host
     fails, it succeeds exactly when one of the five addresses is free.
     */
    method Setup() returns (ok: bool)
      requires !createdNS && !createdVeth
      modifies this, host
      ensures Grew(old(host.trace), host.trace) && host.failures >= old(host.failures)
      ensures host.kernel == old(host.kernel) || Recoverable(host.kernel)
      ensures ok ==> createdNS && createdVeth && address.Some? && ReadyState(host.kernel, address.value)
      ensures ok ==> host.commands == old(host.commands) + SetupSteps(address.value)
      ensures ok ==> EndsIn(old(host.trace), host.trace, host.kernel)
      ensures host.failures == old(host.failures) ==>
                (ok <==> Absent(old(host.kernel)) && exists a :: 250 <= a <= 254 && a !in host.inUse)
      ensures host.failures == old(host.failures) && Absent(old(host.kernel)) ==> createdNS
    {
      var nsPresent := host.NamespaceExists();
      if nsPresent {
        return false;
      }
      var vethPresent := host.LinkExists();
      if vethPresent {
        return false;
      }
      ok := SetupPort();
      if !ok {
        return;
      }
      UpSteps(host.kernel, host.defaultPvid);
      ok := SetupCommands(host, UP_STEPS);
      if !ok {
        return;
      }
      ok := SetupAddress();
      if ok {
        StepsInOrder(old(host.commands), address.value);
      }
    }

    /**
     `cleanup`: only what this run created, and success only when both
     resources are verified gone.
     */
    method Cleanup() returns (ok: bool)
      modifies host
      ensures OnlyRemovals(old(host.commands), host.commands)
      ensures host.failures >= old(host.failures) && |host.trace| >= |old(host.trace)|
      ensures !createdNS && !createdVeth ==> ok && host.trace == old(host.trace) && host.kernel == old(host.kernel)
      ensures ok && (createdNS || createdVeth) ==> Absent(host.kernel)
      ensures Recoverable(old(host.kernel)) ==> Grew(old(host.trace), host.trace) && Recoverable(host.kernel)
      ensures host.failures == old(host.failures) && createdNS && Recoverable(old(host.kernel)) ==> ok
      ensures host.failures == old(host.failures) && createdNS && createdVeth ==> ok
    {
      if !createdNS && !createdVeth {
        return true;
      }
      ok := host.Query();
      if createdNS {
        var gone := Remove(host, NetnsDel);
        ok := ok && gone;
      }
      if createdVeth {
        var gone := Remove(host, LinkDel);
        ok := ok && gone;
      }
      var nsPresent := host.NamespaceExists();
      var vethPresent := host.LinkExists();
      ok := ok && !nsPresent && !vethPresent;
    }
  }

  // ----- recovery -----

  /** The queries behind the ownership proof; any that fails counts against ownership. */
  method LabLeftoverOwned(host: LabHost, vethPresent: bool) returns (owned: bool)
    modifies host`failures
    ensures host.failures >= old(host.failures)
    ensures owned ==> Owned(host.kernel, vethPresent)
    ensures host.failures == old(host.failures) ==> owned == Owned(host.kernel, vethPresent)
  {
    var ok := host.Query();
    if !ok || host.kernel.ns.None? {
      return false;
    }
    var links := host.kernel.ns.value;
    if !vethPresent {
      return OnlyLoopbackAnd(links, {});
    }
    ok := host.Query();
    if !ok || host.kernel.veth.None? {
      return false;
    }
    var hostLink := host.kernel.veth.value;
    if hostLink.index <= 0 || hostLink.peer <= 0 || (hostLink.master != "" && hostLink.master != BRIDGE) {
      return false;
    }
    if "eth0" !in links || !IsPeer(hostLink, links["eth0"]) || !OnlyLoopbackAnd(links, {"eth0"}) {
      return false;
    }
    if hostLink.master == BRIDGE {
      ok := host.Query();
      if !ok || !SetupPrefix(hostLink.vlans) {
        return false;
      }
    }
    ok := host.Query();
    return ok && InSubnet(links["eth0"].addresses);
  }

  datatype Recovery = NothingFound | Recovered | Refused

  /**
   `recoverLabLeftovers`.  It issues no mutating command unless the ownership
   predicate holds; a clean answer means nothing is left; and on a recoverable
   state it succeeds whenever no command or query fails.
   */
  method RecoverLabLeftovers(host: LabHost) returns (r: Recovery)
    modifies host
    ensures OnlyRemovals(old(host.commands), host.commands)
    ensures host.failures >= old(host.failures) && |host.trace| >= |old(host.trace)|
    ensures !Owned(old(host.kernel), old(host.kernel).veth.Some?) ==>
              host.trace == old(host.trace) && host.kernel == old(host.kernel)
    ensures r != Refused ==> Absent(host.kernel)
    ensures Recoverable(old(host.kernel)) ==> Grew(old(host.trace), host.trace) && Recoverable(host.kernel)
    ensures host.failures == old(host.failures) ==> (r != Refused <==> Recoverable(old(host.kernel)))
  {
    var nsPresent := host.NamespaceExists();
    var vethPresent := host.LinkExists();
    if !nsPresent && !vethPresent {
      return NothingFound;
    }
    if !nsPresent {
      return Refused;
    }
    var owned := LabLeftoverOwned(host, vethPresent);
    if !owned {
      return Refused;
    }
    var fixture := new LabFixture(host, true, vethPresent);
    var ok := fixture.Cleanup();
    return if ok then Recovered else Refused;
  }

  /**
   `runLabWith`, where `measured` is whether the measurement ends well.  Done means
   that it did, on a fixture that was ready, and that both resources are gone.  From a
   recoverable start every state on the way, so every state a kill could leave, is
   recoverable again.  Unless the host fails, Done is answered exactly from a
   recoverable start with a free address and a measurement that ends well, and
   nothing is left whatever is answered.
   */
  method RunLabWith(host: LabHost, measured: bool) returns (terminal: Event)
    modifies host
    ensures terminal == Done ==> Absent(host.kernel) && measured
    ensures terminal == Done ==>
              exists i, a :: |old(host.trace)| <= i < |host.trace| && ReadyState(host.trace[i], a)
    ensures Recoverable(old(host.kernel)) ==> Grew(old(host.trace), host.trace) && Recoverable(host.kernel)
    ensures host.failures >= old(host.failures)
    ensures host.failures == old(host.failures) ==>
              (terminal == Done <==>
               Recoverable(old(host.kernel)) && measured && exists a :: 250 <= a <= 254 && a !in host.inUse)
    ensures host.failures == old(host.failures) && Recoverable(old(host.kernel)) ==> Absent(host.kernel)
  {
    var recovery := RecoverLabLeftovers(host);
    if recovery == Refused {
      return Error;
    }
    var fixture := new LabFixture(host, false, false);
    var ready := fixture.Setup();
    terminal := if ready && measured then Done else Error;
    var cleaned := fixture.Cleanup();
    if !cleaned {
      terminal := Error;
    }
  }
}
