/**
 The deployment journal record (`generated/operation.json`) and the two
 conversions between planned guests and the bounded cleanup identities it
 stores.
 */
module OperationJournal {
  import opened Common
  import opened Text

  /** A planned Proxmox guest, reduced to the fields the cleanup paths read. */
  datatype Guest = Guest(name: string, vmid: int, kind: string, address: string, owner: string)

  datatype OperationGuest = OperationGuest(name: string, kind: string, vmid: int, address: string)

  datatype Phase = Plan | Apply | Verify | Cleanup | Commit | Failed

  datatype OperationState = OperationState(
    id: string, kind: string, phase: Phase, revision: string, digest: string, bundle: string,
    key: string, host: string, guests: seq<OperationGuest>)

  /** `strings.TrimSpace(s) == ""`. */
  predicate Blank(s: string) {
    forall c <- s :: IsSpace(c)
  }

  predicate HasControl(s: string) {
    '\r' in s || '\n' in s || '\0' in s
  }

  predicate KnownKind(kind: string) {
    kind == "qemu" || kind == "lxc"
  }

  predicate ValidOperationGuest(g: OperationGuest, ipv4: string -> bool) {
    && g.name != "" && g.vmid > 0 && g.address != ""
    && KnownKind(g.kind)
    && !HasControl(g.name + g.address)
    && ipv4(g.address)
  }

  /**
   `validateOperationState`, the gate of both `SaveOperationState` and
   `LoadOperationState`.  `ipv4` is the canonical dotted-quad test.
   */
  predicate ValidOperationState(st: OperationState, ipv4: string -> bool) {
    && st.id != "" && st.kind == "deploy" && st.revision != ""
    && (st.key == "" ==> st.guests == [] && st.host == "")
    && (st.key != "" ==> st.host != "")
    && !HasControl(st.key)
    && (st.host != "" ==> ipv4(st.host))
    && (forall g <- st.guests :: ValidOperationGuest(g, ipv4))
    && (forall i, j :: 0 <= i < j < |st.guests| ==> st.guests[i].vmid != st.guests[j].vmid)
    && (st.phase in {Apply, Verify, Cleanup, Commit} ==> !Blank(st.digest))
  }

  lemma {:induction false} TrimLeftOfBlank(s: string)
    ensures TrimLeft(s) == "" <==> Blank(s)
    decreases |s|
  {
    if s != "" && IsSpace(s[0]) {
      TrimLeftOfBlank(s[1..]);
      assert forall c :: c in s <==> c == s[0] || c in s[1..];
    }
  }

  /** `strings.TrimSpace(s) == ""`. */
  lemma BlankIff(s: string)
    ensures Blank(s) <==> TrimSpace(s) == ""
  {
    TrimLeftOfBlank(s);
    TrimLeftSlice(s);
    TrimRightSlice(TrimLeft(s));
    if TrimLeft(s) != "" {
      TrimRightKeepsHead(TrimLeft(s));
    }
  }

  lemma {:induction false} TrimRightKeepsHead(s: string)
    requires s != "" && !IsSpace(s[0])
    ensures TrimRight(s) != ""
    decreases |s|
  {
    if IsSpace(s[|s| - 1]) {
      TrimRightKeepsHead(s[..|s| - 1]);
    }
  }

  /** The checks on the temporary key and the Host address. */
  method ValidateAuthority(st: OperationState, ipv4: string -> bool) returns (ok: bool)
    ensures ok <==> (if st.key == "" then st.guests == [] && st.host == ""
                     else ipv4(st.host) && st.host != "" && '\r' !in st.key && '\n' !in st.key && '\0' !in st.key)
  {
    if st.key == "" && |st.guests| > 0 {
      return false;
    }
    if st.key == "" && st.host != "" {
      return false;
    }
    if st.key != "" && st.host == "" {
      return false;
    }
    if '\r' in st.key || '\n' in st.key || '\0' in st.key {
      return false;
    }
    return st.host == "" || ipv4(st.host);
  }

  /** The loop over the cleanup guests. */
  method ValidateGuests(guests: seq<OperationGuest>, ipv4: string -> bool) returns (ok: bool)
    ensures ok <==> (forall g <- guests :: ValidOperationGuest(g, ipv4)) &&
                    forall i, j :: 0 <= i < j < |guests| ==> guests[i].vmid != guests[j].vmid
  {
    var seen: set<int> := {};
    for i := 0 to |guests|
      invariant forall g <- guests[..i] :: ValidOperationGuest(g, ipv4)
      invariant forall j, k :: 0 <= j < k < i ==> guests[j].vmid != guests[k].vmid
      invariant forall j :: 0 <= j < i ==> guests[j].vmid in seen
      invariant forall v <- seen :: exists j :: 0 <= j < i && guests[j].vmid == v
    {
      var guest := guests[i];
      assert guest in guests;
      if guest.name == "" || guest.vmid <= 0 || guest.address == "" {
        return false;
      }
      if guest.kind != "qemu" && guest.kind != "lxc" {
        return false;
      }
      var text := guest.name + guest.address;
      if '\r' in text || '\n' in text || '\0' in text {
        return false;
      }
      if !ipv4(guest.address) || guest.vmid in seen {
        return false;
      }
      seen := seen + {guest.vmid};
    }
    return true;
  }

  /** `validateOperationState` accepts exactly the valid records. */
  method ValidateOperationState(st: OperationState, ipv4: string -> bool) returns (ok: bool)
    ensures ok <==> ValidOperationState(st, ipv4)
  {
    if st.id == "" || st.kind != "deploy" || st.revision == "" {
      return false;
    }
    var authority := ValidateAuthority(st, ipv4);
    if !authority {
      return false;
    }
    var guests := ValidateGuests(st.guests, ipv4);
    if !guests {
      return false;
    }
    BlankIff(st.digest);
    match st.phase
    case Plan => return true;
    case Failed => return true;
    case _ => return TrimSpace(st.digest) != "";
  }

  predicate OwnsVmid(gs: seq<OperationGuest>, vmid: int) {
    exists g <- gs :: g.vmid == vmid
  }

  // ----- operationCleanupGuests -----

  /** Guests without an owner are skipped; any other incomplete identity is an error. */
  predicate Encodable(g: Guest) {
    g.owner != "" ==> g.name != "" && g.vmid > 0 && g.address != "" && KnownKind(g.kind)
  }

  function Encode(g: Guest): OperationGuest {
    OperationGuest(g.name, g.kind, g.vmid, g.address)
  }

  /** The cleanup identities of the owned guests, in plan order. */
  function OwnedIdentities(plan: seq<Guest>): seq<OperationGuest> {
    if plan == [] then []
    else OwnedIdentities(plan[..|plan| - 1]) +
         (if plan[|plan| - 1].owner == "" then [] else [Encode(plan[|plan| - 1])])
  }

  method OperationCleanupGuests(plan: seq<Guest>) returns (r: Result<seq<OperationGuest>>)
    ensures r.Ok? <==> forall g <- plan :: Encodable(g)
    ensures r.Ok? ==> r.value == OwnedIdentities(plan)
  {
    var guests: seq<OperationGuest> := [];
    for i := 0 to |plan|
      invariant forall g <- plan[..i] :: Encodable(g)
      invariant guests == OwnedIdentities(plan[..i])
    {
      var guest := plan[i];
      assert plan[..i + 1][..i] == plan[..i];
      if guest.owner == "" {
        continue;
      }
      assert guest in plan;
      if guest.name == "" || guest.vmid <= 0 || guest.address == "" {
        return Err;
      }
      if guest.kind != "qemu" && guest.kind != "lxc" {
        return Err;
      }
      guests := guests + [Encode(guest)];
    }
    assert plan[..|plan|] == plan;
    return Ok(guests);
  }

  /** Exactly the owned planned guests are journaled, each under its own identity. */
  lemma {:induction false} OwnedIdentitiesExact(plan: seq<Guest>)
    ensures forall g <- plan :: g.owner != "" ==> Encode(g) in OwnedIdentities(plan)
    ensures forall o <- OwnedIdentities(plan) :: exists g <- plan :: g.owner != "" && o == Encode(g)
  {
    if plan != [] {
      var rest, last := plan[..|plan| - 1], plan[|plan| - 1];
      OwnedIdentitiesExact(rest);
      assert plan == rest + [last];
    }
  }

  // ----- operationGuestPlans -----

  const RECOVERY_OWNER := "boetticher/recovery"

  function Decode(o: OperationGuest): Guest {
    Guest(o.name, o.vmid, o.kind, o.address, RECOVERY_OWNER)
  }

  function Decoded(os: seq<OperationGuest>): (gs: seq<Guest>)
    ensures |gs| == |os|
    ensures forall i :: 0 <= i < |os| ==> gs[i] == Decode(os[i])
  {
    seq(|os|, i requires 0 <= i < |os| => Decode(os[i]))
  }

  method OperationGuestPlans(guests: seq<OperationGuest>) returns (r: Result<seq<Guest>>)
    ensures r.Ok? <==> forall o <- guests :: KnownKind(o.kind)
    ensures r.Ok? ==> r.value == Decoded(guests)
  {
    var plans: seq<Guest> := [];
    for i := 0 to |guests|
      invariant |plans| == i
      invariant forall o <- guests[..i] :: KnownKind(o.kind)
      invariant forall k :: 0 <= k < i ==> plans[k] == Decode(guests[k])
    {
      var guest := guests[i];
      if guest.kind != "qemu" && guest.kind != "lxc" {
        return Err;
      }
      plans := plans + [Decode(guest)];
    }
    return Ok(plans);
  }

  // ----- the revocation filter -----

  /** The fan-out skips records with an empty owner or address. */
  predicate Revocable(g: Guest) {
    g.owner != "" && g.address != ""
  }

  function Targets(gs: seq<Guest>): (ts: seq<Guest>)
    ensures forall t <- ts :: Revocable(t)
    ensures forall g :: g in ts <==> g in gs && g.owner != "" && g.address != ""
  {
    if gs == [] then []
    else
      var rest := Targets(gs[..|gs| - 1]);
      if Revocable(gs[|gs| - 1]) then rest + [gs[|gs| - 1]] else rest
  }

  function Vmids(gs: seq<Guest>): set<int> {
    set g | g in gs :: g.vmid
  }

  function OwnedVmids(plan: seq<Guest>): set<int> {
    set g | g in plan && g.owner != "" :: g.vmid
  }

  /** The record carries the guest's own name, kind, VMID and address. */
  predicate Records(o: OperationGuest, g: Guest) {
    o.name == g.name && o.kind == g.kind && o.vmid == g.vmid && o.address == g.address
  }

  lemma {:induction false} RecordsOfPlan(plan: seq<Guest>)
    ensures forall g <- plan :: g.owner != "" ==> exists o <- OwnedIdentities(plan) :: Records(o, g)
    ensures forall o <- OwnedIdentities(plan) :: exists g <- plan :: g.owner != "" && Records(o, g)
  {
    OwnedIdentitiesExact(plan);
    forall g | g in plan && g.owner != "" ensures exists o <- OwnedIdentities(plan) :: Records(o, g) {
      assert Encode(g) in OwnedIdentities(plan) && Records(Encode(g), g);
    }
    forall o | o in OwnedIdentities(plan) ensures exists g <- plan :: g.owner != "" && Records(o, g) {
      var g :| g in plan && g.owner != "" && o == Encode(g);
      assert Records(o, g);
    }
  }

  /** A target of recovery is a planned guest in everything but the owner. */
  predicate Recovers(t: Guest, g: Guest) {
    t == g.(owner := "boetticher/recovery")
  }

  lemma DecodedTargets(os: seq<OperationGuest>)
    requires forall o <- os :: o.address != ""
    ensures forall o <- os :: Decode(o) in Targets(Decoded(os))
    ensures forall t <- Targets(Decoded(os)) :: exists o <- os :: t == Decode(o)
  {
    assert RECOVERY_OWNER[0] == 'b';
    forall o | o in os ensures Decode(o) in Targets(Decoded(os)) {
      var i :| 0 <= i < |os| && os[i] == o;
      assert Decoded(os)[i] in Targets(Decoded(os));
    }
    forall t | t in Targets(Decoded(os)) ensures exists o <- os :: t == Decode(o) {
      var i :| 0 <= i < |os| && Decoded(os)[i] == t;
      assert os[i] in os;
    }
  }

  /**
   A journal that was saved decodes without error, and its targets, after the
   revocation filter, are exactly the owned guests of the plan under the recovery
   owner, with their own names, VMIDs, kinds and addresses.
   */
  lemma {:induction false} JournalRoundTrip(plan: seq<Guest>, st: OperationState, ipv4: string -> bool)
    requires st.guests == OwnedIdentities(plan) && ValidOperationState(st, ipv4)
    ensures forall o <- st.guests :: KnownKind(o.kind)
    ensures forall g <- plan :: g.owner != "" ==> g.(owner := "boetticher/recovery") in Targets(Decoded(st.guests))
    ensures forall t <- Targets(Decoded(st.guests)) :: exists g <- plan :: g.owner != "" && Recovers(t, g)
    ensures Vmids(Targets(Decoded(st.guests))) == OwnedVmids(plan)
  {
    OwnedIdentitiesExact(plan);
    var targets := Targets(Decoded(st.guests));
    assert forall o <- st.guests :: ValidOperationGuest(o, ipv4);
    DecodedTargets(st.guests);
    forall g | g in plan && g.owner != "" ensures g.(owner := "boetticher/recovery") in targets {
      assert Decode(Encode(g)) == g.(owner := "boetticher/recovery");
    }
    forall t | t in targets ensures exists g <- plan :: g.owner != "" && Recovers(t, g) {
      var o :| o in st.guests && t == Decode(o);
      var g :| g in plan && g.owner != "" && o == Encode(g);
      assert Recovers(t, g);
    }
    VmidsOfTargets(plan, targets);
  }

  lemma VmidsOfTargets(plan: seq<Guest>, targets: seq<Guest>)
    requires forall g <- plan :: g.owner != "" ==> g.(owner := "boetticher/recovery") in targets
    requires forall t <- targets :: exists g <- plan :: g.owner != "" && Recovers(t, g)
    ensures Vmids(targets) == OwnedVmids(plan)
  {
    forall g | g in plan && g.owner != "" ensures g.vmid in Vmids(targets) {
      assert g.(owner := "boetticher/recovery").vmid == g.vmid;
    }
    forall t | t in targets ensures t.vmid in OwnedVmids(plan) {
      var g :| g in plan && g.owner != "" && Recovers(t, g);
    }
  }
}
