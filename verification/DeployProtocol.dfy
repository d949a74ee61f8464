/**
 The deployment journal protocol as a transition system.

 A `World` is everything that survives a controller crash (journal,
 last-applied record, who holds which temporary key, which guests exist) plus
 the stage of the running controller process, which does not.  `Next` is total:
 an event that the current stage does not offer changes nothing, so every
 sequence of events is a run, and the failures, partial effects and crashes the
 code can meet are choices carried by the events.
 */
module DeployProtocol {
  import opened Common
  import opened OperationJournal

  const GATEWAY_VMID := 100

  /** The record built for the managed gateway before its readiness probe. It has no owner. */
  const GATEWAY := Guest("lab-fw-01", GATEWAY_VMID, "qemu", "10.10.99.1", "")

  datatype Place = Host(address: string) | InGuest(vmid: int)

  datatype Holding = Holding(place: Place, key: string)

  datatype LastApplied = LastApplied(revision: string, digest: string, bundle: string)

  datatype Site = Site(id: string, bootstrap: string, managed: bool, revision: string, bundle: string)

  /** Revocation belongs to the recovery of an interrupted run, or ends a run that has (not) failed so far. */
  datatype Mode = Recovery | Run(err: bool)

  datatype Stage =
    | Idle
    | Loading(site: Site)
    | ClearingStale(site: Site)
    | Checking(site: Site)
    | JournalingPlan(site: Site, st: OperationState)
    | JournalingScoped(site: Site, st: OperationState, plan: seq<Guest>)
    | Planning(site: Site, st: OperationState)
    | Arming(site: Site, st: OperationState, plan: seq<Guest>)
    | Installing(site: Site, st: OperationState, plan: seq<Guest>)
    | Applying(site: Site, st: OperationState, plan: seq<Guest>, registry: seq<Guest>,
               waiting: Option<Guest>, verified: bool)
    | Marking(site: Site, st: OperationState, mode: Mode, targets: seq<Guest>)
    | Revoking(site: Site, st: OperationState, mode: Mode, targets: seq<Guest>,
               unmarked: bool, pending: set<nat>, failed: bool)
    | Failing(st: OperationState)
    | RecoveryClearing(site: Site)
    | Committing(st: OperationState)
    | Recording(st: OperationState)
    | Clearing(st: OperationState)

  /** `left` remembers the keys of which a committed run left a copy on the gateway. */
  datatype World = World(
    journal: Option<OperationState>, lastApplied: Option<LastApplied>,
    keys: set<Holding>, guests: set<int>, left: set<string>, stage: Stage)

  datatype GuestOutcome = Direct | ThroughHost | ProvenAbsent | NotRevoked(removed: bool)

  datatype Event =
    | Crash
    | GuestCreated(vmid: int)
    | GuestDestroyed(vmid: int)
    | Start(site: Site)
    | Load(ok: bool)
    | Save(ok: bool)
    | Clear(ok: bool)
    | Check(ok: bool)
    | PlanScoped(plan: seq<Guest>, digest: string, newKey: string)
    | MakePlan(ok: bool, plan: seq<Guest>, digest: string, newKey: string)
    | Install(ok: bool, effect: bool)
    | Work(ok: bool)
    | Establish(guest: Guest)
    | Rearm(effect: bool)
    | Ready(ok: bool)
    | PhasesDone
    | RevokeGuest(index: nat, outcome: GuestOutcome)
    | RevokeHost(ok: bool, removed: bool)
    | Record(ok: bool)

  const Init := World(None, None, {}, {}, {}, Idle)

  // ----- what the resolved plan guarantees -----

  predicate DistinctNames(plan: seq<Guest>) {
    forall i, j :: 0 <= i < j < |plan| ==> plan[i].name != plan[j].name
  }

  /**
   Component names are distinct (internal/model/model.go:1039), and a managed
   site plans the gateway itself as an owned guest (internal/model/model.go:1135-1157).
   */
  predicate ResolvedPlan(plan: seq<Guest>, managed: bool) {
    && DistinctNames(plan)
    && (managed ==> exists g <- plan ::
          g.name == GATEWAY.name && g.vmid == GATEWAY_VMID && g.owner != "" && g.kind == "qemu")
  }

  /** Guests that the appliance phase may re-arm: owned LXC guests, and the gateway record. */
  predicate Armable(g: Guest, plan: seq<Guest>, managed: bool) {
    (g in plan && g.kind == "lxc" && g.owner != "") || (managed && g == GATEWAY)
  }

  // ----- the cleanup registry -----

  /** `guestEstablished`: registration is idempotent by name. */
  function Register(registry: seq<Guest>, g: Guest): seq<Guest> {
    if exists r <- registry :: r.name == g.name then registry else registry + [g]
  }

  function Indices(n: nat): (r: set<nat>)
    ensures forall i: nat :: i in r <==> i < n
  {
    if n == 0 then {} else Indices(n - 1) + {n - 1}
  }

  function GatewayCopy(key: string): Holding {
    Holding(InGuest(GATEWAY_VMID), key)
  }

  // ----- saving -----

  /** The record the current stage is about to write, if any. */
  function ToSave(stage: Stage): Option<OperationState> {
    match stage
    case JournalingPlan(_, st) => Some(st)
    case JournalingScoped(_, st, _) => Some(st)
    case Arming(_, st, _) => Some(st)
    case Applying(_, st, _, _, None, false) => Some(st.(phase := Verify))
    case Marking(_, st, _, _) => Some(st.(phase := Cleanup))
    case Failing(st) => Some(st.(phase := Failed))
    case Committing(st) => Some(st.(phase := Commit))
    case _ => None
  }

  function AfterSave(stage: Stage, saved: bool): Stage
    requires ToSave(stage).Some?
  {
    match stage
    case JournalingPlan(site, st) => if saved then Planning(site, st) else Idle
    case JournalingScoped(site, st, plan) => if saved then Installing(site, st, plan) else Idle
    case Arming(site, st, plan) => if saved then Installing(site, st, plan) else Failing(st)
    case Applying(site, st, plan, registry, _, _) =>
      if saved then Applying(site, st, plan, registry, None, true)
      else Marking(site, st, Run(true), Targets(registry))
    case Marking(site, st, mode, targets) =>
      Revoking(site, st, mode, targets, !saved, Indices(|targets|), false)
    case Failing(st) => Idle
    case Committing(st) => if saved then Recording(st) else Failing(st)
    case _ => Idle
  }

  /** `SaveOperationState` either replaces the journal or leaves it alone. */
  predicate Saved(stage: Stage, ok: bool, ipv4: string -> bool) {
    ok && ToSave(stage).Some? && ValidOperationState(ToSave(stage).value, ipv4)
  }

  function SaveStep(w: World, ok: bool, ipv4: string -> bool): World {
    if ToSave(w.stage).None? then w
    else
      var saved := Saved(w.stage, ok, ipv4);
      w.(journal := if saved then ToSave(w.stage) else w.journal,
         stage := AfterSave(w.stage, saved))
  }

  // ----- recovery of an interrupted run -----

  function LoadStep(w: World, ok: bool, ipv4: string -> bool): World
    requires w.stage.Loading?
  {
    var site := w.stage.site;
    if !ok then w.(stage := Idle)
    else if w.journal.None? then w.(stage := Checking(site))
    else if !ValidOperationState(w.journal.value, ipv4) then w.(stage := Idle)
    else
      var st := w.journal.value;
      if st.key == "" then
        w.(stage := if st.phase == Plan || st.phase == Failed then ClearingStale(site) else Idle)
      else if st.host != site.bootstrap || !(forall o <- st.guests :: KnownKind(o.kind)) then
        w.(stage := Idle)
      else
        w.(stage := Marking(site, st, Recovery, Targets(Decoded(st.guests))))
  }

  function ClearStep(w: World, ok: bool): World {
    match w.stage
    case ClearingStale(site) =>
      if ok then w.(journal := None, stage := Checking(site)) else w.(stage := Idle)
    case RecoveryClearing(site) =>
      if ok then w.(journal := None, stage := Checking(site)) else w.(stage := Idle)
    case Clearing(st) =>
      if !ok then w.(stage := Failing(st))
      else
        w.(journal := None, left := if GatewayCopy(st.key) in w.keys then w.left + {st.key} else w.left, stage := Idle)
    case _ => w
  }

  // ----- planning, arming and applying -----

  function PlanRecord(site: Site): OperationState {
    OperationState(site.id, "deploy", Plan, site.revision, "", site.bundle, "", "", [])
  }

  /** The record `runScopedModuleDeploy` builds: another kind, already in APPLY, with its targets. */
  function ScopedRecord(site: Site, targets: seq<Guest>, digest: string, newKey: string): OperationState {
    OperationState(site.id, "scoped-module-deploy", Apply, site.revision, digest, site.bundle,
                   newKey, site.bootstrap, seq(|targets|, i requires 0 <= i < |targets| => Encode(targets[i])))
  }

  function PlanStep(w: World, e: Event): World
    requires w.stage.Planning? && e.MakePlan?
  {
    var Planning(site, st) := w.stage;
    var applied := st.(digest := e.digest, phase := Apply);
    if !e.ok then w.(stage := Failing(st))
    else if e.newKey == "" || Blank(e.digest) || !ResolvedPlan(e.plan, site.managed) then w
    else if !(forall g <- e.plan :: Encodable(g)) then w.(stage := Failing(applied))
    else
      w.(stage := Arming(site,
                         applied.(key := e.newKey, host := site.bootstrap, guests := OwnedIdentities(e.plan)),
                         e.plan))
  }

  function InstallStep(w: World, ok: bool, effect: bool): World
    requires w.stage.Installing?
  {
    var Installing(site, st, plan) := w.stage;
    w.(keys := if ok || effect then w.keys + {Holding(Host(site.bootstrap), st.key)} else w.keys,
       stage := if ok then Applying(site, st, plan, [], None, false) else Marking(site, st, Run(true), []))
  }

  function ApplyStep(w: World, e: Event): World
    requires w.stage.Applying?
  {
    var Applying(site, st, plan, registry, waiting, verified) := w.stage;
    match e
    case Work(ok) =>
      if waiting.Some? || ok then w else w.(stage := Marking(site, st, Run(true), Targets(registry)))
    case Establish(g) =>
      if waiting.Some? || verified || !Armable(g, plan, site.managed) then w
      else w.(stage := Applying(site, st, plan, Register(registry, g), Some(g), verified))
    case Rearm(effect) =>
      if waiting.None? || !effect || waiting.value.vmid !in w.guests then w
      else w.(keys := w.keys + {Holding(InGuest(waiting.value.vmid), st.key)})
    case Ready(ok) =>
      if waiting.None? then w
      else if ok then w.(stage := Applying(site, st, plan, registry, None, verified))
      else w.(stage := Marking(site, st, Run(true), Targets(registry)))
    case PhasesDone =>
      if waiting.Some? || !verified then w
      else w.(stage := Marking(site, st, Run(false), Targets(registry)))
    case _ => w
  }

  // ----- revocation -----

  function Drop(keys: set<Holding>, place: Place, key: string): set<Holding> {
    keys - {Holding(place, key)}
  }

  /** One goroutine of the fan-out, in whatever order the scheduler runs them. */
  function RevokeGuestStep(w: World, index: nat, outcome: GuestOutcome): World
    requires w.stage.Revoking?
  {
    var s := w.stage;
    if index !in s.pending || index >= |s.targets| then w
    else
      var vmid := s.targets[index].vmid;
      var fewer := Drop(w.keys, InGuest(vmid), s.st.key);
      match outcome
      case Direct => w.(keys := fewer, stage := s.(pending := s.pending - {index}))
      case ThroughHost => w.(keys := fewer, stage := s.(pending := s.pending - {index}))
      case ProvenAbsent =>
        if vmid in w.guests then w else w.(stage := s.(pending := s.pending - {index}))
      case NotRevoked(removed) =>
        w.(keys := if removed then fewer else w.keys,
           stage := s.(pending := s.pending - {index}, failed := true))
  }

  /** What follows once every target was attempted and the Host came last. */
  function AfterRevocation(s: Stage, hostOk: bool): Stage
    requires s.Revoking?
  {
    var failed := s.failed || !hostOk;
    match s.mode
    case Recovery => if failed then Failing(s.st) else if s.unmarked then Idle else RecoveryClearing(s.site)
    case Run(err) => if err || s.unmarked || failed then Failing(s.st) else Committing(s.st)
  }

  function RevokeHostStep(w: World, ok: bool, removed: bool): World
    requires w.stage.Revoking?
  {
    var s := w.stage;
    if s.pending != {} then w
    else
      w.(keys := if ok || removed then Drop(w.keys, Host(s.site.bootstrap), s.st.key) else w.keys,
         stage := AfterRevocation(s, ok))
  }

  // ----- one step, and runs -----

  function RecordOf(st: OperationState): LastApplied {
    LastApplied(st.revision, st.digest, st.bundle)
  }

  /** `validateLastAppliedState`: a record without a revision or a digest is not saved. */
  predicate ValidLastApplied(r: LastApplied) {
    !Blank(r.revision) && !Blank(r.digest)
  }

  function Next(w: World, e: Event, ipv4: string -> bool): World {
    match e
    case Crash => w.(stage := Idle)
    case GuestCreated(v) => w.(guests := w.guests + {v})
    case GuestDestroyed(v) =>
      w.(guests := w.guests - {v}, keys := set h | h in w.keys && h.place != InGuest(v))
    case Start(site) => if w.stage.Idle? then w.(stage := Loading(site)) else w
    case Load(ok) => if w.stage.Loading? then LoadStep(w, ok, ipv4) else w
    case Save(ok) => SaveStep(w, ok, ipv4)
    case Clear(ok) => ClearStep(w, ok)
    case Check(ok) =>
      if !w.stage.Checking? then w
      else w.(stage := if ok then JournalingPlan(w.stage.site, PlanRecord(w.stage.site)) else Idle)
    case PlanScoped(plan, digest, newKey) =>
      if !w.stage.Checking? then w
      else w.(stage := JournalingScoped(w.stage.site, ScopedRecord(w.stage.site, plan, digest, newKey), plan))
    case MakePlan(_, _, _, _) => if w.stage.Planning? then PlanStep(w, e) else w
    case Install(ok, effect) => if w.stage.Installing? then InstallStep(w, ok, effect) else w
    case RevokeGuest(i, outcome) => if w.stage.Revoking? then RevokeGuestStep(w, i, outcome) else w
    case RevokeHost(ok, removed) => if w.stage.Revoking? then RevokeHostStep(w, ok, removed) else w
    case Record(ok) =>
      if !w.stage.Recording? then w
      else if ok && ValidLastApplied(RecordOf(w.stage.st)) then
        w.(lastApplied := Some(RecordOf(w.stage.st)), stage := Clearing(w.stage.st))
      else w.(stage := Failing(w.stage.st))
    case _ => if w.stage.Applying? then ApplyStep(w, e) else w
  }

  function Execute(w: World, es: seq<Event>, ipv4: string -> bool): World {
    if es == [] then w else Next(Execute(w, es[..|es| - 1], ipv4), es[|es| - 1], ipv4)
  }

  // ----- the invariant -----

  /** `st` names the key, and the Host address or the guest, of a holding. */
  predicate Names(st: OperationState, h: Holding) {
    && h.key != "" && st.key == h.key
    && match h.place
       case Host(a) => st.host == a
       case InGuest(v) => OwnsVmid(st.guests, v)
  }

  /** A copy on the gateway that a committed run left there. */
  predicate LeftBehind(w: World, h: Holding) {
    h.place == InGuest(GATEWAY_VMID) && h.key in w.left
  }

  predicate NoneLive(w: World) {
    forall h <- w.keys :: LeftBehind(w, h)
  }

  /** Every other live temporary key is named, with its place, by the journal on disk. */
  predicate JournalNamesKeys(w: World) {
    forall h <- w.keys :: LeftBehind(w, h) || (w.journal.Some? && Names(w.journal.value, h))
  }

  predicate SameAuthority(a: OperationState, b: OperationState) {
    a.key == b.key && a.host == b.host && a.guests == b.guests
  }

  predicate GoodRecord(st: OperationState) {
    && st.id != "" && st.kind == "deploy" && st.revision != ""
    && (st.key == "" ==> st.phase == Plan || st.phase == Failed)
    && (st.key != "" ==> !Blank(st.digest))
  }

  predicate Journaled(w: World, st: OperationState) {
    && w.journal.Some? && SameAuthority(w.journal.value, st)
    && st.key != "" && !Blank(st.digest) && st.id != "" && st.kind == "deploy" && st.revision != ""
  }

  /** A managed run's own cleanup passes over the gateway, whose registered record has no owner. */
  predicate Skipped(mode: Mode, site: Site, h: Holding) {
    mode.Run? && site.managed && h.place == InGuest(GATEWAY_VMID)
  }

  /** The other guests that hold the run's key are among the revocable registered records. */
  predicate Registered(w: World, mode: Mode, site: Site, records: seq<Guest>) {
    forall h <- w.keys :: h.place.InGuest? && !LeftBehind(w, h) && !Skipped(mode, site, h) ==>
      exists g <- records :: Revocable(g) && g.vmid == h.place.vmid
  }

  /** All that is left is at most a copy on the gateway. */
  predicate Revoked(w: World, st: OperationState) {
    forall h <- w.keys :: LeftBehind(w, h) || h == GatewayCopy(st.key)
  }

  predicate RegistryFromPlan(registry: seq<Guest>, plan: seq<Guest>, managed: bool) {
    forall g <- registry :: Armable(g, plan, managed)
  }

  /** In managed mode no revocable registered record stands for the gateway. */
  predicate SkipsGateway(mode: Mode, site: Site, targets: seq<Guest>) {
    mode.Run? && site.managed ==> forall t <- targets :: Revocable(t) ==> t.vmid != GATEWAY_VMID
  }

  predicate RunInv(w: World, site: Site, st: OperationState, plan: seq<Guest>) {
    && Journaled(w, st) && st.host == site.bootstrap
    && ResolvedPlan(plan, site.managed) && (forall g <- plan :: Encodable(g))
    && st.guests == OwnedIdentities(plan)
  }

  /** While revocation runs, a remaining key is pending, or the outcome is already a failure. */
  predicate RevocationInv(w: World) {
    var s := w.stage;
    s.Revoking? ==>
      && Journaled(w, s.st) && s.st.host == s.site.bootstrap
      && (forall t <- s.targets :: Revocable(t)) && SkipsGateway(s.mode, s.site, s.targets)
      && (forall i <- s.pending :: i < |s.targets|)
      && (forall h <- w.keys ::
            h.place.InGuest? && !LeftBehind(w, h) && !Skipped(s.mode, s.site, h) && !s.failed ==>
              exists i <- s.pending :: s.targets[i].vmid == h.place.vmid)
  }

  predicate StageInv(w: World) {
    match w.stage
    case Idle => true
    case Loading(_) => true
    case ClearingStale(_) => NoneLive(w)
    case RecoveryClearing(_) => NoneLive(w)
    case Checking(_) => w.journal.None?
    case JournalingPlan(site, st) => w.journal.None? && st == PlanRecord(site)
    case JournalingScoped(_, st, _) => w.journal.None? && st.kind == "scoped-module-deploy"
    case Planning(site, st) => w.journal == Some(st) && st == PlanRecord(site)
    case Arming(site, st, plan) =>
      && w.journal == Some(PlanRecord(site)) && st.key != "" && !Blank(st.digest) && st.host == site.bootstrap
      && st.phase == Apply && st.id == site.id && st.kind == "deploy" && st.revision == site.revision
      && ResolvedPlan(plan, site.managed) && (forall g <- plan :: Encodable(g))
      && st.guests == OwnedIdentities(plan)
    case Installing(site, st, plan) => RunInv(w, site, st, plan) && NoneLive(w)
    case Applying(site, st, plan, registry, waiting, _) =>
      && RunInv(w, site, st, plan)
      && RegistryFromPlan(registry, plan, site.managed) && Registered(w, Run(true), site, registry)
      && (waiting.Some? ==> Armable(waiting.value, plan, site.managed) && waiting.value in registry)
    case Marking(site, st, mode, targets) =>
      && Journaled(w, st) && st.host == site.bootstrap && Registered(w, mode, site, targets)
      && (forall t <- targets :: Revocable(t)) && SkipsGateway(mode, site, targets)
    case Revoking(_, _, _, _, _, _, _) => RevocationInv(w)
    case Failing(st) =>
      && w.journal.Some? && st.id != "" && st.kind == "deploy" && st.revision != ""
      && (st.key != "" ==> !Blank(st.digest))
      && (NoneLive(w) || SameAuthority(w.journal.value, st))
    case Committing(st) => Journaled(w, st) && Revoked(w, st)
    case Recording(st) => Journaled(w, st) && Revoked(w, st)
    case Clearing(st) => Journaled(w, st) && Revoked(w, st) && w.lastApplied == Some(RecordOf(st))
  }

  predicate Inv(w: World, ipv4: string -> bool) {
    && JournalNamesKeys(w)
    && (w.journal.Some? ==> ValidOperationState(w.journal.value, ipv4) && GoodRecord(w.journal.value))
    && (forall h <- w.keys :: h.place.InGuest? ==> h.place.vmid in w.guests)
    && StageInv(w)
  }
}
