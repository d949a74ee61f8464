/** Safety and recovery theorems about the deployment journal protocol. */
module DeploySafety {
  import opened Common
  import opened Text
  import opened OperationJournal
  import opened DeployProtocol

  // ----- the invariant is preserved, one group of events at a time -----

  lemma EarlySaveKeepsInv(w: World, ok: bool, ipv4: string -> bool)
    requires Inv(w, ipv4) && (w.stage.JournalingPlan? || w.stage.JournalingScoped? || w.stage.Arming?)
    ensures Inv(SaveStep(w, ok, ipv4), ipv4)
  {
  }

  lemma VerifySaveKeepsInv(w: World, ok: bool, ipv4: string -> bool)
    requires Inv(w, ipv4) && w.stage.Applying?
    ensures Inv(SaveStep(w, ok, ipv4), ipv4)
  {
    RegistrySkipsGateway(w, ipv4);
  }

  lemma CleanupSaveKeepsInv(w: World, ok: bool, ipv4: string -> bool)
    requires Inv(w, ipv4) && w.stage.Marking?
    ensures Inv(SaveStep(w, ok, ipv4), ipv4)
  {
  }

  lemma LateSaveKeepsInv(w: World, ok: bool, ipv4: string -> bool)
    requires Inv(w, ipv4) && (w.stage.Failing? || w.stage.Committing?)
    ensures Inv(SaveStep(w, ok, ipv4), ipv4)
  {
  }

  lemma SaveKeepsInv(w: World, ok: bool, ipv4: string -> bool)
    requires Inv(w, ipv4)
    ensures Inv(SaveStep(w, ok, ipv4), ipv4)
  {
    match w.stage
    case Applying(_, _, _, _, _, _) => VerifySaveKeepsInv(w, ok, ipv4);
    case Marking(_, _, _, _) => CleanupSaveKeepsInv(w, ok, ipv4);
    case Failing(_) => LateSaveKeepsInv(w, ok, ipv4);
    case Committing(_) => LateSaveKeepsInv(w, ok, ipv4);
    case JournalingPlan(_, _) => EarlySaveKeepsInv(w, ok, ipv4);
    case JournalingScoped(_, _, _) => EarlySaveKeepsInv(w, ok, ipv4);
    case Arming(_, _, _) => EarlySaveKeepsInv(w, ok, ipv4);
    case _ =>
  }

  /** The journal's VMIDs are distinct and the plan's gateway is QEMU, so no LXC record shares its VMID. */
  lemma RegistrySkipsGateway(w: World, ipv4: string -> bool)
    requires Inv(w, ipv4) && w.stage.Applying?
    ensures SkipsGateway(Run(true), w.stage.site, Targets(w.stage.registry))
  {
    var s := w.stage;
    OwnedIdentitiesExact(s.plan);
    if s.site.managed {
      var gw :| gw in s.plan && gw.vmid == GATEWAY_VMID && gw.owner != "" && gw.kind == "qemu";
      var i :| 0 <= i < |s.st.guests| && s.st.guests[i] == Encode(gw);
      forall t | t in s.registry && Revocable(t) ensures t.vmid != GATEWAY_VMID {
        assert t in s.plan;
        var j :| 0 <= j < |s.st.guests| && s.st.guests[j] == Encode(t);
      }
    }
  }

  lemma LoadKeepsInv(w: World, ok: bool, ipv4: string -> bool)
    requires Inv(w, ipv4) && w.stage.Loading?
    ensures Inv(LoadStep(w, ok, ipv4), ipv4)
  {
    var w' := LoadStep(w, ok, ipv4);
    if w'.stage.Marking? {
      DecodedNamesAll(w.journal.value, ipv4);
    }
  }

  /** Every journaled guest comes back from the decoder as a revocable record with its VMID. */
  lemma DecodedNamesAll(st: OperationState, ipv4: string -> bool)
    requires ValidOperationState(st, ipv4)
    ensures forall o <- st.guests :: exists g <- Targets(Decoded(st.guests)) :: Revocable(g) && g.vmid == o.vmid
  {
    assert RECOVERY_OWNER[0] == 'b';
    forall o | o in st.guests
      ensures exists g <- Targets(Decoded(st.guests)) :: Revocable(g) && g.vmid == o.vmid
    {
      var i :| 0 <= i < |st.guests| && st.guests[i] == o;
      assert Decoded(st.guests)[i] == Decode(o);
      assert Decode(o) in Targets(Decoded(st.guests));
    }
  }

  lemma InstallKeepsInv(w: World, ok: bool, effect: bool, ipv4: string -> bool)
    requires Inv(w, ipv4) && w.stage.Installing?
    ensures Inv(InstallStep(w, ok, effect), ipv4)
  {
  }

  lemma PlanKeepsInv(w: World, e: Event, ipv4: string -> bool)
    requires Inv(w, ipv4) && w.stage.Planning? && e.MakePlan?
    ensures Inv(PlanStep(w, e), ipv4)
  {
  }

  lemma EstablishKeepsInv(w: World, g: Guest, ipv4: string -> bool)
    requires Inv(w, ipv4) && w.stage.Applying?
    ensures Inv(ApplyStep(w, Establish(g)), ipv4)
  {
    var s := w.stage;
    if s.waiting.None? && Armable(g, s.plan, s.site.managed) {
      forall r | r in s.registry && r.name == g.name ensures r == g {
        NamesIdentifyRecords(r, g, s.plan, s.site.managed);
      }
    }
  }

  /** A re-armed guest is journaled and registered, and a target unless it is the gateway's ownerless record. */
  lemma WaitingIsNamed(w: World, ipv4: string -> bool)
    requires Inv(w, ipv4) && w.stage.Applying? && w.stage.waiting.Some?
    ensures var s, g := w.stage, w.stage.waiting.value;
            && OwnsVmid(s.st.guests, g.vmid) && g in s.registry
            && ((g == GATEWAY && s.site.managed) || Revocable(g))
  {
    var s, g := w.stage, w.stage.waiting.value;
    OwnedIdentitiesExact(s.plan);
    if g == GATEWAY {
      var gw :| gw in s.plan && gw.vmid == GATEWAY_VMID && gw.owner != "";
      assert Encode(gw) in s.st.guests;
    } else {
      assert Encode(g) in s.st.guests;
    }
  }

  lemma RearmKeepsInv(w: World, effect: bool, ipv4: string -> bool)
    requires Inv(w, ipv4) && w.stage.Applying?
    ensures Inv(ApplyStep(w, Rearm(effect)), ipv4)
  {
    if w.stage.waiting.Some? {
      WaitingIsNamed(w, ipv4);
    }
  }

  lemma PhaseKeepsInv(w: World, e: Event, ipv4: string -> bool)
    requires Inv(w, ipv4) && w.stage.Applying? && !e.Establish? && !e.Rearm?
    ensures Inv(ApplyStep(w, e), ipv4)
  {
    RegistrySkipsGateway(w, ipv4);
  }

  lemma ApplyKeepsInv(w: World, e: Event, ipv4: string -> bool)
    requires Inv(w, ipv4) && w.stage.Applying?
    ensures Inv(ApplyStep(w, e), ipv4)
  {
    if e.Establish? {
      EstablishKeepsInv(w, e.guest, ipv4);
    } else if e.Rearm? {
      RearmKeepsInv(w, e.effect, ipv4);
    } else {
      PhaseKeepsInv(w, e, ipv4);
    }
  }

  /** Registration by name loses no record: two armable records of one name are the same record. */
  lemma NamesIdentifyRecords(a: Guest, b: Guest, plan: seq<Guest>, managed: bool)
    requires ResolvedPlan(plan, managed)
    requires Armable(a, plan, managed) && Armable(b, plan, managed) && a.name == b.name
    ensures a == b
  {
    assert forall x, y :: x in plan && y in plan && x.name == y.name ==> x == y;
  }

  lemma RevokeGuestKeepsInv(w: World, i: nat, outcome: GuestOutcome, ipv4: string -> bool)
    requires Inv(w, ipv4) && w.stage.Revoking?
    ensures Inv(RevokeGuestStep(w, i, outcome), ipv4)
  {
  }

  lemma RevokeHostKeepsInv(w: World, ok: bool, removed: bool, ipv4: string -> bool)
    requires Inv(w, ipv4) && w.stage.Revoking?
    ensures Inv(RevokeHostStep(w, ok, removed), ipv4)
  {
  }

  lemma DestructionKeepsInv(w: World, vmid: int, ipv4: string -> bool)
    requires Inv(w, ipv4)
    ensures Inv(Next(w, GuestDestroyed(vmid), ipv4), ipv4)
  {
  }

  lemma EnvironmentKeepsInv(w: World, e: Event, ipv4: string -> bool)
    requires Inv(w, ipv4) && (e.Crash? || e.GuestCreated? || e.GuestDestroyed? || e.Start?)
    ensures Inv(Next(w, e, ipv4), ipv4)
  {
    if e.GuestDestroyed? {
      DestructionKeepsInv(w, e.vmid, ipv4);
    }
  }

  lemma ClearKeepsInv(w: World, ok: bool, ipv4: string -> bool)
    requires Inv(w, ipv4)
    ensures Inv(ClearStep(w, ok), ipv4)
  {
  }

  lemma ControlKeepsInv(w: World, e: Event, ipv4: string -> bool)
    requires Inv(w, ipv4) && (e.Clear? || e.Check? || e.PlanScoped? || e.Record?)
    ensures Inv(Next(w, e, ipv4), ipv4)
  {
    if e.Clear? {
      ClearKeepsInv(w, e.ok, ipv4);
    }
  }

  lemma RevocationKeepsInv(w: World, e: Event, ipv4: string -> bool)
    requires Inv(w, ipv4) && (e.RevokeGuest? || e.RevokeHost?)
    ensures Inv(Next(w, e, ipv4), ipv4)
  {
    if w.stage.Revoking? {
      match e
      case RevokeGuest(i, outcome) => RevokeGuestKeepsInv(w, i, outcome, ipv4);
      case RevokeHost(ok, removed) => RevokeHostKeepsInv(w, ok, removed, ipv4);
    }
  }

  lemma PreparationKeepsInv(w: World, e: Event, ipv4: string -> bool)
    requires Inv(w, ipv4) && (e.Load? || e.Save? || e.MakePlan? || e.Install?)
    ensures Inv(Next(w, e, ipv4), ipv4)
  {
    match e
    case Save(ok) => SaveKeepsInv(w, ok, ipv4);
    case Load(ok) => if w.stage.Loading? { LoadKeepsInv(w, ok, ipv4); }
    case MakePlan(_, _, _, _) => if w.stage.Planning? { PlanKeepsInv(w, e, ipv4); }
    case Install(ok, effect) => if w.stage.Installing? { InstallKeepsInv(w, ok, effect, ipv4); }
  }

  lemma NextKeepsInv(w: World, e: Event, ipv4: string -> bool)
    requires Inv(w, ipv4)
    ensures Inv(Next(w, e, ipv4), ipv4)
  {
    if e.Crash? || e.GuestCreated? || e.GuestDestroyed? || e.Start? {
      EnvironmentKeepsInv(w, e, ipv4);
    } else if e.Clear? || e.Check? || e.PlanScoped? || e.Record? {
      ControlKeepsInv(w, e, ipv4);
    } else if e.RevokeGuest? || e.RevokeHost? {
      RevocationKeepsInv(w, e, ipv4);
    } else if e.Load? || e.Save? || e.MakePlan? || e.Install? {
      PreparationKeepsInv(w, e, ipv4);
    } else if w.stage.Applying? {
      ApplyKeepsInv(w, e, ipv4);
    }
  }

  lemma {:induction false} RunsKeepInv(es: seq<Event>, ipv4: string -> bool)
    ensures Inv(Execute(Init, es, ipv4), ipv4)
  {
    if es != [] {
      RunsKeepInv(es[..|es| - 1], ipv4);
      NextKeepsInv(Execute(Init, es[..|es| - 1], ipv4), es[|es| - 1], ipv4);
    }
  }

  // ----- the main safety theorem -----

  /**
   Over every sequence of runs, failures, partial effects, crashes and restarts:
   a live temporary key is named by the journal on disk together with its Host
   address or guest, or it is a copy on the gateway that a committed run left
   there. So at most one other key is ever live, and none without a journal.
   */
  lemma LiveKeysAreJournaled(es: seq<Event>, ipv4: string -> bool)
    ensures var w := Execute(Init, es, ipv4);
            && (forall h <- w.keys :: LeftBehind(w, h) || (w.journal.Some? && Names(w.journal.value, h)))
            && (forall h, h' ::
                  h in w.keys && h' in w.keys && !LeftBehind(w, h) && !LeftBehind(w, h') ==> h.key == h'.key)
  {
    RunsKeepInv(es, ipv4);
  }

  /** The commit at which a run leaves its key on the gateway: its record is written and its journal goes. */
  predicate LeavesKey(w: World, e: Event, key: string) {
    && w.stage.Clearing? && w.stage.st.key == key && e == Clear(true)
    && GatewayCopy(key) in w.keys && w.lastApplied == Some(RecordOf(w.stage.st))
  }

  lemma LeftStep(w: World, e: Event, key: string, ipv4: string -> bool)
    requires Inv(w, ipv4) && key in Next(w, e, ipv4).left
    ensures key in w.left || LeavesKey(w, e, key)
  {
  }

  /** And only a commit leaves one. */
  lemma {:induction false} LeftByACommit(es: seq<Event>, key: string, ipv4: string -> bool) returns (i: nat)
    requires key in Execute(Init, es, ipv4).left
    ensures i < |es| && LeavesKey(Execute(Init, es[..i], ipv4), es[i], key)
  {
    var n := |es| - 1;
    RunsKeepInv(es[..n], ipv4);
    LeftStep(Execute(Init, es[..n], ipv4), es[n], key, ipv4);
    if LeavesKey(Execute(Init, es[..n], ipv4), es[n], key) {
      i := n;
    } else {
      i := LeftByACommit(es[..n], key, ipv4);
      assert es[..n][..i] == es[..i];
    }
  }

  predicate ManagedSite(stage: Stage) {
    match stage
    case Idle => false
    case Failing(_) => false
    case Committing(_) => false
    case Recording(_) => false
    case Clearing(_) => false
    case _ => stage.site.managed
  }

  /** No managed site is being deployed, and none has left a key. */
  predicate Unmanaged(w: World) {
    && w.left == {} && !ManagedSite(w.stage)
    && (w.stage.Committing? || w.stage.Recording? || w.stage.Clearing? ==> w.keys == {})
  }

  lemma UnmanagedRevocation(w: World, e: Event, ipv4: string -> bool)
    requires Inv(w, ipv4) && Unmanaged(w) && w.stage.Revoking? && e.RevokeHost?
    ensures Unmanaged(Next(w, e, ipv4))
  {
    RevokeHostKeepsInv(w, e.ok, e.removed, ipv4);
    var w' := Next(w, e, ipv4);
    if w'.stage.Committing? {
      forall h | h in w'.keys ensures h.place != InGuest(GATEWAY_VMID) {
      }
    }
  }

  lemma UnmanagedStep(w: World, e: Event, ipv4: string -> bool)
    requires Inv(w, ipv4) && Unmanaged(w) && (e.Start? ==> !e.site.managed) && !(w.stage.Revoking? && e.RevokeHost?)
    ensures Unmanaged(Next(w, e, ipv4))
  {
  }

  lemma {:induction false} UnmanagedRuns(es: seq<Event>, ipv4: string -> bool)
    requires forall e <- es :: e.Start? ==> !e.site.managed
    ensures Unmanaged(Execute(Init, es, ipv4))
  {
    if es != [] {
      var init, last := es[..|es| - 1], es[|es| - 1];
      UnmanagedRuns(init, ipv4);
      RunsKeepInv(init, ipv4);
      assert last in es;
      var w := Execute(Init, init, ipv4);
      if w.stage.Revoking? && last.RevokeHost? {
        UnmanagedRevocation(w, last, ipv4);
      } else {
        UnmanagedStep(w, last, ipv4);
      }
    }
  }

  /** Where no managed gateway is deployed there is no exception: every live key is journaled with its place. */
  lemma UnmanagedKeysAreJournaled(es: seq<Event>, ipv4: string -> bool)
    requires forall e <- es :: e.Start? ==> !e.site.managed
    ensures var w := Execute(Init, es, ipv4); forall h <- w.keys :: w.journal.Some? && Names(w.journal.value, h)
  {
    RunsKeepInv(es, ipv4);
    UnmanagedRuns(es, ipv4);
  }

  // ----- recovery -----

  predicate Succeeds(outcome: GuestOutcome, vmid: int, guests: set<int>) {
    outcome.Direct? || outcome.ThroughHost? || (outcome.ProvenAbsent? && vmid !in guests)
  }

  function RevokeAll(order: seq<nat>, outcomes: nat -> GuestOutcome): seq<Event> {
    seq(|order|, k requires 0 <= k < |order| => RevokeGuest(order[k], outcomes(order[k])))
  }

  function Last(es: seq<Event>): Event
    requires es != []
  {
    es[|es| - 1]
  }

  lemma ExecuteAppend(w: World, es: seq<Event>, e: Event, ipv4: string -> bool)
    ensures Execute(w, es + [e], ipv4) == Next(Execute(w, es, ipv4), e, ipv4)
  {
    assert (es + [e])[..|es|] == es;
  }

  lemma ExecuteOne(w: World, e: Event, ipv4: string -> bool)
    ensures Execute(w, [e], ipv4) == Next(w, e, ipv4)
  {
    assert [e][..0] == [];
  }

  lemma {:induction false} ExecuteConcat(w: World, a: seq<Event>, b: seq<Event>, ipv4: string -> bool)
    ensures Execute(w, a + b, ipv4) == Execute(Execute(w, a, ipv4), b, ipv4)
  {
    if b == [] {
      assert a + b == a;
    } else {
      var b' := b[..|b| - 1];
      assert a + b == (a + b') + [Last(b)];
      ExecuteAppend(w, a + b', Last(b), ipv4);
      ExecuteConcat(w, a, b', ipv4);
    }
  }

  /** One successful goroutine settles its own index and nothing else. */
  lemma GoroutineRevokes(w: World, i: nat, outcome: GuestOutcome, ipv4: string -> bool)
    requires w.stage.Revoking? && (i in w.stage.pending ==> i < |w.stage.targets|)
    requires i in w.stage.pending ==> Succeeds(outcome, w.stage.targets[i].vmid, w.guests)
    requires forall h <- w.keys :: h.place.InGuest? ==> h.place.vmid in w.guests
    ensures var w' := Next(w, RevokeGuest(i, outcome), ipv4);
            && w'.keys <= w.keys && w' == w.(keys := w'.keys, stage := w.stage.(pending := w.stage.pending - {i}))
            && (i in w.stage.pending ==> Holding(InGuest(w.stage.targets[i].vmid), w.stage.st.key) !in w'.keys)
  {
    if i !in w.stage.pending {
      assert w.stage.pending - {i} == w.stage.pending;
    }
  }

  /** Successful goroutines, in any order, leave pending exactly the indices they did not take. */
  lemma {:induction false} FanOutRevokes(w: World, order: seq<nat>, outcomes: nat -> GuestOutcome, ipv4: string -> bool)
    requires w.stage.Revoking? && forall i <- w.stage.pending :: i < |w.stage.targets|
    requires forall i <- w.stage.pending :: Succeeds(outcomes(i), w.stage.targets[i].vmid, w.guests)
    requires forall h <- w.keys :: h.place.InGuest? ==> h.place.vmid in w.guests
    ensures var w' := Execute(w, RevokeAll(order, outcomes), ipv4);
            && w'.stage.Revoking? && w' == w.(keys := w'.keys, stage := w.stage.(pending := w'.stage.pending))
            && w'.stage.pending == (set i | i in w.stage.pending && i !in order)
            && w'.keys <= w.keys
            && (forall i <- w.stage.pending :: i in order ==>
                  Holding(InGuest(w.stage.targets[i].vmid), w.stage.st.key) !in w'.keys)
    decreases |order|
  {
    if order == [] {
    } else {
      var n := |order| - 1;
      FanOutRevokes(w, order[..n], outcomes, ipv4);
      var es := RevokeAll(order, outcomes);
      assert es[..n] == RevokeAll(order[..n], outcomes) && es[n] == RevokeGuest(order[n], outcomes(order[n]));
      assert order == order[..n] + [order[n]];
      GoroutineRevokes(Execute(w, es[..n], ipv4), order[n], outcomes(order[n]), ipv4);
    }
  }

  lemma ArmedRecordCanBeMarked(st: OperationState, ipv4: string -> bool)
    requires ValidOperationState(st, ipv4) && GoodRecord(st) && st.key != ""
    ensures ValidOperationState(st.(phase := Cleanup), ipv4)
  {
  }

  /** Starting, loading and marking the journal of an armed run that stopped. */
  lemma RecoveryBegins(w: World, site: Site, ipv4: string -> bool)
    requires Inv(w, ipv4) && w.stage.Idle? && w.journal.Some?
    requires w.journal.value.key != "" && w.journal.value.host == site.bootstrap
    ensures var st := w.journal.value;
            var targets := Targets(Decoded(st.guests));
            Execute(w, [Start(site), Load(true), Save(true)], ipv4) ==
            w.(journal := Some(st.(phase := Cleanup)),
               stage := Revoking(site, st, Recovery, targets, false, Indices(|targets|), false))
  {
    var st := w.journal.value;
    var loading := w.(stage := Loading(site));
    var marking := w.(stage := Marking(site, st, Recovery, Targets(Decoded(st.guests))));
    assert Next(loading, Load(true), ipv4) == marking;
    ArmedRecordCanBeMarked(st, ipv4);
    assert Execute(w, [Start(site)], ipv4) == loading by { ExecuteOne(w, Start(site), ipv4); }
    assert [Start(site), Load(true)] == [Start(site)] + [Load(true)];
    ExecuteAppend(w, [Start(site)], Load(true), ipv4);
    assert [Start(site), Load(true), Save(true)] == [Start(site), Load(true)] + [Save(true)];
    ExecuteAppend(w, [Start(site), Load(true)], Save(true), ipv4);
  }

  /** With nothing pending and nothing failed, the Host and then the journal are cleared. */
  lemma RecoveryEnds(w: World, ipv4: string -> bool)
    requires w.stage.Revoking? && w.stage.mode.Recovery? && !w.stage.failed && !w.stage.unmarked
    requires w.stage.pending == {}
    ensures Execute(w, [RevokeHost(true, true), Clear(true)], ipv4) ==
            w.(journal := None, keys := Drop(w.keys, Host(w.stage.site.bootstrap), w.stage.st.key),
               stage := Checking(w.stage.site))
  {
    ExecuteOne(w, RevokeHost(true, true), ipv4);
    ExecuteAppend(w, [RevokeHost(true, true)], Clear(true), ipv4);
    assert [RevokeHost(true, true), Clear(true)] == [RevokeHost(true, true)] + [Clear(true)];
  }

  predicate AllSucceed(st: OperationState, guests: set<int>, order: seq<nat>, outcomes: nat -> GuestOutcome) {
    var targets := Targets(Decoded(st.guests));
    forall i: nat :: i < |targets| ==> i in order && Succeeds(outcomes(i), targets[i].vmid, guests)
  }

  /** A recovery without failures, for one order and one outcome of each goroutine. */
  function RecoveryEvents(st: OperationState, site: Site, order: seq<nat>, outcomes: nat -> GuestOutcome): seq<Event> {
    if st.key == "" then [Start(site), Load(true), Clear(true)]
    else [Start(site), Load(true), Save(true)] + RevokeAll(order, outcomes) + [RevokeHost(true, true), Clear(true)]
  }

  lemma ArmedRecovery(w: World, site: Site, order: seq<nat>, outcomes: nat -> GuestOutcome, ipv4: string -> bool)
    requires Inv(w, ipv4) && w.stage.Idle? && w.journal.Some?
    requires w.journal.value.key != "" && w.journal.value.host == site.bootstrap
    requires AllSucceed(w.journal.value, w.guests, order, outcomes)
    ensures var w' := Execute(w, RecoveryEvents(w.journal.value, site, order, outcomes), ipv4);
            && w'.stage == Checking(site) && w'.journal.None? && w'.lastApplied == w.lastApplied
            && w'.keys <= w.keys
            && (forall h <- w'.keys :: !Names(w.journal.value, h))
  {
    var st := w.journal.value;
    var begin, fan, end := [Start(site), Load(true), Save(true)], RevokeAll(order, outcomes),
      [RevokeHost(true, true), Clear(true)];
    RecoveryBegins(w, site, ipv4);
    var revoking := Execute(w, begin, ipv4);
    FanOutRevokes(revoking, order, outcomes, ipv4);
    var revoked := Execute(revoking, fan, ipv4);
    assert revoked.stage.pending == {};
    RecoveryEnds(revoked, ipv4);
    ExecuteConcat(w, begin, fan, ipv4);
    ExecuteConcat(w, begin + fan, end, ipv4);
    DecodedNamesAll(st, ipv4);
  }

  lemma StaleRecovery(w: World, site: Site, ipv4: string -> bool)
    requires Inv(w, ipv4) && w.stage.Idle? && w.journal.Some? && w.journal.value.key == ""
    ensures var script := [Start(site), Load(true), Clear(true)];
            Execute(w, script, ipv4) == w.(journal := None, stage := Checking(site))
  {
    var script := [Start(site), Load(true), Clear(true)];
    ExecuteOne(w, Start(site), ipv4);
    assert script[..2] == [Start(site)] + [Load(true)];
    ExecuteAppend(w, [Start(site)], Load(true), ipv4);
    assert script == script[..2] + [Clear(true)];
    ExecuteAppend(w, script[..2], Clear(true), ipv4);
  }

  /**
   From any reachable state in which no process runs, with the journaled Host
   address unchanged: for every order of the goroutines and every way in which
   each of them succeeds (directly, through the Host, or against a guest that does
   not exist), a recovery whose saves succeed reaches the next deployment with an
   empty journal, nothing the old journal named still holding its key, and no
   other key but the gateway copies of earlier committed runs.
   */
  lemma RecoveryRevokesEverything(es: seq<Event>, site: Site, order: seq<nat>, outcomes: nat -> GuestOutcome,
                                  ipv4: string -> bool)
    requires var w := Execute(Init, es, ipv4);
             && w.stage.Idle? && w.journal.Some?
             && (w.journal.value.key != "" ==> w.journal.value.host == site.bootstrap)
             && AllSucceed(w.journal.value, w.guests, order, outcomes)
    ensures var w := Execute(Init, es, ipv4);
            var w' := Execute(w, RecoveryEvents(w.journal.value, site, order, outcomes), ipv4);
            && w'.stage == Checking(site) && w'.journal.None? && w'.lastApplied == w.lastApplied
            && w'.keys <= w.keys
            && (forall h <- w'.keys :: LeftBehind(w', h) && !Names(w.journal.value, h))
  {
    RunsKeepInv(es, ipv4);
    var w := Execute(Init, es, ipv4);
    var script := RecoveryEvents(w.journal.value, site, order, outcomes);
    if w.journal.value.key != "" {
      ArmedRecovery(w, site, order, outcomes, ipv4);
    } else {
      StaleRecovery(w, site, ipv4);
    }
    RunsOnKeepInv(w, script, ipv4);
  }

  lemma {:induction false} RunsOnKeepInv(w: World, es: seq<Event>, ipv4: string -> bool)
    requires Inv(w, ipv4)
    ensures Inv(Execute(w, es, ipv4), ipv4)
  {
    if es != [] {
      RunsOnKeepInv(w, es[..|es| - 1], ipv4);
      NextKeepsInv(Execute(w, es[..|es| - 1], ipv4), es[|es| - 1], ipv4);
    }
  }

  // ----- every recovery that gets through -----

  predicate InRecovery(s: Stage) {
    s.Loading? || s.ClearingStale? || s.RecoveryClearing? || (s.Marking? && s.mode == Recovery) ||
      (s.Revoking? && s.mode == Recovery)
  }

  predicate NoneNamed(st: OperationState, keys: set<Holding>) {
    forall h <- keys :: !Names(st, h)
  }

  /** What a recovery of the journal `st` has achieved when it is at a stage of its own. */
  predicate Recovering(st: OperationState, site: Site, w: World) {
    match w.stage
    case Loading(s) => s == site && w.journal == Some(st)
    case ClearingStale(s) => s == site && st.key == ""
    case Marking(s, x, mode, targets) =>
      mode == Recovery ==> s == site && x == st && st.host == site.bootstrap && targets == Targets(Decoded(st.guests))
    case Revoking(s, x, mode, targets, _, pending, failed) =>
      mode == Recovery ==>
        && s == site && x == st && st.host == site.bootstrap && targets == Targets(Decoded(st.guests))
        && (!failed ==> forall i: nat :: i < |targets| && i !in pending ==>
            Holding(InGuest(targets[i].vmid), st.key) !in w.keys)
    case RecoveryClearing(s) => s == site && NoneNamed(st, w.keys)
    case Checking(s) => s == site && NoneNamed(st, w.keys)
    case _ => true
  }

  predicate KeysExist(w: World) {
    forall h <- w.keys :: h.place.InGuest? ==> h.place.vmid in w.guests
  }

  lemma TargetIndex(targets: seq<Guest>, g: Guest)
    requires g in targets
    ensures exists i: nat :: i < |targets| && targets[i].vmid == g.vmid
  {
    var i :| 0 <= i < |targets| && targets[i] == g;
  }

  lemma NamedIsATarget(st: OperationState, o: OperationGuest, ipv4: string -> bool)
    requires ValidOperationState(st, ipv4) && o in st.guests
    ensures exists i: nat :: i < |Targets(Decoded(st.guests))| && Targets(Decoded(st.guests))[i].vmid == o.vmid
  {
    DecodedNamesAll(st, ipv4);
    var g :| g in Targets(Decoded(st.guests)) && Revocable(g) && g.vmid == o.vmid;
    TargetIndex(Targets(Decoded(st.guests)), g);
  }

  lemma RevokedIsUnnamed(st: OperationState, site: Site, w: World, removed: bool, ipv4: string -> bool)
    requires ValidOperationState(st, ipv4) && Recovering(st, site, w)
    requires w.stage.Revoking? && w.stage.mode == Recovery && w.stage.pending == {} && !w.stage.failed
    ensures NoneNamed(st, RevokeHostStep(w, true, removed).keys)
  {
    var targets := Targets(Decoded(st.guests));
    forall o | o in st.guests ensures Holding(InGuest(o.vmid), st.key) !in w.keys {
      NamedIsATarget(st, o, ipv4);
      var i: nat :| i < |targets| && targets[i].vmid == o.vmid;
    }
  }

  lemma RecoveringRevokesGuest(st: OperationState, site: Site, w: World, e: Event, ipv4: string -> bool)
    requires InRecovery(w.stage) && Recovering(st, site, w) && KeysExist(w) && e.RevokeGuest?
    ensures Recovering(st, site, Next(w, e, ipv4))
  {
  }

  lemma RecoveringRevokesHost(st: OperationState, site: Site, w: World, e: Event, ipv4: string -> bool)
    requires ValidOperationState(st, ipv4) && InRecovery(w.stage) && Recovering(st, site, w) && e.RevokeHost?
    ensures Recovering(st, site, Next(w, e, ipv4))
  {
    if w.stage.Revoking? && e.RevokeHost? && e.ok && w.stage.pending == {} && !w.stage.failed {
      RevokedIsUnnamed(st, site, w, e.removed, ipv4);
    }
  }

  lemma RecoveringLoads(st: OperationState, site: Site, w: World, e: Event, ipv4: string -> bool)
    requires ValidOperationState(st, ipv4) && InRecovery(w.stage) && Recovering(st, site, w)
    requires e.Load? || e.Save? || e.Clear?
    ensures Recovering(st, site, Next(w, e, ipv4))
  {
    assert st.key == "" ==> NoneNamed(st, w.keys);
  }

  lemma RecoveringOtherwise(st: OperationState, site: Site, w: World, e: Event, ipv4: string -> bool)
    requires InRecovery(w.stage) && Recovering(st, site, w)
    requires !e.RevokeGuest? && !e.RevokeHost? && !e.Load? && !e.Save? && !e.Clear?
    ensures Recovering(st, site, Next(w, e, ipv4))
  {
  }

  lemma RecoveringStep(st: OperationState, site: Site, w: World, e: Event, ipv4: string -> bool)
    requires ValidOperationState(st, ipv4) && InRecovery(w.stage) && Recovering(st, site, w) && KeysExist(w)
    ensures Recovering(st, site, Next(w, e, ipv4))
  {
    if e.RevokeGuest? || e.RevokeHost? {
      if e.RevokeGuest? {
        RecoveringRevokesGuest(st, site, w, e, ipv4);
      } else {
        RecoveringRevokesHost(st, site, w, e, ipv4);
      }
    } else if e.Load? || e.Save? || e.Clear? {
      RecoveringLoads(st, site, w, e, ipv4);
    } else {
      RecoveringOtherwise(st, site, w, e, ipv4);
    }
  }

  lemma RecoveryFrame(w: World, e: Event, ipv4: string -> bool)
    requires InRecovery(w.stage)
    ensures var w' := Next(w, e, ipv4); w'.keys <= w.keys && w'.lastApplied == w.lastApplied
  {
  }

  /** The recovery has not yet handed over after any proper part of the events. */
  ghost predicate StaysInRecovery(w: World, es: seq<Event>, ipv4: string -> bool) {
    forall n :: 0 <= n < |es| ==> InRecovery(Execute(w, es[..n], ipv4).stage)
  }

  lemma {:induction false} RecoveriesProgress(st: OperationState, site: Site, w: World, es: seq<Event>,
                                              ipv4: string -> bool)
    requires Inv(w, ipv4) && ValidOperationState(st, ipv4) && Recovering(st, site, w) && StaysInRecovery(w, es, ipv4)
    ensures var w' := Execute(w, es, ipv4);
            Inv(w', ipv4) && Recovering(st, site, w') && w'.keys <= w.keys && w'.lastApplied == w.lastApplied
  {
    if es != [] {
      var n := |es| - 1;
      assert forall k :: 0 <= k < n ==> es[..n][..k] == es[..k];
      RecoveriesProgress(st, site, w, es[..n], ipv4);
      var before := Execute(w, es[..n], ipv4);
      assert KeysExist(before);
      RecoveringStep(st, site, before, es[n], ipv4);
      RecoveryFrame(before, es[n], ipv4);
      NextKeepsInv(before, es[n], ipv4);
    }
  }

  /**
   And there is no other way through: whatever events a recovery meets, once it
   hands over to the next deployment the journal is empty, nothing that it named
   still holds its key, and no key was added.
   */
  lemma EveryRecoveryEndsClean(es: seq<Event>, site: Site, events: seq<Event>, ipv4: string -> bool)
    requires var w := Execute(Init, es, ipv4); w.stage.Idle? && w.journal.Some?
    requires var started := Execute(Init, es, ipv4).(stage := Loading(site));
             StaysInRecovery(started, events, ipv4) && Execute(started, events, ipv4).stage.Checking?
    ensures var w := Execute(Init, es, ipv4);
            var w' := Execute(Next(w, Start(site), ipv4), events, ipv4);
            && w'.stage == Checking(site) && w'.journal.None? && w'.lastApplied == w.lastApplied
            && w'.keys <= w.keys
            && (forall h <- w'.keys :: LeftBehind(w', h) && !Names(w.journal.value, h))
  {
    RunsKeepInv(es, ipv4);
    var w := Execute(Init, es, ipv4);
    var started := Next(w, Start(site), ipv4);
    NextKeepsInv(w, Start(site), ipv4);
    RecoveriesProgress(w.journal.value, site, started, events, ipv4);
  }

  // ----- who writes the last-applied record -----

  /** The step was offered by the current stage and the code saw an error there. */
  predicate FailedStep(w: World, e: Event, ipv4: string -> bool) {
    match e
    case Crash => true
    case Load(_) => w.stage.Loading? && Next(w, e, ipv4).stage.Idle?
    case Save(ok) => ToSave(w.stage).Some? && !Saved(w.stage, ok, ipv4)
    case Clear(ok) => (w.stage.ClearingStale? || w.stage.RecoveryClearing? || w.stage.Clearing?) && !ok
    case Check(ok) => w.stage.Checking? && !ok
    case MakePlan(_, _, _, _) => w.stage.Planning? && Next(w, e, ipv4).stage.Failing?
    case Install(ok, _) => w.stage.Installing? && !ok
    case Work(ok) => w.stage.Applying? && w.stage.waiting.None? && !ok
    case Ready(ok) => w.stage.Applying? && w.stage.waiting.Some? && !ok
    case RevokeGuest(i, outcome) => w.stage.Revoking? && i in w.stage.pending && i < |w.stage.targets| &&
      outcome.NotRevoked?
    case RevokeHost(ok, _) => w.stage.Revoking? && w.stage.pending == {} && !ok
    case Record(ok) => w.stage.Recording? && !(ok && ValidLastApplied(RecordOf(w.stage.st)))
    case _ => false
  }

  /** No step since the current run started has failed. */
  predicate CleanRun(es: seq<Event>, ipv4: string -> bool) {
    es != [] &&
    var before := Execute(Init, es[..|es| - 1], ipv4);
    || (Last(es).Start? && before.stage.Idle?)
    || (CleanRun(es[..|es| - 1], ipv4) && !FailedStep(before, Last(es), ipv4))
  }

  predicate ErrorFree(s: Stage) {
    match s
    case Idle => false
    case Failing(_) => false
    case Marking(_, _, mode, _) => mode != Run(true)
    case Revoking(_, _, mode, _, unmarked, _, failed) => mode != Run(true) && !unmarked && !failed
    case _ => true
  }

  lemma ErrorsStick(w: World, e: Event, ipv4: string -> bool)
    requires ErrorFree(Next(w, e, ipv4).stage)
    ensures (e.Start? && w.stage.Idle?) || (ErrorFree(w.stage) && !FailedStep(w, e, ipv4))
  {
  }

  lemma {:induction false} ErrorFreeMeansCleanRun(es: seq<Event>, ipv4: string -> bool)
    requires ErrorFree(Execute(Init, es, ipv4).stage)
    ensures CleanRun(es, ipv4)
  {
    if es != [] {
      var before := Execute(Init, es[..|es| - 1], ipv4);
      ErrorsStick(before, Last(es), ipv4);
      if ErrorFree(before.stage) {
        ErrorFreeMeansCleanRun(es[..|es| - 1], ipv4);
      }
    }
  }

  /**
   The last-applied record changes only when a run that had no failed step,
   in its phases or in its cleanup, records its own plan; its key is by then
   gone from everything but the gateway, and the journal still describes it.
   */
  lemma LastAppliedOnlyFromCleanRun(es: seq<Event>, e: Event, ipv4: string -> bool)
    requires Next(Execute(Init, es, ipv4), e, ipv4).lastApplied != Execute(Init, es, ipv4).lastApplied
    ensures var w := Execute(Init, es, ipv4);
            && CleanRun(es, ipv4) && !FailedStep(w, e, ipv4)
            && w.stage.Recording? && Revoked(w, w.stage.st) && w.journal.Some?
            && SameAuthority(w.journal.value, w.stage.st)
            && Next(w, e, ipv4).lastApplied ==
                 Some(LastApplied(w.stage.st.revision, w.stage.st.digest, w.stage.st.bundle))
  {
    RunsKeepInv(es, ipv4);
    assert e.Record? by { LastAppliedFrame(Execute(Init, es, ipv4), e, ipv4); }
    ErrorFreeMeansCleanRun(es, ipv4);
  }

  lemma LastAppliedFrame(w: World, e: Event, ipv4: string -> bool)
    ensures e.Record? || Next(w, e, ipv4).lastApplied == w.lastApplied
  {
  }

  // ----- the gateway -----

  /** A run with the given key on a managed site, from arming to its end. */
  predicate ManagedRun(s: Stage, key: string) {
    match s
    case Idle => true
    case Arming(site, st, _) => site.managed && st.key == key
    case Installing(site, st, _) => site.managed && st.key == key
    case Applying(site, st, _, _, _, _) => site.managed && st.key == key
    case Marking(site, st, mode, _) => mode.Run? && site.managed && st.key == key
    case Revoking(site, st, mode, _, _, _, _) => mode.Run? && site.managed && st.key == key
    case Failing(st) => st.key == key
    case Committing(st) => st.key == key
    case Recording(st) => st.key == key
    case Clearing(st) => st.key == key
    case _ => false
  }

  /** The gateway's first readiness probe failed, and the re-arm that follows takes effect. */
  predicate GatewayRearm(w: World, e: Event) {
    w.stage.Applying? && w.stage.waiting == Some(GATEWAY) && e == Rearm(true) && GATEWAY_VMID in w.guests
  }

  /** No other guest of a managed run has the gateway's VMID. */
  lemma OnlyTheRecordIsTheGateway(w: World, ipv4: string -> bool)
    requires Inv(w, ipv4) && w.stage.Applying? && w.stage.site.managed && w.stage.waiting.Some?
    ensures w.stage.waiting.value.vmid == GATEWAY_VMID ==> w.stage.waiting.value == GATEWAY
  {
    RegistrySkipsGateway(w, ipv4);
    WaitingIsNamed(w, ipv4);
  }

  /** What one event does to the gateway's copy of the key. */
  ghost predicate FollowsRearm(w: World, e: Event, key: string, w': World) {
    && ManagedRun(w'.stage, key)
    && (GatewayCopy(key) in w'.keys <==>
        GatewayRearm(w, e) || (GatewayCopy(key) in w.keys && e != GuestDestroyed(GATEWAY_VMID)))
  }

  lemma ManagedApplyStep(w: World, e: Event, key: string, ipv4: string -> bool)
    requires Inv(w, ipv4) && ManagedRun(w.stage, key) && w.stage.Applying? && !e.Start?
    ensures FollowsRearm(w, e, key, Next(w, e, ipv4))
  {
    if w.stage.waiting.Some? {
      OnlyTheRecordIsTheGateway(w, ipv4);
    }
  }

  lemma ManagedRevokeStep(w: World, e: Event, key: string, ipv4: string -> bool)
    requires RevocationInv(w) && w.stage.Revoking? && ManagedRun(w.stage, key) && !e.Start?
    ensures FollowsRearm(w, e, key, Next(w, e, ipv4))
  {
  }

  lemma ManagedOtherStep(w: World, e: Event, key: string, ipv4: string -> bool)
    requires ManagedRun(w.stage, key) && !w.stage.Applying? && !w.stage.Revoking? && !e.Start?
    ensures FollowsRearm(w, e, key, Next(w, e, ipv4))
  {
  }

  lemma ManagedStep(w: World, e: Event, key: string, ipv4: string -> bool)
    requires Inv(w, ipv4) && ManagedRun(w.stage, key) && !e.Start?
    ensures FollowsRearm(w, e, key, Next(w, e, ipv4))
  {
    if w.stage.Applying? {
      ManagedApplyStep(w, e, key, ipv4);
    } else if w.stage.Revoking? {
      ManagedRevokeStep(w, e, key, ipv4);
    } else {
      ManagedOtherStep(w, e, key, ipv4);
    }
  }

  ghost predicate RearmedAt(w: World, es: seq<Event>, i: int, ipv4: string -> bool) {
    0 <= i < |es| && GatewayRearm(Execute(w, es[..i], ipv4), es[i])
  }

  predicate NotDestroyedAfter(es: seq<Event>, i: int) {
    forall j :: i < j < |es| && 0 <= j ==> es[j] != GuestDestroyed(GATEWAY_VMID)
  }

  /** The gateway was re-armed at some event, and not destroyed at any later one. */
  ghost predicate RearmedForGood(w: World, es: seq<Event>, ipv4: string -> bool) {
    exists i :: RearmedAt(w, es, i, ipv4) && NotDestroyedAfter(es, i)
  }

  lemma RearmedAtPrefix(w: World, es: seq<Event>, e: Event, i: int, ipv4: string -> bool)
    ensures i < |es| ==> (RearmedAt(w, es + [e], i, ipv4) <==> RearmedAt(w, es, i, ipv4))
    ensures i == |es| ==> (RearmedAt(w, es + [e], i, ipv4) <==> GatewayRearm(Execute(w, es, ipv4), e))
  {
    if 0 <= i <= |es| {
      assert (es + [e])[..i] == es[..i] && es[..|es|] == es;
    }
  }

  lemma NotDestroyedStep(es: seq<Event>, e: Event, i: int)
    requires 0 <= i < |es|
    ensures NotDestroyedAfter(es + [e], i) <==> NotDestroyedAfter(es, i) && e != GuestDestroyed(GATEWAY_VMID)
  {
    var all := es + [e];
    assert all[|es|] == e && forall j :: 0 <= j < |es| ==> all[j] == es[j];
    if NotDestroyedAfter(all, i) {
      forall j | i < j < |es| ensures es[j] != GuestDestroyed(GATEWAY_VMID) {
        assert all[j] == es[j];
      }
    }
  }

  lemma RearmedGrows(w: World, es: seq<Event>, e: Event, ipv4: string -> bool)
    requires GatewayRearm(Execute(w, es, ipv4), e) || (RearmedForGood(w, es, ipv4) && e != GuestDestroyed(GATEWAY_VMID))
    ensures RearmedForGood(w, es + [e], ipv4)
  {
    if GatewayRearm(Execute(w, es, ipv4), e) {
      RearmedAtPrefix(w, es, e, |es|, ipv4);
      assert NotDestroyedAfter(es + [e], |es|);
    } else {
      var i :| RearmedAt(w, es, i, ipv4) && NotDestroyedAfter(es, i);
      RearmedAtPrefix(w, es, e, i, ipv4);
      NotDestroyedStep(es, e, i);
    }
  }

  lemma RearmedStep(w: World, es: seq<Event>, e: Event, ipv4: string -> bool)
    ensures RearmedForGood(w, es + [e], ipv4) <==>
            GatewayRearm(Execute(w, es, ipv4), e) || (RearmedForGood(w, es, ipv4) && e != GuestDestroyed(GATEWAY_VMID))
  {
    if RearmedForGood(w, es + [e], ipv4) {
      var i :| RearmedAt(w, es + [e], i, ipv4) && NotDestroyedAfter(es + [e], i);
      RearmedAtPrefix(w, es, e, i, ipv4);
      if i < |es| {
        NotDestroyedStep(es, e, i);
      }
    } else if GatewayRearm(Execute(w, es, ipv4), e) ||
      (RearmedForGood(w, es, ipv4) && e != GuestDestroyed(GATEWAY_VMID)) {
      RearmedGrows(w, es, e, ipv4);
    }
  }

  lemma {:induction false} GatewayCopyFollowsRearm(w: World, es: seq<Event>, key: string, ipv4: string -> bool)
    requires Inv(w, ipv4) && ManagedRun(w.stage, key) && GatewayCopy(key) !in w.keys && forall e <- es :: !e.Start?
    ensures var w' := Execute(w, es, ipv4);
            && Inv(w', ipv4) && ManagedRun(w'.stage, key)
            && (GatewayCopy(key) in w'.keys <==> RearmedForGood(w, es, ipv4))
  {
    if es != [] {
      var init, last := es[..|es| - 1], es[|es| - 1];
      assert last in es && forall e <- init :: e in es;
      GatewayCopyFollowsRearm(w, init, key, ipv4);
      ManagedStep(Execute(w, init, ipv4), last, key, ipv4);
      NextKeepsInv(Execute(w, init, ipv4), last, ipv4);
      RearmedStep(w, init, last, ipv4);
      assert es == init + [last];
    }
  }

  /**
   A managed run with a fresh key that commits and clears its journal leaves a copy
   of that key somewhere if and only if, during its phases, a re-arm of the gateway
   took effect and the gateway was not destroyed afterwards.
   */
  lemma CommittedRunLeavesKeyIffGatewayRearmed(es: seq<Event>, run: seq<Event>, ipv4: string -> bool)
    requires var w := Execute(Init, es, ipv4);
             w.stage.Arming? && w.stage.site.managed && forall h <- w.keys :: h.key != w.stage.st.key
    requires (forall e <- run :: !e.Start?) && Execute(Execute(Init, es, ipv4), run, ipv4).journal.None?
    ensures var w := Execute(Init, es, ipv4);
            (exists h <- Execute(w, run, ipv4).keys :: h.key == w.stage.st.key) <==> RearmedForGood(w, run, ipv4)
  {
    RunsKeepInv(es, ipv4);
    var w := Execute(Init, es, ipv4);
    var key := w.stage.st.key;
    GatewayCopyFollowsRearm(w, run, key, ipv4);
    var w' := Execute(w, run, ipv4);
    assert forall h <- w'.keys :: LeftBehind(w', h);
    assert forall h <- w'.keys :: h.key == key ==> h == GatewayCopy(key);
  }

  function AnyAddress(): string -> bool { _ => true }

  lemma Then(es: seq<Event>, w: World, e: Event) returns (es': seq<Event>, w': World)
    requires Execute(Init, es, AnyAddress()) == w
    ensures es' == es + [e] && w' == Next(w, e, AnyAddress()) && Execute(Init, es', AnyAddress()) == w'
  {
    es', w' := es + [e], Next(w, e, AnyAddress());
    ExecuteAppend(Init, es, e, AnyAddress());
  }

  const HOME := Site("run-1", "192.0.2.10", true, "revision", "bundle")
  const PLANNED_GATEWAY := Guest("lab-fw-01", GATEWAY_VMID, "qemu", "10.10.99.1", "boetticher/module/firewall")

  lemma WitnessPlans() returns (es: seq<Event>, w: World)
    ensures Execute(Init, es, AnyAddress()) == w
    ensures w == World(Some(PlanRecord(HOME)), None, {}, {GATEWAY_VMID}, {}, Planning(HOME, PlanRecord(HOME)))
  {
    es, w := [], Init;
    es, w := Then(es, w, GuestCreated(GATEWAY_VMID));
    es, w := Then(es, w, Start(HOME));
    es, w := Then(es, w, Load(true));
    es, w := Then(es, w, Check(true));
    es, w := Then(es, w, Save(true));
  }

  const ARMED := PlanRecord(HOME).(digest := "d", phase := Apply, key := "key", host := HOME.bootstrap,
                                   guests := [Encode(PLANNED_GATEWAY)])

  lemma WitnessRecordIsValid(phase: Phase)
    ensures ValidOperationState(ARMED.(phase := phase), AnyAddress())
  {
    var d := "d";
    assert d[0] in d && d[0] !in " \t\n\r";
    assert ARMED.guests[0].name[0] == 'l' && ARMED.guests[0].address[0] == '1';
  }

  lemma WitnessArms() returns (es: seq<Event>, w: World)
    ensures Execute(Init, es, AnyAddress()) == w
    ensures w.stage == Installing(HOME, ARMED, [PLANNED_GATEWAY]) && w.guests == {GATEWAY_VMID}
  {
    es, w := WitnessPlans();
    var plan := [PLANNED_GATEWAY];
    assert plan[0].owner[0] == 'b' && Encodable(plan[0]);
    assert plan[..0] == [] && OwnedIdentities(plan) == [Encode(plan[0])];
    assert ResolvedPlan(plan, true);
    WitnessRecordIsValid(Apply);
    es, w := Then(es, w, MakePlan(true, plan, "d", "key"));
    es, w := Then(es, w, Save(true));
  }

  /** A managed run can install its key and re-arm the gateway. */
  lemma GatewayIsRearmed(es0: seq<Event>, w0: World) returns (es: seq<Event>, w: World)
    requires Execute(Init, es0, AnyAddress()) == w0
    requires w0.stage.Installing? && w0.stage.site.managed && GATEWAY_VMID in w0.guests
    ensures Execute(Init, es, AnyAddress()) == w
    ensures w.stage == Applying(w0.stage.site, w0.stage.st, w0.stage.plan, [GATEWAY], None, false)
    ensures Holding(InGuest(GATEWAY_VMID), w0.stage.st.key) in w.keys
  {
    es, w := Then(es0, w0, Install(true, true));
    es, w := Then(es, w, Establish(GATEWAY));
    es, w := Then(es, w, Rearm(true));
    es, w := Then(es, w, Ready(true));
  }

  lemma WitnessApplies() returns (es: seq<Event>, w: World)
    ensures Execute(Init, es, AnyAddress()) == w
    ensures w.stage == Applying(HOME, ARMED, [PLANNED_GATEWAY], [GATEWAY], None, false)
    ensures Holding(InGuest(GATEWAY_VMID), "key") in w.keys
  {
    es, w := WitnessArms();
    es, w := GatewayIsRearmed(es, w);
  }

  lemma WitnessRearms() returns (es: seq<Event>, w: World)
    ensures Execute(Init, es, AnyAddress()) == w
    ensures w.stage == Marking(HOME, ARMED, Run(false), [])
    ensures Holding(InGuest(GATEWAY_VMID), "key") in w.keys
  {
    es, w := WitnessApplies();
    WitnessRecordIsValid(Verify);
    es, w := Then(es, w, Save(true));
    assert [GATEWAY][..0] == [] && Targets([GATEWAY]) == [];
    es, w := Then(es, w, PhasesDone);
  }

  lemma WitnessRevokes() returns (es: seq<Event>, w: World)
    ensures Execute(Init, es, AnyAddress()) == w
    ensures w.stage == Committing(ARMED) && Holding(InGuest(GATEWAY_VMID), "key") in w.keys
  {
    es, w := WitnessRearms();
    WitnessRecordIsValid(Cleanup);
    es, w := Then(es, w, Save(true));
    es, w := Then(es, w, RevokeHost(true, true));
  }

  lemma WitnessIsRecorded()
    ensures ValidLastApplied(RecordOf(ARMED))
  {
    var revision, digest := "revision", "d";
    assert revision[0] == 'r' && revision[0] in revision && !IsSpace(revision[0]);
    assert digest[0] == 'd' && digest[0] in digest && !IsSpace(digest[0]);
  }

  /** A failure-free managed run whose gateway was re-armed: it commits, and the key is still there. */
  lemma GatewayCopyCanOutliveCommit() returns (es: seq<Event>)
    ensures var w := Execute(Init, es, AnyAddress());
            && w.stage.Idle? && w.journal.None? && w.lastApplied.Some?
            && Holding(InGuest(GATEWAY_VMID), "key") in w.keys
  {
    var w;
    es, w := WitnessRevokes();
    WitnessRecordIsValid(Commit);
    WitnessIsRecorded();
    es, w := Then(es, w, Save(true));
    es, w := Then(es, w, Record(true));
    es, w := Then(es, w, Clear(true));
  }

  // ----- scoped module deployments -----

  lemma ScopedStep(w: World, e: Event, ipv4: string -> bool)
    requires Inv(w, ipv4) && (w.stage.JournalingScoped? || (w.stage.Idle? && w.journal.None?)) && !e.Start?
    ensures var w' := Next(w, e, ipv4);
            && (w'.stage == w.stage || w'.stage.Idle?)
            && w'.keys <= w.keys && w'.journal.None? && w'.lastApplied == w.lastApplied
  {
  }

  /**
   A scoped deployment journals a kind that the journal's own validation
   refuses, so whatever follows until the next command starts, it arms nothing:
   the process stays at its journal step or ends, and no key, journal or
   last-applied record is written.
   */
  lemma {:induction false} ScopedRunNeverArms(es: seq<Event>, rest: seq<Event>, ipv4: string -> bool)
    requires Execute(Init, es, ipv4).stage.JournalingScoped? && forall e <- rest :: !e.Start?
    ensures var w := Execute(Init, es, ipv4);
            var w' := Execute(w, rest, ipv4);
            && (w'.stage == w.stage || w'.stage.Idle?)
            && w'.keys <= w.keys && w'.journal.None? && w'.lastApplied == w.lastApplied
    decreases |rest|
  {
    var w := Execute(Init, es, ipv4);
    RunsKeepInv(es, ipv4);
    if rest != [] {
      var init, last := rest[..|rest| - 1], rest[|rest| - 1];
      assert last in rest && forall e <- init :: e in rest;
      ScopedRunNeverArms(es, init, ipv4);
      RunsOnKeepInv(w, init, ipv4);
      ScopedStep(Execute(w, init, ipv4), last, ipv4);
    }
  }
}
