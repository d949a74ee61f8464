/**
 Whole deployments: where the last-applied record comes from, and that a run in
 which nothing fails commits, whatever was planned, registered and re-armed.
 */
module DeployRuns {
  import opened Common
  import opened Text
  import opened OperationJournal
  import opened DeployProtocol
  import opened DeploySafety

  // ----- the site and the plan of the current run -----

  /** The site that the command of the latest start deploys. */
  function RunSite(es: seq<Event>, ipv4: string -> bool): Option<Site> {
    if es == [] then None
    else if Last(es).Start? && Execute(Init, es[..|es| - 1], ipv4).stage.Idle? then Some(Last(es).site)
    else RunSite(es[..|es| - 1], ipv4)
  }

  /** The digest of the plan made last. */
  function RunDigest(es: seq<Event>, ipv4: string -> bool): Option<string> {
    if es == [] then None
    else if Last(es).MakePlan? && Execute(Init, es[..|es| - 1], ipv4).stage.Planning? then Some(Last(es).digest)
    else RunDigest(es[..|es| - 1], ipv4)
  }

  predicate Carries(st: OperationState, site: Option<Site>, digest: Option<string>) {
    site.Some? && st.revision == site.value.revision && st.bundle == site.value.bundle && Some(st.digest) == digest
  }

  /** The record under way is of this site and this plan. */
  predicate OfRun(s: Stage, site: Option<Site>, digest: Option<string>) {
    match s
    case Loading(x) => site == Some(x)
    case ClearingStale(x) => site == Some(x)
    case RecoveryClearing(x) => site == Some(x)
    case Checking(x) => site == Some(x)
    case JournalingPlan(x, st) => site == Some(x) && st == PlanRecord(x)
    case Planning(x, st) => site == Some(x) && st == PlanRecord(x)
    case Arming(x, st, _) => Carries(st, site, digest)
    case Installing(x, st, _) => Carries(st, site, digest)
    case Applying(x, st, _, _, _, _) => Carries(st, site, digest)
    case Marking(x, st, mode, _) => if mode.Run? then Carries(st, site, digest) else site == Some(x)
    case Revoking(x, st, mode, _, _, _, _) => if mode.Run? then Carries(st, site, digest) else site == Some(x)
    case Committing(st) => Carries(st, site, digest)
    case Recording(st) => Carries(st, site, digest)
    case Clearing(st) => Carries(st, site, digest)
    case _ => true
  }

  lemma OfRunStep(w: World, e: Event, site: Option<Site>, digest: Option<string>, ipv4: string -> bool)
    requires OfRun(w.stage, site, digest) && (w.stage.JournalingScoped? ==> w.stage.st.kind != "deploy")
    requires !(e.Start? && w.stage.Idle?) && !(e.MakePlan? && w.stage.Planning?)
    ensures OfRun(Next(w, e, ipv4).stage, site, digest)
  {
  }

  lemma OfRunPlan(w: World, e: Event, site: Option<Site>, digest: Option<string>, ipv4: string -> bool)
    requires OfRun(w.stage, site, digest) && e.MakePlan? && w.stage.Planning?
    ensures OfRun(Next(w, e, ipv4).stage, site, Some(e.digest))
  {
  }

  lemma ScopedKind(w: World, ipv4: string -> bool)
    requires Inv(w, ipv4) && w.stage.JournalingScoped?
    ensures w.stage.st.kind != "deploy"
  {
    assert |"scoped-module-deploy"| != |"deploy"|;
  }

  lemma {:induction false} StagesAreOfRun(es: seq<Event>, ipv4: string -> bool)
    ensures OfRun(Execute(Init, es, ipv4).stage, RunSite(es, ipv4), RunDigest(es, ipv4))
  {
    if es != [] {
      var init, e := es[..|es| - 1], Last(es);
      var w := Execute(Init, init, ipv4);
      StagesAreOfRun(init, ipv4);
      RunsKeepInv(init, ipv4);
      if w.stage.JournalingScoped? {
        ScopedKind(w, ipv4);
      }
      if e.MakePlan? && w.stage.Planning? {
        OfRunPlan(w, e, RunSite(init, ipv4), RunDigest(init, ipv4), ipv4);
      } else if !(e.Start? && w.stage.Idle?) {
        OfRunStep(w, e, RunSite(init, ipv4), RunDigest(init, ipv4), ipv4);
      }
    }
  }

  /**
   Over every history, a last-applied record that is written holds the revision and the
   bundle of the site that its run deployed, and the digest of the plan it made.
   */
  lemma RecordIsOfItsRun(es: seq<Event>, e: Event, ipv4: string -> bool)
    requires Next(Execute(Init, es, ipv4), e, ipv4).lastApplied != Execute(Init, es, ipv4).lastApplied
    ensures var site, r := RunSite(es, ipv4), Next(Execute(Init, es, ipv4), e, ipv4).lastApplied;
            && site.Some? && r.Some? && r.value.revision == site.value.revision && r.value.bundle == site.value.bundle
            && RunDigest(es, ipv4) == Some(r.value.digest)
            && TrimSpace(r.value.revision) != "" && TrimSpace(r.value.digest) != ""
  {
    LastAppliedOnlyFromCleanRun(es, e, ipv4);
    StagesAreOfRun(es, ipv4);
    var r := Next(Execute(Init, es, ipv4), e, ipv4).lastApplied.value;
    BlankIff(r.revision);
    BlankIff(r.digest);
  }

  // ----- the phase on disk -----

  /** What the journal on disk says at each stage that has written it. */
  predicate PhaseOnDisk(w: World) {
    match w.stage
    case JournalingPlan(_, _) => w.journal.None?
    case Planning(_, _) => w.journal.Some? && w.journal.value.phase == Plan
    case Arming(_, _, _) => w.journal.Some? && w.journal.value.phase == Plan
    case Installing(_, _, _) => w.journal.Some? && w.journal.value.phase == Apply
    case Applying(_, _, _, _, _, verified) =>
      w.journal.Some? && w.journal.value.phase == if verified then Verify else Apply
    case Revoking(_, _, _, _, unmarked, _, _) => !unmarked ==> w.journal.Some? && w.journal.value.phase == Cleanup
    case RecoveryClearing(_) => w.journal.Some? && w.journal.value.phase == Cleanup
    case Committing(_) => w.journal.Some? && w.journal.value.phase == Cleanup
    case Recording(_) => w.journal.Some? && w.journal.value.phase == Commit
    case Clearing(_) => w.journal.Some? && w.journal.value.phase == Commit
    case _ => true
  }

  lemma PhaseStep(w: World, e: Event, ipv4: string -> bool)
    requires PhaseOnDisk(w) && (w.stage.JournalingScoped? ==> w.stage.st.kind != "deploy")
    requires w.stage.Checking? ==> w.journal.None?
    requires w.stage.JournalingPlan? ==> w.stage.st.phase == Plan
    requires w.stage.Arming? ==> w.stage.st.phase == Apply
    ensures PhaseOnDisk(Next(w, e, ipv4))
  {
  }

  /** Over every history, the journal is a step ahead of the work: it says what the run is doing. */
  lemma {:induction false} JournalTellsThePhase(es: seq<Event>, ipv4: string -> bool)
    ensures PhaseOnDisk(Execute(Init, es, ipv4))
  {
    if es != [] {
      var init := es[..|es| - 1];
      var w := Execute(Init, init, ipv4);
      JournalTellsThePhase(init, ipv4);
      RunsKeepInv(init, ipv4);
      if w.stage.JournalingScoped? {
        ScopedKind(w, ipv4);
      }
      PhaseStep(w, Last(es), ipv4);
    }
  }

  /** A run that failed marks its journal so, keeping what names its keys, if it can save at all. */
  lemma FailureIsMarked(w: World, ipv4: string -> bool)
    requires w.stage.Failing? && ValidOperationState(w.stage.st.(phase := Failed), ipv4)
    ensures var w' := Next(w, Save(true), ipv4);
            && w'.stage == Idle && w'.journal.Some? && w'.journal.value.phase == Failed
            && SameAuthority(w'.journal.value, w.stage.st) && w'.keys == w.keys
  {
  }

  /**
   Loading, from any journal at all: a valid one without a key is stale if it is of a plan or a
   failed run, one with a key is recovered if it is of this Host, and every other is refused and kept.
   */
  lemma LoadDecides(w: World, site: Site, ipv4: string -> bool)
    requires w.stage == Loading(site) && w.journal.Some?
    ensures var w', st := Next(w, Load(true), ipv4), w.journal.value;
            && w' == w.(stage := w'.stage)
            && (w'.stage == ClearingStale(site) <==>
                ValidOperationState(st, ipv4) && st.key == "" && st.phase in {Plan, Failed})
            && (w'.stage.Marking? <==> ValidOperationState(st, ipv4) && st.key != "" && st.host == site.bootstrap)
            && (w'.stage.ClearingStale? || w'.stage.Marking? || w'.stage == Idle)
  {
    var st := w.journal.value;
    if ValidOperationState(st, ipv4) {
      assert forall o <- st.guests :: ValidOperationGuest(o, ipv4);
    }
  }

  // ----- a run in which nothing fails -----

  datatype Deployment = Deployment(site: Site, plan: seq<Guest>, digest: string, key: string)

  /** The record of the armed deployment. */
  function Armed(d: Deployment): OperationState {
    OperationState(d.site.id, "deploy", Apply, d.site.revision, d.digest, d.site.bundle, d.key, d.site.bootstrap,
                   OwnedIdentities(d.plan))
  }

  predicate CanRun(d: Deployment, ipv4: string -> bool) {
    && (forall i, j :: 0 <= i < j < |d.plan| ==> d.plan[i].name != d.plan[j].name)
    && (d.site.managed ==> exists g <- d.plan ::
          g.name == "lab-fw-01" && g.vmid == 100 && g.owner != "" && g.kind == "qemu")
    && (forall g <- d.plan :: g.owner != "" ==>
          g.name != "" && g.vmid > 0 && g.address != "" && g.kind in {"qemu", "lxc"})
    && d.key != "" && ValidOperationState(Armed(d), ipv4) && !Blank(d.site.revision)
  }

  lemma PlanIsUsable(d: Deployment, ipv4: string -> bool)
    requires CanRun(d, ipv4)
    ensures ResolvedPlan(d.plan, d.site.managed) && forall g <- d.plan :: Encodable(g)
  {
  }

  /** Guests that the appliance phase re-arms: planned containers, and the managed gateway. */
  predicate IsAppliance(g: Guest, d: Deployment) {
    || (g in d.plan && g.kind == "lxc" && g.owner != "")
    || (d.site.managed && g == Guest("lab-fw-01", 100, "qemu", "10.10.99.1", ""))
  }

  lemma AppliancesAreArmable(d: Deployment, established: seq<Guest>)
    requires forall g <- established :: IsAppliance(g, d)
    ensures forall g <- established :: Armable(g, d.plan, d.site.managed)
  {
  }

  function Preparation(d: Deployment): seq<Event> {
    [Start(d.site), Load(true), Check(true), Save(true)] +
      [MakePlan(true, d.plan, d.digest, d.key), Save(true), Install(true, true)]
  }

  lemma ExecuteTwo(w: World, a: Event, b: Event, ipv4: string -> bool)
    ensures Execute(w, [a, b], ipv4) == Next(Next(w, a, ipv4), b, ipv4)
  {
    ExecuteOne(w, a, ipv4);
    assert [a, b] == [a] + [b];
    ExecuteAppend(w, [a], b, ipv4);
  }

  lemma ExecuteThree(w: World, a: Event, b: Event, c: Event, ipv4: string -> bool)
    ensures Execute(w, [a, b, c], ipv4) == Next(Next(Next(w, a, ipv4), b, ipv4), c, ipv4)
  {
    ExecuteTwo(w, a, b, ipv4);
    assert [a, b, c] == [a, b] + [c];
    ExecuteAppend(w, [a, b], c, ipv4);
  }

  lemma ExecuteFour(w: World, a: Event, b: Event, c: Event, d: Event, ipv4: string -> bool)
    ensures Execute(w, [a, b, c, d], ipv4) == Next(Next(Next(Next(w, a, ipv4), b, ipv4), c, ipv4), d, ipv4)
  {
    ExecuteThree(w, a, b, c, ipv4);
    assert [a, b, c, d] == [a, b, c] + [d];
    ExecuteAppend(w, [a, b, c], d, ipv4);
  }

  /** A save that the record's validation lets through. */
  lemma Saves(w: World, st: OperationState, ipv4: string -> bool)
    requires ToSave(w.stage) == Some(st) && ValidOperationState(st, ipv4)
    ensures Next(w, Save(true), ipv4) == w.(journal := Some(st), stage := AfterSave(w.stage, true))
  {
  }

  lemma PhasesAreValid(d: Deployment, phase: Phase, ipv4: string -> bool)
    requires CanRun(d, ipv4) && phase != Failed
    ensures ValidOperationState(Armed(d).(phase := phase), ipv4)
  {
  }

  lemma PlanRecordIsValid(d: Deployment, ipv4: string -> bool)
    requires CanRun(d, ipv4)
    ensures ValidOperationState(PlanRecord(d.site), ipv4)
  {
  }

  lemma StartsPlanning(w: World, d: Deployment, ipv4: string -> bool)
    requires w.stage.Idle? && w.journal.None? && CanRun(d, ipv4)
    ensures Execute(w, [Start(d.site), Load(true), Check(true), Save(true)], ipv4) ==
            w.(journal := Some(PlanRecord(d.site)), stage := Planning(d.site, PlanRecord(d.site)))
  {
    var st := PlanRecord(d.site);
    assert Next(w, Start(d.site), ipv4) == w.(stage := Loading(d.site));
    assert Next(w.(stage := Loading(d.site)), Load(true), ipv4) == w.(stage := Checking(d.site));
    assert Next(w.(stage := Checking(d.site)), Check(true), ipv4) == w.(stage := JournalingPlan(d.site, st));
    PlanRecordIsValid(d, ipv4);
    Saves(w.(stage := JournalingPlan(d.site, st)), st, ipv4);
    ExecuteFour(w, Start(d.site), Load(true), Check(true), Save(true), ipv4);
  }

  lemma MakesPlan(w: World, d: Deployment, ipv4: string -> bool)
    requires w.stage == Planning(d.site, PlanRecord(d.site)) && CanRun(d, ipv4)
    ensures Next(w, MakePlan(true, d.plan, d.digest, d.key), ipv4) == w.(stage := Arming(d.site, Armed(d), d.plan))
  {
    assert !Blank(d.digest);
    PlanIsUsable(d, ipv4);
  }

  lemma Installs(w: World, d: Deployment, ipv4: string -> bool)
    requires w.stage == Installing(d.site, Armed(d), d.plan)
    ensures Next(w, Install(true, true), ipv4) ==
            w.(keys := w.keys + {Holding(Host(d.site.bootstrap), d.key)},
               stage := Applying(d.site, Armed(d), d.plan, [], None, false))
  {
  }

  lemma StartsApplying(w: World, d: Deployment, ipv4: string -> bool)
    requires w.stage == Planning(d.site, PlanRecord(d.site)) && CanRun(d, ipv4)
    ensures Execute(w, [MakePlan(true, d.plan, d.digest, d.key), Save(true), Install(true, true)], ipv4) ==
            w.(journal := Some(Armed(d)), keys := w.keys + {Holding(Host(d.site.bootstrap), d.key)},
               stage := Applying(d.site, Armed(d), d.plan, [], None, false))
  {
    MakesPlan(w, d, ipv4);
    PhasesAreValid(d, Apply, ipv4);
    Saves(w.(stage := Arming(d.site, Armed(d), d.plan)), Armed(d), ipv4);
    Installs(w.(journal := Some(Armed(d)), stage := Installing(d.site, Armed(d), d.plan)), d, ipv4);
    ExecuteThree(w, MakePlan(true, d.plan, d.digest, d.key), Save(true), Install(true, true), ipv4);
  }

  lemma Prepared(w: World, d: Deployment, ipv4: string -> bool)
    requires w.stage.Idle? && w.journal.None? && CanRun(d, ipv4)
    ensures Execute(w, Preparation(d), ipv4) ==
            w.(journal := Some(Armed(d)), keys := w.keys + {Holding(Host(d.site.bootstrap), d.key)},
               stage := Applying(d.site, Armed(d), d.plan, [], None, false))
  {
    StartsPlanning(w, d, ipv4);
    StartsApplying(Execute(w, [Start(d.site), Load(true), Check(true), Save(true)], ipv4), d, ipv4);
    ExecuteConcat(w, [Start(d.site), Load(true), Check(true), Save(true)],
                  [MakePlan(true, d.plan, d.digest, d.key), Save(true), Install(true, true)], ipv4);
  }

  /** Each guest is registered, given the key again, and answers. */
  function Appliances(established: seq<Guest>): seq<Event> {
    if established == [] then []
    else Appliances(established[..|established| - 1]) +
         [Establish(established[|established| - 1]), Rearm(true), Ready(true)]
  }

  /** The registry: the first record of each name. */
  function Registry(established: seq<Guest>): seq<Guest> {
    if established == [] then []
    else Register(Registry(established[..|established| - 1]), established[|established| - 1])
  }

  function Given(established: seq<Guest>, key: string): set<Holding> {
    set g | g in established :: Holding(InGuest(g.vmid), key)
  }

  lemma Establishes(w: World, g: Guest, ipv4: string -> bool)
    requires w.stage.Applying? && w.stage.waiting.None? && !w.stage.verified
    requires Armable(g, w.stage.plan, w.stage.site.managed)
    ensures Next(w, Establish(g), ipv4) ==
            w.(stage := w.stage.(registry := Register(w.stage.registry, g), waiting := Some(g)))
  {
  }

  lemma RearmsAndAnswers(w: World, g: Guest, ipv4: string -> bool)
    requires w.stage.Applying? && w.stage.waiting == Some(g) && g.vmid in w.guests
    ensures Next(Next(w, Rearm(true), ipv4), Ready(true), ipv4) ==
            w.(keys := w.keys + {Holding(InGuest(g.vmid), w.stage.st.key)}, stage := w.stage.(waiting := None))
  {
    var rearmed := w.(keys := w.keys + {Holding(InGuest(g.vmid), w.stage.st.key)});
    assert Next(w, Rearm(true), ipv4) == rearmed;
  }

  lemma ApplianceStep(w: World, g: Guest, ipv4: string -> bool)
    requires w.stage.Applying? && w.stage.waiting.None? && !w.stage.verified
    requires Armable(g, w.stage.plan, w.stage.site.managed) && g.vmid in w.guests
    ensures Execute(w, [Establish(g), Rearm(true), Ready(true)], ipv4) ==
            w.(keys := w.keys + {Holding(InGuest(g.vmid), w.stage.st.key)},
               stage := w.stage.(registry := Register(w.stage.registry, g)))
  {
    Establishes(w, g, ipv4);
    RearmsAndAnswers(Next(w, Establish(g), ipv4), g, ipv4);
    ExecuteThree(w, Establish(g), Rearm(true), Ready(true), ipv4);
  }

  lemma {:induction false} AppliancesApply(w: World, established: seq<Guest>, ipv4: string -> bool)
    requires w.stage.Applying? && w.stage.waiting.None? && !w.stage.verified && w.stage.registry == []
    requires forall g <- established :: Armable(g, w.stage.plan, w.stage.site.managed) && g.vmid in w.guests
    ensures Execute(w, Appliances(established), ipv4) ==
            w.(keys := w.keys + Given(established, w.stage.st.key),
               stage := w.stage.(registry := Registry(established)))
  {
    if established != [] {
      var init, g := established[..|established| - 1], established[|established| - 1];
      assert established == init + [g];
      AppliancesApply(w, init, ipv4);
      var before := Execute(w, Appliances(init), ipv4);
      ApplianceStep(before, g, ipv4);
      ExecuteConcat(w, Appliances(init), [Establish(g), Rearm(true), Ready(true)], ipv4);
      assert Given(established, w.stage.st.key) ==
             Given(init, w.stage.st.key) + {Holding(InGuest(g.vmid), w.stage.st.key)};
    } else {
      assert Given(established, w.stage.st.key) == {};
    }
  }

  lemma EndsPhases(w: World, d: Deployment, registry: seq<Guest>, ipv4: string -> bool)
    requires w.stage == Applying(d.site, Armed(d), d.plan, registry, None, true)
    ensures Next(w, PhasesDone, ipv4) == w.(stage := Marking(d.site, Armed(d), Run(false), Targets(registry)))
  {
  }

  /** Verification, and the mark that cleanup has begun. */
  lemma StartsRevoking(w: World, d: Deployment, registry: seq<Guest>, ipv4: string -> bool)
    requires w.stage == Applying(d.site, Armed(d), d.plan, registry, None, false) && CanRun(d, ipv4)
    ensures Execute(w, [Save(true), PhasesDone, Save(true)], ipv4) ==
            w.(journal := Some(Armed(d).(phase := Cleanup)),
               stage := Revoking(d.site, Armed(d), Run(false), Targets(registry), false,
                                 Indices(|Targets(registry)|), false))
  {
    PhasesAreValid(d, Verify, ipv4);
    PhasesAreValid(d, Cleanup, ipv4);
    Saves(w, Armed(d).(phase := Verify), ipv4);
    var verified := Next(w, Save(true), ipv4);
    EndsPhases(verified, d, registry, ipv4);
    Saves(Next(verified, PhasesDone, ipv4), Armed(d).(phase := Cleanup), ipv4);
    ExecuteThree(w, Save(true), PhasesDone, Save(true), ipv4);
  }

  lemma RevokesHost(w: World, d: Deployment, targets: seq<Guest>, ipv4: string -> bool)
    requires w.stage == Revoking(d.site, Armed(d), Run(false), targets, false, {}, false)
    ensures Next(w, RevokeHost(true, true), ipv4) ==
            w.(keys := w.keys - {Holding(Host(d.site.bootstrap), d.key)}, stage := Committing(Armed(d)))
  {
  }

  lemma RecordsAndClears(w: World, d: Deployment, ipv4: string -> bool)
    requires w.stage == Recording(Armed(d)) && !Blank(d.site.revision) && !Blank(d.digest)
    ensures var w' := Next(Next(w, DeployProtocol.Record(true), ipv4), Clear(true), ipv4);
            && w'.stage == Idle && w'.journal.None? && w'.keys == w.keys
            && w'.lastApplied == Some(LastApplied(d.site.revision, d.digest, d.site.bundle))
  {
  }

  /** The Host, the commit mark, the record, and the end. */
  const END := [RevokeHost(true, true), Save(true), DeployProtocol.Record(true), Clear(true)]

  lemma Commits(w: World, d: Deployment, targets: seq<Guest>, ipv4: string -> bool)
    requires w.stage == Revoking(d.site, Armed(d), Run(false), targets, false, {}, false) && CanRun(d, ipv4)
    ensures var w' := Execute(w, END, ipv4);
            && w'.stage == Idle && w'.journal.None?
            && w'.lastApplied == Some(LastApplied(d.site.revision, d.digest, d.site.bundle))
            && w'.keys == w.keys - {Holding(Host(d.site.bootstrap), d.key)}
  {
    RevokesHost(w, d, targets, ipv4);
    var committing := Next(w, RevokeHost(true, true), ipv4);
    PhasesAreValid(d, Commit, ipv4);
    Saves(committing, Armed(d).(phase := Commit), ipv4);
    RecordsAndClears(Next(committing, Save(true), ipv4), d, ipv4);
    ExecuteFour(w, RevokeHost(true, true), Save(true), DeployProtocol.Record(true), Clear(true), ipv4);
  }

  // ----- the whole of it -----

  /** A deployment without failures: what it establishes, and how its goroutines succeed, in some order. */
  function Undisturbed(d: Deployment, established: seq<Guest>, order: seq<nat>, outcomes: nat -> GuestOutcome)
    : seq<Event>
  {
    Preparation(d) + Appliances(established) + [Save(true), PhasesDone, Save(true)] + RevokeAll(order, outcomes) + END
  }

  lemma OnlyGatewayCopies(w: World, ipv4: string -> bool)
    requires Inv(w, ipv4) && w.journal.None?
    ensures forall h <- w.keys :: h.place == InGuest(GATEWAY_VMID)
  {
  }

  predicate AllTried(targets: seq<Guest>, guests: set<int>, order: seq<nat>, outcomes: nat -> GuestOutcome) {
    forall i: nat :: i < |targets| ==> i in order && Succeeds(outcomes(i), targets[i].vmid, guests)
  }

  lemma FirstHalf(w: World, d: Deployment, established: seq<Guest>, ipv4: string -> bool)
    requires w.stage.Idle? && w.journal.None? && CanRun(d, ipv4)
    requires forall g <- established :: Armable(g, d.plan, d.site.managed) && g.vmid in w.guests
    ensures Execute(w, Preparation(d) + Appliances(established) + [Save(true), PhasesDone, Save(true)], ipv4) ==
            w.(journal := Some(Armed(d).(phase := Cleanup)),
               keys := w.keys + {Holding(Host(d.site.bootstrap), d.key)} + Given(established, d.key),
               stage := Revoking(d.site, Armed(d), Run(false), Targets(Registry(established)), false,
                                 Indices(|Targets(Registry(established))|), false))
  {
    Prepared(w, d, ipv4);
    var applying := Execute(w, Preparation(d), ipv4);
    AppliancesApply(applying, established, ipv4);
    ExecuteConcat(w, Preparation(d), Appliances(established), ipv4);
    StartsRevoking(Execute(applying, Appliances(established), ipv4), d, Registry(established), ipv4);
    ExecuteConcat(w, Preparation(d) + Appliances(established), [Save(true), PhasesDone, Save(true)], ipv4);
  }

  lemma SecondHalf(w: World, d: Deployment, targets: seq<Guest>, order: seq<nat>, outcomes: nat -> GuestOutcome,
                   ipv4: string -> bool)
    requires w.stage == Revoking(d.site, Armed(d), Run(false), targets, false, Indices(|targets|), false)
    requires CanRun(d, ipv4) && AllTried(targets, w.guests, order, outcomes)
    requires forall h <- w.keys :: h.place.InGuest? ==> h.place.vmid in w.guests
    ensures var w' := Execute(w, RevokeAll(order, outcomes) + END, ipv4);
            && w'.stage == Idle && w'.journal.None?
            && w'.lastApplied == Some(LastApplied(d.site.revision, d.digest, d.site.bundle))
            && (forall t <- targets :: Holding(InGuest(t.vmid), d.key) !in w'.keys)
  {
    FanOutRevokes(w, order, outcomes, ipv4);
    var revoked := Execute(w, RevokeAll(order, outcomes), ipv4);
    assert revoked.stage.pending == {};
    Commits(revoked, d, targets, ipv4);
    ExecuteConcat(w, RevokeAll(order, outcomes), END, ipv4);
    forall t | t in targets ensures Holding(InGuest(t.vmid), d.key) !in revoked.keys {
      var i: nat :| i < |targets| && targets[i] == t;
    }
  }

  /**
   After every history that left no journal: a deployment in which nothing fails, whatever it
   plans and whichever of its guests it registers and re-arms, commits. It leaves no
   journal, the record of its own site and plan, its key in no registered target, and no
   key anywhere but copies on the gateway.
   */
  lemma UndisturbedRunCommits(es: seq<Event>, d: Deployment, established: seq<Guest>, order: seq<nat>,
                              outcomes: nat -> GuestOutcome, ipv4: string -> bool)
    requires var w := Execute(Init, es, ipv4);
             && w.stage.Idle? && w.journal.None? && CanRun(d, ipv4)
             && (forall g <- established :: IsAppliance(g, d) && g.vmid in w.guests)
             && AllTried(Targets(Registry(established)), w.guests, order, outcomes)
    ensures var w := Execute(Execute(Init, es, ipv4), Undisturbed(d, established, order, outcomes), ipv4);
            && w.stage == Idle && w.journal.None?
            && w.lastApplied == Some(LastApplied(d.site.revision, d.digest, d.site.bundle))
            && (forall t <- Targets(Registry(established)) :: Holding(InGuest(t.vmid), d.key) !in w.keys)
            && (forall h <- w.keys :: h.place == InGuest(GATEWAY_VMID))
  {
    var w := Execute(Init, es, ipv4);
    RunsKeepInv(es, ipv4);
    AppliancesAreArmable(d, established);
    var first := Preparation(d) + Appliances(established) + [Save(true), PhasesDone, Save(true)];
    FirstHalf(w, d, established, ipv4);
    RunsOnKeepInv(w, first, ipv4);
    SecondHalf(Execute(w, first, ipv4), d, Targets(Registry(established)), order, outcomes, ipv4);
    ExecuteConcat(w, first, RevokeAll(order, outcomes) + END, ipv4);
    assert first + (RevokeAll(order, outcomes) + END) == Undisturbed(d, established, order, outcomes);
    RunsOnKeepInv(w, Undisturbed(d, established, order, outcomes), ipv4);
    OnlyGatewayCopies(Execute(w, Undisturbed(d, established, order, outcomes), ipv4), ipv4);
  }
}
