/**
 Staging, importing and activating release trees over any number of imports.
 Renames are atomic; a removal may stop midway; every step may fail, and the
 controller may crash anywhere.
 */
module ReleaseActivation {
  import opened Common
  import ReleaseImport

  /** A directory: absent, a tree that lost some of its files, or a whole release. */
  datatype Dir<R> = Absent | Partial | Whole(release: R)

  /** What a removal that failed or was cut short may leave. */
  predicate Remnant<R(==)>(before: Dir<R>, after: Dir<R>) {
    after == before || after == Absent || (before != Absent && after == Partial)
  }

  /** Release `r` is active, or whole at `previous` with nothing active. */
  predicate Kept<R(==)>(active: Dir<R>, previous: Dir<R>, r: R) {
    active == Whole(r) || (active == Absent && previous == Whole(r))
  }

  // ----- one import, call by call -----

  /** `pathguard.RemoveAll`, which is not atomic. */
  method RemoveAll<R(==)>(dir: Dir<R>, fails: bool) returns (ok: bool, left: Dir<R>)
    ensures ok <==> !fails
    ensures if ok then left == Absent else Remnant(dir, left)
  {
    ok := !fails;
    if ok {
      return true, Absent;
    }
    left :| Remnant(dir, left) by { assert Remnant(dir, dir); }
  }

  // ----- what one run does, step by step -----

  /** Steps of the transition system from `s` on. */
  ghost predicate Path<R>(path: seq<State<R>>, s: State<R>, good: R -> bool) {
    path != [] &&
    if |path| == 1 then path[0] == s
    else Path(path[..|path| - 1], s, good) && Step(path[|path| - 2], path[|path| - 1], good)
  }

  ghost function Last<R>(path: seq<State<R>>): State<R>
    requires path != []
  {
    path[|path| - 1]
  }

  ghost function Go<R>(path: seq<State<R>>, t: State<R>, s: State<R>, good: R -> bool): (r: seq<State<R>>)
    ensures r != [] && Last(r) == t
    ensures Path(path, s, good) && Step(Last(path), t, good) ==> Path(r, s, good)
  {
    path + [t]
  }

  ghost function Joined<R>(path: seq<State<R>>, more: seq<State<R>>, s: State<R>, good: R -> bool): (r: seq<State<R>>)
    requires path != []
    ensures Path(path, s, good) && Path(more, Last(path), good) ==> Path(r, s, good) && Last(r) == Last(more)
  {
    if |more| <= 1 then path else Go(Joined(path, more[..|more| - 1], s, good), more[|more| - 1], s, good)
  }

  /** A whole staged tree has become the active one. */
  ghost function Activated<R>(s: State<R>, pc: Pc): State<R> {
    if s.staged.Whole? then s.(pc := pc, active := s.staged, staged := Absent, latest := Some(s.staged.release)) else s
  }

  /** The calls that remove the staging tree, before and after. */
  const FIRST_CLEARING: nat := 0
  const LAST_CLEARING: nat := 8

  class ReleaseTrees<R(==)> {
    var staged: Dir<R>
    var active: Dir<R>
    var previous: Dir<R>

    ghost predicate At(s: State<R>)
      reads this
    {
      s.staged == staged && s.active == active && s.previous == previous
    }

    constructor ()
      ensures staged == Absent && active == Absent && previous == Absent
    {
      staged, active, previous := Absent, Absent, Absent;
    }

    method RemoveStaged(fails: bool) returns (ok: bool)
      modifies this`staged
      ensures ok <==> !fails
      ensures if ok then staged == Absent else Remnant(old(staged), staged)
    {
      ok, staged := RemoveAll(staged, fails);
    }

    method RemovePrevious(fails: bool) returns (ok: bool)
      modifies this`previous
      ensures ok <==> !fails
      ensures if ok then previous == Absent else Remnant(old(previous), previous)
    {
      ok, previous := RemoveAll(previous, fails);
    }

    /** The part of the activation that has an active tree to replace. */
    method ReplaceActive(fails: Failures, ghost s: State<R>, ghost good: R -> bool)
      returns (ok: bool, fault: bool, ghost path: seq<State<R>>)
      requires At(s) && staged != Absent && active != Absent
      modifies this
      ensures old(staged).Whole? && s.pc == Activating ==>
                Path(path, s, good) && Last(path).pc == CleaningUp && At(Last(path))
      ensures fault ==> Fails(fails)
      ensures fault <==> !ok
      ensures ok ==> active == old(staged) && staged == Absent && previous == Absent
      ensures !ok ==> || (staged == old(staged) && active == old(active))
                      || (staged == old(staged) && active == Absent && previous == old(active))
                      || (staged == Absent && active == old(staged))
      ensures FailsOnceAtMost(fails) ==> active == old(active) || active == old(staged)
    {
      path := Go([s], s.(pc := DroppingBackup), s, good);
      var removed := RemovePrevious(fails(3));
      if !removed {
        return false, true, Go(path, s.(pc := CleaningUp, previous := previous), s, good);
      }
      path := Go(path, s.(pc := MovingAway, previous := Absent), s, good);
      if fails(4) {
        return false, true, Go(path, s.(pc := CleaningUp, previous := Absent), s, good);
      }
      previous, active := active, Absent;
      ghost var moved := s.(active := Absent, previous := s.active);
      path := Go(path, moved.(pc := SwappingIn), s, good);
      if fails(5) {
        path := Go(path, moved.(pc := Restoring), s, good);
        if !fails(6) {
          active, previous := previous, Absent;
        }
        return false, true, Go(path, moved.(pc := CleaningUp, active := active, previous := previous), s, good);
      }
      active, staged := staged, Absent;
      path := Go(path, Activated(moved, DroppingOld), s, good);
      ok := RemovePrevious(fails(7));
      fault := !ok;
      path := Go(path, Activated(moved, CleaningUp).(previous := previous), s, good);
    }

    /**
     `ActivateImportedRelease`. On success the staged tree is the active one. On
     an error the old tree is still active, or waits at `previous` with nothing
     active, or the new tree is already active; a single failed host operation never
     leaves nothing active. A whole staged tree is refused
     only because of a failed host operation, reported by `fault`. What it does to the
     trees is a path of the transition system below.
     */
    method ActivateImportedRelease(fails: Failures, ghost s: State<R>, ghost good: R -> bool)
      returns (ok: bool, fault: bool, ghost path: seq<State<R>>)
      requires At(s)
      modifies this
      ensures old(staged).Whole? && s.pc == Activating ==>
                Path(path, s, good) && Last(path).pc == CleaningUp && At(Last(path))
      ensures fault ==> !ok && Fails(fails)
      ensures ok ==> old(staged) != Absent && active == old(staged) && staged == Absent
      ensures ok ==> previous == if old(active) == Absent then old(previous) else Absent
      ensures !ok ==> || (staged == old(staged) && active == old(active))
                      || (staged == old(staged) && active == Absent && previous == old(active))
                      || (staged == Absent && active == old(staged) && old(active) != Absent)
      ensures old(active) == Absent ==> previous == old(previous)
      ensures old(staged).Whole? && !fault ==> ok
      ensures FailsOnceAtMost(fails) && old(active) != Absent ==> active == old(active) || active == old(staged)
    {
      path := [s];
      var hasManifest: bool := *;
      if staged == Absent || (staged == Partial && !hasManifest) {
        return false, false, path;
      }
      if fails(1) {
        return false, true, Go(path, s.(pc := CleaningUp), s, good);
      }
      if active == Absent {
        if fails(2) {
          return false, true, Go(path, s.(pc := CleaningUp), s, good);
        }
        active, staged := staged, Absent;
        return true, false, Go(path, Activated(s, CleaningUp), s, good);
      }
      ok, fault, path := ReplaceActive(fails, s, good);
    }

    /** `runBundleImport`; `imported` is what the verified import yields, if it succeeds. */
    method RunBundleImport(imported: Option<R>, fails: Failures, ghost s: State<R>, ghost good: R -> bool)
      returns (ok: bool, fault: bool, ghost path: seq<State<R>>)
      requires At(s) && s.pc == Idle && (imported.Some? ==> good(imported.value))
      modifies this
      ensures Path(path, s, good) && Last(path).pc == Idle && At(Last(path))
      ensures fault ==> !ok && Fails(fails)
      ensures !fails(FIRST_CLEARING) && !fails(LAST_CLEARING) ==> staged == Absent
      ensures old(active) != Partial ==> active != Partial
      ensures ok ==> imported.Some? && active == Whole(imported.value)
      ensures !fault ==> (ok <==> imported.Some?)
      ensures FailsOnceAtMost(fails) && old(active) != Absent ==>
                active == old(active) || (imported.Some? && active == Whole(imported.value))
      ensures forall r :: Kept(old(active), old(previous), r) ==>
                Kept(active, previous, r) || (imported.Some? && Kept(active, previous, imported.value))
      ensures old(active) == Absent ==> previous == old(previous)
    {
      ghost var begun := s.(pc := Clearing, candidate := imported);
      path := Go([s], begun, s, good);
      var cleared := RemoveStaged(fails(FIRST_CLEARING));
      if !cleared {
        return false, true, Go(path, begun.(pc := Idle, staged := staged), s, good);
      }
      begun := begun.(pc := Importing, staged := Absent);
      path := Go(path, begun, s, good);
      if imported.None? {
        path := Go(path, begun.(pc := CleaningUp), s, good);
        return false, false, Go(path, begun.(pc := Idle), s, good);
      }
      staged := Whole(imported.value);
      begun := begun.(pc := Activating, staged := staged);
      path := Go(path, begun, s, good);
      ghost var activation;
      ok, fault, activation := ActivateImportedRelease(fails, begun, good);
      path := Joined(path, activation, s, good);
      ghost var cleaning := Last(path);
      var _ := RemoveStaged(fails(LAST_CLEARING));
      path := Go(path, cleaning.(pc := Idle, staged := staged), s, good);
    }
  }

  // ----- many imports, with crashes -----

  datatype Pc =
    | Idle | Clearing | Importing | Activating | DroppingBackup | MovingAway | SwappingIn | Restoring | DroppingOld
    | CleaningUp

  /** `latest` is the release that most recently became active. */
  datatype State<R> = State(pc: Pc, candidate: Option<R>, staged: Dir<R>, active: Dir<R>, previous: Dir<R>,
                            latest: Option<R>)

  ghost predicate Init<R>(s: State<R>) {
    s == State(Idle, None, Absent, Absent, Absent, None)
  }

  /** What one step does to the trees, apart from crashing; `good` says which trees an import can stage. */
  ghost predicate Step<R>(s: State<R>, t: State<R>, good: R -> bool) {
    match s.pc
    case Idle => t == s.(pc := Clearing, candidate := t.candidate)
    case Clearing =>
      || t == s.(pc := Importing, staged := Absent)
      || (Remnant(s.staged, t.staged) && t == s.(pc := Idle, staged := t.staged))
    case Importing =>
      || (s.staged == Absent && s.candidate.Some? && good(s.candidate.value) &&
          t == s.(pc := Activating, staged := Whole(s.candidate.value)))
      || t == s.(pc := CleaningUp)
    case Activating =>
      || t == s.(pc := CleaningUp)
      || (s.active == Absent && s.staged.Whole? &&
          t == s.(pc := CleaningUp, active := s.staged, staged := Absent, latest := Some(s.staged.release)))
      || (s.active != Absent && t == s.(pc := DroppingBackup))
    case DroppingBackup =>
      || t == s.(pc := MovingAway, previous := Absent)
      || (Remnant(s.previous, t.previous) && t == s.(pc := CleaningUp, previous := t.previous))
    case MovingAway =>
      || t == s.(pc := SwappingIn, previous := s.active, active := Absent)
      || t == s.(pc := CleaningUp)
    case SwappingIn =>
      || (s.staged.Whole? &&
          t == s.(pc := DroppingOld, active := s.staged, staged := Absent, latest := Some(s.staged.release)))
      || t == s.(pc := Restoring)
    case Restoring =>
      || t == s.(pc := CleaningUp, active := s.previous, previous := Absent)
      || t == s.(pc := CleaningUp)
    case DroppingOld =>
      Remnant(s.previous, t.previous) && t == s.(pc := CleaningUp, previous := t.previous)
    case CleaningUp =>
      Remnant(s.staged, t.staged) && t == s.(pc := Idle, staged := t.staged)
  }

  /** A crash: a removal under way stops where it is, and the next command starts afresh. */
  ghost predicate Crash<R>(s: State<R>, t: State<R>) {
    && (if s.pc == Clearing || s.pc == CleaningUp then Remnant(s.staged, t.staged) else t.staged == s.staged)
    && (if s.pc == DroppingBackup || s.pc == DroppingOld then Remnant(s.previous, t.previous)
        else t.previous == s.previous)
    && t == s.(pc := Idle, staged := t.staged, previous := t.previous)
  }

  ghost predicate Next<R>(s: State<R>, t: State<R>, good: R -> bool) {
    Step(s, t, good) || Crash(s, t)
  }

  ghost predicate GoodDir<R>(d: Dir<R>, good: R -> bool) {
    d.Whole? ==> good(d.release)
  }

  ghost predicate AllGood<R>(s: State<R>, good: R -> bool) {
    GoodDir(s.staged, good) && GoodDir(s.active, good) && GoodDir(s.previous, good)
  }

  ghost predicate LatestKept<R>(s: State<R>) {
    if s.latest.None? then s.active == Absent else Kept(s.active, s.previous, s.latest.value)
  }

  ghost predicate AtStep<R>(s: State<R>) {
    && (s.pc in {Activating, DroppingBackup, MovingAway, SwappingIn, Restoring} ==>
        s.candidate.Some? && s.staged == Whole(s.candidate.value))
    && (s.pc in {DroppingBackup, MovingAway} ==> s.active.Whole?)
    && (s.pc == MovingAway ==> s.previous == Absent)
    && (s.pc in {SwappingIn, Restoring} ==> s.active == Absent && s.latest.Some?)
    && (s.pc == DroppingOld ==> s.candidate.Some? && s.active == Whole(s.candidate.value))
  }

  ghost predicate Inv<R>(s: State<R>, good: R -> bool) {
    AllGood(s, good) && LatestKept(s) && AtStep(s)
  }

  lemma StepKeepsInv<R>(s: State<R>, t: State<R>, good: R -> bool)
    requires Inv(s, good) && Step(s, t, good)
    ensures Inv(t, good)
  {
  }

  lemma CrashKeepsInv<R>(s: State<R>, t: State<R>, good: R -> bool)
    requires Inv(s, good) && Crash(s, t)
    ensures Inv(t, good)
  {
  }

  ghost predicate Run<R>(states: seq<State<R>>, good: R -> bool) {
    && states != [] && Init(states[0])
    && forall i :: 0 <= i < |states| - 1 ==> Next(states[i], states[i + 1], good)
  }

  lemma {:induction false} RunsKeepInv<R>(states: seq<State<R>>, good: R -> bool, i: nat)
    requires Run(states, good) && i < |states|
    ensures Inv(states[i], good)
  {
    if i > 0 {
      RunsKeepInv(states, good, i - 1);
      assert Next(states[i - 1], states[i - 1 + 1], good);
      if Step(states[i - 1], states[i], good) {
        StepKeepsInv(states[i - 1], states[i], good);
      } else {
        CrashKeepsInv(states[i - 1], states[i], good);
      }
    }
  }

  /** Once a release has been active, some release stays the latest. */
  lemma {:induction false} LatestStays<R>(states: seq<State<R>>, good: R -> bool, i: nat, j: nat)
    requires Run(states, good) && i <= j < |states| && states[i].active.Whole?
    ensures states[j].latest.Some?
    decreases j
  {
    if i == j {
      RunsKeepInv(states, good, i);
    } else {
      LatestStays(states, good, i, j - 1);
      assert Next(states[j - 1], states[j - 1 + 1], good);
    }
  }

  /**
   Over every run of imports, failures and crashes: the active tree is absent or
   a verified release, and once one was active, `active` or `active.previous`
   holds a verified release ever after.
   */
  lemma ActivationIsSafe<R>(states: seq<State<R>>, good: R -> bool, j: nat)
    requires Run(states, good) && j < |states|
    ensures states[j].active == Absent || (states[j].active.Whole? && good(states[j].active.release))
    ensures (exists i :: 0 <= i <= j && states[i].active.Whole?) ==>
              || (states[j].active.Whole? && good(states[j].active.release))
              || (states[j].previous.Whole? && good(states[j].previous.release))
  {
    RunsKeepInv(states, good, j);
    if i :| 0 <= i <= j && states[i].active.Whole? {
      LatestStays(states, good, i, j);
    }
  }

  // ----- the trees that imports stage -----

  /** What the import step stages: the tree of an archive that one of the controllers accepted. */
  ghost predicate Imported(tree: ReleaseImport.Tree, c: ReleaseImport.Codec,
                           controllers: set<ReleaseImport.Controller>) {
    exists archive, k ::
      k in controllers && ReleaseImport.AcceptedArchive(archive, c, k) && tree == ReleaseImport.Installed(archive)
  }

  /** Complete, signed and bound as one of the controllers demands. */
  ghost predicate CompleteFor(tree: ReleaseImport.Tree, c: ReleaseImport.Codec,
                              controllers: set<ReleaseImport.Controller>) {
    exists m, k :: k in controllers && ReleaseImport.CompleteRelease(tree, m, c, k)
  }

  lemma ImportedIsComplete(tree: ReleaseImport.Tree, c: ReleaseImport.Codec,
                           controllers: set<ReleaseImport.Controller>)
    requires Imported(tree, c, controllers)
    ensures CompleteFor(tree, c, controllers)
  {
    var archive, k :|
      k in controllers && ReleaseImport.AcceptedArchive(archive, c, k) && tree == ReleaseImport.Installed(archive);
    ReleaseImport.ImportIsSound(archive, c, k);
  }

  /**
   Over every run of imports by the given controllers: an active tree is signed by a
   key that one of them trusts, exact and intact; and once there was one, `active`
   or `active.previous` holds such a tree ever after.
   */
  lemma ActiveReleaseIsComplete(states: seq<State<ReleaseImport.Tree>>, c: ReleaseImport.Codec,
                                controllers: set<ReleaseImport.Controller>, j: nat)
    requires Run(states, tree => Imported(tree, c, controllers)) && j < |states|
    ensures states[j].active != Absent ==>
              states[j].active.Whole? && CompleteFor(states[j].active.release, c, controllers)
    ensures (exists i :: 0 <= i <= j && states[i].active.Whole?) ==>
              exists d <- [states[j].active, states[j].previous] :: d.Whole? && CompleteFor(d.release, c, controllers)
  {
    ActivationIsSafe(states, tree => Imported(tree, c, controllers), j);
    var dirs := [states[j].active, states[j].previous];
    forall d | d in dirs && d.Whole? && Imported(d.release, c, controllers)
      ensures CompleteFor(d.release, c, controllers) {
      ImportedIsComplete(d.release, c, controllers);
    }
    assert dirs[0] in dirs && dirs[1] in dirs;
  }
}
