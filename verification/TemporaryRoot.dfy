/**
 The in-process cleanup registry and the concurrent revocation fan-out.

 The goroutines are modelled by a loop that lets an arbitrary unfinished one
 take its next step, so whatever is proved holds for every schedule.
 */
module TemporaryRoot {
  import opened Common
  import opened OperationJournal
  import opened DeployProtocol

  /** How the independent path through the Host ended for one guest. */
  datatype Fallback = Removed | ConfigMissing | FallbackFailed

  datatype Attempt = DirectTry(index: nat) | FallbackTry(index: nat) | HostTry

  /** What each remote call would answer; every call is made at most once. */
  datatype Remote = Remote(direct: nat -> bool, fallback: nat -> Fallback, host: bool)

  /** The guest lost the key, or was proven not to exist. */
  predicate Settled(i: nat, remote: Remote, viaHost: bool) {
    remote.direct(i) || (viaHost && remote.fallback(i) != FallbackFailed)
  }

  predicate NoRepeats(log: seq<Attempt>) {
    forall j, k :: 0 <= j < k < |log| ==> log[j] != log[k]
  }

  /** Each target is tried once directly, and once through the Host exactly when that failed. */
  ghost predicate TriedOnce(log: seq<Attempt>, n: nat, remote: Remote, viaHost: bool) {
    && NoRepeats(log)
    && (forall i: nat :: DirectTry(i) in log <==> i < n)
    && (forall i: nat :: FallbackTry(i) in log <==> i < n && viaHost && !remote.direct(i))
  }

  ghost predicate AllSettled(n: nat, remote: Remote, viaHost: bool) {
    forall i: nat :: i < n ==> Settled(i, remote, viaHost)
  }

  /** The concurrent part: one goroutine per target, each filling its own slot of `errs`. */
  method RunGoroutines(n: nat, viaHost: bool, remote: Remote) returns (errs: array<bool>, log: seq<Attempt>)
    ensures errs.Length == n && forall i: nat :: i < n ==> errs[i] == !Settled(i, remote, viaHost)
    ensures TriedOnce(log, n, remote, viaHost) && HostTry !in log
  {
    errs := new bool[n](_ => false);
    log := [];
    var unstarted := Indices(n);
    var falling: set<nat> := {};
    while unstarted + falling != {}
      invariant unstarted <= Indices(n) && falling <= Indices(n) && unstarted !! falling
      invariant forall i <- falling :: viaHost && !remote.direct(i)
      invariant forall i: nat :: i < n ==>
                  errs[i] == (i !in unstarted && i !in falling && !Settled(i, remote, viaHost))
      invariant NoRepeats(log) && HostTry !in log
      invariant forall i: nat :: DirectTry(i) in log <==> i < n && i !in unstarted
      invariant forall i: nat :: FallbackTry(i) in log <==>
                  i < n && i !in unstarted && i !in falling && viaHost && !remote.direct(i)
      decreases unstarted, falling
    {
      var i :| i in unstarted + falling;
      if i in unstarted {
        unstarted := unstarted - {i};
        log := log + [DirectTry(i)];
        if !remote.direct(i) {
          if viaHost {
            falling := falling + {i};
          } else {
            errs[i] := true;
          }
        }
      } else {
        falling := falling - {i};
        log := log + [FallbackTry(i)];
        if remote.fallback(i) == FallbackFailed {
          errs[i] := true;
        }
      }
    }
  }

  /**
   `revokeTemporaryRootAccessForGuestsWithFallback`.  It succeeds exactly when
   every filtered target is settled and the Host, if included, was revoked;
   each target is tried once, the fallback only after a failed direct try, and
   the Host comes last, after every other attempt.
   */
  method RevokeFanOut(guests: seq<Guest>, host: bool, hasFallback: bool, remote: Remote)
    returns (ok: bool, log: seq<Attempt>)
    ensures ok <==> AllSettled(|Targets(guests)|, remote, host && hasFallback) && (host ==> remote.host)
    ensures TriedOnce(log, |Targets(guests)|, remote, host && hasFallback)
    ensures host ==> log != [] && log[|log| - 1] == HostTry && HostTry !in log[..|log| - 1]
    ensures !host ==> HostTry !in log
  {
    var targets := Targets(guests);
    if |targets| == 0 && !host {
      return true, [];
    }
    var viaHost := host && hasFallback;
    var errs;
    errs, log := RunGoroutines(|targets|, viaHost, remote);
    ok := true;
    for i := 0 to |targets|
      invariant ok <==> AllSettled(i, remote, viaHost)
    {
      ok := ok && !errs[i];
    }
    if host {
      assert (log + [HostTry])[..|log|] == log;
      log := log + [HostTry];
      ok := ok && remote.host;
    }
  }

  /** The registry a run keeps in memory; `Register` is its specification. */
  class TemporaryRootCleanup {
    var host: bool
    var guests: seq<Guest>
    var guestNames: set<string>
    var identity: seq<int>

    ghost predicate Valid()
      reads this
    {
      guestNames == set g | g in guests :: g.name
    }

    constructor (identity: seq<int>)
      ensures Valid() && !host && guests == [] && this.identity == identity
    {
      host, guests, guestNames, this.identity := false, [], {}, identity;
    }

    method HostEstablished()
      requires Valid()
      modifies this`host
      ensures Valid() && host
    {
      host := true;
    }

    method GuestEstablished(guest: Guest)
      requires Valid()
      modifies this`guests, this`guestNames
      ensures Valid() && guests == Register(old(guests), guest)
      ensures exists g <- guests :: g.name == guest.name
    {
      if guest.name in guestNames {
        return;
      }
      guestNames := guestNames + {guest.name};
      guests := guests + [guest];
      assert guests[|guests| - 1] == guest;
    }

    /** Revokes everything registered, and wipes the private identity whatever happens. */
    method Revoke(remote: Remote) returns (ok: bool, log: seq<Attempt>)
      requires Valid()
      modifies this`identity
      ensures Valid() && identity == []
      ensures ok <==> AllSettled(|Targets(guests)|, remote, host) && (host ==> remote.host)
      ensures TriedOnce(log, |Targets(guests)|, remote, host)
    {
      identity := [];
      ok, log := RevokeFanOut(guests, host, true, remote);
    }
  }
}

/** Guest inspection by up to four workers. */
module GuestInspection {
  import opened Common
  import opened OperationJournal

  datatype Inspection = Inspection(exists_: bool, replacement: bool, failed: bool)

  datatype ArtifactState = ArtifactState(exists_: bool, replacement: bool)

  datatype Outcome =
    | States(states: map<int, ArtifactState>)
    | MissingInput
    | InspectionFailed(index: nat)
    | DuplicateVmid(index: nat)

  /** The plain loop: inspect left to right, stop at the first failing or repeated entry. */
  function Sequential(guests: seq<Guest>, inspect: nat -> Inspection, i: nat, states: map<int, ArtifactState>): Outcome
    requires i <= |guests|
    decreases |guests| - i
  {
    if i == |guests| then States(states)
    else if inspect(i).failed then InspectionFailed(i)
    else if guests[i].vmid in states then DuplicateVmid(i)
    else Sequential(guests, inspect, i + 1,
                    states[guests[i].vmid := ArtifactState(inspect(i).exists_, inspect(i).replacement)])
  }

  /** The first `i` entries were inspected without error, have distinct VMIDs, and make up `states`. */
  ghost predicate Collected(guests: seq<Guest>, inspect: nat -> Inspection, i: nat, states: map<int, ArtifactState>)
    requires i <= |guests|
  {
    && (forall k: nat :: k < i ==> !inspect(k).failed)
    && (forall j, k :: 0 <= j < k < i ==> guests[j].vmid != guests[k].vmid)
    && states.Keys == (set g | g in guests[..i] :: g.vmid)
    && (forall k: nat :: k < i ==>
          guests[k].vmid in states &&
          states[guests[k].vmid] == ArtifactState(inspect(k).exists_, inspect(k).replacement))
  }

  lemma CollectOne(guests: seq<Guest>, inspect: nat -> Inspection, i: nat, states: map<int, ArtifactState>)
    requires i < |guests| && Collected(guests, inspect, i, states)
    requires !inspect(i).failed && guests[i].vmid !in states
    ensures Collected(guests, inspect, i + 1,
                      states[guests[i].vmid := ArtifactState(inspect(i).exists_, inspect(i).replacement)])
  {
    assert guests[..i + 1] == guests[..i] + [guests[i]];
    forall j | 0 <= j < i ensures guests[j].vmid != guests[i].vmid {
      assert guests[j].vmid in states;
    }
  }

  /** The first offending entry in index order decides; otherwise the map has every guest. */
  ghost predicate Explained(r: Outcome, guests: seq<Guest>, inspect: nat -> Inspection) {
    match r
    case States(m) => Collected(guests, inspect, |guests|, m)
    case InspectionFailed(f) => f < |guests| && inspect(f).failed && exists m :: Collected(guests, inspect, f, m)
    case DuplicateVmid(f) =>
      f < |guests| && !inspect(f).failed && exists m :: Collected(guests, inspect, f, m) && guests[f].vmid in m
    case MissingInput => false
  }

  lemma {:induction false} SequentialMeaning(guests: seq<Guest>, inspect: nat -> Inspection, i: nat, states: map<int,
                                             ArtifactState>)
    requires i <= |guests| && Collected(guests, inspect, i, states)
    ensures Explained(Sequential(guests, inspect, i, states), guests, inspect)
    decreases |guests| - i
  {
    if i < |guests| && !inspect(i).failed && guests[i].vmid !in states {
      CollectOne(guests, inspect, i, states);
      SequentialMeaning(guests, inspect, i + 1,
                        states[guests[i].vmid := ArtifactState(inspect(i).exists_, inspect(i).replacement)]);
    }
  }

  lemma {:induction false} FewBelow(s: set<nat>, n: nat)
    requires forall k <- s :: k < n
    ensures |s| <= n
  {
    if s != {} {
      var k :| k in s;
      assert n > 0;
      FewBelow(s - {n - 1}, n - 1);
      assert |s| <= |s - {n - 1}| + 1 by {
        assert s <= (s - {n - 1}) + {n - 1};
        assert n - 1 in s ==> |s - {n - 1}| == |s| - 1;
        assert n - 1 !in s ==> s - {n - 1} == s;
      }
    }
  }

  /**
   The workers: an arbitrary one takes the next job or delivers the result it holds;
   `peak` is the largest number of them that were busy at once.
   */
  method RunWorkers(n: nat, inspect: nat -> Inspection) returns (results: seq<(nat, Inspection)>, ghost peak: nat)
    requires n > 0
    ensures peak <= 4
    ensures forall item <- results :: item.0 < n && item.1 == inspect(item.0)
    ensures forall i: nat :: i < n ==> (i, inspect(i)) in results
  {
    var workers := if n < 4 then n else 4;
    var held := new nat[workers](_ => 0);
    var busy: set<nat> := {};
    var next: nat := 0;
    results, peak := [], 0;
    while next < n || busy != {}
      invariant next <= n && peak <= 4
      invariant forall k <- busy :: k < workers && held[k] < next
      invariant forall item <- results :: item.0 < next && item.1 == inspect(item.0)
      invariant forall i: nat :: i < next && (i, inspect(i)) !in results ==> exists k <- busy :: held[k] == i
      decreases n - next, busy
    {
      assert busy == {} || exists b :: b in busy;
      assert 0 < workers;
      var k: nat :| k < workers && (k in busy || next < n);
      if k in busy {
        results := results + [(held[k], inspect(held[k]))];
        busy := busy - {k};
      } else {
        held[k] := next;
        busy := busy + {k};
        assert k in busy && held[k] == next;
        FewBelow(busy, workers);
        peak := if |busy| > peak then |busy| else peak;
        next := next + 1;
      }
    }
  }

  method InIndexOrder(n: nat, inspect: nat -> Inspection, results: seq<(nat, Inspection)>)
    returns (ordered: array<Inspection>)
    requires forall item <- results :: item.0 < n && item.1 == inspect(item.0)
    requires forall i: nat :: i < n ==> (i, inspect(i)) in results
    ensures ordered.Length == n && forall i: nat :: i < n ==> ordered[i] == inspect(i)
  {
    ordered := new Inspection[n](_ => Inspection(false, false, false));
    for i := 0 to |results|
      invariant forall k :: 0 <= k < i ==> ordered[results[k].0] == inspect(results[k].0)
    {
      assert results[i] in results;
      ordered[results[i].0] := results[i].1;
    }
    forall i: nat | i < n ensures ordered[i] == inspect(i) {
      var k :| 0 <= k < |results| && results[k] == (i, inspect(i));
    }
  }

  /**
   `inspectDeploymentGuestStates`: whatever the schedule, the answer is that of
   the sequential left-to-right loop.
   */
  method InspectDeploymentGuestStates(client: bool, node: string, guests: seq<Guest>, inspect: nat -> Inspection)
    returns (r: Outcome)
    ensures !client || node == "" ==> r == MissingInput
    ensures client && node != "" ==>
              r == Sequential(guests, inspect, 0, map[]) && Explained(r, guests, inspect)
  {
    if !client || node == "" {
      return MissingInput;
    }
    SequentialMeaning(guests, inspect, 0, map[]);
    if |guests| == 0 {
      return States(map[]);
    }
    var results, _ := RunWorkers(|guests|, inspect);
    var ordered := InIndexOrder(|guests|, inspect, results);
    var states: map<int, ArtifactState> := map[];
    for i := 0 to |guests|
      invariant Sequential(guests, inspect, 0, map[]) == Sequential(guests, inspect, i, states)
    {
      if ordered[i].failed {
        return InspectionFailed(i);
      }
      if guests[i].vmid in states {
        return DuplicateVmid(i);
      }
      states := states[guests[i].vmid := ArtifactState(ordered[i].exists_, ordered[i].replacement)];
    }
    return States(states);
  }
}
