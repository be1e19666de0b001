/**
  How many unexpired leases one worker holds (jobs/remote_workers.py): claims are
  counted against the concurrency the worker announced last, and every worker
  heartbeat may announce another one.
 */
module WorkerCapacity {
  import opened Wrappers
  import opened RemoteLease
  import opened Sets

  /** The job rows, the announced concurrencies, and those that held at each worker's last granted claim. */
  datatype Fleet = Fleet(jobs: map<nat, Row>, concurrency: map<string, nat>, atClaim: map<string, nat>)

  const LARGEST_CONCURRENCY := 0x7FFF_FFFF

  /**
    `now` is the moment of the update. A request read the clock before: a claim at
    `read`, the other requests at the time in their event.
   */
  datatype FleetEvent =
    | Announce(worker: string, announced: Option<nat>, now: real)
    | ClaimWork(worker: string, maxJobs: nat, id: nat, seenAttempts: nat, token: Token, read: real, now: real)
    | OnJob(id: nat, event: Event, now: real)

  predicate HeldBy(r: Row, worker: string, now: real) {
    r.state == Running && r.worker == worker && r.leaseExpires.Some? && r.leaseExpires.value > now
  }

  /** The unexpired leases a worker holds. */
  function Held(f: Fleet, worker: string, now: real): set<nat> {
    set id | id in f.jobs && HeldBy(f.jobs[id], worker, now)
  }

  predicate HasCapacity(f: Fleet, worker: string, maxJobs: nat, now: real) {
    worker in f.concurrency && |Held(f, worker, now)| < maxJobs && |Held(f, worker, now)| < f.concurrency[worker]
  }

  /** A heartbeat without a concurrency announces 1. */
  function Announced(announced: Option<nat>): nat { if announced.None? then 1 else announced.value }

  predicate Announces(e: FleetEvent, worker: string) {
    e.Announce? && e.worker == worker && 1 <= Announced(e.announced) <= LARGEST_CONCURRENCY
  }

  predicate Grants(f: Fleet, e: FleetEvent) {
    && e.ClaimWork? && e.id in f.jobs && HasCapacity(f, e.worker, e.maxJobs, e.read)
    && f.jobs[e.id].attempts == e.seenAttempts && Claimable(f.jobs[e.id], e.read)
  }

  function FleetStep(f: Fleet, s: Settings, e: FleetEvent): Fleet {
    match e
    case Announce(worker, announced, _) =>
      if Announces(e, worker) then f.(concurrency := f.concurrency[worker := Announced(announced)]) else f
    case ClaimWork(worker, _, id, _, token, read, _) =>
      if Grants(f, e)
      then f.(jobs := f.jobs[id := Started(f.jobs[id], s, worker, token, read)],
              atClaim := f.atClaim[worker := f.concurrency[worker]])
      else f
    case OnJob(id, event, _) =>
      if id in f.jobs then f.(jobs := f.jobs[id := Step(f.jobs[id], s, event)]) else f
  }

  function FleetAfter(f: Fleet, s: Settings, events: seq<FleetEvent>): Fleet {
    if events == [] then f else FleetStep(FleetAfter(f, s, events[..|events| - 1]), s, events[|events| - 1])
  }

  predicate NoClaimPastTheCount(e: FleetEvent) { e.OnJob? ==> !e.event.Claim? }

  /** Updates one by one, each after its clock reading; jobs are claimed through the capacity check only. */
  ghost predicate OnClock(events: seq<FleetEvent>) {
    && (forall i, j | 0 <= i < j < |events| :: events[i].now <= events[j].now)
    && (forall e | e in events :: NoClaimPastTheCount(e) && (e.ClaimWork? ==> e.read <= e.now))
  }

  predicate Exceeds(f: Fleet, worker: string, now: real) {
    worker in f.concurrency && |Held(f, worker, now)| > f.concurrency[worker]
  }

  /** A claim takes the job exactly as the update of its row does, if the worker has room by both limits. */
  lemma ClaimIsOfTheRow(f: Fleet, s: Settings, e: FleetEvent)
    requires e.ClaimWork? && e.id in f.jobs
    ensures var row, claim := f.jobs[e.id], Event.Claim(e.worker, e.seenAttempts, e.token, e.read);
            var leases := |set id | id in f.jobs && f.jobs[id].state == Running && f.jobs[id].worker == e.worker
                            && f.jobs[id].leaseExpires.Some? && f.jobs[id].leaseExpires.value > e.read|;
            var room := e.worker in f.concurrency && leases < e.maxJobs && leases < f.concurrency[e.worker];
            && (room ==> FleetStep(f, s, e).jobs == f.jobs[e.id := Step(row, s, claim)])
            && (!room || !Granted(row, claim) ==> FleetStep(f, s, e) == f)
  {
    assert Held(f, e.worker, e.read) ==
      set id | id in f.jobs && f.jobs[id].state == Running && f.jobs[id].worker == e.worker
        && f.jobs[id].leaseExpires.Some? && f.jobs[id].leaseExpires.value > e.read;
    hide Started;
  }

  // -- What can take a worker over its concurrency ----------------------------------------------

  /** The worker announces less than it holds. */
  predicate Lowers(f: Fleet, e: FleetEvent, worker: string) {
    Announces(e, worker) && Announced(e.announced) < |Held(f, worker, e.now)|
  }

  /** A beat that is the job's latest extends a lease that ran out between its clock reading and its update. */
  predicate Revives(f: Fleet, s: Settings, e: FleetEvent, worker: string) {
    && e.OnJob? && e.event.Heartbeat? && e.id in f.jobs && e.event.worker == worker
    && var row, read := f.jobs[e.id], e.event.now;
    && ActiveLease(row, worker, e.event.token, read) && (row.lastBeat.None? || row.lastBeat.value < read)
    && row.leaseExpires.value <= e.now < read + s.leaseSeconds
  }

  /** The condition is decided before the update is made. */
  predicate Oversteps(f: Fleet, s: Settings, e: FleetEvent, worker: string) {
    || Lowers(f, e, worker)
    || (Revives(f, s, e, worker) && worker in f.concurrency && |Held(f, worker, e.now)| >= f.concurrency[worker])
  }

  lemma HeldShrinks(f: Fleet, worker: string, earlier: real, later: real)
    requires earlier <= later
    ensures Held(f, worker, later) <= Held(f, worker, earlier)
    ensures |Held(f, worker, later)| <= |Held(f, worker, earlier)|
  {
    SubsetIsSmaller(Held(f, worker, later), Held(f, worker, earlier));
  }

  /** Only a beat that comes late brings a lease back. */
  lemma LeaseIsBackIffRevived(f: Fleet, s: Settings, e: FleetEvent, worker: string)
    requires e.OnJob? && NoClaimPastTheCount(e) && e.id in f.jobs
    ensures !HeldBy(f.jobs[e.id], worker, e.now) && HeldBy(Step(f.jobs[e.id], s, e.event), worker, e.now)
       <==> Revives(f, s, e, worker)
  {
  }

  lemma HeldAfterJobStep(f: Fleet, s: Settings, e: FleetEvent, worker: string)
    requires e.OnJob? && NoClaimPastTheCount(e)
    ensures var before, after := Held(f, worker, e.now), Held(FleetStep(f, s, e), worker, e.now);
            if Revives(f, s, e, worker) then e.id !in before && after == before + {e.id} else after <= before
  {
    hide Step, HeldBy;
    if e.id in f.jobs {
      LeaseIsBackIffRevived(f, s, e, worker);
    }
    hide Revives;
  }

  lemma HeldAfterClaim(f: Fleet, s: Settings, e: FleetEvent, worker: string)
    requires e.ClaimWork? && e.read <= e.now
    ensures var before, after := Held(f, worker, e.now), Held(FleetStep(f, s, e), worker, e.now);
            && after <= before + {e.id}
            && (!(Grants(f, e) && e.worker == worker) ==> after <= before)
    ensures Grants(f, e) ==> |Held(f, e.worker, e.now)| < f.concurrency[e.worker]
  {
    if Grants(f, e) {
      HeldShrinks(f, e.worker, e.read, e.now);
    }
  }

  lemma HeldAfterAnnouncing(f: Fleet, s: Settings, e: FleetEvent, worker: string)
    requires e.Announce?
    ensures Held(FleetStep(f, s, e), worker, e.now) == Held(f, worker, e.now)
  {
  }

  /** From within its concurrency a worker gets over it exactly by a step that oversteps. */
  lemma OneStep(f: Fleet, s: Settings, e: FleetEvent, worker: string)
    requires NoClaimPastTheCount(e) && (e.ClaimWork? ==> e.read <= e.now)
    ensures Oversteps(f, s, e, worker) ==> Exceeds(FleetStep(f, s, e), worker, e.now)
    ensures Exceeds(FleetStep(f, s, e), worker, e.now) && !Oversteps(f, s, e, worker) ==>
              Exceeds(f, worker, e.now) || (worker !in f.concurrency && Held(f, worker, e.now) != {})
  {
    hide Held, HeldBy, Step, Started;
    var before, after := Held(f, worker, e.now), Held(FleetStep(f, s, e), worker, e.now);
    match e {
      case Announce(_, _, _) =>
        HeldAfterAnnouncing(f, s, e, worker);
      case ClaimWork(_, _, _, _, _, _, _) =>
        HeldAfterClaim(f, s, e, worker);
        SubsetIsSmaller(after, if Grants(f, e) && e.worker == worker then before + {e.id} else before);
      case OnJob(_, _, _) =>
        HeldAfterJobStep(f, s, e, worker);
        if Revives(f, s, e, worker) {
          assert |after| == |before| + 1;
        } else {
          SubsetIsSmaller(after, before);
        }
    }
  }

  // -- Whole runs ---------------------------------------------------------------------------------

  /** Leases belong to workers that announced themselves. */
  ghost predicate OwnersAnnounced(f: Fleet) {
    forall id | id in f.jobs && f.jobs[id].state == Running :: f.jobs[id].worker in f.concurrency
  }

  ghost predicate AllQueued(f: Fleet) {
    forall id | id in f.jobs :: f.jobs[id].state == Queued
  }

  lemma OwnersStep(f: Fleet, s: Settings, e: FleetEvent)
    requires OwnersAnnounced(f) && NoClaimPastTheCount(e)
    ensures OwnersAnnounced(FleetStep(f, s, e))
  {
    if e.OnJob? && e.id in f.jobs {
      var row := Step(f.jobs[e.id], s, e.event);
      assert row.state == Running ==> f.jobs[e.id].state == Running && row.worker == f.jobs[e.id].worker;
    }
    hide Step;
  }

  lemma {:induction false} OwnersHaveAnnounced(f: Fleet, s: Settings, events: seq<FleetEvent>)
    requires AllQueued(f) && forall e | e in events :: NoClaimPastTheCount(e)
    ensures OwnersAnnounced(FleetAfter(f, s, events))
  {
    if events != [] {
      var init := events[..|events| - 1];
      assert forall e | e in init :: e in events;
      OwnersHaveAnnounced(f, s, init);
      assert NoClaimPastTheCount(events[|events| - 1]);
      OwnersStep(FleetAfter(f, s, init), s, events[|events| - 1]);
    }
  }

  ghost predicate ExceedsAt(f: Fleet, s: Settings, events: seq<FleetEvent>, k: nat, worker: string)
    requires k < |events|
  {
    Exceeds(FleetAfter(f, s, events[..k + 1]), worker, events[k].now)
  }

  ghost predicate OverstepsAt(f: Fleet, s: Settings, events: seq<FleetEvent>, k: nat, worker: string)
    requires k < |events|
  {
    Oversteps(FleetAfter(f, s, events[..k]), s, events[k], worker)
  }

  ghost predicate RevivesAt(f: Fleet, s: Settings, events: seq<FleetEvent>, k: nat, worker: string)
    requires k < |events|
  {
    Revives(FleetAfter(f, s, events[..k]), s, events[k], worker)
  }

  lemma StepOfRun(f: Fleet, s: Settings, events: seq<FleetEvent>, k: nat)
    requires k < |events|
    ensures FleetAfter(f, s, events[..k + 1]) == FleetStep(FleetAfter(f, s, events[..k]), s, events[k])
  {
    assert events[..k + 1][..k] == events[..k];
  }

  /** Over its concurrency after step k, a worker overstepped at k or before. */
  lemma {:induction false} ExceedingHasCause(f: Fleet, s: Settings, events: seq<FleetEvent>, k: nat, worker: string)
    requires AllQueued(f) && OnClock(events) && k < |events| && ExceedsAt(f, s, events, k, worker)
    ensures exists j: nat :: j <= k && OverstepsAt(f, s, events, j, worker)
  {
    var before := FleetAfter(f, s, events[..k]);
    assert events[k] in events;
    StepOfRun(f, s, events, k);
    OneStep(before, s, events[k], worker);
    if !OverstepsAt(f, s, events, k, worker) {
      OwnersHaveAnnounced(f, s, events[..k]);
      assert worker !in before.concurrency ==> Held(before, worker, events[k].now) == {};
      if k > 0 {
        HeldShrinks(before, worker, events[k - 1].now, events[k].now);
        ExceedingHasCause(f, s, events, k - 1, worker);
      }
    }
  }

  /**
    In any run a worker is at some moment over the concurrency it announced last if and
    only if at some moment it announces less than it holds, or a late beat revives a
    lease while it holds as many as it announced.
   */
  lemma ExceedsIffOverstepped(f: Fleet, s: Settings, events: seq<FleetEvent>, worker: string)
    requires AllQueued(f) && OnClock(events)
    ensures (exists k: nat :: k < |events| && ExceedsAt(f, s, events, k, worker))
       <==> (exists k: nat :: k < |events| && OverstepsAt(f, s, events, k, worker))
  {
    hide *;
    if k: nat :| k < |events| && ExceedsAt(f, s, events, k, worker) {
      ExceedingHasCause(f, s, events, k, worker);
    }
    if k: nat :| k < |events| && OverstepsAt(f, s, events, k, worker) {
      CauseHasEffect(f, s, events, k, worker);
    }
  }

  lemma CauseHasEffect(f: Fleet, s: Settings, events: seq<FleetEvent>, k: nat, worker: string)
    requires OnClock(events) && k < |events| && OverstepsAt(f, s, events, k, worker)
    ensures ExceedsAt(f, s, events, k, worker)
  {
    hide Oversteps, Exceeds;
    assert events[k] in events;
    StepOfRun(f, s, events, k);
    OneStep(FleetAfter(f, s, events[..k]), s, events[k], worker);
  }

  // -- What holds whatever is announced -------------------------------------------------------------

  function LastLimit(f: Fleet, worker: string): nat { if worker in f.atClaim then f.atClaim[worker] else 0 }

  /**
    Without revived leases a worker never holds more than the concurrency that held at
    its last granted claim, whatever it announces since.
   */
  lemma {:induction false} HeldFitsLastClaim(f: Fleet, s: Settings, events: seq<FleetEvent>, worker: string)
    requires AllQueued(f) && OnClock(events) && events != []
    requires forall k: nat | k < |events| :: !RevivesAt(f, s, events, k, worker)
    ensures var after := FleetAfter(f, s, events);
            |Held(after, worker, events[|events| - 1].now)| <= LastLimit(after, worker)
  {
    var n := |events| - 1;
    var e, init := events[n], events[..n];
    var before := FleetAfter(f, s, init);
    assert e in events && events[..n + 1] == events;
    StepOfRun(f, s, events, n);
    assert !RevivesAt(f, s, events, n, worker);
    if n > 0 {
      forall k: nat | k < |init| ensures !RevivesAt(f, s, init, k, worker) {
        assert init[..k] == events[..k] && !RevivesAt(f, s, events, k, worker);
      }
      HeldFitsLastClaim(f, s, init, worker);
      HeldShrinks(before, worker, events[n - 1].now, e.now);
    } else {
      assert Held(before, worker, e.now) == {};
    }
    LimitStep(before, s, e, worker);
  }

  lemma LimitStep(f: Fleet, s: Settings, e: FleetEvent, worker: string)
    requires |Held(f, worker, e.now)| <= LastLimit(f, worker) && !Revives(f, s, e, worker)
    requires NoClaimPastTheCount(e) && (e.ClaimWork? ==> e.read <= e.now)
    ensures |Held(FleetStep(f, s, e), worker, e.now)| <= LastLimit(FleetStep(f, s, e), worker)
  {
    var before, after := Held(f, worker, e.now), Held(FleetStep(f, s, e), worker, e.now);
    match e {
      case Announce(_, _, _) => assert after == before;
      case ClaimWork(_, _, _, _, _, _, _) =>
        HeldAfterClaim(f, s, e, worker);
        SubsetIsSmaller(after, if Grants(f, e) && e.worker == worker then before + {e.id} else before);
      case OnJob(_, _, _) =>
        HeldAfterJobStep(f, s, e, worker);
        SubsetIsSmaller(after, before);
    }
  }

  // -- Both ways over the limit, on one worker ---------------------------------------------------------

  const TWO_JOBS := Fleet(map[1 := NewRow(2), 2 := NewRow(2)], map[], map[])
  const MINUTE := Settings("", 60.0)

  /** Two leases are held when the next heartbeat names no concurrency. */
  const LOWERED := [
    FleetEvent.Announce("w", Some(2), 0.0),
    ClaimWork("w", 2, 1, 0, 11, 0.0, 0.0),
    ClaimWork("w", 2, 2, 0, 12, 0.0, 0.0),
    FleetEvent.Announce("w", None, 1.0)]

  /** The first lease runs out, the second job is claimed, and a beat of the first comes late. */
  const REVIVED := [
    FleetEvent.Announce("w", Some(1), 0.0),
    ClaimWork("w", 1, 1, 0, 11, 0.0, 0.0),
    ClaimWork("w", 1, 2, 0, 12, 61.0, 61.0),
    OnJob(1, Event.Heartbeat("w", 11, "", 59.0), 62.0)]

  lemma FourSteps(f: Fleet, s: Settings, a: FleetEvent, b: FleetEvent, c: FleetEvent, d: FleetEvent)
    ensures FleetAfter(f, s, [a, b, c, d]) == FleetStep(FleetStep(FleetStep(FleetStep(f, s, a), s, b), s, c), s, d)
  {
    hide FleetStep;
    assert [a, b, c, d][..3] == [a, b, c] && [a, b, c][..2] == [a, b] && [a, b][..1] == [a] && [a][..0] == [];
    assert FleetAfter(f, s, [a]) == FleetStep(f, s, a);
    assert FleetAfter(f, s, [a, b]) == FleetStep(FleetStep(f, s, a), s, b);
  }

  lemma HeldOfTwo(f: Fleet, first: Row, second: Row, now: real)
    requires f.jobs == map[1 := first, 2 := second]
    ensures Held(f, "w", now) == (if HeldBy(first, "w", now) then {1} else {}) +
        (if HeldBy(second, "w", now) then {2} else {})
  {
  }

  lemma WaitingJobIsClaimed(f: Fleet, id: nat, token: Token, maxJobs: nat, now: real)
    requires id in f.jobs && f.jobs[id] == NewRow(2) && HasCapacity(f, "w", maxJobs, now)
    ensures FleetStep(f, MINUTE, ClaimWork("w", maxJobs, id, 0, token, now, now))
         == Fleet(f.jobs[id := Started(NewRow(2), MINUTE, "w", token, now)], f.concurrency,
           f.atClaim["w" := f.concurrency["w"]])
  {
    hide HasCapacity, Started;
  }

  lemma TheseRunsAreOnClock()
    ensures AllQueued(TWO_JOBS) && OnClock(LOWERED) && OnClock(REVIVED)
  {
  }

  lemma LateBeatHolds(r: Row)
    requires r == Started(NewRow(2), MINUTE, "w", 11, 0.0)
    ensures HeldBy(Step(r, MINUTE, Event.Heartbeat("w", 11, "", 59.0)), "w", 62.0)
  {
    hide AttemptPrefix;
  }

  /** An announced concurrency below the leases held. */
  lemma LoweringExceeds()
    ensures AllQueued(TWO_JOBS) && OnClock(LOWERED)
    ensures Exceeds(FleetAfter(TWO_JOBS, MINUTE, LOWERED), "w", 1.0)
  {
    hide Held, AttemptPrefix, OnClock;
    TheseRunsAreOnClock();
    var none, f := NewRow(2), FleetStep(TWO_JOBS, MINUTE, LOWERED[0]);
    var one, two := Started(none, MINUTE, "w", 11, 0.0), Started(none, MINUTE, "w", 12, 0.0);
    HeldOfTwo(f, none, none, 0.0);
    WaitingJobIsClaimed(f, 1, 11, 2, 0.0);
    var g := FleetStep(f, MINUTE, LOWERED[1]);
    HeldOfTwo(g, one, none, 0.0);
    WaitingJobIsClaimed(g, 2, 12, 2, 0.0);
    var h := FleetStep(g, MINUTE, LOWERED[2]);
    HeldOfTwo(FleetStep(h, MINUTE, LOWERED[3]), one, two, 1.0);
    FourSteps(TWO_JOBS, MINUTE, LOWERED[0], LOWERED[1], LOWERED[2], LOWERED[3]);
    hide FleetStep, FleetAfter;
    assert |{1, 2}| == 2;
  }

  /** A late beat beside a newly claimed job. */
  lemma RevivingExceeds()
    ensures AllQueued(TWO_JOBS) && OnClock(REVIVED)
    ensures Exceeds(FleetAfter(TWO_JOBS, MINUTE, REVIVED), "w", 62.0)
  {
    hide Held, AttemptPrefix, OnClock, Step;
    TheseRunsAreOnClock();
    var none, f := NewRow(2), FleetStep(TWO_JOBS, MINUTE, REVIVED[0]);
    var one, two := Started(none, MINUTE, "w", 11, 0.0), Started(none, MINUTE, "w", 12, 61.0);
    HeldOfTwo(f, none, none, 0.0);
    WaitingJobIsClaimed(f, 1, 11, 1, 0.0);
    var g := FleetStep(f, MINUTE, REVIVED[1]);
    HeldOfTwo(g, one, none, 61.0);
    WaitingJobIsClaimed(g, 2, 12, 1, 61.0);
    var h := FleetStep(g, MINUTE, REVIVED[2]);
    LateBeatHolds(one);
    HeldOfTwo(FleetStep(h, MINUTE, REVIVED[3]), Step(one, MINUTE, REVIVED[3].event), two, 62.0);
    FourSteps(TWO_JOBS, MINUTE, REVIVED[0], REVIVED[1], REVIVED[2], REVIVED[3]);
    hide FleetStep, FleetAfter;
    assert |{1, 2}| == 2;
  }
}
