/**
  The object store and the tables as mutable state, with the deletions of
  jobs/retention.py as methods on it. A store that cannot delete some objects just
  now is a set of failing keys.
 */
module RetentionStore {
  import opened Wrappers
  import opened Retention
  import RetentionSafety
  import opened RetentionPrune
  import opened RetentionDue

  /** `after` is `before` without some rows and without some objects that no row left points at. */
  ghost predicate Trimmed(before: Db, after: Db) {
    && after.objects <= before.objects
    && RowsStay(before, after)
    && RemovesOnlyUnreferenced(before, after, None)
  }

  lemma TrimmedTwice(a: Db, b: Db, c: Db)
    requires Trimmed(a, b) && Trimmed(b, c)
    ensures Trimmed(a, c)
  {
    forall key | key in a.objects && key !in c.objects ensures !PointedAt(c, key, None) {
      if key !in b.objects {
        assert !PointedAt(b, key, None);
      }
    }
  }

  /** No row but the one given may be missing. */
  ghost predicate OnlyRowWent(before: Db, after: Db, phase: Phase, pk: Id) {
    forall p: Phase, k | k in KeysOf(before, p) && (p != phase || k != pk) :: k in KeysOf(after, p)
  }

  lemma OneMoreWent(before: Db, mid: Db, after: Db, phase: Phase, pks: seq<Id>, i: nat)
    requires OnlyTheseWent(before, mid, phase, Ids(pks)) && i < |pks| && OnlyRowWent(mid, after, phase, pks[i])
    ensures OnlyTheseWent(before, after, phase, Ids(pks))
  {
    hide KeysOf;
    forall p: Phase ensures KeysOf(before, p) <= KeysOf(after, p) + if p == phase then Ids(pks) else {} {
      assert forall k | k in KeysOf(mid, p) && (p != phase || k != pks[i]) :: k in KeysOf(after, p);
    }
  }

  lemma PhaseTrimsDue(before: Db, mid: Db, after: Db, s: Settings, phase: Phase, now: real)
    requires Trimmed(before, mid) && Trimmed(mid, after) && mid.jobs == before.jobs && OnlyDueWent(before, mid, s, now)
    requires OnlyTheseWent(mid, after, phase, Candidates(mid, s, phase, now))
    ensures Trimmed(before, after) && OnlyDueWent(before, after, s, now)
    ensures phase != Jobs ==> after.jobs == before.jobs
  {
    hide RemovesOnlyUnreferenced, RowsStay, OnlyDueWent, OnlyTheseWent, Candidates;
    TrimmedTwice(before, mid, after);
    PhaseTakesDue(before, mid, after, s, phase, now);
  }

  lemma NothingTrimmed(db: Db)
    ensures Trimmed(db, db)
  {
  }

  lemma DeletionTrims(db: Db, key: Key, row: Row, fault: Fault)
    requires fault != CutAfterObject
    ensures Trimmed(db, DeleteChecked(db, key, row, fault))
  {
    CheckedDeletionIsSafe(db, key, row, fault);
    hide PointedAt;
  }

  lemma CleaningTrims(db: Db, pk: Id, stopped: Option<set<Key>>)
    ensures Trimmed(db, CleanAttemptPrefix(db, pk, stopped))
  {
    PrefixCleaningIsSafe(db, pk, stopped);
    hide PointedAt, PrefixIsCleanable;
  }

  function FaultAt(key: Key, failing: set<Key>): Fault { if key in failing then StoreFails else Whole }

  /** The store cannot delete what the row's deletion needs deleted. */
  predicate Blocked(db: Db, phase: Phase, pk: Id, failing: set<Key>)
    requires pk in KeysOf(db, phase)
  {
    match phase
    case Artifacts => !PointedAt(db, db.artifacts[pk].key, Some(OfArtifact(pk))) && db.artifacts[pk].key in failing
    case Pending => !PointedAt(db, db.pending[pk].key, Some(OfPending(pk))) && db.pending[pk].key in failing
    case Prefixes => Unregistered(db, db.prefixes[pk].prefix) * failing != {}
    case Staged => !PointedAt(db, db.staged[pk].key, Some(OfStaged(pk))) && db.staged[pk].key in failing
    case Jobs => false
  }

  function OutcomeWith(db: Db, s: Settings, phase: Phase, pk: Id, now: real, failing: set<Key>): Outcome {
    if Found(db, s, phase, pk, now) && Allowed(db, phase, pk) && Blocked(db, phase, pk, failing) then Failed
    else OutcomeOf(db, s, phase, pk, now)
  }

  // -- The rows of one job ---------------------------------------------------------------

  predicate IsOwned(db: Db, phase: Phase, pk: Id, job: Id) {
    match phase
    case Artifacts => pk in db.artifacts && db.artifacts[pk].job == job
    case Pending => pk in db.pending && db.pending[pk].job == job
    case Prefixes => pk in db.prefixes && db.prefixes[pk].job == job
    case Staged => pk in db.staged && db.staged[pk].claimedBy == Some(job)
    case Jobs => pk in db.jobs && pk == job
  }

  function Owned(db: Db, phase: Phase, job: Id): set<Id> {
    set pk | pk in KeysOf(db, phase) && IsOwned(db, phase, pk, job)
  }

  predicate AllAllowed(db: Db, phase: Phase, job: Id) {
    forall pk | pk in Owned(db, phase, job) :: Allowed(db, phase, pk)
  }

  /** Nothing went but rows of the job. */
  ghost predicate OnlyOwnedWent(before: Db, after: Db, job: Id) {
    && Trimmed(before, after)
    && forall phase: Phase, pk | pk in KeysOf(before, phase) && !IsOwned(before, phase, pk, job) ::
      pk in KeysOf(after, phase)
  }

  lemma OnlyOwnedWentTwice(a: Db, b: Db, c: Db, job: Id)
    requires OnlyOwnedWent(a, b, job) && OnlyOwnedWent(b, c, job)
    ensures OnlyOwnedWent(a, c, job)
  {
    TrimmedTwice(a, b, c);
    hide RemovesOnlyUnreferenced;
    forall phase: Phase, pk | pk in KeysOf(a, phase) && !IsOwned(a, phase, pk, job) ensures pk in KeysOf(c, phase) {
      assert pk in KeysOf(b, phase) && !IsOwned(b, phase, pk, job);
    }
  }

  /** A row that was allowed to go still is: fewer objects below a prefix refuse it less. */
  lemma AllowedAfterTrimming(before: Db, after: Db, phase: Phase, pk: Id)
    requires Trimmed(before, after) && pk in KeysOf(after, phase)
    ensures pk in KeysOf(before, phase) && (Allowed(before, phase, pk) ==> Allowed(after, phase, pk))
    ensures forall job :: IsOwned(after, phase, pk, job) == IsOwned(before, phase, pk, job)
  {
    hide RemovesOnlyUnreferenced, JobKeyIsDeletable, StagedKeyIsDeletable, AttemptPrefixIsDeletable, IsBelow;
    if phase.Prefixes? {
      assert KeysBelow(after, after.prefixes[pk].prefix) <= KeysBelow(before, after.prefixes[pk].prefix);
    }
  }

  lemma OwnerlessIsNothingOwned(db: Db, job: Id)
    requires forall phase: Phase | phase != Jobs :: Owned(db, phase, job) == {}
    ensures JobIsOwnerless(db, job)
  {
    forall pk | pk in db.artifacts ensures db.artifacts[pk].job != job { assert pk !in Owned(db, Artifacts, job); }
    forall pk | pk in db.pending ensures db.pending[pk].job != job { assert pk !in Owned(db, Pending, job); }
    forall pk | pk in db.prefixes ensures db.prefixes[pk].job != job { assert pk !in Owned(db, Prefixes, job); }
    forall pk | pk in db.staged ensures db.staged[pk].claimedBy != Some(job) { assert pk !in Owned(db, Staged, job); }
  }

  lemma OwnedRowsListed(db: Db, phase: Phase, job: Id)
    ensures OnlyOwnedWent(db, db, job)
    ensures forall pk :: pk in InOrder(Owned(db, phase, job)) <==> pk in Owned(db, phase, job)
    ensures StrictlyIncreasing(InOrder(Owned(db, phase, job)))
    ensures forall k | 0 <= k < |InOrder(Owned(db, phase, job))| ::
              InOrder(Owned(db, phase, job))[k] in Owned(db, phase, job) &&
                InOrder(Owned(db, phase, job))[k] in KeysOf(db, phase)
  {
    NothingTrimmed(db);
    var rows := InOrder(Owned(db, phase, job));
    InOrderSorts(Owned(db, phase, job));
    hide InOrder, IsOwned, Trimmed;
    forall k | 0 <= k < |rows| ensures rows[k] in Owned(db, phase, job) {
      assert rows[k] in rows;
    }
  }

  lemma StillOwned(before: Db, mid: Db, phase: Phase, pk: Id, job: Id)
    requires OnlyOwnedWent(before, mid, job) && pk in Owned(before, phase, job) && pk in KeysOf(mid, phase)
    ensures IsOwned(mid, phase, pk, job) && (AllAllowed(before, phase, job) ==> Allowed(mid, phase, pk))
  {
    AllowedAfterTrimming(before, mid, phase, pk);
  }

  lemma RowsDoNotReturn(before: Db, after: Db, phase: Phase, job: Id)
    requires OnlyOwnedWent(before, after, job)
    ensures KeysOf(after, phase) <= KeysOf(before, phase)
  {
    hide RemovesOnlyUnreferenced;
  }

  lemma NothingOwnedLeft(before: Db, after: Db, phase: Phase, job: Id)
    requires OnlyOwnedWent(before, after, job) && Owned(before, phase, job) !! KeysOf(after, phase)
    ensures Owned(after, phase, job) == {}
  {
    forall pk | pk in KeysOf(after, phase) ensures !IsOwned(after, phase, pk, job) {
      AllowedAfterTrimming(before, after, phase, pk);
      assert pk !in Owned(before, phase, job);
    }
  }

  /** Producers delete finished jobs of a profile. */
  predicate MayBeDeleted(job: JobRow) { job.backstop.Some? && job.terminal }

  /** Checked before anything is deleted; the queue is not. */
  predicate PassesUpFront(db: Db, job: Id) {
    AllAllowed(db, Artifacts, job) && AllAllowed(db, Prefixes, job) && AllAllowed(db, Staged, job)
  }

  lemma StillAllAllowed(before: Db, after: Db, job: Id)
    requires OnlyOwnedWent(before, after, job)
    ensures forall phase: Phase | AllAllowed(before, phase, job) :: AllAllowed(after, phase, job)
  {
    hide Trimmed, Allowed;
    forall phase: Phase, pk | AllAllowed(before, phase, job) && pk in Owned(after, phase, job)
      ensures Allowed(after, phase, pk)
    {
      AllowedAfterTrimming(before, after, phase, pk);
      assert pk in Owned(before, phase, job);
    }
  }

  lemma NothingOwnedReturns(before: Db, after: Db, phase: Phase, job: Id)
    requires OnlyOwnedWent(before, after, job) && Owned(before, phase, job) == {}
    ensures Owned(after, phase, job) == {}
  {
    NothingOwnedLeft(before, after, phase, job);
  }

  lemma JobRowWent(db: Db, job: Id)
    requires JobIsOwnerless(db, job)
    ensures var after := db.(jobs := db.jobs - {job}); OnlyOwnedWent(db, after, job) && JobIsOwnerless(after, job)
  {
  }

  /** How a producer's deletion ends; `Interrupted` leaves rows for the next call. */
  datatype Deletion = Done | Missing | NotDeletable | RefusedUpFront | Interrupted

  // -- Publication ------------------------------------------------------------------------

  /** How storing an object ends; a failed one may have stored it. */
  datatype Put = Stored | NotStored | FailedAfterStoring

  predicate HasRow(db: Db, row: ArtifactRow) {
    exists pk :: pk in db.artifacts && RetentionSafety.IsRowOf(db, pk, row.job, row.name)
  }

  /** A stored object has a row that points at it or a queue entry that will delete it. */
  ghost predicate NotOrphaned(db: Db, key: Key) {
    key in db.objects ==> PointedAt(db, key, None) || exists pk :: pk in db.pending && db.pending[pk].key == key
  }

  /** A queue entry just written is worked off, or it stays with its object. */
  lemma QueuedOrDeleted(db: Db, pk: Id, job: Id, key: Key, fault: Fault)
    requires pk !in db.pending && fault != CutAfterObject
    ensures var after := ProcessPending(db.(pending := db.pending[pk := PendingRow(job, key)]), pk, fault);
            && after.artifacts == db.artifacts && after.staged == db.staged && after.prefixes == db.prefixes &&
              after.jobs == db.jobs
            && (after.pending == db.pending || after.pending == db.pending[pk := PendingRow(job, key)])
            && (after.objects == db.objects || (after.objects == db.objects - {key} && !PointedAt(after, key, None)))
            && NotOrphaned(after, key)
  {
    hide JobKeyIsDeletable;
    var queued := db.(pending := db.pending[pk := PendingRow(job, key)]);
    var after := ProcessPending(queued, pk, fault);
    assert queued.pending - {pk} == db.pending;
    assert PointedAt(queued, key, Some(OfPending(pk))) == PointedAt(after, key, None);
    assert after.pending == queued.pending ==> after.pending[pk].key == key;
  }

  class Database {
    const settings: Settings
    var objects: set<Key>
    var artifacts: map<Id, ArtifactRow>
    var staged: map<Id, StagedRow>
    var pending: map<Id, PendingRow>
    var prefixes: map<Id, PrefixRow>
    var jobs: map<Id, JobRow>

    function State(): Db
      reads this
    {
      Db(objects, artifacts, staged, pending, prefixes, jobs)
    }

    constructor (settings: Settings, db: Db)
      ensures State() == db && this.settings == settings
    {
      this.settings := settings;
      objects, artifacts, staged := db.objects, db.artifacts, db.staged;
      pending, prefixes, jobs := db.pending, db.prefixes, db.jobs;
    }

    /** Deletes the object unless another row still points at it. */
    method DeleteUnlessReferenced(key: Key, row: Row, failing: set<Key>) returns (ok: bool)
      modifies `objects
      ensures ok == (PointedAt(old(State()), key, Some(row)) || key !in failing)
      ensures objects == if PointedAt(old(State()), key, Some(row)) || !ok then old(objects) else old(objects) - {key}
    {
      if PointedAt(State(), key, Some(row)) {
        return true;
      }
      if key in failing {
        return false;
      }
      objects := objects - {key};
      return true;
    }

    method PruneArtifact(pk: Id, now: real, failing: set<Key>) returns (outcome: Outcome)
      modifies this
      ensures outcome == OutcomeWith(old(State()), settings, Artifacts, pk, now, failing)
      ensures State() == Retention.PruneArtifact(old(State()), settings, pk, now,
                           if pk in old(artifacts) then FaultAt(old(artifacts)[pk].key, failing) else Whole)
      ensures Trimmed(old(State()), State())
      ensures OnlyRowWent(old(State()), State(), Artifacts, pk)
    {
      hide Trimmed, PointedAt, JobKeyIsDeletable, BackstopPassed;
      NothingTrimmed(State());
      if !ArtifactExpired(State(), settings, pk, now) {
        return Absent;
      }
      var row := artifacts[pk];
      if !JobKeyIsDeletable(row.key, row.job, Some(row.name)) {
        return Refused;
      }
      DeletionTrims(State(), row.key, OfArtifact(pk), FaultAt(row.key, failing));
      var ok := DeleteUnlessReferenced(row.key, OfArtifact(pk), failing);
      if !ok {
        return Failed;
      }
      artifacts := artifacts - {pk};
      return Deleted;
    }

    method ProcessPending(pk: Id, now: real, failing: set<Key>) returns (outcome: Outcome)
      modifies this
      ensures outcome == OutcomeWith(old(State()), settings, Pending, pk, now, failing)
      ensures State() == Retention.ProcessPending(old(State()), pk,
                           if pk in old(pending) then FaultAt(old(pending)[pk].key, failing) else Whole)
      ensures Trimmed(old(State()), State())
      ensures OnlyRowWent(old(State()), State(), Pending, pk) && jobs == old(jobs)
      ensures outcome == Deleted ==> pk !in pending
      ensures outcome == Failed ==> failing != {}
    {
      if pk !in pending {
        return Deleted;
      }
      var row := pending[pk];
      if !JobKeyIsDeletable(row.key, row.job, None) {
        return Refused;
      }
      DeletionTrims(State(), row.key, OfPending(pk), FaultAt(row.key, failing));
      var ok := DeleteUnlessReferenced(row.key, OfPending(pk), failing);
      if !ok {
        return Failed;
      }
      pending := pending - {pk};
      return Deleted;
    }

    method DeleteExpiredStaged(pk: Id, now: real, failing: set<Key>) returns (outcome: Outcome)
      modifies this
      ensures outcome == OutcomeWith(old(State()), settings, Staged, pk, now, failing)
      ensures State() == Retention.DeleteExpiredStaged(old(State()), pk, now,
                           if pk in old(staged) then FaultAt(old(staged)[pk].key, failing) else Whole)
      ensures Trimmed(old(State()), State())
      ensures OnlyRowWent(old(State()), State(), Staged, pk)
    {
      hide Trimmed, PointedAt, StagedKeyIsDeletable, ProfileJobExpired;
      NothingTrimmed(State());
      if !StagedCandidate(State(), pk, now) {
        return Deleted;
      }
      var row := staged[pk];
      if !StagedKeyIsDeletable(row.key, pk, row.filename) {
        return Refused;
      }
      DeletionTrims(State(), row.key, OfStaged(pk), FaultAt(row.key, failing));
      var ok := DeleteUnlessReferenced(row.key, OfStaged(pk), failing);
      if !ok {
        return Failed;
      }
      staged := staged - {pk};
      return Deleted;
    }

    /** Deletes the unregistered objects below the prefix one by one, then the record; stops at the first failure. */
    method CleanAttemptPrefix(pk: Id, failing: set<Key>) returns (outcome: Outcome)
      modifies this
      ensures outcome == OutcomeWith(old(State()), settings, Prefixes, pk, 0.0, failing)
      ensures outcome != Failed ==> State() == Retention.CleanAttemptPrefix(old(State()), pk, None)
      ensures outcome == Failed ==> exists kept :: State() == Retention.CleanAttemptPrefix(old(State()), pk, Some(kept))
      ensures Trimmed(old(State()), State())
      ensures OnlyRowWent(old(State()), State(), Prefixes, pk) && jobs == old(jobs)
      ensures outcome == Deleted && Found(old(State()), settings, Prefixes, pk, 0.0) ==> pk !in prefixes
      ensures outcome == Failed ==> failing != {}
    {
      hide Trimmed, JobKeyIsDeletable, AttemptPrefixIsDeletable, IsBelow;
      ghost var before := State();
      CleaningTrims(before, pk, None);
      if pk !in prefixes || (prefixes[pk].job in jobs && !jobs[prefixes[pk].job].terminal) {
        return Deleted;
      }
      var record := prefixes[pk];
      if !PrefixIsCleanable(State(), record) {
        return Refused;
      }
      var below := KeysBelow(State(), record.prefix);
      var keys := below;
      while keys != {}
        invariant keys <= below
        invariant objects == before.objects - (Unregistered(before, record.prefix) * (below - keys))
        invariant State() == before.(objects := objects)
        invariant Unregistered(before, record.prefix) * (below - keys) * failing == {}
      {
        var key :| key in keys;
        assert PointedAt(State(), key, None) == PointedAt(before, key, None);
        if !PointedAt(State(), key, None) {
          if key in failing {
            assert key in Unregistered(before, record.prefix) * failing;
            CleaningTrims(before, pk, Some(below - keys));
            return Failed;
          }
          objects := objects - {key};
        }
        keys := keys - {key};
      }
      assert Unregistered(before, record.prefix) * below == Unregistered(before, record.prefix);
      prefixes := prefixes - {pk};
      return Deleted;
    }

    method DropExpiredJob(id: Id, now: real) returns (outcome: Outcome)
      modifies `jobs
      ensures outcome == OutcomeOf(old(State()), settings, Jobs, id, now)
      ensures jobs == if JobExpired(old(State()), settings, id, now) then old(jobs) - {id} else old(jobs)
      ensures Trimmed(old(State()), State())
      ensures OnlyRowWent(old(State()), State(), Jobs, id)
    {
      if !JobExpired(State(), settings, id, now) {
        return Absent;
      }
      jobs := jobs - {id};
      return Deleted;
    }

    /** One row of a phase. */
    method DeleteOne(phase: Phase, pk: Id, now: real, failing: set<Key>) returns (outcome: Outcome)
      modifies this
      ensures failing == {} ==> outcome == OutcomeOf(old(State()), settings, phase, pk, now)
      ensures failing == {} ==> State() == DeleteRow(old(State()), settings, phase, pk, now)
      ensures Trimmed(old(State()), State())
      ensures OnlyRowWent(old(State()), State(), phase, pk)
      ensures outcome == OutcomeWith(old(State()), settings, phase, pk, now, failing)
    {
      hide Trimmed;
      match phase
      case Artifacts => outcome := PruneArtifact(pk, now, failing);
      case Pending => outcome := ProcessPending(pk, now, failing);
      case Prefixes => outcome := CleanAttemptPrefix(pk, failing);
      case Staged => outcome := DeleteExpiredStaged(pk, now, failing);
      case Jobs => outcome := DropExpiredJob(pk, now);
    }

    /** The rows of one batch, each reported by its outcome. */
    method RunBatch(phase: Phase, pks: seq<Id>, now: real, failing: set<Key>)
      returns (deleted: seq<Id>, refused: seq<Id>, failed: seq<Id>)
      modifies this
      ensures failing == {} ==> State() == Sweep(old(State()), settings, phase, pks, now)
      ensures failing == {} ==> deleted == Swept(old(State()), settings, phase, pks, now, Deleted)
      ensures failing == {} ==> refused == Swept(old(State()), settings, phase, pks, now, Refused)
      ensures failing == {} ==> failed == []
      ensures Trimmed(old(State()), State())
      ensures OnlyTheseWent(old(State()), State(), phase, Ids(pks))
    {
      hide Trimmed, DeleteRow, Found, Allowed, RemovesOnlyUnreferenced;
      ghost var before := State();
      NothingTrimmed(before);
      deleted, refused, failed := [], [], [];
      for i := 0 to |pks|
        invariant failing == {} ==> State() == Sweep(before, settings, phase, pks[..i], now)
        invariant failing == {} ==> deleted == Swept(before, settings, phase, pks[..i], now, Deleted)
        invariant failing == {} ==> refused == Swept(before, settings, phase, pks[..i], now, Refused)
        invariant failing == {} ==> failed == []
        invariant Trimmed(before, State())
        invariant OnlyTheseWent(before, State(), phase, Ids(pks))
      {
        assert pks[..i + 1][..i] == pks[..i];
        ghost var mid := State();
        var outcome := DeleteOne(phase, pks[i], now, failing);
        OneMoreWent(before, mid, State(), phase, pks, i);
        assert failing == {} ==> outcome != Failed;
        TrimmedTwice(before, mid, State());
        match outcome
        case Deleted => deleted := deleted + [pks[i]];
        case Refused => refused := refused + [pks[i]];
        case Failed => failed := failed + [pks[i]];
        case Absent =>
      }
      assert pks[..|pks|] == pks;
    }

    /** One phase of the real run. */
    method RunPhase(phase: Phase, now: real, cursor: Cursor, size: nat, failing: set<Key>) returns (report: Report)
      requires size >= 1
      modifies this
      ensures failing == {} ==> report == RealReport(old(State()), settings, phase, now, cursor, size)
      ensures failing == {} ==> State() == RealDb(old(State()), settings, phase, now, cursor, size)
      ensures Trimmed(old(State()), State())
      ensures OnlyTheseWent(old(State()), State(), phase, Candidates(old(State()), settings, phase, now))
    {
      BatchIsOfTable(State(), settings, phase, now, cursor, size);
      var (pks, next) := Batch(Candidates(State(), settings, phase, now), cursor, size);
      var deleted, refused, failed := RunBatch(phase, pks, now, failing);
      return Report(deleted, refused, failed, next);
    }

    /** One phase of the dry run. */
    method PredictPhase(phase: Phase, now: real, cursor: Cursor, size: nat) returns (report: Report)
      requires size >= 1
      ensures report == DryReport(State(), settings, phase, now, cursor, size)
    {
      BatchIsOfTable(State(), settings, phase, now, cursor, size);
      var (pks, next) := Batch(Candidates(State(), settings, phase, now), cursor, size);
      var deleted, refused: seq<Id> := [], [];
      for i := 0 to |pks|
        invariant deleted == Predicted(State(), phase, pks[..i], true)
        invariant refused == Predicted(State(), phase, pks[..i], false)
      {
        assert pks[..i + 1][..i] == pks[..i];
        if Allowed(State(), phase, pks[i]) {
          deleted := deleted + [pks[i]];
        } else {
          refused := refused + [pks[i]];
        }
      }
      assert pks[..|pks|] == pks;
      return Report(deleted, refused, [], next);
    }

    /** The phases of the real run. */
    method RunPhases(now: real, c: Cursors, size: nat, failing: set<Key>) returns (run: RunReport)
      requires size >= 1
      modifies this
      ensures failing == {} ==> run == RealRun(old(State()), settings, now, c, size)
      ensures failing == {} ==> State() == AfterRun(old(State()), settings, now, c, size)
      ensures Trimmed(old(State()), State())
      ensures OnlyDueWent(old(State()), State(), settings, now)
    {
      ghost var before := State();
      NothingTrimmed(before);
      NothingTaken(before, settings, now);
      hide RealReport, RealDb, Trimmed, Batch, OnlyDueWent, OnlyTheseWent, Candidates;
      var artifacts := RunPhase(Artifacts, now, c.artifacts, size, failing);
      ghost var s1 := State();
      PhaseTrimsDue(before, before, s1, settings, Artifacts, now);
      var pending := RunPhase(Pending, now, c.pending, size, failing);
      ghost var s2 := State();
      PhaseTrimsDue(before, s1, s2, settings, Pending, now);
      var prefixes := RunPhase(Prefixes, now, c.prefixes, size, failing);
      ghost var s3 := State();
      PhaseTrimsDue(before, s2, s3, settings, Prefixes, now);
      var staged := RunPhase(Staged, now, c.staged, size, failing);
      ghost var s4 := State();
      PhaseTrimsDue(before, s3, s4, settings, Staged, now);
      var jobs := RunPhase(Jobs, now, c.jobs, size, failing);
      PhaseTrimsDue(before, s4, State(), settings, Jobs, now);
      return RunReport(artifacts, pending, prefixes, staged, jobs);
    }

    /**
      The whole run; no batch of size 0. A dry run changes nothing, and on the generated
      layouts it reports what the real run without failures reports.
     */
    method PruneJobArtifacts(now: real, dryRun: bool, size: nat, c: Cursors,
        failing: set<Key>) returns (result: Option<RunReport>)
      modifies this
      ensures result.None? <==> size == 0
      ensures size == 0 || dryRun ==> State() == old(State())
      ensures size >= 1 && dryRun ==> result == Some(DryRun(old(State()), settings, now, c, size))
      ensures size >= 1 && !dryRun && failing == {} ==> result == Some(RealRun(old(State()), settings, now, c, size))
      ensures size >= 1 && !dryRun && failing == {} ==> State() == AfterRun(old(State()), settings, now, c, size)
      ensures size >= 1 && failing == {} && RetentionSafety.Layout(old(State()), settings.base)
              ==> result == Some(DryRun(old(State()), settings, now, c, size))
      ensures Trimmed(old(State()), State())
      ensures OnlyDueWent(old(State()), State(), settings, now)
    {
      hide RealReport, RealDb, DryReport, Trimmed, Batch, JobsWithout, AfterRun, RealRun, OnlyDueWent,
        RetentionSafety.Layout, RetentionPrune.Left;
      NothingTrimmed(State());
      NothingTaken(State(), settings, now);
      if size == 0 {
        return None;
      }
      ghost var before := State();
      if RetentionSafety.Layout(before, settings.base) {
        DryRunPredictsRealRun(before, settings, now, c, size);
      }
      if dryRun {
        var artifacts := PredictPhase(Artifacts, now, c.artifacts, size);
        var pending := PredictPhase(Pending, now, c.pending, size);
        var prefixes := PredictPhase(Prefixes, now, c.prefixes, size);
        var staged := PredictPhase(Staged, now, c.staged, size);
        var open := JobsWithout(State(), settings, now, Ids(artifacts.deleted), Ids(pending.deleted),
          Ids(prefixes.deleted), Ids(staged.deleted));
        var (jobs, next) := Batch(open, c.jobs, size);
        return Some(RunReport(artifacts, pending, prefixes, staged, Report(jobs, [], [], next)));
      }
      var run := RunPhases(now, c, size, failing);
      return Some(run);
    }

    method DeleteJobArtifact(pk: Id, failing: set<Key>) returns (outcome: Outcome)
      modifies this
      ensures State() == Retention.DeleteJobArtifact(old(State()), pk,
                           if pk in old(artifacts) then FaultAt(old(artifacts)[pk].key, failing) else Whole)
      ensures outcome == Deleted ==> pk !in artifacts
      ensures outcome == Refused <==> pk in old(artifacts) && !Allowed(old(State()), Artifacts, pk)
      ensures outcome == Failed ==> failing != {}
      ensures Trimmed(old(State()), State()) && outcome != Absent
      ensures OnlyRowWent(old(State()), State(), Artifacts, pk) && jobs == old(jobs)
    {
      if pk !in artifacts {
        return Deleted;
      }
      var row := artifacts[pk];
      if !JobKeyIsDeletable(row.key, row.job, Some(row.name)) {
        return Refused;
      }
      DeletionTrims(State(), row.key, OfArtifact(pk), FaultAt(row.key, failing));
      var ok := DeleteUnlessReferenced(row.key, OfArtifact(pk), failing);
      if !ok {
        return Failed;
      }
      artifacts := artifacts - {pk};
      return Deleted;
    }

    method DeleteClaimedStaged(pk: Id, job: Id, failing: set<Key>) returns (outcome: Outcome)
      modifies this
      ensures State() == Retention.DeleteClaimedStaged(old(State()), pk, job,
                           if pk in old(staged) then FaultAt(old(staged)[pk].key, failing) else Whole)
      ensures outcome == Deleted && IsOwned(old(State()), Staged, pk, job) ==> pk !in staged
      ensures outcome == Refused <==> IsOwned(old(State()), Staged, pk, job) && !Allowed(old(State()), Staged, pk)
      ensures outcome == Failed ==> failing != {}
      ensures Trimmed(old(State()), State()) && outcome != Absent
      ensures OnlyRowWent(old(State()), State(), Staged, pk) && jobs == old(jobs)
    {
      if !(pk in staged && staged[pk].claimedBy == Some(job)) {
        return Deleted;
      }
      var row := staged[pk];
      if !StagedKeyIsDeletable(row.key, pk, row.filename) {
        return Refused;
      }
      DeletionTrims(State(), row.key, OfStaged(pk), FaultAt(row.key, failing));
      var ok := DeleteUnlessReferenced(row.key, OfStaged(pk), failing);
      if !ok {
        return Failed;
      }
      staged := staged - {pk};
      return Deleted;
    }

    /** One row of a finished job. */
    method DeleteOwned(phase: Phase, pk: Id, job: Id, failing: set<Key>) returns (ok: bool)
      requires phase != Jobs && IsOwned(State(), phase, pk, job)
      requires job in jobs && jobs[job].terminal
      modifies this
      ensures ok ==> pk !in KeysOf(State(), phase)
      ensures failing == {} && Allowed(old(State()), phase, pk) ==> ok
      ensures OnlyOwnedWent(old(State()), State(), job) && jobs == old(jobs)
      ensures OnlyRowWent(old(State()), State(), phase, pk)
    {
      hide Trimmed, Blocked, Retention.DeleteJobArtifact, Retention.ProcessPending, Retention.CleanAttemptPrefix,
        Retention.DeleteClaimedStaged;
      hide JobKeyIsDeletable, StagedKeyIsDeletable, PrefixIsCleanable;
      var outcome;
      match phase {
        case Artifacts => outcome := DeleteJobArtifact(pk, failing);
        case Pending => outcome := ProcessPending(pk, 0.0, failing);
        case Prefixes => outcome := CleanAttemptPrefix(pk, failing);
        case Staged => outcome := DeleteClaimedStaged(pk, job, failing);
      }
      return outcome == Deleted;
    }

    /** The rows of a finished job, one by one; the queue goes on after a failure, the rest stops. */
    method DeleteOwnedRows(phase: Phase, job: Id, failing: set<Key>) returns (ok: bool)
      requires phase != Jobs && job in jobs && jobs[job].terminal
      modifies this
      ensures ok ==> Owned(State(), phase, job) == {}
      ensures failing == {} && AllAllowed(old(State()), phase, job) ==> ok
      ensures OnlyOwnedWent(old(State()), State(), job) && jobs == old(jobs)
    {
      ghost var before := State();
      var pks := InOrder(Owned(State(), phase, job));
      OwnedRowsListed(before, phase, job);
      ok := true;
      hide Trimmed, IsOwned, Allowed, InOrder, KeysOf, OnlyOwnedWent, Owned;
      for i := 0 to |pks|
        invariant OnlyOwnedWent(before, State(), job) && jobs == old(jobs)
        invariant ok ==> forall k | 0 <= k < i :: pks[k] !in KeysOf(State(), phase)
        invariant forall k | i <= k < |pks| :: pks[k] in KeysOf(State(), phase)
        invariant failing == {} && AllAllowed(before, phase, job) ==> ok
      {
        ghost var mid := State();
        StillOwned(before, mid, phase, pks[i], job);
        var one := DeleteOwned(phase, pks[i], job, failing);
        OnlyOwnedWentTwice(before, mid, State(), job);
        RowsDoNotReturn(mid, State(), phase, job);
        ok := ok && one;
        if !one && phase != Pending {
          return;
        }
      }
      if ok {
        assert Owned(before, phase, job) !! KeysOf(State(), phase);
        NothingOwnedLeft(before, State(), phase, job);
      }
    }

    /** Artifacts, queue, prefixes and uploads of a finished job, in this order. */
    method DeleteEverythingOwned(job: Id, failing: set<Key>) returns (ok: bool)
      requires job in jobs && jobs[job].terminal
      modifies this
      ensures ok ==> forall phase: Phase | phase != Jobs :: Owned(State(), phase, job) == {}
      ensures failing == {} && (forall phase: Phase | phase != Jobs :: AllAllowed(old(State()), phase, job)) ==> ok
      ensures OnlyOwnedWent(old(State()), State(), job) && jobs == old(jobs)
    {
      hide *;
      ghost var before := State();
      ok := DeleteOwnedRows(Artifacts, job, failing);
      ghost var s1 := State();
      if !ok {
        return;
      }
      StillAllAllowed(before, s1, job);
      ok := DeleteOwnedRows(Pending, job, failing);
      ghost var s2 := State();
      OnlyOwnedWentTwice(before, s1, s2, job);
      if !ok {
        return;
      }
      StillAllAllowed(before, s2, job);
      NothingOwnedReturns(s1, s2, Artifacts, job);
      ok := DeleteOwnedRows(Prefixes, job, failing);
      ghost var s3 := State();
      OnlyOwnedWentTwice(before, s2, s3, job);
      if !ok {
        return;
      }
      StillAllAllowed(before, s3, job);
      NothingOwnedReturns(s2, s3, Artifacts, job);
      NothingOwnedReturns(s2, s3, Pending, job);
      ok := DeleteOwnedRows(Staged, job, failing);
      OnlyOwnedWentTwice(before, s3, State(), job);
      if ok {
        NothingOwnedReturns(s3, State(), Artifacts, job);
        NothingOwnedReturns(s3, State(), Pending, job);
        NothingOwnedReturns(s3, State(), Prefixes, job);
      }
    }

    /**
      Deletes a finished job with everything it owns. Refused as a whole before anything
      is deleted, or interrupted with the rest left for the next call; without failures
      in the store, and with nothing refused in the queue, it completes.
     */
    method DeleteJobForProducer(job: Id, failing: set<Key>) returns (result: Deletion)
      modifies this
      ensures result == Missing <==> job !in old(jobs)
      ensures result == NotDeletable <==>
                job in old(jobs) && !(old(jobs)[job].backstop.Some? && old(jobs)[job].terminal)
      ensures result == RefusedUpFront <==>
          job in old(jobs) && MayBeDeleted(old(jobs)[job]) && !PassesUpFront(old(State()), job)
      ensures result.Missing? || result.NotDeletable? || result.RefusedUpFront? ==> State() == old(State())
      ensures result == Done ==> job !in jobs && JobIsOwnerless(State(), job)
      ensures result == Interrupted ==> failing != {} || !AllAllowed(old(State()), Pending, job)
      ensures result == Interrupted ==> jobs == old(jobs)
      ensures OnlyOwnedWent(old(State()), State(), job)
    {
      ghost var before := State();
      OwnedRowsListed(before, Artifacts, job);
      if job !in jobs {
        return Missing;
      }
      if !MayBeDeleted(jobs[job]) {
        return NotDeletable;
      }
      if !PassesUpFront(State(), job) {
        return RefusedUpFront;
      }
      hide AllAllowed, OnlyOwnedWent, Owned, JobIsOwnerless, Trimmed, KeysOf, Allowed;
      var ok := DeleteEverythingOwned(job, failing);
      if !ok {
        return Interrupted;
      }
      ghost var empty := State();
      OwnerlessIsNothingOwned(empty, job);
      jobs := jobs - {job};
      JobRowWent(empty, job);
      OnlyOwnedWentTwice(before, empty, State(), job);
      return Done;
    }

    /** Queues the key and tries to delete it at once; what cannot go now stays queued. */
    method QueueAndDelete(job: Id, key: Key, pendingPk: Id, failing: set<Key>)
      requires pendingPk !in pending
      modifies this
      ensures artifacts == old(artifacts) && staged == old(staged) && prefixes == old(prefixes) && jobs == old(jobs)
      ensures pending == old(pending) || pending == old(pending)[pendingPk := PendingRow(job, key)]
      ensures objects == old(objects) || (objects == old(objects) - {key} && !PointedAt(State(), key, None))
      ensures NotOrphaned(State(), key)
    {
      if key in failing {
        QueuedOrDeleted(State(), pendingPk, job, key, StoreFails);
      } else {
        QueuedOrDeleted(State(), pendingPk, job, key, Whole);
      }
      hide *;
      pending := pending[pendingPk := PendingRow(job, key)];
      var _ := ProcessPending(pendingPk, 0.0, failing);
    }

    /**
      Publishes an artifact under a new key: the object first, then the row in place of
      the one of the same name, whose object is deleted last. When storing fails or the
      job is no longer this task's, the new object is deleted instead. Neither way an
      object is left that no row and no queue entry names.
     */
    method ReplaceArtifact(row: ArtifactRow, newPk: Id, pendingPk: Id, put: Put, owned: bool,
        failing: set<Key>) returns (published: bool)
      requires newPk !in artifacts && pendingPk !in pending
      modifies this
      ensures published == (put.Stored? && owned)
      ensures !published ==> artifacts == old(artifacts)
      ensures published && !HasRow(old(State()), row) ==>
          artifacts == old(artifacts)[newPk := row] && pending == old(pending)
      ensures published && HasRow(old(State()), row) ==>
        exists pk | RetentionSafety.IsRowOf(old(State()), pk, row.job, row.name) ::
          artifacts == old(artifacts)[pk := row] && NotOrphaned(State(), old(artifacts)[pk].key)
      ensures NotOrphaned(State(), row.key)
      ensures published ==> row.key in objects
      ensures RemovesOnlyUnreferenced(old(State()), State(), None)
    {
      ghost var before := State();
      hide JobKeyIsDeletable, Trimmed;
      if !put.NotStored? {
        objects := objects + {row.key};
      }
      if !put.Stored? || !owned {
        QueueAndDelete(row.job, row.key, pendingPk, failing);
        return false;
      }
      if !HasRow(State(), row) {
        artifacts := artifacts[newPk := row];
        assert artifacts[newPk].key == row.key && PointedAt(State(), row.key, None);
        return true;
      }
      var pk :| pk in artifacts && RetentionSafety.IsRowOf(State(), pk, row.job, row.name);
      var replaced := artifacts[pk].key;
      artifacts := artifacts[pk := row];
      assert artifacts[pk].key == row.key;
      assert PointedAt(State(), row.key, None);
      QueueAndDelete(row.job, replaced, pendingPk, failing);
      assert artifacts[pk].key == row.key && PointedAt(State(), row.key, None);
      return true;
    }
  }
}
