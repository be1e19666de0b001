/**
  Every interleaving of publishing, completing, staging, pruning, queue draining,
  prefix cleaning and producer deletion (jobs/services.py, jobs/remote_workers.py,
  jobs/staging.py, jobs/retention.py): no row is left without its object, except
  the row of a deletion step that was cut and uploads that never finished.
 */
module RetentionSafety {
  import opened Wrappers
  import opened Retention
  import Decimal

  /**
    What is known beside the tables: identifiers used so far, objects written but not
    yet published, objects a completion has verified, rows whose own deletion was
    cut, and uploads whose object is not stored yet.
   */
  datatype Aux = Aux(
    usedJobs: set<Id>, usedUploads: set<Id>, usedAllocations: set<Key>,
    inFlight: set<Key>, verified: map<Id, set<Key>>,
    cut: set<Row>, unfinished: set<Id>)

  datatype World = World(db: Db, aux: Aux)

  // -- Generated keys --------------------------------------------------------------------

  function JobRoot(base: Key, job: Id): Key { base + ["jobs", IdText(job)] }

  function AttemptRoot(base: Key, job: Id, attempt: nat): Key { JobRoot(base, job) + [AttemptDirectory(attempt)] }

  function UploadKey(base: Key, id: Id, filename: string): Key {
    base + ["staged-inputs", IdText(id), FileName(filename)]
  }

  predicate IsAllocationKey(base: Key, key: Key, job: Id) {
    JobRoot(base, job) <= key && |key| == |base| + 4 && IsAllocationDirectory(key[|base| + 2])
  }

  predicate UnderJob(base: Key, key: Key, job: Id) {
    IsBelow(key, JobRoot(base, job))
  }

  lemma IdTextIsInjective(a: Id, b: Id)
    requires IdText(a) == IdText(b)
    ensures a == b
  {
    Decimal.ReadOfPrint(a);
    Decimal.ReadOfPrint(b);
  }

  /** A key lies in the directory of one job at most. */
  lemma JobRootsAreDisjoint(base: Key, key: Key, a: Id, b: Id)
    requires UnderJob(base, key, a) && UnderJob(base, key, b)
    ensures a == b
  {
    assert JobRoot(base, a)[|base| + 1] == IdText(a) && JobRoot(base, b)[|base| + 1] == IdText(b);
    IdTextIsInjective(a, b);
  }

  lemma UploadsAreNotJobKeys(base: Key, id: Id, filename: string, job: Id)
    ensures !UnderJob(base, UploadKey(base, id, filename), job)
  {
    assert UploadKey(base, id, filename)[|base|] == "staged-inputs";
    assert JobRoot(base, job)[|base|] == "jobs";
  }

  lemma UploadKeysArePrivate(base: Key, a: Id, fa: string, b: Id, fb: string)
    requires UploadKey(base, a, fa) == UploadKey(base, b, fb)
    ensures a == b
  {
    assert UploadKey(base, a, fa)[|base| + 1] == IdText(a);
    assert UploadKey(base, b, fb)[|base| + 1] == IdText(b);
    IdTextIsInjective(a, b);
  }

  lemma AllocationsAreNotInAttempts(base: Key, key: Key, job: Id, other: Id, attempt: nat)
    requires IsAllocationKey(base, key, job)
    ensures !IsBelow(key, AttemptRoot(base, other, attempt))
    ensures UnderJob(base, key, job)
  {
    var d := AttemptDirectory(attempt);
    assert d[1] == 't' && key[|base| + 2][1] == "allocation-"[1] == 'l';
    assert AttemptRoot(base, other, attempt)[|base| + 2] == d;
  }

  lemma AttemptsAreUnderTheirJob(base: Key, key: Key, job: Id, attempt: nat)
    requires IsBelow(key, AttemptRoot(base, job, attempt))
    ensures UnderJob(base, key, job)
  {
    assert JobRoot(base, job) <= AttemptRoot(base, job, attempt);
  }

  // -- The invariant --------------------------------------------------------------------------

  predicate ActiveRemote(db: Db, job: Id) {
    job in db.jobs && db.jobs[job].remote && !db.jobs[job].terminal
  }

  /** Every row keeps to the generated layout of its job or upload. */
  ghost predicate Layout(db: Db, base: Key) {
    && (forall pk | pk in db.artifacts ::
      UnderJob(base, db.artifacts[pk].key, db.artifacts[pk].job) && db.artifacts[pk].job in db.jobs)
    && (forall pk | pk in db.pending :: UnderJob(base, db.pending[pk].key, db.pending[pk].job))
    && (forall pk | pk in db.prefixes ::
      db.prefixes[pk].prefix == AttemptRoot(base, db.prefixes[pk].job, db.prefixes[pk].attempt))
    && (forall pk | pk in db.staged :: db.staged[pk].key == UploadKey(base, pk, db.staged[pk].filename))
  }

  ghost predicate IdsAreUsed(w: World) {
    && (forall id | id in w.db.jobs :: id in w.aux.usedJobs)
    && (forall pk | pk in w.db.pending :: w.db.pending[pk].job in w.aux.usedJobs)
    && (forall pk | pk in w.db.staged :: pk in w.aux.usedUploads)
    && (forall key | key in w.aux.inFlight :: key in w.aux.usedAllocations)
    && (forall id | id in w.aux.verified :: id in w.aux.usedJobs)
  }

  /** A remote job owns no artifact and no queued deletion until it is finished. */
  ghost predicate RemoteJobsStartEmpty(db: Db) {
    && (forall pk | pk in db.artifacts :: !ActiveRemote(db, db.artifacts[pk].job))
    && (forall pk | pk in db.pending :: !ActiveRemote(db, db.pending[pk].job))
  }

  /** Objects on their way to publication are stored and nobody else's. */
  ghost predicate InFlightIsSafe(w: World, base: Key) {
    forall key | key in w.aux.inFlight ::
      && key in w.db.objects
      && (exists job :: IsAllocationKey(base, key, job))
      && !PointedAt(w.db, key, None)
      && forall pk | pk in w.db.pending :: w.db.pending[pk].key != key
  }

  /** What a completion verified stays stored while the job waits for the completion. */
  ghost predicate VerifiedIsSafe(w: World, base: Key) {
    forall id | id in w.aux.verified && ActiveRemote(w.db, id) :: ReadyToComplete(w.db, base, id, w.aux.verified[id])
  }

  /** The keys are stored below the job's current attempt. */
  ghost predicate ReadyToComplete(db: Db, base: Key, id: Id, keys: set<Key>) {
    id in db.jobs && keys <= db.objects &&
    forall key | key in keys :: IsBelow(key, AttemptRoot(base, id, db.jobs[id].attempt))
  }

  /** The rows without an object are the cut ones and the unfinished uploads. */
  ghost predicate OnlyCutRowsDangle(w: World) {
    && (forall pk | pk in w.db.artifacts :: w.db.artifacts[pk].key in w.db.objects || OfArtifact(pk) in w.aux.cut)
    && (forall pk | pk in w.db.staged ::
      w.db.staged[pk].key in w.db.objects || OfStaged(pk) in w.aux.cut || pk in w.aux.unfinished)
  }

  ghost predicate Inv(w: World, base: Key) {
    && Layout(w.db, base) && IdsAreUsed(w) && RemoteJobsStartEmpty(w.db)
    && InFlightIsSafe(w, base) && VerifiedIsSafe(w, base) && OnlyCutRowsDangle(w)
  }

  // -- Events -------------------------------------------------------------------------------------

  datatype Event =
    // jobs
    | Submit(job: Id, submitted: JobRow)
    | ClaimAttempt(job: Id, recordPk: Id)
    | FinishJob(job: Id, now: real)
    | DeleteJob(job: Id)
    // remote completions
    | WorkerPut(job: Id, attempt: nat, rest: Key)
    | Verify(job: Id, keys: set<Key>)
    | Complete(job: Id, rows: map<Id, ArtifactRow>, now: real)
    // local publication
    | PutAllocation(job: Id, key: Key)
    | Swap(job: Id, row: ArtifactRow, pk: Id, pendingPk: Id)
    | Abandon(job: Id, key: Key, pendingPk: Id)
    | PublisherDies(key: Key)
    // staged uploads
    | RegisterUpload(pk: Id, filename: string, expires: real)
    | PutUpload(pk: Id, filename: string)
    | FinishUpload(pk: Id, expires: real)
    | KeepForRetry(pk: Id, filename: string, expires: real)
    | DiscardUpload(pk: Id, filename: string, fault: Fault)
    | ClaimUpload(pk: Id, job: Id)
    | ReleaseUploads(job: Id)
    // deletions
    | Prune(pk: Id, now: real, fault: Fault)
    | DeleteArtifact(pk: Id, fault: Fault)
    | Drain(pk: Id, fault: Fault)
    | CleanPrefix(pk: Id, stopped: Option<set<Key>>)
    | ExpireStaged(pk: Id, now: real, fault: Fault)
    | DropClaimedStaged(pk: Id, job: Id, fault: Fault)
    | DropStaged(pk: Id, fault: Fault)

  /** The artifact row of a job under one name; names are unique per job. */
  predicate IsRowOf(db: Db, pk: Id, job: Id, name: string) {
    pk in db.artifacts && db.artifacts[pk].job == job && db.artifacts[pk].name == name
  }

  /** The key of a row that was replaced goes to the deletion queue. */
  function SwapDb(db: Db, row: ArtifactRow, pk: Id, pendingPk: Id): Db {
    var queued := if pk in db.artifacts then db.pending[pendingPk := PendingRow(row.job, db.artifacts[pk].key)]
      else db.pending;
    db.(artifacts := db.artifacts[pk := row], pending := queued)
  }

  function SetTerminal(jobs: map<Id, JobRow>, job: Id, now: real): map<Id, JobRow>
    requires job in jobs
  {
    jobs[job := jobs[job].(terminal := true, finishedAt := Some(now), updatedAt := now)]
  }

  /** May the event happen in this world? Fresh identifiers are fresh, guards hold. */
  ghost predicate Enabled(w: World, base: Key, e: Event) {
    var db, aux := w.db, w.aux;
    match e
    case Submit(job, submitted) => job !in aux.usedJobs && !submitted.terminal && submitted.attempt == 0
    case ClaimAttempt(job, recordPk) => ActiveRemote(db, job) && recordPk !in db.prefixes
    case FinishJob(job, now) => job in db.jobs && !db.jobs[job].terminal
    case WorkerPut(job, attempt, rest) => rest != []
    case Verify(job, keys) =>
      ActiveRemote(db, job) && ReadyToComplete(db, base, job, keys)
    case Complete(job, rows, now) =>
      ActiveRemote(db, job) && job in aux.verified &&
      forall pk | pk in rows :: pk !in db.artifacts && rows[pk].job == job && rows[pk].key in aux.verified[job]
    case PutAllocation(job, key) => IsAllocationKey(base, key, job) && key !in aux.usedAllocations
                                    && !PointedAt(db, key, None) && job in aux.usedJobs
                                    && (forall pk | pk in db.pending :: db.pending[pk].key != key)
    case Swap(job, row, pk, pendingPk) =>
      && job in db.jobs && !db.jobs[job].remote && !db.jobs[job].terminal
      && row.job == job && row.key in aux.inFlight && IsAllocationKey(base, row.key, job)
      && pendingPk !in db.pending && (pk !in db.artifacts || IsRowOf(db, pk, job, row.name))
    case Abandon(job, key, pendingPk) =>
      job in aux.usedJobs && !ActiveRemote(db, job) && IsAllocationKey(base, key, job) && pendingPk !in db.pending
    case PublisherDies(key) => key in aux.inFlight
    case RegisterUpload(pk, filename, expires) => pk !in aux.usedUploads
    case PutUpload(pk, filename) => pk in aux.usedUploads && (pk in db.staged ==> db.staged[pk].filename == filename)
    case KeepForRetry(pk, filename, expires) => pk in aux.usedUploads &&
      (pk in db.staged ==> db.staged[pk].filename == filename)
    case DiscardUpload(pk, filename, fault) => pk in aux.usedUploads &&
      (pk in db.staged ==> db.staged[pk].filename == filename)
    case ClaimUpload(pk, job) => pk in db.staged && db.staged[pk].claimedBy.None? && job in db.jobs
    case DeleteArtifact(pk, _) => pk in db.artifacts && db.artifacts[pk].job in db.jobs &&
      db.jobs[db.artifacts[pk].job].terminal
    case _ => true
  }

  function CutIf(aux: Aux, fault: Fault, row: Row): Aux {
    if fault.CutAfterObject? then aux.(cut := aux.cut + {row}) else aux
  }

  function StepDb(db: Db, s: Settings, e: Event): Db {
    match e
    case Submit(job, submitted) => db.(jobs := db.jobs[job := submitted])
    case ClaimAttempt(job, recordPk) =>
      if job !in db.jobs then db
      else
        var row := db.jobs[job].(attempt := db.jobs[job].attempt + 1);
        var records := if row.backstop.Some?
          then db.prefixes[recordPk := PrefixRow(job, row.attempt, AttemptRoot(s.base, job, row.attempt))]
            else db.prefixes;
        db.(jobs := db.jobs[job := row], prefixes := records)
    case FinishJob(job, now) => if job in db.jobs then db.(jobs := SetTerminal(db.jobs, job, now)) else db
    case DeleteJob(job) => DropJob(db, job)
    case WorkerPut(job, attempt, rest) => db.(objects := db.objects + {AttemptRoot(s.base, job, attempt) + rest})
    case Verify(_, _) => db
    case Complete(job, rows, now) =>
      if job in db.jobs then
        var kept := map pk | pk in db.artifacts && db.artifacts[pk].job != job :: db.artifacts[pk];
        db.(artifacts := kept + rows, jobs := SetTerminal(db.jobs, job, now))
      else db
    case PutAllocation(_, key) => db.(objects := db.objects + {key})
    case Swap(_, row, pk, pendingPk) => SwapDb(db, row, pk, pendingPk)
    case Abandon(job, key, pendingPk) => db.(pending := db.pending[pendingPk := PendingRow(job, key)])
    case PublisherDies(_) => db
    case RegisterUpload(pk, filename, expires) =>
      db.(staged := db.staged[pk := StagedRow(filename, UploadKey(s.base, pk, filename), None, expires)])
    case PutUpload(pk, filename) => db.(objects := db.objects + {UploadKey(s.base, pk, filename)})
    case FinishUpload(pk, expires) => if pk in db.staged
      then db.(staged := db.staged[pk := db.staged[pk].(expires := expires)]) else db
    case KeepForRetry(pk, filename, expires) =>
      db.(staged := db.staged[pk := StagedRow(filename, UploadKey(s.base, pk, filename), None, expires)])
    case DiscardUpload(pk, filename, fault) => DeleteUnchecked(db, UploadKey(s.base, pk, filename), OfStaged(pk), fault)
    case ClaimUpload(pk, job) => if pk in db.staged
      then db.(staged := db.staged[pk := db.staged[pk].(claimedBy := Some(job))]) else db
    case ReleaseUploads(job) => db.(staged := ReleaseClaims(db.staged, job))
    case Prune(pk, now, fault) => PruneArtifact(db, s, pk, now, fault)
    case DeleteArtifact(pk, fault) => DeleteJobArtifact(db, pk, fault)
    case Drain(pk, fault) => ProcessPending(db, pk, fault)
    case CleanPrefix(pk, stopped) => CleanAttemptPrefix(db, pk, stopped)
    case ExpireStaged(pk, now, fault) => DeleteExpiredStaged(db, pk, now, fault)
    case DropClaimedStaged(pk, job, fault) => DeleteClaimedStaged(db, pk, job, fault)
    case DropStaged(pk, fault) => DeleteStaged(db, pk, fault)
  }

  function StepAux(w: World, e: Event): Aux {
    var aux := w.aux;
    match e
    case Submit(job, _) => aux.(usedJobs := aux.usedJobs + {job})
    case ClaimAttempt(job, _) => aux.(verified := aux.verified - {job})
    case Verify(job, keys) => aux.(verified := aux.verified[job := keys])
    case PutAllocation(_, key) => aux.(inFlight := aux.inFlight + {key}, usedAllocations := aux.usedAllocations + {key})
    case Swap(_, row, _, _) => aux.(inFlight := aux.inFlight - {row.key})
    case Abandon(_, key, _) => aux.(inFlight := aux.inFlight - {key})
    case PublisherDies(key) => aux.(inFlight := aux.inFlight - {key})
    case RegisterUpload(pk, _, _) => aux.(usedUploads := aux.usedUploads + {pk}, unfinished := aux.unfinished + {pk})
    case PutUpload(pk, _) => aux.(unfinished := aux.unfinished - {pk})
    case KeepForRetry(pk, _, _) => aux.(unfinished := aux.unfinished + {pk})
    case DiscardUpload(pk, _, fault) => CutIf(aux, fault, OfStaged(pk))
    case Prune(pk, _, fault) => CutIf(aux, fault, OfArtifact(pk))
    case DeleteArtifact(pk, fault) => CutIf(aux, fault, OfArtifact(pk))
    case ExpireStaged(pk, _, fault) => CutIf(aux, fault, OfStaged(pk))
    case DropClaimedStaged(pk, _, fault) => CutIf(aux, fault, OfStaged(pk))
    case DropStaged(pk, fault) => CutIf(aux, fault, OfStaged(pk))
    case _ => aux
  }

  function Step(w: World, s: Settings, e: Event): World {
    World(StepDb(w.db, s, e), StepAux(w, e))
  }

  // -- Deletions keep the invariant --------------------------------------------------------------

  /** `after` has lost the objects `gone` and perhaps some rows. */
  ghost predicate Shrinks(before: Db, after: Db, gone: set<Key>) {
    && after.objects == before.objects - gone && after.jobs == before.jobs
    && (forall pk | pk in after.artifacts :: pk in before.artifacts && after.artifacts[pk] == before.artifacts[pk])
    && (forall pk | pk in after.staged :: pk in before.staged && after.staged[pk] == before.staged[pk])
    && (forall pk | pk in after.pending :: pk in before.pending && after.pending[pk] == before.pending[pk])
    && (forall pk | pk in after.prefixes :: pk in before.prefixes && after.prefixes[pk] == before.prefixes[pk])
  }

  /** Objects that only cut rows point at and nobody waits for. */
  ghost predicate Removable(w: World, after: Db, gone: set<Key>, cut: set<Row>) {
    && gone !! w.aux.inFlight
    && (forall id | id in w.aux.verified && ActiveRemote(w.db, id) :: gone !! w.aux.verified[id])
    && (forall pk | pk in after.artifacts && after.artifacts[pk].key in gone :: OfArtifact(pk) in cut)
    && (forall pk | pk in after.staged && after.staged[pk].key in gone :: OfStaged(pk) in cut)
  }

  lemma RemovalKeepsInv(w: World, base: Key, after: Db, gone: set<Key>, cut: set<Row>)
    requires Inv(w, base) && Shrinks(w.db, after, gone) && w.aux.cut <= cut
    requires Removable(w, after, gone, cut)
    ensures Inv(World(after, w.aux.(cut := cut)), base)
  {
    hide IsAllocationKey, UnderJob, AttemptRoot, JobRoot, UploadKey, IsBelow;
    var w' := World(after, w.aux.(cut := cut));
    assert Layout(after, base);
    assert RemoteJobsStartEmpty(after);
    forall key | key in w.aux.inFlight ensures !PointedAt(after, key, None) {
      assert !PointedAt(w.db, key, None);
    }
    assert VerifiedIsSafe(w', base) by {
      forall id | id in w.aux.verified && ActiveRemote(after, id)
        ensures ReadyToComplete(after, base, id, w.aux.verified[id])
      {
        assert ActiveRemote(w.db, id);
        assert ReadyToComplete(w.db, base, id, w.aux.verified[id]);
      }
    }
  }

  lemma VerifiedKeyIsUnderItsJob(w: World, base: Key, id: Id, key: Key)
    requires VerifiedIsSafe(w, base) && id in w.aux.verified && ActiveRemote(w.db, id) && key in w.aux.verified[id]
    ensures UnderJob(base, key, id)
  {
    hide AttemptRoot, UnderJob, IsBelow;
    assert ReadyToComplete(w.db, base, id, w.aux.verified[id]);
    AttemptsAreUnderTheirJob(base, key, id, w.db.jobs[id].attempt);
  }

  /** The keys of a job that waits for no remote completion are nobody's to wait for. */
  lemma JobKeysAreRemovable(w: World, base: Key, key: Key, job: Id, id: Id)
    requires Inv(w, base) && UnderJob(base, key, job) && !ActiveRemote(w.db, job)
    requires id in w.aux.verified && ActiveRemote(w.db, id)
    ensures key !in w.aux.verified[id]
  {
    hide AttemptRoot, UnderJob, IsBelow;
    if key in w.aux.verified[id] {
      VerifiedKeyIsUnderItsJob(w, base, id, key);
      JobRootsAreDisjoint(base, key, job, id);
    }
  }

  lemma UploadKeysAreRemovable(w: World, base: Key, pk: Id, filename: string, id: Id)
    requires Inv(w, base) && id in w.aux.verified && ActiveRemote(w.db, id)
    ensures UploadKey(base, pk, filename) !in w.aux.verified[id]
  {
    hide AttemptRoot, UnderJob, IsBelow, UploadKey;
    if UploadKey(base, pk, filename) in w.aux.verified[id] {
      VerifiedKeyIsUnderItsJob(w, base, id, UploadKey(base, pk, filename));
      UploadsAreNotJobKeys(base, pk, filename, id);
    }
  }

  lemma UploadKeysAreNotInFlight(w: World, base: Key, pk: Id, filename: string)
    requires Inv(w, base)
    ensures UploadKey(base, pk, filename) !in w.aux.inFlight
  {
    var key := UploadKey(base, pk, filename);
    forall job ensures !IsAllocationKey(base, key, job) {
      assert key[|base|] == "staged-inputs";
      assert JobRoot(base, job)[|base|] == "jobs";
    }
  }

  function Gone(db: Db, key: Key, row: Row, fault: Fault): set<Key> {
    if PointedAt(db, key, Some(row)) || fault.StoreFails? then {} else {key}
  }

  lemma CheckedDeletionShrinks(db: Db, key: Key, row: Row, fault: Fault)
    ensures Shrinks(db, DeleteChecked(db, key, row, fault), Gone(db, key, row, fault))
  {
    hide PointedAt;
  }

  /** A checked deletion of a key that nobody waits for keeps the invariant. */
  lemma CheckedDeletionKeepsInv(w: World, base: Key, key: Key, row: Row, fault: Fault)
    requires Inv(w, base) && key !in w.aux.inFlight
    requires forall id | id in w.aux.verified && ActiveRemote(w.db, id) :: key !in w.aux.verified[id]
    ensures Inv(World(DeleteChecked(w.db, key, row, fault), if row.OfPending? then w.aux else CutIf(w.aux, fault, row)),
        base)
  {
    var after, gone := DeleteChecked(w.db, key, row, fault), Gone(w.db, key, row, fault);
    var cut := if row.OfPending? then w.aux.cut else CutIf(w.aux, fault, row).cut;
    CheckedDeletionShrinks(w.db, key, row, fault);
    assert Removable(w, after, gone, cut);
    hide Inv;
    RemovalKeepsInv(w, base, after, gone, cut);
    assert w.aux.(cut := cut) == if row.OfPending? then w.aux else CutIf(w.aux, fault, row);
  }

  lemma ArtifactDeletionKeepsInv(w: World, base: Key, pk: Id, fault: Fault)
    requires Inv(w, base) && pk in w.db.artifacts
    ensures Inv(World(DeleteChecked(w.db, w.db.artifacts[pk].key, OfArtifact(pk), fault),
        CutIf(w.aux, fault, OfArtifact(pk))), base)
  {
    hide UnderJob, IsAllocationKey, DeleteChecked;
    var row := w.db.artifacts[pk];
    assert PointedAt(w.db, row.key, None);
    forall id | id in w.aux.verified && ActiveRemote(w.db, id) ensures row.key !in w.aux.verified[id] {
      JobKeysAreRemovable(w, base, row.key, row.job, id);
    }
    CheckedDeletionKeepsInv(w, base, row.key, OfArtifact(pk), fault);
  }

  lemma PendingDeletionKeepsInv(w: World, base: Key, pk: Id, fault: Fault)
    requires Inv(w, base) && pk in w.db.pending
    ensures Inv(World(DeleteChecked(w.db, w.db.pending[pk].key, OfPending(pk), fault), w.aux), base)
  {
    hide UnderJob, IsAllocationKey, DeleteChecked;
    var row := w.db.pending[pk];
    forall id | id in w.aux.verified && ActiveRemote(w.db, id) ensures row.key !in w.aux.verified[id] {
      JobKeysAreRemovable(w, base, row.key, row.job, id);
    }
    CheckedDeletionKeepsInv(w, base, row.key, OfPending(pk), fault);
  }

  lemma StagedDeletionKeepsInv(w: World, base: Key, pk: Id, fault: Fault)
    requires Inv(w, base) && pk in w.db.staged
    ensures Inv(World(DeleteChecked(w.db, w.db.staged[pk].key, OfStaged(pk), fault), CutIf(w.aux, fault, OfStaged(pk))),
        base)
  {
    hide UnderJob, IsAllocationKey, DeleteChecked, UploadKey;
    var row := w.db.staged[pk];
    UploadKeysAreNotInFlight(w, base, pk, row.filename);
    forall id | id in w.aux.verified && ActiveRemote(w.db, id) ensures row.key !in w.aux.verified[id] {
      UploadKeysAreRemovable(w, base, pk, row.filename, id);
    }
    CheckedDeletionKeepsInv(w, base, row.key, OfStaged(pk), fault);
  }

  /** No row but the upload's own points at an upload's key. */
  lemma UploadsArePrivate(w: World, base: Key, pk: Id, filename: string)
    requires Layout(w.db, base)
    ensures !PointedAt(w.db, UploadKey(base, pk, filename), Some(OfStaged(pk)))
  {
    forall other | other in w.db.artifacts ensures w.db.artifacts[other].key != UploadKey(base, pk, filename) {
      UploadsAreNotJobKeys(base, pk, filename, w.db.artifacts[other].job);
    }
    forall other | other in w.db.staged && w.db.staged[other].key == UploadKey(base, pk, filename) ensures other == pk {
      UploadKeysArePrivate(base, other, w.db.staged[other].filename, pk, filename);
    }
  }

  /** Deleting an upload without a reference check is as safe as with one. */
  lemma UncheckedIsChecked(w: World, base: Key, pk: Id, filename: string, fault: Fault)
    requires Layout(w.db, base)
    ensures DeleteUnchecked(w.db, UploadKey(base, pk, filename), OfStaged(pk), fault)
         == DeleteChecked(w.db, UploadKey(base, pk, filename), OfStaged(pk), fault)
  {
    UploadsArePrivate(w, base, pk, filename);
  }

  lemma UploadDeletionKeepsInv(w: World, base: Key, pk: Id, filename: string, fault: Fault)
    requires Inv(w, base)
    ensures Inv(World(DeleteUnchecked(w.db, UploadKey(base, pk, filename), OfStaged(pk), fault),
        CutIf(w.aux, fault, OfStaged(pk))), base)
  {
    hide UnderJob, IsAllocationKey, DeleteChecked, DeleteUnchecked, UploadKey;
    UncheckedIsChecked(w, base, pk, filename, fault);
    UploadKeysAreNotInFlight(w, base, pk, filename);
    forall id | id in w.aux.verified && ActiveRemote(w.db, id)
      ensures UploadKey(base, pk, filename) !in w.aux.verified[id]
    {
      UploadKeysAreRemovable(w, base, pk, filename, id);
    }
    CheckedDeletionKeepsInv(w, base, UploadKey(base, pk, filename), OfStaged(pk), fault);
  }

  lemma PrefixCleaningKeepsInv(w: World, base: Key, pk: Id, stopped: Option<set<Key>>)
    requires Inv(w, base)
    ensures Inv(World(CleanAttemptPrefix(w.db, pk, stopped), w.aux), base)
  {
    hide UnderJob, IsAllocationKey, AttemptRoot, JobKeyIsDeletable, AttemptPrefixIsDeletable;
    var after := CleanAttemptPrefix(w.db, pk, stopped);
    if after != w.db {
      var record := w.db.prefixes[pk];
      var gone := if stopped.Some? then Unregistered(w.db, record.prefix) * stopped.value
        else Unregistered(w.db, record.prefix);
      assert Shrinks(w.db, after, gone);
      forall key | key in gone
        ensures key !in w.aux.inFlight
        ensures forall id | id in w.aux.verified && ActiveRemote(w.db, id) :: key !in w.aux.verified[id]
      {
        AttemptsAreUnderTheirJob(base, key, record.job, record.attempt);
        forall job ensures !IsAllocationKey(base, key, job) {
          if IsAllocationKey(base, key, job) {
            AllocationsAreNotInAttempts(base, key, job, record.job, record.attempt);
          }
        }
        forall id | id in w.aux.verified && ActiveRemote(w.db, id) ensures key !in w.aux.verified[id] {
          JobKeysAreRemovable(w, base, key, record.job, id);
        }
      }
      forall pk | pk in w.db.artifacts ensures w.db.artifacts[pk].key !in gone {
        assert w.db.artifacts[pk].key in gone ==> PointedAt(w.db, w.db.artifacts[pk].key, None);
      }
      forall pk | pk in w.db.staged ensures w.db.staged[pk].key !in gone {
        assert w.db.staged[pk].key in gone ==> PointedAt(w.db, w.db.staged[pk].key, None);
      }
      RemovalKeepsInv(w, base, after, gone, w.aux.cut);
      assert w.aux.(cut := w.aux.cut) == w.aux;
    }
  }

  // -- The other steps keep the invariant ------------------------------------------------------------

  lemma JobsDoNotMatterInFlight(w: World, w': World, base: Key)
    requires InFlightIsSafe(w, base) && w'.aux.inFlight == w.aux.inFlight && w'.db.objects == w.db.objects
    requires w'.db.artifacts == w.db.artifacts && w'.db.staged == w.db.staged && w'.db.pending == w.db.pending
    ensures InFlightIsSafe(w', base)
  {
    hide IsAllocationKey;
    assert forall key :: PointedAt(w'.db, key, None) == PointedAt(w.db, key, None);
  }

  lemma JobStepKeepsInv(w: World, s: Settings, e: Event)
    requires Inv(w, s.base) && Enabled(w, s.base, e)
    requires e.Submit? || e.FinishJob?
    ensures Inv(Step(w, s, e), s.base)
  {
    hide UnderJob, IsAllocationKey, AttemptRoot, JobRoot, UploadKey, IsBelow, InFlightIsSafe, PointedAt;
    var after := Step(w, s, e);
    JobsDoNotMatterInFlight(w, after, s.base);
    forall id | id in after.aux.verified && ActiveRemote(after.db, id)
      ensures ReadyToComplete(after.db, s.base, id, after.aux.verified[id])
    {
      assert ReadyToComplete(w.db, s.base, id, w.aux.verified[id]);
    }
  }

  lemma VerifyKeepsInv(w: World, s: Settings, e: Event)
    requires Inv(w, s.base) && Enabled(w, s.base, e) && e.Verify?
    ensures Inv(Step(w, s, e), s.base)
  {
    hide UnderJob, IsAllocationKey, AttemptRoot, JobRoot, UploadKey, IsBelow, InFlightIsSafe, PointedAt, Layout;
    var after := Step(w, s, e);
    JobsDoNotMatterInFlight(w, after, s.base);
    forall id | id in after.aux.verified && ActiveRemote(after.db, id)
      ensures ReadyToComplete(after.db, s.base, id, after.aux.verified[id])
    {
      assert id != e.job ==> ReadyToComplete(w.db, s.base, id, w.aux.verified[id]);
    }
  }

  lemma ClaimKeepsInv(w: World, s: Settings, e: Event)
    requires Inv(w, s.base) && Enabled(w, s.base, e) && e.ClaimAttempt?
    ensures Inv(Step(w, s, e), s.base)
  {
    hide UnderJob, IsAllocationKey, AttemptRoot, JobRoot, UploadKey, IsBelow;
    var after := Step(w, s, e);
    assert forall key :: PointedAt(after.db, key, None) == PointedAt(w.db, key, None);
    forall id | id in after.aux.verified && ActiveRemote(after.db, id)
      ensures ReadyToComplete(after.db, s.base, id, after.aux.verified[id])
    {
      assert ReadyToComplete(w.db, s.base, id, w.aux.verified[id]);
    }
    assert forall id :: ActiveRemote(after.db, id) == ActiveRemote(w.db, id);
  }

  lemma DeleteJobKeepsInv(w: World, s: Settings, e: Event)
    requires Inv(w, s.base) && e.DeleteJob?
    ensures Inv(Step(w, s, e), s.base)
  {
    hide UnderJob, IsAllocationKey, AttemptRoot, JobRoot, UploadKey, IsBelow;
    var after := Step(w, s, e);
    assert forall key :: PointedAt(after.db, key, None) == PointedAt(w.db, key, None);
    assert forall id :: ActiveRemote(after.db, id) ==> ActiveRemote(w.db, id);
    forall id | id in after.aux.verified && ActiveRemote(after.db, id)
      ensures ReadyToComplete(after.db, s.base, id, after.aux.verified[id])
    {
      assert ReadyToComplete(w.db, s.base, id, w.aux.verified[id]);
    }
  }

  /** Storing an object more takes nothing away. */
  lemma StoringKeepsInv(w: World, base: Key, key: Key)
    requires Inv(w, base)
    ensures Inv(World(w.db.(objects := w.db.objects + {key}), w.aux), base)
  {
    hide UnderJob, IsAllocationKey, AttemptRoot, JobRoot, UploadKey, IsBelow;
    var db := w.db.(objects := w.db.objects + {key});
    assert forall k :: PointedAt(db, k, None) == PointedAt(w.db, k, None);
    assert forall id :: ActiveRemote(db, id) == ActiveRemote(w.db, id);
    forall id | id in w.aux.verified && ActiveRemote(db, id)
      ensures ReadyToComplete(db, base, id, w.aux.verified[id])
    {
      assert ReadyToComplete(w.db, base, id, w.aux.verified[id]);
    }
  }

  lemma PutAllocationKeepsInv(w: World, s: Settings, e: Event)
    requires Inv(w, s.base) && Enabled(w, s.base, e) && e.PutAllocation?
    ensures Inv(Step(w, s, e), s.base)
  {
    hide UnderJob, AttemptRoot, JobRoot, UploadKey, IsBelow, IsAllocationKey;
    StoringKeepsInv(w, s.base, e.key);
    var after := Step(w, s, e);
    assert forall k :: PointedAt(after.db, k, None) == PointedAt(w.db, k, None);
    assert InFlightIsSafe(after, s.base);
  }

  lemma CompletedRowsKeepLayout(w: World, s: Settings, e: Event)
    requires Inv(w, s.base) && Enabled(w, s.base, e) && e.Complete?
    ensures var after := StepDb(w.db, s, e);
            && Layout(after, s.base) && RemoteJobsStartEmpty(after)
            && forall pk | pk in after.artifacts ::
              after.artifacts[pk].key in after.objects || OfArtifact(pk) in w.aux.cut
  {
    hide UnderJob, IsAllocationKey, AttemptRoot, JobRoot, UploadKey, IsBelow, InFlightIsSafe;
    assert ReadyToComplete(w.db, s.base, e.job, w.aux.verified[e.job]);
    forall pk | pk in e.rows ensures UnderJob(s.base, e.rows[pk].key, e.job) {
      AttemptsAreUnderTheirJob(s.base, e.rows[pk].key, e.job, w.db.jobs[e.job].attempt);
    }
  }

  lemma CompleteKeepsInv(w: World, s: Settings, e: Event)
    requires Inv(w, s.base) && Enabled(w, s.base, e) && e.Complete?
    ensures Inv(Step(w, s, e), s.base)
  {
    CompletedRowsKeepLayout(w, s, e);
    CompletedRowsAreNotInFlight(w, s, e);
    hide PointedAt, Layout, RemoteJobsStartEmpty, IsAllocationKey;
    var after := Step(w, s, e);
    assert VerifiedIsSafe(after, s.base) by {
      hide AttemptRoot, IsBelow;
      forall id | id in after.aux.verified && ActiveRemote(after.db, id)
        ensures ReadyToComplete(after.db, s.base, id, after.aux.verified[id])
      {
        assert ActiveRemote(w.db, id) && ReadyToComplete(w.db, s.base, id, w.aux.verified[id]);
      }
    }
  }

  lemma CompletedRowsAreNotInFlight(w: World, s: Settings, e: Event)
    requires Inv(w, s.base) && Enabled(w, s.base, e) && e.Complete?
    ensures forall key | key in w.aux.inFlight :: !PointedAt(StepDb(w.db, s, e), key, None)
  {
    hide UnderJob, IsAllocationKey, AttemptRoot, JobRoot, UploadKey, IsBelow;
    forall key | key in w.aux.inFlight ensures !PointedAt(StepDb(w.db, s, e), key, None) {
      assert !PointedAt(w.db, key, None);
      forall pk | pk in e.rows ensures e.rows[pk].key != key {
        VerifiedIsNotInFlight(w, s.base, e.job, e.rows[pk].key);
      }
    }
  }

  lemma VerifiedIsNotInFlight(w: World, base: Key, id: Id, key: Key)
    requires Inv(w, base) && id in w.aux.verified && ActiveRemote(w.db, id) && key in w.aux.verified[id]
    ensures key !in w.aux.inFlight
  {
    hide UnderJob, IsAllocationKey, AttemptRoot, JobRoot, UploadKey, IsBelow;
    assert ReadyToComplete(w.db, base, id, w.aux.verified[id]);
    forall job ensures !IsAllocationKey(base, key, job) {
      if IsAllocationKey(base, key, job) {
        AllocationsAreNotInAttempts(base, key, job, id, w.db.jobs[id].attempt);
      }
    }
  }

  /** What was verified stays safe when objects stay stored and jobs keep their attempt. */
  lemma VerifiedStays(w: World, w': World, base: Key)
    requires VerifiedIsSafe(w, base) && w.db.objects <= w'.db.objects && w'.aux.verified == w.aux.verified
    requires forall id | ActiveRemote(w'.db, id) ::
        ActiveRemote(w.db, id) && w'.db.jobs[id].attempt == w.db.jobs[id].attempt
    ensures VerifiedIsSafe(w', base)
  {
    hide AttemptRoot, IsBelow;
    forall id | id in w'.aux.verified && ActiveRemote(w'.db, id)
      ensures ReadyToComplete(w'.db, base, id, w'.aux.verified[id])
    {
      assert ReadyToComplete(w.db, base, id, w.aux.verified[id]);
    }
  }

  lemma SwapKeepsLayout(w: World, s: Settings, e: Event)
    requires Layout(w.db, s.base) && IdsAreUsed(w) && RemoteJobsStartEmpty(w.db) && Enabled(w, s.base, e) && e.Swap?
    ensures var after := Step(w, s, e); Layout(after.db, s.base) && IdsAreUsed(after) && RemoteJobsStartEmpty(after.db)
  {
    hide UnderJob, IsAllocationKey, AttemptRoot, JobRoot, UploadKey, IsBelow;
    AllocationsAreNotInAttempts(s.base, e.row.key, e.job, e.job, 0);
  }

  lemma SwapKeepsInFlight(w: World, s: Settings, e: Event)
    requires InFlightIsSafe(w, s.base) && Enabled(w, s.base, e) && e.Swap?
    ensures InFlightIsSafe(Step(w, s, e), s.base)
  {
    hide UnderJob, IsAllocationKey, AttemptRoot, JobRoot, UploadKey, IsBelow;
    var after := Step(w, s, e);
    forall key | key in after.aux.inFlight
      ensures !PointedAt(after.db, key, None) && forall pk | pk in after.db.pending :: after.db.pending[pk].key != key
    {
      assert key in w.aux.inFlight && !PointedAt(w.db, key, None);
    }
  }

  lemma SwapKeepsRows(w: World, s: Settings, e: Event)
    requires InFlightIsSafe(w, s.base) && OnlyCutRowsDangle(w) && Enabled(w, s.base, e) && e.Swap?
    ensures OnlyCutRowsDangle(Step(w, s, e))
  {
    hide UnderJob, IsAllocationKey, AttemptRoot, JobRoot, UploadKey, IsBelow, PointedAt;
  }

  lemma SwapKeepsInv(w: World, s: Settings, e: Event)
    requires Inv(w, s.base) && Enabled(w, s.base, e) && e.Swap?
    ensures Inv(Step(w, s, e), s.base)
  {
    hide Layout, IdsAreUsed, RemoteJobsStartEmpty, InFlightIsSafe, VerifiedIsSafe, OnlyCutRowsDangle, Enabled;
    SwapKeepsLayout(w, s, e);
    SwapKeepsInFlight(w, s, e);
    SwapKeepsRows(w, s, e);
    VerifiedStays(w, Step(w, s, e), s.base);
  }

  lemma AbandonKeepsInFlight(w: World, s: Settings, e: Event)
    requires InFlightIsSafe(w, s.base) && Enabled(w, s.base, e) && e.Abandon?
    ensures InFlightIsSafe(Step(w, s, e), s.base)
  {
    hide UnderJob, IsAllocationKey, AttemptRoot, JobRoot, UploadKey, IsBelow;
    assert forall k :: PointedAt(Step(w, s, e).db, k, None) == PointedAt(w.db, k, None);
  }

  lemma AbandonKeepsInv(w: World, s: Settings, e: Event)
    requires Inv(w, s.base) && Enabled(w, s.base, e) && e.Abandon?
    ensures Inv(Step(w, s, e), s.base)
  {
    hide UnderJob, IsAllocationKey, AttemptRoot, JobRoot, UploadKey, IsBelow, InFlightIsSafe, VerifiedIsSafe, PointedAt;
    AllocationsAreNotInAttempts(s.base, e.key, e.job, e.job, 0);
    AbandonKeepsInFlight(w, s, e);
    VerifiedStays(w, Step(w, s, e), s.base);
  }

  /** Nobody waits any more for an object whose publisher died between storing and publishing. */
  lemma DeathKeepsInv(w: World, s: Settings, e: Event)
    requires Inv(w, s.base) && e.PublisherDies?
    ensures Inv(Step(w, s, e), s.base)
  {
    hide Layout, UnderJob, IsAllocationKey, PointedAt, ReadyToComplete;
    var after := Step(w, s, e);
    assert after.db == w.db && after.aux == w.aux.(inFlight := w.aux.inFlight - {e.key});
    VerifiedStays(w, after, s.base);
  }

  /** A staged row may be written or rewritten while it keeps its own key. */
  lemma StagingKeepsInv(w: World, base: Key, staged: map<Id, StagedRow>, usedUploads: set<Id>, unfinished: set<Id>)
    requires Inv(w, base) && w.aux.usedUploads <= usedUploads
    requires forall pk | pk in staged :: pk in usedUploads && staged[pk].key == UploadKey(base, pk, staged[pk].filename)
    requires forall pk | pk in staged :: staged[pk].key in w.db.objects || OfStaged(pk) in w.aux.cut || pk in unfinished
    ensures Inv(World(w.db.(staged := staged), w.aux.(usedUploads := usedUploads, unfinished := unfinished)), base)
  {
    hide UnderJob, IsAllocationKey, AttemptRoot, JobRoot, UploadKey, IsBelow;
    var db := w.db.(staged := staged);
    assert forall id :: ActiveRemote(db, id) == ActiveRemote(w.db, id);
    forall id | id in w.aux.verified && ActiveRemote(db, id) ensures ReadyToComplete(db, base, id, w.aux.verified[id]) {
      assert ReadyToComplete(w.db, base, id, w.aux.verified[id]);
    }
    forall key | key in w.aux.inFlight ensures !PointedAt(db, key, None) {
      assert !PointedAt(w.db, key, None);
      forall pk | pk in staged ensures staged[pk].key != key {
        UploadKeysAreNotInFlight(w, base, pk, staged[pk].filename);
      }
    }
  }

  lemma UploadStepKeepsInv(w: World, s: Settings, e: Event)
    requires Inv(w, s.base) && Enabled(w, s.base, e)
    requires e.RegisterUpload? || e.FinishUpload? || e.KeepForRetry? || e.ClaimUpload? || e.ReleaseUploads?
    ensures Inv(Step(w, s, e), s.base)
  {
    hide UnderJob, IsAllocationKey, AttemptRoot, JobRoot, UploadKey, IsBelow;
    var after := Step(w, s, e);
    StagingKeepsInv(w, s.base, after.db.staged, after.aux.usedUploads, after.aux.unfinished);
    assert after.db == w.db.(staged := after.db.staged);
    assert after.aux == w.aux.(usedUploads := after.aux.usedUploads, unfinished := after.aux.unfinished);
  }

  lemma PutUploadKeepsInv(w: World, s: Settings, e: Event)
    requires Inv(w, s.base) && Enabled(w, s.base, e) && e.PutUpload?
    ensures Inv(Step(w, s, e), s.base)
  {
    hide UnderJob, IsAllocationKey, AttemptRoot, JobRoot, UploadKey, IsBelow;
    var key := UploadKey(s.base, e.pk, e.filename);
    StoringKeepsInv(w, s.base, key);
    var stored := World(w.db.(objects := w.db.objects + {key}), w.aux);
    var after := Step(w, s, e);
    StagingKeepsInv(stored, s.base, stored.db.staged, w.aux.usedUploads, after.aux.unfinished);
    assert after.db == stored.db.(staged := stored.db.staged);
    assert after.aux == w.aux.(usedUploads := w.aux.usedUploads, unfinished := after.aux.unfinished);
  }

  // -- Runs ---------------------------------------------------------------------------------------------

  predicate IsDeletion(e: Event) {
    e.Prune? || e.DeleteArtifact? || e.Drain? || e.CleanPrefix? || e.ExpireStaged? || e.DropClaimedStaged? ||
      e.DropStaged? || e.DiscardUpload?
  }

  lemma JobDeletionKeepsInv(w: World, s: Settings, e: Event)
    requires Inv(w, s.base) && (e.Prune? || e.DeleteArtifact? || e.Drain? || e.CleanPrefix?)
    ensures Inv(Step(w, s, e), s.base)
  {
    hide Inv, DeleteChecked, CleanAttemptPrefix, JobKeyIsDeletable, StagedKeyIsDeletable;
    match e
    case Prune(pk, _, fault) =>
      UnchangedOrCut(w, s.base, fault, OfArtifact(pk));
      if pk in w.db.artifacts { ArtifactDeletionKeepsInv(w, s.base, pk, fault); }
    case DeleteArtifact(pk, fault) =>
      UnchangedOrCut(w, s.base, fault, OfArtifact(pk));
      if pk in w.db.artifacts { ArtifactDeletionKeepsInv(w, s.base, pk, fault); }
    case Drain(pk, fault) => if pk in w.db.pending { PendingDeletionKeepsInv(w, s.base, pk, fault); }
    case CleanPrefix(pk, stopped) => PrefixCleaningKeepsInv(w, s.base, pk, stopped);
  }

  lemma UploadStepsKeepInv(w: World, s: Settings, e: Event)
    requires Inv(w, s.base) && (e.ExpireStaged? || e.DropClaimedStaged? || e.DropStaged? || e.DiscardUpload?)
    ensures Inv(Step(w, s, e), s.base)
  {
    hide Inv, DeleteChecked, DeleteUnchecked, UploadKey, StagedKeyIsDeletable;
    match e
    case ExpireStaged(pk, _, fault) =>
      UnchangedOrCut(w, s.base, fault, OfStaged(pk));
      if pk in w.db.staged { StagedDeletionKeepsInv(w, s.base, pk, fault); }
    case DropClaimedStaged(pk, _, fault) =>
      UnchangedOrCut(w, s.base, fault, OfStaged(pk));
      if pk in w.db.staged { StagedDeletionKeepsInv(w, s.base, pk, fault); }
    case DropStaged(pk, fault) =>
      UnchangedOrCut(w, s.base, fault, OfStaged(pk));
      if pk in w.db.staged {
        LayoutOfUpload(w, s.base, pk);
        UploadDeletionKeepsInv(w, s.base, pk, w.db.staged[pk].filename, fault);
      }
    case DiscardUpload(pk, filename, fault) => UploadDeletionKeepsInv(w, s.base, pk, filename, fault);
  }

  lemma DeletionKeepsInv(w: World, s: Settings, e: Event)
    requires Inv(w, s.base) && IsDeletion(e)
    ensures Inv(Step(w, s, e), s.base)
  {
    hide Inv, Step;
    if e.Prune? || e.DeleteArtifact? || e.Drain? || e.CleanPrefix? {
      JobDeletionKeepsInv(w, s, e);
    } else {
      UploadStepsKeepInv(w, s, e);
    }
  }

  lemma LayoutOfUpload(w: World, base: Key, pk: Id)
    requires Inv(w, base) && pk in w.db.staged
    ensures w.db.staged[pk].key == UploadKey(base, pk, w.db.staged[pk].filename)
  {
  }

  /** A step that finds nothing to do may still be marked as cut. */
  lemma UnchangedOrCut(w: World, base: Key, fault: Fault, row: Row)
    requires Inv(w, base)
    ensures Inv(World(w.db, CutIf(w.aux, fault, row)), base)
  {
    hide UnderJob, IsAllocationKey, AttemptRoot, JobRoot, UploadKey, IsBelow;
    var cut := CutIf(w.aux, fault, row).cut;
    assert CutIf(w.aux, fault, row) == w.aux.(cut := cut);
    RemovalKeepsInv(w, base, w.db, {}, cut);
  }

  lemma StepKeepsInv(w: World, s: Settings, e: Event)
    requires Inv(w, s.base) && Enabled(w, s.base, e)
    ensures Inv(Step(w, s, e), s.base)
  {
    hide Inv, Enabled, Step;
    if IsDeletion(e) { DeletionKeepsInv(w, s, e); }
    else if e.Submit? || e.FinishJob? { JobStepKeepsInv(w, s, e); }
    else if e.Verify? { VerifyKeepsInv(w, s, e); }
    else if e.ClaimAttempt? { ClaimKeepsInv(w, s, e); }
    else if e.DeleteJob? { DeleteJobKeepsInv(w, s, e); }
    else if e.WorkerPut? { WorkerPutKeepsInv(w, s, e); }
    else if e.Complete? { CompleteKeepsInv(w, s, e); }
    else if e.PutAllocation? { PutAllocationKeepsInv(w, s, e); }
    else if e.Swap? { SwapKeepsInv(w, s, e); }
    else if e.Abandon? { AbandonKeepsInv(w, s, e); }
    else if e.PublisherDies? { DeathKeepsInv(w, s, e); }
    else if e.PutUpload? { PutUploadKeepsInv(w, s, e); }
    else { UploadStepKeepsInv(w, s, e); }
  }

  lemma WorkerPutKeepsInv(w: World, s: Settings, e: Event)
    requires Inv(w, s.base) && e.WorkerPut?
    ensures Inv(Step(w, s, e), s.base)
  {
    hide Inv;
    StoringKeepsInv(w, s.base, AttemptRoot(s.base, e.job, e.attempt) + e.rest);
  }

  // -- Running a deletion again --------------------------------------------------------------------------

  /** The same deletion, this time to its end. */
  function Again(e: Event): Event
    requires IsDeletion(e)
  {
    match e
    case Prune(pk, now, _) => Prune(pk, now, Whole)
    case DeleteArtifact(pk, _) => DeleteArtifact(pk, Whole)
    case Drain(pk, _) => Drain(pk, Whole)
    case CleanPrefix(pk, _) => CleanPrefix(pk, None)
    case ExpireStaged(pk, now, _) => ExpireStaged(pk, now, Whole)
    case DropClaimedStaged(pk, job, _) => DropClaimedStaged(pk, job, Whole)
    case DropStaged(pk, _) => DropStaged(pk, Whole)
    case DiscardUpload(pk, filename, _) => DiscardUpload(pk, filename, Whole)
  }

  lemma JobDeletionAgain(db: Db, s: Settings, e: Event)
    requires e.Prune? || e.DeleteArtifact? || e.Drain? || e.CleanPrefix?
    ensures StepDb(StepDb(db, s, e), s, Again(e)) == StepDb(db, s, Again(e))
  {
    hide DeleteChecked, CleanAttemptPrefix, JobKeyIsDeletable;
    match e {
      case Prune(pk, _, fault) =>
        if pk in db.artifacts { RowAgain(db, db.artifacts[pk].key, OfArtifact(pk), fault); }
      case DeleteArtifact(pk, fault) =>
        if pk in db.artifacts { RowAgain(db, db.artifacts[pk].key, OfArtifact(pk), fault); }
      case Drain(pk, fault) =>
        if pk in db.pending { RowAgain(db, db.pending[pk].key, OfPending(pk), fault); }
      case CleanPrefix(pk, stopped) =>
        CleaningAgainCompletes(db, pk, stopped);
    }
  }

  lemma StagedDeletionAgain(db: Db, s: Settings, e: Event)
    requires e.ExpireStaged? || e.DropClaimedStaged? || e.DropStaged? || e.DiscardUpload?
    ensures StepDb(StepDb(db, s, e), s, Again(e)) == StepDb(db, s, Again(e))
  {
    hide DeleteChecked, DeleteUnchecked, UploadKey, StagedKeyIsDeletable;
    match e {
      case ExpireStaged(pk, _, fault) =>
        if pk in db.staged { RowAgain(db, db.staged[pk].key, OfStaged(pk), fault); }
      case DropClaimedStaged(pk, _, fault) =>
        if pk in db.staged { RowAgain(db, db.staged[pk].key, OfStaged(pk), fault); }
      case DropStaged(pk, fault) =>
        if pk in db.staged { UploadAgain(db, db.staged[pk].key, pk, fault); }
      case DiscardUpload(pk, filename, fault) =>
        UploadAgain(db, UploadKey(s.base, pk, filename), pk, fault);
    }
  }

  /** A deletion that failed or was cut anywhere, run again, leaves what it would have left the first time. */
  lemma AgainCompletes(db: Db, s: Settings, e: Event)
    requires IsDeletion(e)
    ensures StepDb(StepDb(db, s, e), s, Again(e)) == StepDb(db, s, Again(e))
  {
    hide StepDb, Again;
    if e.Prune? || e.DeleteArtifact? || e.Drain? || e.CleanPrefix? {
      JobDeletionAgain(db, s, e);
    } else {
      StagedDeletionAgain(db, s, e);
    }
  }

  /** The rows are as before and the rest remains to be done, or everything is done. */
  ghost predicate WaitsOrIsDone(db: Db, first: Db, whole: Db, row: Row) {
    first == db.(objects := first.objects) ||
      (first == whole && whole == WithoutRow(db, row).(objects := whole.objects))
  }

  lemma RowAgain(db: Db, key: Key, row: Row, fault: Fault)
    ensures var first, whole := DeleteChecked(db, key, row, fault), DeleteChecked(db, key, row, Whole);
            WaitsOrIsDone(db, first, whole, row) && DeleteChecked(first, key, row, Whole) == whole
  {
    RetryCompletes(db, key, row, fault);
    hide PointedAt;
  }

  lemma UploadAgain(db: Db, key: Key, pk: Id, fault: Fault)
    ensures var first := DeleteUnchecked(db, key, OfStaged(pk), fault);
            var whole := DeleteUnchecked(db, key, OfStaged(pk), Whole);
            && WaitsOrIsDone(db, first, whole, OfStaged(pk))
            && DeleteUnchecked(first, key, OfStaged(pk), Whole) == whole
  {
    UncheckedRetryCompletes(db, key, OfStaged(pk), fault);
  }

  const EMPTY := World(Db({}, map[], map[], map[], map[], map[]), Aux({}, {}, {}, {}, map[], {}, {}))

  function After(s: Settings, events: seq<Event>): World {
    if events == [] then EMPTY else Step(After(s, events[..|events| - 1]), s, events[|events| - 1])
  }

  ghost predicate Possible(s: Settings, events: seq<Event>) {
    events == [] ||
    (Possible(s, events[..|events| - 1]) && Enabled(After(s, events[..|events| - 1]), s.base, events[|events| - 1]))
  }

  lemma {:induction false} InvAlways(s: Settings, events: seq<Event>)
    requires Possible(s, events)
    ensures Inv(After(s, events), s.base)
  {
    hide Inv, Enabled, Step;
    if events == [] {
      EmptyIsSafe(s.base);
    } else {
      InvAlways(s, events[..|events| - 1]);
      StepKeepsInv(After(s, events[..|events| - 1]), s, events[|events| - 1]);
    }
  }

  lemma EmptyIsSafe(base: Key)
    ensures Inv(EMPTY, base)
  {
  }

  /** In every run a row points at a stored object unless its own deletion was cut or its upload never finished. */
  lemma NoRowDangles(s: Settings, events: seq<Event>)
    requires Possible(s, events)
    ensures OnlyCutRowsDangle(After(s, events))
  {
    InvAlways(s, events);
  }

  /** The row a step is about, when the step was cut between object and row. */
  function CutRow(e: Event): Option<Row> {
    match e
    case Prune(pk, _, CutAfterObject) => Some(OfArtifact(pk))
    case DeleteArtifact(pk, CutAfterObject) => Some(OfArtifact(pk))
    case Drain(pk, CutAfterObject) => Some(OfPending(pk))
    case ExpireStaged(pk, _, CutAfterObject) => Some(OfStaged(pk))
    case DropClaimedStaged(pk, _, CutAfterObject) => Some(OfStaged(pk))
    case DropStaged(pk, CutAfterObject) => Some(OfStaged(pk))
    case DiscardUpload(pk, _, CutAfterObject) => Some(OfStaged(pk))
    case _ => None
  }

  /**
    In every run and for every step: no row that survives the step points at an
    object the step removed, except the step's own row when it was cut.
   */
  lemma StepsRemoveOnlyUnreferenced(s: Settings, events: seq<Event>, e: Event)
    requires Possible(s, events) && Enabled(After(s, events), s.base, e)
    ensures RemovesOnlyUnreferenced(After(s, events).db, StepDb(After(s, events).db, s, e), CutRow(e))
  {
    InvAlways(s, events);
    var w := After(s, events);
    hide Inv, Enabled, After, Possible;
    if e.DropStaged? {
      if e.pk in w.db.staged {
        LayoutOfUpload(w, s.base, e.pk);
        UncheckedIsChecked(w, s.base, e.pk, w.db.staged[e.pk].filename, e.fault);
        CheckedDeletionIsSafe(w.db, w.db.staged[e.pk].key, OfStaged(e.pk), e.fault);
      }
    } else if e.DiscardUpload? {
      UncheckedIsChecked(w, s.base, e.pk, e.filename, e.fault);
      CheckedDeletionIsSafe(w.db, UploadKey(s.base, e.pk, e.filename), OfStaged(e.pk), e.fault);
    } else if e.CleanPrefix? {
      PrefixCleaningIsSafe(w.db, e.pk, e.stopped);
    } else {
      CheckedStepsAreSafe(w.db, s, e);
    }
  }

  lemma CheckedStepsAreSafe(db: Db, s: Settings, e: Event)
    requires !e.DropStaged? && !e.DiscardUpload? && !e.CleanPrefix?
    ensures RemovesOnlyUnreferenced(db, StepDb(db, s, e), CutRow(e))
  {
    hide DeleteChecked, PointedAt, JobKeyIsDeletable, StagedKeyIsDeletable;
    match e
    case Prune(pk, _, fault) =>
      if pk in db.artifacts { CheckedDeletionIsSafe(db, db.artifacts[pk].key, OfArtifact(pk), fault); }
    case DeleteArtifact(pk, fault) =>
      if pk in db.artifacts { CheckedDeletionIsSafe(db, db.artifacts[pk].key, OfArtifact(pk), fault); }
    case Drain(pk, fault) =>
      if pk in db.pending { CheckedDeletionIsSafe(db, db.pending[pk].key, OfPending(pk), fault); }
    case ExpireStaged(pk, _, fault) =>
      if pk in db.staged { CheckedDeletionIsSafe(db, db.staged[pk].key, OfStaged(pk), fault); }
    case DropClaimedStaged(pk, _, fault) =>
      if pk in db.staged { CheckedDeletionIsSafe(db, db.staged[pk].key, OfStaged(pk), fault); }
    case _ =>
  }
}
