/**
  Stored objects that no cleanup would find (jobs/staging.py, jobs/remote_workers.py,
  jobs/services.py): in every interleaving an object has a row, a queued deletion or an
  attempt prefix above it, or is being published, except exactly when it was stored
  without them or its publisher died.
 */
module RetentionLeaks {
  import opened Wrappers
  import opened Retention
  import opened RetentionSafety
  import Decimal

  /** Some cleanup comes upon the key. */
  ghost predicate Found(db: Db, key: Key) {
    || PointedAt(db, key, None)
    || (exists pk :: pk in db.pending && db.pending[pk].key == key)
    || (exists pk :: pk in db.prefixes && IsBelow(key, db.prefixes[pk].prefix))
  }

  /** The object an event stores where a row or record made before should account for it. */
  function StoredBy(s: Settings, e: Event): Option<Key> {
    match e
    case PutUpload(pk, filename) => Some(UploadKey(s.base, pk, filename))
    case WorkerPut(job, attempt, rest) => Some(AttemptRoot(s.base, job, attempt) + rest)
    case _ => None
  }

  /** The event stores the key when its row or record is gone or never was. */
  ghost predicate StoresLate(db: Db, s: Settings, e: Event, key: Key) {
    StoredBy(s, e) == Some(key) && !Found(db, key)
  }

  /** The step leaves a stored object behind: it is stored late, or its publisher dies before its row is written. */
  ghost predicate Loses(db: Db, s: Settings, e: Event, key: Key) {
    StoresLate(db, s, e, key) || e == PublisherDies(key)
  }

  /** If it is stored, the object is found, or its publisher is at work. */
  ghost predicate Accounted(w: World, key: Key) {
    key in w.db.objects ==> Found(w.db, key) || key in w.aux.inFlight
  }

  // -- One step -----------------------------------------------------------------------------------

  /** Something else than the row finds the key. */
  ghost predicate FoundBeside(db: Db, key: Key, row: Row) {
    || PointedAt(db, key, Some(row))
    || (exists pk :: pk in db.pending && db.pending[pk].key == key && row != OfPending(pk))
    || (exists pk :: pk in db.prefixes && IsBelow(key, db.prefixes[pk].prefix))
  }

  lemma FoundWithoutRow(db: Db, key: Key, row: Row)
    requires FoundBeside(db, key, row)
    ensures Found(WithoutRow(db, row), key)
  {
    hide IsBelow;
    var after := WithoutRow(db, row);
    if PointedAt(db, key, Some(row)) {
      assert PointedAt(after, key, None);
    } else if pk :| pk in db.pending && db.pending[pk].key == key && row != OfPending(pk) {
      assert pk in after.pending;
    } else {
      var pk :| pk in db.prefixes && IsBelow(key, db.prefixes[pk].prefix);
      assert pk in after.prefixes;
    }
  }

  predicate IsRowFor(db: Db, row: Row, key: Key) {
    match row
    case OfArtifact(pk) => pk in db.artifacts && db.artifacts[pk].key == key
    case OfStaged(pk) => pk in db.staged && db.staged[pk].key == key
    case OfPending(pk) => pk in db.pending && db.pending[pk].key == key
  }

  lemma FoundByAnother(db: Db, target: Key, row: Row, key: Key)
    requires IsRowFor(db, row, target) && Found(db, key) && (key != target || PointedAt(db, key, Some(row)))
    ensures FoundBeside(db, key, row)
  {
    hide IsBelow;
  }

  lemma ObjectsDoNotMatter(db: Db, objects: set<Key>, key: Key)
    ensures Found(db.(objects := objects), key) == Found(db, key)
    ensures forall row :: FoundBeside(db.(objects := objects), key, row) == FoundBeside(db, key, row)
  {
    hide IsBelow;
  }

  /** A deletion of object and row leaves every other stored object found. */
  lemma CheckedDeletionAccounts(db: Db, target: Key, row: Row, fault: Fault, key: Key)
    requires IsRowFor(db, row, target)
    requires key in DeleteChecked(db, target, row, fault).objects && Found(db, key)
    ensures Found(DeleteChecked(db, target, row, fault), key)
  {
    hide Found, FoundBeside, PointedAt;
    ObjectsDoNotMatter(db, db.objects - {target}, key);
    if key != target || PointedAt(db, key, Some(row)) {
      FoundByAnother(db, target, row, key);
      FoundWithoutRow(db, key, row);
      FoundWithoutRow(db.(objects := db.objects - {target}), key, row);
    }
  }

  lemma PrefixCleaningAccounts(db: Db, pk: Id, stopped: Option<set<Key>>, key: Key)
    requires key in CleanAttemptPrefix(db, pk, stopped).objects && Found(db, key)
    ensures Found(CleanAttemptPrefix(db, pk, stopped), key)
  {
    hide PrefixIsCleanable;
    var after := CleanAttemptPrefix(db, pk, stopped);
    assert PointedAt(after, key, None) <==> PointedAt(db, key, None);
    if !PointedAt(db, key, None) {
      if p :| p in db.pending && db.pending[p].key == key {
        assert p in after.pending;
      } else {
        var p :| p in db.prefixes && IsBelow(key, db.prefixes[p].prefix);
        assert p in after.prefixes;
      }
    }
  }

  // -- Steps of the run -------------------------------------------------------------------------------

  lemma RowDeletionAccounts(db: Db, after: Db, target: Key, row: Row, fault: Fault, key: Key)
    requires IsRowFor(db, row, target) && (after == db || after == DeleteChecked(db, target, row, fault))
    requires Found(db, key) && key in after.objects
    ensures Found(after, key)
  {
    hide *;
    if after != db {
      CheckedDeletionAccounts(db, target, row, fault, key);
    }
  }

  lemma JobDeletionAccounts(w: World, s: Settings, e: Event, key: Key)
    requires e.Prune? || e.DeleteArtifact? || e.Drain? || e.CleanPrefix?
    requires Found(w.db, key) && key in StepDb(w.db, s, e).objects
    ensures Found(StepDb(w.db, s, e), key)
  {
    hide Found, DeleteChecked, CleanAttemptPrefix, JobKeyIsDeletable;
    var after := StepDb(w.db, s, e);
    match e {
      case Prune(pk, _, fault) =>
        if pk in w.db.artifacts {
          RowDeletionAccounts(w.db, after, w.db.artifacts[pk].key, OfArtifact(pk), fault, key);
        }
      case DeleteArtifact(pk, fault) =>
        if pk in w.db.artifacts {
          RowDeletionAccounts(w.db, after, w.db.artifacts[pk].key, OfArtifact(pk), fault, key);
        }
      case Drain(pk, fault) =>
        if pk in w.db.pending { RowDeletionAccounts(w.db, after, w.db.pending[pk].key, OfPending(pk), fault, key); }
      case CleanPrefix(pk, stopped) =>
        PrefixCleaningAccounts(w.db, pk, stopped, key);
    }
  }

  lemma StagedDeletionAccounts(w: World, s: Settings, e: Event, key: Key)
    requires Inv(w, s.base) && Enabled(w, s.base, e)
    requires e.ExpireStaged? || e.DropClaimedStaged? || e.DropStaged? || e.DiscardUpload?
    requires Found(w.db, key) && key in StepDb(w.db, s, e).objects
    ensures Found(StepDb(w.db, s, e), key)
  {
    hide Inv, Found, DeleteChecked, DeleteUnchecked, UploadKey, StagedKeyIsDeletable, IsRowOf, ReadyToComplete;
    var after := StepDb(w.db, s, e);
    match e {
      case ExpireStaged(pk, _, fault) =>
        if pk in w.db.staged { RowDeletionAccounts(w.db, after, w.db.staged[pk].key, OfStaged(pk), fault, key); }
      case DropClaimedStaged(pk, _, fault) =>
        if pk in w.db.staged { RowDeletionAccounts(w.db, after, w.db.staged[pk].key, OfStaged(pk), fault, key); }
      case DropStaged(pk, fault) =>
        if pk in w.db.staged {
          LayoutOfUpload(w, s.base, pk);
          UploadDeletionAccounts(w, s.base, pk, w.db.staged[pk].filename, fault, key);
        }
      case DiscardUpload(pk, filename, fault) =>
        UploadDeletionAccounts(w, s.base, pk, filename, fault, key);
    }
  }

  lemma UploadDeletionAccounts(w: World, base: Key, pk: Id, filename: string, fault: Fault, key: Key)
    requires Inv(w, base) && (pk in w.db.staged ==> w.db.staged[pk].filename == filename)
    requires Found(w.db, key) && key in DeleteUnchecked(w.db, UploadKey(base, pk, filename), OfStaged(pk),
        fault).objects
    ensures Found(DeleteUnchecked(w.db, UploadKey(base, pk, filename), OfStaged(pk), fault), key)
  {
    hide Found, UploadKey;
    UncheckedIsChecked(w, base, pk, filename, fault);
    if pk in w.db.staged {
      CheckedDeletionAccounts(w.db, UploadKey(base, pk, filename), OfStaged(pk), fault, key);
    } else {
      ObjectsDoNotMatter(w.db, w.db.objects - {UploadKey(base, pk, filename)}, key);
      assert w.db.staged - {pk} == w.db.staged;
    }
  }

  /** Rows that stay or only change beside their key go on finding it. */
  lemma RowsStay(before: Db, after: Db, key: Key)
    requires Found(before, key)
    requires forall pk | pk in before.artifacts && before.artifacts[pk].key == key :: Found(after, key)
    requires forall pk | pk in before.staged :: pk in after.staged && after.staged[pk].key == before.staged[pk].key
    requires forall pk | pk in before.pending :: pk in after.pending && after.pending[pk].key == before.pending[pk].key
    requires forall pk | pk in before.prefixes ::
        pk in after.prefixes && after.prefixes[pk].prefix == before.prefixes[pk].prefix
    ensures Found(after, key)
  {
    hide IsBelow;
  }

  lemma UploadRowsStay(w: World, s: Settings, e: Event)
    requires Inv(w, s.base) && Enabled(w, s.base, e) && !IsDeletion(e)
    ensures forall pk | pk in w.db.staged ::
              pk in StepDb(w.db, s, e).staged && StepDb(w.db, s, e).staged[pk].key == w.db.staged[pk].key
  {
    hide UploadKey, AttemptRoot, UnderJob, IsAllocationKey, InFlightIsSafe, VerifiedIsSafe, OnlyCutRowsDangle,
      ReadyToComplete, RemoteJobsStartEmpty, JobIsOwnerless, PointedAt;
  }

  lemma QueueStays(w: World, s: Settings, e: Event)
    requires Enabled(w, s.base, e) && !IsDeletion(e)
    ensures var after := StepDb(w.db, s, e);
            && (forall pk | pk in w.db.pending :: pk in after.pending && after.pending[pk] == w.db.pending[pk])
            && (forall pk | pk in w.db.prefixes :: pk in after.prefixes && after.prefixes[pk] == w.db.prefixes[pk])
  {
    hide UploadKey, AttemptRoot, IsAllocationKey, ReadyToComplete, JobIsOwnerless, ReleaseClaims, PointedAt;
  }

  /** A row that is replaced leaves its key in the queue. */
  lemma ArtifactKeysStayFound(w: World, s: Settings, e: Event, pk: Id)
    requires RemoteJobsStartEmpty(w.db) && Enabled(w, s.base, e) && !IsDeletion(e) && pk in w.db.artifacts
    ensures Found(StepDb(w.db, s, e), w.db.artifacts[pk].key)
  {
    hide UploadKey, AttemptRoot, IsAllocationKey, ReadyToComplete, ReleaseClaims, IsBelow;
    var after, key := StepDb(w.db, s, e), w.db.artifacts[pk].key;
    if e.Swap? && e.pk == pk {
      assert after.pending[e.pendingPk].key == key;
    } else {
      assert pk in after.artifacts && after.artifacts[pk].key == key;
    }
  }

  lemma StepStaysFound(w: World, s: Settings, e: Event, key: Key)
    requires Inv(w, s.base) && Enabled(w, s.base, e) && !IsDeletion(e) && Found(w.db, key)
    ensures Found(StepDb(w.db, s, e), key)
  {
    UploadRowsStay(w, s, e);
    QueueStays(w, s, e);
    hide Enabled, Found, StepDb, IsDeletion;
    forall pk | pk in w.db.artifacts && w.db.artifacts[pk].key == key ensures Found(StepDb(w.db, s, e), key) {
      ArtifactKeysStayFound(w, s, e, pk);
    }
    RowsStay(w.db, StepDb(w.db, s, e), key);
  }

  lemma RowDeletionShrinks(db: Db, target: Key, row: Row, fault: Fault)
    ensures DeleteChecked(db, target, row, fault).objects <= db.objects
    ensures DeleteUnchecked(db, target, row, fault).objects <= db.objects
  {
    hide PointedAt;
  }

  lemma RowStepsStoreNothing(db: Db, s: Settings, e: Event)
    requires e.Prune? || e.DeleteArtifact? || e.Drain? || e.CleanPrefix?
    ensures StepDb(db, s, e).objects <= db.objects
  {
    hide DeleteChecked, PrefixIsCleanable, Unregistered, JobKeyIsDeletable, ArtifactExpired;
    match e {
      case Prune(pk, _, fault) =>
        if pk in db.artifacts { RowDeletionShrinks(db, db.artifacts[pk].key, OfArtifact(pk), fault); }
        ExpiredIsPresent(db, s, pk, e.now);
      case DeleteArtifact(pk, fault) =>
        if pk in db.artifacts { RowDeletionShrinks(db, db.artifacts[pk].key, OfArtifact(pk), fault); }
      case Drain(pk, fault) => if pk in db.pending { RowDeletionShrinks(db, db.pending[pk].key, OfPending(pk), fault); }
      case CleanPrefix(_, _) =>
    }
  }

  lemma ExpiredIsPresent(db: Db, s: Settings, pk: Id, now: real)
    ensures ArtifactExpired(db, s, pk, now) ==> pk in db.artifacts
    ensures StagedCandidate(db, pk, now) ==> pk in db.staged
  {
  }

  lemma UploadStepsStoreNothing(db: Db, s: Settings, e: Event)
    requires e.ExpireStaged? || e.DropClaimedStaged? || e.DropStaged? || e.DiscardUpload?
    ensures StepDb(db, s, e).objects <= db.objects
  {
    hide DeleteChecked, DeleteUnchecked, StagedKeyIsDeletable, StagedCandidate, UploadKey;
    match e {
      case ExpireStaged(pk, _, fault) =>
        if pk in db.staged { RowDeletionShrinks(db, db.staged[pk].key, OfStaged(pk), fault); }
        ExpiredIsPresent(db, s, pk, e.now);
      case DropClaimedStaged(pk, _, fault) =>
        if pk in db.staged { RowDeletionShrinks(db, db.staged[pk].key, OfStaged(pk), fault); }
      case DropStaged(pk, fault) =>
        if pk in db.staged { RowDeletionShrinks(db, db.staged[pk].key, OfStaged(pk), fault); }
      case DiscardUpload(pk, filename, fault) =>
        RowDeletionShrinks(db, UploadKey(s.base, pk, filename), OfStaged(pk), fault);
    }
  }

  lemma DeletionsStoreNothing(db: Db, s: Settings, e: Event)
    requires IsDeletion(e)
    ensures StepDb(db, s, e).objects <= db.objects
  {
    hide StepDb;
    if e.Prune? || e.DeleteArtifact? || e.Drain? || e.CleanPrefix? {
      RowStepsStoreNothing(db, s, e);
    } else {
      UploadStepsStoreNothing(db, s, e);
    }
  }

  lemma NewObjectIsAccounted(w: World, s: Settings, e: Event, key: Key)
    requires key in StepDb(w.db, s, e).objects && key !in w.db.objects
    ensures key in StepAux(w, e).inFlight || StoredBy(s, e) == Some(key)
  {
    if IsDeletion(e) {
      DeletionsStoreNothing(w.db, s, e);
      assert false;
    }
    hide UploadKey, AttemptRoot, PruneArtifact, DeleteJobArtifact, ProcessPending, CleanAttemptPrefix,
      DeleteExpiredStaged, DeleteClaimedStaged, DeleteStaged, DeleteUnchecked, DropJob, ReleaseClaims;
  }

  /** What leaves publication is in a row or in the queue. */
  lemma PublishedIsFound(w: World, s: Settings, e: Event, key: Key)
    requires Enabled(w, s.base, e) && key in w.aux.inFlight && key !in StepAux(w, e).inFlight && e != PublisherDies(key)
    ensures Found(StepDb(w.db, s, e), key)
  {
    hide IsAllocationKey, IsBelow;
    var after := StepDb(w.db, s, e);
    if e.Swap? {
      assert after.artifacts[e.pk].key == key;
    } else {
      assert after.pending[e.pendingPk].key == key;
    }
  }

  lemma StepAccounts(w: World, s: Settings, e: Event, key: Key)
    requires Inv(w, s.base) && Enabled(w, s.base, e)
    requires Accounted(w, key) && !Loses(w.db, s, e, key)
    ensures Accounted(Step(w, s, e), key)
  {
    hide Inv, Enabled, Found, StepDb, StepAux;
    if key !in StepDb(w.db, s, e).objects {
    } else if Found(w.db, key) {
      if e.Prune? || e.DeleteArtifact? || e.Drain? || e.CleanPrefix? {
        JobDeletionAccounts(w, s, e, key);
      } else if IsDeletion(e) {
        StagedDeletionAccounts(w, s, e, key);
      } else {
        StepStaysFound(w, s, e, key);
      }
    } else if key in w.db.objects {
      if key !in StepAux(w, e).inFlight { PublishedIsFound(w, s, e, key); }
    } else {
      NewObjectIsAccounted(w, s, e, key);
    }
  }

  lemma AttemptObjectsAreNotInFlight(w: World, base: Key, job: Id, attempt: nat, key: Key)
    requires Inv(w, base) && IsBelow(key, AttemptRoot(base, job, attempt))
    ensures key !in w.aux.inFlight
  {
    hide UnderJob, IsAllocationKey, AttemptRoot, IsBelow, Layout;
    forall id ensures !IsAllocationKey(base, key, id) {
      if IsAllocationKey(base, key, id) {
        AllocationsAreNotInAttempts(base, key, id, job, attempt);
      }
    }
  }

  /** What is being published is found by nothing else. */
  lemma InFlightIsNotFound(w: World, base: Key, key: Key)
    requires Inv(w, base) && key in w.aux.inFlight
    ensures key in w.db.objects && !Found(w.db, key)
  {
    hide UnderJob, IsAllocationKey, AttemptRoot, UploadKey, IsBelow, PointedAt;
    if pk :| pk in w.db.prefixes && IsBelow(key, w.db.prefixes[pk].prefix) {
      AttemptObjectsAreNotInFlight(w, base, w.db.prefixes[pk].job, w.db.prefixes[pk].attempt, key);
    }
  }

  lemma RestIsBelow(root: Key, rest: Key)
    requires rest != []
    ensures IsBelow(root + rest, root)
  {
  }

  /** A step that loses an object leaves it stored, unfound and without a publisher. */
  lemma LossIsLeak(w: World, s: Settings, e: Event, key: Key)
    requires Inv(w, s.base) && Enabled(w, s.base, e) && Loses(w.db, s, e, key)
    ensures !Accounted(Step(w, s, e), key)
  {
    hide Inv, Found, UploadKey, AttemptRoot, IsAllocationKey;
    if e == PublisherDies(key) {
      InFlightIsNotFound(w, s.base, key);
    } else {
      ObjectsDoNotMatter(w.db, w.db.objects + {key}, key);
      if e.PutUpload? {
        UploadKeysAreNotInFlight(w, s.base, e.pk, e.filename);
      } else {
        RestIsBelow(AttemptRoot(s.base, e.job, e.attempt), e.rest);
        AttemptObjectsAreNotInFlight(w, s.base, e.job, e.attempt, key);
      }
    }
  }

  // -- Runs ----------------------------------------------------------------------------------------------

  ghost predicate LosesAt(s: Settings, events: seq<Event>, k: nat, key: Key)
    requires k < |events|
  {
    Loses(After(s, events[..k]).db, s, events[k], key)
  }

  ghost predicate AccountedAt(s: Settings, events: seq<Event>, k: nat, key: Key)
    requires k <= |events|
  {
    Accounted(After(s, events[..k]), key)
  }

  lemma {:induction false} PrefixIsPossible(s: Settings, events: seq<Event>, k: nat)
    requires Possible(s, events) && k <= |events|
    ensures Possible(s, events[..k])
    decreases |events|
  {
    hide Enabled;
    if k == |events| {
      assert events[..k] == events;
    } else {
      PrefixIsPossible(s, events[..|events| - 1], k);
      assert events[..|events| - 1][..k] == events[..k];
    }
  }

  lemma StepOfRun(s: Settings, events: seq<Event>, k: nat)
    requires Possible(s, events) && k < |events|
    ensures var w := After(s, events[..k]);
            Inv(w, s.base) && Enabled(w, s.base, events[k]) && After(s, events[..k + 1]) == Step(w, s, events[k])
  {
    hide Enabled, Inv, Step;
    PrefixIsPossible(s, events, k + 1);
    assert events[..k + 1][..k] == events[..k];
    InvAlways(s, events[..k]);
  }

  /** Until a step loses it, an object is accounted for. */
  lemma {:induction false} AccountedUntilLost(s: Settings, events: seq<Event>, k: nat, key: Key)
    requires Possible(s, events) && k <= |events|
    requires forall j: nat | j < k :: !LosesAt(s, events, j, key)
    ensures AccountedAt(s, events, k, key)
  {
    hide Enabled, Found, Step, Loses, Inv;
    if k > 0 {
      AccountedUntilLost(s, events, k - 1, key);
      StepOfRun(s, events, k - 1);
      assert !LosesAt(s, events, k - 1, key);
      StepAccounts(After(s, events[..k - 1]), s, events[k - 1], key);
    }
  }

  /**
    In any run an object is at some moment stored with no row, queue entry or attempt
    prefix to find it by, and nobody publishing it, if and only if at some moment it is
    stored when there is none, or its publisher dies between storing it and its row.
   */
  lemma LeakedIffLost(s: Settings, events: seq<Event>, key: Key)
    requires Possible(s, events)
    ensures (exists k: nat :: k <= |events| && !AccountedAt(s, events, k, key))
       <==> (exists k: nat :: k < |events| && LosesAt(s, events, k, key))
  {
    hide Enabled, Found, Step, Loses, Inv, Accounted, After, Possible;
    if k: nat :| k <= |events| && !AccountedAt(s, events, k, key) {
      if forall j: nat | j < k :: !LosesAt(s, events, j, key) {
        AccountedUntilLost(s, events, k, key);
      }
    }
    if k: nat :| k < |events| && LosesAt(s, events, k, key) {
      StepOfRun(s, events, k);
      LossIsLeak(After(s, events[..k]), s, events[k], key);
      assert !AccountedAt(s, events, k + 1, key);
    }
  }

  // -- When an object is stored late ---------------------------------------------------------------------

  lemma AttemptRootsAreDisjoint(base: Key, a: Id, m: nat, b: Id, n: nat, key: Key)
    requires IsBelow(key, AttemptRoot(base, a, m)) && IsBelow(key, AttemptRoot(base, b, n))
    ensures a == b && m == n
  {
    var x, y := AttemptRoot(base, a, m), AttemptRoot(base, b, n);
    assert x == y by { assert |x| == |y| && x <= key && y <= key; }
    assert x[|base| + 1] == IdText(a) && y[|base| + 1] == IdText(b);
    assert x[|base| + 2] == AttemptDirectory(m) && y[|base| + 2] == AttemptDirectory(n);
    IdTextIsInjective(a, b);
    assert AttemptDirectory(m)[8..] == Decimal.Print(m) && AttemptDirectory(n)[8..] == Decimal.Print(n);
    Decimal.ReadOfPrint(m);
    Decimal.ReadOfPrint(n);
  }

  /** An upload is stored late exactly when its row is gone. */
  lemma UploadIsLateIff(w: World, s: Settings, e: Event)
    requires Inv(w, s.base) && Enabled(w, s.base, e) && e.PutUpload?
    ensures StoresLate(w.db, s, e, UploadKey(s.base, e.pk, e.filename)) <==> e.pk !in w.db.staged
  {
    var key := UploadKey(s.base, e.pk, e.filename);
    UploadsArePrivate(w, s.base, e.pk, e.filename);
    hide UploadKey, UnderJob, AttemptRoot, IsBelow, InFlightIsSafe, VerifiedIsSafe;
    forall pk | pk in w.db.pending ensures w.db.pending[pk].key != key {
      UploadsAreNotJobKeys(s.base, e.pk, e.filename, w.db.pending[pk].job);
    }
    forall pk | pk in w.db.prefixes ensures !IsBelow(key, w.db.prefixes[pk].prefix) {
      UploadsAreNotJobKeys(s.base, e.pk, e.filename, w.db.prefixes[pk].job);
      if IsBelow(key, w.db.prefixes[pk].prefix) {
        AttemptsAreUnderTheirJob(s.base, key, w.db.prefixes[pk].job, w.db.prefixes[pk].attempt);
      }
    }
  }

  /**
    An attempt's object is stored late exactly when the attempt has no prefix record and
    nothing else names the key.
   */
  lemma AttemptObjectIsLateIff(w: World, s: Settings, e: Event, key: Key)
    requires Inv(w, s.base) && Enabled(w, s.base, e) && e.WorkerPut? && StoredBy(s, e) == Some(key)
    ensures StoresLate(w.db, s, e, key) <==>
              && (forall pk | pk in w.db.prefixes ::
                w.db.prefixes[pk].job != e.job || w.db.prefixes[pk].attempt != e.attempt)
              && (forall pk | pk in w.db.artifacts :: w.db.artifacts[pk].key != key)
              && (forall pk | pk in w.db.pending :: w.db.pending[pk].key != key)
  {
    RestIsBelow(AttemptRoot(s.base, e.job, e.attempt), e.rest);
    hide UploadKey, UnderJob, AttemptRoot, IsBelow, InFlightIsSafe, VerifiedIsSafe;
    AttemptsAreUnderTheirJob(s.base, key, e.job, e.attempt);
    forall pk | pk in w.db.staged ensures w.db.staged[pk].key != key {
      UploadsAreNotJobKeys(s.base, pk, w.db.staged[pk].filename, e.job);
    }
    forall pk | pk in w.db.prefixes
      ensures IsBelow(key, w.db.prefixes[pk].prefix) <==>
                w.db.prefixes[pk].job == e.job && w.db.prefixes[pk].attempt == e.attempt
    {
      if IsBelow(key, w.db.prefixes[pk].prefix) {
        AttemptRootsAreDisjoint(s.base, e.job, e.attempt, w.db.prefixes[pk].job, w.db.prefixes[pk].attempt, key);
      }
    }
  }

  // -- An upload that outlives its row ----------------------------------------------------------------------

  const DAY := 86400.0

  /** The upload takes longer than the row of its registration is kept. */
  const SLOW := [
    RegisterUpload(1, "a.mp3", DAY),
    ExpireStaged(1, DAY, Whole),
    PutUpload(1, "a.mp3")]

  const MEDIA := Settings(["media"], 0.0, 0.0)

  lemma ThreeSteps(s: Settings, a: Event, b: Event, c: Event)
    ensures After(s, [a, b, c]) == Step(Step(Step(EMPTY, s, a), s, b), s, c)
    ensures Possible(s, [a, b, c]) <==>
              Enabled(EMPTY, s.base, a) && Enabled(Step(EMPTY, s, a), s.base, b) &&
                Enabled(Step(Step(EMPTY, s, a), s, b), s.base, c)
  {
    hide Step, Enabled;
    assert [a, b, c][..2] == [a, b] && [a, b][..1] == [a] && [a][..0] == [];
    assert After(s, [a]) == Step(EMPTY, s, a);
    assert After(s, [a, b]) == Step(After(s, [a]), s, b);
    assert Possible(s, [a]) <==> Enabled(EMPTY, s.base, a);
    assert Possible(s, [a, b]) <==> Possible(s, [a]) && Enabled(Step(EMPTY, s, a), s.base, b);
  }

  lemma SlowUploadIsStoredLate()
    ensures Possible(MEDIA, SLOW)
    ensures UploadKey(MEDIA.base, 1, "a.mp3") in After(MEDIA, SLOW).db.objects
    ensures !Found(After(MEDIA, SLOW).db, UploadKey(MEDIA.base, 1, "a.mp3"))
  {
    hide UploadKey, Enabled, Possible, After;
    ThreeSteps(MEDIA, SLOW[0], SLOW[1], SLOW[2]);
    SlowSteps();
    SlowIsEnabled();
  }

  const SLOW_KEY := UploadKey(MEDIA.base, 1, "a.mp3")
  const REGISTERED := World(EMPTY.db.(staged := map[1 := StagedRow("a.mp3", SLOW_KEY, None, DAY)]),
                            EMPTY.aux.(usedUploads := {1}, unfinished := {1}))
  const EXPIRED := REGISTERED.(db := EMPTY.db)

  lemma SlowSteps()
    ensures Step(EMPTY, MEDIA, SLOW[0]) == REGISTERED
    ensures Step(REGISTERED, MEDIA, SLOW[1]) == EXPIRED
    ensures Step(EXPIRED, MEDIA, SLOW[2]).db == EMPTY.db.(objects := {SLOW_KEY})
  {
    UploadIsDeletable();
    hide UploadKey, StagedKeyIsDeletable;
    assert REGISTERED.db.staged - {1} == map[];
    assert !PointedAt(REGISTERED.db, SLOW_KEY, Some(OfStaged(1)));
  }

  lemma SlowIsEnabled()
    ensures Enabled(EMPTY, MEDIA.base, SLOW[0]) && Enabled(REGISTERED, MEDIA.base, SLOW[1]) &&
        Enabled(EXPIRED, MEDIA.base, SLOW[2])
  {
    hide UploadKey;
  }

  lemma UploadIsDeletable()
    ensures StagedKeyIsDeletable(UploadKey(MEDIA.base, 1, "a.mp3"), 1, "a.mp3")
  {
  }
}
