/**
  One retention run over the five tables, batch by batch, and its dry run
  (jobs/retention.py). The dry run decides everything on the state it starts from;
  the real run decides each phase, and each row, on what the earlier deletions left.
  Over the generated key layouts both name the same rows.
 */
module RetentionPrune {
  import opened Wrappers
  import opened Retention
  import opened RetentionSafety

  datatype Phase = Artifacts | Pending | Prefixes | Staged | Jobs

  /** Where a sweep goes on in one phase: a phase not started, the last row seen, or nothing left. */
  datatype Cursor = Fresh | After(pk: Id) | Exhausted

  /** The outcome of one row; `Absent` is a row that went in the meantime and is not reported. */
  datatype Outcome = Deleted | Refused | Failed | Absent

  /** What one phase reports: the rows removed, refused and failed, and where to go on. */
  datatype Report = Report(deleted: seq<Id>, refused: seq<Id>, failed: seq<Id>, next: Cursor)

  // -- Batches -----------------------------------------------------------------------------

  predicate IsLeast(x: Id, ids: set<Id>) { x in ids && forall y | y in ids :: x <= y }

  lemma LeastOfMore(x: Id, z: Id, ids: set<Id>)
    requires IsLeast(x, ids)
    ensures IsLeast(if x <= z then x else z, ids + {z})
  {
  }

  lemma {:induction false} SmallestExists(ids: set<Id>)
    requires ids != {}
    ensures exists x :: IsLeast(x, ids)
  {
    var z :| z in ids;
    var rest := ids - {z};
    assert ids == rest + {z};
    if rest == {} {
      assert IsLeast(z, ids);
    } else {
      hide IsLeast;
      SmallestExists(rest);
      var x :| IsLeast(x, rest);
      LeastOfMore(x, z, rest);
    }
  }

  function Smallest(ids: set<Id>): (x: Id)
    requires ids != {}
    ensures IsLeast(x, ids)
  {
    SmallestExists(ids);
    var x :| IsLeast(x, ids);
    x
  }

  /** The rows of a query by primary key. */
  function InOrder(ids: set<Id>): seq<Id> {
    if ids == {} then [] else [Smallest(ids)] + InOrder(ids - {Smallest(ids)})
  }

  predicate StrictlyIncreasing(ids: seq<Id>) {
    forall i, j | 0 <= i < j < |ids| :: ids[i] < ids[j]
  }

  /** `rows` are the identifiers, each once, by size. */
  ghost predicate Lists(rows: seq<Id>, ids: set<Id>) {
    StrictlyIncreasing(rows) && forall id :: id in rows <==> id in ids
  }

  lemma PuttingLeastFirst(least: Id, tail: seq<Id>, ids: set<Id>)
    requires least in ids && Lists(tail, ids - {least}) && forall id | id in ids :: least <= id
    ensures Lists([least] + tail, ids)
  {
    forall i | 0 <= i < |tail| ensures least < tail[i] {
      assert tail[i] in tail;
    }
    assert forall id :: id in [least] + tail <==> id == least || id in tail;
  }

  lemma {:induction false} InOrderSorts(ids: set<Id>)
    ensures Lists(InOrder(ids), ids)
  {
    hide Lists;
    if ids == {} {
      NothingToList();
    } else {
      InOrderSorts(ids - {Smallest(ids)});
      PuttingLeastFirst(Smallest(ids), InOrder(ids - {Smallest(ids)}), ids);
    }
  }

  lemma NothingToList()
    ensures Lists([], {})
  {
  }

  /** The rows after the cursor. */
  function Ahead(ids: set<Id>, cursor: Cursor): set<Id> {
    match cursor
    case Fresh => ids
    case After(last) => set pk | pk in ids && last < pk
    case Exhausted => {}
  }

  /** At most `size` rows after the cursor, and the cursor of the next batch. */
  function Batch(ids: set<Id>, cursor: Cursor, size: nat): (seq<Id>, Cursor)
    requires size >= 1
  {
    if cursor.Exhausted? then ([], Exhausted)
    else
      var rows := InOrder(Ahead(ids, cursor));
      if |rows| > size then (rows[..size], After(rows[size - 1])) else (rows, Exhausted)
  }

  /**
    A batch holds the next rows and no others: what lies at or before its cursor is
    done, what lies after it is left, and an exhausted phase has nothing left.
   */
  lemma BatchIsNext(ids: set<Id>, cursor: Cursor, size: nat)
    requires size >= 1 && !cursor.Exhausted?
    ensures var (rows, next) := Batch(ids, cursor, size);
            && StrictlyIncreasing(rows) && |rows| <= size && next != Fresh
            && forall pk :: pk in rows <==> pk in Ahead(ids, cursor) && (next.After? ==> pk <= next.pk)
  {
    InOrderSorts(Ahead(ids, cursor));
    var rows := InOrder(Ahead(ids, cursor));
    hide InOrder;
    if |rows| > size {
    }
  }

  // -- One row --------------------------------------------------------------------------------

  function KeysOf(db: Db, phase: Phase): set<Id> {
    match phase
    case Artifacts => db.artifacts.Keys
    case Pending => db.pending.Keys
    case Prefixes => db.prefixes.Keys
    case Staged => db.staged.Keys
    case Jobs => db.jobs.Keys
  }

  /** The rows a phase looks at. */
  function Candidates(db: Db, s: Settings, phase: Phase, now: real): set<Id> {
    match phase
    case Artifacts => set pk | pk in db.artifacts && ArtifactExpired(db, s, pk, now)
    case Pending => db.pending.Keys
    case Prefixes => set pk | pk in db.prefixes && ProfileJobExpired(db, db.prefixes[pk].job, now)
    case Staged => set pk | pk in db.staged && StagedCandidate(db, pk, now)
    case Jobs => set id | id in db.jobs && JobExpired(db, s, id, now)
  }

  /** The checks both runs make before they delete a row. */
  predicate Allowed(db: Db, phase: Phase, pk: Id)
    requires pk in KeysOf(db, phase)
  {
    match phase
    case Artifacts => JobKeyIsDeletable(db.artifacts[pk].key, db.artifacts[pk].job, Some(db.artifacts[pk].name))
    case Pending => JobKeyIsDeletable(db.pending[pk].key, db.pending[pk].job, None)
    case Prefixes => PrefixIsCleanable(db, db.prefixes[pk])
    case Staged => StagedKeyIsDeletable(db.staged[pk].key, pk, db.staged[pk].filename)
    case Jobs => true
  }

  function DeleteRow(db: Db, s: Settings, phase: Phase, pk: Id, now: real): Db {
    match phase
    case Artifacts => PruneArtifact(db, s, pk, now, Whole)
    case Pending => ProcessPending(db, pk, Whole)
    case Prefixes => CleanAttemptPrefix(db, pk, None)
    case Staged => DeleteExpiredStaged(db, pk, now, Whole)
    case Jobs => if JobExpired(db, s, pk, now) then db.(jobs := db.jobs - {pk}) else db
  }

  /** Under the lock, the row is looked up again; is it there and still due? */
  predicate Found(db: Db, s: Settings, phase: Phase, pk: Id, now: real) {
    match phase
    case Artifacts => ArtifactExpired(db, s, pk, now)
    case Pending => pk in db.pending
    case Prefixes => pk in db.prefixes && !(db.prefixes[pk].job in db.jobs && !db.jobs[db.prefixes[pk].job].terminal)
    case Staged => StagedCandidate(db, pk, now)
    case Jobs => JobExpired(db, s, pk, now)
  }

  /** Queue, prefix and upload rows that are gone count as deleted; artifacts and jobs do not. */
  function OutcomeOf(db: Db, s: Settings, phase: Phase, pk: Id, now: real): Outcome {
    if Found(db, s, phase, pk, now) then if Allowed(db, phase, pk) then Deleted else Refused
    else if phase.Artifacts? || phase.Jobs? then Absent else Deleted
  }

  // -- The two runs ---------------------------------------------------------------------------------

  /** The real run over the rows of one batch, row after row. */
  function Sweep(db: Db, s: Settings, phase: Phase, pks: seq<Id>, now: real): Db {
    if pks == [] then db
    else DeleteRow(Sweep(db, s, phase, pks[..|pks| - 1], now), s, phase, pks[|pks| - 1], now)
  }

  /** The rows of the batch that came to the outcome, each judged on what the earlier ones left. */
  function Swept(db: Db, s: Settings, phase: Phase, pks: seq<Id>, now: real, outcome: Outcome): seq<Id> {
    if pks == [] then []
    else
      var init, pk := pks[..|pks| - 1], pks[|pks| - 1];
      Swept(db, s, phase, init, now, outcome)
        + if OutcomeOf(Sweep(db, s, phase, init, now), s, phase, pk, now) == outcome then [pk] else []
  }

  function RealReport(db: Db, s: Settings, phase: Phase, now: real, cursor: Cursor, size: nat): Report
    requires size >= 1
  {
    var (pks, next) := Batch(Candidates(db, s, phase, now), cursor, size);
    Report(Swept(db, s, phase, pks, now, Deleted), Swept(db, s, phase, pks, now, Refused), [], next)
  }

  function RealDb(db: Db, s: Settings, phase: Phase, now: real, cursor: Cursor, size: nat): Db
    requires size >= 1
  {
    Sweep(db, s, phase, Batch(Candidates(db, s, phase, now), cursor, size).0, now)
  }

  /** The rows of the batch that the dry run would delete, or refuse. */
  function Predicted(db: Db, phase: Phase, pks: seq<Id>, allowed: bool): seq<Id>
    requires forall pk | pk in pks :: pk in KeysOf(db, phase)
  {
    if pks == [] then []
    else
      Predicted(db, phase, pks[..|pks| - 1], allowed)
        + if Allowed(db, phase, pks[|pks| - 1]) == allowed then [pks[|pks| - 1]] else []
  }

  /** The rows a batch takes are rows of the table. */
  lemma BatchIsOfTable(db: Db, s: Settings, phase: Phase, now: real, cursor: Cursor, size: nat)
    requires size >= 1
    ensures var (pks, _) := Batch(Candidates(db, s, phase, now), cursor, size);
            StrictlyIncreasing(pks) && forall pk | pk in pks ::
              pk in Candidates(db, s, phase, now) && pk in KeysOf(db, phase)
  {
    if !cursor.Exhausted? {
      BatchIsNext(Candidates(db, s, phase, now), cursor, size);
    }
  }

  function DryReport(db: Db, s: Settings, phase: Phase, now: real, cursor: Cursor, size: nat): Report
    requires size >= 1
  {
    BatchIsOfTable(db, s, phase, now, cursor, size);
    var (pks, next) := Batch(Candidates(db, s, phase, now), cursor, size);
    Report(Predicted(db, phase, pks, true), Predicted(db, phase, pks, false), [], next)
  }

  // -- What deletions leave alone ------------------------------------------------------------------------

  /** The objects a retention run may remove: generated ones of a job, or an upload's. */
  ghost predicate Generated(base: Key, key: Key) {
    || (exists job :: UnderJob(base, key, job) && JobKeyIsDeletable(key, job, None))
    || (exists id, filename :: key == UploadKey(base, id, filename))
  }

  /** The rows that are still there are as they were. */
  ghost predicate RowsStay(before: Db, after: Db) {
    && (forall pk | pk in after.artifacts :: pk in before.artifacts && after.artifacts[pk] == before.artifacts[pk])
    && (forall pk | pk in after.staged :: pk in before.staged && after.staged[pk] == before.staged[pk])
    && (forall pk | pk in after.pending :: pk in before.pending && after.pending[pk] == before.pending[pk])
    && (forall pk | pk in after.prefixes :: pk in before.prefixes && after.prefixes[pk] == before.prefixes[pk])
    && (forall id | id in after.jobs :: id in before.jobs && after.jobs[id] == before.jobs[id])
  }

  /** `db` is what deletions left of `start`. */
  ghost predicate Left(start: Db, db: Db, base: Key) {
    && db.objects <= start.objects
    && (forall key | key in start.objects && key !in db.objects :: Generated(base, key))
    && RowsStay(start, db)
  }

  /** A generated object below a job's attempt prefix is that job's own. */
  lemma GeneratedBelowPrefix(base: Key, key: Key, job: Id, attempt: nat)
    requires Generated(base, key) && IsBelow(key, AttemptRoot(base, job, attempt))
    ensures JobKeyIsDeletable(key, job, None)
  {
    hide UnderJob, JobKeyIsDeletable, AttemptRoot, UploadKey, IsBelow;
    AttemptsAreUnderTheirJob(base, key, job, attempt);
    if owner :| UnderJob(base, key, owner) && JobKeyIsDeletable(key, owner, None) {
      JobRootsAreDisjoint(base, key, owner, job);
    } else {
      var id, filename :| key == UploadKey(base, id, filename);
      UploadsAreNotJobKeys(base, id, filename, job);
    }
  }

  /** Earlier deletions change nothing about which prefixes may be cleaned. */
  lemma PrefixesStayAsTheyWere(start: Db, db: Db, base: Key, record: PrefixRow)
    requires Left(start, db, base) && record.prefix == AttemptRoot(base, record.job, record.attempt)
    ensures PrefixIsCleanable(db, record) == PrefixIsCleanable(start, record)
  {
    hide Generated, JobKeyIsDeletable, AttemptPrefixIsDeletable, AttemptRoot, IsBelow;
    forall key | key in KeysBelow(start, record.prefix) && key !in KeysBelow(db, record.prefix)
      ensures JobKeyIsDeletable(key, record.job, None)
    {
      GeneratedBelowPrefix(base, key, record.job, record.attempt);
    }
    assert KeysBelow(db, record.prefix) <= KeysBelow(start, record.prefix);
  }

  /** What is left of a row is judged as it was at the start. */
  lemma AllowedStays(start: Db, db: Db, base: Key, phase: Phase, pk: Id)
    requires Layout(start, base) && Left(start, db, base) && pk in KeysOf(db, phase)
    ensures pk in KeysOf(start, phase) && Allowed(db, phase, pk) == Allowed(start, phase, pk)
  {
    hide JobKeyIsDeletable, StagedKeyIsDeletable, PrefixIsCleanable, Generated, UnderJob, UploadKey;
    if phase.Prefixes? {
      PrefixesStayAsTheyWere(start, db, base, db.prefixes[pk]);
    }
  }

  /** What is left stays left when generated objects and rows go. */
  lemma ShrinkingStaysLeft(start: Db, db: Db, after: Db, gone: set<Key>, base: Key)
    requires Left(start, db, base) && Shrinks(db, after, gone) && forall key | key in gone :: Generated(base, key)
    ensures Left(start, after, base)
  {
    hide Generated;
  }

  lemma DeletedRowsAreLeft(start: Db, db: Db, base: Key, key: Key, row: Row)
    requires Left(start, db, base) && Generated(base, key)
    ensures Left(start, DeleteChecked(db, key, row, Whole), base)
  {
    hide Generated, PointedAt, Left, Shrinks, DeleteChecked;
    CheckedDeletionShrinks(db, key, row, Whole);
    ShrinkingStaysLeft(start, db, DeleteChecked(db, key, row, Whole), Gone(db, key, row, Whole), base);
  }

  function PhaseOf(row: Row): Phase {
    match row case OfArtifact(_) => Artifacts case OfPending(_) => Pending case OfStaged(_) => Staged
  }

  lemma DeleteCheckedDropsOneRow(db: Db, key: Key, row: Row)
    ensures forall p: Phase ::
        KeysOf(DeleteChecked(db, key, row, Whole), p) == KeysOf(db, p) - if p == PhaseOf(row) then {row.pk} else {}
  {
    hide PointedAt;
  }

  /** One deletion: the candidate row goes if it is allowed to, every other row stays, and only generated objects go. */
  lemma DeleteRowIsExact(start: Db, db: Db, s: Settings, phase: Phase, pk: Id, now: real)
    requires Layout(start, s.base) && Left(start, db, s.base) && pk in Candidates(db, s, phase, now)
    ensures var after := DeleteRow(db, s, phase, pk, now);
            && Left(start, after, s.base)
            && forall p: Phase ::
              KeysOf(after, p) == KeysOf(db, p) - if p == phase && Allowed(db, phase, pk) then {pk} else {}
  {
    hide UnderJob, UploadKey, JobKeyIsDeletable, StagedKeyIsDeletable, PointedAt, AttemptRoot, Generated, DeleteChecked,
      Layout, Left, CleanAttemptPrefix, JobExpired, ArtifactExpired, StagedCandidate;
    KeptRows(start, db, s.base, phase, pk);
    match phase
    case Artifacts =>
      var row := db.artifacts[pk];
      if Allowed(db, phase, pk) {
        ArtifactIsGenerated(start, s.base, pk);
        DeletedRowsAreLeft(start, db, s.base, row.key, OfArtifact(pk));
        DeleteCheckedDropsOneRow(db, row.key, OfArtifact(pk));
      }
    case Pending =>
      var row := db.pending[pk];
      if Allowed(db, phase, pk) {
        PendingIsGenerated(start, s.base, pk);
        DeletedRowsAreLeft(start, db, s.base, row.key, OfPending(pk));
        DeleteCheckedDropsOneRow(db, row.key, OfPending(pk));
      }
    case Prefixes => CleaningIsExact(start, db, s, pk, now);
    case Staged =>
      if Allowed(db, phase, pk) {
        UploadIsGenerated(start, s.base, pk);
        DeletedRowsAreLeft(start, db, s.base, db.staged[pk].key, OfStaged(pk));
        DeleteCheckedDropsOneRow(db, db.staged[pk].key, OfStaged(pk));
      }
    case Jobs => JobRowIsExact(start, db, s, pk, now);
  }

  lemma KeptRows(start: Db, db: Db, base: Key, phase: Phase, pk: Id)
    requires Left(start, db, base)
    ensures phase.Artifacts? && pk in db.artifacts ==> pk in start.artifacts && db.artifacts[pk] == start.artifacts[pk]
    ensures phase.Pending? && pk in db.pending ==> pk in start.pending && db.pending[pk] == start.pending[pk]
    ensures phase.Staged? && pk in db.staged ==> pk in start.staged && db.staged[pk] == start.staged[pk]
    ensures pk in KeysOf(db, phase) ==> pk in KeysOf(start, phase)
  {
    hide Generated;
  }

  lemma JobRowIsExact(start: Db, db: Db, s: Settings, id: Id, now: real)
    requires Left(start, db, s.base) && JobExpired(db, s, id, now)
    ensures var after := db.(jobs := db.jobs - {id});
            Left(start, after, s.base) && forall p: Phase ::
              KeysOf(after, p) == KeysOf(db, p) - if p == Jobs then {id} else {}
  {
    hide Generated, JobExpired;
  }

  lemma CleaningIsExact(start: Db, db: Db, s: Settings, pk: Id, now: real)
    requires Layout(start, s.base) && Left(start, db, s.base) && pk in Candidates(db, s, Prefixes, now)
    ensures var after := CleanAttemptPrefix(db, pk, None);
            && Left(start, after, s.base)
            && forall p: Phase ::
              KeysOf(after, p) == KeysOf(db, p) - if p == Prefixes && Allowed(db, Prefixes, pk) then {pk} else {}
  {
    hide UnderJob, UploadKey, JobKeyIsDeletable, PointedAt, AttemptRoot, Generated, PrefixIsCleanable, IsBelow, Layout;
    if PrefixIsCleanable(db, db.prefixes[pk]) {
      PrefixObjectsAreGenerated(start, db, s.base, pk);
      assert Unregistered(db, db.prefixes[pk].prefix) <= KeysBelow(db, db.prefixes[pk].prefix);
    }
  }

  lemma ArtifactIsGenerated(db: Db, base: Key, pk: Id)
    requires Layout(db, base) && pk in db.artifacts
    requires JobKeyIsDeletable(db.artifacts[pk].key, db.artifacts[pk].job, Some(db.artifacts[pk].name))
    ensures Generated(base, db.artifacts[pk].key)
  {
    hide UnderJob, UploadKey;
    assert JobKeyIsDeletable(db.artifacts[pk].key, db.artifacts[pk].job, None);
  }

  lemma PendingIsGenerated(db: Db, base: Key, pk: Id)
    requires Layout(db, base) && pk in db.pending && JobKeyIsDeletable(db.pending[pk].key, db.pending[pk].job, None)
    ensures Generated(base, db.pending[pk].key)
  {
    hide UnderJob, UploadKey, JobKeyIsDeletable;
  }

  lemma UploadIsGenerated(db: Db, base: Key, pk: Id)
    requires Layout(db, base) && pk in db.staged
    ensures Generated(base, db.staged[pk].key)
  {
    hide UnderJob, UploadKey, JobKeyIsDeletable;
  }

  lemma PrefixObjectsAreGenerated(start: Db, db: Db, base: Key, pk: Id)
    requires Layout(start, base) && Left(start, db, base) && pk in db.prefixes && PrefixIsCleanable(db, db.prefixes[pk])
    ensures forall key | key in KeysBelow(db, db.prefixes[pk].prefix) :: Generated(base, key)
  {
    hide UnderJob, UploadKey, JobKeyIsDeletable, AttemptRoot, IsBelow;
    var record := db.prefixes[pk];
    forall key | key in KeysBelow(db, record.prefix) ensures Generated(base, key) {
      AttemptsAreUnderTheirJob(base, key, record.job, record.attempt);
    }
  }

  // -- One phase ----------------------------------------------------------------------------------------

  function Ids(pks: seq<Id>): set<Id> { set pk | pk in pks }

  lemma {:induction false} PredictedAreOfBatch(db: Db, phase: Phase, pks: seq<Id>, allowed: bool)
    requires forall pk | pk in pks :: pk in KeysOf(db, phase)
    ensures forall pk | pk in Predicted(db, phase, pks, allowed) :: pk in pks
  {
    if pks != [] {
      PredictedAreOfBatch(db, phase, pks[..|pks| - 1], allowed);
    }
  }

  /** A row that is still there after deletions of its own phase is still a candidate. */
  lemma CandidateStays(start: Db, db: Db, mid: Db, s: Settings, phase: Phase, pk: Id, now: real)
    requires Left(start, db, s.base) && Left(start, mid, s.base)
    requires forall p: Phase | p != phase :: KeysOf(mid, p) == KeysOf(db, p)
    requires pk in Candidates(db, s, phase, now) && pk in KeysOf(mid, phase)
    ensures pk in Candidates(mid, s, phase, now)
  {
    hide Generated;
    assert KeysOf(mid, Artifacts) == KeysOf(db, Artifacts) || phase == Artifacts;
    assert KeysOf(mid, Pending) == KeysOf(db, Pending) || phase == Pending;
    assert KeysOf(mid, Prefixes) == KeysOf(db, Prefixes) || phase == Prefixes;
    assert KeysOf(mid, Staged) == KeysOf(db, Staged) || phase == Staged;
    assert KeysOf(mid, Jobs) == KeysOf(db, Jobs) || phase == Jobs;
  }

  /** The rows `done` are gone and no other row is. */
  ghost predicate Lost(before: Db, after: Db, phase: Phase, done: set<Id>) {
    forall p: Phase :: KeysOf(after, p) == KeysOf(before, p) - if p == phase then done else {}
  }

  lemma NextRowIsOpen(start: Db, db: Db, mid: Db, s: Settings, phase: Phase, pks: seq<Id>, now: real)
    requires Left(start, db, s.base) && Left(start, mid, s.base) && pks != []
    requires StrictlyIncreasing(pks) && forall pk | pk in pks ::
        pk in Candidates(db, s, phase, now) && pk in KeysOf(start, phase)
    requires Lost(db, mid, phase, Ids(Predicted(start, phase, pks[..|pks| - 1], true)))
    ensures pks[|pks| - 1] in Candidates(mid, s, phase, now) && pks[|pks| - 1] in KeysOf(mid, phase)
  {
    hide Left, ArtifactExpired, StagedCandidate, ProfileJobExpired, JobExpired;
    var init, pk := pks[..|pks| - 1], pks[|pks| - 1];
    PredictedAreOfBatch(start, phase, init, true);
    assert pk in pks && pk !in init;
    assert pk in KeysOf(mid, phase);
    forall p: Phase | p != phase ensures KeysOf(mid, p) == KeysOf(db, p) { }
    CandidateStays(start, db, mid, s, phase, pk, now);
  }

  /** Row after row, the real run does what was predicted on the state it started from. */
  lemma {:induction false} SweepIsPredicted(start: Db, db: Db, s: Settings, phase: Phase, pks: seq<Id>, now: real)
    requires Layout(start, s.base) && Left(start, db, s.base)
    requires StrictlyIncreasing(pks) && forall pk | pk in pks ::
        pk in Candidates(db, s, phase, now) && pk in KeysOf(start, phase)
    ensures var after := Sweep(db, s, phase, pks, now);
            && Left(start, after, s.base)
            && Lost(db, after, phase, Ids(Predicted(start, phase, pks, true)))
            && Swept(db, s, phase, pks, now, Deleted) == Predicted(start, phase, pks, true)
            && Swept(db, s, phase, pks, now, Refused) == Predicted(start, phase, pks, false)
  {
    hide Candidates, Layout, Left, DeleteRow, Allowed, KeysOf, Lost, OutcomeOf;
    if pks == [] {
      NothingLost(db, phase);
      assert Ids([]) == {};
    } else {
      var init, pk := pks[..|pks| - 1], pks[|pks| - 1];
      SweepIsPredicted(start, db, s, phase, init, now);
      var mid := Sweep(db, s, phase, init, now);
      NextRowIsOpen(start, db, mid, s, phase, pks, now);
      NextRowIsPredicted(start, db, mid, s, phase, pk, now, Ids(Predicted(start, phase, init, true)));
      assert Ids(Predicted(start, phase, pks, true)) ==
        Ids(Predicted(start, phase, init, true)) + if Allowed(start, phase, pk) then {pk} else {};
    }
  }

  lemma NothingLost(db: Db, phase: Phase)
    ensures Lost(db, db, phase, {})
  {
  }

  lemma NextRowIsPredicted(start: Db, db: Db, mid: Db, s: Settings, phase: Phase, pk: Id, now: real, done: set<Id>)
    requires Layout(start, s.base) && Left(start, mid, s.base) && Lost(db, mid, phase, done)
    requires pk in Candidates(mid, s, phase, now) && pk in KeysOf(mid, phase) && pk in KeysOf(start, phase)
    ensures OutcomeOf(mid, s, phase, pk, now) == if Allowed(start, phase, pk) then Deleted else Refused
    ensures Left(start, DeleteRow(mid, s, phase, pk, now), s.base)
    ensures Lost(db, DeleteRow(mid, s, phase, pk, now), phase, done + if Allowed(start, phase, pk) then {pk} else {})
  {
    hide Layout, Left, DeleteRow, Allowed, KeysOf, JobExpired, ArtifactExpired, StagedCandidate;
    DeleteRowIsExact(start, mid, s, phase, pk, now);
    AllowedStays(start, mid, s.base, phase, pk);
  }

  /** On what earlier phases left, a phase before the last reports what the dry run reports on the start. */
  lemma PhaseIsPredicted(start: Db, db: Db, s: Settings, phase: Phase, now: real, cursor: Cursor, size: nat)
    requires size >= 1 && !phase.Jobs?
    requires Layout(start, s.base) && Left(start, db, s.base)
    requires KeysOf(db, phase) == KeysOf(start, phase) && db.jobs == start.jobs
    ensures RealReport(db, s, phase, now, cursor, size) == DryReport(start, s, phase, now, cursor, size)
    ensures Left(start, RealDb(db, s, phase, now, cursor, size), s.base)
    ensures Lost(db, RealDb(db, s, phase, now, cursor, size), phase,
        Ids(DryReport(start, s, phase, now, cursor, size).deleted))
  {
    BatchIsOfTable(start, s, phase, now, cursor, size);
    assert Candidates(db, s, phase, now) == Candidates(start, s, phase, now);
    hide Layout, Left, Candidates, KeysOf;
    SweepIsPredicted(start, db, s, phase, Batch(Candidates(start, s, phase, now), cursor, size).0, now);
  }

  // -- The whole run ---------------------------------------------------------------------------------------

  datatype Cursors = Cursors(artifacts: Cursor, pending: Cursor, prefixes: Cursor, staged: Cursor, jobs: Cursor)

  datatype RunReport = RunReport(artifacts: Report, pending: Report, prefixes: Report, staged: Report, jobs: Report)
  {
    /** A run that leaves no phase open starts the next sweep afresh. */
    function Next(): Cursors {
      if artifacts.next.After? || pending.next.After? || prefixes.next.After? || staged.next.After? || jobs.next.After?
      then Cursors(artifacts.next, pending.next, prefixes.next, staged.next, jobs.next)
      else Cursors(Fresh, Fresh, Fresh, Fresh, Fresh)
    }

    function Of(phase: Phase): Report {
      match phase
      case Artifacts => artifacts
      case Pending => pending
      case Prefixes => prefixes
      case Staged => staged
      case Jobs => jobs
    }
  }

  /** Nothing of the job is left once the named rows are gone. */
  predicate OwnerlessWithout(db: Db, id: Id, artifacts: set<Id>, pending: set<Id>, prefixes: set<Id>, staged: set<Id>) {
    && (forall pk | pk in db.artifacts && pk !in artifacts :: db.artifacts[pk].job != id)
    && (forall pk | pk in db.pending && pk !in pending :: db.pending[pk].job != id)
    && (forall pk | pk in db.prefixes && pk !in prefixes :: db.prefixes[pk].job != id)
    && (forall pk | pk in db.staged && pk !in staged :: db.staged[pk].claimedBy != Some(id))
  }

  function JobsWithout(db: Db, s: Settings, now: real, artifacts: set<Id>, pending: set<Id>, prefixes: set<Id>,
      staged: set<Id>): set<Id> {
    set id | id in db.jobs && JobIsOld(db, s, id, now) && OwnerlessWithout(db, id, artifacts, pending, prefixes, staged)
  }

  function DryRun(db: Db, s: Settings, now: real, c: Cursors, size: nat): RunReport
    requires size >= 1
  {
    var artifacts := DryReport(db, s, Artifacts, now, c.artifacts, size);
    var pending := DryReport(db, s, Pending, now, c.pending, size);
    var prefixes := DryReport(db, s, Prefixes, now, c.prefixes, size);
    var staged := DryReport(db, s, Staged, now, c.staged, size);
    var open := JobsWithout(db, s, now, Ids(artifacts.deleted), Ids(pending.deleted), Ids(prefixes.deleted),
      Ids(staged.deleted));
    var (jobs, next) := Batch(open, c.jobs, size);
    RunReport(artifacts, pending, prefixes, staged, Report(jobs, [], [], next))
  }

  /** The states a real run passes through, one per phase. */
  function AfterArtifacts(db: Db, s: Settings, now: real, c: Cursors, size: nat): Db
    requires size >= 1
  {
    RealDb(db, s, Artifacts, now, c.artifacts, size)
  }

  function AfterPending(db: Db, s: Settings, now: real, c: Cursors, size: nat): Db
    requires size >= 1
  {
    RealDb(AfterArtifacts(db, s, now, c, size), s, Pending, now, c.pending, size)
  }

  function AfterPrefixes(db: Db, s: Settings, now: real, c: Cursors, size: nat): Db
    requires size >= 1
  {
    RealDb(AfterPending(db, s, now, c, size), s, Prefixes, now, c.prefixes, size)
  }

  function AfterStaged(db: Db, s: Settings, now: real, c: Cursors, size: nat): Db
    requires size >= 1
  {
    RealDb(AfterPrefixes(db, s, now, c, size), s, Staged, now, c.staged, size)
  }

  function AfterRun(db: Db, s: Settings, now: real, c: Cursors, size: nat): Db
    requires size >= 1
  {
    RealDb(AfterStaged(db, s, now, c, size), s, Jobs, now, c.jobs, size)
  }

  function RealRun(db: Db, s: Settings, now: real, c: Cursors, size: nat): RunReport
    requires size >= 1
  {
    RunReport(
      RealReport(db, s, Artifacts, now, c.artifacts, size),
      RealReport(AfterArtifacts(db, s, now, c, size), s, Pending, now, c.pending, size),
      RealReport(AfterPending(db, s, now, c, size), s, Prefixes, now, c.prefixes, size),
      RealReport(AfterPrefixes(db, s, now, c, size), s, Staged, now, c.staged, size),
      RealReport(AfterStaged(db, s, now, c, size), s, Jobs, now, c.jobs, size))
  }

  /** The jobs the last phase finds are those the dry run counts on. */
  lemma JobsArePredicted(start: Db, db: Db, s: Settings, now: real, artifacts: set<Id>, pending: set<Id>,
      prefixes: set<Id>, staged: set<Id>)
    requires Left(start, db, s.base)
    requires KeysOf(db, Artifacts) == KeysOf(start, Artifacts) - artifacts &&
        KeysOf(db, Pending) == KeysOf(start, Pending) - pending
    requires KeysOf(db, Prefixes) == KeysOf(start, Prefixes) - prefixes &&
        KeysOf(db, Staged) == KeysOf(start, Staged) - staged
    requires KeysOf(db, Jobs) == KeysOf(start, Jobs)
    ensures Candidates(db, s, Jobs, now) == JobsWithout(start, s, now, artifacts, pending, prefixes, staged)
  {
    hide Generated;
    forall id
      ensures id in Candidates(db, s, Jobs, now) <==>
          id in JobsWithout(start, s, now, artifacts, pending, prefixes, staged)
    {
      if id in start.jobs {
      }
    }
  }

  /** The tables as keys of what the four phases before the jobs have left. */
  ghost predicate LeftAfter(start: Db, db: Db, base: Key, artifacts: set<Id>, pending: set<Id>, prefixes: set<Id>,
      staged: set<Id>) {
    && Left(start, db, base) && db.jobs == start.jobs
    && KeysOf(db, Artifacts) == KeysOf(start, Artifacts) - artifacts &&
      KeysOf(db, Pending) == KeysOf(start, Pending) - pending
    && KeysOf(db, Prefixes) == KeysOf(start, Prefixes) - prefixes &&
      KeysOf(db, Staged) == KeysOf(start, Staged) - staged
  }

  /** One phase more: its own table loses the rows it deleted. */
  lemma OnePhaseMore(start: Db, db: Db, after: Db, base: Key, phase: Phase, done: set<Id>, a: set<Id>, p: set<Id>,
      x: set<Id>, t: set<Id>)
    requires !phase.Jobs? && LeftAfter(start, db, base, a, p, x, t)
    requires Left(start, after, base) && Lost(db, after, phase, done)
    ensures LeftAfter(start, after, base,
              if phase.Artifacts? then a + done else a, if phase.Pending? then p + done else p,
              if phase.Prefixes? then x + done else x, if phase.Staged? then t + done else t)
  {
    hide Generated;
    assert KeysOf(after, Artifacts) == KeysOf(db, Artifacts) - if phase.Artifacts? then done else {};
    assert KeysOf(after, Pending) == KeysOf(db, Pending) - if phase.Pending? then done else {};
    assert KeysOf(after, Prefixes) == KeysOf(db, Prefixes) - if phase.Prefixes? then done else {};
    assert KeysOf(after, Staged) == KeysOf(db, Staged) - if phase.Staged? then done else {};
    assert KeysOf(after, Jobs) == KeysOf(db, Jobs) - {};
    assert after.jobs == start.jobs;
  }

  /** Up to the jobs, every phase reports what the dry run says and the tables lose just those rows. */
  lemma PhasesArePredicted(db: Db, s: Settings, now: real, c: Cursors, size: nat)
    requires size >= 1 && Layout(db, s.base)
    ensures var dry, real_ := DryRun(db, s, now, c, size), RealRun(db, s, now, c, size);
            && real_.artifacts == dry.artifacts && real_.pending == dry.pending
            && real_.prefixes == dry.prefixes && real_.staged == dry.staged
            && LeftAfter(db, AfterStaged(db, s, now, c, size), s.base,
                 Ids(dry.artifacts.deleted), Ids(dry.pending.deleted), Ids(dry.prefixes.deleted),
                   Ids(dry.staged.deleted))
  {
    hide Layout, Left, Candidates, RealReport, RealDb, DryReport, Lost, JobsWithout, Batch;
    var a := Ids(DryReport(db, s, Artifacts, now, c.artifacts, size).deleted);
    var p := Ids(DryReport(db, s, Pending, now, c.pending, size).deleted);
    var x := Ids(DryReport(db, s, Prefixes, now, c.prefixes, size).deleted);
    var t := Ids(DryReport(db, s, Staged, now, c.staged, size).deleted);
    StartIsLeft(db, s.base);
    PhaseIsPredicted(db, db, s, Artifacts, now, c.artifacts, size);
    OnePhaseMore(db, db, AfterArtifacts(db, s, now, c, size), s.base, Artifacts, a, {}, {}, {}, {});
    assert {} + a == a && {} + p == p && {} + x == x && {} + t == t;
    PhaseIsPredicted(db, AfterArtifacts(db, s, now, c, size), s, Pending, now, c.pending, size);
    OnePhaseMore(db, AfterArtifacts(db, s, now, c, size), AfterPending(db, s, now, c, size), s.base, Pending, p, a, {},
      {}, {});
    PhaseIsPredicted(db, AfterPending(db, s, now, c, size), s, Prefixes, now, c.prefixes, size);
    OnePhaseMore(db, AfterPending(db, s, now, c, size), AfterPrefixes(db, s, now, c, size), s.base, Prefixes, x, a, p,
      {}, {});
    PhaseIsPredicted(db, AfterPrefixes(db, s, now, c, size), s, Staged, now, c.staged, size);
    OnePhaseMore(db, AfterPrefixes(db, s, now, c, size), AfterStaged(db, s, now, c, size), s.base, Staged, t, a, p, x,
      {});
  }

  lemma StartIsLeft(db: Db, base: Key)
    ensures LeftAfter(db, db, base, {}, {}, {}, {})
  {
    hide Generated;
  }

  /** Every job the last phase finds is deleted. */
  lemma {:induction false} AllAreAllowed(db: Db, pks: seq<Id>)
    requires forall pk | pk in pks :: pk in KeysOf(db, Jobs)
    ensures Predicted(db, Jobs, pks, true) == pks && Predicted(db, Jobs, pks, false) == []
  {
    if pks != [] {
      AllAreAllowed(db, pks[..|pks| - 1]);
      assert pks == pks[..|pks| - 1] + [pks[|pks| - 1]];
    }
  }

  /** The last phase finds and deletes the jobs the dry run counts on. */
  lemma JobPhaseIsPredicted(start: Db, db: Db, s: Settings, now: real, cursor: Cursor, size: nat,
                            a: set<Id>, p: set<Id>, x: set<Id>, t: set<Id>)
    requires size >= 1 && Layout(start, s.base) && LeftAfter(start, db, s.base, a, p, x, t)
    ensures var (pks, next) := Batch(JobsWithout(start, s, now, a, p, x, t), cursor, size);
            && RealReport(db, s, Jobs, now, cursor, size) == Report(pks, [], [], next)
            && Left(start, RealDb(db, s, Jobs, now, cursor, size), s.base)
            && Lost(db, RealDb(db, s, Jobs, now, cursor, size), Jobs, Ids(pks))
  {
    JobsArePredicted(start, db, s, now, a, p, x, t);
    BatchIsOfTable(db, s, Jobs, now, cursor, size);
    var pks := Batch(Candidates(db, s, Jobs, now), cursor, size).0;
    hide Layout, Left, Candidates, Batch, JobsWithout, Predicted, Swept, Sweep, Lost;
    AllAreAllowed(start, pks);
    SweepIsPredicted(start, db, s, Jobs, pks, now);
  }

  /**
    Over the generated layouts, and from the same cursors and batch size, the dry run
    reports what a run without failures reports, and that run removes exactly the
    reported rows from each table.
   */
  lemma DryRunPredictsRealRun(db: Db, s: Settings, now: real, c: Cursors, size: nat)
    requires size >= 1 && Layout(db, s.base)
    ensures RealRun(db, s, now, c, size) == DryRun(db, s, now, c, size)
    ensures forall phase: Phase :: KeysOf(AfterRun(db, s, now, c, size), phase)
                                == KeysOf(db, phase) - Ids(DryRun(db, s, now, c, size).Of(phase).deleted)
    ensures Left(db, AfterRun(db, s, now, c, size), s.base)
  {
    hide Layout, Left, Batch, AfterStaged, AfterPrefixes, AfterPending, AfterArtifacts, RealReport, DryReport, RealDb,
      JobsWithout;
    PhasesArePredicted(db, s, now, c, size);
    var dry := DryRun(db, s, now, c, size);
    JobPhaseIsPredicted(db, AfterStaged(db, s, now, c, size), s, now, c.jobs, size,
      Ids(dry.artifacts.deleted), Ids(dry.pending.deleted), Ids(dry.prefixes.deleted), Ids(dry.staged.deleted));
  }

  /** So it does in every state that the steps of the system can reach. */
  lemma DryRunPredictsInEveryRun(s: Settings, events: seq<Event>, now: real, c: Cursors, size: nat)
    requires size >= 1 && Possible(s, events)
    ensures var db := RetentionSafety.After(s, events).db; RealRun(db, s, now, c, size) == DryRun(db, s, now, c, size)
  {
    var w := RetentionSafety.After(s, events);
    InvAlways(s, events);
    hide *;
    DryRunPredictsRealRun(w.db, s, now, c, size);
  }

  const UNLIMITED := Settings([], 0.0, 0.0)
  const START := Cursors(Fresh, Fresh, Fresh, Fresh, Fresh)

  /** An object below a prefix of job 1 that job 2 has queued for deletion. */
  function Nested(prefix: Key, key: Key, job: JobRow): Db {
    Db({key}, map[], map[], map[0 := PendingRow(2, key)], map[0 := PrefixRow(1, 1, prefix)], map[1 := job])
  }

  ghost predicate IsNested(prefix: Key, key: Key) {
    && AttemptPrefixIsDeletable(prefix, 1, 1) && IsBelow(key, prefix)
    && JobKeyIsDeletable(key, 2, None) && !JobKeyIsDeletable(key, 1, None)
  }

  const PREFIX_OF_ONE: Key := ["jobs", "1", "attempt-1"]
  const KEY_OF_TWO: Key := ["jobs", "1", "attempt-1", "jobs", "2", "f"]

  lemma NamesAsText()
    ensures IdText(1) == "1" && IdText(2) == "2" && AttemptDirectory(1) == "attempt-1"
  {
  }

  lemma KeyEndsInJobTwo()
    ensures PlainSegments(KEY_OF_TWO) && JobTail(KEY_OF_TWO) == Some(("2", "f"))
  {
    assert !IsAttemptDirectory("2") && !IsAllocationDirectory("2");
    hide IsAttemptDirectory, IsAllocationDirectory;
    assert KEY_OF_TWO[4] == "2" && KEY_OF_TWO[3] == "jobs" && KEY_OF_TWO[5] == "f";
  }

  lemma PrefixIsOfJobOne()
    ensures AttemptPrefixIsDeletable(PREFIX_OF_ONE, 1, 1) && IsBelow(KEY_OF_TWO, PREFIX_OF_ONE)
  {
    NamesAsText();
    hide IdText, AttemptDirectory;
    assert PREFIX_OF_ONE[0..] == PREFIX_OF_ONE;
    assert KEY_OF_TWO == PREFIX_OF_ONE + ["jobs", "2", "f"];
  }

  /** A key may end like a key of job 2 and still lie below an attempt of job 1. */
  lemma NestedKeysExist()
    ensures IsNested(PREFIX_OF_ONE, KEY_OF_TWO)
  {
    NamesAsText();
    KeyEndsInJobTwo();
    PrefixIsOfJobOne();
    hide IdText, AttemptDirectory, JobTail, PlainSegments, AttemptPrefixIsDeletable, IsBelow;
  }

  lemma SingleBatch(id: Id)
    ensures Batch({id}, Fresh, 1) == ([id], Exhausted)
  {
    var ids := {id};
    assert Smallest(ids) == id;
    assert ids - {id} == {};
    assert InOrder(ids) == [id];
    assert Ahead(ids, Fresh) == ids;
  }

  lemma DryRunRefusesNested(prefix: Key, key: Key, job: JobRow, now: real)
    requires job.terminal && BackstopPassed(job, now) && IsNested(prefix, key)
    ensures DryReport(Nested(prefix, key, job), UNLIMITED, Prefixes, now, Fresh, 1) == Report([], [0], [], Exhausted)
  {
    var db := Nested(prefix, key, job);
    SingleBatch(0);
    hide JobKeyIsDeletable, AttemptPrefixIsDeletable, IsBelow, Batch, PointedAt, BackstopPassed;
    assert key in KeysBelow(db, prefix);
    assert Candidates(db, UNLIMITED, Prefixes, now) == {0};
    assert !Allowed(db, Prefixes, 0);
    assert [0][..0] == [];
    assert Predicted(db, Prefixes, [0], true) == Predicted(db, Prefixes, [], true);
    assert Predicted(db, Prefixes, [0], false) == Predicted(db, Prefixes, [], false) + [0];
  }

  lemma NestedIsDrained(prefix: Key, key: Key, job: JobRow, now: real)
    requires IsNested(prefix, key)
    ensures AfterPending(Nested(prefix, key, job), UNLIMITED, now, START, 1) ==
        Nested(prefix, key, job).(objects := {}, pending := map[])
  {
    var db := Nested(prefix, key, job);
    SingleBatch(0);
    assert Candidates(db, UNLIMITED, Artifacts, now) == {};
    assert AfterArtifacts(db, UNLIMITED, now, START, 1) == db;
    assert Candidates(db, UNLIMITED, Pending, now) == {0};
    assert !PointedAt(db, key, Some(OfPending(0)));
    hide JobKeyIsDeletable, PointedAt, Batch, Candidates, AfterArtifacts, IsBelow, AttemptPrefixIsDeletable;
    assert Sweep(db, UNLIMITED, Pending, [0], now) ==
      DeleteRow(Sweep(db, UNLIMITED, Pending, [], now), UNLIMITED, Pending, 0, now);
    assert ProcessPending(db, 0, Whole) == db.(objects := db.objects - {key}, pending := db.pending - {0});
    assert db.objects - {key} == {} && db.pending - {0} == map[];
  }

  lemma RealRunCleansNested(prefix: Key, key: Key, job: JobRow, now: real)
    requires job.terminal && BackstopPassed(job, now) && IsNested(prefix, key)
    ensures RealReport(Nested(prefix, key, job).(objects := {}, pending := map[]), UNLIMITED, Prefixes, now, Fresh,
        1) == Report([0], [], [], Exhausted)
  {
    var db := Nested(prefix, key, job).(objects := {}, pending := map[]);
    SingleBatch(0);
    hide JobKeyIsDeletable, AttemptPrefixIsDeletable, IsBelow, Batch, PointedAt, BackstopPassed;
    assert KeysBelow(db, prefix) == {};
    assert Candidates(db, UNLIMITED, Prefixes, now) == {0};
    assert OutcomeOf(db, UNLIMITED, Prefixes, 0, now) == Deleted;
    assert [0][..0] == [];
    assert Swept(db, UNLIMITED, Prefixes, [0], now, Deleted) == Swept(db, UNLIMITED, Prefixes, [], now, Deleted) + [0];
    assert Swept(db, UNLIMITED, Prefixes, [0], now, Refused) == Swept(db, UNLIMITED, Prefixes, [], now, Refused);
  }

  /**
    Outside the layouts the two part: the dry run refuses the prefix for an object that
    is not its job's, but the real run has drained that object when it gets there.
   */
  lemma OutsideTheLayoutTheyDiffer(job: JobRow, now: real)
    requires job.terminal && BackstopPassed(job, now)
    ensures var db := Nested(PREFIX_OF_ONE, KEY_OF_TWO, job);
            && DryRun(db, UNLIMITED, now, START, 1).prefixes == Report([], [0], [], Exhausted)
            && RealRun(db, UNLIMITED, now, START, 1).prefixes == Report([0], [], [], Exhausted)
  {
    hide DryReport, RealReport, AfterPending, Batch, JobsWithout, Nested, IsNested, BackstopPassed;
    NestedKeysExist();
    DryRunRefusesNested(PREFIX_OF_ONE, KEY_OF_TWO, job, now);
    NestedIsDrained(PREFIX_OF_ONE, KEY_OF_TWO, job, now);
    RealRunCleansNested(PREFIX_OF_ONE, KEY_OF_TWO, job, now);
  }
}
