/**
  Stored objects, the rows that point at them, and the steps that delete them
  (jobs/retention.py, jobs/staging.py). A key is the list of its path segments
  and stands for the one location it resolves to. Identifiers are numbers; their
  text is the decimal numeral.
 */
module Retention {
  import opened Wrappers
  import Decimal

  type Key = seq<string>
  type Id = nat

  datatype Kind = Source | ExtractedAudio | Final

  datatype ArtifactRow = ArtifactRow(job: Id, name: string, kind: Kind, exposed: bool, key: Key)
  datatype StagedRow = StagedRow(filename: string, key: Key, claimedBy: Option<Id>, expires: real)
  datatype PendingRow = PendingRow(job: Id, key: Key)
  datatype PrefixRow = PrefixRow(job: Id, attempt: nat, prefix: Key)

  /** `backstop` is the retention of a profile with an artifact backstop. */
  datatype JobRow = JobRow(remote: bool, terminal: bool, attempt: nat, finishedAt: Option<real>, updatedAt: real,
      backstop: Option<real>)

  datatype Db = Db(
    objects: set<Key>,
    artifacts: map<Id, ArtifactRow>,
    staged: map<Id, StagedRow>,
    pending: map<Id, PendingRow>,
    prefixes: map<Id, PrefixRow>,
    jobs: map<Id, JobRow>)

  datatype Settings = Settings(base: Key, sourceRetention: real, metadataRetention: real)

  // -- Key layouts -----------------------------------------------------------------------

  function IdText(id: Id): string { Decimal.Print(id) }

  function AttemptDirectory(attempt: nat): string { "attempt-" + Decimal.Print(attempt) }

  predicate IsHex(c: char) { '0' <= c <= '9' || 'a' <= c <= 'f' }

  predicate IsAttemptDirectory(s: string) {
    |s| > 8 && "attempt-" <= s && Decimal.AllDigits(s[8..])
  }

  predicate IsAllocationDirectory(s: string) {
    |s| == 43 && "allocation-" <= s && forall c | c in s[11..] :: IsHex(c)
  }

  /** An artifact name as the last segment of its key. */
  function FileName(name: string): string {
    if name == "" then "" else [if name[0] == '/' then '-' else name[0]] + FileName(name[1..])
  }

  predicate PlainSegments(key: Key) {
    key != [] && forall part | part in key :: part != "" && part != "." && part != ".."
  }

  /** The job directory name and file of a generated job key. */
  function JobTail(key: Key): Option<(string, string)> {
    var n := |key|;
    if n >= 4 && (IsAttemptDirectory(key[n - 2]) || IsAllocationDirectory(key[n - 2])) then
      if key[n - 4] == "jobs" then Some((key[n - 3], key[n - 1])) else None
    else if n >= 3 && key[n - 3] == "jobs" then Some((key[n - 2], key[n - 1]))
    else None
  }

  predicate JobKeyIsDeletable(key: Key, job: Id, name: Option<string>) {
    && PlainSegments(key)
    && JobTail(key).Some? && JobTail(key).value.0 == IdText(job)
    && (name.Some? ==> JobTail(key).value.1 == FileName(name.value))
  }

  predicate StagedKeyIsDeletable(key: Key, id: Id, filename: string) {
    var n := |key|;
    PlainSegments(key) && n >= 3 && key[n - 3..] == ["staged-inputs", IdText(id), FileName(filename)]
  }

  predicate AttemptPrefixIsDeletable(prefix: Key, job: Id, attempt: nat) {
    var n := |prefix|;
    PlainSegments(prefix) && n >= 3 && prefix[n - 3..] == ["jobs", IdText(job), AttemptDirectory(attempt)]
  }

  predicate IsBelow(key: Key, prefix: Key) {
    prefix <= key && |key| > |prefix|
  }

  function KeysBelow(db: Db, prefix: Key): set<Key> {
    set key | key in db.objects && IsBelow(key, prefix)
  }

  /** The listing and object checks both the dry and the real run apply. */
  predicate PrefixIsCleanable(db: Db, record: PrefixRow) {
    && AttemptPrefixIsDeletable(record.prefix, record.job, record.attempt)
    && forall key | key in KeysBelow(db, record.prefix) :: JobKeyIsDeletable(key, record.job, None)
  }

  // -- Eligibility ---------------------------------------------------------------------------

  function FinishedAt(job: JobRow): real {
    if job.finishedAt.Some? then job.finishedAt.value else job.updatedAt
  }

  predicate BackstopPassed(job: JobRow, now: real) {
    job.backstop.Some? && job.backstop.value > 0.0 && FinishedAt(job) <= now - job.backstop.value
  }

  predicate ArtifactExpired(db: Db, s: Settings, pk: Id, now: real) {
    pk in db.artifacts && db.artifacts[pk].job in db.jobs && (
      var row := db.artifacts[pk];
      var job := db.jobs[row.job];
      job.terminal && (
        || (!row.exposed && row.kind == ExtractedAudio)
        || (!row.exposed && row.kind == Source && FinishedAt(job) <= now - s.sourceRetention)
        || BackstopPassed(job, now)))
  }

  predicate ProfileJobExpired(db: Db, id: Id, now: real) {
    id in db.jobs && db.jobs[id].terminal && BackstopPassed(db.jobs[id], now)
  }

  predicate StagedCandidate(db: Db, pk: Id, now: real) {
    pk in db.staged && (
      var row := db.staged[pk];
      || (row.claimedBy.Some? && ProfileJobExpired(db, row.claimedBy.value, now))
      || (row.expires <= now && (row.claimedBy.None? ||
            (row.claimedBy.value in db.jobs && db.jobs[row.claimedBy.value].finishedAt.Some?))))
  }

  predicate JobIsOwnerless(db: Db, id: Id) {
    && (forall pk | pk in db.artifacts :: db.artifacts[pk].job != id)
    && (forall pk | pk in db.pending :: db.pending[pk].job != id)
    && (forall pk | pk in db.prefixes :: db.prefixes[pk].job != id)
    && (forall pk | pk in db.staged :: db.staged[pk].claimedBy != Some(id))
  }

  predicate JobIsOld(db: Db, s: Settings, id: Id, now: real) {
    id in db.jobs && db.jobs[id].terminal && (
      || BackstopPassed(db.jobs[id], now)
      || (s.metadataRetention > 0.0 && FinishedAt(db.jobs[id]) <= now - s.metadataRetention))
  }

  predicate JobExpired(db: Db, s: Settings, id: Id, now: real) {
    JobIsOld(db, s, id, now) && JobIsOwnerless(db, id)
  }

  // -- Deleting one object and its row ---------------------------------------------------------

  /** The row a deletion step is about. */
  datatype Row = OfArtifact(pk: Id) | OfStaged(pk: Id) | OfPending(pk: Id)

  /** How a step ends: whole, with a failed object deletion, or cut between object and row. */
  datatype Fault = Whole | StoreFails | CutAfterObject

  predicate PointedAt(db: Db, key: Key, except_: Option<Row>) {
    || (exists pk :: pk in db.artifacts && db.artifacts[pk].key == key && except_ != Some(OfArtifact(pk)))
    || (exists pk :: pk in db.staged && db.staged[pk].key == key && except_ != Some(OfStaged(pk)))
  }

  function WithoutRow(db: Db, row: Row): Db {
    match row
    case OfArtifact(pk) => db.(artifacts := db.artifacts - {pk})
    case OfStaged(pk) => db.(staged := db.staged - {pk})
    case OfPending(pk) => db.(pending := db.pending - {pk})
  }

  /** Object first, unless another row points at it, then the row. */
  function DeleteChecked(db: Db, key: Key, row: Row, fault: Fault): Db {
    if PointedAt(db, key, Some(row)) then
      if fault.CutAfterObject? then db else WithoutRow(db, row)
    else if fault.StoreFails? then db
    else
      var gone := db.(objects := db.objects - {key});
      if fault.CutAfterObject? then gone else WithoutRow(gone, row)
  }

  /** The same without the reference check; used where a staged upload is known to be private. */
  function DeleteUnchecked(db: Db, key: Key, row: Row, fault: Fault): Db {
    if fault.StoreFails? then db
    else
      var gone := db.(objects := db.objects - {key});
      if fault.CutAfterObject? then gone else WithoutRow(gone, row)
  }

  function PruneArtifact(db: Db, s: Settings, pk: Id, now: real, fault: Fault): Db {
    if ArtifactExpired(db, s, pk, now) &&
      JobKeyIsDeletable(db.artifacts[pk].key, db.artifacts[pk].job, Some(db.artifacts[pk].name))
    then DeleteChecked(db, db.artifacts[pk].key, OfArtifact(pk), fault)
    else db
  }

  function DeleteJobArtifact(db: Db, pk: Id, fault: Fault): Db {
    if pk in db.artifacts && JobKeyIsDeletable(db.artifacts[pk].key, db.artifacts[pk].job, Some(db.artifacts[pk].name))
    then DeleteChecked(db, db.artifacts[pk].key, OfArtifact(pk), fault)
    else db
  }

  function ProcessPending(db: Db, pk: Id, fault: Fault): Db {
    if pk in db.pending && JobKeyIsDeletable(db.pending[pk].key, db.pending[pk].job, None)
    then DeleteChecked(db, db.pending[pk].key, OfPending(pk), fault)
    else db
  }

  function DeleteExpiredStaged(db: Db, pk: Id, now: real, fault: Fault): Db {
    if StagedCandidate(db, pk, now) && StagedKeyIsDeletable(db.staged[pk].key, pk, db.staged[pk].filename)
    then DeleteChecked(db, db.staged[pk].key, OfStaged(pk), fault)
    else db
  }

  function DeleteClaimedStaged(db: Db, pk: Id, job: Id, fault: Fault): Db {
    if pk in db.staged && db.staged[pk].claimedBy == Some(job)
       && StagedKeyIsDeletable(db.staged[pk].key, pk, db.staged[pk].filename)
    then DeleteChecked(db, db.staged[pk].key, OfStaged(pk), fault)
    else db
  }

  /** Admission cleanup and the cleanup after a finished run delete without a reference check. */
  function DeleteStaged(db: Db, pk: Id, fault: Fault): Db {
    if pk in db.staged then DeleteUnchecked(db, db.staged[pk].key, OfStaged(pk), fault) else db
  }

  /** What cleaning a prefix removes: the objects below it that no row points at. */
  function Unregistered(db: Db, prefix: Key): set<Key> {
    set key | key in KeysBelow(db, prefix) && !PointedAt(db, key, None)
  }

  /** With `stopped`, the step ends after those objects and keeps the record. */
  function CleanAttemptPrefix(db: Db, pk: Id, stopped: Option<set<Key>>): Db {
    if pk !in db.prefixes then db
    else
      var record := db.prefixes[pk];
      if record.job in db.jobs && !db.jobs[record.job].terminal then db
      else if !PrefixIsCleanable(db, record) then db
      else if stopped.Some? then db.(objects := db.objects - (Unregistered(db, record.prefix) * stopped.value))
      else db.(objects := db.objects - Unregistered(db, record.prefix), prefixes := db.prefixes - {pk})
  }

  function ReleaseClaims(staged: map<Id, StagedRow>, job: Id): map<Id, StagedRow> {
    map pk | pk in staged :: if staged[pk].claimedBy == Some(job) then staged[pk].(claimedBy := None) else staged[pk]
  }

  /** A finished job row goes only when nothing of the job is left. */
  function DropJob(db: Db, id: Id): Db {
    if id in db.jobs && db.jobs[id].terminal && JobIsOwnerless(db, id) then db.(jobs := db.jobs - {id}) else db
  }

  // -- Safety of one step -------------------------------------------------------------------------

  /** No row but `except_` points at an object that the step removed. */
  ghost predicate RemovesOnlyUnreferenced(before: Db, after: Db, except_: Option<Row>) {
    forall key | key in before.objects && key !in after.objects :: !PointedAt(after, key, except_)
  }

  /**
    A checked deletion removes no object that a surviving row points at; cut in the
    middle it leaves only its own row dangling.
   */
  lemma CheckedDeletionIsSafe(db: Db, key: Key, row: Row, fault: Fault)
    ensures var after := DeleteChecked(db, key, row, fault);
            && RemovesOnlyUnreferenced(db, after, if fault == CutAfterObject then Some(row) else None)
            && after.objects <= db.objects && db.objects <= after.objects + {key}
  {
  }

  /** However a step ended, running it again leaves what a whole run would have left. */
  lemma RetryCompletes(db: Db, key: Key, row: Row, fault: Fault)
    ensures DeleteChecked(DeleteChecked(db, key, row, fault), key, row, Whole) == DeleteChecked(db, key, row, Whole)
  {
    hide PointedAt, WithoutRow;
    var gone := db.(objects := db.objects - {key});
    assert gone.objects - {key} == gone.objects;
    RowDoesNotPointAtItself(db, key, row, gone.objects);
    GoneStaysGone(db, row);
    GoneStaysGone(gone, row);
  }

  lemma RowDoesNotPointAtItself(db: Db, key: Key, row: Row, objects: set<Key>)
    ensures PointedAt(WithoutRow(db, row), key, Some(row)) == PointedAt(db, key, Some(row))
    ensures PointedAt(db.(objects := objects), key, Some(row)) == PointedAt(db, key, Some(row))
    ensures PointedAt(WithoutRow(db.(objects := objects), row), key, Some(row)) == PointedAt(db, key, Some(row))
  {
  }

  lemma GoneStaysGone(db: Db, row: Row)
    ensures WithoutRow(WithoutRow(db, row), row) == WithoutRow(db, row)
    ensures WithoutRow(db, row).objects == db.objects
    ensures WithoutRow(db, row).(objects := db.objects) == WithoutRow(db, row)
  {
    match row
    case OfArtifact(pk) => assert db.artifacts - {pk} - {pk} == db.artifacts - {pk};
    case OfStaged(pk) => assert db.staged - {pk} - {pk} == db.staged - {pk};
    case OfPending(pk) => assert db.pending - {pk} - {pk} == db.pending - {pk};
  }

  lemma UncheckedRetryCompletes(db: Db, key: Key, row: Row, fault: Fault)
    ensures DeleteUnchecked(DeleteUnchecked(db, key, row, fault), key, row, Whole) ==
        DeleteUnchecked(db, key, row, Whole)
  {
    assert db.objects - {key} - {key} == db.objects - {key};
  }

  /** A cleaning that stopped midway is completed by the next one. */
  lemma CleaningAgainCompletes(db: Db, pk: Id, stopped: Option<set<Key>>)
    ensures CleanAttemptPrefix(CleanAttemptPrefix(db, pk, stopped), pk, None) == CleanAttemptPrefix(db, pk, None)
  {
    var first := CleanAttemptPrefix(db, pk, stopped);
    assert forall key :: PointedAt(first, key, None) == PointedAt(db, key, None);
    hide PointedAt, AttemptPrefixIsDeletable, JobKeyIsDeletable, IsBelow;
    if pk in db.prefixes && first != db && stopped.Some? {
      var prefix := db.prefixes[pk].prefix;
      assert PrefixIsCleanable(first, db.prefixes[pk]);
      assert Unregistered(first, prefix) == Unregistered(db, prefix) - stopped.value;
      assert first.objects - Unregistered(first, prefix) == db.objects - Unregistered(db, prefix);
    }
  }

  lemma PrefixCleaningIsSafe(db: Db, pk: Id, stopped: Option<set<Key>>)
    ensures RemovesOnlyUnreferenced(db, CleanAttemptPrefix(db, pk, stopped), None)
    ensures CleanAttemptPrefix(db, pk, stopped).artifacts == db.artifacts
    ensures CleanAttemptPrefix(db, pk, stopped).staged == db.staged
  {
  }
}
