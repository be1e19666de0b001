/**
  Which rows a retention run removes (jobs/retention.py), on the columns of the rows: the
  retention that applies must have run out since the job finished. The other modules only
  name the queries; here is what they select, and that a run takes that and nothing else.
 */
module RetentionDue {
  import opened Wrappers
  import opened Retention
  import opened RetentionSafety
  import opened RetentionPrune

  // -- When a row is due ------------------------------------------------------------------------

  /** `seconds` after its end, or after its last update if no end is recorded, the job is past it. */
  ghost predicate RanOut(job: JobRow, seconds: real, now: real) {
    job.terminal && match job.finishedAt
      case Some(finished) => finished + seconds <= now
      case None => job.updatedAt + seconds <= now
  }

  /** The job is of a profile with a backstop, which ran out. */
  ghost predicate BackstopRanOut(job: JobRow, now: real) {
    match job.backstop
    case Some(seconds) => seconds > 0.0 && RanOut(job, seconds, now)
    case None => false
  }

  /** Extracted audio goes as soon as its job is finished; what is final or exposed goes by a backstop alone. */
  ghost predicate ArtifactIsDue(row: ArtifactRow, job: JobRow, s: Settings, now: real) {
    || BackstopRanOut(job, now)
    || (!row.exposed && match row.kind
        case ExtractedAudio => job.terminal
        case Source => RanOut(job, s.sourceRetention, now)
        case Final => false)
  }

  /** An upload past its own expiry, if no job holds it or the job that does has ended; any upload by a backstop. */
  ghost predicate UploadIsDue(row: StagedRow, jobs: map<Id, JobRow>, now: real) {
    match row.claimedBy
    case None => row.expires <= now
    case Some(job) =>
      job in jobs && (BackstopRanOut(jobs[job], now) || (row.expires <= now && jobs[job].finishedAt.Some?))
  }

  /** The job's metadata ran out, if it is not kept for good, or its backstop. */
  ghost predicate JobIsDue(job: JobRow, s: Settings, now: real) {
    BackstopRanOut(job, now) || (s.metadataRetention > 0.0 && RanOut(job, s.metadataRetention, now))
  }

  /** No row of any other table is of the job. */
  ghost predicate NothingIsLeft(db: Db, job: Id) {
    && (forall pk | pk in db.artifacts :: db.artifacts[pk].job != job)
    && (forall pk | pk in db.pending :: db.pending[pk].job != job)
    && (forall pk | pk in db.prefixes :: db.prefixes[pk].job != job)
    && (forall pk | pk in db.staged :: db.staged[pk].claimedBy != Some(job))
  }

  ghost predicate IsDue(db: Db, s: Settings, phase: Phase, pk: Id, now: real)
    requires pk in KeysOf(db, phase)
  {
    match phase
    case Artifacts =>
      var row := db.artifacts[pk];
      row.job in db.jobs && ArtifactIsDue(row, db.jobs[row.job], s, now)
    case Pending => true
    case Prefixes => db.prefixes[pk].job in db.jobs && BackstopRanOut(db.jobs[db.prefixes[pk].job], now)
    case Staged => UploadIsDue(db.staged[pk], db.jobs, now)
    case Jobs => JobIsDue(db.jobs[pk], s, now)
  }

  /** The query of a phase selects the rows that are due; a job row also waits until nothing else of the job is left. */
  lemma CandidateIffDue(db: Db, s: Settings, phase: Phase, pk: Id, now: real)
    ensures pk in Candidates(db, s, phase, now) <==>
            pk in KeysOf(db, phase) && IsDue(db, s, phase, pk, now) && (phase.Jobs? ==> NothingIsLeft(db, pk))
  {
    forall job: JobRow ensures job.terminal && BackstopPassed(job, now) <==> BackstopRanOut(job, now) {
    }
  }

  // -- What a run takes ---------------------------------------------------------------------------

  /** No row but these of one phase may be missing. */
  ghost predicate OnlyTheseWent(before: Db, after: Db, phase: Phase, pks: set<Id>) {
    forall p: Phase :: KeysOf(before, p) <= KeysOf(after, p) + if p == phase then pks else {}
  }

  /** Every row that is missing was due, and of a job that is missing nothing is left. */
  ghost predicate OnlyDueWent(before: Db, after: Db, s: Settings, now: real) {
    forall phase: Phase, pk | pk in KeysOf(before, phase) && pk !in KeysOf(after, phase) ::
      IsDue(before, s, phase, pk, now) && (phase.Jobs? ==> NothingIsLeft(after, pk))
  }

  lemma DueAsBefore(before: Db, mid: Db, s: Settings, phase: Phase, pk: Id, now: real)
    requires RowsStay(before, mid) && mid.jobs == before.jobs && pk in KeysOf(mid, phase)
    ensures pk in KeysOf(before, phase) && IsDue(mid, s, phase, pk, now) == IsDue(before, s, phase, pk, now)
  {
    hide ArtifactIsDue, UploadIsDue, JobIsDue, BackstopRanOut;
  }

  lemma NothingIsLeftStays(mid: Db, after: Db, job: Id)
    requires RowsStay(mid, after) && NothingIsLeft(mid, job)
    ensures NothingIsLeft(after, job)
  {
  }

  /** One phase more takes due rows only. */
  lemma PhaseTakesDue(before: Db, mid: Db, after: Db, s: Settings, phase: Phase, now: real)
    requires RowsStay(before, mid) && RowsStay(mid, after) && mid.jobs == before.jobs
    requires OnlyDueWent(before, mid, s, now)
    requires OnlyTheseWent(mid, after, phase, Candidates(mid, s, phase, now))
    ensures OnlyDueWent(before, after, s, now)
    ensures phase != Jobs ==> after.jobs == before.jobs
  {
    if phase != Jobs {
      assert KeysOf(mid, Jobs) <= KeysOf(after, Jobs) + {};
      assert after.jobs == mid.jobs;
    }
    hide Candidates, IsDue, RowsStay, NothingIsLeft;
    forall p: Phase, pk | pk in KeysOf(before, p) && pk !in KeysOf(after, p)
      ensures IsDue(before, s, p, pk, now) && (p.Jobs? ==> NothingIsLeft(after, pk))
    {
      if pk in KeysOf(mid, p) {
        CandidateIffDue(mid, s, phase, pk, now);
        DueAsBefore(before, mid, s, p, pk, now);
        if p.Jobs? {
          NothingIsLeftStays(mid, after, pk);
        }
      } else if p.Jobs? {
        assert false;
      }
    }
  }

  lemma NothingTaken(db: Db, s: Settings, now: real)
    ensures RowsStay(db, db) && OnlyDueWent(db, db, s, now)
  {
  }

  // -- What a run does not leave ------------------------------------------------------------------

  /** The row lies in the batch that begins at `cursor` and ends before `next`. */
  ghost predicate InBatch(pk: Id, cursor: Cursor, next: Cursor) {
    && (match cursor case Fresh => true case After(last) => last < pk case Exhausted => false)
    && (next.After? ==> pk <= next.pk)
  }

  lemma {:induction false} PredictedIff(db: Db, phase: Phase, pks: seq<Id>, pk: Id)
    requires forall k | k in pks :: k in KeysOf(db, phase)
    ensures pk in Predicted(db, phase, pks, true) <==> pk in pks && Allowed(db, phase, pk)
  {
    if pks != [] {
      hide Allowed, KeysOf;
      PredictedIff(db, phase, pks[..|pks| - 1], pk);
      assert pk in pks <==> pk in pks[..|pks| - 1] || pk == pks[|pks| - 1];
    }
  }

  lemma DeletedIff(db: Db, s: Settings, phase: Phase, now: real, cursor: Cursor, size: nat, pk: Id)
    requires size >= 1
    ensures var report := DryReport(db, s, phase, now, cursor, size);
            pk in report.deleted <==>
            && pk in Candidates(db, s, phase, now) && pk in KeysOf(db, phase) && Allowed(db, phase, pk)
            && InBatch(pk, cursor, report.next)
  {
    hide Allowed, KeysOf, Candidates;
    BatchIsOfTable(db, s, phase, now, cursor, size);
    var (pks, next) := Batch(Candidates(db, s, phase, now), cursor, size);
    PredictedIff(db, phase, pks, pk);
    InBatchIff(Candidates(db, s, phase, now), cursor, size, pk);
  }

  /**
    A run without failures removes a row of the first four tables exactly when the row is
    due, lies in the batch and has a key that may be deleted.
   */
  lemma RowGoesIff(db: Db, s: Settings, now: real, c: Cursors, size: nat, phase: Phase, pk: Id)
    requires size >= 1 && Layout(db, s.base) && phase != Jobs && pk in KeysOf(db, phase)
    ensures pk !in KeysOf(AfterRun(db, s, now, c, size), phase) <==>
            && IsDue(db, s, phase, pk, now) && Allowed(db, phase, pk)
            && InBatch(pk, CursorOf(c, phase), RealRun(db, s, now, c, size).Of(phase).next)
  {
    hide Layout, Left, Allowed, KeysOf, AfterRun, RealRun, DryReport, IsDue, Candidates, JobsWithout, InBatch, Batch;
    DryRunPredictsRealRun(db, s, now, c, size);
    DeletedIff(db, s, phase, now, CursorOf(c, phase), size, pk);
    CandidateIffDue(db, s, phase, pk, now);
  }

  function CursorOf(c: Cursors, phase: Phase): Cursor {
    match phase
    case Artifacts => c.artifacts
    case Pending => c.pending
    case Prefixes => c.prefixes
    case Staged => c.staged
    case Jobs => c.jobs
  }

  /** The last phase removes the jobs of its batch and no other row. */
  lemma JobsOfBatchGo(db: Db, s: Settings, now: real, c: Cursors, size: nat)
    requires size >= 1 && Layout(db, s.base)
    ensures var before, after := AfterStaged(db, s, now, c, size), AfterRun(db, s, now, c, size);
            var (pks, next) := Batch(Candidates(before, s, Jobs, now), c.jobs, size);
            && before.jobs == db.jobs && RealRun(db, s, now, c, size).jobs.next == next
            && RowsStay(before, after) && Lost(before, after, Jobs, Ids(pks))
  {
    hide Layout, Left, Batch, AfterPrefixes, AfterPending, AfterArtifacts, RealDb, RealReport, DryReport, JobsWithout,
      Lost,
      Candidates;
    var before, dry := AfterStaged(db, s, now, c, size), DryRun(db, s, now, c, size);
    PhasesArePredicted(db, s, now, c, size);
    var a, p, x, t := Ids(dry.artifacts.deleted), Ids(dry.pending.deleted), Ids(dry.prefixes.deleted),
      Ids(dry.staged.deleted);
    JobPhaseIsPredicted(db, before, s, now, c.jobs, size, a, p, x, t);
    JobsArePredicted(db, before, s, now, a, p, x, t);
    SameRowsStay(db, before, AfterRun(db, s, now, c, size), s.base,
      Ids(Batch(JobsWithout(db, s, now, a, p, x, t), c.jobs, size).0));
  }

  lemma SameRowsStay(db: Db, before: Db, after: Db, base: Key, done: set<Id>)
    requires Left(db, before, base) && Left(db, after, base) && Lost(before, after, Jobs, done)
    ensures RowsStay(before, after)
  {
    hide Generated;
    assert KeysOf(after, Artifacts) <= KeysOf(before, Artifacts) && KeysOf(after, Pending) <= KeysOf(before, Pending);
    assert KeysOf(after, Prefixes) <= KeysOf(before, Prefixes) && KeysOf(after, Staged) <= KeysOf(before, Staged);
    assert KeysOf(after, Jobs) <= KeysOf(before, Jobs);
  }

  lemma OnlyJobsLost(before: Db, after: Db, done: set<Id>, id: Id)
    requires RowsStay(before, after) && Lost(before, after, Jobs, done)
    ensures NothingIsLeft(before, id) <==> NothingIsLeft(after, id)
    ensures id in after.jobs <==> id in before.jobs && id !in done
  {
    assert KeysOf(after, Artifacts) == KeysOf(before, Artifacts) - {};
    assert KeysOf(after, Pending) == KeysOf(before, Pending) - {};
    assert KeysOf(after, Prefixes) == KeysOf(before, Prefixes) - {};
    assert KeysOf(after, Staged) == KeysOf(before, Staged) - {};
    assert KeysOf(after, Jobs) == KeysOf(before, Jobs) - done;
  }

  /** It removes a job row exactly when the job is due, in the batch, and nothing else of it is left. */
  lemma JobGoesIff(db: Db, s: Settings, now: real, c: Cursors, size: nat, id: Id)
    requires size >= 1 && Layout(db, s.base) && id in db.jobs
    ensures id !in AfterRun(db, s, now, c, size).jobs <==>
            && JobIsDue(db.jobs[id], s, now) && NothingIsLeft(AfterRun(db, s, now, c, size), id)
            && InBatch(id, c.jobs, RealRun(db, s, now, c, size).jobs.next)
  {
    hide Layout, AfterRun, AfterStaged, RealRun, JobIsDue, NothingIsLeft, Batch, Lost, RowsStay, Candidates;
    JobsOfBatchGo(db, s, now, c, size);
    var before := AfterStaged(db, s, now, c, size);
    var (pks, next) := Batch(Candidates(before, s, Jobs, now), c.jobs, size);
    OnlyJobsLost(before, AfterRun(db, s, now, c, size), Ids(pks), id);
    CandidateIffDue(before, s, Jobs, id, now);
    InBatchIff(Candidates(before, s, Jobs, now), c.jobs, size, id);
  }

  lemma InBatchIff(ids: set<Id>, cursor: Cursor, size: nat, pk: Id)
    requires size >= 1
    ensures var (pks, next) := Batch(ids, cursor, size); pk in pks <==> pk in ids && InBatch(pk, cursor, next)
  {
    if !cursor.Exhausted? {
      BatchIsNext(ids, cursor, size);
    }
  }
}
