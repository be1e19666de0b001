/**
  The lease protocol of a remote job: claim, heartbeat, completion, failure,
  expiry and failing before a claim (jobs/remote_workers.py, jobs/services.py).
  Each endpoint is one guarded update of the job row. A lease token stands for
  its hash: tokens are fresh and the hash does not collide.
 */
module RemoteLease {
  import opened Wrappers
  import PlainText
  import Decimal

  type Token = nat

  datatype State = Queued | Running | Succeeded | Failed

  /** An intermediate artifact is source media or extracted audio. */
  datatype Artifact = Artifact(name: string, key: string, source: bool, intermediate: bool)

  datatype Result = Result(text: string, metadata: string)

  datatype Settings = Settings(jobPrefix: string, leaseSeconds: real)

  /** The columns of the job row that the protocol reads or writes. */
  datatype Row = Row(
    state: State, worker: string, token: Option<Token>, leaseExpires: Option<real>,
    attempts: nat, maxAttempts: nat, prefix: string, lastBeat: Option<real>, progress: string,
    startedAt: Option<real>, finishedAt: Option<real>,
    result: Option<Result>, artifacts: set<Artifact>)

  datatype Reply = Accepted | Conflict | Invalid

  // -- Keys of one attempt ----------------------------------------------------------

  function AttemptPrefix(jobPrefix: string, attempt: nat): string {
    jobPrefix + "attempt-" + Decimal.Print(attempt) + "/"
  }

  predicate IsUnder(key: string, prefix: string) {
    && prefix <= key && |key| > |prefix|
    && key[0] != '/'
    && ".." !in PlainText.Split(key, '/')
  }

  /** A key lies under a prefix if it goes on after it, is relative, and steps up nowhere. */
  lemma IsUnderIff(key: string, prefix: string)
    ensures IsUnder(key, prefix) <==>
            && (exists rest: string :: rest != "" && key == prefix + rest)
            && key[0] != '/' && !exists a, b :: PlainText.Stands(key, '/', a, "..", b)
  {
    if prefix <= key && |key| > |prefix| {
      assert key == prefix + key[|prefix|..];
    }
    if ".." in PlainText.Split(key, '/') {
      var a, b := PlainText.PartStands(key, '/', "..");
    }
    forall a, b | PlainText.Stands(key, '/', a, "..", b) ensures ".." in PlainText.Split(key, '/') {
      PlainText.WhatStandsIsPart(key, '/', a, "..", b);
    }
  }

  // -- Guards ---------------------------------------------------------------------------

  predicate Terminal(r: Row) {
    r.state == Succeeded || r.state == Failed
  }

  predicate LeaseExpired(r: Row, now: real) {
    r.leaseExpires.Some? && r.leaseExpires.value < now
  }

  predicate Claimable(r: Row, now: real) {
    r.attempts < r.maxAttempts && (r.state == Queued || (r.state == Running && LeaseExpired(r, now)))
  }

  predicate Owned(r: Row, worker: string, token: Token) {
    r.state == Running && r.worker == worker && r.token == Some(token)
  }

  predicate ActiveLease(r: Row, worker: string, token: Token, now: real) {
    Owned(r, worker, token) && r.leaseExpires.Some? && r.leaseExpires.value > now
  }

  predicate SameSuccessfulCompletion(r: Row, worker: string, token: Token) {
    r.state == Succeeded && r.worker == worker && r.token == Some(token)
  }

  predicate UniqueNames(artifacts: set<Artifact>) {
    forall a, b | a in artifacts && b in artifacts && a.name == b.name :: a == b
  }

  predicate ValidManifest(r: Row, artifacts: set<Artifact>) {
    && (exists a :: a in artifacts && a.source)
    && UniqueNames(artifacts)
    && forall a | a in artifacts :: IsUnder(a.key, r.prefix)
  }

  /** Intermediate artifacts may have been pruned since the completion was committed. */
  function Expected(stored: set<Artifact>, submitted: set<Artifact>): set<Artifact> {
    set a | a in submitted && (!a.intermediate || exists b :: b in stored && b.name == a.name)
  }

  // -- Steps of the row --------------------------------------------------------------------

  /** The row with its next attempt under way. */
  function Started(r: Row, s: Settings, worker: string, token: Token, now: real): Row {
    r.(state := Running, worker := worker, token := Some(token),
       leaseExpires := Some(now + s.leaseSeconds), attempts := r.attempts + 1,
       prefix := AttemptPrefix(s.jobPrefix, r.attempts + 1), lastBeat := Some(now), progress := "",
       startedAt := if r.startedAt.Some? then r.startedAt else Some(now))
  }

  function ClaimRow(r: Row, s: Settings, worker: string, seenAttempts: nat, token: Token, now: real): Row {
    if r.attempts == seenAttempts && Claimable(r, now) then Started(r, s, worker, token, now) else r
  }

  function BeatRow(r: Row, s: Settings, worker: string, token: Token, progress: string, now: real): Row {
    if ActiveLease(r, worker, token, now) && (r.lastBeat.None? || r.lastBeat.value < now) then
      var until := now + s.leaseSeconds;
      r.(leaseExpires := Some(if until > r.leaseExpires.value then until else r.leaseExpires.value),
         lastBeat := Some(now), progress := progress)
    else r
  }

  /** The update of a completion whose lease is still active at both reads of the clock. */
  function CompleteRow(r: Row, worker: string, token: Token, result: Result, artifacts: set<Artifact>, now: real,
      finished: real): Row {
    if !SameSuccessfulCompletion(r, worker, token) && ActiveLease(r, worker, token, now)
       && ValidManifest(r, artifacts) && ActiveLease(r, worker, token, finished) then
      r.(state := Succeeded, result := Some(result), finishedAt := Some(finished), progress := "",
        artifacts := artifacts)
    else r
  }

  function CompleteReply(r: Row, worker: string, token: Token, result: Result, artifacts: set<Artifact>, now: real,
      finished: real): Reply {
    if SameSuccessfulCompletion(r, worker, token) then
      if !ValidManifest(r, artifacts) then Invalid
      else if r.result == Some(result) && r.artifacts == Expected(r.artifacts, artifacts) then Accepted
      else Conflict
    else if !ActiveLease(r, worker, token, now) then Conflict
    else if !ValidManifest(r, artifacts) then Invalid
    else if ActiveLease(r, worker, token, finished) then Accepted
    else Conflict
  }

  function Requeued(r: Row): Row {
    r.(state := Queued, worker := "", token := None, leaseExpires := None, prefix := "", lastBeat := None,
      progress := "")
  }

  /** The lease is checked at a later reading of the clock than the update is stamped with. */
  function FailRow(r: Row, worker: string, token: Token, retryable: bool, now: real, checked: real): Row {
    if !ActiveLease(r, worker, token, checked) || !ActiveLease(r, worker, token, now) then r
    else if retryable && r.attempts < r.maxAttempts then Requeued(r)
    else r.(state := Failed, finishedAt := Some(now), progress := "")
  }

  function ReconcileRow(r: Row, now: real): Row {
    if r.state != Running || !LeaseExpired(r, now) then r
    else if r.attempts < r.maxAttempts then Requeued(r)
    else r.(state := Failed, finishedAt := Some(now), progress := "")
  }

  function FailBeforeClaimRow(r: Row, now: real): Row {
    if (r.state == Queued && r.worker == "") || (r.state == Running && LeaseExpired(r, now)) then
      r.(state := Failed, finishedAt := Some(now), progress := "")
    else r
  }

  function PruneRow(r: Row, name: string): Row {
    if Terminal(r) then r.(artifacts := set a | a in r.artifacts && !(a.name == name && a.intermediate)) else r
  }

  // -- Runs ------------------------------------------------------------------------------------

  datatype Event =
    | Claim(worker: string, seenAttempts: nat, token: Token, now: real)
    | Heartbeat(worker: string, token: Token, progress: string, now: real)
    | Complete(worker: string, token: Token, result: Result, artifacts: set<Artifact>, now: real, finished: real)
    | Fail(worker: string, token: Token, retryable: bool, now: real, checked: real)
    | Reconcile(now: real)
    | FailBeforeClaim(now: real)
    | Prune(name: string)

  function NewRow(maxAttempts: nat): Row {
    Row(Queued, "", None, None, 0, maxAttempts, "", None, "", None, None, None, {})
  }

  function Step(r: Row, s: Settings, e: Event): Row {
    match e
    case Claim(worker, seenAttempts, token, now) => ClaimRow(r, s, worker, seenAttempts, token, now)
    case Heartbeat(worker, token, progress, now) => BeatRow(r, s, worker, token, progress, now)
    case Complete(worker, token, result, artifacts, now, finished) => CompleteRow(r, worker, token, result, artifacts,
      now, finished)
    case Fail(worker, token, retryable, now, checked) => FailRow(r, worker, token, retryable, now, checked)
    case Reconcile(now) => ReconcileRow(r, now)
    case FailBeforeClaim(now) => FailBeforeClaimRow(r, now)
    case Prune(name) => PruneRow(r, name)
  }

  predicate Granted(r: Row, e: Event) {
    e.Claim? && r.attempts == e.seenAttempts && Claimable(r, e.now)
  }

  /** A row with what a run did to it: claims granted, state changes, tokens handed out. */
  datatype Run = Run(row: Row, granted: nat, changes: nat, issued: set<Token>)

  function Next(h: Run, s: Settings, e: Event): Run {
    var row := Step(h.row, s, e);
    Run(row,
        if Granted(h.row, e) then h.granted + 1 else h.granted,
        if row.state != h.row.state then h.changes + 1 else h.changes,
        if e.Claim? then h.issued + {e.token} else h.issued)
  }

  function After(h: Run, s: Settings, events: seq<Event>): Run {
    if events == [] then h else Next(After(h, s, events[..|events| - 1]), s, events[|events| - 1])
  }

  /** Every claim brings a token that was not handed out before. */
  ghost predicate Fresh(h: Run, s: Settings, events: seq<Event>) {
    events == [] || (
      var n := |events| - 1;
      Fresh(h, s, events[..n]) && (events[n].Claim? ==> events[n].token !in After(h, s, events[..n]).issued))
  }

  function Start(maxAttempts: nat): Run {
    Run(NewRow(maxAttempts), 0, 0, {})
  }

  /** What holds of every job at every moment. */
  ghost predicate Inv(h: Run, s: Settings) {
    var r := h.row;
    && r.attempts == h.granted <= r.maxAttempts
    && (r.state == Queued ==> r.attempts < r.maxAttempts && r.worker == "" && r.token == None)
    && (r.state == Running ==>
      r.leaseExpires.Some? && r.prefix == AttemptPrefix(s.jobPrefix, r.attempts) && r.token.Some?)
    && (r.state == Succeeded ==> r.token.Some? && r.prefix == AttemptPrefix(s.jobPrefix, r.attempts) && r.result.Some?)
    && (r.token.Some? ==> r.token.value in h.issued)
    && (r.state != Succeeded ==> r.artifacts == {})
    && (forall a | a in r.artifacts :: IsUnder(a.key, r.prefix))
    && h.changes + (if r.state == Running then 1 else 0)
         <= 2 * r.attempts + (if r.state == Failed && r.attempts < r.maxAttempts then 1 else 0)
  }

  lemma NextKeepsInv(h: Run, s: Settings, e: Event)
    requires Inv(h, s)
    ensures Inv(Next(h, s, e), s)
  {
  }

  lemma {:induction false} InvAlways(maxAttempts: nat, s: Settings, events: seq<Event>)
    requires maxAttempts >= 1
    ensures Inv(After(Start(maxAttempts), s, events), s)
    ensures After(Start(maxAttempts), s, events).row.maxAttempts == maxAttempts
  {
    if events == [] {
    } else {
      InvAlways(maxAttempts, s, events[..|events| - 1]);
      NextKeepsInv(After(Start(maxAttempts), s, events[..|events| - 1]), s, events[|events| - 1]);
    }
  }

  /** Attempts equal grants, stay within the limit, and bound the state changes. */
  lemma AttemptsAreBounded(maxAttempts: nat, s: Settings, events: seq<Event>)
    requires maxAttempts >= 1
    ensures var h := After(Start(maxAttempts), s, events);
            && h.row.attempts == h.granted <= maxAttempts
            && (h.row.state == Queued ==> h.granted < maxAttempts)
            && h.changes <= 2 * maxAttempts
  {
    InvAlways(maxAttempts, s, events);
  }

  // -- Terminal states absorb -------------------------------------------------------------------

  /** Only pruned intermediate artifacts may be missing from `later`. */
  ghost predicate SettledAs(r: Row, later: Row) {
    && later == r.(artifacts := later.artifacts)
    && later.artifacts <= r.artifacts
    && forall a | a in r.artifacts && !a.intermediate :: a in later.artifacts
  }

  lemma {:induction false} TerminalAbsorbs(h: Run, s: Settings, events: seq<Event>)
    requires Terminal(h.row)
    ensures SettledAs(h.row, After(h, s, events).row)
    ensures After(h, s, events).changes == h.changes && After(h, s, events).granted == h.granted
  {
    if events != [] {
      TerminalAbsorbs(h, s, events[..|events| - 1]);
    }
  }

  // -- Superseded tokens ---------------------------------------------------------------------------

  predicate Presents(e: Event, token: Token) {
    (e.Heartbeat? || e.Complete? || e.Fail?) && e.token == token
  }

  lemma {:induction false} SupersededStaysSuperseded(h: Run, s: Settings, events: seq<Event>, token: Token)
    requires Fresh(h, s, events)
    requires token in h.issued && h.row.token != Some(token)
    ensures token in After(h, s, events).issued && After(h, s, events).row.token != Some(token)
  {
    if events != [] {
      SupersededStaysSuperseded(h, s, events[..|events| - 1], token);
    }
  }

  /**
    Once a token that was handed out is no longer the job's, no request with it
    ever changes the job again, in any run.
   */
  lemma SupersededNeverActs(h: Run, s: Settings, events: seq<Event>, token: Token, e: Event)
    requires Fresh(h, s, events) && Presents(e, token)
    requires token in h.issued && h.row.token != Some(token)
    ensures Step(After(h, s, events).row, s, e) == After(h, s, events).row
  {
    SupersededStaysSuperseded(h, s, events, token);
  }

  /** Granting a claim or requeueing supersedes the token the job had. */
  lemma ReclaimSupersedes(h: Run, s: Settings, e: Event)
    requires Inv(h, s) && h.row.token.Some? && (e.Claim? ==> e.token !in h.issued)
    requires Granted(h.row, e) || Step(h.row, s, e).state == Queued
    ensures Next(h, s, e).row.token != h.row.token && h.row.token.value in Next(h, s, e).issued
  {
  }

  /**
    The token a job had before a granted claim or a requeue never acts on it again, in any
    run that follows.
   */
  lemma ReplacedTokenNeverActs(h: Run, s: Settings, e: Event, events: seq<Event>, request: Event)
    requires Inv(h, s) && h.row.token.Some? && Fresh(h, s, [e]) && Fresh(Next(h, s, e), s, events)
    requires Granted(h.row, e) || Step(h.row, s, e).state == Queued
    requires Presents(request, h.row.token.value)
    ensures Step(After(Next(h, s, e), s, events).row, s, request) == After(Next(h, s, e), s, events).row
  {
    assert [e][..0] == [] && After(h, s, []) == h;
    ReclaimSupersedes(h, s, e);
    SupersededNeverActs(Next(h, s, e), s, events, h.row.token.value, request);
  }

  // -- Lease times ------------------------------------------------------------------------------------

  /** The event leaves a lease alone that has not run out when the event reads the clock. */
  predicate RespectsLease(e: Event, token: Token, until: real) {
    match e
    case Claim(_, _, _, now) => now <= until
    case Reconcile(now) => now <= until
    case FailBeforeClaim(now) => now <= until
    case Complete(_, t, _, _, _, _) => t != token
    case Fail(_, t, _, _, _) => t != token
    case Heartbeat(_, _, _, _) => true
    case Prune(_) => true
  }

  /** Nobody takes the job from a worker before its lease runs out. */
  lemma {:induction false} LeaseProtects(h: Run, s: Settings, events: seq<Event>, token: Token)
    requires Inv(h, s) && h.row.state == Running && h.row.token == Some(token)
    requires forall e | e in events :: RespectsLease(e, token, h.row.leaseExpires.value)
    ensures var later := After(h, s, events).row;
            && later.state == Running && later.token == Some(token) && later.worker == h.row.worker
            && later.attempts == h.row.attempts && later.prefix == h.row.prefix
            && later.leaseExpires.Some? && later.leaseExpires.value >= h.row.leaseExpires.value
  {
    if events != [] {
      var init, last := events[..|events| - 1], events[|events| - 1];
      LeaseProtects(h, s, init, token);
      assert RespectsLease(last, token, h.row.leaseExpires.value);
    }
  }

  /** A beat of the lease that read the clock while the lease was live from the start. */
  predicate IsLiveBeat(e: Event, r: Row, token: Token) {
    e.Heartbeat? && e.worker == r.worker && e.token == token && r.leaseExpires.Some? && e.now < r.leaseExpires.value
  }

  /**
    In whatever order the beats of a lease arrive, the progress shown is that of the beat
    that read the clock last; an earlier one that is delayed does not replace it.
   */
  lemma {:induction false} LatestBeatShows(h: Run, s: Settings, events: seq<Event>, token: Token)
    requires Inv(h, s) && h.row.state == Running && h.row.token == Some(token)
    requires forall e | e in events :: RespectsLease(e, token, h.row.leaseExpires.value)
    ensures var later := After(h, s, events).row;
            && (forall e | e in events && IsLiveBeat(e, h.row, token) ::
                  later.lastBeat.Some? && e.now <= later.lastBeat.value)
            && (h.row.lastBeat.Some? ==> later.lastBeat.Some? && h.row.lastBeat.value <= later.lastBeat.value)
            && (|| (later.lastBeat == h.row.lastBeat && later.progress == h.row.progress)
                || exists e :: e in events && e.Heartbeat? && e.worker == h.row.worker && e.token == token
                     && later.lastBeat == Some(e.now) && later.progress == e.progress)
  {
    if events != [] {
      var init, last := events[..|events| - 1], events[|events| - 1];
      assert events == init + [last];
      assert RespectsLease(last, token, h.row.leaseExpires.value);
      LeaseProtects(h, s, init, token);
      LatestBeatShows(h, s, init, token);
      OneEventMore(h.row, After(h, s, init).row, s, last, token);
    }
  }

  lemma OneEventMore(start: Row, r: Row, s: Settings, e: Event, token: Token)
    requires r.state == Running && r.token == Some(token) && r.worker == start.worker && r.leaseExpires.Some?
    requires start.leaseExpires.Some? && start.leaseExpires.value <= r.leaseExpires.value
    requires RespectsLease(e, token, start.leaseExpires.value)
    ensures var later := Step(r, s, e);
            && (IsLiveBeat(e, start, token) ==> later.lastBeat.Some? && e.now <= later.lastBeat.value)
            && (r.lastBeat.Some? ==> later.lastBeat.Some? && r.lastBeat.value <= later.lastBeat.value)
            && (|| (later.lastBeat == r.lastBeat && later.progress == r.progress)
                || (e.Heartbeat? && e.worker == start.worker && e.token == token
                    && later.lastBeat == Some(e.now) && later.progress == e.progress))
  {
  }

  // -- Committed artifacts ----------------------------------------------------------------------------

  lemma {:induction false} DigitsHaveNoSlash(n: nat)
    ensures '/' !in Decimal.Print(n)
  {
    Decimal.ReadOfPrint(n);
  }

  /** The directory name after a prefix is what comes before the next slash. */
  lemma {:induction false} FirstSlashIsUnique(a: string, b: string, x: string, y: string)
    requires '/' !in a && '/' !in b && a + "/" + x == b + "/" + y
    ensures a == b
  {
    var whole := a + "/" + x;
    assert whole[|a|] == '/' && whole[|b|] == '/';
    assert whole[..|a|] == a && whole[..|b|] == b;
    assert |a| == |b| by {
      assert forall i | 0 <= i < |a| :: whole[i] == a[i];
      assert forall i | 0 <= i < |b| :: whole[i] == b[i];
    }
  }

  /** A key lies under the prefix of at most one attempt. */
  lemma AttemptPrefixesAreDisjoint(jobPrefix: string, m: nat, n: nat, key: string)
    requires IsUnder(key, AttemptPrefix(jobPrefix, m)) && IsUnder(key, AttemptPrefix(jobPrefix, n))
    ensures m == n
  {
    var head := jobPrefix + "attempt-";
    var a, b := Decimal.Print(m), Decimal.Print(n);
    assert AttemptPrefix(jobPrefix, m) == head + (a + "/") && AttemptPrefix(jobPrefix, n) == head + (b + "/");
    var rest := key[|head|..];
    assert rest == a + "/" + key[|head| + |a| + 1..];
    assert rest == b + "/" + key[|head| + |b| + 1..];
    DigitsHaveNoSlash(m);
    DigitsHaveNoSlash(n);
    FirstSlashIsUnique(a, b, key[|head| + |a| + 1..], key[|head| + |b| + 1..]);
    Decimal.ReadOfPrint(m);
    Decimal.ReadOfPrint(n);
  }

  lemma KeysAreOfThisAttempt(h: Run, s: Settings)
    requires Inv(h, s)
    ensures forall a, n: nat | a in h.row.artifacts && IsUnder(a.key, AttemptPrefix(s.jobPrefix, n)) ::
        n == h.row.attempts
  {
    forall a, n: nat | a in h.row.artifacts && IsUnder(a.key, AttemptPrefix(s.jobPrefix, n))
      ensures n == h.row.attempts
    {
      AttemptPrefixesAreDisjoint(s.jobPrefix, n, h.row.attempts, a.key);
    }
  }

  /** Committed artifacts lie under the winning attempt's prefix and under no other's. */
  lemma CommittedKeysAreTheWinners(maxAttempts: nat, s: Settings, events: seq<Event>, a: Artifact, attempt: nat)
    requires maxAttempts >= 1
    requires a in After(Start(maxAttempts), s, events).row.artifacts
    ensures After(Start(maxAttempts), s, events).row.state == Succeeded
    ensures IsUnder(a.key, AttemptPrefix(s.jobPrefix, attempt)) <==>
        attempt == After(Start(maxAttempts), s, events).row.attempts
  {
    InvAlways(maxAttempts, s, events);
    var r := After(Start(maxAttempts), s, events).row;
    if IsUnder(a.key, AttemptPrefix(s.jobPrefix, attempt)) {
      AttemptPrefixesAreDisjoint(s.jobPrefix, attempt, r.attempts, a.key);
    }
  }

  /** After a granted claim the claiming worker alone is in charge, under a prefix of its own. */
  lemma ClaimTakesOver(r: Row, s: Settings, worker: string, seenAttempts: nat, token: Token, now: real)
    requires r.attempts == seenAttempts && Claimable(r, now)
    ensures var c := ClaimRow(r, s, worker, seenAttempts, token, now);
            && (forall w, t, at: real :: ActiveLease(c, w, t, at) <==>
              w == worker && t == token && at < now + s.leaseSeconds)
            && (forall key, n: nat | IsUnder(key, c.prefix) && IsUnder(key, AttemptPrefix(s.jobPrefix, n)) ::
                  n == c.attempts == r.attempts + 1)
  {
    hide IsUnder, AttemptPrefix;
    var c := ClaimRow(r, s, worker, seenAttempts, token, now);
    forall key, n: nat | IsUnder(key, c.prefix) && IsUnder(key, AttemptPrefix(s.jobPrefix, n)) ensures n == c.attempts {
      AttemptPrefixesAreDisjoint(s.jobPrefix, n, c.attempts, key);
    }
  }

  // -- Repeating a completion ---------------------------------------------------------------------------

  /**
    Sending the committed completion again is accepted whatever happened since,
    including pruned intermediates; a different result or manifest conflicts. Neither
    changes the job.
   */
  lemma CompletionIsRepeatable(h: Run, s: Settings, e: Event, events: seq<Event>, again: Event)
    requires Inv(h, s) && e.Complete? && Step(h.row, s, e) != h.row
    requires again.Complete? && again.worker == e.worker && again.token == e.token
    requires ValidManifest(h.row, again.artifacts)
    ensures var later := After(Next(h, s, e), s, events).row;
            var reply := CompleteReply(later, again.worker, again.token, again.result, again.artifacts, again.now,
              again.finished);
            && Step(later, s, again) == later
            && (again.result == e.result && again.artifacts == e.artifacts ==> reply == Accepted)
            && (again.result != e.result ==> reply == Conflict)
            && (reply == Accepted ==> forall a | a in e.artifacts || a in again.artifacts ::
                  !a.intermediate ==> a in e.artifacts && a in again.artifacts)
  {
    TerminalAbsorbs(Next(h, s, e), s, events);
    var later := After(Next(h, s, e), s, events).row;
  }

  // -- The job object ---------------------------------------------------------------------------

  /** The row as an object with one method per endpoint, and what its run did to it. */
  class RemoteJob {
    const settings: Settings
    const maxAttempts: nat
    var state: State
    var worker: string
    var token: Option<Token>
    var leaseExpires: Option<real>
    var attempts: nat
    var prefix: string
    var lastBeat: Option<real>
    var progress: string
    var startedAt: Option<real>
    var finishedAt: Option<real>
    var result: Option<Result>
    var artifacts: set<Artifact>
    ghost var grants: nat
    ghost var changes: nat
    ghost var issued: set<Token>

    function AsRow(): Row
      reads this
    {
      Row(state, worker, token, leaseExpires, attempts, maxAttempts, prefix, lastBeat, progress,
          startedAt, finishedAt, result, artifacts)
    }

    ghost function History(): Run
      reads this
    {
      Run(AsRow(), grants, changes, issued)
    }

    ghost predicate Valid()
      reads this
    {
      Inv(History(), settings)
    }

    constructor (settings: Settings, maxAttempts: nat)
      requires maxAttempts >= 1
      ensures Valid() && History() == Start(maxAttempts) && this.settings == settings
    {
      this.settings, this.maxAttempts := settings, maxAttempts;
      state, worker, token, leaseExpires, attempts := Queued, "", None, None, 0;
      prefix, lastBeat, progress, startedAt, finishedAt := "", None, "", None, None;
      result, artifacts := None, {};
      grants, changes, issued := 0, 0, {};
    }

    /**
      A granted claim leaves the claiming worker alone in charge, for the lease time, with
      a prefix that no other attempt's keys lie under. A refused one changes nothing.
     */
    method Claim(workerId: string, seenAttempts: nat, newToken: Token, now: real) returns (won: bool)
      requires Valid() && newToken !in issued
      modifies this
      ensures Valid() && History() == Next(old(History()), settings, Event.Claim(workerId, seenAttempts, newToken, now))
      ensures won <==> && old(attempts) == seenAttempts < maxAttempts
                       && old(state == Queued || (state == Running && leaseExpires.Some? && leaseExpires.value < now))
      ensures !won ==> AsRow() == old(AsRow())
      ensures won ==> forall w, t, at: real :: ActiveLease(AsRow(), w, t, at) <==>
                        w == workerId && t == newToken && at < now + settings.leaseSeconds
      ensures won ==> forall key, n: nat | IsUnder(key, prefix) && IsUnder(key, AttemptPrefix(settings.jobPrefix, n)) ::
                        n == attempts == old(attempts) + 1
      ensures won ==>
                && progress == "" && lastBeat == Some(now)
                && startedAt == (if old(startedAt).Some? then old(startedAt) else Some(now))
                && finishedAt == old(finishedAt) && result == old(result) && artifacts == old(artifacts)
    {
      hide AttemptPrefix, IsUnder, Inv, ActiveLease;
      if attempts == seenAttempts && Claimable(AsRow(), now) {
        ClaimTakesOver(AsRow(), settings, workerId, seenAttempts, newToken, now);
      }
      NextKeepsInv(History(), settings, Event.Claim(workerId, seenAttempts, newToken, now));
      won := attempts == seenAttempts && Claimable(AsRow(), now);
      if won {
        changes, grants := if state == Running then changes else changes + 1, grants + 1;
        StartAttempt(workerId, newToken, now);
      }
      issued := issued + {newToken};
    }

    method StartAttempt(workerId: string, newToken: Token, now: real)
      modifies `state, `worker, `token, `leaseExpires, `attempts, `prefix, `lastBeat, `progress, `startedAt
      ensures AsRow() == Started(old(AsRow()), settings, workerId, newToken, now)
    {
      hide AttemptPrefix;
      state, worker, token, leaseExpires := Running, workerId, Some(newToken), Some(now + settings.leaseSeconds);
      attempts := attempts + 1;
      prefix := AttemptPrefix(settings.jobPrefix, attempts);
      if startedAt.None? { startedAt := Some(now); }
      lastBeat, progress := Some(now), "";
    }

    /**
      A beat takes no lease away and moves nothing but lease time, beat time and progress.
      It is accepted exactly when the lease it leaves is live at the time of the response;
      a delayed request of the same lease succeeds without publishing its progress.
     */
    method Heartbeat(workerId: string, presented: Token, report: string, now: real, responded: real)
      returns (reply: Reply, until: Option<real>)
      requires Valid()
      modifies this
      ensures Valid() && History() == Next(old(History()), settings, Event.Heartbeat(workerId, presented, report, now))
      ensures reply == Accepted <==> ActiveLease(AsRow(), workerId, presented, responded)
      ensures reply == Accepted ==> until == leaseExpires && until.Some? && until.value > responded
      ensures reply != Accepted ==> reply == Conflict && until == None
      ensures AsRow() == old(AsRow()).(leaseExpires := leaseExpires, lastBeat := lastBeat, progress := progress)
      ensures forall w, t, at: real | ActiveLease(old(AsRow()), w, t, at) :: ActiveLease(AsRow(), w, t, at)
      ensures old(lastBeat.None? || lastBeat.value < now) && ActiveLease(old(AsRow()), workerId, presented, now) ==>
                progress == report && forall at: real | at < now + settings.leaseSeconds ::
                  ActiveLease(AsRow(), workerId, presented, at)
      ensures old(lastBeat.None? || lastBeat.value < now) && ActiveLease(old(AsRow()), workerId, presented, now) ==>
                && old(leaseExpires).Some? && lastBeat == Some(now)
                && leaseExpires == Some(if old(leaseExpires).value > now + settings.leaseSeconds
                                        then old(leaseExpires).value else now + settings.leaseSeconds)
      ensures !ActiveLease(old(AsRow()), workerId, presented, now) || old(lastBeat.Some? && lastBeat.value >= now) ==>
                AsRow() == old(AsRow())
    {
      hide Inv;
      NextKeepsInv(History(), settings, Event.Heartbeat(workerId, presented, report, now));
      if ActiveLease(AsRow(), workerId, presented, now) && (lastBeat.None? || lastBeat.value < now) {
        if now + settings.leaseSeconds > leaseExpires.value { leaseExpires := Some(now + settings.leaseSeconds); }
        lastBeat, progress := Some(now), report;
      }
      reply := if ActiveLease(AsRow(), workerId, presented, responded) then Accepted else Conflict;
      until := if reply == Accepted then leaseExpires else None;
    }

    /**
      Accepted exactly for the live lease with a valid manifest, or for the repetition of
      what is committed. Then the job has succeeded with this result, every artifact that
      is not intermediate, and keys of this attempt only. Any other reply changes nothing.
     */
    method Complete(workerId: string, presented: Token, outcome: Result, submitted: set<Artifact>, now: real,
        finished: real)
      returns (reply: Reply)
      requires Valid()
      modifies this
      ensures Valid()
      ensures History() == Next(old(History()), settings,
          Event.Complete(workerId, presented, outcome, submitted, now, finished))
      ensures reply == CompleteReply(old(AsRow()), workerId, presented, outcome, submitted, now, finished)
      ensures reply == Accepted <==>
                && (exists a :: a in submitted && a.source)
                && (forall a, b | a in submitted && b in submitted && a.name == b.name :: a == b)
                && (forall a | a in submitted :: IsUnder(a.key, old(prefix)))
                && (|| (ActiveLease(old(AsRow()), workerId, presented, now) &&
                  ActiveLease(old(AsRow()), workerId, presented, finished))
                    || (&& old(state == Succeeded && worker == workerId && token == Some(presented) &&
                      result == Some(outcome))
                        && forall a: Artifact :: a in old(artifacts) <==>
                             a in submitted && (!a.intermediate || exists b ::
                               b in old(artifacts) && b.name == a.name)))
      ensures reply == Accepted ==>
                && state == Succeeded && worker == workerId && token == Some(presented) && result == Some(outcome)
                && (forall a: Artifact | !a.intermediate :: a in artifacts <==> a in submitted)
                && (forall a, n: nat | a in artifacts && IsUnder(a.key, AttemptPrefix(settings.jobPrefix, n)) ::
                  n == attempts)
      ensures reply == Accepted && old(state) == Running ==>
                finishedAt == Some(finished) && progress == "" && artifacts == submitted && attempts == old(attempts)
      ensures reply != Accepted || Terminal(old(AsRow())) ==> AsRow() == old(AsRow())
    {
      hide Inv, IsUnder, AttemptPrefix;
      NextKeepsInv(History(), settings, Event.Complete(workerId, presented, outcome, submitted, now, finished));
      if SameSuccessfulCompletion(AsRow(), workerId, presented) {
        if !ValidManifest(AsRow(), submitted) { return Invalid; }
        if result == Some(outcome) && artifacts == Expected(artifacts, submitted) {
          KeysAreOfThisAttempt(History(), settings);
          return Accepted;
        }
        return Conflict;
      }
      if !ActiveLease(AsRow(), workerId, presented, now) { return Conflict; }
      if !ValidManifest(AsRow(), submitted) { return Invalid; }
      // The conditional update comes after the artifact rows; on failure the transaction undoes them.
      if !ActiveLease(AsRow(), workerId, presented, finished) { return Conflict; }
      artifacts := submitted;
      state, result, finishedAt, progress := Succeeded, Some(outcome), Some(finished), "";
      changes := changes + 1;
      KeysAreOfThisAttempt(History(), settings);
      reply := Accepted;
    }

    /**
      Accepted exactly for a lease that is live at both readings of the clock. Then the
      lease is over for everybody, and the job waits again if it may be tried again.
     */
    method Fail(workerId: string, presented: Token, retryable: bool, now: real, checked: real) returns (reply: Reply)
      requires Valid()
      modifies this
      ensures Valid() && History() == Next(old(History()), settings,
          Event.Fail(workerId, presented, retryable, now, checked))
      ensures reply == Accepted <==>
                ActiveLease(old(AsRow()), workerId, presented, checked) &&
                  ActiveLease(old(AsRow()), workerId, presented, now)
      ensures reply == Accepted ==>
                && (forall w, t, at: real :: !ActiveLease(AsRow(), w, t, at))
                && (state == Queued <==> retryable && old(attempts) < maxAttempts) &&
                  (state != Queued ==> state == State.Failed)
                && attempts == old(attempts) && startedAt == old(startedAt) && progress == ""
                && (if state == Queued
                    then worker == "" && token == None && leaseExpires == None && prefix == "" && lastBeat == None
                    else finishedAt == Some(now))
      ensures reply != Accepted ==> reply == Conflict && AsRow() == old(AsRow())
    {
      hide Inv;
      NextKeepsInv(History(), settings, Event.Fail(workerId, presented, retryable, now, checked));
      if !ActiveLease(AsRow(), workerId, presented, checked) { return Conflict; }
      if !ActiveLease(AsRow(), workerId, presented, now) { return Conflict; }
      changes := changes + 1;
      if retryable && attempts < maxAttempts {
        Requeue();
      } else {
        state, finishedAt, progress := State.Failed, Some(now), "";
      }
      reply := Accepted;
    }

    method Requeue()
      modifies `state, `worker, `token, `leaseExpires, `prefix, `lastBeat, `progress
      ensures AsRow() == Requeued(old(AsRow()))
    {
      state, worker, token, leaseExpires := Queued, "", None, None;
      prefix, lastBeat, progress := "", None, "";
    }

    /** A lease that has run out is over for everybody; any other one is not touched. */
    method Reconcile(now: real) returns (changed: bool)
      requires Valid()
      modifies this
      ensures Valid() && History() == Next(old(History()), settings, Event.Reconcile(now))
      ensures changed <==> old(state == Running && leaseExpires.Some? && leaseExpires.value < now)
      ensures changed ==>
                && (forall w, t, at: real :: !ActiveLease(AsRow(), w, t, at))
                && (state == Queued <==> old(attempts) < maxAttempts) && (state != Queued ==> state == State.Failed)
                && attempts == old(attempts) && startedAt == old(startedAt) && progress == ""
                && (if state == Queued
                    then worker == "" && token == None && leaseExpires == None && prefix == "" && lastBeat == None
                    else finishedAt == Some(now))
      ensures !changed ==> AsRow() == old(AsRow())
    {
      hide Inv;
      NextKeepsInv(History(), settings, Event.Reconcile(now));
      changed := state == Running && LeaseExpired(AsRow(), now);
      if changed {
        changes := changes + 1;
        if attempts < maxAttempts {
          Requeue();
        } else {
          state, finishedAt, progress := State.Failed, Some(now), "";
        }
      }
    }

    /** No live lease and no finished job is failed this way, and a waiting job always is. */
    method FailBeforeClaim(now: real)
      requires Valid()
      modifies this
      ensures Valid() && History() == Next(old(History()), settings, Event.FailBeforeClaim(now))
      ensures Terminal(old(AsRow())) || (exists w, t :: ActiveLease(old(AsRow()), w, t, now)) ==>
          AsRow() == old(AsRow())
      ensures old(state == Queued || (state == Running && leaseExpires.Some? && leaseExpires.value < now)) ==>
                state == State.Failed && attempts == old(attempts) && artifacts == {} && finishedAt == Some(now)
      ensures forall w, t, at: real | ActiveLease(AsRow(), w, t, at) :: ActiveLease(old(AsRow()), w, t, at)
    {
      NextKeepsInv(History(), settings, Event.FailBeforeClaim(now));
      if (state == Queued && worker == "") || (state == Running && LeaseExpired(AsRow(), now)) {
        state, finishedAt, progress := State.Failed, Some(now), "";
        changes := changes + 1;
      }
    }
  }
}
