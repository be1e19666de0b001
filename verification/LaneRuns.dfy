/**
  Runs of the lane scheduler: processes start, register, poll, release, give up and
  die, also inside a locked section. A process number is never used twice.
 */
module LaneRuns {
  import opened Wrappers
  import opened Sets
  import opened LaneScheduler

  /**
    The files, the processes alive, the process numbers and tokens used so far, the
    calls that wait and the calls that run.
   */
  datatype World = World(
    files: Directory, alive: set<int>, seen: set<int>, used: set<Token>,
    waiting: map<Token, Waiter>, running: map<Token, Waiter>)

  /** How far a poll got when it was cut; a file that was being written is unreadable. */
  datatype Stage =
    | CleaningWaiters(removed: set<Token>)
    | ReclaimingHolders(removed: set<Token>, legacyRemoved: bool)
    | Registering
    | Registered
    | WritingHolder
    | HolderWritten

  datatype Event =
    | Start(pid: int)
    | Die(pid: int)
    | Register(w: Waiter)
    | RegisterCut(w: Waiter)
    | Poll(token: Token, now: real)
    | PollCut(token: Token, now: real, stage: Stage, crash: bool)
    | Withdraw(token: Token)
    | Release(token: Token)
    | LegacyReleased

  // -- Steps --------------------------------------------------------------------------------

  /** The files a poll leaves when it is cut at the stage. */
  ghost function CutFiles(d: Directory, s: Slots, alive: set<int>, w: Waiter, now: real, stage: Stage): Directory {
    var cleaned := Cleaned(d, alive);
    match stage
    case CleaningWaiters(removed) => d.(waiters := d.waiters - (removed - cleaned.waiters.Keys))
    case ReclaimingHolders(removed, legacyRemoved) =>
      Directory(cleaned.waiters, d.holders - (removed - cleaned.holders.Keys), if legacyRemoved then cleaned.legacy
        else d.legacy)
    case Registering => if w.token in cleaned.waiters then cleaned
      else cleaned.(waiters := cleaned.waiters[w.token := None])
    case Registered => Prepared(d, alive, w)
    case WritingHolder =>
      var p := Prepared(d, alive, w);
      if Wins(d, s, alive, w) then p.(holders := p.holders[w.token := None]) else p
    case HolderWritten =>
      var p := Prepared(d, alive, w);
      if Wins(d, s, alive, w) then p.(holders := p.holders[w.token := Some(HolderOf(w, now))]) else p
  }

  function Killed(w: World, pid: int): World {
    w.(alive := w.alive - {pid},
       waiting := map t | t in w.waiting && w.waiting[t].pid != pid :: w.waiting[t],
       running := map t | t in w.running && w.running[t].pid != pid :: w.running[t])
  }

  function Withdrawn(w: World, token: Token): World {
    w.(files := w.files.(waiters := w.files.waiters - {token}), waiting := w.waiting - {token})
  }

  ghost predicate Enabled(w: World, e: Event) {
    match e
    case Start(pid) => pid > 0 && pid !in w.seen
    case Register(call) => call.token !in w.used && Alive(call.pid, w.alive)
    case RegisterCut(call) => call.token !in w.used && Alive(call.pid, w.alive)
    case Poll(token, _) => token in w.waiting
    case PollCut(token, _, _, _) => token in w.waiting
    case Withdraw(token) => token in w.waiting
    case Release(token) => token in w.running
    case _ => true
  }

  ghost predicate Admits(w: World, s: Slots, token: Token)
    requires token in w.waiting
  {
    Wins(w.files, s, w.alive, w.waiting[token])
  }

  ghost function Step(w: World, s: Slots, e: Event): World {
    match e
    case Start(pid) => w.(alive := w.alive + {pid}, seen := w.seen + {pid})
    case Die(pid) => Killed(w, pid)
    case Register(call) =>
      w.(files := w.files.(waiters := w.files.waiters[call.token := Some(call)]),
         used := w.used + {call.token}, waiting := w.waiting[call.token := call])
    case RegisterCut(call) =>
      Killed(w.(files := w.files.(waiters := w.files.waiters[call.token := None]), used := w.used + {call.token}),
        call.pid)
    case Poll(token, now) =>
      if token !in w.waiting then w
      else
        var call := w.waiting[token];
        var polled := w.(files := Polled(w.files, s, w.alive, call, now));
        if Admits(w, s, token) then polled.(waiting := w.waiting - {token}, running := w.running[token := call])
          else polled
    case PollCut(token, now, stage, crash) =>
      if token !in w.waiting then w
      else
        var cut := w.(files := CutFiles(w.files, s, w.alive, w.waiting[token], now, stage));
        if crash then Killed(cut, w.waiting[token].pid) else Withdrawn(cut, token)
    case Withdraw(token) => Withdrawn(w, token)
    case Release(token) => w.(files := w.files.(holders := w.files.holders - {token}), running := w.running - {token})
    case LegacyReleased => w.(files := w.files.(legacy := None))
  }

  // -- Invariant --------------------------------------------------------------------------------

  function LiveTotal(d: Directory, alive: set<int>): nat { Total(Cleaned(d, alive)) }

  function LiveNonInteractive(d: Directory, alive: set<int>): nat { NonInteractiveTotal(Cleaned(d, alive)) }

  /** Records name processes that have been seen; calls belong to processes that are alive. */
  ghost predicate PidsAreSeen(w: World) {
    && w.alive <= w.seen
    && (forall t | t in w.files.waiters && w.files.waiters[t].Some? :: w.files.waiters[t].value.pid in w.seen)
    && (forall t | t in w.files.holders && w.files.holders[t].Some? :: w.files.holders[t].value.pid in w.seen)
    && (w.files.legacy.Some? && w.files.legacy.value.Some? ==> w.files.legacy.value.value.pid in w.seen)
  }

  ghost predicate TokensAreUsed(w: World) {
    && (forall t | t in w.files.waiters :: t in w.used)
    && (forall t | t in w.waiting :: t in w.used && w.waiting[t].token == t && Alive(w.waiting[t].pid, w.alive))
    && (forall t | t in w.running :: t in w.used && w.running[t].token == t && Alive(w.running[t].pid, w.alive))
    && w.waiting.Keys !! w.running.Keys
    && WellNamed(w.files.waiters)
  }

  /** The waiter files of live processes are those of the waiting calls. */
  ghost predicate WaitersHaveFiles(w: World) {
    && (forall t | t in w.waiting :: t in w.files.waiters && w.files.waiters[t] == Some(w.waiting[t]))
    && (forall t | t in w.files.waiters && IsLiveWaiter(w.files.waiters[t], w.alive) :: t in w.waiting)
  }

  /** A running call has its holder file. */
  ghost predicate RunnersHaveFiles(w: World) {
    forall t | t in w.running :: t in w.files.holders && w.files.holders[t].Some?
      && w.files.holders[t].value.pid == w.running[t].pid && w.files.holders[t].value.lane == w.running[t].lane
  }

  ghost predicate SlotsAreKept(w: World, s: Slots) {
    && LiveTotal(w.files, w.alive) <= s.interactive + s.nonInteractive
    && LiveNonInteractive(w.files, w.alive) <= s.nonInteractive
  }

  ghost predicate Inv(w: World, s: Slots) {
    PidsAreSeen(w) && TokensAreUsed(w) && WaitersHaveFiles(w) && RunnersHaveFiles(w) && SlotsAreKept(w, s)
  }

  // -- Counting -------------------------------------------------------------------------------------

  /** Fewer live holder files, smaller counts. */
  lemma CountsShrink(d: Directory, alive: set<int>, d': Directory, alive': set<int>)
    requires forall t | t in d'.holders && IsLiveHolder(d'.holders[t], alive') ::
               t in d.holders && d.holders[t] == d'.holders[t] && IsLiveHolder(d.holders[t], alive)
    requires LiveLegacy(d'.legacy, alive').Some? ==> LiveLegacy(d.legacy, alive).Some?
    ensures LiveTotal(d', alive') <= LiveTotal(d, alive) &&
        LiveNonInteractive(d', alive') <= LiveNonInteractive(d, alive)
  {
    hide IsLiveHolder;
    var few, many := LiveHolders(d'.holders, alive'), LiveHolders(d.holders, alive);
    SubsetIsSmaller(few.Keys, many.Keys);
    SubsetIsSmaller(NonInteractiveTokens(few), NonInteractiveTokens(many));
  }

  /** What a new holder file adds to the counts. */
  lemma CountsGrow(d: Directory, alive: set<int>, t: Token, file: Option<Holder>)
    ensures LiveTotal(d.(holders := d.holders[t := file]), alive) <= LiveTotal(d, alive) + 1
    ensures LiveNonInteractive(d.(holders := d.holders[t := file]), alive)
         <= LiveNonInteractive(d, alive) + if file.Some? && file.value.lane.NonInteractive? then 1 else 0
  {
    hide IsLiveHolder;
    var before, after := LiveHolders(d.holders, alive), LiveHolders(d.holders[t := file], alive);
    OneMoreAtMost(before.Keys, after.Keys, t, true);
    OneMoreAtMost(NonInteractiveTokens(before), NonInteractiveTokens(after), t, file.Some? &&
      file.value.lane.NonInteractive?);
  }

  lemma OneMoreAtMost<T>(before: set<T>, after: set<T>, t: T, added: bool)
    requires forall x | x in after :: x in before || (added && x == t)
    ensures |after| <= |before| + if added then 1 else 0
  {
    if added {
      SubsetIsSmaller(after, before + {t});
      assert |before + {t}| <= |before| + 1 by { assert before + {t} == before + ({t} - before); }
    } else {
      SubsetIsSmaller(after, before);
    }
  }

  lemma CleaningKeepsCounts(d: Directory, alive: set<int>, w: Waiter)
    ensures LiveTotal(Prepared(d, alive, w), alive) == LiveTotal(d, alive) == Total(Prepared(d, alive, w))
    ensures LiveNonInteractive(Prepared(d, alive, w), alive) == LiveNonInteractive(d, alive) ==
        NonInteractiveTotal(Prepared(d, alive, w))
  {
    assert LiveHolders(LiveHolders(d.holders, alive), alive) == LiveHolders(d.holders, alive);
  }

  /** Admission keeps to the slots, whether or not the holder file got written. */
  lemma AdmissionKeepsSlots(d: Directory, s: Slots, alive: set<int>, w: Waiter, file: Option<Holder>)
    requires WellNamed(d.waiters) && Wins(d, s, alive, w)
    requires w.token in d.waiters && d.waiters[w.token] == Some(w) && Alive(w.pid, alive)
    requires LiveTotal(d, alive) <= s.interactive + s.nonInteractive && LiveNonInteractive(d, alive) <= s.nonInteractive
    requires file.Some? ==> file.value.lane == w.lane
    ensures var after := Prepared(d, alive, w).(holders := Prepared(d, alive, w).holders[w.token := file]);
            LiveTotal(after, alive) <= s.interactive + s.nonInteractive &&
              LiveNonInteractive(after, alive) <= s.nonInteractive
  {
    CleaningKeepsCounts(d, alive, w);
    CountsGrow(Prepared(d, alive, w), alive, w.token, file);
  }

  // -- Every step keeps the invariant -------------------------------------------------------------------

  /** What a locked section of the waiter may have done to the files. */
  ghost predicate SectionOf(d: Directory, d': Directory, alive: set<int>, w: Waiter) {
    && (forall t | t in d'.waiters :: t in d.waiters && d'.waiters[t] == d.waiters[t])
    && (forall t | t in d.waiters && t != w.token && IsLiveWaiter(d.waiters[t], alive) :: t in d'.waiters)
    && (forall t | t in d'.holders :: (t in d.holders && d'.holders[t] == d.holders[t])
          || (t == w.token && (d'.holders[t].Some? ==> d'.holders[t].value.pid == w.pid)))
    && (forall t | t in d.holders && t != w.token && IsLiveHolder(d.holders[t], alive) :: t in d'.holders)
    && (d'.legacy.Some? ==> d'.legacy == d.legacy)
  }

  /** The waiter is registered and its process is alive. */
  ghost predicate IsRegistered(d: Directory, alive: set<int>, w: Waiter) {
    WellNamed(d.waiters) && w.token in d.waiters && d.waiters[w.token] == Some(w) && Alive(w.pid, alive)
  }

  lemma CutIsSection(d: Directory, s: Slots, alive: set<int>, w: Waiter, now: real, stage: Stage)
    requires IsRegistered(d, alive, w)
    ensures SectionOf(d, CutFiles(d, s, alive, w, now, stage), alive, w)
  {
    hide Wins;
  }

  lemma CutKeepsSlots(d: Directory, s: Slots, alive: set<int>, w: Waiter, now: real, stage: Stage)
    requires IsRegistered(d, alive, w)
    requires LiveTotal(d, alive) <= s.interactive + s.nonInteractive && LiveNonInteractive(d, alive) <= s.nonInteractive
    ensures var after := CutFiles(d, s, alive, w, now, stage);
            LiveTotal(after, alive) <= s.interactive + s.nonInteractive &&
              LiveNonInteractive(after, alive) <= s.nonInteractive
  {
    hide LiveTotal, LiveNonInteractive, Wins, IsLiveWaiter;
    CleaningKeepsCounts(d, alive, w);
    if Wins(d, s, alive, w) {
      AdmissionKeepsSlots(d, s, alive, w, None);
      AdmissionKeepsSlots(d, s, alive, w, Some(HolderOf(w, now)));
    }
    if !stage.WritingHolder? && !stage.HolderWritten? && !stage.Registered? {
      CountsShrink(d, alive, CutFiles(d, s, alive, w, now, stage), alive);
    }
  }

  lemma PollKeepsSlots(d: Directory, s: Slots, alive: set<int>, w: Waiter, now: real)
    requires IsRegistered(d, alive, w)
    requires LiveTotal(d, alive) <= s.interactive + s.nonInteractive && LiveNonInteractive(d, alive) <= s.nonInteractive
    ensures var after := Polled(d, s, alive, w, now);
            LiveTotal(after, alive) <= s.interactive + s.nonInteractive &&
              LiveNonInteractive(after, alive) <= s.nonInteractive
  {
    CutKeepsSlots(d, s, alive, w, now, HolderWritten);
    hide LiveTotal, LiveNonInteractive, Wins, Prepared;
    CountsShrink(CutFiles(d, s, alive, w, now, HolderWritten), alive, Polled(d, s, alive, w, now), alive);
  }

  lemma CallIsRegistered(w: World, s: Slots, token: Token)
    requires Inv(w, s) && token in w.waiting
    ensures IsRegistered(w.files, w.alive, w.waiting[token]) && w.waiting[token].token == token
  {
  }

  /** The files of a waiting call changed within one of its locked sections, before the call itself is dealt with. */
  lemma SectionKeepsRest(w: World, s: Slots, d': Directory, token: Token)
    requires Inv(w, s) && token in w.waiting && SectionOf(w.files, d', w.alive, w.waiting[token])
    ensures PidsAreSeen(w.(files := d')) && RunnersHaveFiles(w.(files := d'))
    ensures TokensAreUsed(w.(files := d'))
    ensures forall t | t in w.waiting && t != token :: t in d'.waiters && d'.waiters[t] == Some(w.waiting[t])
    ensures forall t | t in d'.waiters && IsLiveWaiter(d'.waiters[t], w.alive) :: t in w.waiting
  {
    hide SlotsAreKept;
  }

  lemma KillKeepsInv(w: World, s: Slots, pid: int)
    requires PidsAreSeen(w) && TokensAreUsed(w) && RunnersHaveFiles(w) && SlotsAreKept(w, s)
    requires forall t | t in w.waiting && w.waiting[t].pid != pid ::
        t in w.files.waiters && w.files.waiters[t] == Some(w.waiting[t])
    requires forall t | t in w.files.waiters && IsLiveWaiter(w.files.waiters[t], w.alive) &&
        w.files.waiters[t].value.pid != pid :: t in w.waiting
    requires forall t | t in w.waiting && t in w.files.waiters && w.files.waiters[t].Some? ::
        w.files.waiters[t] == Some(w.waiting[t])
    ensures Inv(Killed(w, pid), s)
  {
    hide LiveTotal, LiveNonInteractive;
    CountsShrink(w.files, w.alive, w.files, w.alive - {pid});
  }

  lemma WithdrawKeepsInv(w: World, s: Slots, token: Token)
    requires PidsAreSeen(w) && TokensAreUsed(w) && RunnersHaveFiles(w) && SlotsAreKept(w, s)
    requires forall t | t in w.waiting && t != token :: t in w.files.waiters && w.files.waiters[t] == Some(w.waiting[t])
    requires forall t | t in w.files.waiters && IsLiveWaiter(w.files.waiters[t], w.alive) :: t in w.waiting
    ensures Inv(Withdrawn(w, token), s)
  {
    hide LiveTotal, LiveNonInteractive;
    CountsShrink(w.files, w.alive, Withdrawn(w, token).files, w.alive);
  }

  /** The files are up to date for every waiting call but perhaps this one. */
  ghost predicate OthersHaveFiles(w: World, token: Token) {
    && (forall t | t in w.waiting && t != token :: t in w.files.waiters && w.files.waiters[t] == Some(w.waiting[t]))
    && (forall t | t in w.files.waiters && IsLiveWaiter(w.files.waiters[t], w.alive) :: t in w.waiting)
  }

  lemma AdmissionKeepsInv(w: World, s: Slots, token: Token, now: real)
    requires PidsAreSeen(w) && TokensAreUsed(w) && RunnersHaveFiles(w) && SlotsAreKept(w, s) &&
        OthersHaveFiles(w, token)
    requires token in w.waiting && token !in w.files.waiters
    requires token in w.files.holders && w.files.holders[token] == Some(HolderOf(w.waiting[token], now))
    ensures Inv(w.(waiting := w.waiting - {token}, running := w.running[token := w.waiting[token]]), s)
  {
    hide LiveTotal, LiveNonInteractive, IsLiveHolder;
  }

  lemma WaitingOnKeepsInv(w: World, s: Slots, token: Token)
    requires PidsAreSeen(w) && TokensAreUsed(w) && RunnersHaveFiles(w) && SlotsAreKept(w, s) &&
        OthersHaveFiles(w, token)
    requires token in w.waiting && token in w.files.waiters && w.files.waiters[token] == Some(w.waiting[token])
    ensures Inv(w, s)
  {
    hide LiveTotal, LiveNonInteractive, IsLiveHolder;
  }

  lemma SlotsOfInv(w: World, s: Slots)
    requires Inv(w, s)
    ensures SlotsAreKept(w, s)
  {
  }

  /** What a poll does to the files of its own call. */
  lemma PolledFiles(d: Directory, s: Slots, alive: set<int>, w: Waiter, now: real)
    requires IsRegistered(d, alive, w)
    ensures var p := Polled(d, s, alive, w, now);
            && SectionOf(d, p, alive, w)
            && if Wins(d, s, alive, w)
               then w.token !in p.waiters && w.token in p.holders && p.holders[w.token] == Some(HolderOf(w, now))
               else w.token in p.waiters && p.waiters[w.token] == Some(w)
  {
    hide Wins;
  }

  lemma SlotsAfterPoll(w: World, s: Slots, call: Waiter, now: real)
    requires SlotsAreKept(w, s) && IsRegistered(w.files, w.alive, call)
    ensures SlotsAreKept(w.(files := Polled(w.files, s, w.alive, call, now)), s)
  {
    PollKeepsSlots(w.files, s, w.alive, call, now);
    hide Polled, LiveTotal, LiveNonInteractive;
  }

  lemma OthersAreRight(w: World, token: Token)
    requires forall t | t in w.waiting && t != token :: t in w.files.waiters && w.files.waiters[t] == Some(w.waiting[t])
    requires forall t | t in w.files.waiters && IsLiveWaiter(w.files.waiters[t], w.alive) :: t in w.waiting
    ensures OthersHaveFiles(w, token)
  {
  }

  lemma StepOfPoll(w: World, s: Slots, e: Event)
    requires e.Poll? && e.token in w.waiting
    ensures var call := w.waiting[e.token];
            var after := w.(files := Polled(w.files, s, w.alive, call, e.now));
            Step(w, s, e) == if Wins(w.files, s, w.alive, call)
              then after.(waiting := w.waiting - {e.token}, running := w.running[e.token := call]) else after
  {
    hide Polled, Wins;
  }

  lemma PollKeepsInv(w: World, s: Slots, e: Event)
    requires Inv(w, s) && Enabled(w, e) && e.Poll?
    ensures Inv(Step(w, s, e), s)
  {
    var call := w.waiting[e.token];
    var after := w.(files := Polled(w.files, s, w.alive, call, e.now));
    CallIsRegistered(w, s, e.token);
    SlotsOfInv(w, s);
    PolledFiles(w.files, s, w.alive, call, e.now);
    hide *;
    SectionKeepsRest(w, s, after.files, e.token);
    SlotsAfterPoll(w, s, call, e.now);
    OthersAreRight(after, e.token);
    if Wins(w.files, s, w.alive, call) {
      AdmissionKeepsInv(after, s, e.token, e.now);
    } else {
      WaitingOnKeepsInv(after, s, e.token);
    }
    StepOfPoll(w, s, e);
  }

  lemma CutKeepsInv(w: World, s: Slots, e: Event)
    requires Inv(w, s) && Enabled(w, e) && e.PollCut?
    ensures Inv(Step(w, s, e), s)
  {
    var call := w.waiting[e.token];
    var cut := CutFiles(w.files, s, w.alive, call, e.now, e.stage);
    CallIsRegistered(w, s, e.token);
    CutIsSection(w.files, s, w.alive, call, e.now, e.stage);
    CutKeepsSlots(w.files, s, w.alive, call, e.now, e.stage);
    SectionKeepsRest(w, s, cut, e.token);
    hide CutFiles, LiveTotal, LiveNonInteractive, IsLiveHolder;
    if e.crash {
      KillKeepsInv(w.(files := cut), s, call.pid);
    } else {
      WithdrawKeepsInv(w.(files := cut), s, e.token);
    }
  }

  lemma RegisterKeepsSlots(w: World, s: Slots, e: Event)
    requires SlotsAreKept(w, s) && e.Register?
    ensures SlotsAreKept(Step(w, s, e), s)
  {
    hide LiveTotal, LiveNonInteractive, IsLiveHolder;
    CountsShrink(w.files, w.alive, Step(w, s, e).files, w.alive);
  }

  lemma RegisterKeepsTokens(w: World, s: Slots, e: Event)
    requires PidsAreSeen(w) && TokensAreUsed(w) && Enabled(w, e) && e.Register?
    ensures PidsAreSeen(Step(w, s, e)) && TokensAreUsed(Step(w, s, e))
  {
  }

  lemma RegisterKeepsFiles(w: World, s: Slots, e: Event)
    requires TokensAreUsed(w) && WaitersHaveFiles(w) && RunnersHaveFiles(w) && Enabled(w, e) && e.Register?
    ensures WaitersHaveFiles(Step(w, s, e)) && RunnersHaveFiles(Step(w, s, e))
  {
  }

  lemma RegisterKeepsInv(w: World, s: Slots, e: Event)
    requires Inv(w, s) && Enabled(w, e) && e.Register?
    ensures Inv(Step(w, s, e), s)
  {
    hide Enabled, Step, PidsAreSeen, TokensAreUsed, WaitersHaveFiles, RunnersHaveFiles, SlotsAreKept;
    RegisterKeepsSlots(w, s, e);
    RegisterKeepsTokens(w, s, e);
    RegisterKeepsFiles(w, s, e);
  }

  lemma CutRegistrationKeepsInv(w: World, s: Slots, e: Event)
    requires Inv(w, s) && Enabled(w, e) && e.RegisterCut?
    ensures Inv(Step(w, s, e), s)
  {
    hide LiveTotal, LiveNonInteractive, IsLiveHolder, Killed;
    var files := w.files.(waiters := w.files.waiters[e.w.token := None]);
    CountsShrink(w.files, w.alive, files, w.alive);
    KillKeepsInv(w.(files := files, used := w.used + {e.w.token}), s, e.w.pid);
  }

  lemma ProcessStepKeepsInv(w: World, s: Slots, e: Event)
    requires Inv(w, s) && Enabled(w, e) && (e.Start? || e.Die?)
    ensures Inv(Step(w, s, e), s)
  {
    hide LiveTotal, LiveNonInteractive;
    if e.Start? {
      CountsShrink(w.files, w.alive, w.files, w.alive + {e.pid});
    } else {
      KillKeepsInv(w, s, e.pid);
    }
  }

  lemma ReleaseKeepsInv(w: World, s: Slots, e: Event)
    requires Inv(w, s) && Enabled(w, e) && (e.Release? || e.LegacyReleased?)
    ensures Inv(Step(w, s, e), s)
  {
    hide LiveTotal, LiveNonInteractive;
    CountsShrink(w.files, w.alive, Step(w, s, e).files, w.alive);
  }

  lemma StepKeepsInv(w: World, s: Slots, e: Event)
    requires Inv(w, s) && Enabled(w, e)
    ensures Inv(Step(w, s, e), s)
  {
    if e.Poll? { PollKeepsInv(w, s, e); }
    else if e.PollCut? { CutKeepsInv(w, s, e); }
    else if e.Register? { RegisterKeepsInv(w, s, e); }
    else if e.RegisterCut? { CutRegistrationKeepsInv(w, s, e); }
    else if e.Start? || e.Die? { ProcessStepKeepsInv(w, s, e); }
    else if e.Withdraw? {
      hide LiveTotal, LiveNonInteractive;
      WithdrawKeepsInv(w, s, e.token);
    } else { ReleaseKeepsInv(w, s, e); }
  }

  // -- Runs -------------------------------------------------------------------------------------------------

  /** At first there are no calls; an older process may hold the single slot. */
  ghost predicate Initial(w: World, s: Slots) {
    && s.nonInteractive >= 1
    && w.files.waiters == map[] && w.files.holders == map[] && w.waiting == map[] && w.running == map[]
    && PidsAreSeen(w)
  }

  ghost function After(start: World, s: Slots, events: seq<Event>): World {
    if events == [] then start else Step(After(start, s, events[..|events| - 1]), s, events[|events| - 1])
  }

  ghost predicate Possible(start: World, s: Slots, events: seq<Event>) {
    if events == [] then Initial(start, s)
    else
      Possible(start, s, events[..|events| - 1]) &&
        Enabled(After(start, s, events[..|events| - 1]), events[|events| - 1])
  }

  lemma {:induction false} InvAlways(start: World, s: Slots, events: seq<Event>)
    requires Possible(start, s, events)
    ensures Inv(After(start, s, events), s)
  {
    if events != [] {
      hide Inv, Step, Enabled;
      InvAlways(start, s, events[..|events| - 1]);
      StepKeepsInv(After(start, s, events[..|events| - 1]), s, events[|events| - 1]);
    }
  }

  function NonInteractiveRunning(w: World): set<Token> {
    set t | t in w.running && w.running[t].lane.NonInteractive?
  }

  /**
    In every run, whatever crashes, no more calls run than there are slots, nor more
    non-interactive ones than their own.
   */
  lemma RunningCallsKeepToSlots(start: World, s: Slots, events: seq<Event>)
    requires Possible(start, s, events)
    ensures var w := After(start, s, events);
            && |w.running| + LegacyCount(Cleaned(w.files, w.alive)) <= s.interactive + s.nonInteractive
            && |NonInteractiveRunning(w)| + LegacyCount(Cleaned(w.files, w.alive)) <= s.nonInteractive
  {
    InvAlways(start, s, events);
    var w := After(start, s, events);
    hide After, Possible;
    var live := LiveHolders(w.files.holders, w.alive);
    SubsetIsSmaller(w.running.Keys, live.Keys);
    SubsetIsSmaller(NonInteractiveRunning(w), NonInteractiveTokens(live));
  }

  /** Before it decides, a poll has reclaimed every file of a dead process and every unreadable one, and no other. */
  lemma PollReclaims(w: World, token: Token)
    requires token in w.waiting && Alive(w.waiting[token].pid, w.alive) && w.waiting[token].token == token
    ensures var p := Prepared(w.files, w.alive, w.waiting[token]);
            && (forall t | t in p.holders :: IsLiveHolder(p.holders[t], w.alive))
            && (forall t | t in w.files.holders && IsLiveHolder(w.files.holders[t], w.alive) ::
              t in p.holders && p.holders[t] == w.files.holders[t])
            && (p.legacy.Some? <==> w.files.legacy.Some? && IsLiveHolder(w.files.legacy.value, w.alive))
            && (forall t | t in p.waiters :: IsLiveWaiter(p.waiters[t], w.alive))
            && Total(p) == LiveTotal(w.files, w.alive) && NonInteractiveTotal(p) == LiveNonInteractive(w.files, w.alive)
  {
    CleaningKeepsCounts(w.files, w.alive, w.waiting[token]);
    hide Total, NonInteractiveTotal, LiveTotal, LiveNonInteractive;
  }

  /**
    In every run a poll leaves the files of live processes and no other; the one holder
    file it adds is the polling call's own, when it is admitted.
   */
  lemma PollLeavesLiveFiles(start: World, s: Slots, events: seq<Event>, token: Token, now: real)
    requires Possible(start, s, events) && token in After(start, s, events).waiting
    ensures var w := After(start, s, events);
            var after := Step(w, s, Poll(token, now)).files;
            && (forall t :: t in after.holders <==>
              (t in w.files.holders && IsLiveHolder(w.files.holders[t], w.alive)) ||
                (t == token && Admits(w, s, token)))
            && (forall t | t in after.holders :: IsLiveHolder(after.holders[t], w.alive))
            && (forall t | t in after.waiters :: IsLiveWaiter(after.waiters[t], w.alive))
            && (after.legacy.Some? <==> w.files.legacy.Some? && IsLiveHolder(w.files.legacy.value, w.alive))
  {
    var w := After(start, s, events);
    InvAlways(start, s, events);
    CallIsRegistered(w, s, token);
    hide After, Possible, Inv, Wins, Prepared, IsLiveWaiter;
    PollReclaims(w, token);
  }

  // -- Fairness -----------------------------------------------------------------------------------------------

  ghost predicate Fits(w: World, s: Slots, lane: Lane) {
    IsAdmissible(s, lane, LiveTotal(w.files, w.alive), LiveNonInteractive(w.files, w.alive))
  }

  /**
    A poll admits its call if and only if a slot of its lane is free, no call of its lane is
    earlier by time and then token, and no interactive one waits beside a non-interactive one.
   */
  lemma AdmittedIffFirstThatFits(start: World, s: Slots, events: seq<Event>, token: Token)
    requires Possible(start, s, events) && token in After(start, s, events).waiting
    ensures var w, call := After(start, s, events), After(start, s, events).waiting[token];
            Admits(w, s, token) <==>
              && LiveTotal(w.files, w.alive) < s.interactive + s.nonInteractive
              && (call.lane.NonInteractive? ==> LiveNonInteractive(w.files, w.alive) < s.nonInteractive)
              && (forall u | u in w.waiting && u != token && w.waiting[u].lane == call.lane ::
                   call.createdAt < w.waiting[u].createdAt || (call.createdAt == w.waiting[u].createdAt && token < u))
              && (call.lane.NonInteractive? ==> forall u | u in w.waiting :: w.waiting[u].lane.NonInteractive?)
  {
    var w := After(start, s, events);
    AdmittedIffNothingBeforeFits(start, s, events, token);
    InvAlways(start, s, events);
    hide After, Possible, Inv, LiveTotal, LiveNonInteractive, Admits;
    forall u | u in w.waiting ensures w.waiting[u].token == u {
      CallIsRegistered(w, s, u);
    }
  }

  lemma AdmittedIffNothingBeforeFits(start: World, s: Slots, events: seq<Event>, token: Token)
    requires Possible(start, s, events) && token in After(start, s, events).waiting
    ensures var w := After(start, s, events);
            Admits(w, s, token) <==>
              && Fits(w, s, w.waiting[token].lane)
              && forall u | u in w.waiting && Precedes(w.waiting[u], w.waiting[token]) :: !Fits(w, s, w.waiting[u].lane)
  {
    var w := After(start, s, events);
    InvAlways(start, s, events);
    CallIsRegistered(w, s, token);
    CleaningKeepsCounts(w.files, w.alive, w.waiting[token]);
    hide After, Possible, Inv, LiveTotal, LiveNonInteractive, Total, NonInteractiveTotal, Precedes, IsAdmissible,
      Prepared;
    WinsIffNext(Prepared(w.files, w.alive, w.waiting[token]), w, s, token);
  }

  lemma WinsIffNext(p: Directory, w: World, s: Slots, token: Token)
    requires token in w.waiting && w.waiting[token].token == token
    requires p.waiters == map t | t in w.waiting :: Some(w.waiting[t])
    ensures (Winner(p, s).Some? && Winner(p, s).value.token == token) <==>
              && IsAdmissible(s, w.waiting[token].lane, Total(p), NonInteractiveTotal(p))
              && forall u | u in w.waiting && Precedes(w.waiting[u], w.waiting[token]) ::
                   !IsAdmissible(s, w.waiting[u].lane, Total(p), NonInteractiveTotal(p))
  {
    hide Precedes, IsAdmissible, Total, NonInteractiveTotal;
    var call := w.waiting[token];
    if Winner(p, s).Some? && Winner(p, s).value.token == token {
      var winner :| IsNext(s, p.waiters, Total(p), NonInteractiveTotal(p), winner) && winner.token == token;
      assert winner == call;
      forall u | u in w.waiting && Precedes(w.waiting[u], call)
        ensures !IsAdmissible(s, w.waiting[u].lane, Total(p), NonInteractiveTotal(p))
      {
        assert p.waiters[u] == Some(w.waiting[u]);
      }
    } else {
      assert IsNext(s, p.waiters, Total(p), NonInteractiveTotal(p), call) ==> Winner(p, s) == Some(call) by {
        if IsNext(s, p.waiters, Total(p), NonInteractiveTotal(p), call) {
          NextIsChosen(s, p.waiters, Total(p), NonInteractiveTotal(p), call);
        }
      }
    }
  }

  /** Nobody is overtaken in his lane, and non-interactive calls only go when no interactive one waits. */
  lemma NobodyIsOvertaken(start: World, s: Slots, events: seq<Event>, token: Token, other: Token)
    requires Possible(start, s, events)
    requires var w := After(start, s, events);
             token in w.waiting && other in w.waiting && other != token && Admits(w, s, token)
    ensures var w := After(start, s, events);
            && (w.waiting[other].lane == w.waiting[token].lane ==>
                 w.waiting[token].createdAt < w.waiting[other].createdAt ||
                   (w.waiting[token].createdAt == w.waiting[other].createdAt && token < other))
            && (w.waiting[token].lane.NonInteractive? ==> w.waiting[other].lane.NonInteractive?)
  {
    var w := After(start, s, events);
    AdmittedIffFirstThatFits(start, s, events, token);
    hide After, Possible, LiveTotal, LiveNonInteractive, Admits;
  }

  function InteractiveTokens(holders: map<Token, Option<Holder>>): set<Token> {
    set t | t in holders && holders[t].Some? && holders[t].value.lane.Interactive?
  }

  function LiveInteractive(d: Directory, alive: set<int>): nat { |InteractiveTokens(LiveHolders(d.holders, alive))| }

  lemma TotalsAddUp(d: Directory, alive: set<int>)
    ensures LiveTotal(d, alive) == LiveInteractive(d, alive) + LiveNonInteractive(d, alive)
  {
    var live := LiveHolders(d.holders, alive);
    LanesAreDisjoint(live);
    assert |live| == |live.Keys|;
  }

  lemma LanesAreDisjoint(holders: map<Token, Option<Holder>>)
    requires forall t | t in holders :: holders[t].Some?
    ensures |holders.Keys| == |InteractiveTokens(holders)| + |NonInteractiveTokens(holders)|
  {
    assert holders.Keys == InteractiveTokens(holders) + NonInteractiveTokens(holders);
    assert InteractiveTokens(holders) !! NonInteractiveTokens(holders);
  }

  /** With a reserved slot free, the next poll of the first interactive call admits it. */
  lemma ReservedSlotAdmitsHead(start: World, s: Slots, events: seq<Event>, token: Token)
    requires Possible(start, s, events)
    requires var w := After(start, s, events);
             && token in w.waiting && w.waiting[token].lane.Interactive?
             && (forall u | u in w.waiting && u != token && w.waiting[u].lane.Interactive? ::
                  w.waiting[token].createdAt < w.waiting[u].createdAt ||
                    (w.waiting[token].createdAt == w.waiting[u].createdAt && token < u))
             && LiveInteractive(w.files, w.alive) < s.interactive
    ensures Admits(After(start, s, events), s, token)
  {
    var w := After(start, s, events);
    InvAlways(start, s, events);
    AdmittedIffFirstThatFits(start, s, events, token);
    TotalsAddUp(w.files, w.alive);
    hide After, Possible, LiveTotal, LiveNonInteractive, LiveInteractive, Admits;
  }

  /** The waiting calls that go before this one. */
  function Ahead(w: World, token: Token): set<Token>
    requires token in w.waiting
  {
    set u | u in w.waiting && Precedes(w.waiting[u], w.waiting[token])
  }

  /** In columns: interactive before non-interactive, then the earlier time, then the smaller token. */
  predicate IsEarlier(a: Waiter, b: Waiter) {
    || (a.lane.Interactive? && b.lane.NonInteractive?)
    || (a.lane == b.lane && a.createdAt < b.createdAt)
    || (a.lane == b.lane && a.createdAt == b.createdAt && a.token < b.token)
  }

  lemma AheadOf(a: Waiter, b: Waiter)
    ensures Precedes(a, b) <==> IsEarlier(a, b)
  {
  }

  lemma AheadIsEarlier(w: World, token: Token)
    requires token in w.waiting
    ensures forall u :: u in Ahead(w, token) <==> u in w.waiting && IsEarlier(w.waiting[u], w.waiting[token])
  {
  }

  lemma StepOfWaiting(w: World, s: Slots, e: Event)
    ensures var w' := Step(w, s, e);
            if e.Register? then w'.waiting == w.waiting[e.w.token := e.w]
            else forall t | t in w'.waiting :: t in w.waiting && w'.waiting[t] == w.waiting[t]
  {
    hide Polled, CutFiles, Admits;
  }

  lemma AheadAfterRegistering(w: World, w': World, call: Waiter, token: Token)
    requires token in w.waiting && call.token !in w.waiting && w'.waiting == w.waiting[call.token := call]
    ensures Ahead(w', token) == Ahead(w, token) + (if Precedes(call, w.waiting[token]) then {call.token} else {})
    ensures call.token !in Ahead(w, token)
  {
    hide Precedes;
  }

  lemma AheadAfterOthers(w: World, w': World, token: Token)
    requires token in w.waiting && token in w'.waiting
    requires forall t | t in w'.waiting :: t in w.waiting && w'.waiting[t] == w.waiting[t]
    ensures Ahead(w', token) <= Ahead(w, token) && |Ahead(w', token)| <= |Ahead(w, token)|
  {
    SubsetIsSmaller(Ahead(w', token), Ahead(w, token));
  }

  lemma WaitingIsUsed(w: World, s: Slots)
    requires Inv(w, s)
    ensures forall t | t in w.waiting :: t in w.used
  {
  }

  /** More calls get ahead of a waiting one exactly by registering with a smaller key. */
  lemma AheadGrowsIff(start: World, s: Slots, events: seq<Event>, e: Event, token: Token)
    requires Possible(start, s, events) && Enabled(After(start, s, events), e)
    requires token in After(start, s, events).waiting && token in Step(After(start, s, events), s, e).waiting
    ensures var w, w' := After(start, s, events), Step(After(start, s, events), s, e);
            && Ahead(w', token) - Ahead(w, token) ==
              (if e.Register? && IsEarlier(e.w, w.waiting[token]) then {e.w.token} else {})
            && (|Ahead(w', token)| > |Ahead(w, token)| <==> e.Register? && IsEarlier(e.w, w.waiting[token]))
            && (forall u :: u in Ahead(w, token) <==> u in w.waiting && IsEarlier(w.waiting[u], w.waiting[token]))
  {
    hide After, Possible, Step, Inv, Precedes, IsEarlier, Ahead;
    var w := After(start, s, events);
    var w' := Step(w, s, e);
    InvAlways(start, s, events);
    AheadIsEarlier(w, token);
    WaitingIsUsed(w, s);
    StepOfWaiting(w, s, e);
    if e.Register? {
      AheadOf(e.w, w.waiting[token]);
      AheadAfterRegistering(w, w', e.w, token);
    } else {
      AheadAfterOthers(w, w', token);
    }
  }

  const NOBODY := World(Directory(map[], map[], None), {}, {}, {}, map[], map[])

  /** A call that read the clock early but registered late gets ahead of one that waits. */
  lemma LateRegistrationGetsAhead(s: Slots)
    requires s.nonInteractive >= 1
    ensures var first, late := Waiter(1, Interactive, 7, 2.0), Waiter(2, Interactive, 7, 1.0);
            var events := [Start(7), Register(first)];
            && Possible(NOBODY, s, events) && Enabled(After(NOBODY, s, events), Register(late))
            && Ahead(After(NOBODY, s, events), 1) == {}
            && Ahead(Step(After(NOBODY, s, events), s, Register(late)), 1) == {2}
  {
    var first, late := Waiter(1, Interactive, 7, 2.0), Waiter(2, Interactive, 7, 1.0);
    var none: seq<Event> := [];
    var one, two := [Start(7)], [Start(7), Register(first)];
    assert one[..0] == none && two[..1] == one;
    assert After(NOBODY, s, none) == NOBODY && Possible(NOBODY, s, none);
    var w1 := Step(NOBODY, s, Start(7));
    assert After(NOBODY, s, one) == w1 && Possible(NOBODY, s, one);
    var w2 := Step(w1, s, Register(first));
    assert After(NOBODY, s, two) == w2 && Possible(NOBODY, s, two);
    assert w2.waiting == map[1 := first];
    assert Step(w2, s, Register(late)).waiting == map[1 := first, 2 := late];
  }
}
