/**
  Runs of the login throttle: any interleaving of reservations and settlements, also of
  settlements that outlive their window or come twice. The clock never goes back and no
  entry is evicted.
 */
module LoginRuns {
  import opened LoginThrottle

  datatype Event =
    | Reserve(address: string, name: string, token: Token, now: real)
    | Settle(token: Token, success: bool, now: real)

  /**
    The table, and what happened so far: the reservations granted with their keys, those not
    settled yet, and per key the times of the failed checks. A success on a user name starts
    the log of that name afresh.
   */
  datatype World = World(
    table: Buckets, clock: real, granted: map<Token, (Key, Key)>, open: set<Token>, failures: map<Key, seq<real>>)

  function Log(w: World, key: Key): seq<real> { if key in w.failures then w.failures[key] else [] }

  predicate Concerns(w: World, token: Token, key: Key) {
    token in w.granted && (w.granted[token].0 == key || w.granted[token].1 == key)
  }

  /** The checks of a key that are still running. */
  function Running(w: World, key: Key): set<Token> { set token | token in w.open && Concerns(w, token, key) }

  predicate Enabled(w: World, e: Event) {
    w.clock <= e.now && (if e.Reserve? then e.token !in w.granted else e.token in w.granted)
  }

  /** A check that was running failed for its address and its name, or succeeded. */
  function Logged(w: World, token: Token, success: bool, now: real): map<Key, seq<real>>
    requires token in w.granted
  {
    var (a, u) := w.granted[token];
    if token !in w.open then w.failures
    else if success then w.failures[u := []]
    else w.failures[a := Log(w, a) + [now]][u := Log(w, u) + [now]]
  }

  function Step(w: World, s: Settings, e: Event): World {
    match e
    case Reserve(address, name, token, now) =>
      var a, u := Address(address), Username(name);
      if Grants(w.table, s, a, u, now)
      then World(Reserved(w.table, s, a, u, token, now), now, w.granted[token := (a, u)], w.open + {token}, w.failures)
      else World(Reserved(w.table, s, a, u, token, now), now, w.granted, w.open, w.failures)
    case Settle(token, success, now) =>
      if token !in w.granted then w
      else
        var (a, u) := w.granted[token];
        World(Settled(w.table, s, a, u, token, success, now), now, w.granted, w.open - {token},
          Logged(w, token, success, now))
  }

  const NOTHING := World(map[], 0.0, map[], {}, map[])

  function After(s: Settings, events: seq<Event>): World {
    if events == [] then NOTHING else Step(After(s, events[..|events| - 1]), s, events[|events| - 1])
  }

  predicate Possible(s: Settings, events: seq<Event>) {
    events == [] ||
    (Possible(s, events[..|events| - 1]) && Enabled(After(s, events[..|events| - 1]), events[|events| - 1]))
  }

  // -- Windows of a log of failures -----------------------------------------------------------

  /** Where the windows start: with the first failure, and with the first one after each window. */
  function Starts(log: seq<real>, length: real): (starts: seq<real>)
    ensures log != [] ==> starts != []
  {
    if log == [] then []
    else
      var before, last := Starts(log[..|log| - 1], length), log[|log| - 1];
      if before != [] && last < before[|before| - 1] + length then before else before + [last]
  }

  function LastStart(log: seq<real>, length: real): real
    requires log != []
  {
    var starts := Starts(log, length);
    starts[|starts| - 1]
  }

  /** The failures in the last window. */
  function InLast(log: seq<real>, length: real): nat {
    if log == [] then 0
    else
      var init, last := log[..|log| - 1], log[|log| - 1];
      if init != [] && last < LastStart(init, length) + length then InLast(init, length) + 1 else 1
  }

  predicate WindowsHold(log: seq<real>, length: real, max: nat) {
    log == [] || (WindowsHold(log[..|log| - 1], length, max) && InLast(log, length) <= max)
  }

  predicate NonDecreasing(log: seq<real>) { forall i, j | 0 <= i < j < |log| :: log[i] <= log[j] }

  lemma {:induction false} LogFitsWindows(log: seq<real>, length: real, max: nat)
    requires WindowsHold(log, length, max) && log != []
    ensures |log| <= max * (|Starts(log, length)| - 1) + InLast(log, length)
  {
    var init := log[..|log| - 1];
    if init != [] {
      LogFitsWindows(init, length, max);
      var n := |Starts(init, length)|;
      assert max * n == max * (n - 1) + max;
    }
  }

  /** The time `n` windows take. */
  function Span(n: int, length: real): real { n as real * length }

  lemma SpanOfOneMore(n: int, length: real)
    ensures Span(n, length) == Span(n - 1, length) + length && Span(0, length) == 0.0
  {
  }

  lemma {:induction false} StartsAreApart(log: seq<real>, length: real)
    requires log != [] && NonDecreasing(log) && length > 0.0
    ensures LastStart(log, length) >= log[0] + Span(|Starts(log, length)| - 1, length)
    ensures LastStart(log, length) <= log[|log| - 1]
  {
    hide Span;
    var init, last := log[..|log| - 1], log[|log| - 1];
    if init == [] {
      SpanOfOneMore(0, length);
      assert Starts(log, length) == [last];
    } else {
      StartsAreApart(init, length);
      assert log[0] == init[0] && init[|init| - 1] <= last;
      SpanOfOneMore(|Starts(init, length)|, length);
    }
  }

  lemma {:induction false} PrefixHolds(log: seq<real>, length: real, max: nat, n: nat)
    requires WindowsHold(log, length, max) && n <= |log|
    ensures WindowsHold(log[..n], length, max)
    decreases |log|
  {
    if n < |log| {
      PrefixHolds(log[..|log| - 1], length, max, n);
      assert log[..|log| - 1][..n] == log[..n];
    } else {
      assert log[..n] == log;
    }
  }

  lemma WindowsInTime(windows: nat, length: real, time: real)
    requires windows >= 1 && length > 0.0 && Span(windows - 1, length) <= time
    ensures windows <= (time / length).Floor + 1
  {
    var ratio := time / length;
    assert ratio * length == time;
    if ratio < (windows - 1) as real {
    }
  }

  lemma FitInWindows(n: nat, max: nat, windows: int, inLast: nat, bound: int)
    requires n <= max * (windows - 1) + inLast && inLast <= max && windows <= bound
    ensures n <= max * bound
  {
    assert max * (windows - 1) + max == max * windows;
    assert max * bound == max * windows + max * (bound - windows);
  }

  /** The failures of the `time` seconds after the first one, when every window holds at most `max`. */
  lemma FailuresInTime(log: seq<real>, length: real, max: nat, time: real, n: nat)
    requires NonDecreasing(log) && WindowsHold(log, length, max) && length > 0.0
    requires 0 < n <= |log| && log[n - 1] <= log[0] + time
    ensures n <= max * ((time / length).Floor + 1)
  {
    var some := log[..n];
    assert some[0] == log[0] && some[n - 1] == log[n - 1];
    assert NonDecreasing(some);
    PrefixHolds(log, length, max, n);
    hide NonDecreasing, Span, Starts;
    LogFitsWindows(some, length, max);
    StartsAreApart(some, length);
    assert InLast(some, length) <= max;
    var windows := |Starts(some, length)|;
    hide *;
    WindowsInTime(windows, length, time);
    FitInWindows(n, max, windows, InLast(some, length), (time / length).Floor + 1);
  }

  // -- Invariant ---------------------------------------------------------------------------------

  /** Failures and running checks of a bucket stay within the budget. */
  predicate WithinBudget(b: Bucket, s: Settings) { b.failures + |b.pending| <= s.maxFailures }

  /** The bucket counts the last window of the log. */
  predicate CountsLog(b: Bucket, s: Settings, log: seq<real>, clock: real) {
    && NonDecreasing(log) && (forall i | 0 <= i < |log| :: log[i] <= clock)
    && WindowsHold(log, s.lockout, s.maxFailures)
    && (if b.failures > 0 then log != [] && b.expiresAt == LastStart(log, s.lockout) + s.lockout &&
      b.failures == InLast(log, s.lockout)
        else log == [] || LastStart(log, s.lockout) + s.lockout <= clock)
  }

  ghost predicate Inv(w: World, s: Settings) {
    && (forall key :: WithinBudget(At(w.table, key), s))
    && (forall key :: CountsLog(At(w.table, key), s, Log(w, key), w.clock))
    && (forall key :: At(w.table, key).pending == Running(w, key))
    && (forall token | token in w.granted :: w.granted[token].0.Address? && w.granted[token].1.Username?)
    && (forall token | token in w.open :: token in w.granted)
  }

  /** One failure more: in the current window, or the first of a new one. */
  lemma FailureIsLogged(b: Bucket, s: Settings, log: seq<real>, now: real, rest: set<Token>)
    requires CountsLog(b, s, log, now) && (b.failures > 0 ==> now < b.expiresAt) && b.failures < s.maxFailures
    ensures CountsLog(Bucket(b.failures + 1, if b.failures == 0 then now + s.lockout else b.expiresAt, rest), s,
        log + [now], now)
  {
    var longer := log + [now];
    assert longer[..|longer| - 1] == log;
    assert LastStart(longer, s.lockout) == if b.failures == 0 then now else LastStart(log, s.lockout);
    assert InLast(longer, s.lockout) == b.failures + 1;
  }

  /** Pending checks never matter to the count. */
  lemma PendingIsNoFailure(b: Bucket, s: Settings, log: seq<real>, now: real, pending: set<Token>)
    requires CountsLog(b, s, log, now)
    ensures CountsLog(b.(pending := pending), s, log, now)
  {
  }

  lemma LaterCounts(b: Bucket, s: Settings, log: seq<real>, clock: real, now: real)
    requires CountsLog(b, s, log, clock) && clock <= now
    ensures CountsLog(b, s, log, now)
  {
  }

  /** What one reservation makes of any bucket. */
  lemma ReservedBucket(table: Buckets, s: Settings, a: Key, u: Key, token: Token, now: real, key: Key)
    ensures var after := At(Reserved(table, s, a, u, token, now), key);
            || after == At(table, key)
            || (Grants(table, s, a, u, now) && !IsFull(LoadedAt(table, key, now), s) &&
              after == WithPending(LoadedAt(table, key, now), token))
  {
  }

  /** What a settlement makes of any bucket: nothing, a success, or one failure more. */
  lemma SettledBuckets(table: Buckets, s: Settings, a: Key, u: Key, token: Token, success: bool, now: real, key: Key)
    requires a != u
    ensures At(Settled(table, s, a, u, token, success, now), key)
         == if (key == a || key == u) && token in LoadedAt(table, key, now).pending
            then SettledBucket(LoadedAt(table, key, now), s, token, success, key == u, now) else At(table, key)
  {
  }

  lemma ReserveKeepsBudget(w: World, s: Settings, e: Event, key: Key)
    requires Inv(w, s) && Enabled(w, e) && e.Reserve?
    ensures WithinBudget(At(Step(w, s, e).table, key), s)
  {
    hide CountsLog, Reserved, Grants, Running;
    ReservedBucket(w.table, s, Address(e.address), Username(e.name), e.token, e.now, key);
    assert WithinBudget(At(w.table, key), s);
  }

  /** A granted reservation runs for its two keys. */
  lemma ReservedPending(table: Buckets, s: Settings, a: Key, u: Key, token: Token, now: real, key: Key)
    ensures At(Reserved(table, s, a, u, token, now), key).pending
         == At(table, key).pending + if Grants(table, s, a, u, now) && (key == a || key == u) then {token} else {}
  {
    hide Grants;
  }

  lemma ReserveKeepsPending(w: World, s: Settings, e: Event, key: Key)
    requires Inv(w, s) && Enabled(w, e) && e.Reserve?
    ensures At(Step(w, s, e).table, key).pending == Running(Step(w, s, e), key)
  {
    hide CountsLog, Reserved, Grants, WithinBudget, At;
    ReservedPending(w.table, s, Address(e.address), Username(e.name), e.token, e.now, key);
    assert At(w.table, key).pending == Running(w, key);
  }

  lemma ReserveKeepsLog(w: World, s: Settings, e: Event, key: Key)
    requires ValidSettings(s) && Inv(w, s) && Enabled(w, e) && e.Reserve?
    ensures CountsLog(At(Step(w, s, e).table, key), s, Log(w, key), e.now)
  {
    hide CountsLog, Reserved, Grants, WithinBudget, Running;
    var b, log := At(w.table, key), Log(w, key);
    ReservedBucket(w.table, s, Address(e.address), Username(e.name), e.token, e.now, key);
    LaterCounts(b, s, log, w.clock, e.now);
    PendingIsNoFailure(Loaded(b, e.now), s, log, e.now, Loaded(b, e.now).pending + {e.token});
  }

  lemma ReserveKeepsRest(w: World, s: Settings, e: Event)
    requires e.Reserve?
    requires forall token | token in w.granted :: w.granted[token].0.Address? && w.granted[token].1.Username?
    requires forall token | token in w.open :: token in w.granted
    ensures var w' := Step(w, s, e);
            && w'.clock == e.now && (forall key :: Log(w', key) == Log(w, key))
            && (forall token | token in w'.granted :: w'.granted[token].0.Address? && w'.granted[token].1.Username?)
            && (forall token | token in w'.open :: token in w'.granted)
  {
    hide Reserved, Grants;
  }

  lemma ReserveKeepsInv(w: World, s: Settings, e: Event)
    requires ValidSettings(s) && Inv(w, s) && Enabled(w, e) && e.Reserve?
    ensures Inv(Step(w, s, e), s)
  {
    var w' := Step(w, s, e);
    ReserveKeepsRest(w, s, e);
    hide CountsLog, Reserved, Grants, WithinBudget, At, Log, Step, Running;
    forall key
      ensures WithinBudget(At(w'.table, key), s) && At(w'.table, key).pending == Running(w', key)
      ensures CountsLog(At(w'.table, key), s, Log(w', key), w'.clock)
    {
      ReserveKeepsBudget(w, s, e, key);
      ReserveKeepsPending(w, s, e, key);
      ReserveKeepsLog(w, s, e, key);
    }
  }

  lemma SettleKeepsBudget(w: World, s: Settings, e: Event, key: Key)
    requires Inv(w, s) && Enabled(w, e) && e.Settle?
    ensures var b := At(Step(w, s, e).table, key);
            WithinBudget(b, s) && b.pending == Running(Step(w, s, e), key)
  {
    hide CountsLog, Settled;
    var (a, u) := w.granted[e.token];
    SettledBuckets(w.table, s, a, u, e.token, e.success, e.now, key);
    assert WithinBudget(At(w.table, key), s) && At(w.table, key).pending == Running(w, key);
  }

  lemma SettleKeepsLog(w: World, s: Settings, e: Event, key: Key)
    requires ValidSettings(s) && Inv(w, s) && Enabled(w, e) && e.Settle?
    ensures CountsLog(At(Step(w, s, e).table, key), s, Log(Step(w, s, e), key), e.now)
  {
    hide CountsLog, Settled;
    var (a, u) := w.granted[e.token];
    var b, log := At(w.table, key), Log(w, key);
    SettledBuckets(w.table, s, a, u, e.token, e.success, e.now, key);
    assert WithinBudget(b, s) && b.pending == Running(w, key);
    LaterCounts(b, s, log, w.clock, e.now);
    PendingIsNoFailure(Loaded(b, e.now), s, log, e.now, b.pending - {e.token});
    if (key == a || key == u) && e.token in b.pending {
      if !e.success {
        FailureIsLogged(Loaded(b, e.now), s, log, e.now, b.pending - {e.token});
      } else {
        NoFailureIsLogged(s, b.pending - {e.token}, e.now);
      }
    }
  }

  lemma NoFailureIsLogged(s: Settings, pending: set<Token>, now: real)
    ensures CountsLog(Bucket(0, 0.0, pending), s, [], now)
  {
  }

  lemma SettleKeepsInv(w: World, s: Settings, e: Event)
    requires ValidSettings(s) && Inv(w, s) && Enabled(w, e) && e.Settle?
    ensures Inv(Step(w, s, e), s)
  {
    var w' := Step(w, s, e);
    assert w'.granted == w.granted && w'.clock == e.now && w'.open <= w.open;
    hide CountsLog, Settled, WithinBudget, At, Log, Step, Running;
    forall key
      ensures WithinBudget(At(w'.table, key), s) && At(w'.table, key).pending == Running(w', key)
      ensures CountsLog(At(w'.table, key), s, Log(w', key), w'.clock)
    {
      SettleKeepsBudget(w, s, e, key);
      SettleKeepsLog(w, s, e, key);
    }
  }

  lemma NothingIsSafe(s: Settings)
    ensures Inv(NOTHING, s)
  {
  }

  lemma BudgetsOfInv(w: World, s: Settings)
    requires Inv(w, s)
    ensures forall key :: At(w.table, key).failures + |At(w.table, key).pending| <= s.maxFailures
  {
    forall key ensures WithinBudget(At(w.table, key), s) { }
  }

  /**
    In every run the failures and running checks of any bucket stay within the budget, the
    bucket counts the last window of the failures logged for its address or name, and what
    is pending in it are the checks still running.
   */
  lemma {:induction false} InvAlways(s: Settings, events: seq<Event>)
    requires ValidSettings(s) && Possible(s, events)
    ensures Inv(After(s, events), s)
    ensures forall key ::
              At(After(s, events).table, key).failures + |At(After(s, events).table, key).pending| <= s.maxFailures
  {
    hide Inv, Step, Enabled;
    if events == [] {
      NothingIsSafe(s);
    } else {
      var init, e := events[..|events| - 1], events[|events| - 1];
      InvAlways(s, init);
      if e.Reserve? { ReserveKeepsInv(After(s, init), s, e); } else { SettleKeepsInv(After(s, init), s, e); }
    }
    BudgetsOfInv(After(s, events), s);
  }

  /** How many of the times lie at or before the bound. */
  function CountUpTo(log: seq<real>, bound: real): nat {
    if log == [] then 0 else CountUpTo(log[..|log| - 1], bound) + if log[|log| - 1] <= bound then 1 else 0
  }

  lemma {:induction false} EarlyOnesComeFirst(log: seq<real>, bound: real)
    requires NonDecreasing(log)
    ensures var n := CountUpTo(log, bound); n <= |log| && (n > 0 ==> log[n - 1] <= bound)
    ensures log != [] && log[|log| - 1] <= bound ==> CountUpTo(log, bound) == |log|
  {
    if log != [] {
      EarlyOnesComeFirst(log[..|log| - 1], bound);
    }
  }

  /** The budget of every window that can start within `time` seconds. */
  function Allowance(s: Settings, time: real): int
    requires ValidSettings(s)
  {
    s.maxFailures * ((time / s.lockout).Floor + 1)
  }

  /** In every run an address completes few failures in the `time` seconds after its first one. */
  lemma AddressRateIsBounded(s: Settings, events: seq<Event>, address: string, time: real)
    requires ValidSettings(s) && Possible(s, events) && time >= 0.0
    ensures var log := Log(After(s, events), Address(address));
            log != [] ==> CountUpTo(log, log[0] + time) <= Allowance(s, time)
  {
    hide *;
    LogHoldsAlways(s, events, Address(address));
    if Log(After(s, events), Address(address)) != [] {
      RateOfLog(Log(After(s, events), Address(address)), s, time);
    }
  }

  lemma LogHoldsAlways(s: Settings, events: seq<Event>, key: Key)
    requires ValidSettings(s) && Possible(s, events)
    ensures var log := Log(After(s, events), key); NonDecreasing(log) && WindowsHold(log, s.lockout, s.maxFailures)
  {
    InvAlways(s, events);
    var w := After(s, events);
    assert CountsLog(At(w.table, key), s, Log(w, key), w.clock);
  }

  lemma RateOfLog(log: seq<real>, s: Settings, time: real)
    requires ValidSettings(s) && time >= 0.0 && log != []
    requires NonDecreasing(log) && WindowsHold(log, s.lockout, s.maxFailures)
    ensures CountUpTo(log, log[0] + time) <= Allowance(s, time)
  {
    hide WindowsHold, CountUpTo, NonDecreasing;
    EarlyOnesComeFirst(log, log[0] + time);
    var n := CountUpTo(log, log[0] + time);
    if n > 0 {
      FailuresInTime(log, s.lockout, s.maxFailures, time, n);
    } else {
    }
  }

  // -- Who is let through --------------------------------------------------------------------------

  /** The failures that count at a time: those of the last window, while it lasts. */
  function Current(log: seq<real>, length: real, now: real): nat {
    if log != [] && now < LastStart(log, length) + length then InLast(log, length) else 0
  }

  /** In every run a bucket holds the failures of its key that count and the checks of its key that run. */
  lemma BucketIsHistory(s: Settings, events: seq<Event>, key: Key, now: real)
    requires ValidSettings(s) && Possible(s, events) && After(s, events).clock <= now
    ensures var w := After(s, events);
            && LoadedAt(w.table, key, now).failures == Current(Log(w, key), s.lockout, now)
            && LoadedAt(w.table, key, now).pending == Running(w, key)
  {
    InvAlways(s, events);
    var w := After(s, events);
    assert CountsLog(At(w.table, key), s, Log(w, key), w.clock) && At(w.table, key).pending == Running(w, key);
    hide After, Possible, Inv, WindowsHold, NonDecreasing, Running;
    if At(w.table, key).failures > 0 {
      InLastIsPositive(Log(w, key), s.lockout);
    }
  }

  lemma InLastIsPositive(log: seq<real>, length: real)
    requires log != []
    ensures InLast(log, length) > 0
  {
  }

  /**
    In every run a reservation is granted if and only if, for its address and for its name,
    the failures that count and the checks that run are together fewer than the limit. For
    a name these are the failures from any address since the last success on it.
   */
  lemma GrantedIffRoom(s: Settings, events: seq<Event>, e: Event)
    requires ValidSettings(s) && Possible(s, events) && Enabled(After(s, events), e) && e.Reserve?
    ensures var w := After(s, events);
            var a, u := Address(e.address), Username(e.name);
            e.token in Step(w, s, e).open <==>
              && Current(Log(w, a), s.lockout, e.now) + |Running(w, a)| < s.maxFailures
              && Current(Log(w, u), s.lockout, e.now) + |Running(w, u)| < s.maxFailures
  {
    var w := After(s, events);
    InvAlways(s, events);
    BucketIsHistory(s, events, Address(e.address), e.now);
    BucketIsHistory(s, events, Username(e.name), e.now);
    hide After, Possible, LoadedAt, Running, Log, Current;
    assert e.token !in w.open;
  }

  /** The check an event settles was running. */
  predicate Ends(w: World, e: Event) { e.Settle? && e.token in w.open && e.token in w.granted }

  /**
    In every run a check that fails adds one failure to its address and one to its name; one
    that succeeds takes all failures from its name and none from its address.
   */
  lemma EndedCheckCounts(s: Settings, events: seq<Event>, e: Event)
    requires ValidSettings(s) && Possible(s, events) && Enabled(After(s, events), e) && Ends(After(s, events), e)
    ensures var w := After(s, events);
            var (a, u) := w.granted[e.token];
            var before, after := w.table, Step(w, s, e).table;
            && LoadedAt(after, a, e.now).failures == LoadedAt(before, a, e.now).failures + (if e.success then 0 else 1)
            && LoadedAt(after, u, e.now).failures == (if e.success then 0 else LoadedAt(before, u, e.now).failures + 1)
            && LoadedAt(after, a, e.now).pending == LoadedAt(before, a, e.now).pending - {e.token}
            && LoadedAt(after, u, e.now).pending == LoadedAt(before, u, e.now).pending - {e.token}
  {
    var w := After(s, events);
    InvAlways(s, events);
    var (a, u) := w.granted[e.token];
    SettledBuckets(w.table, s, a, u, e.token, e.success, e.now, a);
    SettledBuckets(w.table, s, a, u, e.token, e.success, e.now, u);
    assert At(w.table, a).pending == Running(w, a) && At(w.table, u).pending == Running(w, u);
    hide After, Possible, Settled, CountsLog;
  }
}
