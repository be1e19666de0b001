/**
  Cross-process admission to inference slots (lane_scheduler.py). Every call waits
  with a file below waiters/ and runs with a file below holders/; all changes happen
  under one lock. A file that cannot be read as a record is `None`. Which processes
  are alive is a parameter. Tokens are fixed-length hexadecimal numerals, so their
  text order is the order of numbers.
 */
module LaneScheduler {
  import opened Wrappers
  import opened StableSort

  type Token = nat

  datatype Lane = Interactive | NonInteractive

  datatype Waiter = Waiter(token: Token, lane: Lane, pid: int, createdAt: real)

  datatype Holder = Holder(token: Token, lane: Lane, pid: int, claimedAt: real)

  datatype Slots = Slots(interactive: nat, nonInteractive: nat)

  /** The files; `legacy` is the holder of the older single-slot code, if there is one. */
  datatype Directory = Directory(
    waiters: map<Token, Option<Waiter>>, holders: map<Token, Option<Holder>>, legacy: Option<Option<Holder>>)

  // -- Order and admission -----------------------------------------------------------------

  function Priority(lane: Lane): nat { if lane.Interactive? then 0 else 1 }

  predicate Precedes(a: Waiter, b: Waiter) {
    || Priority(a.lane) < Priority(b.lane)
    || (a.lane == b.lane && (a.createdAt < b.createdAt || (a.createdAt == b.createdAt && a.token < b.token)))
  }

  predicate IsAdmissible(s: Slots, lane: Lane, total: nat, nonInteractive: nat) {
    total < s.interactive + s.nonInteractive && (lane.NonInteractive? ==> nonInteractive < s.nonInteractive)
  }

  /** The record is the first one the slots admit. */
  ghost predicate IsNext(s: Slots, waiters: map<Token, Option<Waiter>>, total: nat, nonInteractive: nat, w: Waiter) {
    && w.token in waiters && waiters[w.token] == Some(w) && IsAdmissible(s, w.lane, total, nonInteractive)
    && forall t | t in waiters && waiters[t].Some? && IsAdmissible(s, waiters[t].value.lane, total, nonInteractive) ::
         !Precedes(waiters[t].value, w)
  }

  /** A record is in the file of its own token. */
  ghost predicate WellNamed(waiters: map<Token, Option<Waiter>>) {
    forall t | t in waiters && waiters[t].Some? :: waiters[t].value.token == t
  }

  lemma NextIsUnique(s: Slots, waiters: map<Token, Option<Waiter>>, total: nat, nonInteractive: nat, a: Waiter,
      b: Waiter)
    requires IsNext(s, waiters, total, nonInteractive, a) && IsNext(s, waiters, total, nonInteractive, b)
    ensures a == b
  {
    assert !Precedes(a, b) && !Precedes(b, a);
  }

  ghost function Chosen(s: Slots, waiters: map<Token, Option<Waiter>>, total: nat,
      nonInteractive: nat): Option<Waiter> {
    if exists w :: IsNext(s, waiters, total, nonInteractive, w)
    then var w :| IsNext(s, waiters, total, nonInteractive, w); Some(w)
    else None
  }

  // -- What a locked section leaves ----------------------------------------------------------------

  predicate Alive(pid: int, alive: set<int>) { pid > 0 && pid in alive }

  predicate IsLiveHolder(file: Option<Holder>, alive: set<int>) { file.Some? && Alive(file.value.pid, alive) }

  predicate IsLiveWaiter(file: Option<Waiter>, alive: set<int>) { file.Some? && Alive(file.value.pid, alive) }

  function LiveWaiters(waiters: map<Token, Option<Waiter>>, alive: set<int>): map<Token, Option<Waiter>> {
    map t | t in waiters && IsLiveWaiter(waiters[t], alive) :: waiters[t]
  }

  function LiveHolders(holders: map<Token, Option<Holder>>, alive: set<int>): map<Token, Option<Holder>> {
    map t | t in holders && IsLiveHolder(holders[t], alive) :: holders[t]
  }

  function LiveLegacy(legacy: Option<Option<Holder>>, alive: set<int>): Option<Option<Holder>> {
    if legacy.Some? && IsLiveHolder(legacy.value, alive) then legacy else None
  }

  /** All files of dead processes and all unreadable files are gone. */
  function Cleaned(d: Directory, alive: set<int>): Directory {
    Directory(LiveWaiters(d.waiters, alive), LiveHolders(d.holders, alive), LiveLegacy(d.legacy, alive))
  }

  function NonInteractiveTokens(holders: map<Token, Option<Holder>>): set<Token> {
    set t | t in holders && holders[t].Some? && holders[t].value.lane.NonInteractive?
  }

  function LegacyCount(d: Directory): nat { if d.legacy.Some? then 1 else 0 }

  function Total(d: Directory): nat { |d.holders| + LegacyCount(d) }

  /** The legacy holder occupies a non-interactive slot whatever lane it names. */
  function NonInteractiveTotal(d: Directory): nat { |NonInteractiveTokens(d.holders)| + LegacyCount(d) }

  function Reregistered(d: Directory, w: Waiter): Directory {
    if w.token in d.waiters then d else d.(waiters := d.waiters[w.token := Some(w)])
  }

  /** What a waiter's poll decides on: everything dead reclaimed, the waiter registered. */
  function Prepared(d: Directory, alive: set<int>, w: Waiter): Directory {
    Reregistered(Cleaned(d, alive), w)
  }

  ghost function Winner(d: Directory, s: Slots): Option<Waiter> {
    Chosen(s, d.waiters, Total(d), NonInteractiveTotal(d))
  }

  ghost predicate Wins(d: Directory, s: Slots, alive: set<int>, w: Waiter) {
    var winner := Winner(Prepared(d, alive, w), s);
    winner.Some? && winner.value.token == w.token
  }

  function HolderOf(w: Waiter, now: real): Holder { Holder(w.token, w.lane, w.pid, now) }

  ghost function Polled(d: Directory, s: Slots, alive: set<int>, w: Waiter, now: real): Directory {
    var p := Prepared(d, alive, w);
    if Wins(d, s, alive, w)
    then p.(holders := p.holders[w.token := Some(HolderOf(w, now))], waiters := p.waiters - {w.token})
    else p
  }

  // -- The scheduler over the files --------------------------------------------------------------------

  function LiveAmong(holders: map<Token, Option<Holder>>, done: set<Token>, alive: set<int>): set<Token> {
    set t | t in done && t in holders && IsLiveHolder(holders[t], alive)
  }

  lemma LiveOneMore(holders: map<Token, Option<Holder>>, done: set<Token>, t: Token, alive: set<int>)
    requires t !in done && t in holders
    ensures |LiveAmong(holders, done + {t}, alive)| ==
        |LiveAmong(holders, done, alive)| + if IsLiveHolder(holders[t], alive) then 1 else 0
  {
    hide IsLiveHolder;
    assert LiveAmong(holders, done + {t}, alive) ==
      LiveAmong(holders, done, alive) + if IsLiveHolder(holders[t], alive) then {t} else {};
  }

  predicate IsNarrow(file: Option<Holder>, alive: set<int>) {
    IsLiveHolder(file, alive) && file.value.lane.NonInteractive?
  }

  lemma NarrowOneMore(holders: map<Token, Option<Holder>>, done: set<Token>, t: Token, alive: set<int>)
    requires t !in done && t in holders
    ensures |NarrowAmong(holders, done + {t}, alive)| ==
        |NarrowAmong(holders, done, alive)| + if IsNarrow(holders[t], alive) then 1 else 0
  {
    hide IsNarrow;
    assert NarrowAmong(holders, done + {t}, alive) ==
      NarrowAmong(holders, done, alive) + if IsNarrow(holders[t], alive) then {t} else {};
  }

  function NarrowAmong(holders: map<Token, Option<Holder>>, done: set<Token>, alive: set<int>): set<Token> {
    set t | t in done && t in holders && IsNarrow(holders[t], alive)
  }

  lemma AllCounted(holders: map<Token, Option<Holder>>, alive: set<int>)
    ensures |LiveAmong(holders, holders.Keys, alive)| == |LiveHolders(holders, alive)|
    ensures NarrowAmong(holders, holders.Keys, alive) == NonInteractiveTokens(LiveHolders(holders, alive))
  {
    assert LiveAmong(holders, holders.Keys, alive) == LiveHolders(holders, alive).Keys;
  }

  /** The parts a poll is put together from. */
  lemma PollParts(d: Directory, s: Slots, alive: set<int>, w: Waiter)
    requires WellNamed(d.waiters)
    ensures var p := Prepared(d, alive, w);
            && p.holders == LiveHolders(d.holders, alive) && p.legacy == LiveLegacy(d.legacy, alive)
            && p.waiters == (if w.token in LiveWaiters(d.waiters, alive) then LiveWaiters(d.waiters, alive)
              else LiveWaiters(d.waiters, alive)[w.token := Some(w)])
            && WellNamed(p.waiters)
  {
  }

  lemma HoldersDecideTotals(a: Directory, b: Directory)
    requires a.holders == b.holders && a.legacy == b.legacy
    ensures Total(a) == Total(b) && NonInteractiveTotal(a) == NonInteractiveTotal(b)
  {
  }

  class Scheduler {
    const slots: Slots
    var waiters: map<Token, Option<Waiter>>
    var holders: map<Token, Option<Holder>>
    var legacy: Option<Option<Holder>>

    function Files(): Directory
      reads this
    {
      Directory(waiters, holders, legacy)
    }

    constructor (slots: Slots, files: Directory)
      ensures Files() == files && this.slots == slots
    {
      this.slots := slots;
      waiters, holders, legacy := files.waiters, files.holders, files.legacy;
    }

    method CleanupDeadWaiters(alive: set<int>)
      modifies `waiters
      ensures waiters == LiveWaiters(old(waiters), alive)
      ensures forall t :: t in waiters <==>
                t in old(waiters) && old(waiters[t]).Some? && 0 < old(waiters[t]).value.pid &&
                  old(waiters[t]).value.pid in alive
    {
      var open := waiters.Keys;
      while open != {}
        invariant open <= waiters.Keys <= old(waiters).Keys
        invariant forall t | t in waiters :: waiters[t] == old(waiters)[t]
        invariant forall t | t in old(waiters) && t !in open :: t in waiters <==> IsLiveWaiter(old(waiters)[t], alive)
        invariant open <= old(waiters).Keys
      {
        var t :| t in open;
        if !IsLiveWaiter(waiters[t], alive) {
          waiters := waiters - {t};
        }
        open := open - {t};
      }
    }

    /** Removes the holder file unless a live process holds it. */
    method ReclaimHolder(t: Token, alive: set<int>) returns (holder: Option<Holder>)
      requires t in holders
      modifies `holders
      ensures holder == if IsLiveHolder(old(holders)[t], alive) then old(holders)[t] else None
      ensures holders == if holder.Some? then old(holders) else old(holders) - {t}
    {
      if !IsLiveHolder(holders[t], alive) {
        holders := holders - {t};
        return None;
      }
      return holders[t];
    }

    method ReclaimHolders(alive: set<int>) returns (total: nat, nonInteractive: nat)
      modifies `holders, `legacy
      ensures holders == LiveHolders(old(holders), alive) && legacy == LiveLegacy(old(legacy), alive)
      ensures total == Total(Files()) && nonInteractive == NonInteractiveTotal(Files())
      ensures forall t :: t in holders <==>
                t in old(holders) && old(holders[t]).Some? && 0 < old(holders[t]).value.pid &&
                  old(holders[t]).value.pid in alive
      ensures legacy == if old(legacy.Some? && legacy.value.Some? && 0 < legacy.value.value.pid &&
          legacy.value.value.pid in alive) then old(legacy)
                        else None
      ensures total == |holders| + (if legacy.Some? then 1 else 0)
      ensures nonInteractive == |set t | t in holders && holders[t].Some? && holders[t].value.lane.NonInteractive?| +
                                (if legacy.Some? then 1 else 0)
    {
      total, nonInteractive := ReclaimHolderFiles(alive);
      if legacy.Some? && !IsLiveHolder(legacy.value, alive) {
        legacy := None;
      }
      if legacy.Some? {
        total, nonInteractive := total + 1, nonInteractive + 1;
      }
      assert NonInteractiveTokens(holders) ==
        set t | t in holders && holders[t].Some? && holders[t].value.lane.NonInteractive?;
    }

    method ReclaimHolderFiles(alive: set<int>) returns (total: nat, nonInteractive: nat)
      modifies `holders
      ensures holders == LiveHolders(old(holders), alive)
      ensures total == |holders| && nonInteractive == |NonInteractiveTokens(holders)|
    {
      total, nonInteractive := 0, 0;
      ghost var before := holders;
      var open := holders.Keys;
      while open != {}
        invariant open <= holders.Keys <= before.Keys
        invariant forall t | t in holders :: holders[t] == before[t]
        invariant forall t | t in before && t !in open :: t in holders <==> IsLiveHolder(before[t], alive)
        invariant total == |LiveAmong(before, before.Keys - open, alive)|
        invariant nonInteractive == |NarrowAmong(before, before.Keys - open, alive)|
      {
        hide LiveAmong, NarrowAmong, NonInteractiveTokens;
        var t :| t in open;
        LiveOneMore(before, before.Keys - open, t, alive);
        NarrowOneMore(before, before.Keys - open, t, alive);
        assert before.Keys - open + {t} == before.Keys - (open - {t});
        var holder := ReclaimHolder(t, alive);
        if holder.Some? {
          total := total + 1;
          if holder.value.lane.NonInteractive? {
            nonInteractive := nonInteractive + 1;
          }
        }
        open := open - {t};
      }
      AllCounted(before, alive);
      assert before.Keys - open == before.Keys;
    }

    /** The first waiter, in priority order, that the slots admit. */
    method SelectNextWaiter(total: nat, nonInteractive: nat) returns (winner: Option<Waiter>)
      requires WellNamed(waiters)
      ensures winner == Chosen(slots, waiters, total, nonInteractive)
      ensures winner.Some? ==>
                var w := winner.value;
                && w.token in waiters && waiters[w.token] == Some(w)
                && total < slots.interactive + slots.nonInteractive
                && (w.lane.NonInteractive? ==> nonInteractive < slots.nonInteractive)
                && forall t | t in waiters && waiters[t].Some? && t != w.token ::
                     var o := waiters[t].value;
                     && (o.lane == w.lane ==>
                          w.createdAt < o.createdAt || (w.createdAt == o.createdAt && w.token < o.token))
                     && (w.lane.NonInteractive? ==> o.lane.NonInteractive?)
      ensures winner.None? ==> forall t | t in waiters && waiters[t].Some? ::
                total >= slots.interactive + slots.nonInteractive ||
                  (waiters[t].value.lane.NonInteractive? && nonInteractive >= slots.nonInteractive)
    {
      ChosenOnColumns(slots, waiters, total, nonInteractive);
      var records: seq<Waiter> := [];
      var open := waiters.Keys;
      while open != {}
        invariant open <= waiters.Keys
        invariant forall w :: w in records <==> w.token in waiters && w.token !in open && waiters[w.token] == Some(w)
      {
        var t :| t in open;
        if waiters[t].Some? {
          records := records + [waiters[t].value];
        }
        open := open - {t};
      }
      var leq := (a: Waiter, b: Waiter) => !Precedes(b, a);
      SortSorted(records, leq);
      SortMembers(records, leq);
      var ordered := Sort(records, leq);
      hide Sort;
      for i := 0 to |ordered|
        invariant forall k | 0 <= k < i :: !IsAdmissible(slots, ordered[k].lane, total, nonInteractive)
      {
        var w := ordered[i];
        if IsAdmissible(slots, w.lane, total, nonInteractive) {
          assert w in ordered && w in records;
          forall t | t in waiters && waiters[t].Some? &&
            IsAdmissible(slots, waiters[t].value.lane, total, nonInteractive)
            ensures !Precedes(waiters[t].value, w)
          {
            assert waiters[t].value in records && waiters[t].value in ordered;
            var k :| 0 <= k < |ordered| && ordered[k] == waiters[t].value;
            assert i <= k;
            assert i < k ==> leq(ordered[i], ordered[k]);
          }
          NextIsChosen(slots, waiters, total, nonInteractive, w);
          return Some(w);
        }
      }
      forall w ensures !IsNext(slots, waiters, total, nonInteractive, w) {
        assert w in records ==> w in ordered;
      }
      return None;
    }

    method Register(w: Waiter)
      modifies `waiters
      ensures waiters == old(waiters)[w.token := Some(w)]
    {
      waiters := waiters[w.token := Some(w)];
    }

    /** One locked round of a waiting call; true when it is admitted. */
    method Poll(w: Waiter, alive: set<int>, now: real) returns (admitted: bool)
      requires WellNamed(waiters)
      modifies this
      ensures Files() == Polled(old(Files()), slots, alive, w, now)
      ensures admitted == Wins(old(Files()), slots, alive, w)
      ensures admitted ==> w.token !in waiters && w.token in holders &&
                           holders[w.token] == Some(Holder(w.token, w.lane, w.pid, now))
      ensures !admitted ==> w.token in waiters
      ensures forall t | t != w.token :: t in waiters <==>
                t in old(waiters) && old(waiters[t]).Some? && 0 < old(waiters[t]).value.pid &&
                  old(waiters[t]).value.pid in alive
      ensures forall t | t != w.token :: t in holders <==>
                t in old(holders) && old(holders[t]).Some? && 0 < old(holders[t]).value.pid &&
                  old(holders[t]).value.pid in alive
    {
      PollParts(Files(), slots, alive, w);
      hide Chosen, Prepared, NonInteractiveTotal, Total, WellNamed, LiveWaiters, LiveHolders, LiveLegacy;
      CleanupDeadWaiters(alive);
      var total, nonInteractive := ReclaimHolders(alive);
      HoldersDecideTotals(Files(), Prepared(old(Files()), alive, w));
      if w.token !in waiters {
        waiters := waiters[w.token := Some(w)];
      }
      var winner := SelectNextWaiter(total, nonInteractive);
      admitted := winner.Some? && winner.value.token == w.token;
      if admitted {
        holders := holders[w.token := Some(HolderOf(w, now))];
        waiters := waiters - {w.token};
      }
    }

    /** A call that gives up, or fails, takes its waiter file away. */
    method Withdraw(token: Token)
      modifies `waiters
      ensures waiters == old(waiters) - {token}
    {
      waiters := waiters - {token};
    }

    method Release(token: Token)
      modifies `holders
      ensures holders == old(holders) - {token}
    {
      holders := holders - {token};
    }
  }

  /**
    The choice by lane, time and token: the earliest of its lane, a non-interactive one only
    when no interactive one waits, and none only when there is no room for any.
   */
  lemma ChosenOnColumns(s: Slots, waiters: map<Token, Option<Waiter>>, total: nat, nonInteractive: nat)
    requires WellNamed(waiters)
    ensures var winner := Chosen(s, waiters, total, nonInteractive);
            if winner.Some? then
              var w := winner.value;
              && w.token in waiters && waiters[w.token] == Some(w)
              && total < s.interactive + s.nonInteractive &&
                (w.lane.NonInteractive? ==> nonInteractive < s.nonInteractive)
              && forall t | t in waiters && waiters[t].Some? && t != w.token ::
                   var o := waiters[t].value;
                   && (o.lane == w.lane ==>
                        w.createdAt < o.createdAt || (w.createdAt == o.createdAt && w.token < o.token))
                   && (w.lane.NonInteractive? ==> o.lane.NonInteractive?)
            else
              forall t | t in waiters && waiters[t].Some? ::
                total >= s.interactive + s.nonInteractive ||
                  (waiters[t].value.lane.NonInteractive? && nonInteractive >= s.nonInteractive)
  {
    var winner := Chosen(s, waiters, total, nonInteractive);
    if winner.Some? {
      assert IsNext(s, waiters, total, nonInteractive, winner.value);
      forall t | t in waiters && waiters[t].Some? && t != winner.value.token
        ensures !Precedes(waiters[t].value, winner.value) ||
            !IsAdmissible(s, waiters[t].value.lane, total, nonInteractive)
      {
      }
    } else {
      if t :| t in waiters && waiters[t].Some? && IsAdmissible(s, waiters[t].value.lane, total, nonInteractive) {
        SomeoneIsNext(s, waiters, total, nonInteractive, t);
      }
    }
  }

  /** Of finitely many waiters one is preceded by none. */
  lemma {:induction false} OneIsFirst(waiters: map<Token, Option<Waiter>>, among: set<Token>) returns (t: Token)
    requires among != {} && forall u | u in among :: u in waiters && waiters[u].Some?
    ensures t in among && forall u | u in among :: !Precedes(waiters[u].value, waiters[t].value)
    decreases among
  {
    var x :| x in among;
    var rest := among - {x};
    t := x;
    if rest != {} {
      var y := OneIsFirst(waiters, rest);
      if !Precedes(waiters[x].value, waiters[y].value) {
        t := y;
      }
    }
    assert among == rest + {x};
  }

  lemma SomeoneIsNext(s: Slots, waiters: map<Token, Option<Waiter>>, total: nat, nonInteractive: nat, t: Token)
    requires WellNamed(waiters) && t in waiters && waiters[t].Some?
    requires IsAdmissible(s, waiters[t].value.lane, total, nonInteractive)
    ensures exists w :: IsNext(s, waiters, total, nonInteractive, w)
  {
    var among := set u | u in waiters && waiters[u].Some? &&
      IsAdmissible(s, waiters[u].value.lane, total, nonInteractive);
    assert t in among;
    var first := OneIsFirst(waiters, among);
    hide Precedes, IsAdmissible;
    assert IsNext(s, waiters, total, nonInteractive, waiters[first].value);
  }

  lemma NextIsChosen(s: Slots, waiters: map<Token, Option<Waiter>>, total: nat, nonInteractive: nat, w: Waiter)
    requires IsNext(s, waiters, total, nonInteractive, w)
    ensures Chosen(s, waiters, total, nonInteractive) == Some(w)
  {
    hide IsNext;
    var other :| IsNext(s, waiters, total, nonInteractive, other) &&
      Chosen(s, waiters, total, nonInteractive) == Some(other);
    NextIsUnique(s, waiters, total, nonInteractive, w, other);
  }
}
