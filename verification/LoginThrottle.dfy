/**
  Bounded failed and in-flight operator logins (operators/login_throttle.py): a bucket
  per client address and per user name counts the failures of a fixed window and the
  password checks still running. The buckets live in a cache whose entries expire; the
  model beside it is a table that never forgets. User names are given normalized.
 */
module LoginThrottle {
  import opened Wrappers

  type Token = nat

  datatype Key = Address(address: string) | Username(name: string)

  datatype Bucket = Bucket(failures: nat, expiresAt: real, pending: set<Token>)

  datatype Settings = Settings(maxFailures: nat, lockout: real)

  type Buckets = map<Key, Bucket>

  const EMPTY := Bucket(0, 0.0, {})

  predicate ValidSettings(s: Settings) { s.maxFailures >= 1 && s.lockout > 0.0 }

  // -- The table that never forgets ------------------------------------------------------

  function At(table: Buckets, key: Key): Bucket { if key in table then table[key] else EMPTY }

  /** A window that has passed counts no failures. */
  function Loaded(b: Bucket, now: real): Bucket {
    if b.expiresAt <= now then b.(failures := 0, expiresAt := 0.0) else b
  }

  function LoadedAt(table: Buckets, key: Key, now: real): Bucket { Loaded(At(table, key), now) }

  predicate IsFull(b: Bucket, s: Settings) { b.failures + |b.pending| >= s.maxFailures }

  predicate Grants(table: Buckets, s: Settings, a: Key, u: Key, now: real) {
    !IsFull(LoadedAt(table, a, now), s) && !IsFull(LoadedAt(table, u, now), s)
  }

  function WithPending(b: Bucket, token: Token): Bucket { b.(pending := b.pending + {token}) }

  function Reserved(table: Buckets, s: Settings, a: Key, u: Key, token: Token, now: real): Buckets {
    if Grants(table, s, a, u, now)
    then table[a := WithPending(LoadedAt(table, a, now), token)][u := WithPending(LoadedAt(table, u, now), token)]
    else table
  }

  /** The bucket of the address (`resets` false) or of the user name once the attempt is over. */
  function SettledBucket(b: Bucket, s: Settings, token: Token, success: bool, resets: bool, now: real): Bucket {
    var rest := b.pending - {token};
    if !success then Bucket(b.failures + 1, if b.failures == 0 then now + s.lockout else b.expiresAt, rest)
    else if resets then Bucket(0, 0.0, rest)
    else b.(pending := rest)
  }

  function SettledAt(table: Buckets, s: Settings, key: Key, token: Token, success: bool, resets: bool,
      now: real): Buckets {
    var b := LoadedAt(table, key, now);
    if token in b.pending then table[key := SettledBucket(b, s, token, success, resets, now)] else table
  }

  function Settled(table: Buckets, s: Settings, a: Key, u: Key, token: Token, success: bool, now: real): Buckets {
    SettledAt(SettledAt(table, s, a, token, success, false, now), s, u, token, success, true, now)
  }

  // -- The cache -----------------------------------------------------------------------------

  /** An entry without a deadline stays until it is replaced. */
  datatype Entry = Entry(bucket: Bucket, deadline: Option<real>)

  function Cached(cache: map<Key, Entry>, key: Key, now: real): Bucket {
    if key in cache && (cache[key].deadline.None? || now < cache[key].deadline.value) then cache[key].bucket else EMPTY
  }

  function Ceiling(x: real): int { -((-x).Floor) }

  /** The least number of whole seconds from 1 that is not over before the end. */
  function Timeout(remaining: real): (seconds: real)
    ensures seconds >= 1.0 && seconds >= remaining && seconds == seconds.Floor as real
    ensures seconds == 1.0 || seconds < remaining + 1.0
  {
    if Ceiling(remaining) < 1 then 1.0 else Ceiling(remaining) as real
  }

  /** From `now` on nobody can tell the cache from the table. */
  ghost predicate Shows(cache: map<Key, Entry>, table: Buckets, now: real) {
    forall key, later: real | now <= later :: Loaded(Cached(cache, key, later), later) == LoadedAt(table, key, later)
  }

  /** Without failures there is no window. */
  ghost predicate Tidy(table: Buckets) {
    forall key | key in table && table[key].failures == 0 :: table[key].expiresAt == 0.0
  }

  function Saved(cache: map<Key, Entry>, key: Key, b: Bucket, now: real): map<Key, Entry> {
    if b.pending != {} then cache[key := Entry(b, None)]
    else if b.failures != 0 then cache[key := Entry(b, Some(now + Timeout(b.expiresAt - now)))]
    else cache - {key}
  }

  /** Saving a bucket with a deadline, or deleting an empty one, is as good as keeping it for ever. */
  lemma SavingShows(cache: map<Key, Entry>, table: Buckets, key: Key, b: Bucket, now: real)
    requires Shows(cache, table, now)
    requires b.failures == 0 ==> b.expiresAt == 0.0
    ensures Shows(Saved(cache, key, b, now), table[key := b], now)
  {
    var saved := Saved(cache, key, b, now);
    forall k, later: real | now <= later
      ensures Loaded(Cached(saved, k, later), later) == LoadedAt(table[key := b], k, later)
    {
      if k != key {
        assert Cached(saved, k, later) == Cached(cache, k, later);
      }
    }
  }

  class Throttle {
    const settings: Settings
    var cache: map<Key, Entry>
    ghost var table: Buckets
    ghost var clock: real

    ghost predicate Valid()
      reads this
    {
      ValidSettings(settings) && Shows(cache, table, clock) && Tidy(table)
    }

    constructor (settings: Settings)
      requires ValidSettings(settings)
      ensures Valid() && table == map[] && clock == 0.0
    {
      this.settings := settings;
      cache, table, clock := map[], map[], 0.0;
    }

    function Load(key: Key, now: real): Bucket
      reads this
    {
      Loaded(Cached(cache, key, now), now)
    }

    method Save(key: Key, b: Bucket, now: real)
      modifies `cache
      ensures cache == Saved(old(cache), key, b, now)
    {
      if b.pending != {} {
        cache := cache[key := Entry(b, None)];
      } else if b.failures != 0 {
        cache := cache[key := Entry(b, Some(now + Timeout(b.expiresAt - now)))];
      } else {
        cache := cache - {key};
      }
    }

    /** Reserves both budgets before the password is checked. */
    method Reserve(a: Key, u: Key, token: Token, now: real) returns (granted: bool)
      requires Valid() && clock <= now && a != u
      modifies this
      ensures Valid() && clock == now
      ensures granted == Grants(old(table), settings, a, u, now)
      ensures table == Reserved(old(table), settings, a, u, token, now)
    {
      clock := now;
      var first, second := Load(a, now), Load(u, now);
      if IsFull(first, settings) || IsFull(second, settings) {
        return false;
      }
      hide Loaded, Cached, Saved, Shows;
      SavingShows(cache, table, a, WithPending(first, token), now);
      Save(a, WithPending(first, token), now);
      table := table[a := WithPending(first, token)];
      SavingShows(cache, table, u, WithPending(second, token), now);
      Save(u, WithPending(second, token), now);
      table := table[u := WithPending(second, token)];
      return true;
    }

    /** Releases one reservation in one bucket; an entry that was replaced meanwhile is left alone. */
    method SettleOne(key: Key, token: Token, success: bool, resets: bool, now: real)
      requires Valid() && clock <= now
      modifies this
      ensures Valid() && clock == now
      ensures table == SettledAt(old(table), settings, key, token, success, resets, now)
    {
      clock := now;
      var b := Load(key, now);
      if token !in b.pending {
        return;
      }
      var settled := b.(pending := b.pending - {token});
      if success {
        if resets {
          settled := settled.(failures := 0, expiresAt := 0.0);
        }
      } else {
        if b.failures == 0 {
          settled := settled.(expiresAt := now + settings.lockout);
        }
        settled := settled.(failures := settled.failures + 1);
      }
      hide Loaded, Cached, Saved, Shows;
      SavingShows(cache, table, key, settled, now);
      Save(key, settled, now);
      table := table[key := settled];
    }

    method Settle(a: Key, u: Key, token: Token, success: bool, now: real)
      requires Valid() && clock <= now
      modifies this
      ensures Valid() && clock == now
      ensures table == Settled(old(table), settings, a, u, token, success, now)
    {
      SettleOne(a, token, success, false, now);
      SettleOne(u, token, success, true, now);
    }
  }

}
