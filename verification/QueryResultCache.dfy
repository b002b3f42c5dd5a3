/**
 The query result cache: entries carry an expiry time and are evicted lazily, when a lookup or a
 cleanup meets them. Against it stands an ideal cache that never evicts and only compares times.
 */
module QueryResultCaches {
  import opened Wrappers

  type Key = string

  /** `std::any`: empty, or holding a value. */
  datatype Data = Empty | Held(text: string)

  datatype CacheEntry = CacheEntry(data: Data, expiresAt: int)

  type Entries = map<Key, CacheEntry>

  predicate IsExpired(entry: CacheEntry, now: int) {
    now >= entry.expiresAt
  }

  /** The entries still alive at an instant. */
  function Live(entries: Entries, now: int): Entries {
    map k | k in entries && !IsExpired(entries[k], now) :: entries[k]
  }

  /** What a lookup at an instant answers. */
  function Lookup(entries: Entries, k: Key, now: int): Data {
    if k in Live(entries, now) then entries[k].data else Empty
  }

  /** The clock readings of one cleanup: they never go back. */
  ghost predicate Steady(clock: nat -> int) {
    forall i: nat, j: nat :: i <= j ==> clock(i) <= clock(j)
  }

  class QueryResultCache {
    var cache: Entries
    var enabled: bool

    constructor ()
      ensures cache == map[] && enabled
    {
      cache := map[];
      enabled := true;
    }

    method Put(k: Key, data: Data, ttl: int, now: int)
      modifies this`cache
      ensures cache == old(cache)[k := CacheEntry(data, now + ttl)]
    {
      var entry := CacheEntry(data, now + ttl);
      cache := cache[k := entry];
    }

    method Get(k: Key, now: int) returns (data: Data)
      modifies this`cache
      ensures data == Lookup(old(cache), k, now)
      ensures cache == Evict(old(cache), k, now)
    {
      if k !in cache { return Empty; }
      if IsExpired(cache[k], now) {
        cache := cache - {k};
        return Empty;
      }
      return cache[k].data;
    }

    method Contains(k: Key, now: int) returns (found: bool)
      modifies this`cache
      ensures found <==> k in Live(old(cache), now)
      ensures cache == Evict(old(cache), k, now)
    {
      if k !in cache { return false; }
      if IsExpired(cache[k], now) {
        cache := cache - {k};
        return false;
      }
      return true;
    }

    method Clear()
      modifies this`cache
      ensures cache == map[]
    {
      cache := map[];
    }

    /**
     Walks the entries in some order, reading the clock at each. Whatever had expired when the walk
     began is gone and whatever has not expired when it ends is kept; of the others some are `kept`.
     */
    method Cleanup(clock: nat -> int) returns (ghost kept: set<Key>)
      requires Steady(clock)
      modifies this`cache
      ensures cache == Survivors(old(cache), kept, clock(0), clock(|old(cache)|))
    {
      ghost var start := cache;
      var ahead, i := cache.Keys, 0;
      while ahead != {}
        invariant ahead <= cache.Keys <= start.Keys && i + |ahead| == |start|
        invariant forall k :: k in cache ==> cache[k] == start[k]
        invariant forall k :: k in cache && k !in ahead ==> !IsExpired(start[k], clock(0))
        invariant forall k :: k in start && k !in cache ==> IsExpired(start[k], clock(|start|))
        decreases ahead
      {
        var k :| k in ahead;
        assert clock(0) <= clock(i) <= clock(|start|);
        if IsExpired(cache[k], clock(i)) {
          cache := cache - {k};
        }
        ahead, i := ahead - {k}, i + 1;
      }
      kept := cache.Keys;
    }

    method Size() returns (n: nat)
      ensures n == |cache|
    {
      n := |cache|;
    }

    method SetEnabled(enabled: bool)
      modifies this
      ensures this.enabled == enabled && cache == if enabled then old(cache) else map[]
    {
      this.enabled := enabled;
      if !enabled { cache := map[]; }
    }

    method IsEnabled() returns (r: bool)
      ensures r == enabled
    {
      r := enabled;
    }
  }

  /** After a cleanup from `now` to `until`: an entry that expires meanwhile may have been met before or after that. */
  function Survivors(entries: Entries, kept: set<Key>, now: int, until: int): Entries {
    map k | k in entries && !IsExpired(entries[k], now) && (k in kept || !IsExpired(entries[k], until)) :: entries[k]
  }

  /** A lookup drops the entry it finds expired. */
  function Evict(entries: Entries, k: Key, now: int): Entries {
    if k in entries && IsExpired(entries[k], now) then entries - {k} else entries
  }

  // ---- runs -----------------------------------------------------------------------------------

  datatype Call =
    | Put(k: Key, data: Data, ttl: int)
    | Get(k: Key)
    | Contains(k: Key)
    | Cleanup(kept: set<Key>, until: int)
    | Clear
    | SetEnabled(enabled: bool)

  /** A call and the time at which it starts; only a cleanup goes on reading the clock. */
  datatype Timed = Timed(call: Call, now: int)
  {
    function End(): int {
      if call.Cleanup? then call.until else now
    }
  }

  function Step(entries: Entries, e: Timed): Entries {
    match e.call
    case Put(k, data, ttl) => entries[k := CacheEntry(data, e.now + ttl)]
    case Get(k) => Evict(entries, k, e.now)
    case Contains(k) => Evict(entries, k, e.now)
    case Cleanup(kept, until) => Survivors(entries, kept, e.now, until)
    case Clear => map[]
    case SetEnabled(enabled) => if enabled then entries else map[]
  }

  function Run(es: seq<Timed>): Entries {
    if es == [] then map[] else Step(Run(es[..|es| - 1]), es[|es| - 1])
  }

  /** The clock never goes back, within a cleanup or between calls, and reads no later than `now`. */
  ghost predicate TimesUpTo(es: seq<Timed>, now: int) {
    es == [] ||
    var e := es[|es| - 1];
    e.now <= e.End() <= now && TimesUpTo(es[..|es| - 1], e.now)
  }

  // ---- the ideal cache: the latest put since the last clearing --------------------------------

  function LastPut(es: seq<Timed>, k: Key): Option<CacheEntry> {
    if es == [] then None
    else
      var e := es[|es| - 1];
      if e.call.Put? && e.call.k == k then Some(CacheEntry(e.call.data, e.now + e.call.ttl))
      else if e.call.Clear? || e.call == SetEnabled(false) then None
      else LastPut(es[..|es| - 1], k)
  }

  predicate IdealContains(es: seq<Timed>, k: Key, now: int) {
    var entry := LastPut(es, k);
    entry.Some? && now < entry.value.expiresAt
  }

  function IdealGet(es: seq<Timed>, k: Key, now: int): Data {
    if IdealContains(es, k, now) then LastPut(es, k).value.data else Empty
  }

  /** The keys a run ever put. */
  function KeysPut(es: seq<Timed>): set<Key> {
    if es == [] then {}
    else KeysPut(es[..|es| - 1]) + if es[|es| - 1].call.Put? then {es[|es| - 1].call.k} else {}
  }

  function IdealLive(es: seq<Timed>, now: int): set<Key> {
    set k | k in KeysPut(es) && IdealContains(es, k, now)
  }

  /** Every entry held is the latest put of its key, and every live put is held. */
  lemma {:induction false} EntriesAreLastPuts(es: seq<Timed>, k: Key, now: int)
    requires TimesUpTo(es, now)
    ensures k in Run(es) ==> LastPut(es, k) == Some(Run(es)[k])
    ensures IdealContains(es, k, now) ==> k in Run(es) && k in KeysPut(es)
  {
    if es != [] {
      EntriesAreLastPuts(es[..|es| - 1], k, es[|es| - 1].now);
    }
  }

  /** Lazy eviction is invisible to `get` and `contains`. */
  lemma EvictionIsInvisible(es: seq<Timed>, k: Key, now: int)
    requires TimesUpTo(es, now)
    ensures Lookup(Run(es), k, now) == IdealGet(es, k, now)
    ensures k in Live(Run(es), now) <==> IdealContains(es, k, now)
  {
    EntriesAreLastPuts(es, k, now);
  }

  /** A lookup drops the entry it finds expired, and nothing else. */
  lemma LookupsEvictExactly(es: seq<Timed>, k: Key, lookup: Call, now: int)
    requires TimesUpTo(es, now) && (lookup == Get(k) || lookup == Contains(k))
    ensures var before, after := Run(es), Run(es + [Timed(lookup, now)]);
            && (forall j :: j in after <==> j in before && (j == k ==> IdealContains(es, k, now)))
            && (forall j :: j in after ==> after[j] == before[j])
            && (k in before && k !in after ==> |after| == |before| - 1)
  {
    var all := es + [Timed(lookup, now)];
    assert all[..|all| - 1] == es;
    EntriesAreLastPuts(es, k, now);
    var before, after := Run(es), Run(all);
    if k in before && k !in after { assert after.Keys == before.Keys - {k}; }
  }

  /**
   A cleanup leaves every entry that is live when it ends and none that was not when it began, so for a
   cleanup within an instant the size counts the live entries.
   */
  lemma CleanupLeavesTheLive(es: seq<Timed>, kept: set<Key>, now: int, until: int)
    requires TimesUpTo(es, now) && now <= until
    ensures var entries := Run(es + [Timed(Cleanup(kept, until), now)]);
            && IdealLive(es, until) <= entries.Keys <= IdealLive(es, now)
            && |IdealLive(es, until)| <= |entries| <= |IdealLive(es, now)|
            && (now == until ==> entries.Keys == IdealLive(es, now) && |entries| == |IdealLive(es, now)|)
            && forall k :: k in entries ==> LastPut(es, k) == Some(entries[k])
  {
    var all := es + [Timed(Cleanup(kept, until), now)];
    var entries := Run(all);
    assert all[..|all| - 1] == es;
    forall k
      ensures k in IdealLive(es, until) ==> k in entries
      ensures k in entries ==> k in IdealLive(es, now) && LastPut(es, k) == Some(entries[k])
    {
      EntriesAreLastPuts(es, k, now);
      LiveLonger(es, k, now, until);
    }
    SubsetSizes(IdealLive(es, until), entries.Keys);
    SubsetSizes(entries.Keys, IdealLive(es, now));
    assert |entries| == |entries.Keys|;
  }

  lemma LiveLonger(es: seq<Timed>, k: Key, now: int, until: int)
    requires now <= until
    ensures IdealContains(es, k, until) ==> IdealContains(es, k, now)
  {
  }

  lemma SubsetSizes<T>(a: set<T>, b: set<T>)
    requires a <= b
    ensures |a| <= |b| && (|a| == |b| ==> a == b)
  {
    assert b == a + (b - a);
  }

  /** Switching the cache off only empties it: what is put afterwards is still served. */
  lemma DisabledStillServes(es: seq<Timed>, k: Key, data: Data, ttl: int, now: int)
    ensures var all := es + [Timed(SetEnabled(false), now), Timed(Put(k, data, ttl), now)];
            forall later :: now <= later < now + ttl ==> Lookup(Run(all), k, later) == data
  {
  }
}
