/** The response cache: TTL-bounded entries under an entry cap and an incrementally maintained byte cap. */
module Cache {
  import opened Bytes
  import opened Header
  import opened Responses

  const CACHE_MAX_BYTES: nat := 8 * 1024 * 1024
  /** Clock ticks per second; TTLs are in seconds, the clock and the configured lifetimes in ticks. */
  const SECOND: nat := 1_000_000_000

  /** Raw wire name, type, class, and the client's DNSSEC posture. */
  datatype CacheKey = CacheKey(qnameWire: seq<byte>, qtype: u16, qclass: u16, dnssecOk: bool, checkingDisabled: bool)
  datatype CacheEntry = CacheEntry(bytes: seq<byte>, expiresAt: nat)
  datatype CacheConfig = CacheConfig(capacity: nat, maxTtl: nat, negativeTtl: nat)

  type Entries = map<CacheKey, CacheEntry>

  /** The simple form of the byte total. */
  ghost function SumLen(m: Entries): (n: nat) {
    if m == map[] then 0 else var k :| k in m; |m[k].bytes| + SumLen(m - {k})
  }

  lemma {:induction false} SumLenRemove(m: Entries, k: CacheKey)
    requires k in m
    ensures SumLen(m) == |m[k].bytes| + SumLen(m - {k})
    decreases |m|
  {
    var j :| j in m && SumLen(m) == |m[j].bytes| + SumLen(m - {j});
    if j != k {
      SumLenRemove(m - {j}, k);
      SumLenRemove(m - {k}, j);
      assert m - {j} - {k} == m - {k} - {j};
    }
  }

  lemma SumLenInsert(m: Entries, k: CacheKey, e: CacheEntry)
    ensures SumLen(m[k := e]) == SumLen(m) - (if k in m then |m[k].bytes| else 0) + |e.bytes|
    ensures k in m ==> |m[k].bytes| <= SumLen(m)
  {
    SumLenRemove(m[k := e], k);
    if k in m {
      SumLenRemove(m, k);
      assert m[k := e] - {k} == m - {k};
    } else {
      assert m[k := e] - {k} == m;
    }
  }

  function Purged(m: Entries, now: nat): (r: Entries) {
    map k | k in m && m[k].expiresAt > now :: m[k]
  }

  lemma {:induction false} PurgedShrinks(m: Entries, now: nat)
    ensures SumLen(Purged(m, now)) <= SumLen(m) && |Purged(m, now)| <= |m|
    decreases |m|
  {
    if m == map[] {
      assert Purged(m, now) == map[];
    } else {
      var k :| k in m;
      PurgedShrinks(m - {k}, now);
      SumLenRemove(m, k);
      if k in Purged(m, now) {
        SumLenRemove(Purged(m, now), k);
        assert Purged(m, now) - {k} == Purged(m - {k}, now);
      } else {
        assert Purged(m, now) == Purged(m - {k}, now);
      }
    }
  }

  /** How long a summary may be cached, in ticks; `None` means not at all. */
  function LifetimeOf(config: CacheConfig, info: ResponseInfo): (r: Option<nat>) {
    if info.rcode == RCODE_NXDOMAIN then Some(config.negativeTtl)
    else if info.rcode != RCODE_NOERROR then None
    else
      match info.minTtl
      case None => None
      case Some(ttl) => if ttl == 0 then None else Some(Min(ttl * SECOND, config.maxTtl))
  }

  ghost function WouldBe(m: Entries, key: CacheKey, size: nat): int {
    SumLen(m) - (if key in m then |m[key].bytes| else 0) + size
  }

  ghost predicate Full(m: Entries, key: CacheKey, size: nat, config: CacheConfig) {
    |m| >= config.capacity || WouldBe(m, key, size) > CACHE_MAX_BYTES
  }

  /** What a store leaves in the cache; `purgeNow` and `storeNow` are the two clock readings it takes. */
  ghost function Stored(
    m: Entries, key: CacheKey, response: seq<byte>, config: CacheConfig, purgeNow: nat, storeNow: nat)
    : (r: Entries)
  {
    match ResponseInfoOf(response)
    case None => m
    case Some(info) =>
      match LifetimeOf(config, info)
      case None => m
      case Some(ttl) =>
        var kept := if Full(m, key, |response|, config) then Purged(m, purgeNow) else m;
        if Full(kept, key, |response|, config) then kept
        else kept[key := CacheEntry(response, storeNow + ttl)]
  }

  /** What a lookup leaves in the cache: an entry found expired is dropped. */
  function AfterLookup(m: Entries, key: CacheKey, now: nat): (r: Entries) {
    if key in m && m[key].expiresAt <= now then m - {key} else m
  }

  function Hit(m: Entries, key: CacheKey, id: u16, rd: bool, cd: bool, now: nat): (r: Option<seq<byte>>) {
    if key in m && m[key].expiresAt > now then Some(ForClient(m[key].bytes, id, rd, cd)) else None
  }

  /** Exactly which summaries are cached, and for how long. */
  lemma LifetimeMeaning(config: CacheConfig, info: ResponseInfo)
    ensures LifetimeOf(config, info).Some? <==>
      info.rcode == 3 || (info.rcode == 0 && info.minTtl.Some? && info.minTtl.value > 0)
    ensures info.rcode == 3 ==> LifetimeOf(config, info) == Some(config.negativeTtl)
    ensures info.rcode == 0 && LifetimeOf(config, info).Some? ==>
      var t := LifetimeOf(config, info).value;
      && t <= config.maxTtl && t <= info.minTtl.value * SECOND
      && (t == config.maxTtl || t == info.minTtl.value * SECOND)
  {
  }

  /** Full means exactly that: no entry left, or the map would weigh too much with the new entry in place of the old. */
  lemma FullMeaning(m: Entries, key: CacheKey, e: CacheEntry, config: CacheConfig)
    ensures Full(m, key, |e.bytes|, config) <==>
      |m| >= config.capacity || SumLen(m[key := e]) > CACHE_MAX_BYTES
  {
    hide SumLen;
    SumLenInsert(m, key, e);
  }

  /** A live entry survives a lookup under any key, and a store under any other; an expired one is never served. */
  lemma LiveEntriesSurvive(
    m: Entries, k: CacheKey, key: CacheKey, response: seq<byte>, config: CacheConfig, purgeNow: nat, storeNow: nat)
    requires k in m
    ensures m[k].expiresAt <= purgeNow ==>
      k !in AfterLookup(m, k, purgeNow) && k !in Purged(m, purgeNow) && Hit(m, k, 0, false, false, purgeNow).None?
    ensures m[k].expiresAt > purgeNow ==> k in AfterLookup(m, key, purgeNow) && AfterLookup(m, key, purgeNow)[k] == m[k]
    ensures m[k].expiresAt > purgeNow && k != key ==>
      var after := Stored(m, key, response, config, purgeNow, storeNow);
      k in after && after[k] == m[k]
  {
    hide SumLen, ResponseInfoOf, LifetimeOf, Full;
  }

  /** What is not cached leaves the cache as it is; what is, with room or after a purge that makes room, is there. */
  lemma StoredExactly(
    m: Entries, key: CacheKey, response: seq<byte>, config: CacheConfig, purgeNow: nat, storeNow: nat)
    ensures var after := Stored(m, key, response, config, purgeNow, storeNow);
      var info := ResponseInfoOf(response);
      if info.None? || LifetimeOf(config, info.value).None? then after == m
      else
        var entry := CacheEntry(response, storeNow + LifetimeOf(config, info.value).value);
        && (!Full(m, key, |response|, config) ==> key in after && after[key] == entry)
        && (!Full(Purged(m, purgeNow), key, |response|, config) ==> key in after && after[key] == entry)
        && (!Full(m, key, |response|, config) ==> after.Keys == m.Keys + {key})
        && forall k :: k in after && k != key ==> k in m && after[k] == m[k]
  {
    hide SumLen, ResponseInfoOf, LifetimeOf, Full;
  }

  ghost predicate WithinBounds(m: Entries, config: CacheConfig) {
    SumLen(m) <= CACHE_MAX_BYTES && |m| <= config.capacity
  }

  /** No store can push the cache past its entry or byte bound. */
  lemma StoredWithinBounds(
    m: Entries, key: CacheKey, response: seq<byte>, config: CacheConfig, purgeNow: nat, storeNow: nat)
    requires WithinBounds(m, config)
    ensures WithinBounds(Stored(m, key, response, config, purgeNow, storeNow), config)
  {
    hide SumLen, ResponseInfoOf, LifetimeOf, Purged, Full;
    PurgedShrinks(m, purgeNow);
    if ResponseInfoOf(response).Some? && LifetimeOf(config, ResponseInfoOf(response).value).Some? {
      var kept := if Full(m, key, |response|, config) then Purged(m, purgeNow) else m;
      var e := CacheEntry(response, storeNow + LifetimeOf(config, ResponseInfoOf(response).value).value);
      if !Full(kept, key, |response|, config) { InsertWithinBounds(kept, key, e, config); }
    }
  }

  lemma InsertWithinBounds(m: Entries, key: CacheKey, e: CacheEntry, config: CacheConfig)
    requires !Full(m, key, |e.bytes|, config)
    ensures WithinBounds(m[key := e], config)
  {
    hide SumLen;
    SumLenInsert(m, key, e);
    InsertCount(m, key, e);
  }

  lemma InsertCount(m: Entries, key: CacheKey, e: CacheEntry)
    ensures |m[key := e]| <= |m| + 1
  {
    assert m[key := e].Keys == m.Keys + {key};
  }

  lemma LookupWithinBounds(m: Entries, key: CacheKey, config: CacheConfig, now: nat)
    requires WithinBounds(m, config)
    ensures WithinBounds(AfterLookup(m, key, now), config)
  {
    if key in m { SumLenRemove(m, key); }
  }

  lemma PurgeStart(m: Entries, now: nat)
    ensures map[] + Purged(m, now) == Purged(m, now) && SumLen(map[]) == 0
  {
  }

  lemma PurgeEnd(kept: Entries, now: nat)
    ensures kept + Purged(map[], now) == kept && SumLen(map[]) == 0
  {
    assert Purged(map[], now) == map[];
  }

  lemma PurgeStep(kept: Entries, rest: Entries, k: CacheKey, now: nat)
    requires k in rest && kept.Keys !! rest.Keys
    ensures (if rest[k].expiresAt > now then kept[k := rest[k]] else kept) + Purged(rest - {k}, now)
         == kept + Purged(rest, now)
    ensures kept[k := rest[k]].Keys !! (rest - {k}).Keys
  {
  }

  /** The retain loop: what is kept, and how many bytes are freed. */
  method Retain(m: Entries, now: nat) returns (kept: Entries, freed: nat)
    ensures kept == Purged(m, now) && SumLen(m) == SumLen(kept) + freed
  {
    hide SumLen, Purged;
    var rest := m;
    kept, freed := map[], 0;
    PurgeStart(m, now);
    while rest != map[]
      invariant kept.Keys !! rest.Keys
      invariant kept + Purged(rest, now) == Purged(m, now)
      invariant SumLen(m) == SumLen(kept) + freed + SumLen(rest)
      decreases |rest|
    {
      var k :| k in rest;
      SumLenRemove(rest, k);
      PurgeStep(kept, rest, k, now);
      if rest[k].expiresAt > now {
        SumLenInsert(kept, k, rest[k]);
        kept := kept[k := rest[k]];
      } else {
        freed := freed + |rest[k].bytes|;
      }
      rest := rest - {k};
    }
    PurgeEnd(kept, now);
  }

  class ResponseCache {
    var entries: Entries
    var bytes: nat

    ghost predicate Valid()
      reads this
    {
      bytes == SumLen(entries)
    }

    constructor ()
      ensures Valid() && entries == map[]
    {
      entries, bytes := map[], 0;
    }

    method Remove(key: CacheKey)
      requires Valid()
      modifies this
      ensures Valid() && entries == old(entries) - {key}
    {
      if key in entries {
        SumLenRemove(entries, key);
        bytes := bytes - |entries[key].bytes|;
        entries := entries - {key};
      } else {
        assert entries - {key} == entries;
      }
    }

    /** Drop every entry that has expired by `now`, freeing its bytes. */
    method PurgeExpired(now: nat)
      requires Valid()
      modifies this
      ensures Valid() && entries == Purged(old(entries), now)
    {
      var kept, freed := Retain(entries, now);
      entries, bytes := kept, bytes - freed;
    }

    method Insert(key: CacheKey, entry: CacheEntry)
      requires Valid()
      modifies this
      ensures Valid() && entries == old(entries)[key := entry]
    {
      SumLenInsert(entries, key, entry);
      bytes := bytes + |entry.bytes|;
      if key in entries { bytes := bytes - |entries[key].bytes|; }
      entries := entries[key := entry];
    }

    /** `cache_get`: a live entry patched for this requester; an expired one is dropped. */
    method CacheGet(key: CacheKey, id: u16, rd: bool, cd: bool, now: nat) returns (r: Option<seq<byte>>)
      requires Valid()
      modifies this
      ensures Valid() && entries == AfterLookup(old(entries), key, now)
      ensures r == Hit(old(entries), key, id, rd, cd, now)
    {
      if key !in entries { return None; }
      if entries[key].expiresAt <= now {
        Remove(key);
        return None;
      }
      return Some(ForClient(entries[key].bytes, id, rd, cd));
    }

    method IsFull(key: CacheKey, size: nat, config: CacheConfig) returns (full: bool)
      requires Valid()
      ensures full <==> Full(entries, key, size, config)
    {
      if key in entries { SumLenRemove(entries, key); }
      var wouldBe := bytes - (if key in entries then |entries[key].bytes| else 0) + size;
      return |entries| >= config.capacity || wouldBe > CACHE_MAX_BYTES;
    }

    method CacheStore(key: CacheKey, response: seq<byte>, config: CacheConfig, purgeNow: nat, storeNow: nat)
      requires Valid()
      modifies this
      ensures Valid() && entries == Stored(old(entries), key, response, config, purgeNow, storeNow)
    {
      hide SumLen, Purged, Full, ForClient;
      var info := ResponseInfoOf(response);
      if info.None? { return; }
      var ttl := LifetimeOf(config, info.value);
      if ttl.None? { return; }
      var full := IsFull(key, |response|, config);
      if full {
        PurgeExpired(purgeNow);
        full := IsFull(key, |response|, config);
        if full { return; }
      }
      Insert(key, CacheEntry(response, storeNow + ttl.value));
    }
  }
}
