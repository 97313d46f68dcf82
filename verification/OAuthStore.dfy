/** The in-memory store behind the OAuth state protocol: one map, two namespaces with
    opposite failure directions, and a budget for each. */
module OAuthStore {
  import opened Common

  const DEFAULT_MAX_ENTRIES := 4096
  const STATE_PREFIX := "state:"
  const RESERVE_PREFIX := "reserve:"

  datatype Blob = Envelope(purpose: string, expiresAt: int, payload: string) | Marker

  datatype Entry = Entry(data: Blob, expiresAt: int)

  datatype StoreError = KeyRequired | TtlNotPositive | AlreadyExists | CapacityExhausted | NotFound

  type Entries = map<string, Entry>

  /** A replay marker: the entries whose absence grants. */
  predicate IsMarker(key: string)
  {
    RESERVE_PREFIX <= key
  }

  function StateKeys(entries: Entries): set<string>
  {
    set k | k in entries && !IsMarker(k)
  }

  function MarkerKeys(entries: Entries): set<string>
  {
    set k | k in entries && IsMarker(k)
  }

  function Expired(entries: Entries, now: int): set<string>
  {
    set k | k in entries && now > entries[k].expiresAt
  }

  function Purged(entries: Entries, now: int): Entries
  {
    entries - Expired(entries, now)
  }

  predicate Live(entries: Entries, key: string, now: int)
  {
    key in entries && now < entries[key].expiresAt
  }

  /** Only login states go, the nearest to expiry first. */
  ghost predicate Evictable(entries: Entries, evicted: set<string>)
  {
    && evicted <= StateKeys(entries)
    && forall v, k :: v in evicted && k in StateKeys(entries) - evicted ==> entries[v].expiresAt <= entries[k].expiresAt
  }

  /** No more than the cap leaves no room for. */
  ghost predicate RoomMade(purged: Entries, key: string, evicted: set<string>, max: nat)
  {
    && Evictable(purged, evicted)
    && |evicted| == (if IsMarker(key) || |StateKeys(purged)| < max then 0 else |StateKeys(purged)| - max + 1)
  }

  /** Everything one PutIfAbsent may do to the map. */
  ghost predicate Put(entries: Entries, entries': Entries, key: string, data: Blob, ttl: int, now: int, max: nat,
                      error: Option<StoreError>)
  {
    var purged := Purged(entries, now);
    if key == "" then error == Some(KeyRequired) && entries' == entries
    else if ttl <= 0 then error == Some(TtlNotPositive) && entries' == entries
    else if Live(entries, key, now) then error == Some(AlreadyExists) && entries' == entries
    else if IsMarker(key) && |MarkerKeys(purged)| >= max then error == Some(CapacityExhausted) && entries' == purged
    else
      error.None? && exists evicted :: RoomMade(purged, key, evicted, max) && entries' == (purged - evicted)[key := Entry(data, now + ttl)]
  }

  function TakeResult(entries: Entries, key: string, now: int): Option<Blob>
  {
    if key in entries && now <= entries[key].expiresAt then Some(entries[key].data) else None
  }

  /** Each namespace within its budget; the empty key, the eviction loop's sentinel, is
      never stored. */
  ghost predicate Bounded(entries: Entries, max: nat)
  {
    && |StateKeys(entries)| <= max && |MarkerKeys(entries)| <= max
    && "" !in entries
  }

  class MemoryStore {
    var entries: Entries
    const maxEntries: nat

    constructor (maxEntries: int)
      ensures Valid() && entries == map[]
      ensures this.maxEntries == if maxEntries <= 0 then 4096 else maxEntries
    {
      entries := map[];
      this.maxEntries := if maxEntries <= 0 then DEFAULT_MAX_ENTRIES else maxEntries;
    }

    ghost predicate Valid()
      reads this
    {
      maxEntries > 0 && Bounded(entries, maxEntries)
    }

    /** Drops every expired entry and counts what is left, in one pass in map order. */
    method PurgeExpired(now: int) returns (states: nat, markers: nat)
      modifies this
      ensures entries == Purged(old(entries), now)
      ensures states == |StateKeys(entries)| && markers == |MarkerKeys(entries)|
    {
      var unread := entries.Keys;
      states, markers := 0, 0;
      ghost var seenStates: set<string>, seenMarkers: set<string> := {}, {};
      while unread != {}
        invariant unread <= entries.Keys
        invariant entries.Keys <= old(entries).Keys && forall k :: k in entries ==> entries[k] == old(entries)[k]
        invariant forall k :: k in old(entries) ==> (k in entries <==> k in unread || !(now > old(entries)[k].expiresAt))
        invariant forall k :: k in seenStates <==> k in entries && k !in unread && !IsMarker(k)
        invariant forall k :: k in seenMarkers <==> k in entries && k !in unread && IsMarker(k)
        invariant states == |seenStates| && markers == |seenMarkers|
        decreases unread
      {
        var k :| k in unread;
        unread := unread - {k};
        if now > entries[k].expiresAt {
          entries := entries - {k};
        } else if IsMarker(k) {
          markers, seenMarkers := markers + 1, seenMarkers + {k};
        } else {
          states, seenStates := states + 1, seenStates + {k};
        }
      }
      assert seenStates == StateKeys(entries) && seenMarkers == MarkerKeys(entries);
      assert entries == Purged(old(entries), now);
    }

    /** Drops one login state nearest to expiry, if there is any. */
    method EvictNearestExpiryState() returns (found: bool, ghost victim: string)
      requires "" !in entries
      modifies this
      ensures found <==> StateKeys(old(entries)) != {}
      ensures !found ==> entries == old(entries)
      ensures found ==> Evictable(old(entries), {victim}) && entries == old(entries) - {victim}
    {
      var unread := entries.Keys;
      var best, soonest := "", 0;
      while unread != {}
        invariant unread <= entries.Keys && entries == old(entries)
        invariant best == "" ==> forall k :: k in entries && k !in unread ==> IsMarker(k)
        invariant best != "" ==> best in StateKeys(entries) && best !in unread && soonest == entries[best].expiresAt
        invariant best != "" ==> forall k :: k in StateKeys(entries) && k !in unread ==> soonest <= entries[k].expiresAt
        decreases unread
      {
        var k :| k in unread;
        unread := unread - {k};
        if IsMarker(k) { continue; }
        if best == "" || entries[k].expiresAt < soonest {
          best, soonest := k, entries[k].expiresAt;
        }
      }
      victim := best;
      if best == "" {
        assert forall k :: k in StateKeys(entries) ==> k in entries;
        return false, victim;
      }
      entries := entries - {best};
      found := true;
    }

    /** Makes room in the key's own namespace, or fails closed. */
    method MakeRoom(key: string, now: int) returns (error: Option<StoreError>, ghost evicted: set<string>)
      requires Valid()
      modifies this
      ensures error == if IsMarker(key) && |MarkerKeys(Purged(old(entries), now))| >= maxEntries then Some(CapacityExhausted) else None
      ensures entries == Purged(old(entries), now) - evicted
      ensures error.Some? ==> evicted == {}
      ensures error.None? ==> RoomMade(Purged(old(entries), now), key, evicted, maxEntries)
    {
      var states, markers := PurgeExpired(now);
      evicted := {};
      assert entries == entries - {};
      if IsMarker(key) {
        return if markers >= maxEntries then Some(CapacityExhausted) else None, {};
      }
      ghost var purged := entries;
      while states >= maxEntries
        invariant entries == purged - evicted && Evictable(purged, evicted)
        invariant states == |StateKeys(entries)| == |StateKeys(purged)| - |evicted|
        invariant |evicted| == 0 || |evicted| <= |StateKeys(purged)| - maxEntries + 1
        invariant "" !in entries
        decreases states
      {
        ghost var before := entries;
        var found;
        ghost var victim;
        found, victim := EvictNearestExpiryState();
        assert victim in StateKeys(before);
        EvictOneMore(purged, evicted, victim);
        evicted := evicted + {victim};
        states := states - 1;
      }
      error := None;
    }

    /** Stores the entry unless a live one is there. The clock was read before the lock
        was taken. */
    method PutIfAbsent(key: string, data: Blob, ttl: int, now: int) returns (error: Option<StoreError>)
      requires Valid()
      modifies this
      ensures Put(old(entries), entries, key, data, ttl, now, maxEntries, error)
      ensures error.None? ==> key in entries && entries[key] == Entry(data, now + ttl)
      ensures |StateKeys(entries)| <= maxEntries && |MarkerKeys(entries)| <= maxEntries
      ensures Valid()
    {
      if key == "" { return Some(KeyRequired); }
      if ttl <= 0 { return Some(TtlNotPositive); }
      if key in entries && now < entries[key].expiresAt { return Some(AlreadyExists); }
      ghost var was := entries;
      var full;
      ghost var evicted;
      full, evicted := MakeRoom(key, now);
      if full.Some? {
        error := full;
      } else {
        entries := entries[key := Entry(data, now + ttl)];
        error := None;
      }
      PutKeepsBounded(was, entries, key, data, ttl, now, maxEntries, error);
    }

    /** Removes the entry on every hit and returns it only while it has not expired. */
    method Take(key: string, now: int) returns (data: Option<Blob>)
      requires Valid()
      modifies this
      ensures data == TakeResult(old(entries), key, now)
      ensures entries == old(entries) - {key}
      ensures Valid()
    {
      if key !in entries {
        assert entries == entries - {key};
        return None;
      }
      var e := entries[key];
      RemovalKeepsBounded(entries, {key}, maxEntries);
      entries := entries - {key};
      data := if now > e.expiresAt then None else Some(e.data);
    }

    method Sweep(now: int)
      requires Valid()
      modifies this
      ensures entries == Purged(old(entries), now)
      ensures Valid()
    {
      RemovalKeepsBounded(entries, Expired(entries, now), maxEntries);
      var states, markers := PurgeExpired(now);
    }
  }

  // ---- bounds ---------------------------------------------------------------

  lemma RemovalKeepsBounded(entries: Entries, gone: set<string>, max: nat)
    requires Bounded(entries, max)
    ensures Bounded(entries - gone, max)
  {
    SubsetSize(StateKeys(entries - gone), StateKeys(entries));
    SubsetSize(MarkerKeys(entries - gone), MarkerKeys(entries));
  }

  /** The nearest of what is left extends the nearest taken so far. */
  lemma EvictOneMore(purged: Entries, evicted: set<string>, victim: string)
    requires Evictable(purged, evicted) && Evictable(purged - evicted, {victim})
    ensures Evictable(purged, evicted + {victim}) && victim !in evicted
    ensures purged - evicted - {victim} == purged - (evicted + {victim})
    ensures |StateKeys(purged - evicted - {victim})| == |StateKeys(purged - evicted)| - 1
  {
    assert victim in StateKeys(purged - evicted);
    assert StateKeys(purged - evicted) == StateKeys(purged) - evicted;
    assert StateKeys(purged - evicted - {victim}) == StateKeys(purged - evicted) - {victim};
    forall v, k | v in evicted + {victim} && k in StateKeys(purged) - (evicted + {victim})
      ensures purged[v].expiresAt <= purged[k].expiresAt
    {
      if v == victim {
        assert k in StateKeys(purged - evicted) - {victim};
      } else {
        assert k in StateKeys(purged) - evicted;
      }
    }
  }

  /** Neither namespace ever holds more than its budget after a put. */
  lemma PutKeepsBounded(entries: Entries, entries': Entries, key: string, data: Blob, ttl: int, now: int, max: nat,
                        error: Option<StoreError>)
    requires max > 0 && Bounded(entries, max) && Put(entries, entries', key, data, ttl, now, max, error)
    ensures Bounded(entries', max)
  {
    var purged := Purged(entries, now);
    RemovalKeepsBounded(entries, Expired(entries, now), max);
    if error.None? {
      var evicted :| RoomMade(purged, key, evicted, max) && entries' == (purged - evicted)[key := Entry(data, now + ttl)];
      RoomSuffices(purged, key, evicted, max, Entry(data, now + ttl));
    }
  }

  lemma RoomSuffices(purged: Entries, key: string, evicted: set<string>, max: nat, e: Entry)
    requires max > 0 && Bounded(purged, max) && key != "" && RoomMade(purged, key, evicted, max)
    requires IsMarker(key) ==> |MarkerKeys(purged)| < max
    ensures Bounded((purged - evicted)[key := e], max)
  {
    var room := purged - evicted;
    var full := room[key := e];
    RemovalKeepsBounded(purged, evicted, max);
    SubsetSize(evicted, StateKeys(purged));
    assert StateKeys(room) == StateKeys(purged) - evicted;
    assert MarkerKeys(room) == MarkerKeys(purged);
    if IsMarker(key) {
      assert StateKeys(full) == StateKeys(room) && MarkerKeys(full) == MarkerKeys(room) + {key};
    } else {
      assert StateKeys(full) == StateKeys(room) + {key} && MarkerKeys(full) == MarkerKeys(room);
    }
  }

  /** Whatever is put, a replay marker that has not expired stays as it is. */
  lemma PutKeepsMarkers(entries: Entries, entries': Entries, key: string, data: Blob, ttl: int, now: int, max: nat,
                        error: Option<StoreError>, marker: string)
    requires Put(entries, entries', key, data, ttl, now, max, error)
    requires IsMarker(marker) && marker in entries && now < entries[marker].expiresAt
    ensures marker in entries' && entries'[marker] == entries[marker]
    ensures key == marker && ttl > 0 ==> error == Some(AlreadyExists)
  {
    assert marker !in Expired(entries, now);
    if error.None? {
      var purged := Purged(entries, now);
      var evicted :| RoomMade(purged, key, evicted, max) && entries' == (purged - evicted)[key := Entry(data, now + ttl)];
      assert marker !in StateKeys(purged);
    }
  }
}
