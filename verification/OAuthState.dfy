/** The OAuth state protocol over the store: mint, redeem once, reserve once, in any
    interleaving of calls and sweeps, with clocks read before locks are taken. */
module OAuthState {
  import opened Common
  import opened OAuthStore

  datatype Verdict =
    | Redeemed(payload: string)
    | PurposeRequired | StateNotFound | DecodeFailed | StateExpired | PurposeMismatch

  /** What Consume makes of what it took out of the store. */
  function Judge(taken: Option<Blob>, purpose: string, now: int): Verdict
  {
    match taken
    case None => StateNotFound
    case Some(Marker) => DecodeFailed
    case Some(Envelope(p, expiresAt, payload)) =>
      if now > expiresAt then StateExpired else if p != purpose then PurposeMismatch else Redeemed(payload)
  }

  datatype IssueResult = Issued(state: string) | Failed(error: Option<StoreError>)

  class Manager {
    const store: MemoryStore

    constructor (store: MemoryStore)
      ensures this.store == store
    {
      this.store := store;
    }

    /** Stores the payload under a freshly minted state. The two clock readings are the
        envelope's and, later, the store's. */
    method Issue(purpose: string, payload: string, ttl: int, minted: string, mintFails: bool, now: int, later: int)
      returns (r: IssueResult)
      requires store.Valid() && now <= later
      modifies store
      ensures store.Valid()
      ensures purpose == "" || ttl <= 0 || mintFails ==> r == Failed(None) && store.entries == old(store.entries)
      ensures purpose != "" && ttl > 0 && !mintFails ==>
                exists error ::
                  && Put(old(store.entries), store.entries, STATE_PREFIX + minted, Envelope(purpose, now + ttl, payload), ttl, later, store.maxEntries, error)
                  && r == if error.Some? then Failed(error) else Issued(minted)
    {
      if purpose == "" { return Failed(None); }
      if ttl <= 0 { return Failed(None); }
      if mintFails { return Failed(None); }
      var encoded := Envelope(purpose, now + ttl, payload);
      var error := store.PutIfAbsent(STATE_PREFIX + minted, encoded, ttl, later);
      r := if error.Some? then Failed(error) else Issued(minted);
    }

    /** Takes the state out before any check runs: a wrong purpose burns it too. */
    method Consume(purpose: string, state: string, now: int, later: int) returns (v: Verdict)
      requires store.Valid() && now <= later
      modifies store
      ensures store.Valid()
      ensures purpose == "" ==> v == PurposeRequired && store.entries == old(store.entries)
      ensures purpose != "" ==> store.entries == old(store.entries) - {STATE_PREFIX + state}
      ensures purpose != "" ==> v == Judge(TakeResult(old(store.entries), STATE_PREFIX + state, now), purpose, later)
    {
      if purpose == "" { return PurposeRequired; }
      var taken := store.Take(STATE_PREFIX + state, now);
      if taken.None? { return StateNotFound; }
      match taken.value {
        case Marker => return DecodeFailed;
        case Envelope(p, expiresAt, payload) =>
          if later > expiresAt { return StateExpired; }
          if p != purpose { return PurposeMismatch; }
          return Redeemed(payload);
      }
    }

    /** True only for the caller whose marker was stored; false with every error. */
    method Reserve(key: string, ttl: int, now: int) returns (reserved: bool, error: Option<StoreError>)
      requires store.Valid()
      modifies store
      ensures store.Valid()
      ensures key == "" || ttl <= 0 ==> !reserved && error.Some? && store.entries == old(store.entries)
      ensures key != "" && ttl > 0 ==>
                exists put ::
                  && Put(old(store.entries), store.entries, RESERVE_PREFIX + key, Marker, ttl, now, store.maxEntries, put)
                  && reserved == put.None?
                  && error == if put == Some(AlreadyExists) then None else put
    {
      if key == "" { return false, Some(KeyRequired); }
      if ttl <= 0 { return false, Some(TtlNotPositive); }
      var put := store.PutIfAbsent(RESERVE_PREFIX + key, Marker, ttl, now);
      reserved, error := put.None?, if put == Some(AlreadyExists) then None else put;
    }
  }

  // ---- runs -----------------------------------------------------------------

  /** issued remembers every envelope ever minted a state for. */
  datatype World = World(clock: int, entries: Entries, issued: map<string, Blob>)

  datatype Event =
    | Tick(to: int)
    | Issue(state: string, purpose: string, payload: string, ttl: int, now: int, later: int, error: Option<StoreError>)
    | Consume(purpose: string, state: string, later: int)
    | Reserve(key: string, ttl: int, now: int, error: Option<StoreError>)
    | Sweep

  /** A put reads the clock before it waits for the lock, so its reading may be behind;
      a take and a sweep read it inside. */
  ghost predicate Step(w: World, e: Event, w': World, max: nat)
  {
    match e
    case Tick(to) => to >= w.clock && w' == w.(clock := to)
    case Issue(state, purpose, payload, ttl, now, later, error) =>
      && purpose != "" && ttl > 0 && state !in w.issued && now <= later <= w.clock
      && var sealed := Envelope(purpose, now + ttl, payload);
         w' == World(w.clock, w'.entries, w.issued[state := sealed]) &&
         Put(w.entries, w'.entries, STATE_PREFIX + state, sealed, ttl, later, max, error)
    case Consume(purpose, state, later) =>
      purpose != "" && w.clock <= later && w' == w.(entries := w.entries - {STATE_PREFIX + state})
    case Reserve(key, ttl, now, error) =>
      && key != "" && ttl > 0 && now <= w.clock
      && w' == w.(entries := w'.entries)
      && Put(w.entries, w'.entries, RESERVE_PREFIX + key, Marker, ttl, now, max, error)
    case Sweep => w' == w.(entries := Purged(w.entries, w.clock))
  }

  function Outcome(w: World, e: Event): Verdict
    requires e.Consume?
  {
    Judge(TakeResult(w.entries, STATE_PREFIX + e.state, w.clock), e.purpose, e.later)
  }

  ghost predicate Run(worlds: seq<World>, events: seq<Event>, max: nat)
  {
    && max > 0 && |worlds| == |events| + 1
    && worlds[0].entries == map[] && worlds[0].issued == map[]
    && forall i :: 0 <= i < |events| ==> Step(worlds[i], events[i], worlds[i + 1], max)
  }

  lemma KeysApart(state: string, other: string, key: string)
    ensures STATE_PREFIX + state != RESERVE_PREFIX + key
    ensures STATE_PREFIX + state == STATE_PREFIX + other <==> state == other
    ensures !IsMarker(STATE_PREFIX + state) && IsMarker(RESERVE_PREFIX + key)
  {
    assert (STATE_PREFIX + state)[0] == 's' && (RESERVE_PREFIX + key)[0] == 'r';
    assert (STATE_PREFIX + state)[|STATE_PREFIX|..] == state && (STATE_PREFIX + other)[|STATE_PREFIX|..] == other;
  }

  /** Stored states are envelopes their own Issue sealed, kept at least as long as the
      envelope is good for. */
  ghost predicate Honest(w: World, state: string)
  {
    var key := STATE_PREFIX + state;
    && (state in w.issued ==> w.issued[state].Envelope?)
    && (key in w.entries ==>
          state in w.issued && w.entries[key].data == w.issued[state] && w.issued[state].expiresAt <= w.entries[key].expiresAt)
  }

  /** An entry a put leaves behind is the one put or one that was there. */
  lemma PutOrigin(entries: Entries, entries': Entries, key: string, data: Blob, ttl: int, now: int, max: nat,
                  error: Option<StoreError>, k: string)
    requires Put(entries, entries', key, data, ttl, now, max, error) && k in entries'
    ensures || (k in entries && entries'[k] == entries[k])
            || (k == key && entries'[k] == Entry(data, now + ttl) && error.None?)
  {
    if error.None? {
      var purged := Purged(entries, now);
      var evicted :| RoomMade(purged, key, evicted, max) && entries' == (purged - evicted)[key := Entry(data, now + ttl)];
    }
  }

  lemma StepKeepsHonest(w: World, e: Event, w': World, max: nat, state: string)
    requires Step(w, e, w', max) && Honest(w, state)
    ensures Honest(w', state)
  {
    var key := STATE_PREFIX + state;
    if key in w'.entries {
      match e
      case Issue(s, purpose, payload, ttl, now, later, error) =>
        KeysApart(state, s, "");
        PutOrigin(w.entries, w'.entries, STATE_PREFIX + s, Envelope(purpose, now + ttl, payload), ttl, later, max, error, key);
      case Reserve(k, ttl, now, error) =>
        KeysApart(state, state, k);
        PutOrigin(w.entries, w'.entries, RESERVE_PREFIX + k, Marker, ttl, now, max, error, key);
      case _ =>
    }
  }

  lemma {:induction false} RunIsHonest(worlds: seq<World>, events: seq<Event>, max: nat, n: nat, state: string)
    requires Run(worlds, events, max) && n < |worlds|
    ensures Honest(worlds[n], state)
    decreases n
  {
    if n > 0 {
      RunIsHonest(worlds, events, max, n - 1, state);
      StepKeepsHonest(worlds[n - 1], events[n - 1], worlds[n], max, state);
    }
  }

  ghost predicate IssuedAs(e: Event, state: string, sealed: Blob)
  {
    e.Issue? && e.state == state && sealed == Envelope(e.purpose, e.now + e.ttl, e.payload)
  }

  lemma {:induction false} IssuedByACall(worlds: seq<World>, events: seq<Event>, max: nat, n: nat, state: string)
    requires Run(worlds, events, max) && n < |worlds| && state in worlds[n].issued
    ensures exists i :: 0 <= i < n && IssuedAs(events[i], state, worlds[n].issued[state])
    decreases n
  {
    assert Step(worlds[n - 1], events[n - 1], worlds[n], max);
    if state in worlds[n - 1].issued {
      IssuedByACall(worlds, events, max, n - 1, state);
      var i :| 0 <= i < n - 1 && IssuedAs(events[i], state, worlds[n - 1].issued[state]);
      assert IssuedAs(events[i], state, worlds[n].issued[state]);
    } else {
      assert IssuedAs(events[n - 1], state, worlds[n].issued[state]);
    }
  }

  /** A redemption returns exactly what one earlier Issue stored, for that call's own
      purpose and before its envelope expires; and while the state is still in the store
      those two conditions are all it takes. */
  lemma RedeemsWhatWasIssued(worlds: seq<World>, events: seq<Event>, max: nat, n: nat)
    requires Run(worlds, events, max) && n < |events| && events[n].Consume?
    ensures var v := Outcome(worlds[n], events[n]);
            v.Redeemed? ==>
              exists i :: 0 <= i < n && events[i].Issue? && events[i].state == events[n].state &&
                          events[i].purpose == events[n].purpose && events[i].payload == v.payload &&
                          events[n].later <= events[i].now + events[i].ttl
    ensures var e := events[n];
            STATE_PREFIX + e.state in worlds[n].entries ==>
              e.state in worlds[n].issued && worlds[n].issued[e.state].Envelope? &&
              (Outcome(worlds[n], e).Redeemed? <==>
                 worlds[n].issued[e.state].purpose == e.purpose && e.later <= worlds[n].issued[e.state].expiresAt)
  {
    var w, e := worlds[n], events[n];
    RunIsHonest(worlds, events, max, n, e.state);
    assert Step(w, e, worlds[n + 1], max);
    if Outcome(w, e).Redeemed? {
      IssuedByACall(worlds, events, max, n, e.state);
      var i :| 0 <= i < n && IssuedAs(events[i], e.state, w.issued[e.state]);
    }
  }

  /** Spent: minted, and out of the store for good. */
  ghost predicate Spent(w: World, state: string)
  {
    state in w.issued && STATE_PREFIX + state !in w.entries
  }

  lemma StepKeepsSpent(w: World, e: Event, w': World, max: nat, state: string)
    requires Step(w, e, w', max) && Spent(w, state)
    ensures Spent(w', state)
  {
    var key := STATE_PREFIX + state;
    if key in w'.entries {
      match e
      case Issue(s, purpose, payload, ttl, now, later, error) =>
        KeysApart(state, s, "");
        PutOrigin(w.entries, w'.entries, STATE_PREFIX + s, Envelope(purpose, now + ttl, payload), ttl, later, max, error, key);
      case Reserve(k, ttl, now, error) =>
        KeysApart(state, state, k);
        PutOrigin(w.entries, w'.entries, RESERVE_PREFIX + k, Marker, ttl, now, max, error, key);
      case _ =>
    }
  }

  lemma {:induction false} RunKeepsSpent(worlds: seq<World>, events: seq<Event>, max: nat, m: nat, n: nat, state: string)
    requires Run(worlds, events, max) && m <= n < |worlds| && Spent(worlds[m], state)
    ensures Spent(worlds[n], state)
    decreases n
  {
    if m < n {
      RunKeepsSpent(worlds, events, max, m, n - 1, state);
      StepKeepsSpent(worlds[n - 1], events[n - 1], worlds[n], max, state);
    }
  }

  /** Single use: once any Consume has found a state, whatever it answered, every later
      one reports that there is no such state. */
  lemma RedeemedAtMostOnce(worlds: seq<World>, events: seq<Event>, max: nat, i: nat, j: nat)
    requires Run(worlds, events, max) && i < j < |events| && events[i].Consume? && events[j].Consume?
    requires events[i].state == events[j].state && !Outcome(worlds[i], events[i]).StateNotFound?
    ensures Outcome(worlds[j], events[j]) == StateNotFound
  {
    var state := events[i].state;
    RunIsHonest(worlds, events, max, i, state);
    assert Step(worlds[i], events[i], worlds[i + 1], max);
    assert Spent(worlds[i + 1], state);
    RunKeepsSpent(worlds, events, max, i + 1, j, state);
  }

  // ---- reservations ---------------------------------------------------------

  /** A reservation stands until its time has passed on the real clock. */
  ghost predicate Guarded(w: World, marker: string, until: int)
  {
    w.clock >= until || (marker in w.entries && w.entries[marker].expiresAt == until)
  }

  lemma StepKeepsGuard(w: World, e: Event, w': World, max: nat, key: string, until: int)
    requires Step(w, e, w', max) && Guarded(w, RESERVE_PREFIX + key, until)
    ensures Guarded(w', RESERVE_PREFIX + key, until)
    ensures w.clock < until && e.Reserve? && e.key == key ==> e.error == Some(AlreadyExists)
  {
    var marker := RESERVE_PREFIX + key;
    if w.clock < until {
      match e
      case Issue(s, purpose, payload, ttl, now, later, error) =>
        KeysApart(s, s, key);
        PutKeepsMarkers(w.entries, w'.entries, STATE_PREFIX + s, Envelope(purpose, now + ttl, payload), ttl, later, max, error, marker);
      case Reserve(k, ttl, now, error) =>
        KeysApart("", "", key);
        PutKeepsMarkers(w.entries, w'.entries, RESERVE_PREFIX + k, Marker, ttl, now, max, error, marker);
      case Consume(_, state, _) => KeysApart(state, state, key);
      case _ =>
    }
  }

  lemma {:induction false} RunKeepsGuard(worlds: seq<World>, events: seq<Event>, max: nat, m: nat, n: nat, key: string, until: int)
    requires Run(worlds, events, max) && m <= n < |worlds| && Guarded(worlds[m], RESERVE_PREFIX + key, until)
    ensures Guarded(worlds[n], RESERVE_PREFIX + key, until)
    decreases n
  {
    if m < n {
      RunKeepsGuard(worlds, events, max, m, n - 1, key, until);
      StepKeepsGuard(worlds[n - 1], events[n - 1], worlds[n], max, key, until);
    }
  }

  /** Whatever the load, whatever is issued, swept or evicted meanwhile: a reserved key
      is refused as a replay until its ttl has passed. */
  lemma NotReservedAgainBeforeTtl(worlds: seq<World>, events: seq<Event>, max: nat, i: nat, j: nat)
    requires Run(worlds, events, max) && i < j < |events| && events[i].Reserve? && events[j].Reserve?
    requires events[i].key == events[j].key && events[i].error.None?
    ensures worlds[j].clock < events[i].now + events[i].ttl ==> events[j].error == Some(AlreadyExists)
  {
    var e := events[i];
    var until := e.now + e.ttl;
    assert Step(worlds[i], e, worlds[i + 1], max);
    assert Guarded(worlds[i + 1], RESERVE_PREFIX + e.key, until);
    RunKeepsGuard(worlds, events, max, i + 1, j, e.key, until);
    StepKeepsGuard(worlds[j], events[j], worlds[j + 1], max, e.key, until);
  }

  /** Neither namespace ever outgrows its budget. */
  lemma {:induction false} RunStaysBounded(worlds: seq<World>, events: seq<Event>, max: nat, n: nat)
    requires Run(worlds, events, max) && n < |worlds|
    ensures |StateKeys(worlds[n].entries)| <= max && |MarkerKeys(worlds[n].entries)| <= max
    ensures Bounded(worlds[n].entries, max)
    decreases n
  {
    if n > 0 {
      RunStaysBounded(worlds, events, max, n - 1);
      var w, e, w' := worlds[n - 1], events[n - 1], worlds[n];
      assert Step(w, e, w', max);
      match e
      case Issue(s, purpose, payload, ttl, now, later, error) =>
        PutKeepsBounded(w.entries, w'.entries, STATE_PREFIX + s, Envelope(purpose, now + ttl, payload), ttl, later, max, error);
      case Reserve(k, ttl, now, error) =>
        PutKeepsBounded(w.entries, w'.entries, RESERVE_PREFIX + k, Marker, ttl, now, max, error);
      case Consume(_, s, _) => RemovalKeepsBounded(w.entries, {STATE_PREFIX + s}, max);
      case Sweep => RemovalKeepsBounded(w.entries, Expired(w.entries, w.clock), max);
      case Tick(_) =>
    }
  }
}
