/** The two tables that prune themselves on their own writes: deduplication claims and
    revoked tokens. */
module SelfPruning {
  import opened Common
  import opened Ordering

  const DEDUP_GRACE := 604800
  const DEDUP_INTERVAL := 3600
  const REVOCATION_GRACE := 3600
  const REVOCATION_INTERVAL := 3600
  const BATCH := 10000

  /** Rows by key; the time is claimed_at for a claim, expires_at for a revocation. */
  type Rows = map<string, int>

  function Setting(configured: int, fallback: nat): nat
  {
    if configured <= 0 then fallback else configured
  }

  function Before(rows: Rows, cutoff: int): Rows
  {
    map k | k in rows && rows[k] < cutoff :: rows[k]
  }

  /** The upsert wins on a free key and on a claim older than the ttl. */
  predicate Wins(rows: Rows, key: string, ttl: int, now: int)
  {
    key !in rows || rows[key] < now - ttl
  }

  /** What one self-prune deletes. */
  ghost predicate Prunes(rows: Rows, gone: set<string>, now: int, grace: nat, batch: nat)
  {
    OldestFirst(Before(rows, now - grace), gone, batch)
  }

  /** A self-prune row by row: it takes only rows past the grace, and all of them when a
      batch has room for the table. */
  lemma PrunedRows(rows: Rows, gone: set<string>, now: int, grace: nat, batch: nat)
    requires Prunes(rows, gone, now, grace, batch)
    ensures forall k :: k in gone ==> k in rows && rows[k] + grace < now
    ensures |rows| <= batch ==> forall k :: k in rows && rows[k] + grace < now ==> k in gone
  {
    var old' := Before(rows, now - grace);
    assert gone <= old'.Keys && |old'| == |old'.Keys| && |rows| == |rows.Keys|;
    SubsetSize(old'.Keys, rows.Keys);
    SubsetSize(gone, old'.Keys);
    forall k | k in gone ensures k in rows && rows[k] + grace < now { assert k in old'; }
  }

  /** The throttle both repositories carry. */
  class PruneSlot {
    var nextPruneAt: int
    const interval: nat

    constructor (interval: nat)
      ensures this.interval == interval && nextPruneAt == 0
    {
      this.interval, nextPruneAt := interval, 0;
    }

    method CompareAndSwap(was: int, to: int) returns (swapped: bool)
      modifies this
      ensures swapped == (old(nextPruneAt) == was)
      ensures nextPruneAt == if swapped then to else old(nextPruneAt)
    {
      swapped := nextPruneAt == was;
      if swapped { nextPruneAt := to; }
    }

    /** The slot is burnt on the attempt; others may have taken it since it was read. */
    method Claim(now: int, taken: Option<int>) returns (won: bool)
      modifies this
      ensures won == (now >= old(nextPruneAt) && (taken.None? || taken.value == old(nextPruneAt)))
      ensures won ==> nextPruneAt == now + interval
      ensures !won ==> nextPruneAt == if now >= old(nextPruneAt) then taken.GetOr(old(nextPruneAt)) else old(nextPruneAt)
    {
      var next := nextPruneAt;
      if now < next { return false; }
      if taken.Some? { nextPruneAt := taken.value; }
      won := CompareAndSwap(next, now + interval);
    }
  }

  class NotifyDedupRepository {
    var claims: Rows
    const slot: PruneSlot
    const pruneGrace: int
    const pruneBatch: int

    constructor (pruneInterval: int, pruneGrace: int, pruneBatch: int)
      ensures claims == map[] && fresh(slot) && slot.interval == if pruneInterval <= 0 then 3600 else pruneInterval
      ensures this.pruneGrace == pruneGrace && this.pruneBatch == pruneBatch
    {
      claims := map[];
      slot := new PruneSlot(Setting(pruneInterval, DEDUP_INTERVAL));
      this.pruneGrace, this.pruneBatch := pruneGrace, pruneBatch;
    }

    /** Wins the key or not in one statement, at the database's time, then perhaps
        prunes, at this process's. A failed prune is not the claim's failure. */
    method ClaimDedup(key: string, ttl: int, dbNow: int, now: int, upsertFails: bool, pruneFails: bool)
      returns (won: bool, failed: bool, ghost gone: set<string>)
      modifies this`claims, slot
      ensures failed == upsertFails
      ensures won <==> !upsertFails && (key !in old(claims) || old(claims)[key] + ttl < dbNow)
      // Due or not, the prune is tried at most once an interval, whether or not it succeeds.
      ensures slot.nextPruneAt == if now >= old(slot.nextPruneAt) then now + slot.interval else old(slot.nextPruneAt)
      ensures var upserted := if won then old(claims)[key := dbNow] else old(claims);
              && claims == upserted - gone
              && (now < old(slot.nextPruneAt) || pruneFails ==> gone == {})
              && (now >= old(slot.nextPruneAt) && !pruneFails ==>
                    Prunes(upserted, gone, now, Setting(pruneGrace, DEDUP_GRACE), Setting(pruneBatch, BATCH)))
      ensures forall k :: k in gone ==>
                (if k == key && won then dbNow else if k in old(claims) then old(claims)[k] else now)
                + (if pruneGrace <= 0 then 7 * 24 * 3600 else pruneGrace) < now
      ensures now >= old(slot.nextPruneAt) && !pruneFails && |old(claims)| < (if pruneBatch <= 0 then 10000 else pruneBatch) ==>
                forall k :: k in claims ==> claims[k] + (if pruneGrace <= 0 then 7 * 24 * 3600 else pruneGrace) >= now
    {
      won := !upsertFails && Wins(claims, key, ttl, dbNow);
      if won { claims := claims[key := dbNow]; }
      failed := upsertFails;
      gone := {};
      var due := slot.Claim(now, None);
      if due && !pruneFails {
        var taken := TakeOldest(Before(claims, now - Setting(pruneGrace, DEDUP_GRACE)), Setting(pruneBatch, BATCH));
        PrunedRows(claims, taken, now, Setting(pruneGrace, DEDUP_GRACE), Setting(pruneBatch, BATCH));
        claims := claims - taken;
        gone := taken;
      }
    }
  }

  datatype TokenError = EmptyTokenId | Database

  class TokenRepository {
    var revoked: Rows
    const slot: PruneSlot
    const pruneGrace: int
    const pruneBatch: int

    constructor (pruneInterval: int, pruneGrace: int, pruneBatch: int)
      ensures revoked == map[] && fresh(slot) && slot.interval == if pruneInterval <= 0 then 3600 else pruneInterval
      ensures this.pruneGrace == pruneGrace && this.pruneBatch == pruneBatch
    {
      revoked := map[];
      slot := new PruneSlot(Setting(pruneInterval, REVOCATION_INTERVAL));
      this.pruneGrace, this.pruneBatch := pruneGrace, pruneBatch;
    }

    /** An existing revocation keeps the expiry it has; a failed prune does not fail the
        revocation, and an empty identifier is refused before anything is written. */
    method RevokeToken(jti: string, expiresAt: int, now: int, insertFails: bool, pruneFails: bool)
      returns (error: Option<TokenError>, ghost gone: set<string>)
      modifies this`revoked, slot
      ensures error == if jti == "" then Some(EmptyTokenId) else if insertFails then Some(Database) else None
      ensures error.Some? ==> revoked == old(revoked) && gone == {} && slot.nextPruneAt == old(slot.nextPruneAt)
      ensures error.None? ==>
                var inserted := if jti in old(revoked) then old(revoked) else old(revoked)[jti := expiresAt];
                && revoked == inserted - gone
                && (now < old(slot.nextPruneAt) || pruneFails ==> gone == {})
                && (now >= old(slot.nextPruneAt) && !pruneFails ==>
                      Prunes(inserted, gone, now, Setting(pruneGrace, REVOCATION_GRACE), Setting(pruneBatch, BATCH)))
      ensures error.None? ==>
                slot.nextPruneAt == if now >= old(slot.nextPruneAt) then now + slot.interval else old(slot.nextPruneAt)
      ensures forall k :: k in gone ==>
                (if k in old(revoked) then old(revoked)[k] else expiresAt)
                + (if pruneGrace <= 0 then 3600 else pruneGrace) < now
      ensures error.None? && now >= old(slot.nextPruneAt) && !pruneFails &&
              |old(revoked)| < (if pruneBatch <= 0 then 10000 else pruneBatch) ==>
                forall k :: k in revoked ==> revoked[k] + (if pruneGrace <= 0 then 3600 else pruneGrace) >= now
    {
      gone := {};
      if jti == "" { return Some(EmptyTokenId), {}; }
      if insertFails { return Some(Database), {}; }
      if jti !in revoked { revoked := revoked[jti := expiresAt]; }
      var due := slot.Claim(now, None);
      if due && !pruneFails {
        var taken := TakeOldest(Before(revoked, now - Setting(pruneGrace, REVOCATION_GRACE)), Setting(pruneBatch, BATCH));
        PrunedRows(revoked, taken, now, Setting(pruneGrace, REVOCATION_GRACE), Setting(pruneBatch, BATCH));
        revoked := revoked - taken;
        gone := taken;
      }
      error := None;
    }

    /** Fails closed on both channels. */
    method IsTokenRevoked(jti: string, queryFails: bool) returns (denied: bool, error: Option<TokenError>)
      ensures denied <==> jti == "" || queryFails || jti in revoked
      ensures error == if jti == "" then Some(EmptyTokenId) else if queryFails then Some(Database) else None
    {
      if jti == "" { return true, Some(EmptyTokenId); }
      if queryFails { return true, Some(Database); }
      denied, error := jti in revoked, None;
    }
  }

  // ---- deduplication over whole runs ----------------------------------------

  datatype DedupEvent =
    | Claim(key: string, ttl: int, now: int, won: bool)
    | PruneClaims(now: int, gone: set<string>)

  ghost predicate DedupStep(rows: Rows, e: DedupEvent, rows': Rows, grace: nat)
  {
    match e
    case Claim(key, ttl, now, won) => won == Wins(rows, key, ttl, now) && rows' == if won then rows[key := now] else rows
    case PruneClaims(now, gone) => gone <= Before(rows, now - grace).Keys && rows' == rows - gone
  }

  /** skew bounds how far a pruner's clock may be ahead of the time of a later claim. */
  ghost predicate DedupRun(tables: seq<Rows>, events: seq<DedupEvent>, grace: nat, skew: int)
  {
    && |tables| == |events| + 1
    && (forall i :: 0 <= i < |events| ==> DedupStep(tables[i], events[i], tables[i + 1], grace))
    && (forall p, c :: 0 <= p < c < |events| && events[p].PruneClaims? && events[c].Claim? ==> events[p].now <= events[c].now + skew)
  }

  ghost predicate WonAt(events: seq<DedupEvent>, i: int, key: string)
  {
    0 <= i < |events| && events[i].Claim? && events[i].key == key && events[i].won
  }

  /** Since the win the claim is still on the table, or a prune past its grace took it. */
  ghost predicate HeldOrPruned(tables: seq<Rows>, events: seq<DedupEvent>, grace: nat, i: nat, n: nat, key: string)
    requires i < n < |tables| && i < |events| && events[i].Claim?
  {
    || (key in tables[n] && tables[n][key] == events[i].now)
    || (exists p :: i < p < n && p < |events| && events[p].PruneClaims? && events[i].now < events[p].now - grace)
  }

  lemma {:induction false} ClaimStands(tables: seq<Rows>, events: seq<DedupEvent>, grace: nat, skew: int, i: nat, n: nat, key: string)
    requires DedupRun(tables, events, grace, skew) && i < n < |tables| && WonAt(events, i, key)
    requires forall k :: i < k < n ==> !WonAt(events, k, key)
    ensures HeldOrPruned(tables, events, grace, i, n, key)
    decreases n
  {
    var e := events[n - 1];
    assert DedupStep(tables[n - 1], e, tables[n], grace);
    if i < n - 1 {
      ClaimStands(tables, events, grace, skew, i, n - 1, key);
      assert !WonAt(events, n - 1, key);
      if key in tables[n - 1] && tables[n - 1][key] == events[i].now && key !in tables[n] {
        assert events[n - 1].PruneClaims? && events[i].now < events[n - 1].now - grace;
      }
    }
  }

  /** A claim is a reservation, not a tombstone: in every run it is won exactly where the
      key is free or its claim is more than the ttl old. */
  lemma OutlivedClaimIsWonAgain(tables: seq<Rows>, events: seq<DedupEvent>, grace: nat, skew: int, i: nat)
    requires DedupRun(tables, events, grace, skew) && i < |events| && events[i].Claim?
    ensures var e := events[i];
            && (e.won <==> e.key !in tables[i] || tables[i][e.key] + e.ttl < e.now)
            && (e.won ==> e.key in tables[i + 1] && tables[i + 1][e.key] == e.now)
            && (!e.won ==> tables[i + 1] == tables[i])
  {
    assert DedupStep(tables[i], events[i], tables[i + 1], grace);
  }

  /** Two consecutive wins on one key are more than the later claimant's ttl apart,
      whenever that ttl and the clock skew fit in the prune grace. */
  lemma WinsAreApart(tables: seq<Rows>, events: seq<DedupEvent>, grace: nat, skew: int, i: nat, j: nat, key: string)
    requires DedupRun(tables, events, grace, skew) && i < j && WonAt(events, i, key) && WonAt(events, j, key)
    requires forall k :: i < k < j ==> !WonAt(events, k, key)
    requires events[j].ttl + skew <= grace
    ensures events[j].now - events[i].now > events[j].ttl
  {
    ClaimStands(tables, events, grace, skew, i, j, key);
    assert DedupStep(tables[j], events[j], tables[j + 1], grace);
  }

  /** Past that bound the promise is lost: for every grace, every skew and every ttl that
      do not fit, a claim is pruned and won again within its ttl. */
  lemma LongTtlIsForgotten(grace: nat, skew: nat, ttl: nat, key: string) returns (tables: seq<Rows>, events: seq<DedupEvent>)
    requires ttl + skew > grace
    ensures DedupRun(tables, events, grace, skew)
    ensures |events| == 3 && WonAt(events, 0, key) && WonAt(events, 2, key) && !WonAt(events, 1, key) && events[2].ttl == ttl
    ensures events[2].now - events[0].now <= ttl
  {
    var pruned := grace + 1;
    var later := if skew < pruned then pruned - skew else 0;
    events := [Claim(key, ttl, 0, true), PruneClaims(pruned, {key}), Claim(key, ttl, later, true)];
    tables := [map[], map[key := 0], map[], map[key := later]];
    assert tables[1] == tables[0][key := 0] && tables[2] == tables[1] - {key} && tables[3] == tables[2][key := later];
    assert key in Before(tables[1], pruned - grace);
  }

  /** What a deduplication key promises, of one grace, skew and ttl: over every run, a win
      with that ttl comes more than the ttl after the win before it. */
  ghost predicate Remembers(grace: nat, skew: nat, ttl: nat)
  {
    forall tables: seq<Rows>, events: seq<DedupEvent>, i: nat, j: nat, key: string ::
      Consecutive(tables, events, grace, skew, i, j, key) && events[j].ttl == ttl ==> events[j].now - events[i].now > ttl
  }

  ghost predicate Consecutive(tables: seq<Rows>, events: seq<DedupEvent>, grace: nat, skew: nat, i: nat, j: nat, key: string)
  {
    && DedupRun(tables, events, grace, skew) && i < j && WonAt(events, i, key) && WonAt(events, j, key)
    && forall k :: i < k < j ==> !WonAt(events, k, key)
  }

  /** The promise holds exactly when the ttl and the skew fit in the grace. */
  lemma RemembersIffItFits(grace: nat, skew: nat, ttl: nat)
    ensures Remembers(grace, skew, ttl) <==> ttl + skew <= grace
  {
    if ttl + skew <= grace {
      forall tables: seq<Rows>, events: seq<DedupEvent>, i: nat, j: nat, key: string |
          Consecutive(tables, events, grace, skew, i, j, key) && events[j].ttl == ttl
        ensures events[j].now - events[i].now > ttl
      {
        WinsAreApart(tables, events, grace, skew, i, j, key);
      }
    } else {
      var tables, events := LongTtlIsForgotten(grace, skew, ttl, "k");
      assert Consecutive(tables, events, grace, skew, 0, 2, "k");
    }
  }

  // ---- revocation over whole runs -------------------------------------------

  datatype TokenEvent =
    | Revoke(jti: string, expiresAt: int)
    | PruneRevoked(now: int, gone: set<string>)

  ghost predicate TokenStep(rows: Rows, e: TokenEvent, rows': Rows, grace: nat)
  {
    match e
    case Revoke(jti, expiresAt) => rows' == if jti in rows then rows else rows[jti := expiresAt]
    case PruneRevoked(now, gone) => gone <= Before(rows, now - grace).Keys && rows' == rows - gone
  }

  ghost predicate TokenRun(tables: seq<Rows>, events: seq<TokenEvent>, grace: nat)
  {
    && |tables| == |events| + 1
    && forall i :: 0 <= i < |events| ==> TokenStep(tables[i], events[i], tables[i + 1], grace)
  }

  /** A denial on record stands until a prune reads a time past its expiry and grace. */
  lemma {:induction false} DenialStands(tables: seq<Rows>, events: seq<TokenEvent>, grace: nat, m: nat, n: nat, jti: string)
    requires TokenRun(tables, events, grace) && m <= n < |tables| && jti in tables[m]
    requires forall p :: m <= p < n && events[p].PruneRevoked? ==> events[p].now <= tables[m][jti] + grace
    ensures jti in tables[n] && tables[n][jti] == tables[m][jti]
    decreases n
  {
    if m < n {
      DenialStands(tables, events, grace, m, n - 1, jti);
      assert TokenStep(tables[n - 1], events[n - 1], tables[n], grace);
    }
  }

  /** The expiry is a function of the token: every revocation of it, and any row it
      already had, says the same. */
  ghost predicate OneExpiry(tables: seq<Rows>, events: seq<TokenEvent>, jti: string, expiry: int)
    requires |tables| > 0
  {
    && (jti in tables[0] ==> tables[0][jti] == expiry)
    && forall i :: 0 <= i < |events| && events[i].Revoke? && events[i].jti == jti ==> events[i].expiresAt == expiry
  }

  lemma {:induction false} RecordedExpiry(tables: seq<Rows>, events: seq<TokenEvent>, grace: nat, n: nat, jti: string, expiry: int)
    requires TokenRun(tables, events, grace) && n < |tables| && OneExpiry(tables, events, jti, expiry)
    ensures jti in tables[n] ==> tables[n][jti] == expiry
    decreases n
  {
    if n > 0 {
      RecordedExpiry(tables, events, grace, n - 1, jti, expiry);
      assert TokenStep(tables[n - 1], events[n - 1], tables[n], grace);
    }
  }

  /** A revoked token stays denied, under any other revocations and any self-prunes,
      until some prune's clock has passed its expiry plus the grace. */
  lemma RevokedStaysDenied(tables: seq<Rows>, events: seq<TokenEvent>, grace: nat, i: nat, n: nat, jti: string, expiry: int)
    requires TokenRun(tables, events, grace) && i < n < |tables| && OneExpiry(tables, events, jti, expiry)
    requires events[i].Revoke? && events[i].jti == jti
    requires forall p :: i < p < n && events[p].PruneRevoked? ==> events[p].now <= expiry + grace
    ensures jti in tables[n]
  {
    assert TokenStep(tables[i], events[i], tables[i + 1], grace);
    RecordedExpiry(tables, events, grace, i + 1, jti, expiry);
    DenialStands(tables, events, grace, i + 1, n, jti);
  }

  /** With two expiries for one token the first on record decides: a later revocation to
      a later time does not extend the denial. */
  lemma FirstExpiryDecides(grace: nat, jti: string, sooner: int, later: int) returns (tables: seq<Rows>, events: seq<TokenEvent>)
    requires sooner < later
    ensures TokenRun(tables, events, grace) && |events| == 3
    ensures events[0] == Revoke(jti, sooner) && events[1] == Revoke(jti, later)
    ensures events[2].PruneRevoked? && events[2].now <= later + grace && jti !in tables[3]
  {
    var now := sooner + grace + 1;
    events := [Revoke(jti, sooner), Revoke(jti, later), PruneRevoked(now, {jti})];
    tables := [map[], map[jti := sooner], map[jti := sooner], map[]];
    assert tables[1] == tables[0][jti := sooner] && tables[3] == tables[2] - {jti};
    assert jti in Before(tables[2], now - grace);
  }

  // ---- the slot under concurrency -------------------------------------------

  /** Callers between their load and their compare-and-swap: the time read, the value
      loaded. wins lists the winners' times in order. */
  datatype Slots = Slots(next: int, pending: map<nat, (int, int)>, wins: seq<int>)

  datatype SlotEvent = Load(caller: nat, now: int) | Swap(caller: nat)

  ghost predicate SlotStep(s: Slots, e: SlotEvent, s': Slots, interval: nat)
  {
    match e
    case Load(c, now) =>
      c !in s.pending && s' == if now < s.next then s else s.(pending := s.pending[c := (now, s.next)])
    case Swap(c) =>
      c in s.pending &&
      var (now, loaded) := s.pending[c];
      s' == if s.next == loaded then Slots(now + interval, s.pending - {c}, s.wins + [now]) else s.(pending := s.pending - {c})
  }

  ghost predicate SlotRun(states: seq<Slots>, events: seq<SlotEvent>, interval: nat)
  {
    && |states| == |events| + 1 && states[0] == Slots(0, map[], [])
    && forall i :: 0 <= i < |events| ==> SlotStep(states[i], events[i], states[i + 1], interval)
  }

  ghost predicate SlotInv(s: Slots, interval: nat)
  {
    && (forall c :: c in s.pending ==> s.pending[c].0 >= s.pending[c].1)
    && (forall k :: 0 <= k < |s.wins| ==> s.wins[k] + interval <= s.next)
    && (forall j, k :: 0 <= j < k < |s.wins| ==> s.wins[j] + interval <= s.wins[k])
  }

  /** Any two callers that win a prune slot of one repository read times at least one
      interval apart, however their loads and swaps interleave. */
  lemma {:induction false} SlotWinnersApart(states: seq<Slots>, events: seq<SlotEvent>, interval: nat, n: nat)
    requires SlotRun(states, events, interval) && n < |states|
    ensures forall j, k :: 0 <= j < k < |states[n].wins| ==> states[n].wins[j] + interval <= states[n].wins[k]
    ensures SlotInv(states[n], interval)
    decreases n
  {
    if n > 0 {
      SlotWinnersApart(states, events, interval, n - 1);
      var s, s' := states[n - 1], states[n];
      assert SlotStep(s, events[n - 1], s', interval);
    }
  }
}
