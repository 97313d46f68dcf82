/** Readers and writers of the cached organization, interleaved at its lock boundaries. */
module OrgCacheRace {
  import opened Common
  import opened OrgCache

  type Tid = nat

  /** A refill in flight: the generation it saw, how many invalidations there had been,
      and what it read from the database, when. */
  datatype Reader = Reader(gen: nat, begun: nat, read: Option<(Option<Org>, nat)>)

  /** readAt and lastCleared are positions in the run: where the cached row was read, and
      where the last invalidation was. */
  datatype State = State(stored: Option<Org>, cache: Cache, readAt: nat, readers: map<Tid, Reader>,
                         dirty: set<Tid>, invalidations: nat, lastCleared: nat, time: nat)

  datatype Event =
    | Hit(now: int, org: Org)
    | Miss(t: Tid, now: int)
    | Read(t: Tid)
    | Commit(t: Tid, now: int)
    | Abandon(t: Tid)
    | Write(t: Tid, stored: Option<Org>)
    | Invalidate(t: Tid)

  ghost predicate Step(s: State, e: Event, s': State)
  {
    && s'.time == s.time + 1
    && match e
       case Hit(now, org) => Hits(s.cache, now) && org == s.cache.entry.value && s' == s.(time := s.time + 1)
       case Miss(t, now) =>
         && t !in s.readers && !Hits(s.cache, now)
         && s' == s.(readers := s.readers[t := Reader(s.cache.gen, s.invalidations, None)], time := s.time + 1)
       case Read(t) =>
         && t in s.readers && s.readers[t].read.None?
         && s' == s.(readers := s.readers[t := s.readers[t].(read := Some((s.stored, s.time)))], time := s.time + 1)
       case Commit(t, now) =>
         && t in s.readers && s.readers[t].read.Some? && s.readers[t].read.value.0.Some?
         && s' == Committed(s, t, now).(time := s.time + 1)
       case Abandon(t) => t in s.readers && s' == s.(readers := s.readers - {t}, time := s.time + 1)
       // A write is one statement; its invalidation follows, some time later.
       case Write(t, stored) => t !in s.dirty && s' == s.(stored := stored, dirty := s.dirty + {t}, time := s.time + 1)
       case Invalidate(t) =>
         && t in s.dirty
         && s' == s.(cache := Invalidated(s.cache), dirty := s.dirty - {t}, invalidations := s.invalidations + 1,
                     lastCleared := s.time, time := s.time + 1)
  }

  function Committed(s: State, t: Tid, now: int): State
    requires t in s.readers && s.readers[t].read.Some? && s.readers[t].read.value.0.Some?
  {
    var (org, at) := s.readers[t].read.value;
    s.(cache := Refilled(s.cache, s.readers[t].gen, org.value, now),
       readAt := if s.cache.gen == s.readers[t].gen then at else s.readAt,
       readers := s.readers - {t})
  }

  /** No refill stays in flight while the 64-bit generation goes all the way round. */
  ghost predicate NoLap(s: State)
  {
    forall t :: t in s.readers ==> s.invalidations - s.readers[t].begun < GENERATIONS
  }

  ghost predicate Run(states: seq<State>, events: seq<Event>)
  {
    && |states| == |events| + 1
    && (exists stored :: states[0] == State(stored, Cache(None, 0, 0), 0, map[], {}, 0, 0, 0))
    && (forall i :: 0 <= i < |events| ==> Step(states[i], events[i], states[i + 1]))
    && (forall i :: 0 <= i < |states| ==> NoLap(states[i]))
  }

  ghost predicate ReaderInv(s: State, r: Reader)
  {
    && r.begun <= s.invalidations
    && r.gen == r.begun % GENERATIONS
    && (r.read.Some? ==> r.read.value.1 < s.time && (r.begun == s.invalidations && s.invalidations > 0 ==> r.read.value.1 > s.lastCleared))
  }

  ghost predicate Inv(s: State)
  {
    && s.cache.gen == s.invalidations % GENERATIONS
    && (s.invalidations > 0 ==> s.lastCleared < s.time)
    && (forall t :: t in s.readers ==> ReaderInv(s, s.readers[t]))
    && (s.cache.entry.Some? ==> s.readAt < s.time && (s.invalidations > 0 ==> s.readAt > s.lastCleared))
  }

  /** Equal generations mean no invalidation in between, short of a full lap. */
  lemma SameGeneration(begun: nat, invalidations: nat)
    requires begun <= invalidations
    ensures begun % GENERATIONS == invalidations % GENERATIONS <==> (invalidations - begun) % GENERATIONS == 0
    ensures invalidations - begun < GENERATIONS ==>
              (begun % GENERATIONS == invalidations % GENERATIONS <==> begun == invalidations)
  {
    var d := invalidations - begun;
    var qb, rb := begun / GENERATIONS, begun % GENERATIONS;
    var qd, rd := d / GENERATIONS, d % GENERATIONS;
    assert invalidations == (qb + qd) * GENERATIONS + (rb + rd);
    if rb + rd < GENERATIONS {
      Remainder(invalidations, qb + qd, rb + rd);
    } else {
      Remainder(invalidations, qb + qd + 1, rb + rd - GENERATIONS);
    }
  }

  lemma Remainder(n: nat, q: nat, r: nat)
    requires n == q * GENERATIONS + r && r < GENERATIONS
    ensures n % GENERATIONS == r
  {
    var k := n / GENERATIONS - q;
    assert k * GENERATIONS == r - n % GENERATIONS;
  }

  lemma NextGeneration(n: nat)
    ensures (n % GENERATIONS + 1) % GENERATIONS == (n + 1) % GENERATIONS
  {
  }

  lemma StepKeepsInv(s: State, e: Event, s': State)
    requires Inv(s) && NoLap(s) && Step(s, e, s')
    ensures Inv(s')
  {
    match e
    case Commit(t, now) =>
      assert ReaderInv(s, s.readers[t]);
      SameGeneration(s.readers[t].begun, s.invalidations);
    case Invalidate(_) =>
      NextGeneration(s.invalidations);
    case _ =>
    forall t | t in s'.readers ensures ReaderInv(s', s'.readers[t]) {
      if t in s.readers { assert ReaderInv(s, s.readers[t]); }
    }
  }

  lemma {:induction false} RunKeepsInv(states: seq<State>, events: seq<Event>, n: nat)
    requires Run(states, events) && n < |states|
    ensures Inv(states[n]) && states[n].time == n
    decreases n
  {
    if n > 0 {
      RunKeepsInv(states, events, n - 1);
      assert NoLap(states[n - 1]);
      StepKeepsInv(states[n - 1], events[n - 1], states[n]);
    }
  }

  /** Whatever is cached was read from the database after the most recent invalidation. */
  lemma CachedIsFresherThanInvalidation(states: seq<State>, events: seq<Event>, n: nat, i: nat, t: Tid)
    requires Run(states, events) && i < n < |states| && events[i] == Invalidate(t)
    requires states[n].cache.entry.Some?
    ensures i < states[n].readAt < n
  {
    RunKeepsInv(states, events, n);
    ClearedSince(states, events, i, n);
  }

  lemma {:induction false} ClearedSince(states: seq<State>, events: seq<Event>, i: nat, n: nat)
    requires Run(states, events) && i < n < |states| && events[i].Invalidate?
    ensures states[n].invalidations > 0 && states[n].lastCleared >= i
    decreases n
  {
    RunKeepsInv(states, events, n - 1);
    assert Step(states[n - 1], events[n - 1], states[n]);
    if i < n - 1 {
      ClearedSince(states, events, i, n - 1);
    }
  }

  // ---- what a hit can return -----------------------------------------------

  ghost predicate WasStored(states: seq<State>, at: nat, org: Option<Org>)
  {
    at < |states| && states[at].stored == org
  }

  /** The cached row and every row in flight were in the database when they were read. */
  ghost predicate Genuine(states: seq<State>, n: nat)
    requires n < |states|
  {
    var s := states[n];
    && (s.cache.entry.Some? ==> s.readAt < n && WasStored(states, s.readAt, s.cache.entry))
    && (forall t :: t in s.readers && s.readers[t].read.Some? ==>
          s.readers[t].read.value.1 < n && WasStored(states, s.readers[t].read.value.1, s.readers[t].read.value.0))
  }

  lemma {:induction false} RunIsGenuine(states: seq<State>, events: seq<Event>, n: nat)
    requires Run(states, events) && n < |states|
    ensures Genuine(states, n)
    decreases n
  {
    if n > 0 {
      RunIsGenuine(states, events, n - 1);
      RunKeepsInv(states, events, n - 1);
      assert Step(states[n - 1], events[n - 1], states[n]);
    }
  }

  /** Once a write has invalidated, a cache hit returns a row that was in the database
      after that write: never the one it replaced. */
  lemma NoHitBeforeTheWrite(states: seq<State>, events: seq<Event>, w: nat, i: nat, h: nat, t: Tid)
    requires Run(states, events) && w < i < h < |events|
    requires events[w].Write? && events[w].t == t && events[i] == Invalidate(t) && events[h].Hit?
    ensures exists k :: w < k < h && states[k].stored == Some(events[h].org)
  {
    assert Step(states[h], events[h], states[h + 1]);
    CachedIsFresherThanInvalidation(states, events, h, i, t);
    RunIsGenuine(states, events, h);
  }

  /** In particular, with no later write, it returns exactly what was written. */
  lemma {:induction false} StoredStands(states: seq<State>, events: seq<Event>, w: nat, k: nat)
    requires Run(states, events) && w < k < |states| && events[w].Write?
    requires forall j :: w < j < k ==> !events[j].Write?
    ensures states[k].stored == events[w].stored
    decreases k
  {
    assert Step(states[k - 1], events[k - 1], states[k]);
    if w < k - 1 {
      StoredStands(states, events, w, k - 1);
    }
  }

  lemma HitReturnsTheLastWrite(states: seq<State>, events: seq<Event>, w: nat, i: nat, h: nat, t: Tid)
    requires Run(states, events) && w < i < h < |events|
    requires events[w].Write? && events[w].t == t && events[i] == Invalidate(t) && events[h].Hit?
    requires forall j :: w < j < h ==> !events[j].Write?
    ensures events[w].stored == Some(events[h].org)
  {
    NoHitBeforeTheWrite(states, events, w, i, h, t);
    var k :| w < k < h && states[k].stored == Some(events[h].org);
    StoredStands(states, events, w, k);
  }
}
