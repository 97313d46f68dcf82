/** Any number of logins at once: each call's statements interleave with every other
    call's, and with accounts being provisioned and deleted. */
module FirstLoginRace {
  import opened Common
  import opened FirstLogin

  type CallId = nat

  /** Where a call is between its statements, with what it has read so far. */
  datatype Pc =
    | Start
    | Refresh(id: Id, row: User)   // found by subject, row to write back
    | MissedSub
    | Linkable(id: Id)             // found by address, unlinked, verified
    | LostLink(id: Id)             // the compare-and-set found it taken
    | Creating
    | Conflicted                   // the insert did nothing
    | Returned(id: Id, row: User)
    | Refused

  datatype Call = Call(sub: string, email: string, name: string, verified: bool, pc: Pc)

  datatype State = State(db: Db, calls: map<CallId, Call>)

  datatype Event =
    | Begin(c: CallId, sub: string, email: string, name: string, verified: bool)
    | Advance(c: CallId, found: Option<Id>)
    | Fail(c: CallId)
    | Provision(id: Id, row: User)
    | Remove(id: Id)

  function Target(call: Call): User
  {
    User(call.email, call.name, Some(call.sub))
  }

  /** One statement of a call and the decision made on its result. found is what the
      statement read, or the id minted for an insert. */
  ghost predicate Statement(db: Db, call: Call, found: Option<Id>, db': Db, pc': Pc)
  {
    match call.pc
    case Start =>
      && db' == db && FoundBySub(db.users, call.sub, found)
      && pc' == (match found
                 case None => MissedSub
                 case Some(id) =>
                   var row := db.users[id];
                   if row.email == call.email && row.name == call.name then Returned(id, row)
                   else Refresh(id, row.(email := call.email, name := call.name)))
    case Refresh(id, row) =>
      (match UpdateUser(db.users, id, row)
       case None => db' == db && pc' == Refused
       case Some(users) => db' == Wrote(db, users) && pc' == Returned(id, row))
    case MissedSub =>
      && db' == db && FoundByEmail(db.users, call.email, found)
      && pc' == (match found
                 case None => if call.verified then Creating else Refused
                 case Some(id) =>
                   if db.users[id].sub.Some? && db.users[id].sub != Some(call.sub) then Refused
                   else if call.verified then Linkable(id) else Refused)
    case Linkable(id) =>
      if !Unlinked(db.users, id) then db' == db && pc' == LostLink(id)
      else if Clashes(db.users, id, Target(call)) then db' == db && pc' == Refused
      else db' == Wrote(db, db.users[id := Target(call)]) && pc' == Returned(id, Target(call))
    case LostLink(id) =>
      && db' == db
      && pc' == (if id !in db.users || (db.users[id].sub.Some? && db.users[id].sub != Some(call.sub)) then Refused
                 else Returned(id, db.users[id]))
    case Creating =>
      found.Some? && found.value !in db.used &&
      if Clashes(db.users, found.value, Target(call)) then db' == db && pc' == Conflicted
      else db' == Wrote(db, db.users[found.value := Target(call)]) && pc' == Returned(found.value, Target(call))
    case Conflicted =>
      && db' == db && FoundBySub(db.users, call.sub, found)
      && pc' == (match found case None => Refused case Some(id) => Returned(id, db.users[id]))
    case _ => false
  }

  ghost predicate Step(s: State, e: Event, s': State)
  {
    match e
    case Begin(c, sub, email, name, verified) =>
      c !in s.calls && s' == s.(calls := s.calls[c := Call(sub, email, name, verified, Start)])
    case Advance(c, found) =>
      && c in s.calls && c in s'.calls
      && s'.calls == s.calls[c := s.calls[c].(pc := s'.calls[c].pc)]
      && Statement(s.db, s.calls[c], found, s'.db, s'.calls[c].pc)
    case Fail(c) =>
      && c in s.calls && !s.calls[c].pc.Returned?
      && s' == s.(calls := s.calls[c := s.calls[c].(pc := Refused)])
    case Provision(id, row) =>
      id !in s.db.used && !Clashes(s.db.users, id, row) && s' == s.(db := Wrote(s.db, s.db.users[id := row]))
    case Remove(id) => s' == s.(db := s.db.(users := s.db.users - {id}))
  }

  /** What a call may rely on however long it is kept waiting. */
  ghost predicate CallInv(db: Db, call: Call)
  {
    match call.pc
    case Refresh(id, row) => row == Target(call) && id in db.bound && db.bound[id] == call.sub
    case Linkable(id) => call.verified && id in db.used
    case LostLink(id) => id in db.used && (id in db.users ==> id in db.bound)
    case Creating => call.verified
    case Returned(id, row) => row.sub == Some(call.sub) && id in db.bound && db.bound[id] == call.sub
    case _ => true
  }

  ghost predicate Inv(s: State)
  {
    Sound(s.db) && forall c :: c in s.calls ==> CallInv(s.db, s.calls[c])
  }

  lemma CallInvStands(db: Db, db': Db, call: Call)
    requires Evolves(db, db') && CallInv(db, call)
    ensures CallInv(db', call)
  {
  }

  /** Every statement of every call keeps what the others rely on. */
  lemma StatementKeeps(db: Db, call: Call, found: Option<Id>, db': Db, pc': Pc)
    requires Sound(db) && CallInv(db, call) && Statement(db, call, found, db', pc')
    ensures Evolves(db, db') && CallInv(db', call.(pc := pc'))
    ensures pc'.Returned? ==> pc'.id in db'.users && db'.users[pc'.id] == pc'.row
    // Unless another call won the race for it, the row says what this login says of its user.
    ensures pc'.Returned? && !call.pc.LostLink? && !call.pc.Conflicted? ==> pc'.row == Target(call)
    ensures forall id :: id in db'.bound && id !in db.bound ==>
              call.verified && db'.bound[id] == call.sub && id in db'.users && db'.users[id] == Target(call)
  {
    match call.pc
    case Refresh(id, row) =>
      if id in db.users && !Clashes(db.users, id, row) { BindingEvolves(db, id, row); }
    case Linkable(id) =>
      if Unlinked(db.users, id) && !Clashes(db.users, id, Target(call)) { BindingEvolves(db, id, Target(call)); }
    case Creating =>
      if !Clashes(db.users, found.value, Target(call)) { BindingEvolves(db, found.value, Target(call)); }
    case _ =>
  }

  /** What a statement that ends a call in a refusal has just found, on the rows themselves.
      Nothing else refuses: a verified first login with a free or unlinked address, a
      returning user whose address is free, and the loser of a race whose winner is still
      there all go on. */
  lemma RefusalMeans(db: Db, call: Call, found: Option<Id>, db': Db, pc': Pc)
    requires Sound(db) && CallInv(db, call) && Statement(db, call, found, db', pc')
    ensures pc'.Refused? ==> db' == db
    ensures pc'.Refused? <==>
              match call.pc
              case Refresh(id, row) => id !in db.users || exists o :: o in db.users && o != id && db.users[o].email == row.email
              case MissedSub =>
                !call.verified || exists o :: o in db.users && db.users[o].email == call.email && db.users[o].sub !in {None, Some(call.sub)}
              case Linkable(id) =>
                && id in db.users && db.users[id].sub.None?
                && exists o :: o in db.users && o != id && (db.users[o].email == call.email || db.users[o].sub == Some(call.sub))
              case LostLink(id) => id !in db.users || db.users[id].sub != Some(call.sub)
              case Conflicted => forall o :: o in db.users ==> db.users[o].sub != Some(call.sub)
              case _ => false
  {
    match call.pc
    case Refresh(id, row) =>
      if id in db.users { assert db.users[id].sub == row.sub; }
    case MissedSub =>
      if o :| o in db.users && db.users[o].email == call.email && db.users[o].sub !in {None, Some(call.sub)} {
        assert found == Some(o);
      }
    case LostLink(id) =>
    case _ =>
  }

  lemma RemoveEvolves(db: Db, id: Id)
    requires Sound(db)
    ensures Evolves(db, db.(users := db.users - {id}))
  {
    var users := db.users - {id};
    forall o | o in users ensures o in db.users && users[o] == db.users[o] { }
  }

  lemma StepKeepsInv(s: State, e: Event, s': State)
    requires Inv(s) && Step(s, e, s')
    ensures Inv(s') && Evolves(s.db, s'.db)
  {
    match e
    case Begin(_, _, _, _, _) =>
    case Advance(c, found) => StatementKeeps(s.db, s.calls[c], found, s'.db, s'.calls[c].pc);
    case Fail(_) =>
    case Provision(id, row) => BindingEvolves(s.db, id, row);
    case Remove(id) => RemoveEvolves(s.db, id);
    forall c | c in s'.calls ensures CallInv(s'.db, s'.calls[c]) {
      if c in s.calls { CallInvStands(s.db, s'.db, s.calls[c]); }
    }
  }

  ghost predicate Run(states: seq<State>, events: seq<Event>)
  {
    && |states| == |events| + 1 && states[0] == State(Db(map[], {}, map[]), map[])
    && forall i :: 0 <= i < |events| ==> Step(states[i], events[i], states[i + 1])
  }

  lemma {:induction false} RunKeepsInv(states: seq<State>, events: seq<Event>, n: nat)
    requires Run(states, events) && n < |states|
    ensures Inv(states[n])
    decreases n
  {
    if n > 0 {
      RunKeepsInv(states, events, n - 1);
      StepKeepsInv(states[n - 1], events[n - 1], states[n]);
    }
  }

  lemma {:induction false} BindingsLast(states: seq<State>, events: seq<Event>, m: nat, n: nat, id: Id)
    requires Run(states, events) && m <= n < |states| && id in states[m].db.bound
    ensures id in states[n].db.bound && states[n].db.bound[id] == states[m].db.bound[id]
    decreases n
  {
    if m < n {
      BindingsLast(states, events, m, n - 1, id);
      RunKeepsInv(states, events, n - 1);
      StepKeepsInv(states[n - 1], events[n - 1], states[n]);
    }
  }

  /** A subject once stored on a row is never changed or cleared, and no two rows ever
      hold one subject or one address. */
  lemma SubjectNeverChanges(states: seq<State>, events: seq<Event>, m: nat, n: nat, id: Id)
    requires Run(states, events) && m <= n < |states|
    requires id in states[m].db.users && states[m].db.users[id].sub.Some? && id in states[n].db.users
    ensures states[n].db.users[id].sub == states[m].db.users[id].sub
    ensures Unique(states[n].db.users)
  {
    RunKeepsInv(states, events, m);
    RunKeepsInv(states, events, n);
    BindingsLast(states, events, m, n, id);
  }

  /** A successful call returns a row that is stored at that moment, under the subject it
      asked for; and that row answers to that subject for as long as it exists. */
  lemma SuccessIsTheRequestedUser(states: seq<State>, events: seq<Event>, k: nat, n: nat, c: CallId)
    requires Run(states, events) && k < |events| && k < n < |states|
    requires events[k].Advance? && events[k].c == c && states[k + 1].calls[c].pc.Returned?
    ensures var call := states[k + 1].calls[c];
            && call.pc.id in states[k + 1].db.users && states[k + 1].db.users[call.pc.id] == call.pc.row
            && call.pc.row.sub == Some(call.sub)
            && (call.pc.id in states[n].db.users ==> states[n].db.users[call.pc.id].sub == Some(call.sub))
  {
    var s, s' := states[k], states[k + 1];
    RunKeepsInv(states, events, k);
    assert Step(s, events[k], s');
    StatementKeeps(s.db, s.calls[c], events[k].found, s'.db, s'.calls[c].pc);
    RunKeepsInv(states, events, n);
    BindingsLast(states, events, k + 1, n, s'.calls[c].pc.id);
  }

  /** Two successful calls for one subject, in any interleaving, return the same account
      unless the first was deleted in between. */
  lemma SameSubjectSameAccount(states: seq<State>, events: seq<Event>, j: nat, k: nat, c: CallId, d: CallId)
    requires Run(states, events) && j < k < |events|
    requires events[j].Advance? && events[j].c == c && states[j + 1].calls[c].pc.Returned?
    requires events[k].Advance? && events[k].c == d && states[k + 1].calls[d].pc.Returned?
    requires states[j + 1].calls[c].sub == states[k + 1].calls[d].sub
    requires states[j + 1].calls[c].pc.id in states[k + 1].db.users
    ensures states[j + 1].calls[c].pc.id == states[k + 1].calls[d].pc.id
  {
    SuccessIsTheRequestedUser(states, events, j, k + 1, c);
    SuccessIsTheRequestedUser(states, events, k, k + 1, d);
    RunKeepsInv(states, events, k + 1);
  }

  /** A login binds a subject to an account only on a verified address, to its own
      subject, and under that address. */
  lemma NewBindingsAreVerified(states: seq<State>, events: seq<Event>, k: nat, id: Id)
    requires Run(states, events) && k < |events| && !events[k].Provision?
    requires id in states[k + 1].db.bound && id !in states[k].db.bound
    ensures events[k].Advance? && events[k].c in states[k].calls
    ensures var call := states[k].calls[events[k].c];
            call.verified && states[k + 1].db.bound[id] == call.sub &&
            id in states[k + 1].db.users && states[k + 1].db.users[id].email == call.email
  {
    var s, e, s' := states[k], events[k], states[k + 1];
    RunKeepsInv(states, events, k);
    assert Step(s, e, s');
    if e.Advance? {
      StatementKeeps(s.db, s.calls[e.c], e.found, s'.db, s'.calls[e.c].pc);
    }
  }
}
