/** First and returning OIDC logins over the users table: single statements without a
    transaction around them, other sessions free to act between any two. */
module FirstLogin {
  import opened Common

  type Id = string

  /** oidc_sub is unique among the rows that have one; email among all of them. */
  datatype User = User(email: string, name: string, sub: Option<string>)

  type Users = map<Id, User>

  /** The table, every id it has ever held, and the first subject each id was bound to. */
  datatype Db = Db(users: Users, used: set<Id>, bound: map<Id, string>)

  // ---- statements -----------------------------------------------------------

  predicate FoundBySub(users: Users, sub: string, found: Option<Id>)
  {
    match found
    case None => forall id :: id in users ==> users[id].sub != Some(sub)
    case Some(id) => id in users && users[id].sub == Some(sub)
  }

  predicate FoundByEmail(users: Users, email: string, found: Option<Id>)
  {
    match found
    case None => forall id :: id in users ==> users[id].email != email
    case Some(id) => id in users && users[id].email == email
  }

  /** Writing the row would break a unique constraint. */
  predicate Clashes(users: Users, id: Id, row: User)
  {
    exists o :: o in users && o != id && (users[o].email == row.email || (row.sub.Some? && users[o].sub == row.sub))
  }

  /** UPDATE users SET email, name, oidc_sub WHERE id, writing back the subject read. */
  function UpdateUser(users: Users, id: Id, row: User): Option<Users>
  {
    if id !in users || Clashes(users, id, row) then None else Some(users[id := row])
  }

  /** The compare-and-set is open: the row is there and has no subject. */
  predicate Unlinked(users: Users, id: Id)
  {
    id in users && users[id].sub.None?
  }

  /** Remembers the subject of every row that has one. */
  function Remember(users: Users, bound: map<Id, string>): map<Id, string>
  {
    map id | id in bound.Keys + users.Keys && (id in bound || users[id].sub.Some?) :: if id in bound then bound[id] else users[id].sub.value
  }

  function Wrote(db: Db, users: Users): Db
  {
    Db(users, db.used + users.Keys, Remember(users, db.bound))
  }

  // ---- what everyone keeps --------------------------------------------------

  predicate Unique(users: Users)
  {
    && (forall a, b :: a in users && b in users && users[a].email == users[b].email ==> a == b)
    && (forall a, b :: a in users && b in users && users[a].sub.Some? && users[a].sub == users[b].sub ==> a == b)
  }

  /** A row's subject is the first it was ever given: never changed, never cleared. */
  predicate Consistent(db: Db)
  {
    && db.users.Keys <= db.used && db.bound.Keys <= db.used
    && (forall id :: id in db.users ==> db.users[id].sub == if id in db.bound then Some(db.bound[id]) else None)
  }

  predicate Sound(db: Db)
  {
    Unique(db.users) && Consistent(db)
  }

  /** What any session may do to the table while others run. */
  predicate Evolves(db: Db, db': Db)
  {
    && Sound(db') && db.used <= db'.used
    && (forall id :: id in db.bound ==> id in db'.bound && db'.bound[id] == db.bound[id])
    && (forall id :: id in db.used && id !in db.users ==> id !in db'.users)
  }

  lemma UniqueAfterWrite(users: Users, id: Id, row: User)
    requires Unique(users) && !Clashes(users, id, row)
    ensures Unique(users[id := row])
  {
    var users' := users[id := row];
    forall o | o in users && o != id ensures users'[o] == users[o] && users[o].email != row.email {
    }
  }

  lemma ConsistentAfterWrite(db: Db, id: Id, row: User)
    requires Consistent(db)
    requires id in db.bound ==> row.sub == Some(db.bound[id])
    ensures Consistent(Wrote(db, db.users[id := row]))
    ensures Wrote(db, db.users[id := row]).bound == if row.sub.Some? then db.bound[id := row.sub.value] else db.bound
  {
    var users := db.users[id := row];
    var bound := Remember(users, db.bound);
    forall o | o in db.users && o != id ensures users[o].sub.Some? <==> o in db.bound {
      assert users[o] == db.users[o];
    }
    assert bound == if row.sub.Some? then db.bound[id := row.sub.value] else db.bound;
  }

  /** Binding a row that is new, free, or already bound to the same subject. */
  lemma BindingEvolves(db: Db, id: Id, row: User)
    requires Sound(db) && !Clashes(db.users, id, row)
    requires id in db.users || id !in db.used
    requires id in db.bound ==> row.sub == Some(db.bound[id])
    ensures Evolves(db, Wrote(db, db.users[id := row]))
    ensures row.sub.Some? ==> Wrote(db, db.users[id := row]).bound == db.bound[id := row.sub.value]
  {
    UniqueAfterWrite(db.users, id, row);
    ConsistentAfterWrite(db, id, row);
  }

  // ---- the call -------------------------------------------------------------

  datatype Login =
    | LoggedIn(id: Id, row: User)
    | AlreadyLinked | Unverified | Vanished | NotFound | Database

  class UserRepository {
    var db: Db

    constructor ()
      ensures db == Db(map[], {}, map[])
    {
      db := Db(map[], {}, map[]);
    }

    /** Other sessions, between two statements of this one. */
    method Others(next: Option<Db>, minted: Id)
      requires Sound(db) && minted !in db.used
      modifies this
      ensures Evolves(old(db), db) && minted !in db.used
      ensures next.None? ==> db == old(db)
      ensures next.Some? && Evolves(old(db), next.value) && minted !in next.value.used ==> db == next.value
    {
      if next.Some? && Evolves(db, next.value) && minted !in next.value.used {
        db := next.value;
      }
    }

    method GetUserByOIDCSub(sub: string) returns (found: Option<Id>)
      ensures FoundBySub(db.users, sub, found)
    {
      if id :| id in db.users && db.users[id].sub == Some(sub) { return Some(id); }
      found := None;
    }

    method GetUserByEmail(email: string) returns (found: Option<Id>)
      ensures FoundByEmail(db.users, email, found)
    {
      if id :| id in db.users && db.users[id].email == email { return Some(id); }
      found := None;
    }

    /** UPDATE ... WHERE id AND oidc_sub IS NULL: true only for the call that won. */
    method LinkOIDCIdentity(id: Id, row: User) returns (linked: bool, violated: bool)
      requires Sound(db) && row.sub.Some? && id in db.used
      modifies this
      ensures linked == (Unlinked(old(db.users), id) && !Clashes(old(db.users), id, row))
      ensures violated == (Unlinked(old(db.users), id) && Clashes(old(db.users), id, row))
      ensures db == if linked then Wrote(old(db), old(db.users)[id := row]) else old(db)
      ensures Evolves(old(db), db)
      ensures linked ==> db.bound == old(db.bound)[id := row.sub.value]
    {
      if !Unlinked(db.users, id) { return false, false; }
      if Clashes(db.users, id, row) { return false, true; }
      BindingEvolves(db, id, row);
      db := Wrote(db, db.users[id := row]);
      linked, violated := true, false;
    }

    /** The whole call. The others may act before each of its statements; minted is the
        id it would create under. */
    method GetOrCreateUserFromOIDC(sub: string, email: string, name: string, verified: bool, minted: Id,
                                   next: nat -> Option<Db>, fails: nat -> bool) returns (r: Login)
      requires Sound(db) && minted !in db.used
      modifies this
      ensures Evolves(old(db), db)
      // Success is the stored row, and it carries the subject asked for.
      ensures r.LoggedIn? ==> r.id in db.users && db.users[r.id] == r.row && r.row.sub == Some(sub)
      // Left alone, it succeeds exactly for a returning user, or for a verified one with
      // no account or an unlinked account under that address.
      ensures (forall k :: next(k).None? && !fails(k)) ==>
                (r.LoggedIn? <==> SucceedsAlone(old(db.users), sub, email, name, verified))
      ensures (forall k :: next(k).None? && !fails(k)) && r.LoggedIn? ==>
                r.row == User(email, name, Some(sub)) && db.users == old(db.users)[r.id := r.row]
      ensures (forall k :: next(k).None?) && !r.LoggedIn? ==> db == old(db)
      // And otherwise it says why: the address belongs to another account of a returning
      // user's, is linked to another subject, or is not verified.
      ensures (forall k :: next(k).None? && !fails(k)) && !r.LoggedIn? ==>
                r == if exists id :: id in old(db.users) && old(db.users)[id].sub == Some(sub) then Database
                     else if exists id :: id in old(db.users) && old(db.users)[id].email == email && old(db.users)[id].sub.Some?
                          then AlreadyLinked else Unverified
      // Whatever the others do, only a failed statement or a taken address is reported as the
      // database's failure, and a verified login is never called unverified.
      ensures r.Unverified? ==> !verified
      ensures fails(0) ==> r == Database
      ensures fails(1) ==> r.Database? || (r.LoggedIn? && r.row == User(email, name, Some(sub)))
      ensures r.Database? && (forall k :: !fails(k)) ==>
                exists o :: o in db.users && (db.users[o].email == email || db.users[o].sub == Some(sub))
    {
      Others(next(0), minted);
      if fails(0) { return Database; }
      var bySub := GetUserByOIDCSub(sub);
      if bySub.Some? {
        var id := bySub.value;
        var user := db.users[id];
        ReturningSucceeds(db.users, id, sub, email, name, verified);
        if user.email == email && user.name == name { return LoggedIn(id, user); }
        r := Refresh(id, user.(email := email, name := name), minted, next, fails);
        return;
      }
      r := FirstTime(sub, email, name, verified, minted, next, fails);
    }

    /** The other half, when no row has the subject: link the account under the address, or
        create one. Either binds an address to the subject and wants it verified. */
    method FirstTime(sub: string, email: string, name: string, verified: bool, minted: Id,
                     next: nat -> Option<Db>, fails: nat -> bool) returns (r: Login)
      requires Sound(db) && minted !in db.used
      modifies this
      ensures Evolves(old(db), db)
      ensures r.LoggedIn? ==> r.id in db.users && db.users[r.id] == r.row && r.row.sub == Some(sub)
      ensures (forall k :: next(k).None? && !fails(k)) && (forall id :: id in old(db.users) ==> old(db.users)[id].sub != Some(sub)) ==>
                && (r.LoggedIn? <==> verified && forall id :: id in old(db.users) && old(db.users)[id].email == email ==> old(db.users)[id].sub.None?)
                && (r.LoggedIn? ==> r.row == User(email, name, Some(sub)) && db.users == old(db.users)[r.id := r.row])
                && (!r.LoggedIn? ==>
                      r == if exists id :: id in old(db.users) && old(db.users)[id].email == email && old(db.users)[id].sub.Some?
                           then AlreadyLinked else Unverified)
      ensures (forall k :: next(k).None?) && !r.LoggedIn? ==> db == old(db)
      ensures r.Unverified? ==> !verified
      ensures fails(1) ==> r == Database
      ensures r.Database? && (forall k :: !fails(k)) ==>
                exists o :: o in db.users && (db.users[o].email == email || db.users[o].sub == Some(sub))
    {
      Others(next(1), minted);
      if fails(1) { return Database; }
      var byEmail := GetUserByEmail(email);
      if byEmail.Some? {
        var id := byEmail.value;
        var user := db.users[id];
        if user.sub.Some? && user.sub != Some(sub) { return AlreadyLinked; }
        if !verified { return Unverified; }
        r := Link(id, User(email, name, Some(sub)), minted, next, fails);
        return;
      }
      if !verified { return Unverified; }
      r := Create(User(email, name, Some(sub)), minted, next, fails);
    }

    /** Writes back a returning user's address and name, and the subject it was found by. */
    method Refresh(id: Id, edited: User, minted: Id, next: nat -> Option<Db>, fails: nat -> bool) returns (r: Login)
      requires Sound(db) && minted !in db.used && id in db.users && edited.sub.Some? && db.users[id].sub == edited.sub
      modifies this
      ensures Evolves(old(db), db)
      ensures r.LoggedIn? ==> r.id in db.users && db.users[r.id] == r.row && r.row.sub == edited.sub
      ensures (forall k :: next(k).None? && !fails(k)) ==> (r.LoggedIn? <==> !Clashes(old(db.users), id, edited))
      ensures (forall k :: next(k).None? && !fails(k)) && r.LoggedIn? ==> r == LoggedIn(id, edited) && db.users == old(db.users)[id := edited]
      ensures r in {LoggedIn(id, edited), NotFound, Database} && (fails(1) ==> r == Database)
      ensures !fails(1) ==>
                && (r.NotFound? <==> id !in db.users)
                && (r.Database? ==> exists o :: o in db.users && o != id && db.users[o].email == edited.email)
      ensures (forall k :: next(k).None?) && !r.LoggedIn? ==> db == old(db)
    {
      Others(next(1), minted);
      if fails(1) { return Database; }
      if id !in db.users { return NotFound; }
      if Clashes(db.users, id, edited) {
        // The subject is the row's own, so it is the address that is taken.
        assert db.users[id].sub == edited.sub;
        return Database;
      }
      BindingEvolves(db, id, edited);
      db := Wrote(db, db.users[id := edited]);
      r := LoggedIn(id, edited);
    }

    /** Links a pre-provisioned account, or defers to whoever linked it first. */
    method Link(id: Id, row: User, minted: Id, next: nat -> Option<Db>, fails: nat -> bool) returns (r: Login)
      requires Sound(db) && minted !in db.used && id in db.users && row.sub.Some?
      modifies this
      ensures Evolves(old(db), db)
      ensures r.LoggedIn? ==> r.id in db.users && db.users[r.id] == r.row && r.row.sub == row.sub
      ensures (forall k :: next(k).None? && !fails(k)) && Unlinked(old(db.users), id) ==>
                (r.LoggedIn? <==> !Clashes(old(db.users), id, row))
      ensures (forall k :: next(k).None? && !fails(k)) && Unlinked(old(db.users), id) && r.LoggedIn? ==>
                r == LoggedIn(id, row) && db.users == old(db.users)[id := row]
      ensures (forall k :: next(k).None?) && !r.LoggedIn? ==> db == old(db)
      ensures r.LoggedIn? || r.AlreadyLinked? || r.Vanished? || r.Database?
      ensures fails(2) ==> r == Database
      // Whoever linked first, the answer is read off the row as it ends up.
      ensures !fails(2) && !fails(3) ==>
                && (r.Vanished? <==> id !in db.users)
                && (r.AlreadyLinked? <==> id in db.users && db.users[id].sub.Some? && db.users[id].sub != row.sub)
                && (r.LoggedIn? <==> id in db.users && db.users[id].sub == row.sub)
                && (r.Database? ==> exists o :: o in db.users && o != id && (db.users[o].email == row.email || db.users[o].sub == row.sub))
    {
      Others(next(2), minted);
      if fails(2) { return Database; }
      var linked, violated := LinkOIDCIdentity(id, row);
      if violated { return Database; }
      if linked { return LoggedIn(id, row); }
      // Here the row is bound already or gone for good; both survive what others do.
      Others(next(3), minted);
      if fails(3) { return Database; }
      if id !in db.users { return Vanished; }
      var winner := db.users[id];
      if winner.sub.Some? && winner.sub != row.sub { return AlreadyLinked; }
      r := LoggedIn(id, winner);
    }

    /** INSERT ... ON CONFLICT (oidc_sub) DO NOTHING; a conflict on the address is read
        as the same race. */
    method Create(row: User, minted: Id, next: nat -> Option<Db>, fails: nat -> bool) returns (r: Login)
      requires Sound(db) && minted !in db.used && row.sub.Some?
      modifies this
      ensures Evolves(old(db), db)
      ensures r.LoggedIn? ==> r.id in db.users && db.users[r.id] == r.row && r.row.sub == row.sub
      ensures (forall k :: next(k).None? && !fails(k)) && !Clashes(old(db.users), minted, row) ==>
                r == LoggedIn(minted, row) && db.users == old(db.users)[minted := row]
      ensures (forall k :: next(k).None?) && !r.LoggedIn? ==> db == old(db)
      ensures r.LoggedIn? || r.NotFound? || r.Database?
      ensures fails(2) ==> r == Database
      // The loser of a race gets the winner's row whenever it is there.
      ensures !fails(2) && !fails(3) ==>
                && (r.LoggedIn? <==> exists id :: id in db.users && db.users[id].sub == row.sub)
                && (!r.LoggedIn? ==> r == NotFound)
    {
      Others(next(2), minted);
      if fails(2) { return Database; }
      if !Clashes(db.users, minted, row) {
        BindingEvolves(db, minted, row);
        db := Wrote(db, db.users[minted := row]);
        return LoggedIn(minted, row);
      }
      Others(next(3), minted);
      if fails(3) { return Database; }
      var winner := GetUserByOIDCSub(row.sub.value);
      r := if winner.Some? then LoggedIn(winner.value, db.users[winner.value]) else NotFound;
    }
  }

  /** A returning user is let in unless another account has the address. */
  lemma ReturningSucceeds(users: Users, id: Id, sub: string, email: string, name: string, verified: bool)
    requires Unique(users) && id in users && users[id].sub == Some(sub)
    ensures SucceedsAlone(users, sub, email, name, verified) <==> !Clashes(users, id, users[id].(email := email, name := name))
    ensures users[id].email == email ==> SucceedsAlone(users, sub, email, name, verified)
  {
  }

  /** Decidable before the call: who is let in when nobody else is acting. */
  predicate SucceedsAlone(users: Users, sub: string, email: string, name: string, verified: bool)
  {
    if exists id :: id in users && users[id].sub == Some(sub)
    then exists id :: id in users && users[id].sub == Some(sub) && forall o :: o in users && o != id ==> users[o].email != email
    else verified && forall id :: id in users && users[id].email == email ==> users[id].sub.None?
  }
}
