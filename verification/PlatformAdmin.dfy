/** The platform-administrator carrier as its own code runs it: grant, revoke, and the
    floor predicate that counts administrators instead of rows. */
module PlatformAdmin {
  import opened Common
  import opened Ordering
  import Race = CarrierRace

  datatype Grant = Grant(userId: string, grantedBy: Option<string>, grantedAt: int, note: Option<string>)

  datatype AdminError =
    | NotConfigured | AuditIntentRequired | AlreadyPlatformAdmin | NotPlatformAdmin
    | LastPlatformAdmin | IdentityUnavailable | AuditRefused | Database

  /** What a resolver can say: two answers and a failure, kept apart. */
  datatype Answer = Exists | Missing | Failed

  type Resolver = string -> Answer

  type Predicate = seq<Grant> -> Option<AdminError>

  // ---- the floor -----------------------------------------------------------

  /** The first grant whose user exists settles it; a failed lookup before that aborts. */
  function FloorVerdict(r: Option<Resolver>, remaining: seq<Grant>): Option<AdminError>
  {
    if r.None? then Some(IdentityUnavailable)
    else if |remaining| == 0 then Some(LastPlatformAdmin)
    else
      match r.value(remaining[0].userId)
      case Exists => None
      case Failed => Some(IdentityUnavailable)
      case Missing => FloorVerdict(r, remaining[1..])
  }

  /** Pass, refuse and "ask again later" are three different facts: it passes exactly when
      some grant resolves and every lookup before it was answered, refuses for good exactly
      when every grant is known to be an orphan, and an outage is neither. Without a
      resolver nothing passes. */
  lemma {:induction false} FloorVerdictMeans(r: Resolver, remaining: seq<Grant>)
    ensures FloorVerdict(Some(r), remaining).None? <==>
              exists i :: 0 <= i < |remaining| && r(remaining[i].userId).Exists? &&
                          forall j :: 0 <= j < i ==> !r(remaining[j].userId).Failed?
    ensures FloorVerdict(Some(r), remaining) == Some(LastPlatformAdmin) <==>
              forall i :: 0 <= i < |remaining| ==> r(remaining[i].userId).Missing?
    ensures FloorVerdict(Some(r), remaining) in {None, Some(LastPlatformAdmin), Some(IdentityUnavailable)}
    ensures FloorVerdict(None, remaining) == Some(IdentityUnavailable)
    decreases |remaining|
  {
    if |remaining| > 0 {
      var rest := remaining[1..];
      FloorVerdictMeans(r, rest);
      assert forall i :: 0 < i < |remaining| ==> remaining[i] == rest[i - 1];
      if r(remaining[0].userId).Missing? {
        if FloorVerdict(Some(r), rest).None? {
          var i :| 0 <= i < |rest| && r(rest[i].userId).Exists? && forall j :: 0 <= j < i ==> !r(rest[j].userId).Failed?;
          assert remaining[i + 1] == rest[i];
          assert forall j :: 0 <= j < i + 1 ==> !r(remaining[j].userId).Failed?;
        }
        if i :| 0 <= i < |remaining| && r(remaining[i].userId).Exists? && forall j :: 0 <= j < i ==> !r(remaining[j].userId).Failed? {
          assert rest[i - 1] == remaining[i];
          assert forall j :: 0 <= j < i - 1 ==> rest[j] == remaining[j + 1] && !r(rest[j].userId).Failed?;
        }
        assert forall i :: 0 <= i < |rest| ==> rest[i] == remaining[i + 1];
      }
    }
  }

  /** The shipped predicate, with its memo: the verdict, and no principal looked up twice. */
  method RequireAnotherExercisableAdmin(r: Option<Resolver>, remaining: seq<Grant>)
    returns (error: Option<AdminError>, asked: seq<string>)
    ensures error == FloorVerdict(r, remaining)
    ensures r.None? ==> error == Some(IdentityUnavailable)
    ensures error.None? ==> r.Some? && exists g :: g in remaining && r.value(g.userId).Exists?
    ensures forall i, j :: 0 <= i < j < |asked| ==> asked[i] != asked[j]
    ensures forall u :: u in asked ==> exists k :: 0 <= k < |remaining| && remaining[k].userId == u
  {
    asked := [];
    if r.None? { return Some(IdentityUnavailable), asked; }
    var seen: map<string, bool> := map[];
    var i := 0;
    while i < |remaining|
      invariant 0 <= i <= |remaining|
      invariant FloorVerdict(r, remaining[i..]) == FloorVerdict(r, remaining)
      invariant forall u :: u in seen <==> u in asked
      invariant forall u :: u in seen ==> !seen[u] && r.value(u).Missing?
      invariant forall i, j :: 0 <= i < j < |asked| ==> asked[i] != asked[j]
      invariant forall u :: u in asked ==> exists k :: 0 <= k < |remaining| && remaining[k].userId == u
    {
      var g := remaining[i];
      assert remaining[i..][0] == g && remaining[i..][1..] == remaining[i + 1..];
      i := i + 1;
      if g.userId in seen {
        if seen[g.userId] { return None, asked; }
        continue;
      }
      var answer := r.value(g.userId);
      asked := asked + [g.userId];
      if answer.Failed? { return Some(IdentityUnavailable), asked; }
      seen := seen[g.userId := answer.Exists?];
      if answer.Exists? { return None, asked; }
    }
    assert remaining[i..] == [];
    error := Some(LastPlatformAdmin);
  }

  // ---- the carrier ---------------------------------------------------------

  function StampOf(g: Grant): Stamp
  {
    Stamp(g.grantedAt, g.userId)
  }

  function RowStamps(rows: map<string, Grant>): set<Stamp>
  {
    set u | u in rows :: StampOf(rows[u])
  }

  /** user_id is the primary key. */
  ghost predicate Keyed(rows: map<string, Grant>)
  {
    forall u :: u in rows ==> rows[u].userId == u
  }

  /** Every row, oldest grant first. */
  ghost predicate IsListing(list: seq<Grant>, rows: map<string, Grant>)
  {
    && (forall i, j :: 0 <= i < j < |list| ==> StampBefore(StampOf(list[i]), StampOf(list[j])))
    && (forall g :: g in list <==> g.userId in rows && rows[g.userId] == g)
  }

  ghost predicate Remaining(list: seq<Grant>, rows: map<string, Grant>, user: string)
  {
    IsListing(list, rows - {user})
  }

  lemma AllTaken(page: seq<Stamp>, all: set<Stamp>)
    requires IsPage(page, all, |all|, StampBefore) && |set x | x in page| == |page| == |all|
    ensures forall x :: x in all ==> x in page
  {
    var taken := set x | x in page;
    assert taken <= all;
    assert all == taken + (all - taken);
  }

  lemma EveryStampOnce(all: set<Stamp>)
    ensures var page := FirstStamps(all, |all|);
            && (forall i, j :: 0 <= i < j < |page| ==> StampBefore(page[i], page[j]))
            && (forall x :: x in page <==> x in all)
  {
    StampOrder();
    var page := FirstStamps(all, |all|);
    FirstNIsPage(all, |all|, StampBefore);
    IncreasingSize(page, StampBefore);
    AllTaken(page, all);
  }

  lemma StampsListRows(rows: map<string, Grant>, stamps: seq<Stamp>, list: seq<Grant>)
    requires Keyed(rows) && |list| == |stamps|
    requires forall i, j :: 0 <= i < j < |stamps| ==> StampBefore(stamps[i], stamps[j])
    requires forall x :: x in stamps <==> x in RowStamps(rows)
    requires forall k :: 0 <= k < |list| ==> list[k].userId in rows && rows[list[k].userId] == list[k] && StampOf(list[k]) == stamps[k]
    ensures IsListing(list, rows)
  {
    forall g: Grant | g.userId in rows && rows[g.userId] == g ensures g in list {
      assert StampOf(g) in RowStamps(rows);
      var k :| 0 <= k < |stamps| && stamps[k] == StampOf(g);
      assert list[k] == g;
    }
  }

  class Carrier {
    var rows: map<string, Grant>
    var audit: seq<Race.Change>

    constructor ()
      ensures rows == map[] && audit == [] && Valid()
    {
      rows, audit := map[], [];
    }

    /** The trail accounts for the carrier. */
    ghost predicate Valid()
      reads this
    {
      Keyed(rows) && Race.Replay(audit) == rows.Keys
    }

    /** Writes the row and its record together. The writer's answer is None when the
        caller passed no writer. Provenance of an existing grant is left alone. */
    method GrantAdmin(user: string, grantor: Option<string>, note: Option<string>, now: int,
                      writer: Option<bool>, insertFails: bool, commitFails: bool)
      returns (error: Option<AdminError>)
      requires Valid()
      modifies this
      ensures Valid()
      ensures error == if writer.None? then Some(AuditIntentRequired)
                       else if Blank(user) then Some(NotConfigured)
                       else if insertFails then Some(Database)
                       else if user in old(rows) then Some(AlreadyPlatformAdmin)
                       else if !writer.value then Some(AuditRefused)
                       else if commitFails then Some(Database) else None
      ensures error.Some? ==> rows == old(rows) && audit == old(audit)
      ensures error.None? ==> rows == old(rows)[user := Grant(user, grantor, now, note)] && audit == old(audit) + [Race.Granted(user)]
    {
      if writer.None? { return Some(AuditIntentRequired); }
      if Blank(user) { return Some(NotConfigured); }
      if insertFails { return Some(Database); }
      if user in rows { return Some(AlreadyPlatformAdmin); }
      var work := rows[user := Grant(user, grantor, now, note)];
      if !writer.value { return Some(AuditRefused); }
      if commitFails { return Some(Database); }
      Race.ReplaySnoc(audit, Race.Granted(user));
      rows, audit := work, audit + [Race.Granted(user)];
      error := None;
    }

    /** The locking read, in order. */
    method List() returns (list: seq<Grant>)
      requires Keyed(rows)
      ensures IsListing(list, rows)
    {
      var stamps := TakeFirst(RowStamps(rows), |RowStamps(rows)|);
      EveryStampOnce(RowStamps(rows));
      list := [];
      for i := 0 to |stamps|
        invariant |list| == i
        invariant forall k :: 0 <= k < i ==> list[k].userId in rows && rows[list[k].userId] == list[k] && StampOf(list[k]) == stamps[k]
      {
        assert stamps[i] in RowStamps(rows);
        list := list + [rows[stamps[i].id]];
      }
      StampsListRows(rows, stamps, list);
    }

    /** The grant addressed, if any, apart from those that would remain. */
    method LockCarrier(user: string) returns (target: Option<Grant>, remaining: seq<Grant>)
      requires Keyed(rows)
      ensures target == if user in rows then Some(rows[user]) else None
      ensures Remaining(remaining, rows, user)
    {
      var list := List();
      target, remaining := None, [];
      var i := 0;
      while i < |list|
        invariant 0 <= i <= |list|
        invariant forall g :: g in remaining <==> g in list[..i] && g.userId != user
        invariant forall j, k :: 0 <= j < k < |remaining| ==> StampBefore(StampOf(remaining[j]), StampOf(remaining[k]))
        invariant target.None? ==> forall g :: g in list[..i] ==> g.userId != user
        invariant target.Some? ==> user in rows && target.value == rows[user]
      {
        var g := list[i];
        assert list[..i + 1] == list[..i] + [g];
        forall x | x in remaining ensures StampBefore(StampOf(x), StampOf(g)) {
          var k :| 0 <= k < i && list[..i][k] == x;
          assert list[k] == x;
        }
        if g.userId == user { target := Some(g); } else { remaining := remaining + [g]; }
        i := i + 1;
      }
      assert list[..i] == list;
      if user in rows { assert rows[user] in list; }
    }

    /** Removes the grant only if the predicate accepts the ones that would remain, and
        only with its record. The refusals come in this order, and each leaves carrier
        and trail as they were. */
    method Revoke(user: string, keeps: Option<Predicate>, writer: Option<bool>, readFails: bool, deleteFails: bool, commitFails: bool)
      returns (error: Option<AdminError>, ghost remaining: seq<Grant>)
      requires Valid()
      modifies this
      ensures Valid()
      ensures error == if writer.None? then Some(AuditIntentRequired)
                       else if keeps.None? || Blank(user) then Some(NotConfigured)
                       else if readFails then Some(Database)
                       else if user !in old(rows) then Some(NotPlatformAdmin)
                       else if keeps.value(remaining).Some? then keeps.value(remaining)
                       else if deleteFails then Some(Database)
                       else if !writer.value then Some(AuditRefused)
                       else if commitFails then Some(Database) else None
      ensures writer.Some? && keeps.Some? && !Blank(user) && !readFails ==> Remaining(remaining, old(rows), user)
      ensures error.Some? ==> rows == old(rows) && audit == old(audit)
      ensures error.None? ==> rows == old(rows) - {user} && audit == old(audit) + [Race.Revoked(user)]
    {
      remaining := [];
      if writer.None? { return Some(AuditIntentRequired), []; }
      if keeps.None? { return Some(NotConfigured), []; }
      if Blank(user) { return Some(NotConfigured), []; }
      if readFails { return Some(Database), []; }
      var target, others := LockCarrier(user);
      remaining := others;
      if target.None? { return Some(NotPlatformAdmin), others; }
      var refusal := keeps.value(others);
      if refusal.Some? { return refusal, others; }
      if deleteFails { return Some(Database), others; }
      var work := rows - {user};
      if !writer.value { return Some(AuditRefused), others; }
      if commitFails { return Some(Database), others; }
      Race.ReplaySnoc(audit, Race.Revoked(user));
      rows, audit := work, audit + [Race.Revoked(user)];
      error := None;
    }
  }

  /** With the shipped predicate a revocation goes through only when an administrator
      who exists remains in the carrier afterwards. */
  lemma RevocationLeavesAdministrator(r: Resolver, rows: map<string, Grant>, user: string, remaining: seq<Grant>)
    requires Keyed(rows) && Remaining(remaining, rows, user) && FloorVerdict(Some(r), remaining).None?
    ensures exists u :: u in rows - {user} && r(u).Exists?
  {
    FloorVerdictMeans(r, remaining);
    var i :| 0 <= i < |remaining| && r(remaining[i].userId).Exists?;
    assert remaining[i] in remaining;
    assert remaining[i].userId in rows - {user};
  }

  /** When every lookup is answered, the refusal is exact: a revocation is refused as the
      last one exactly when nobody else in the carrier exists. */
  lemma RefusalIsExact(r: Resolver, rows: map<string, Grant>, user: string, remaining: seq<Grant>)
    requires Keyed(rows) && Remaining(remaining, rows, user)
    requires forall u :: u in rows ==> !r(u).Failed?
    ensures FloorVerdict(Some(r), remaining) == Some(LastPlatformAdmin) <==> !exists u :: u in rows - {user} && r(u).Exists?
    ensures FloorVerdict(Some(r), remaining) != Some(IdentityUnavailable)
  {
    FloorVerdictMeans(r, remaining);
    forall i | 0 <= i < |remaining| ensures remaining[i].userId in rows - {user} {
      assert remaining[i] in remaining;
    }
    if exists u :: u in rows - {user} && r(u).Exists? {
      var u :| u in rows - {user} && r(u).Exists?;
      assert (rows - {user})[u] in remaining;
    }
  }

  // ---- accepted calls are runs of the race ----------------------------------

  /** A quiet state of the race holds this carrier and this trail; rowOf says which row
      is whose. */
  ghost predicate Holds(s: Race.State, rows: map<string, Grant>, audit: seq<Race.Change>, rowOf: map<string, Race.RowId>)
  {
    && s.txs == map[] && s.locks == map[] && s.floor.None? && s.audit == audit
    && rowOf.Keys == rows.Keys
    && (forall u, v :: u in rowOf && v in rowOf && rowOf[u] == rowOf[v] ==> u == v)
    && (forall x :: x in s.rows <==> x in rowOf.Values)
    && (forall u :: u in rowOf ==> s.rows[rowOf[u]] == StampOf(rows[u]))
  }

  /** The locking read's order, as the race's snapshot. */
  function QueueOf(list: seq<Grant>, rowOf: map<string, Race.RowId>): (queue: seq<Race.Ref>)
    requires forall g :: g in list ==> g.userId in rowOf
    ensures |queue| == |list|
    ensures forall i :: 0 <= i < |list| ==> queue[i] == Race.Ref(rowOf[list[i].userId], StampOf(list[i]))
  {
    seq(|list|, i requires 0 <= i < |list| => Race.Ref(rowOf[list[i].userId], StampOf(list[i])))
  }

  lemma ListingIsSnapshot(s: Race.State, rows: map<string, Grant>, audit: seq<Race.Change>, rowOf: map<string, Race.RowId>, list: seq<Grant>)
    requires Keyed(rows) && Holds(s, rows, audit, rowOf) && IsListing(list, rows)
    ensures Race.Snapshot(s, QueueOf(list, rowOf))
  {
    var queue := QueueOf(list, rowOf);
    forall i | 0 <= i < |queue| ensures queue[i].row in s.rows && s.rows[queue[i].row] == queue[i].stamp {
      assert list[i] in list;
      assert rowOf[list[i].userId] in rowOf.Values;
    }
    forall x | x in s.rows ensures Race.Ref(x, s.rows[x]) in queue {
      var u :| u in rowOf && rowOf[u] == x;
      assert rows[u] in list;
      var i :| 0 <= i < |list| && list[i] == rows[u];
      assert queue[i] == Race.Ref(x, s.rows[x]);
    }
  }

  /** A revocation that the shipped predicate accepts, its answers being true of the
      users, is a run of the race: begin, lock every row in order, resolve, delete,
      record, commit; and what it leaves is what Revoke leaves. */
  lemma AcceptedRevokeIsARun(s: Race.State, rows: map<string, Grant>, audit: seq<Race.Change>, rowOf: map<string, Race.RowId>,
                             t: Race.TxId, user: string, list: seq<Grant>, remaining: seq<Grant>, r: Resolver, serialized: bool)
    returns (s': Race.State)
    requires Keyed(rows) && Holds(s, rows, audit, rowOf) && IsListing(list, rows)
    requires user in rows && Remaining(remaining, rows, user)
    requires FloorVerdict(Some(r), remaining).None? && forall u :: r(u).Exists? ==> u in s.users
    ensures Race.Reaches(s, s', serialized)
    ensures Holds(s', rows - {user}, audit + [Race.Revoked(user)], rowOf - {user}) && s'.users == s.users
  {
    ListingIsSnapshot(s, rows, audit, rowOf, list);
    RevocationLeavesAdministrator(r, rows, user, remaining);
    var keeper :| keeper in rows - {user} && r(keeper).Exists?;
    assert rowOf[user] in rowOf.Values && rowOf[keeper] in rowOf.Values;
    Race.RevocationCompletes(s, t, user, QueueOf(list, rowOf), rowOf[user], rowOf[keeper], serialized);
    s' := s.(rows := s.rows - {rowOf[user]}, audit := s.audit + [Race.Revoked(user)]);
    HoldsWithout(s, rows, audit, rowOf, user);
  }

  lemma RowsWithout(s: Race.State, rows: map<string, Grant>, audit: seq<Race.Change>, rowOf: map<string, Race.RowId>, user: string)
    requires Holds(s, rows, audit, rowOf) && user in rows
    ensures forall x :: x in s.rows - {rowOf[user]} <==> x in (rowOf - {user}).Values
  {
    forall x | x in s.rows - {rowOf[user]} ensures x in (rowOf - {user}).Values {
      var u :| u in rowOf && rowOf[u] == x;
      assert u in rowOf - {user};
    }
    forall x | x in (rowOf - {user}).Values ensures x in s.rows - {rowOf[user]} {
      var u :| u in rowOf - {user} && (rowOf - {user})[u] == x;
      assert rowOf[u] in rowOf.Values;
    }
  }

  lemma HoldsWithout(s: Race.State, rows: map<string, Grant>, audit: seq<Race.Change>, rowOf: map<string, Race.RowId>, user: string)
    requires Holds(s, rows, audit, rowOf) && user in rows
    ensures Holds(s.(rows := s.rows - {rowOf[user]}, audit := s.audit + [Race.Revoked(user)]),
                  rows - {user}, audit + [Race.Revoked(user)], rowOf - {user})
  {
    RowsWithout(s, rows, audit, rowOf, user);
  }

  /** So is a grant to a user who has none. */
  lemma AcceptedGrantIsARun(s: Race.State, rows: map<string, Grant>, audit: seq<Race.Change>, rowOf: map<string, Race.RowId>,
                            t: Race.TxId, row: Race.RowId, g: Grant, serialized: bool)
    returns (s': Race.State)
    requires Keyed(rows) && Holds(s, rows, audit, rowOf) && g.userId !in rows && row !in s.rows
    ensures Race.Reaches(s, s', serialized)
    ensures Holds(s', rows[g.userId := g], audit + [Race.Granted(g.userId)], rowOf[g.userId := row]) && s'.users == s.users
  {
    forall x | x in s.rows ensures s.rows[x].id != g.userId {
      var u :| u in rowOf && rowOf[u] == x;
    }
    Race.GrantCompletes(s, t, row, StampOf(g), serialized);
    s' := Race.AfterGrant(s, row, StampOf(g));
    RowsWith(s, rows, audit, rowOf, g.userId, row);
  }

  lemma RowsWith(s: Race.State, rows: map<string, Grant>, audit: seq<Race.Change>, rowOf: map<string, Race.RowId>, user: string, row: Race.RowId)
    requires Holds(s, rows, audit, rowOf) && user !in rows && row !in s.rows
    ensures forall x :: x in s.rows || x == row <==> x in rowOf[user := row].Values
    ensures forall u :: u in rowOf ==> rowOf[u] in s.rows
  {
    var rowOf' := rowOf[user := row];
    assert rowOf'[user] == row;
    forall u | u in rowOf ensures rowOf[u] in s.rows {
      assert rowOf[u] in rowOf.Values;
    }
    forall x | x in s.rows ensures x in rowOf'.Values {
      var u :| u in rowOf && rowOf[u] == x;
      assert rowOf'[u] == x;
    }
  }
}
