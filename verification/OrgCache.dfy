/** The default-organization cache: three critical sections and the generation that keeps
    a read already in flight from undoing an invalidation. */
module OrgCache {
  import opened Common

  const TTL := 60
  const GENERATIONS := 0x1_0000_0000_0000_0000

  /** An organization as stored. */
  datatype Org = Org(id: string, name: string, displayName: string, idpType: Option<string>, idpName: Option<string>)

  // ---- the caller's copy ----------------------------------------------------

  class Text {
    var s: string

    constructor (s: string)
      ensures this.s == s
    {
      this.s := s;
    }
  }

  /** An organization in memory; two of its fields are pointers. */
  class Organization {
    var id: string
    var name: string
    var displayName: string
    var idpType: Text?
    var idpName: Text?

    constructor (org: Org)
      ensures Value() == org && fresh(Reach())
    {
      id, name, displayName := org.id, org.name, org.displayName;
      idpType, idpName := null, null;
      new;
      if org.idpType.Some? { idpType := new Text(org.idpType.value); }
      if org.idpName.Some? { idpName := new Text(org.idpName.value); }
    }

    /** Everything a holder of this organization can write to. */
    ghost function Reach(): set<object>
      reads this
    {
      {this} + (if idpType == null then {} else {idpType}) + (if idpName == null then {} else {idpName})
    }

    ghost function Value(): Org
      reads this, idpType, idpName
    {
      Org(id, name, displayName, if idpType == null then None else Some(idpType.s), if idpName == null then None else Some(idpName.s))
    }

    /** cloneOrganization: equal in value, with no memory in common. */
    method Clone() returns (copy: Organization)
      ensures copy.Value() == Value() && fresh(copy.Reach())
    {
      var t: Option<string>, n: Option<string> := None, None;
      if idpType != null { t := Some(idpType.s); }
      if idpName != null { n := Some(idpName.s); }
      copy := new Organization(Org(id, name, displayName, t, n));
    }
  }

  // ---- the critical sections as functions ----------------------------------

  datatype Cache = Cache(entry: Option<Org>, at: int, gen: nat)

  predicate Hits(c: Cache, now: int)
  {
    c.entry.Some? && now - c.at < TTL
  }

  /** A refill commits only under the generation it started from. */
  function Refilled(c: Cache, gen: nat, org: Org, now: int): Cache
  {
    if c.gen == gen then Cache(Some(org), now, c.gen) else c
  }

  /** The generation is an unsigned 64-bit counter. */
  function Invalidated(c: Cache): Cache
  {
    Cache(None, c.at, (c.gen + 1) % GENERATIONS)
  }

  class OrganizationRepository {
    var stored: Option<Org>       // the row named "default"
    var defaultOrgCache: Organization?
    var defaultOrgAt: int
    var defaultOrgGen: nat

    constructor (stored: Option<Org>)
      ensures this.stored == stored && View() == Cache(None, 0, 0)
    {
      this.stored, defaultOrgCache, defaultOrgAt, defaultOrgGen := stored, null, 0, 0;
    }

    ghost function Footprint(): set<object>
      reads this, defaultOrgCache
    {
      {this} + if defaultOrgCache == null then {} else defaultOrgCache.Reach()
    }

    ghost function View(): Cache
      reads this, Footprint()
    {
      Cache(if defaultOrgCache == null then None else Some(defaultOrgCache.Value()), defaultOrgAt, defaultOrgGen)
    }

    /** The read-locked section: a private copy on a hit, the generation on a miss. */
    method TryHit(now: int) returns (org: Organization?, gen: nat)
      ensures gen == View().gen
      ensures org != null <==> Hits(View(), now)
      ensures org != null ==> org.Value() == View().entry.value && fresh(org.Reach())
    {
      gen, org := defaultOrgGen, null;
      if defaultOrgCache != null && now - defaultOrgAt < TTL {
        org := defaultOrgCache.Clone();
      }
    }

    /** The write-locked section of a refill, storing a copy of its own. */
    method CommitRefill(gen: nat, org: Organization, now: int)
      modifies this
      ensures View() == Refilled(old(View()), gen, old(org.Value()), now)
      ensures stored == old(stored)
      ensures fresh(Footprint() - old(Footprint()))
      ensures org.Value() == old(org.Value())
    {
      if defaultOrgGen == gen {
        var copy := org.Clone();
        defaultOrgCache, defaultOrgAt := copy, now;
      }
    }

    method InvalidateDefaultOrgCache()
      modifies this
      ensures View() == Invalidated(old(View())) && stored == old(stored)
    {
      defaultOrgCache := null;
      defaultOrgGen := (defaultOrgGen + 1) % GENERATIONS;
    }

    /** Cache, then database. What is returned is the caller's own: writing to it cannot
        reach the cache. A missing organization is reported and never cached. */
    method GetDefaultOrganization(now: int, later: int, readFails: bool) returns (org: Organization?)
      modifies this
      ensures stored == old(stored)
      ensures old(Hits(View(), now)) ==> org != null && org.Value() == old(View()).entry.value && View() == old(View())
      ensures !old(Hits(View(), now)) && (readFails || stored.None?) ==> org == null && View() == old(View())
      ensures !old(Hits(View(), now)) && !readFails && stored.Some? ==>
                org != null && org.Value() == stored.value && View() == Cache(stored, later, old(View()).gen)
      ensures org != null ==> fresh(org.Reach()) && org.Reach() !! Footprint()
    {
      var gen;
      org, gen := TryHit(now);
      if org != null { return; }
      if readFails || stored.None? { return null; }
      org := new Organization(stored.value);
      CommitCopy(gen, org, later);
    }

    /** CommitRefill, knowing that the copy stored is not the caller's. */
    method CommitCopy(gen: nat, org: Organization, now: int)
      requires org.Reach() !! Footprint()
      modifies this
      ensures View() == Refilled(old(View()), gen, old(org.Value()), now)
      ensures stored == old(stored) && org.Value() == old(org.Value()) && org.Reach() == old(org.Reach())
      ensures org.Reach() !! Footprint()
    {
      CommitRefill(gen, org, now);
    }
  }
}
