/** The identity tables that carry derived authority, as values and as the live
    tables the transactions change. */
module IdentityDb {
  import opened Common
  import opened Ordering
  import opened Scopes

  /** One organization_members key. */
  datatype Principal = Principal(org: string, user: string)

  datatype Template = Template(name: string, scopes: seq<Scope>, isSystem: bool)

  /** An API key; a key without a user is an organization's service credential. */
  datatype ApiKey = ApiKey(org: string, user: Option<string>, scopes: seq<Scope>)

  datatype Db = Db(
    templates: map<string, Template>,
    members: map<Principal, Option<string>>,
    keys: map<string, ApiKey>)

  /** What a member's role template grants right now: nothing without a membership,
      without a template, or when the template is gone. */
  function CurrentScopes(db: Db, p: Principal): seq<Scope>
  {
    if p in db.members && db.members[p].Some? && db.members[p].value in db.templates
    then db.templates[db.members[p].value].scopes else []
  }

  /** The key belongs to nobody, or asks for no more than its owner holds now. */
  predicate Backed(db: Db, key: ApiKey, pairs: ReadWritePairs)
  {
    key.user.None? || AuthorityRetained(key.scopes, CurrentScopes(db, Principal(key.org, key.user.value)), pairs)
  }

  /** No key outlives the authority behind it. */
  ghost predicate KeysBacked(db: Db, pairs: ReadWritePairs)
  {
    forall id :: id in db.keys ==> Backed(db, db.keys[id], pairs)
  }

  predicate PrincipalBefore(a: Principal, b: Principal)
  {
    TextBefore(a.org, b.org) || (a.org == b.org && TextBefore(a.user, b.user))
  }

  lemma PrincipalOrder()
    ensures StrictOrder(PrincipalBefore)
  {
    forall a: Principal ensures !PrincipalBefore(a, a) {
      TextBeforeIrreflexive(a.org);
      TextBeforeIrreflexive(a.user);
    }
    forall a: Principal, b: Principal, c: Principal | PrincipalBefore(a, b) && PrincipalBefore(b, c)
      ensures PrincipalBefore(a, c)
    {
      TextBeforeIrreflexive(a.org);
      if a.org == b.org == c.org {
        TextBeforeTransitive(a.user, b.user, c.user);
      } else if a.org != b.org && b.org != c.org {
        TextBeforeTransitive(a.org, b.org, c.org);
      }
    }
    forall a: Principal, b: Principal ensures a == b || PrincipalBefore(a, b) || PrincipalBefore(b, a) {
      if a.org != b.org {
        TextBeforeTotal(a.org, b.org);
      } else if a.user != b.user {
        TextBeforeTotal(a.user, b.user);
      }
    }
  }

  /** The live tables. */
  class Tables {
    var templates: map<string, Template>
    var members: map<Principal, Option<string>>
    var keys: map<string, ApiKey>

    constructor (db: Db)
      ensures View() == db
    {
      templates, members, keys := db.templates, db.members, db.keys;
    }

    function View(): Db
      reads this
    {
      Db(templates, members, keys)
    }
  }
}
