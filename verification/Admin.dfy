/** The admin service: role definitions and assignments, and the billing plans on sale. */
module Admin {
  import opened Prelude

  const OWNER_ROLE := "owner"
  const ADMINS_OWNER_WRITE := "admins.owner.write"

  datatype Definition = Definition(slug: string, name: string, description: string, permissions: set<string>)

  /** A row of `admin_roles` with its permissions; its id is its position in the table. */
  datatype Role = Role(slug: string, name: string, description: string, system: bool, permissions: set<string>)

  datatype Assignment = Assignment(user: nat, role: nat, grantedBy: nat, revoked: bool)

  datatype Plan = Plan(
    slug: string,
    name: string,
    price: Option<string>,
    annualPrice: Option<string>,
    active: bool,
    visible: bool)

  /** What an update sets; a field that is not set stays, and a price can be set to none. */
  datatype PlanUpdate = PlanUpdate(
    slug: Option<string>,
    name: Option<string>,
    price: Option<Option<string>>,
    annualPrice: Option<Option<string>>,
    active: Option<bool>,
    visible: Option<bool>)

  datatype Failure = NotFound | Forbidden | PlanExists | TestPlan

  datatype Reply = Done(id: nat) | Failed(why: Failure)

  // ---- lookups ----

  function FindRole(roles: seq<Role>, slug: string): (id: Option<nat>)
    ensures id.Some? ==> id.value < |roles| && roles[id.value].slug == slug
    ensures id.None? ==> forall i | 0 <= i < |roles| :: roles[i].slug != slug
  {
    if roles == [] then None
    else if roles[|roles| - 1].slug == slug then Some(|roles| - 1)
    else FindRole(roles[..|roles| - 1], slug)
  }

  /** `_active_assignment`. */
  function FindActive(assignments: seq<Assignment>, user: nat, role: nat): (id: Option<nat>)
    ensures id.Some? ==> id.value < |assignments| && IsActive(assignments[id.value], user, role)
    ensures id.None? ==> forall i | 0 <= i < |assignments| :: !IsActive(assignments[i], user, role)
  {
    if assignments == [] then None
    else if IsActive(assignments[|assignments| - 1], user, role) then Some(|assignments| - 1)
    else FindActive(assignments[..|assignments| - 1], user, role)
  }

  predicate IsActive(a: Assignment, user: nat, role: nat) {
    a.user == user && a.role == role && !a.revoked
  }

  predicate IsOwner(roles: seq<Role>, a: Assignment) {
    !a.revoked && a.role < |roles| && roles[a.role].slug == OWNER_ROLE
  }

  /** `_active_owner_count`. */
  function OwnerCount(roles: seq<Role>, assignments: seq<Assignment>): nat {
    if assignments == [] then 0
    else
      OwnerCount(roles, assignments[..|assignments| - 1])
      + if IsOwner(roles, assignments[|assignments| - 1]) then 1 else 0
  }

  lemma {:induction false} OwnerCountUpdate(roles: seq<Role>, assignments: seq<Assignment>, i: nat, a: Assignment)
    requires i < |assignments|
    ensures OwnerCount(roles, assignments[i := a])
         == OwnerCount(roles, assignments)
            - (if IsOwner(roles, assignments[i]) then 1 else 0)
            + (if IsOwner(roles, a) then 1 else 0)
  {
    var last := |assignments| - 1;
    if i < last {
      OwnerCountUpdate(roles, assignments[..last], i, a);
      assert assignments[i := a][..last] == assignments[..last][i := a];
    } else {
      assert assignments[i := a][..last] == assignments[..last];
    }
  }

  /** The positions of the active owner assignments among the first `n`. */
  function Owners(roles: seq<Role>, assignments: seq<Assignment>, n: nat): set<nat>
    requires n <= |assignments|
  {
    set i: nat | i < n && !assignments[i].revoked && assignments[i].role < |roles|
                 && roles[assignments[i].role].slug == "owner"
  }

  /** The count is the number of assignments of the owner role that are not revoked. */
  lemma {:induction false} OwnerCountExact(roles: seq<Role>, assignments: seq<Assignment>, n: nat)
    requires n <= |assignments|
    ensures OwnerCount(roles, assignments[..n]) == |Owners(roles, assignments, n)|
  {
    if n > 0 {
      OwnerCountExact(roles, assignments, n - 1);
      assert assignments[..n][..n - 1] == assignments[..n - 1];
      var before, after := Owners(roles, assignments, n - 1), Owners(roles, assignments, n);
      assert after == if IsOwner(roles, assignments[n - 1]) then before + {n - 1} else before;
    } else {
      assert Owners(roles, assignments, 0) == {};
    }
  }

  lemma OwnersStay(roles: seq<Role>, assignments: seq<Assignment>, a: Assignment)
    ensures OwnerCount(roles, assignments) <= OwnerCount(roles, assignments + [a])
  {
    assert (assignments + [a])[..|assignments|] == assignments;
  }

  /** Role rows may be added or renamed; while slugs stay, so does the number of owners. */
  lemma {:induction false} OwnerCountStays(roles: seq<Role>, more: seq<Role>, assignments: seq<Assignment>)
    requires SameSlugs(roles, more) && forall i | 0 <= i < |assignments| :: assignments[i].role < |roles|
    ensures OwnerCount(more, assignments) == OwnerCount(roles, assignments)
  {
    if assignments != [] {
      OwnerCountStays(roles, more, assignments[..|assignments| - 1]);
    }
  }

  predicate SameSlugs(roles: seq<Role>, more: seq<Role>) {
    |roles| <= |more| && forall i | 0 <= i < |roles| :: more[i].slug == roles[i].slug
  }

  // ---- seeding ----

  predicate DistinctSlugs(roles: seq<Role>) {
    forall i, j | 0 <= i < j < |roles| :: roles[i].slug != roles[j].slug
  }

  predicate DistinctDefinitions(definitions: seq<Definition>) {
    forall i, j | 0 <= i < j < |definitions| :: definitions[i].slug != definitions[j].slug
  }

  /** The role row a definition asks for: exactly its permissions, none missing and none stale. */
  function RoleFor(d: Definition): Role {
    Role(d.slug, d.name, d.description, true, d.permissions)
  }

  /** Each of the first `n` definitions has its role row. */
  predicate Seeded(roles: seq<Role>, definitions: seq<Definition>, n: nat)
    requires n <= |definitions|
  {
    forall k | 0 <= k < n :: RoleFor(definitions[k]) in roles
  }

  /**
   `seed_default_admin_roles`: afterwards every default role is exactly its definition, and other
   roles are as before.
   */
  method SeedDefaultRoles(roles0: seq<Role>, definitions: seq<Definition>) returns (roles: seq<Role>)
    requires DistinctSlugs(roles0) && DistinctDefinitions(definitions)
    ensures DistinctSlugs(roles) && SameSlugs(roles0, roles)
    ensures Seeded(roles, definitions, |definitions|)
    ensures forall d | d in definitions ::
              exists r :: r in roles && r.slug == d.slug && r.name == d.name && r.description == d.description
                          && r.system && r.permissions == d.permissions
    ensures forall i | 0 <= i < |roles0| && (forall d | d in definitions :: d.slug != roles0[i].slug) ::
              roles[i] == roles0[i]
    ensures forall i | |roles0| <= i < |roles| :: exists d :: d in definitions && roles[i] == RoleFor(d)
    // seeding again changes nothing
    ensures Seeded(roles0, definitions, |definitions|) ==> roles == roles0
  {
    roles := roles0;
    for k := 0 to |definitions|
      invariant DistinctSlugs(roles) && SameSlugs(roles0, roles)
      invariant Seeded(roles, definitions, k)
      invariant forall i | 0 <= i < |roles0| && (forall d | d in definitions :: d.slug != roles0[i].slug) ::
                  roles[i] == roles0[i]
      invariant forall i | |roles0| <= i < |roles| :: exists d :: d in definitions && roles[i] == RoleFor(d)
      invariant Seeded(roles0, definitions, |definitions|) ==> roles == roles0
    {
      var d := definitions[k];
      assert d in definitions;
      ghost var before := roles;
      var id := FindRole(roles, d.slug);
      if id.None? {
        assert Seeded(roles0, definitions, |definitions|) ==> RoleFor(d) in roles;
        var role := Role(d.slug, d.name, d.description, true, {});
        roles := roles + [role.(permissions := role.permissions + (d.permissions - role.permissions))];
        assert roles[|before|] == RoleFor(d);
      } else {
        SeededRowIsFound(roles, d, id.value);
        var role := roles[id.value].(name := d.name, description := d.description, system := true);
        var stale := role.permissions - d.permissions;
        role := role.(permissions := role.permissions + (d.permissions - role.permissions) - stale);
        assert role.permissions == d.permissions;
        roles := roles[id.value := role];
        assert roles[id.value] == RoleFor(d);
      }
      OtherRowsStay(before, roles, definitions, k);
    }
  }

  lemma SeededRowIsFound(roles: seq<Role>, d: Definition, id: nat)
    requires DistinctSlugs(roles) && id < |roles| && roles[id].slug == d.slug
    ensures RoleFor(d) in roles ==> roles[id] == RoleFor(d)
  {
  }

  /** Seeding one definition leaves the rows of the earlier ones in place. */
  lemma OtherRowsStay(before: seq<Role>, after: seq<Role>, definitions: seq<Definition>, k: nat)
    requires k < |definitions| && DistinctDefinitions(definitions) && Seeded(before, definitions, k)
    requires |before| <= |after| && RoleFor(definitions[k]) in after
    requires forall i | 0 <= i < |before| :: after[i] == before[i] || before[i].slug == definitions[k].slug
    ensures Seeded(after, definitions, k + 1)
  {
    forall j | 0 <= j < k
      ensures RoleFor(definitions[j]) in after
    {
      var i :| 0 <= i < |before| && before[i] == RoleFor(definitions[j]);
      assert after[i] == before[i];
    }
  }

  // ---- plans ----

  /** An empty text counts as none. */
  function Given(text: Option<string>): Option<string> {
    if text == Some("") then None else text
  }

  /** Some other plan has this slug, this name or one of these prices. */
  predicate Clashes(plans: seq<Plan>, slug: Option<string>, name: Option<string>, prices: set<string>,
                    except: Option<nat>) {
    exists i | 0 <= i < |plans| ::
      && except != Some(i)
      && (Given(slug) == Some(plans[i].slug) || Given(name) == Some(plans[i].name)
          || (plans[i].price.Some? && plans[i].price.value in prices)
          || (plans[i].annualPrice.Some? && plans[i].annualPrice.value in prices))
  }

  function PricesOf(a: Option<string>, b: Option<string>): set<string> {
    (if Given(a).Some? then {a.value} else {}) + (if Given(b).Some? then {b.value} else {})
  }

  /** Two plans share a slug, a name or a price, of either kind; empty texts are not shared. */
  predicate Alike(p: Plan, q: Plan) {
    || (p.slug != "" && p.slug == q.slug)
    || (p.name != "" && p.name == q.name)
    || (q.price.Some? && q.price.value != "" && (p.price == q.price || p.annualPrice == q.price))
    || (q.annualPrice.Some? && q.annualPrice.value != ""
          && (p.price == q.annualPrice || p.annualPrice == q.annualPrice))
  }

  /** No two plans share a slug, a name or a price. */
  ghost predicate PlansDiffer(plans: seq<Plan>) {
    forall i, j | 0 <= i < |plans| && 0 <= j < |plans| && i != j :: !Alike(plans[i], plans[j])
  }

  /** A clash is a plan alike to the one asked for, of which only the given fields count. */
  lemma ClashesExactly(plans: seq<Plan>, slug: Option<string>, name: Option<string>, price: Option<string>,
                       annualPrice: Option<string>, except: Option<nat>)
    ensures var asked := Plan(slug.GetOr(""), name.GetOr(""), price, annualPrice, false, false);
            Clashes(plans, slug, name, PricesOf(price, annualPrice), except) <==>
            exists i :: 0 <= i < |plans| && except != Some(i) && Alike(plans[i], asked)
  {
    var asked := Plan(slug.GetOr(""), name.GetOr(""), price, annualPrice, false, false);
    var prices := PricesOf(price, annualPrice);
    forall i | 0 <= i < |plans|
      ensures Alike(plans[i], asked) <==>
              || Given(slug) == Some(plans[i].slug) || Given(name) == Some(plans[i].name)
              || (plans[i].price.Some? && plans[i].price.value in prices)
              || (plans[i].annualPrice.Some? && plans[i].annualPrice.value in prices)
    {
    }
  }

  class AdminService {
    var users: set<nat>
    var roles: seq<Role>
    var assignments: seq<Assignment>
    var plans: seq<Plan>
    const definitions: seq<Definition>
    /** `_slugify` and `looks_like_test_plan`. */
    const slugify: string -> string
    const looksLikeTest: (string, string, Option<string>, Option<string>) -> bool

    constructor (users: set<nat>, roles: seq<Role>, assignments: seq<Assignment>, definitions: seq<Definition>,
                 slugify: string -> string, looksLikeTest: (string, string, Option<string>, Option<string>) -> bool)
      requires DistinctSlugs(roles) && DistinctDefinitions(definitions)
      requires forall i | 0 <= i < |assignments| :: assignments[i].role < |roles|
      requires forall i, j | 0 <= i < j < |assignments| && !assignments[i].revoked && !assignments[j].revoked ::
                 assignments[i].user != assignments[j].user || assignments[i].role != assignments[j].role
      requires 1 <= OwnerCount(roles, assignments)
      ensures Valid() && this.roles == roles && this.assignments == assignments && plans == []
    {
      this.users, this.roles, this.assignments, this.plans := users, roles, assignments, [];
      this.definitions, this.slugify, this.looksLikeTest := definitions, slugify, looksLikeTest;
    }

    /** The slug an update asks for. */
    function NewSlug(u: PlanUpdate): Option<string> {
      if Given(u.slug).Some? then Some(slugify(u.slug.value)) else None
    }

    predicate IsTest(p: Plan) {
      looksLikeTest(p.slug, p.name, p.price, p.annualPrice)
    }

    ghost predicate Valid()
      reads this
    {
      && DistinctSlugs(roles) && DistinctDefinitions(definitions)
      && (forall i | 0 <= i < |assignments| :: assignments[i].role < |roles|)
      // at most one active assignment for each user and role
      && (forall i, j | 0 <= i < j < |assignments| && !assignments[i].revoked && !assignments[j].revoked ::
            assignments[i].user != assignments[j].user || assignments[i].role != assignments[j].role)
      // an owner survives
      && 1 <= OwnerCount(roles, assignments)
      // no test plan is on sale
      && (forall i | 0 <= i < |plans| :: IsTest(plans[i]) ==> !plans[i].active && !plans[i].visible)
      && PlansDiffer(plans)
    }

    /** The default roles are brought up to date before a grant. */
    method Seed()
      requires Valid()
      modifies this`roles
      ensures Valid() && SameSlugs(old(roles), roles) && Seeded(roles, definitions, |definitions|)
    {
      var seeded := SeedDefaultRoles(roles, definitions);
      OwnerCountStays(roles, seeded, assignments);
      roles := seeded;
    }

    /** `grant_role`. */
    method GrantRole(actor: nat, permissions: set<string>, user: nat, role: nat) returns (reply: Reply)
      requires Valid()
      modifies this`roles, this`assignments
      ensures Valid() && SameSlugs(old(roles), roles) && Seeded(roles, definitions, |definitions|)
      ensures reply.Done? <==>
                && user in users && role < |roles|
                && (roles[role].slug == OWNER_ROLE ==> ADMINS_OWNER_WRITE in permissions)
      ensures reply.Done? ==>
                && reply.id < |assignments| && assignments[reply.id].user == user && assignments[reply.id].role == role
                && !assignments[reply.id].revoked
      // a further row only for a user who does not hold the role
      ensures assignments == if reply.Failed?
                                || exists a :: a in old(assignments) && a.user == user && a.role == role && !a.revoked
                             then old(assignments)
                             else old(assignments) + [Assignment(user, role, actor, false)]
    {
      hide OwnerCount, IsOwner, IsTest;
      Seed();
      if user !in users || role >= |roles| {
        return Failed(NotFound);
      }
      if roles[role].slug == OWNER_ROLE && ADMINS_OWNER_WRITE !in permissions {
        return Failed(Forbidden);
      }
      var existing := FindActive(assignments, user, role);
      if existing.Some? {
        return Done(existing.value);
      }
      assert forall i | 0 <= i < |assignments| :: !IsActive(assignments[i], user, role);
      OwnersStay(roles, assignments, Assignment(user, role, actor, false));
      assignments := assignments + [Assignment(user, role, actor, false)];
      reply := Done(|assignments| - 1);
    }

    /** `revoke_role`: the last active owner cannot be revoked. */
    method RevokeRole(permissions: set<string>, user: nat, role: nat) returns (reply: Reply)
      requires Valid()
      modifies this`assignments
      ensures Valid()
      ensures reply.Done? <==>
                && role < |roles|
                && (exists a :: a in old(assignments) && a.user == user && a.role == role && !a.revoked)
                && (roles[role].slug == OWNER_ROLE ==>
                      ADMINS_OWNER_WRITE in permissions && 1 < old(OwnerCount(roles, assignments)))
      ensures reply.Done? ==>
                && reply.id < |old(assignments)|
                && var a := old(assignments)[reply.id];
                   && a.user == user && a.role == role && !a.revoked
                   && assignments == old(assignments)[reply.id := a.(revoked := true)]
      // and then the user does not hold the role any more
      ensures reply.Done? ==> forall a | a in assignments && a.user == user && a.role == role :: a.revoked
      ensures reply.Failed? ==> assignments == old(assignments)
    {
      if role >= |roles| {
        return Failed(NotFound);
      }
      if roles[role].slug == OWNER_ROLE && ADMINS_OWNER_WRITE !in permissions {
        return Failed(Forbidden);
      }
      var found := FindActive(assignments, user, role);
      if found.None? {
        return Failed(NotFound);
      }
      if roles[role].slug == OWNER_ROLE && OwnerCount(roles, assignments) <= 1 {
        return Failed(Forbidden);
      }
      var id := found.value;
      OwnerCountUpdate(roles, assignments, id, assignments[id].(revoked := true));
      assignments := assignments[id := assignments[id].(revoked := true)];
      reply := Done(id);
    }

    /** `create_billing_plan`. */
    method CreatePlan(slug: Option<string>, name: string, price: Option<string>, annualPrice: Option<string>,
                      active: bool, visible: bool)
      returns (reply: Reply)
      requires Valid()
      modifies this`plans
      ensures Valid()
      ensures reply.Done? ==>
                && |plans| == |old(plans)| + 1 && plans[..|old(plans)|] == old(plans) && reply.id == |old(plans)|
                && var p := plans[reply.id];
                   && p.slug == slugify(Given(slug).GetOr(name)) && p.name == name && p.price == price
                   && p.annualPrice == annualPrice
                   && (if IsTest(p) then !p.active && !p.visible else p.active == active && p.visible == visible)
      // refused exactly if a plan has the slug, the name or one of the prices already
      ensures reply.Failed? <==>
                exists i :: 0 <= i < |old(plans)|
                            && Alike(old(plans)[i], Plan(slugify(Given(slug).GetOr(name)), name, price, annualPrice,
                                                         false, false))
      ensures reply.Failed? ==> plans == old(plans)
    {
      hide OwnerCount, Clashes;
      var p := Plan(slugify(Given(slug).GetOr(name)), name, price, annualPrice, active, visible);
      ClashesExactly(plans, Some(p.slug), Some(name), price, annualPrice, None);
      if Clashes(plans, Some(p.slug), Some(name), PricesOf(price, annualPrice), None) {
        return Failed(PlanExists);
      }
      if IsTest(p) {
        p := p.(active := false, visible := false);
      }
      plans := plans + [p];
      reply := Done(|plans| - 1);
    }

    /** `update_billing_plan`. */
    method UpdatePlan(id: nat, u: PlanUpdate) returns (reply: Reply)
      requires Valid()
      modifies this`plans
      ensures Valid()
      ensures reply.Done? ==>
                && id < |old(plans)| && |plans| == |old(plans)|
                && (forall i | 0 <= i < |plans| && i != id :: plans[i] == old(plans)[i])
                && var p, q := old(plans)[id], plans[id];
                   && q.slug == (if u.slug.Some? && u.slug.value != "" then slugify(u.slug.value) else p.slug)
                   && q.name == u.name.GetOr(p.name)
                   && q.price == u.price.GetOr(p.price) && q.annualPrice == u.annualPrice.GetOr(p.annualPrice)
                   && (if IsTest(q) then !q.active && !q.visible
                       else q.active == u.active.GetOr(p.active) && q.visible == u.visible.GetOr(p.visible))
      ensures reply.Failed? <==>
                || id >= |old(plans)|
                || exists i :: 0 <= i < |old(plans)| && i != id
                               && Alike(old(plans)[i], Plan(NewSlug(u).GetOr(""), u.name.GetOr(""), u.price.GetOr(None),
                                                            u.annualPrice.GetOr(None), false, false))
      ensures reply.Failed? ==> plans == old(plans)
    {
      if id >= |plans| {
        return Failed(NotFound);
      }
      hide OwnerCount, Clashes;
      var slug := NewSlug(u);
      ClashesExactly(plans, slug, u.name, u.price.GetOr(None), u.annualPrice.GetOr(None), Some(id));
      if Clashes(plans, slug, u.name, PricesOf(u.price.GetOr(None), u.annualPrice.GetOr(None)), Some(id)) {
        return Failed(PlanExists);
      }
      var p := plans[id];
      p := p.(slug := slug.GetOr(p.slug));
      p := p.(name := u.name.GetOr(p.name), price := u.price.GetOr(p.price),
              annualPrice := u.annualPrice.GetOr(p.annualPrice),
              active := u.active.GetOr(p.active), visible := u.visible.GetOr(p.visible));
      if IsTest(p) {
        p := p.(active := false, visible := false);
      }
      plans := plans[id := p];
      reply := Done(id);
    }

    /** `activate_billing_plan`: refused for a test plan. */
    method ActivatePlan(id: nat) returns (reply: Reply)
      requires Valid()
      modifies this`plans
      ensures Valid()
      ensures reply
           == if id >= |old(plans)| then Failed(NotFound)
              else if IsTest(old(plans)[id]) then Failed(TestPlan)
              else Done(id)
      ensures plans
           == if reply.Done?
              then old(plans)[id := old(plans)[id].(active := true, visible := true)]
              else old(plans)
    {
      if id >= |plans| {
        return Failed(NotFound);
      }
      if IsTest(plans[id]) {
        return Failed(TestPlan);
      }
      plans := plans[id := plans[id].(active := true, visible := true)];
      reply := Done(id);
    }

    /** `deactivate_billing_plan`. */
    method DeactivatePlan(id: nat) returns (reply: Reply)
      requires Valid()
      modifies this`plans
      ensures Valid()
      ensures reply == if id < |old(plans)| then Done(id) else Failed(NotFound)
      ensures plans
           == if id < |old(plans)|
              then old(plans)[id := old(plans)[id].(active := false, visible := false)]
              else old(plans)
    {
      if id >= |plans| {
        return Failed(NotFound);
      }
      plans := plans[id := plans[id].(active := false, visible := false)];
      reply := Done(id);
    }

    /** Over any sequence of these operations an owner survives, assignments stay unique and no test plan is sold. */
    method Operate(calls: seq<AdminCall>)
      requires Valid()
      modifies this
      ensures Valid()
      ensures exists a :: a in assignments && !a.revoked && a.role < |roles| && roles[a.role].slug == "owner"
      ensures forall i, j | 0 <= i < j < |plans| ::
                && (plans[i].slug == plans[j].slug ==> plans[i].slug == "")
                && (plans[i].name == plans[j].name ==> plans[i].name == "")
    {
      for i := 0 to |calls|
        invariant Valid()
      {
        var reply: Reply;
        match calls[i] {
          case Grant(actor, permissions, user, role) => reply := GrantRole(actor, permissions, user, role);
          case Revoke(permissions, user, role) => reply := RevokeRole(permissions, user, role);
          case Create(slug, name, price, annualPrice, active, visible) =>
            reply := CreatePlan(slug, name, price, annualPrice, active, visible);
          case Update(id, u) => reply := UpdatePlan(id, u);
          case Activate(id) => reply := ActivatePlan(id);
          case Deactivate(id) => reply := DeactivatePlan(id);
        }
      }
      var owners := Owners(roles, assignments, |assignments|);
      OwnerCountExact(roles, assignments, |assignments|);
      assert assignments[..|assignments|] == assignments;
      assert owners != {};
      var i :| i in owners;
      assert assignments[i] in assignments;
    }
  }

  datatype AdminCall =
    | Grant(actor: nat, permissions: set<string>, user: nat, role: nat)
    | Revoke(permissions: set<string>, user: nat, role: nat)
    | Create(slug: Option<string>, name: string, price: Option<string>, annualPrice: Option<string>,
             active: bool, visible: bool)
    | Update(id: nat, u: PlanUpdate)
    | Activate(id: nat)
    | Deactivate(id: nat)
}
