/**
 * Delegated administration: who may grant which roles and org-tree nodes
 * (backend/app/api/users.py). A request that raises leaves the database as it was,
 * because get_db rolls the session back.
 */
module Delegation {
  import opened Wrappers
  import opened Sequences
  import opened OrgTree
  import opened Accounts
  import opened TenantScope

  datatype ApiError = Unauthenticated | PermissionDenied | Validation | Conflict | NotFound

  type Users = map<int, User>

  datatype CreateBody = CreateBody(email: string, isActive: bool, roleIds: seq<int>, organizationIds: seq<int>)

  /** None leaves the attribute as it is. */
  datatype UpdateBody = UpdateBody(
    email: Option<string>, isActive: Option<bool>, roleIds: Option<seq<int>>, organizationIds: Option<seq<int>>)

  /** The tables a request reads and no request here writes. */
  datatype Site = Site(tree: Table, roles: map<int, Role>)

  // ── The checks ───────────────────────────────────────────────────────────

  function LoadRoles(site: Site, roleIds: seq<int>): Result<seq<Role>, ApiError> {
    if exists id :: id in roleIds && id !in site.roles then Err(Validation)
    else
      var ids := FirstSeen(roleIds);
      Ok(seq(|ids|, i requires 0 <= i < |ids| => site.roles[ids[i]]))
  }

  predicate GrantsSuperAdmin(roles: seq<Role>) {
    exists r :: r in roles && r.name == SUPER_ADMIN_ROLE
  }

  predicate MayAssign(actor: User, roles: seq<Role>) {
    GrantsSuperAdmin(roles) ==> actor.IsSuper()
  }

  /** The nodes a granted list reaches: the union of the sub-trees. */
  function Coverage(t: Table, nodes: seq<int>): seq<int> {
    DescendantsSubqueryMulti(t, nodes)
  }

  function LoadOrgs(site: Site, orgIds: seq<int>, actor: User): Result<seq<int>, ApiError> {
    if orgIds == [] then Ok([])
    else
      var found := Ids(WhereIdIn(site.tree, orgIds));
      if exists o :: o in orgIds && o !in found then Err(Validation)
      else
        var grantable := if actor.organizations == [] then [] else Coverage(site.tree, actor.organizations);
        if !actor.IsSuper() && exists o :: o in found && o !in grantable then Err(PermissionDenied)
        else Ok(found)
  }

  /** get_current_user, require_permission("users.manage") and the TenantOrgId gate. */
  function Admit(site: Site, users: Users, actorId: int, header: Selector): Result<User, ApiError> {
    if actorId !in users || !users[actorId].isActive then Err(Unauthenticated)
    else
      var actor := users[actorId];
      if !actor.IsSuper() && !actor.HasPermission("users.manage") then Err(PermissionDenied)
      else if GetTenantOrgId(site.tree, actor, header).Err? then Err(PermissionDenied)
      else Ok(actor)
  }

  predicate EmailTaken(users: Users, email: string, except: Option<int>) {
    exists id :: id in users && Some(id) != except && users[id].email == email
  }

  // ── The two requests as functions of the database ────────────────────────

  function Created(site: Site, users: Users, actor: User, body: CreateBody, newId: int): Result<User, ApiError> {
    if EmailTaken(users, body.email, None) then Err(Conflict)
    else
      var roles := LoadRoles(site, body.roleIds);
      if roles.Err? then Err(roles.error)
      else if !MayAssign(actor, roles.value) then Err(PermissionDenied)
      else
        var orgs := LoadOrgs(site, body.organizationIds, actor);
        if orgs.Err? then Err(orgs.error)
        else Ok(User(newId, body.email, body.isActive, roles.value, orgs.value))
  }

  function Updated(site: Site, users: Users, actor: User, target: User, body: UpdateBody): Result<User, ApiError> {
    if !actor.IsSuper() && target.IsSuper() then Err(PermissionDenied)
    else if body.email.Some? && body.email.value != target.email && EmailTaken(users, body.email.value, Some(target.id))
    then Err(Conflict)
    else if body.isActive.Some? && body.isActive.value != target.isActive && target.id == actor.id then Err(Validation)
    else
      var roles := if body.roleIds.Some? then LoadRoles(site, body.roleIds.value) else Ok(target.roles);
      if roles.Err? then Err(roles.error)
      else if body.roleIds.Some? && !MayAssign(actor, roles.value) then Err(PermissionDenied)
      else if body.roleIds.Some? && target.IsSuper() && !GrantsSuperAdmin(roles.value) && !actor.IsSuper()
      then Err(PermissionDenied)
      else if body.roleIds.Some? && target.IsSuper() && !GrantsSuperAdmin(roles.value) && target.id == actor.id
      then Err(Validation)
      else
        var orgs := if body.organizationIds.Some? then LoadOrgs(site, body.organizationIds.value, actor)
                    else Ok(target.organizations);
        if orgs.Err? then Err(orgs.error)
        else Ok(User(target.id, body.email.GetOr(target.email), body.isActive.GetOr(target.isActive),
                     roles.value, orgs.value))
  }

  /** The users table and the requests that write it. */
  class UserAdmin {
    const site: Site
    var users: Users

    constructor (site: Site, users: Users)
      ensures this.site == site && this.users == users
    {
      this.site := site;
      this.users := users;
    }

    ghost predicate Valid()
      reads this
    {
      forall id :: id in users ==> users[id].id == id
    }

    method CreateUser(actorId: int, header: Selector, body: CreateBody) returns (r: Result<User, ApiError>)
      requires Valid()
      modifies this
      ensures Valid()
      ensures var actor := Admit(site, old(users), actorId, header);
              if actor.Err? then r == Err(actor.error)
              else exists newId :: newId !in old(users) && r == Created(site, old(users), actor.value, body, newId)
      ensures users == if r.Err? then old(users) else old(users)[r.value.id := r.value]
      ensures r.Ok? ==> r.value.id !in old(users)
      ensures exists newId :: newId !in old(users)
                              && users == Step(site, old(users), Create(actorId, header, body, newId))
    {
      hide Step;
      ghost var before := users;
      var admitted := Admit(site, users, actorId, header);
      FreshIdExists(users.Keys);
      var newId :| newId !in users;
      CreateStep(site, before, actorId, header, body, newId);
      if admitted.Err? { return Err(admitted.error); }
      var actor := admitted.value;
      if EmailTaken(users, body.email, None) { return Err(Conflict); }
      var roles := LoadRoles(site, body.roleIds);
      if roles.Err? { return Err(roles.error); }
      if !MayAssign(actor, roles.value) { return Err(PermissionDenied); }
      var target := User(newId, body.email, body.isActive, [], []);
      var orgs := LoadOrgs(site, body.organizationIds, actor);
      if orgs.Err? { return Err(orgs.error); }
      target := target.(organizations := orgs.value);
      target := target.(roles := roles.value);
      users := users[newId := target];
      r := Ok(target);
    }

    method UpdateUser(actorId: int, header: Selector, userId: int, body: UpdateBody)
      returns (r: Result<User, ApiError>)
      requires Valid()
      modifies this
      ensures Valid()
      ensures var actor := Admit(site, old(users), actorId, header);
              r == if actor.Err? then Err(actor.error)
                   else if userId !in old(users) then Err(NotFound)
                   else Updated(site, old(users), actor.value, old(users)[userId], body)
      ensures users == if r.Err? then old(users) else old(users)[userId := r.value]
      ensures users == Step(site, old(users), Update(actorId, header, userId, body))
    {
      hide Step;
      UpdateStep(site, users, actorId, header, userId, body);
      var admitted := Admit(site, users, actorId, header);
      if admitted.Err? { return Err(admitted.error); }
      var actor := admitted.value;
      var isSuper := actor.IsSuper();
      if userId !in users { return Err(NotFound); }
      var target := users[userId];
      if !isSuper && target.IsSuper() { return Err(PermissionDenied); }
      if body.email.Some? && body.email.value != target.email {
        if EmailTaken(users, body.email.value, Some(target.id)) { return Err(Conflict); }
        target := target.(email := body.email.value);
      }
      if body.isActive.Some? && body.isActive.value != target.isActive {
        if target.id == actor.id { return Err(Validation); }
        target := target.(isActive := body.isActive.value);
      }
      if body.roleIds.Some? {
        var roles := LoadRoles(site, body.roleIds.value);
        if roles.Err? { return Err(roles.error); }
        if !MayAssign(actor, roles.value) { return Err(PermissionDenied); }
        var hadSuper := target.IsSuper();
        var keepsSuper := GrantsSuperAdmin(roles.value);
        if hadSuper && !keepsSuper && !isSuper { return Err(PermissionDenied); }
        if target.id == actor.id && hadSuper && !keepsSuper { return Err(Validation); }
        target := target.(roles := roles.value);
      }
      if body.organizationIds.Some? {
        var orgs := LoadOrgs(site, body.organizationIds.value, actor);
        if orgs.Err? { return Err(orgs.error); }
        target := target.(organizations := orgs.value);
      }
      users := users[userId := target];
      r := Ok(target);
    }
  }

  // ── One grant ────────────────────────────────────────────────────────────

  lemma LoadOrgsMeaning(site: Site, orgIds: seq<int>, actor: User)
    ensures var r := LoadOrgs(site, orgIds, actor);
            r.Ok? ==> forall o :: o in r.value <==> o in orgIds
    ensures var r := LoadOrgs(site, orgIds, actor);
            r.Ok? && !actor.IsSuper() ==> forall o :: o in r.value ==> o in Coverage(site.tree, actor.organizations)
  {
    hide Coverage;
    if orgIds != [] {
      var found := Ids(WhereIdIn(site.tree, orgIds));
      forall o ensures o in found ==> o in orgIds {
        BaseRows(site.tree, orgIds, o);
        IdsMember(WhereIdIn(site.tree, orgIds), o);
      }
    }
  }

  /** m is under one of the nodes of g, each of which is under one of the nodes of n. */
  lemma CoverageNests(t: Table, n: seq<int>, g: seq<int>, m: int)
    requires CapSuffices(t)
    requires forall o :: o in g ==> o in Coverage(t, n)
    requires m in Coverage(t, g)
    ensures m in Coverage(t, n)
  {
    hide DescendantsSubqueryMulti, DescendantsSubquery;
    MultiSeedIsUnion(t, g, m);
    var o :| o in g && m in DescendantsSubquery(t, o);
    MultiSeedIsUnion(t, n, o);
    var a :| a in n && o in DescendantsSubquery(t, a);
    NestingNeedsTheCap(t);
    assert m in DescendantsSubquery(t, a);
    MultiSeedIsUnion(t, n, m);
  }

  /** Every list that the loader accepts from an account that is not a super admin stays inside what it covers. */
  ghost predicate GrantsStayInside(site: Site) {
    forall orgIds: seq<int>, actor: User, m: int ::
      !actor.IsSuper() && LoadOrgs(site, orgIds, actor).Ok?
      && m in Coverage(site.tree, LoadOrgs(site, orgIds, actor).value)
      ==> m in Coverage(site.tree, actor.organizations)
  }

  /** The loader is closed exactly on the trees whose ancestry the walk's cap covers. */
  lemma DelegationIsClosed(site: Site)
    ensures GrantsStayInside(site) <==> CapSuffices(site.tree)
  {
    hide Coverage, LoadOrgs, DescendantsSubquery;
    var t := site.tree;
    if CapSuffices(t) {
      forall orgIds: seq<int>, actor: User, m: int
        | !actor.IsSuper() && LoadOrgs(site, orgIds, actor).Ok?
          && m in Coverage(t, LoadOrgs(site, orgIds, actor).value)
        ensures m in Coverage(t, actor.organizations)
      {
        LoadOrgsMeaning(site, orgIds, actor);
        CoverageNests(t, actor.organizations, LoadOrgs(site, orgIds, actor).value, m);
      }
    }
    if GrantsStayInside(site) {
      forall n, g, m | g in DescendantsSubquery(t, n) && m in DescendantsSubquery(t, g)
        ensures m in DescendantsSubquery(t, n)
      {
        SingleGrant(site, n, g, m);
      }
      NestingNeedsTheCap(t);
    }
  }

  /** Whoever holds node n may grant any node of its sub-tree. */
  lemma GrantBelow(site: Site, actor: User, n: int, g: int)
    requires n in actor.organizations && g in DescendantsSubquery(site.tree, n)
    ensures LoadOrgs(site, [g], actor).Ok? && forall o :: o in LoadOrgs(site, [g], actor).value <==> o == g
  {
    hide DescendantsSubqueryMulti, DescendantsSubquery, WhereIdIn, Ancestor;
    var t := site.tree;
    assert g in Coverage(t, actor.organizations) by { MultiSeedIsUnion(t, actor.organizations, g); }
    assert HasRow(t, g) by { WithinIsDescent(t, g, n); WithinHasRows(t, g, n); }
    var found := Ids(WhereIdIn(t, [g]));
    forall o ensures o in found <==> o == g {
      BaseRows(t, [g], o);
      IdsMember(WhereIdIn(t, [g]), o);
    }
    assert LoadOrgs(site, [g], actor) == Ok(found);
  }

  lemma SingleGrant(site: Site, n: int, g: int, m: int)
    requires GrantsStayInside(site)
    requires g in DescendantsSubquery(site.tree, n) && m in DescendantsSubquery(site.tree, g)
    ensures m in DescendantsSubquery(site.tree, n)
  {
    hide DescendantsSubqueryMulti, DescendantsSubquery, WhereIdIn, Ancestor;
    var t := site.tree;
    var actor := User(0, "", true, [], [n]);
    GrantBelow(site, actor, n, g);
    var found := LoadOrgs(site, [g], actor).value;
    assert m in Coverage(t, found) by { MultiSeedIsUnion(t, found, m); }
    assert m in Coverage(t, [n]);
    MultiSeedIsUnion(t, [n], m);
  }

  // ── Runs of requests by tenant admins ────────────────────────────────────

  datatype Request =
    | Create(actorId: int, header: Selector, create: CreateBody, newId: int)
    | Update(actorId: int, header: Selector, userId: int, update: UpdateBody)

  /** The users table after one request; an unfresh newId cannot come from the database. */
  function Step(site: Site, users: Users, req: Request): Users {
    var actor := Admit(site, users, req.actorId, req.header);
    if actor.Err? then users
    else match req
      case Create(_, _, body, newId) =>
        if newId in users then users
        else
          var r := Created(site, users, actor.value, body, newId);
          if r.Ok? then users[newId := r.value] else users
      case Update(_, _, userId, body) =>
        if userId !in users then users
        else
          var r := Updated(site, users, actor.value, users[userId], body);
          if r.Ok? then users[userId := r.value] else users
  }

  lemma CreateStep(site: Site, users: Users, actorId: int, header: Selector, body: CreateBody, newId: int)
    requires newId !in users
    ensures var actor := Admit(site, users, actorId, header);
            Step(site, users, Create(actorId, header, body, newId))
            == if actor.Err? then users
               else
                 var r := Created(site, users, actor.value, body, newId);
                 if r.Ok? then users[newId := r.value] else users
  {}

  lemma UpdateStep(site: Site, users: Users, actorId: int, header: Selector, userId: int, body: UpdateBody)
    ensures var actor := Admit(site, users, actorId, header);
            Step(site, users, Update(actorId, header, userId, body))
            == if actor.Err? || userId !in users then users
               else
                 var r := Updated(site, users, actor.value, users[userId], body);
                 if r.Ok? then users[userId := r.value] else users
  {}

  function Run(site: Site, users: Users, reqs: seq<Request>): Users
    decreases |reqs|
  {
    if reqs == [] then users else Run(site, Step(site, users, reqs[0]), reqs[1..])
  }

  ghost function SuperAdmins(users: Users): set<int> {
    set id | id in users && users[id].IsSuper()
  }

  /** Some tenant account covers node m. */
  ghost predicate Covered(site: Site, users: Users, m: int) {
    exists id :: id in users && !users[id].IsSuper() && m in Coverage(site.tree, users[id].organizations)
  }

  ghost predicate TenantAdmins(users: Users, reqs: seq<Request>) {
    forall i :: 0 <= i < |reqs| ==> !(reqs[i].actorId in SuperAdmins(users))
  }

  lemma StepBySuperless(site: Site, users: Users, req: Request)
    requires req.actorId !in SuperAdmins(users)
    ensures SuperAdmins(Step(site, users, req)) == SuperAdmins(users)
    ensures CapSuffices(site.tree) ==> forall m :: Covered(site, Step(site, users, req), m) ==> Covered(site, users, m)
  {
    hide Coverage, LoadOrgs, LoadRoles;
    var users' := Step(site, users, req);
    var id := if req.Create? then req.newId else req.userId;
    if users' != users {
      var actor := users[req.actorId];
      assert !actor.IsSuper();
      assert users' == users[id := users'[id]];
      TouchedAccount(site, users, req, id);
      forall m | CapSuffices(site.tree) && Covered(site, users', m) ensures Covered(site, users, m) {
        var u :| u in users' && !users'[u].IsSuper() && m in Coverage(site.tree, users'[u].organizations);
        if u == id && !(id in users && users'[id].organizations == users[id].organizations) {
          CoverageNests(site.tree, actor.organizations, users'[id].organizations, m);
          assert req.actorId in users;
        }
      }
    }
  }

  /** The account a tenant admin's accepted request writes is not a super admin before or
      after, and its grants are either the old ones or nodes the admin covers. */
  lemma TouchedAccount(site: Site, users: Users, req: Request, id: int)
    requires req.actorId !in SuperAdmins(users)
    requires id == if req.Create? then req.newId else req.userId
    requires Step(site, users, req) != users
    ensures var users' := Step(site, users, req);
            && req.actorId in users && id in users'
            && !users'[id].IsSuper() && (id in users ==> !users[id].IsSuper())
            && ((id in users && users'[id].organizations == users[id].organizations)
                || forall o :: o in users'[id].organizations ==> o in Coverage(site.tree,
                                                                               users[req.actorId].organizations))
  {
    hide Coverage, LoadOrgs, LoadRoles;
    var actor := users[req.actorId];
    match req
    case Create(_, _, body, _) => LoadOrgsMeaning(site, body.organizationIds, actor);
    case Update(_, _, _, body) =>
      if body.organizationIds.Some? { LoadOrgsMeaning(site, body.organizationIds.value, actor); }
  }

  /**
   * Over any run of requests by accounts that are not super admins the super admins stay exactly the same, on any
   * tree; and where the cap covers the tree no node becomes covered that no tenant account covered before.
   */
  lemma {:induction false} DelegationNeverEscalates(site: Site, users: Users, reqs: seq<Request>)
    requires TenantAdmins(users, reqs)
    ensures SuperAdmins(Run(site, users, reqs)) == SuperAdmins(users)
    ensures CapSuffices(site.tree) ==> forall m :: Covered(site, Run(site, users, reqs), m) ==> Covered(site, users, m)
    decreases |reqs|
  {
    hide Covered, SuperAdmins, Step, CapSuffices;
    if reqs != [] {
      StepBySuperless(site, users, reqs[0]);
      DelegationNeverEscalates(site, Step(site, users, reqs[0]), reqs[1..]);
    }
  }

  // ── Exactly when coverage can grow ───────────────────────────────────────

  /** No run of requests by tenant admins makes them cover anything new. */
  ghost predicate NeverGrows(site: Site) {
    forall users: Users, reqs: seq<Request>, m: int ::
      TenantAdmins(users, reqs) && Covered(site, Run(site, users, reqs), m) ==> Covered(site, users, m)
  }

  ghost predicate NoCompany(t: Table) {
    forall r :: !IsRoot(t, r)
  }

  /** Without a company root every tenant admin is turned away at the gate. */
  lemma NobodyIsAdmitted(site: Site, users: Users, req: Request)
    requires NoCompany(site.tree) && req.actorId !in SuperAdmins(users)
    ensures Step(site, users, req) == users
  {
    hide RootIdsOf, RootIdOf;
    if req.actorId in users {
      var t, orgs := site.tree, users[req.actorId].organizations;
      assert RootIdsOf(t, orgs) != [] ==> RootIdsOf(t, orgs)[0] in RootIdsOf(t, orgs);
      forall r ensures r !in RootIdsOf(t, orgs) {
        RootIdsOfMeaning(t, orgs, r);
        forall n ensures RootIdOf(t, n) != Some(r) { RootIdIsWithin(t, n, r); }
      }
    }
  }

  lemma {:induction false} NothingHappens(site: Site, users: Users, reqs: seq<Request>)
    requires NoCompany(site.tree) && TenantAdmins(users, reqs)
    ensures Run(site, users, reqs) == users
    decreases |reqs|
  {
    hide SuperAdmins, Step, NoCompany;
    if reqs != [] {
      NobodyIsAdmitted(site, users, reqs[0]);
      NothingHappens(site, users, reqs[1..]);
    }
  }

  /** An account that holds nodes n and r and may manage users, and nothing else. */
  function Manager(n: int, r: int): User {
    User(1, "manager", true, [Role(1, "manager", {"users.manage"})], [n, r])
  }

  /** Its request, under company r's header, for a new account that holds node g. */
  function Grant(r: int, g: int): Request {
    Create(1, Names(r), CreateBody("grantee", true, [], [g]), 2)
  }

  lemma ManagerIsAdmitted(site: Site, n: int, r: int)
    requires IsRoot(site.tree, r)
    ensures Admit(site, map[1 := Manager(n, r)], 1, Names(r)) == Ok(Manager(n, r))
    ensures !Manager(n, r).IsSuper()
  {
    hide RootIdsOf, RootIdOf, IsRoot;
    var t, actor := site.tree, Manager(n, r);
    assert actor.roles[0] in actor.roles;
    assert actor.HasPermission("users.manage");
    assert HasRow(t, r) by { RootHasRow(t, r); }
    SelfWithin(t, r);
    RootIdIsWithin(t, r, r);
    assert r in actor.organizations;
    RootIdsOfMeaning(t, actor.organizations, r);
  }

  lemma RootHasRow(t: Table, r: int)
    requires IsRoot(t, r)
    ensures HasRow(t, r)
  {}

  /** The request is granted, and the new account covers everything below g. */
  lemma GranteeCovers(site: Site, n: int, r: int, g: int, m: int)
    requires IsRoot(site.tree, r) && g in DescendantsSubquery(site.tree, n) && m in DescendantsSubquery(site.tree, g)
    ensures Covered(site, Run(site, map[1 := Manager(n, r)], [Grant(r, g)]), m)
  {
    hide RootIdsOf, RootIdOf, IsRoot, DescendantsSubquery, DescendantsSubqueryMulti, LoadOrgs, Admit, Covered;
    var users, actor := map[1 := Manager(n, r)], Manager(n, r);
    ManagerIsAdmitted(site, n, r);
    assert n in actor.organizations;
    GrantBelow(site, actor, n, g);
    var granted := LoadOrgs(site, [g], actor).value;
    var grantee := User(2, "grantee", true, [], granted);
    NoRoles(site);
    assert !EmailTaken(users, "grantee", None);
    assert MayAssign(actor, []);
    assert Created(site, users, actor, Grant(r, g).create, 2) == Ok(grantee);
    assert Step(site, users, Grant(r, g)) == users[2 := grantee];
    RunOne(site, users, Grant(r, g));
    assert m in Coverage(site.tree, granted) by { MultiSeedIsUnion(site.tree, granted, m); }
    CoveredBy(site, users[2 := grantee], 2, m);
  }

  lemma NoRoles(site: Site)
    ensures LoadRoles(site, []) == Ok([])
  {
    assert FirstSeen([]) == [];
    assert LoadRoles(site, []).value == [];
  }

  lemma RunOne(site: Site, users: Users, req: Request)
    ensures Run(site, users, [req]) == Step(site, users, req)
  {
    assert [req][1..] == [];
  }

  lemma CoveredBy(site: Site, users: Users, id: int, m: int)
    requires id in users && !users[id].IsSuper() && m in Coverage(site.tree, users[id].organizations)
    ensures Covered(site, users, m)
  {}

  /** Nodes out of reach of n and r are not covered by the manager of both. */
  lemma ManagerCovers(site: Site, n: int, r: int, m: int)
    requires m !in DescendantsSubquery(site.tree, n) && m !in DescendantsSubquery(site.tree, r)
    ensures !Covered(site, map[1 := Manager(n, r)], m)
  {
    hide DescendantsSubquery, DescendantsSubqueryMulti;
    MultiSeedIsUnion(site.tree, [n, r], m);
  }

  /**
   * Where the cap does not cover m, one request by the manager of m's 65th ancestor n and of any company r covers m,
   * which nobody covered before.
   */
  lemma UncoveredNodeEscapes(site: Site, m: int, r: int)
    requires IsRoot(site.tree, r) && !CapCovers(site.tree, m)
    ensures var t := site.tree;
            var n, g := Ancestor(t, m, MAX_TREE_DEPTH + 1).value, Ancestor(t, m, 1).GetOr(m);
            && TenantAdmins(map[1 := Manager(n, r)], [Grant(r, g)])
            && Covered(site, Run(site, map[1 := Manager(n, r)], [Grant(r, g)]), m)
            && !Covered(site, map[1 := Manager(n, r)], m)
  {
    hide DescendantsSubquery, Ancestor, Covered, Run;
    var t := site.tree;
    var n := Ancestor(t, m, MAX_TREE_DEPTH + 1).value;
    AncestorSplit(t, m, 1, MAX_TREE_DEPTH);
    var g := Ancestor(t, m, 1).value;
    WithinIsDescent(t, g, n);
    WithinIsDescent(t, m, g);
    WithinIsDescent(t, m, n);
    WithinIsDescent(t, m, r);
    if Within(t, m, r) {
      var k: nat :| k <= MAX_TREE_DEPTH && Ancestor(t, m, k) == Some(r);
      NothingAboveARoot(t, m, k, MAX_TREE_DEPTH + 1);
    }
    ManagerIsAdmitted(site, n, r);
    GranteeCovers(site, n, r, g, m);
    ManagerCovers(site, n, r, m);
  }

  /** Delegation is closed exactly where the cap covers the tree, or there is no company for anyone to act in. */
  lemma DelegationIsClosedExactly(site: Site)
    ensures NeverGrows(site) <==> CapSuffices(site.tree) || NoCompany(site.tree)
  {
    hide Covered, Run, CapCovers, IsRoot, TenantAdmins;
    if CapSuffices(site.tree) || NoCompany(site.tree) {
      forall users: Users, reqs: seq<Request>, m: int
        | TenantAdmins(users, reqs) && Covered(site, Run(site, users, reqs), m)
        ensures Covered(site, users, m)
      {
        if CapSuffices(site.tree) {
          DelegationNeverEscalates(site, users, reqs);
        } else {
          NothingHappens(site, users, reqs);
        }
      }
    } else {
      var m :| !CapCovers(site.tree, m);
      var r :| IsRoot(site.tree, r);
      UncoveredNodeEscapes(site, m, r);
    }
  }

  /** On the chain of 66 organizations the manager of its top creates an account that covers its end. */
  lemma DeepGrantEscapes()
    ensures var site, users := Site(DeepChain(), map[]), map[1 := Manager(0, 0)];
            && TenantAdmins(users, [Grant(0, 1)])
            && Covered(site, Run(site, users, [Grant(0, 1)]), 65) && !Covered(site, users, 65)
  {
    hide DescendantsSubquery, DeepChain, Covered, Run, Ancestor;
    var site := Site(DeepChain(), map[]);
    DeepChainIsNotCovered();
    DeepChainTop();
    ManagerIsAdmitted(site, 0, 0);
    GranteeCovers(site, 0, 0, 1, 65);
    ManagerCovers(site, 0, 0, 65);
  }
}
