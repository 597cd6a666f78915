/**
 * Exactly which requests of backend/app/api/users.py are admitted and accepted, and what no run of them can break.
 */
module AccountRuns {
  import opened Wrappers
  import opened Sequences
  import opened OrgTree
  import opened Accounts
  import opened TenantScope
  import opened Delegation

  // ── Who is let in ────────────────────────────────────────────────────────

  ghost predicate HoldsRole(user: User, name: string) {
    exists r :: r in user.roles && r.name == name
  }

  ghost predicate HoldsPermission(user: User, permission: string) {
    exists r :: r in user.roles && permission in r.permissions
  }

  /** The user acts in company r: the header names it, or they work in no other. */
  ghost predicate ActsIn(t: Table, user: User, header: Selector, r: int) {
    WorksIn(t, user, r) && ((header.Names? && RootIdOf(t, header.id) == Some(r)) || WorksOnlyIn(t, user, r))
  }

  lemma TenantIsKnown(t: Table, user: User, header: Selector)
    requires !user.IsSuper()
    ensures GetTenantOrgId(t, user, header).Ok? <==> exists r :: ActsIn(t, user, header, r)
  {
    hide GetTenantOrgId, ResolveReadScopes, ResolveIdentity, RootIdOf, WorksOnlyIn;
    if NamesNoCompany(t, header) {
      TenantWithoutACompany(t, user, header);
      OnlyWorkplaces(t, user);
      forall q ensures ActsIn(t, user, header, q) <==> WorksOnlyIn(t, user, q) {}
    } else {
      var r := RootIdOf(t, header.id).value;
      TenantActsInTheNamedCompany(t, user, header.id, r);
      TenantWithoutACompany(t, user, Absent);
      OnlyWorkplaces(t, user);
      if WorksIn(t, user, r) {
        assert ActsIn(t, user, header, r);
      } else {
        forall q ensures ActsIn(t, user, header, q) <==> WorksOnlyIn(t, user, q) {}
      }
    }
  }

  lemma OnlyWorkplaces(t: Table, user: User)
    ensures forall r :: WorksOnlyIn(t, user, r) ==> WorksIn(t, user, r)
    ensures user.organizations == [] ==> forall r :: !WorksIn(t, user, r)
  {
    hide RootIdOf;
    forall r | WorksOnlyIn(t, user, r) ensures WorksIn(t, user, r) { assert WorksIn(t, user, r) <==> r == r; }
  }

  /**
   * A request passes the gates exactly if its account is active and is a super admin's, or may manage users and acts
   * in a company.
   */
  lemma AdmittedExactly(site: Site, users: Users, actorId: int, header: Selector)
    ensures var r := Admit(site, users, actorId, header);
            && (r == Err(Unauthenticated) <==> !(actorId in users && users[actorId].isActive))
            && (r.Err? && r != Err(Unauthenticated) ==> r == Err(PermissionDenied))
            && (r.Ok? ==> actorId in users && r.value == users[actorId])
            && (r.Ok? <==>
                  && actorId in users && users[actorId].isActive
                  && (HoldsRole(users[actorId], "super_admin")
                      || (HoldsPermission(users[actorId], "users.manage")
                          && exists o :: ActsIn(site.tree, users[actorId], header, o))))
  {
    hide GetTenantOrgId, ActsIn;
    if actorId in users {
      var actor := users[actorId];
      if actor.IsSuper() {
        SuperAdminIsNeverRefused(site.tree, actor, header);
      } else {
        TenantIsKnown(site.tree, actor, header);
      }
    }
  }

  lemma SuperAdminIsNeverRefused(t: Table, user: User, header: Selector)
    requires user.IsSuper()
    ensures GetTenantOrgId(t, user, header).Ok?
  {}

  // ── What is accepted ─────────────────────────────────────────────────────

  ghost predicate RolesExist(site: Site, roleIds: seq<int>) {
    forall id :: id in roleIds ==> id in site.roles
  }

  ghost predicate NamesSuperAdmin(site: Site, roleIds: seq<int>) {
    exists id :: id in roleIds && id in site.roles && site.roles[id].name == "super_admin"
  }

  /** The roles named, each once. */
  ghost predicate AreTheRoles(roles: seq<Role>, site: Site, roleIds: seq<int>) {
    && (forall r :: r in roles <==> exists id :: id in roleIds && id in site.roles && site.roles[id] == r)
    && exists ids: seq<int> :: NoDup(ids) && (forall id :: id in ids <==> id in roleIds) && |ids| == |roles|
  }

  lemma LoadRolesExactly(site: Site, roleIds: seq<int>)
    ensures LoadRoles(site, roleIds) == Err(Validation) <==> !RolesExist(site, roleIds)
    ensures LoadRoles(site, roleIds).Ok? <==> RolesExist(site, roleIds)
    ensures LoadRoles(site, roleIds).Ok? ==>
              && AreTheRoles(LoadRoles(site, roleIds).value, site, roleIds)
              && (GrantsSuperAdmin(LoadRoles(site, roleIds).value) <==> NamesSuperAdmin(site, roleIds))
  {
    var loaded := LoadRoles(site, roleIds);
    if loaded.Ok? {
      var ids, roles := FirstSeen(roleIds), loaded.value;
      forall r | r in roles ensures exists id :: id in roleIds && id in site.roles && site.roles[id] == r {
        var i :| 0 <= i < |roles| && roles[i] == r;
        var id := ids[i];
        assert id in ids && id in site.roles && site.roles[id] == r;
      }
      forall id | id in roleIds ensures site.roles[id] in roles {
        var i :| 0 <= i < |ids| && ids[i] == id;
        assert roles[i] == site.roles[id];
      }
      assert |ids| == |roles|;
    }
  }

  ghost predicate NodesExist(site: Site, orgIds: seq<int>) {
    forall o :: o in orgIds ==> HasRow(site.tree, o)
  }

  /** Each node is one of the account's own, or at most 64 steps below one. */
  ghost predicate NodesAreBelow(site: Site, orgIds: seq<int>, actor: User) {
    forall o :: o in orgIds ==> exists g :: g in actor.organizations && Within(site.tree, o, g)
  }

  /** A list of nodes may be granted exactly if they exist and are the account's to give. */
  lemma LoadOrgsExactly(site: Site, orgIds: seq<int>, actor: User)
    ensures var r := LoadOrgs(site, orgIds, actor);
            && (r.Ok? <==> NodesExist(site, orgIds)
                           && (HoldsRole(actor, "super_admin") || NodesAreBelow(site, orgIds, actor)))
            && (r.Err? ==> r == Err(if NodesExist(site, orgIds) then PermissionDenied else Validation))
            && (r.Ok? ==> forall o :: o in r.value <==> o in orgIds)
  {
    hide Coverage, HasRow, Within, WhereIdIn;
    var found := Ids(WhereIdIn(site.tree, orgIds));
    forall o ensures o in found <==> o in orgIds && HasRow(site.tree, o) {
      BaseRows(site.tree, orgIds, o);
      IdsMember(WhereIdIn(site.tree, orgIds), o);
    }
    forall o ensures o in Coverage(site.tree, actor.organizations)
                <==> exists g :: g in actor.organizations && Within(site.tree, o, g) {
      CoverageIsBelow(site.tree, actor.organizations, o);
    }
    assert actor.IsSuper() <==> HoldsRole(actor, "super_admin");
    if actor.organizations == [] { assert forall o :: o !in Coverage(site.tree, actor.organizations); }
    GrantDecision(site, orgIds, actor, found);
  }

  lemma CoverageIsBelow(t: Table, nodes: seq<int>, o: int)
    ensures o in Coverage(t, nodes) <==> exists g :: g in nodes && Within(t, o, g)
  {
    hide DescendantsSubquery, DescendantsSubqueryMulti, Within;
    MultiSeedIsUnion(t, nodes, o);
    forall g ensures o in DescendantsSubquery(t, g) <==> Within(t, o, g) { WithinIsDescent(t, o, g); }
  }

  lemma GrantDecision(site: Site, orgIds: seq<int>, actor: User, found: seq<int>)
    requires found == Ids(WhereIdIn(site.tree, orgIds))
    requires forall o :: o in found <==> o in orgIds && HasRow(site.tree, o)
    requires forall o :: o in Coverage(site.tree, actor.organizations)
                    <==> exists g :: g in actor.organizations && Within(site.tree, o, g)
    requires actor.IsSuper() <==> HoldsRole(actor, "super_admin")
    ensures var r := LoadOrgs(site, orgIds, actor);
            && (r.Ok? <==> NodesExist(site, orgIds)
                           && (HoldsRole(actor, "super_admin") || NodesAreBelow(site, orgIds, actor)))
            && (r.Err? ==> r == Err(if NodesExist(site, orgIds) then PermissionDenied else Validation))
            && (r.Ok? ==> forall o :: o in r.value <==> o in orgIds)
  {
    hide Coverage, HasRow, Within, WhereIdIn, HoldsRole;
  }

  ghost predicate EmailFree(users: Users, email: string, own: Option<int>) {
    forall id :: id in users && users[id].email == email ==> own == Some(id)
  }

  /** What a new account, or a change of one, asks for in roles and nodes, may be granted by the actor. */
  ghost predicate RolesMayBeGiven(site: Site, roleIds: seq<int>, actor: User) {
    RolesExist(site, roleIds) && (NamesSuperAdmin(site, roleIds) ==> HoldsRole(actor, "super_admin"))
  }

  ghost predicate NodesMayBeGiven(site: Site, orgIds: seq<int>, actor: User) {
    NodesExist(site, orgIds) && (HoldsRole(actor, "super_admin") || NodesAreBelow(site, orgIds, actor))
  }

  /** An account is created exactly if its email is free and its roles and nodes are the actor's to give. */
  lemma CreatedExactly(site: Site, users: Users, actor: User, body: CreateBody, newId: int)
    ensures var r := Created(site, users, actor, body, newId);
            && (r.Ok? <==> && EmailFree(users, body.email, None)
                           && RolesMayBeGiven(site, body.roleIds, actor)
                           && NodesMayBeGiven(site, body.organizationIds, actor))
            && (r.Ok? ==> && r.value.id == newId && r.value.email == body.email && r.value.isActive == body.isActive
                          && AreTheRoles(r.value.roles, site, body.roleIds)
                          && forall o :: o in r.value.organizations <==> o in body.organizationIds)
  {
    hide LoadRoles, LoadOrgs, AreTheRoles, NamesSuperAdmin, GrantsSuperAdmin, RolesExist, NodesExist, NodesAreBelow;
    LoadRolesExactly(site, body.roleIds);
    LoadOrgsExactly(site, body.organizationIds, actor);
    EmailTakenExactly(users, body.email, None);
    assert actor.IsSuper() <==> HoldsRole(actor, "super_admin");
  }

  lemma EmailTakenExactly(users: Users, email: string, own: Option<int>)
    ensures EmailTaken(users, email, own) <==> !EmailFree(users, email, own)
  {
    if EmailTaken(users, email, own) {
      var id :| id in users && Some(id) != own && users[id].email == email;
      assert !(own == Some(id));
    }
  }

  /** When a change of an account is allowed. */
  ghost predicate MayChange(site: Site, users: Users, actor: User, target: User, body: UpdateBody) {
    && (HoldsRole(target, "super_admin") ==> HoldsRole(actor, "super_admin"))
    && (body.email.Some? ==> body.email.value == target.email || EmailFree(users, body.email.value, Some(target.id)))
    && (body.isActive.Some? ==> body.isActive.value == target.isActive || target.id != actor.id)
    && (body.roleIds.Some? ==>
          && RolesMayBeGiven(site, body.roleIds.value, actor)
          && (HoldsRole(target, "super_admin") && target.id == actor.id ==> NamesSuperAdmin(site, body.roleIds.value)))
    && (body.organizationIds.Some? ==> NodesMayBeGiven(site, body.organizationIds.value, actor))
  }

  /**
   * An account is changed exactly if: only super admins touch super admins, the new email is free, nobody switches
   * themselves on or off or drops their own super admin role, and roles and nodes are the actor's to give.
   */
  lemma UpdatedExactly(site: Site, users: Users, actor: User, target: User, body: UpdateBody)
    ensures var r := Updated(site, users, actor, target, body);
            && (r.Ok? <==> MayChange(site, users, actor, target, body))
            && (r.Ok? ==> && r.value.id == target.id
                          && r.value.email == body.email.GetOr(target.email)
                          && r.value.isActive == body.isActive.GetOr(target.isActive)
                          && (if body.roleIds.Some? then AreTheRoles(r.value.roles, site, body.roleIds.value)
                              else r.value.roles == target.roles)
                          && (if body.organizationIds.Some?
                              then forall o :: o in r.value.organizations <==> o in body.organizationIds.value
                              else r.value.organizations == target.organizations))
  {
    hide LoadRoles, LoadOrgs, AreTheRoles, NamesSuperAdmin, GrantsSuperAdmin, RolesExist, NodesExist, NodesAreBelow,
      EmailTaken, EmailFree;
    assert actor.IsSuper() <==> HoldsRole(actor, "super_admin");
    assert target.IsSuper() <==> HoldsRole(target, "super_admin");
    if body.roleIds.Some? { LoadRolesExactly(site, body.roleIds.value); }
    if body.organizationIds.Some? { LoadOrgsExactly(site, body.organizationIds.value, actor); }
    if body.email.Some? { EmailTakenExactly(users, body.email.value, Some(target.id)); }
    hide HoldsRole;
  }

  // ── What no run can break ────────────────────────────────────────────────

  ghost predicate Keyed(users: Users) {
    forall id :: id in users ==> users[id].id == id
  }

  ghost predicate EmailsDiffer(users: Users) {
    forall i, j :: i in users && j in users && i != j ==> users[i].email != users[j].email
  }

  /** Some account can still do everything. */
  ghost predicate HasActiveSuperAdmin(users: Users) {
    exists id :: id in users && users[id].isActive && HoldsRole(users[id], "super_admin")
  }

  lemma StepKeepsKeyed(site: Site, users: Users, req: Request)
    requires Keyed(users)
    ensures Keyed(Step(site, users, req))
  {
    hide LoadRoles, LoadOrgs, Admit;
  }

  lemma StepKeepsEmails(site: Site, users: Users, req: Request)
    requires Keyed(users) && EmailsDiffer(users)
    ensures EmailsDiffer(Step(site, users, req))
  {
    hide LoadRoles, LoadOrgs, Admit;
    var users' := Step(site, users, req);
    if users' != users {
      var actor := Admit(site, users, req.actorId, req.header).value;
      match req
      case Create(_, _, body, newId) => EmailTakenExactly(users, body.email, None);
      case Update(_, _, userId, body) =>
        if body.email.Some? { EmailTakenExactly(users, body.email.value, Some(userId)); }
    }
  }

  /** Whoever is changed by a request, the super admin who is let in and asks for it stays one. */
  lemma StepKeepsASuperAdmin(site: Site, users: Users, req: Request)
    requires Keyed(users) && HasActiveSuperAdmin(users)
    ensures HasActiveSuperAdmin(Step(site, users, req))
  {
    hide LoadRoles, LoadOrgs, Admit, Created, Updated, NodesMayBeGiven, EmailFree;
    var users' := Step(site, users, req);
    var s :| s in users && users[s].isActive && HoldsRole(users[s], "super_admin");
    if users' != users {
      AdmittedExactly(site, users, req.actorId, req.header);
      var actor := users[req.actorId];
      match req
      case Create(_, _, body, newId) => assert users'[s] == users[s];
      case Update(_, _, userId, body) =>
        UpdatedExactly(site, users, actor, users[userId], body);
        if userId != s {
          assert users'[s] == users[s];
        } else if userId != req.actorId {
          assert users'[req.actorId] == actor && HoldsRole(actor, "super_admin") && actor.isActive;
        } else {
          if body.roleIds.Some? { GivenSuperAdmin(site, users'[s], body.roleIds.value); }
          assert users'[s].isActive && HoldsRole(users'[s], "super_admin");
        }
    }
  }

  lemma GivenSuperAdmin(site: Site, user: User, roleIds: seq<int>)
    requires AreTheRoles(user.roles, site, roleIds)
    ensures HoldsRole(user, "super_admin") <==> NamesSuperAdmin(site, roleIds)
  {
    if id :| id in roleIds && id in site.roles && site.roles[id].name == "super_admin" {
      assert site.roles[id] in user.roles;
    }
  }

  /** Over any run of requests, by anyone, no two accounts come to share an email, and the last super admin stays. */
  lemma {:induction false} AccountsStaySound(site: Site, users: Users, reqs: seq<Request>)
    requires Keyed(users)
    ensures Keyed(Run(site, users, reqs))
    ensures EmailsDiffer(users) ==> EmailsDiffer(Run(site, users, reqs))
    ensures HasActiveSuperAdmin(users) ==> HasActiveSuperAdmin(Run(site, users, reqs))
    decreases |reqs|
  {
    hide Step, EmailsDiffer, HasActiveSuperAdmin, Keyed;
    if reqs != [] {
      StepKeepsKeyed(site, users, reqs[0]);
      if EmailsDiffer(users) { StepKeepsEmails(site, users, reqs[0]); }
      if HasActiveSuperAdmin(users) { StepKeepsASuperAdmin(site, users, reqs[0]); }
      AccountsStaySound(site, Step(site, users, reqs[0]), reqs[1..]);
    }
  }
}
