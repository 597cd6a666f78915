/**
 * Which companies and nodes a request may touch (backend/app/core/dependencies.py)
 * and which companies a websocket listens to (backend/app/api/ws.py).
 */
module TenantScope {
  import opened Wrappers
  import opened Sequences
  import opened OrgTree
  import opened Accounts

  /** The X-Organization-Id header, or the ?org= parameter, after the attempt to parse it. */
  datatype Selector = Absent | Unparseable | Names(id: int)

  datatype Refusal = NoOrganizations | AmbiguousOrganization

  /** None is the validated global scope: no tenant filter. */
  type Scope = Option<seq<int>>

  function ActiveRoots(t: seq<Row>): seq<int> {
    if t == [] then []
    else
      var last := t[|t| - 1];
      ActiveRoots(t[..|t| - 1]) + if last.isActive && last.parentId.None? then [last.id] else []
  }

  /** The lone active company. Two or more, or none, give no default. */
  function GetSingleOrgId(t: Table): Option<int> {
    var ids := ActiveRoots(t);
    if |ids| == 1 then Some(ids[0]) else None
  }

  function HeaderOrgRoot(t: Table, header: Selector): Option<int> {
    match header
    case Absent => None
    case Unparseable => None
    case Names(id) => RootIdOf(t, id)
  }

  /** The company a write lands in. */
  function GetTenantOrgId(t: Table, user: User, header: Selector): Result<Option<int>, Refusal> {
    var headerRoot := HeaderOrgRoot(t, header);
    if user.IsSuper() then
      if headerRoot.Some? then Ok(headerRoot) else Ok(GetSingleOrgId(t))
    else if user.organizations == [] then Err(NoOrganizations)
    else
      var assignedRoots := RootIdsOf(t, user.organizations);
      if headerRoot.Some? && headerRoot.value in assignedRoots then Ok(headerRoot)
      else if |assignedRoots| == 1 then Ok(Some(assignedRoots[0]))
      else Err(AmbiguousOrganization)
  }

  /** The grants that lie in a company's sub-tree, in order. */
  function GrantsUnder(grants: seq<int>, under: seq<int>): seq<int> {
    if grants == [] then []
    else
      var last := grants[|grants| - 1];
      GrantsUnder(grants[..|grants| - 1], under) + if last in under then [last] else []
  }

  /** (root scope, node scope) of a read. */
  function ResolveReadScopes(t: Table, user: User, header: Selector): Result<(Scope, Scope), Refusal> {
    var headerRoot := HeaderOrgRoot(t, header);
    if user.IsSuper() then
      if headerRoot.Some? then Ok((Some([headerRoot.value]), Some([headerRoot.value])))
      else
        var single := GetSingleOrgId(t);
        if single.Some? then Ok((Some([single.value]), Some([single.value]))) else Ok((None, None))
    else if user.organizations == [] then Err(NoOrganizations)
    else
      var assignedRoots := RootIdsOf(t, user.organizations);
      if headerRoot.Some? && headerRoot.value in assignedRoots then
        Ok((Some([headerRoot.value]),
            Some(GrantsUnder(user.organizations, DescendantsSubquery(t, headerRoot.value)))))
      else Ok((Some(assignedRoots), Some(user.organizations)))
  }

  /** The websocket's (user id, company roots), or None to reject. `account` is the active
      account the token names, None when the token is bad. */
  function ResolveIdentity(t: Table, account: Option<User>, param: Selector): Option<(int, Option<set<int>>)> {
    if account.None? then None
    else
      var user := account.value;
      var picked := HeaderOrgRoot(t, param);
      if user.IsSuper() then
        if param != Absent then Some((user.id, if picked.Some? then Some({picked.value}) else None))
        else
          var single := GetSingleOrgId(t);
          Some((user.id, if single.Some? then Some({single.value}) else None))
      else
        var companies := RootIdsOf(t, user.organizations);
        if companies == [] then None
        else if picked.Some? && picked.value in companies then Some((user.id, Some({picked.value})))
        else Some((user.id, Some(set r | r in companies)))
  }

  // ── The default company ──────────────────────────────────────────────────

  ghost predicate IsActiveRoot(t: seq<Row>, id: int) {
    exists r :: r in t && r.id == id && r.isActive && r.parentId == None
  }

  lemma {:induction false} ActiveRootsMember(t: Table, id: int)
    ensures id in ActiveRoots(t) <==> IsActiveRoot(t, id)
    ensures NoDup(ActiveRoots(t))
  {
    if t != [] {
      var init: Table := t[..|t| - 1];
      var last := t[|t| - 1];
      assert t == init + [last];
      ActiveRootsMember(init, id);
      ActiveRootsMember(init, last.id);
    }
  }

  /** An organization is the default exactly when it is the only active company root. */
  lemma SingleOrgIsTheOnlyActiveRoot(t: Table, o: int)
    ensures GetSingleOrgId(t) == Some(o)
       <==> forall id :: IsActiveRoot(t, id) <==> id == o
  {
    var ids := ActiveRoots(t);
    forall id ensures id in ids <==> IsActiveRoot(t, id) {
      ActiveRootsMember(t, id);
    }
    ActiveRootsMember(t, o);
    if |ids| == 1 && ids[0] == o { assert forall id :: id in ids <==> id == o; }
    if forall id :: IsActiveRoot(t, id) <==> id == o {
      assert o in ids;
      NoDupFitsIn(ids, [o]);
    }
  }

  // ── Main results ─────────────────────────────────────────────────────────

  /** A write lands inside what the same request may read; it is global only when the read
      is; and a read is accepted without its write only for a tenant user with several
      companies, or none, and no usable header. */
  lemma WriteLandsInReadScope(t: Table, user: User, header: Selector)
    ensures var w, r := GetTenantOrgId(t, user, header), ResolveReadScopes(t, user, header);
            && (w.Ok? ==> r.Ok?)
            && (w.Ok? && w.value.Some? ==> r.value.0.Some? && w.value.value in r.value.0.value)
            && (w.Ok? && w.value.None? ==> r.value.0.None? && r.value.1.None? && user.IsSuper())
            && (r.Ok? && w.Err? <==> !user.IsSuper() && r.Ok? && |r.value.0.value| != 1)
  {}

  lemma {:induction false} GrantsUnderCount(grants: seq<int>, under: seq<int>, n: int)
    ensures multiset(GrantsUnder(grants, under))[n] == if n in under then multiset(grants)[n] else 0
    ensures n in GrantsUnder(grants, under) <==> n in grants && n in under
  {
    if grants != [] {
      assert grants == grants[..|grants| - 1] + [grants[|grants| - 1]];
      GrantsUnderCount(grants[..|grants| - 1], under, n);
    }
  }

  /** A tenant user is never global. Every root they read is the company of a grant, every
      node a grant; and a header can only take roots and nodes away. */
  lemma TenantReadsAreBounded(t: Table, user: User, header: Selector, x: int)
    requires !user.IsSuper()
    requires ResolveReadScopes(t, user, header).Ok?
    ensures ResolveReadScopes(t, user, Absent).Ok?
    ensures var (roots, nodes) := ResolveReadScopes(t, user, header).value;
            var (allRoots, allNodes) := ResolveReadScopes(t, user, Absent).value;
            && roots.Some? && nodes.Some?
            && (x in allRoots.value <==> exists n :: n in user.organizations && RootIdOf(t, n) == Some(x))
            && (x in allNodes.value <==> x in user.organizations)
            && (x in roots.value ==> x in allRoots.value)
            && (x in nodes.value ==> x in allNodes.value)
  {
    RootIdsOfMeaning(t, user.organizations, x);
    var headerRoot := HeaderOrgRoot(t, header);
    if headerRoot.Some? {
      GrantsUnderCount(user.organizations, DescendantsSubquery(t, headerRoot.value), x);
    }
  }

  /** The node scope of the request whose header names `root`. */
  function NarrowedNodes(t: Table, user: User, root: int): seq<int> {
    var r := ResolveReadScopes(t, user, Names(root));
    if r.Ok? then r.value.1.GetOr([]) else []
  }

  function NarrowedToEach(t: Table, user: User, roots: seq<int>): seq<int> {
    if roots == [] then []
    else NarrowedToEach(t, user, roots[..|roots| - 1]) + NarrowedNodes(t, user, roots[|roots| - 1])
  }

  lemma NarrowedMeaning(t: Table, user: User, root: int, n: int)
    requires !user.IsSuper()
    requires root in RootIdsOf(t, user.organizations)
    ensures multiset(NarrowedNodes(t, user, root))[n]
         == if RootIdOf(t, n) == Some(root) then multiset(user.organizations)[n] else 0
  {
    hide RootIdOf, RootIdsOf, DescendantsSubquery, GrantsUnder, NarrowedNodes, IsRoot;
    RootIdsOfMeaning(t, user.organizations, root);
    var g :| g in user.organizations && RootIdOf(t, g) == Some(root);
    RootNamesItself(t, g, root);
    NarrowedIsGrantsUnder(t, user, root);
    UpDownDuality(t, n, root);
    GrantsUnderCount(user.organizations, DescendantsSubquery(t, root), n);
  }

  lemma RootNamesItself(t: Table, g: int, root: int)
    requires RootIdOf(t, g) == Some(root)
    ensures IsRoot(t, root) && RootIdOf(t, root) == Some(root)
  {
    hide RootIdOf, Within;
    RootIdIsWithin(t, g, root);
    SelfWithin(t, root);
    RootIdIsWithin(t, root, root);
  }

  lemma NarrowedIsGrantsUnder(t: Table, user: User, root: int)
    requires !user.IsSuper() && user.organizations != []
    requires root in RootIdsOf(t, user.organizations) && RootIdOf(t, root) == Some(root)
    ensures NarrowedNodes(t, user, root) == GrantsUnder(user.organizations, DescendantsSubquery(t, root))
  {
    hide RootIdOf, RootIdsOf, DescendantsSubquery, GrantsUnder;
  }

  lemma {:induction false} NarrowedToEachCount(t: Table, user: User, roots: seq<int>, n: int)
    requires !user.IsSuper()
    requires NoDup(roots) && forall r :: r in roots ==> r in RootIdsOf(t, user.organizations)
    ensures multiset(NarrowedToEach(t, user, roots))[n]
         == if RootIdOf(t, n).Some? && RootIdOf(t, n).value in roots then multiset(user.organizations)[n] else 0
  {
    hide NarrowedNodes, RootIdsOf, RootIdOf;
    if roots != [] {
      var init, last := roots[..|roots| - 1], roots[|roots| - 1];
      assert roots == init + [last];
      NarrowedToEachCount(t, user, init, n);
      NarrowedMeaning(t, user, last, n);
    }
  }

  /** Going through one's companies one header at a time shows every grant exactly once,
      provided every grant has a company root; a grant without one is never shown. */
  lemma HeadersPartitionTheGrants(t: Table, user: User)
    requires !user.IsSuper()
    ensures var shown := multiset(NarrowedToEach(t, user, RootIdsOf(t, user.organizations)));
            && (forall n :: n in user.organizations ==>
                  shown[n] == if RootIdOf(t, n).Some? then multiset(user.organizations)[n] else 0)
            && (shown == multiset(user.organizations)
                <==> forall n :: n in user.organizations ==> RootIdOf(t, n).Some?)
  {
    hide RootIdsOf, RootIdOf, NarrowedToEach;
    var roots := RootIdsOf(t, user.organizations);
    var shown := multiset(NarrowedToEach(t, user, roots));
    RootIdsOfMeaning(t, user.organizations, 0);
    forall n ensures shown[n] == if RootIdOf(t, n).Some? then multiset(user.organizations)[n] else 0 {
      NarrowedToEachCount(t, user, roots, n);
      if n in user.organizations && RootIdOf(t, n).Some? {
        RootIdsOfMeaning(t, user.organizations, RootIdOf(t, n).value);
      }
    }
    if n :| n in user.organizations && RootIdOf(t, n).None? {
      assert multiset(user.organizations)[n] > 0 && shown[n] == 0;
    } else {
      assert forall n :: shown[n] == multiset(user.organizations)[n];
    }
  }

  /** A grant deeper than the cap belongs to no company, so no header ever shows it. */
  lemma DeepGrantIsNeverShown(user: User)
    requires !user.IsSuper() && user.organizations == [65]
    ensures multiset(NarrowedToEach(DeepChain(), user,
                                    RootIdsOf(DeepChain(), user.organizations))) != multiset(user.organizations)
  {
    hide RootIdsOf, RootIdOf, NarrowedToEach, DeepChain;
    DeepChainLosesItsRoot();
    HeadersPartitionTheGrants(DeepChain(), user);
    assert 65 in user.organizations;
  }

  /** The company of a node of the node scope is in the root scope. */
  lemma ScopedNodesHaveScopedRoots(t: Table, user: User, header: Selector, n: int)
    requires !user.IsSuper() && ResolveReadScopes(t, user, header).Ok?
    requires n in ResolveReadScopes(t, user, header).value.1.GetOr([])
    ensures RootIdOf(t, n).Some? ==> RootIdOf(t, n).value in ResolveReadScopes(t, user, header).value.0.value
  {
    hide RootIdsOf, RootIdOf, DescendantsSubquery;
    if RootIdOf(t, n).Some? {
      var r := RootIdOf(t, n).value;
      TenantReadsAreBounded(t, user, header, n);
      RootIdsOfMeaning(t, user.organizations, r);
      var headerRoot := HeaderOrgRoot(t, header);
      if headerRoot.Some? && headerRoot.value in RootIdsOf(t, user.organizations) {
        GrantsUnderCount(user.organizations, DescendantsSubquery(t, headerRoot.value), n);
        RootIdIsWithin(t, n, r);
        HeaderRootIsRoot(t, header);
        UpDownDuality(t, n, headerRoot.value);
      }
    }
  }

  /**
   * Directory visibility: node m is in the sub-tree of a node n of the scope. On any table m's company, if it has
   * one, is n's and is in the root scope; and where roots are in reach it has one as soon as n has.
   */
  lemma VisibleNodesHaveVisibleRoots(t: Table, user: User, header: Selector, n: int, m: int)
    requires !user.IsSuper() && ResolveReadScopes(t, user, header).Ok?
    requires n in ResolveReadScopes(t, user, header).value.1.GetOr([])
    requires m in DescendantsSubquery(t, n)
    ensures var roots := ResolveReadScopes(t, user, header).value.0.value;
            && (RootIdOf(t, m).Some? ==> RootIdOf(t, n) == RootIdOf(t, m) && RootIdOf(t, m).value in roots)
            && (RootsInReach(t) && RootIdOf(t, n).Some? ==> RootIdOf(t, m).Some?)
  {
    hide RootIdsOf, RootIdOf, DescendantsSubquery, ResolveReadScopes, RootsInReach;
    ScopedNodesHaveScopedRoots(t, user, header, n);
    if RootIdOf(t, m).Some? { RootComesFromAbove(t, n, m); }
    if RootsInReach(t) && RootIdOf(t, n).Some? { DescentKeepsRoot(t, n, m); }
  }

  lemma HeaderRootIsRoot(t: Table, header: Selector)
    ensures HeaderOrgRoot(t, header).Some? ==> IsRoot(t, HeaderOrgRoot(t, header).value)
  {
    if header.Names? && RootIdOf(t, header.id).Some? { RootIdIsWithin(t, header.id, RootIdOf(t, header.id).value); }
  }

  /** For a tenant user the socket opened with ?org=s listens to exactly the companies an
      HTTP request with header s may read; it is rejected when the request is refused or
      could read no company at all. */
  lemma SocketMatchesHttp(t: Table, user: User, selector: Selector)
    requires !user.IsSuper()
    ensures var http, socket := ResolveReadScopes(t, user, selector), ResolveIdentity(t, Some(user), selector);
            && (socket.None? <==> http.Err? || http.value.0.value == [])
            && (socket.Some? ==> socket.value.0 == user.id && socket.value.1.Some?)
            && (socket.Some? ==> forall r :: r in socket.value.1.value <==> r in http.value.0.value)
  {
    hide RootIdOf, DescendantsSubquery;
  }

  /** The header or parameter names no node with a company. */
  ghost predicate NamesNoCompany(t: Table, header: Selector) {
    header.Names? ==> RootIdOf(t, header.id) == None
  }

  ghost predicate OnlyActiveRoot(t: Table, o: int) {
    forall id :: IsActiveRoot(t, id) <==> id == o
  }

  lemma DefaultCompany(t: Table, o: int)
    ensures GetSingleOrgId(t) == Some(o) <==> OnlyActiveRoot(t, o)
  {
    hide GetSingleOrgId;
    SingleOrgIsTheOnlyActiveRoot(t, o);
  }

  /**
   * For a super admin the socket watches the companies that HTTP reads, except when the selector is given, names
   * nothing with a company, and HTTP falls back to the lone active one.
   */
  lemma SuperSocketMatchesHttp(t: Table, user: User, selector: Selector)
    requires user.IsSuper()
    ensures var http, socket := ResolveReadScopes(t, user, selector), ResolveIdentity(t, Some(user), selector);
            && http.Ok? && socket.Some? && socket.value.0 == user.id
            && (SameScope(http.value.0, socket.value.1)
                <==> selector == Absent || !NamesNoCompany(t, selector) || forall o :: !OnlyActiveRoot(t, o))
  {
    hide RootIdOf, GetSingleOrgId, OnlyActiveRoot;
    forall o ensures GetSingleOrgId(t) == Some(o) <==> OnlyActiveRoot(t, o) { DefaultCompany(t, o); }
    if GetSingleOrgId(t).Some? { assert OnlyActiveRoot(t, GetSingleOrgId(t).value); }
  }

  /** The same companies, or no restriction on either side. */
  ghost predicate SameScope(http: Scope, socket: Option<set<int>>) {
    && (http.None? <==> socket.None?)
    && (http.Some? ==> forall r :: r in http.value <==> r in socket.value)
  }

  /** A lone company and a socket asking for an organization that is not there. */
  lemma UnknownSelectorDiffers(user: User)
    requires user.IsSuper()
    ensures var t: Table := [Row(1, None, true)];
            !SameScope(ResolveReadScopes(t, user, Names(2)).value.0, ResolveIdentity(t, Some(user), Names(2)).value.1)
  {
    hide RootIdOf;
    var t: Table := [Row(1, None, true)];
    assert RootIdOf(t, 2) == None by {
      if RootIdOf(t, 2).Some? {
        var r := RootIdOf(t, 2).value;
        RootIdIsWithin(t, 2, r);
        WithinHasRows(t, 2, r);
      }
    }
    assert ActiveRoots(t) == [1] by { assert t[..0] == []; }
    SuperSocketMatchesHttp(t, user, Names(2));
  }

  // ── Scopes by company ────────────────────────────────────────────────────

  /** r is the company of one of the user's grants. */
  ghost predicate WorksIn(t: Table, user: User, r: int) {
    exists g :: g in user.organizations && RootIdOf(t, g) == Some(r)
  }

  /** The grants whose company is r, in order. */
  function GrantsOf(t: Table, grants: seq<int>, r: int): seq<int> {
    if grants == [] then []
    else
      var last := grants[|grants| - 1];
      GrantsOf(t, grants[..|grants| - 1], r) + if RootIdOf(t, last) == Some(r) then [last] else []
  }

  lemma {:induction false} UnderIsOf(t: Table, grants: seq<int>, r: int)
    requires IsRoot(t, r)
    ensures GrantsUnder(grants, DescendantsSubquery(t, r)) == GrantsOf(t, grants, r)
  {
    hide RootIdOf, DescendantsSubquery, IsRoot;
    if grants != [] {
      UnderIsOf(t, grants[..|grants| - 1], r);
      UpDownDuality(t, grants[|grants| - 1], r);
    }
  }

  /** A super admin whose header names any node of company r writes to r, reads r and listens to r. */
  lemma SuperAdminActsInTheNamedCompany(t: Table, user: User, n: int, r: int)
    requires user.IsSuper() && RootIdOf(t, n) == Some(r)
    ensures GetTenantOrgId(t, user, Names(n)) == Ok(Some(r))
    ensures ResolveReadScopes(t, user, Names(n)) == Ok((Some([r]), Some([r])))
    ensures ResolveIdentity(t, Some(user), Names(n)) == Some((user.id, Some({r})))
  {
    hide RootIdOf, ActiveRoots;
  }

  /**
   * A tenant user whose header names any node of a company they work in writes there and reads it, with exactly their
   * grants of that company; a header naming another company is as good as none.
   */
  lemma TenantActsInTheNamedCompany(t: Table, user: User, n: int, r: int)
    requires !user.IsSuper() && RootIdOf(t, n) == Some(r)
    ensures WorksIn(t, user, r) ==>
      && GetTenantOrgId(t, user, Names(n)) == Ok(Some(r))
      && ResolveReadScopes(t, user, Names(n)) == Ok((Some([r]), Some(GrantsOf(t, user.organizations, r))))
      && ResolveIdentity(t, Some(user), Names(n)) == Some((user.id, Some({r})))
    ensures !WorksIn(t, user, r) ==>
      && GetTenantOrgId(t, user, Names(n)) == GetTenantOrgId(t, user, Absent)
      && ResolveReadScopes(t, user, Names(n)) == ResolveReadScopes(t, user, Absent)
      && ResolveIdentity(t, Some(user), Names(n)) == ResolveIdentity(t, Some(user), Absent)
  {
    hide RootIdOf, RootIdsOf, DescendantsSubquery, GrantsUnder, IsRoot;
    RootIdsOfMeaning(t, user.organizations, r);
    RootIdIsWithin(t, n, r);
    UnderIsOf(t, user.organizations, r);
    if WorksIn(t, user, r) { assert user.organizations != []; }
  }

  /**
   * Without a usable header a super admin acts in the only active company, or, if there is not exactly one, writes
   * without a company and reads everything. Their socket does the same unless a parameter was given: then it listens
   * to everything.
   */
  lemma SuperAdminWithoutACompany(t: Table, user: User, header: Selector)
    requires user.IsSuper() && NamesNoCompany(t, header)
    ensures forall o :: OnlyActiveRoot(t, o) ==>
      && GetTenantOrgId(t, user, header) == Ok(Some(o))
      && ResolveReadScopes(t, user, header) == Ok((Some([o]), Some([o])))
      && ResolveIdentity(t, Some(user), header) == Some((user.id, if header == Absent then Some({o}) else None))
    ensures (forall o :: !OnlyActiveRoot(t, o)) ==>
      && GetTenantOrgId(t, user, header) == Ok(None)
      && ResolveReadScopes(t, user, header) == Ok((None, None))
      && ResolveIdentity(t, Some(user), header) == Some((user.id, None))
  {
    hide RootIdOf, GetSingleOrgId, OnlyActiveRoot;
    forall o ensures GetSingleOrgId(t) == Some(o) <==> OnlyActiveRoot(t, o) { DefaultCompany(t, o); }
    if GetSingleOrgId(t).Some? { assert OnlyActiveRoot(t, GetSingleOrgId(t).value); }
  }

  /**
   * Without a usable header a tenant user writes only if they work in exactly one company, and reads all their
   * companies and all their grants; a socket is refused only to those who work in none.
   */
  lemma TenantWithoutACompany(t: Table, user: User, header: Selector)
    requires !user.IsSuper() && NamesNoCompany(t, header)
    ensures user.organizations == [] ==>
      && GetTenantOrgId(t, user, header) == Err(NoOrganizations)
      && ResolveReadScopes(t, user, header) == Err(NoOrganizations)
    ensures user.organizations != [] ==>
      && (GetTenantOrgId(t, user, header).Ok? <==> exists r :: WorksOnlyIn(t, user, r))
      && (forall r :: WorksOnlyIn(t, user, r) ==> GetTenantOrgId(t, user, header) == Ok(Some(r)))
      && (GetTenantOrgId(t, user, header).Err? ==> GetTenantOrgId(t, user, header) == Err(AmbiguousOrganization))
      && ResolveReadScopes(t, user, header).Ok?
      && ResolveReadScopes(t, user, header).value.0.Some? && NoDup(ResolveReadScopes(t, user, header).value.0.value)
      && (forall r :: r in ResolveReadScopes(t, user, header).value.0.value <==> WorksIn(t, user, r))
      && ResolveReadScopes(t, user, header).value.1 == Some(user.organizations)
    ensures var socket := ResolveIdentity(t, Some(user), header);
      && (socket.None? <==> forall r :: !WorksIn(t, user, r))
      && (socket.Some? ==> socket.value.0 == user.id && socket.value.1.Some?
                           && forall r :: r in socket.value.1.value <==> WorksIn(t, user, r))
  {
    hide RootIdOf, RootIdsOf, WorksIn, WorksOnlyIn;
    var companies := RootIdsOf(t, user.organizations);
    forall r ensures r in companies <==> WorksIn(t, user, r) { CompaniesMember(t, user, r); }
    CompaniesMember(t, user, 0);
    forall r ensures WorksOnlyIn(t, user, r) <==> companies == [r] { OnlyCompany(t, user, r); }
    if |companies| == 1 { assert companies == [companies[0]]; }
    if companies != [] { assert WorksIn(t, user, companies[0]); }
  }

  ghost predicate WorksOnlyIn(t: Table, user: User, r: int) {
    forall q :: WorksIn(t, user, q) <==> q == r
  }

  lemma CompaniesMember(t: Table, user: User, r: int)
    ensures r in RootIdsOf(t, user.organizations) <==> WorksIn(t, user, r)
    ensures NoDup(RootIdsOf(t, user.organizations))
    ensures user.organizations == [] ==> RootIdsOf(t, user.organizations) == []
  {
    hide RootIdOf;
    RootIdsOfMeaning(t, user.organizations, r);
  }

  lemma OnlyCompany(t: Table, user: User, r: int)
    ensures WorksOnlyIn(t, user, r) <==> RootIdsOf(t, user.organizations) == [r]
  {
    hide RootIdsOf, WorksIn;
    var companies := RootIdsOf(t, user.organizations);
    forall q ensures q in companies <==> WorksIn(t, user, q) { CompaniesMember(t, user, q); }
    CompaniesMember(t, user, r);
    if companies == [r] { assert forall q :: q in companies <==> q == r; }
    if WorksOnlyIn(t, user, r) {
      assert r in companies;
      forall q | q in companies ensures q in [r] { assert WorksIn(t, user, q); }
      NoDupFitsIn(companies, [r]);
      assert companies[0] in companies;
    }
  }

  /** A token that names no active account opens no socket. */
  lemma NoAccountNoSocket(t: Table, param: Selector)
    ensures ResolveIdentity(t, None, param) == None
  {}
}
