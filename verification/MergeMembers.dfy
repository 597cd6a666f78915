/**
 * What the branch and department merge does to departments, members and locations, and what its result means
 * (backend/alembic/versions/g3b4c5d6e7f8_org_tree_merge.py).
 */
module MergeMembers {
  import opened Wrappers
  import opened Decimal
  import opened TreeIndex
  import opened MergeCodes

  /** A row of employees or users; an employee's organizationId is never NULL. */
  datatype Member = Member(id: nat, organizationId: Option<nat>, branchId: Option<nat>,
                           departmentId: Option<nat>, orgNodeId: Option<nat>)

  datatype Location = Location(id: nat, branchId: Option<nat>, orgNodeId: Option<nat>)

  datatype MemberType = EmployeeMember | UserMember

  datatype AuditRow = AuditRow(memberType: MemberType, memberId: nat, branchId: nat, departmentId: nat)

  // ── The set-based updates ────────────────────────────────────────────────

  ghost predicate DistinctMembers(members: seq<Member>) {
    forall i, j :: 0 <= i < j < |members| ==> members[i].id != members[j].id
  }

  predicate BranchElsewhere(d: Department, branches: seq<Branch>) {
    d.branchId.Some? && exists b :: b in branches && b.id == d.branchId.value && b.organizationId != d.organizationId
  }

  /** A department whose branch belongs to another company loses the link. */
  function DetachedRow(d: Department, branches: seq<Branch>): Department {
    if BranchElsewhere(d, branches) then d.(branchId := None) else d
  }

  function Detached(departments: seq<Department>, branches: seq<Branch>): seq<Department> {
    seq(|departments|, i requires 0 <= i < |departments| => DetachedRow(departments[i], branches))
  }

  function Anchored(orgs: Orgs): Orgs {
    map id | id in orgs ::
      if orgs[id].parentId.None?
      then orgs[id].(rootId := Some(id), nodeType := "company", depth := 0, path := Some("/" + Str(id) + "/"))
      else orgs[id]
  }

  /** d.branch_id in the audit's LEFT JOIN: NULL when there is no such department. */
  function JoinedBranch(departments: seq<Department>, departmentId: nat): Option<nat> {
    if departments == [] then None
    else if departments[0].id == departmentId then departments[0].branchId
    else JoinedBranch(departments[1..], departmentId)
  }

  predicate LosesBranch(m: Member, departments: seq<Department>) {
    m.branchId.Some? && m.departmentId.Some? && JoinedBranch(departments, m.departmentId.value) != m.branchId
  }

  function Audit(memberType: MemberType, members: seq<Member>, departments: seq<Department>): seq<AuditRow> {
    if members == [] then []
    else
      var m := members[|members| - 1];
      Audit(memberType, members[..|members| - 1], departments)
      + if LosesBranch(m, departments)
        then [AuditRow(memberType, m.id, m.branchId.value, m.departmentId.value)] else []
  }

  function Lookup(nodes: map<nat, nat>, legacyId: nat): Option<nat> {
    if legacyId in nodes then Some(nodes[legacyId]) else None
  }

  /** Department wins, else branch. */
  function Repointed(m: Member, branchNode: map<nat, nat>, deptNode: map<nat, nat>): Member {
    var byDept := if m.departmentId.Some? then m.(orgNodeId := Lookup(deptNode, m.departmentId.value)) else m;
    if byDept.orgNodeId.None? && byDept.branchId.Some?
    then byDept.(orgNodeId := Lookup(branchNode, byDept.branchId.value)) else byDept
  }

  function RepointAll(members: seq<Member>, branchNode: map<nat, nat>, deptNode: map<nat, nat>): seq<Member> {
    seq(|members|, i requires 0 <= i < |members| => Repointed(members[i], branchNode, deptNode))
  }

  /** A user with no tenant must not carry a scope node. */
  function Guarded(user: Member): Member {
    if user.organizationId.None? then user.(orgNodeId := None) else user
  }

  function UnscopeRootless(users: seq<Member>): seq<Member> {
    seq(|users|, i requires 0 <= i < |users| => Guarded(users[i]))
  }

  function RepointedLocation(l: Location, branchNode: map<nat, nat>): Location {
    if l.branchId.Some? then l.(orgNodeId := Lookup(branchNode, l.branchId.value)) else l
  }

  function RepointLocations(locations: seq<Location>, branchNode: map<nat, nat>): seq<Location> {
    seq(|locations|, i requires 0 <= i < |locations| => RepointedLocation(locations[i], branchNode))
  }

  // ── The migrated forest ──────────────────────────────────────────────────

  /** b has become a node right under its company. */
  ghost predicate BranchPlaced(orgs: Orgs, branchNode: map<nat, nat>, b: Branch) {
    && b.id in branchNode && branchNode[b.id] in orgs
    && var o := orgs[branchNode[b.id]];
       o.parentId == Some(b.organizationId) && o.rootId == Some(b.organizationId) && o.nodeType == "branch"
  }

  /** d has become a node of its company, under its branch's node if it has a branch. */
  ghost predicate DepartmentPlaced(orgs: Orgs, branchNode: map<nat, nat>, deptNode: map<nat, nat>, d: Department) {
    && d.id in deptNode && deptNode[d.id] in orgs
    && (d.branchId.Some? ==> d.branchId.value in branchNode)
    && var o := orgs[deptNode[d.id]];
       && o.rootId == Some(d.organizationId) && o.nodeType == "department"
       && o.parentId == Some(if d.branchId.Some? then branchNode[d.branchId.value] else d.organizationId)
  }

  /** The tables before the backfill, as the schema and the new NULL columns leave them. */
  ghost predicate PreMigration(orgs: Orgs, branches: seq<Branch>, departments: seq<Department>,
                               employees: seq<Member>, users: seq<Member>, audit: seq<AuditRow>)
  {
    && (forall id :: id in orgs ==> orgs[id].parentId == None)
    && (forall i, j :: 0 <= i < j < |branches| ==> branches[i].id != branches[j].id)
    && (forall i, j :: 0 <= i < j < |departments| ==> departments[i].id != departments[j].id)
    && (forall b :: b in branches ==> b.organizationId in orgs)
    && (forall d :: d in departments ==> d.organizationId in orgs)
    && (forall d :: d in departments ==> d.branchId.Some? ==> IsBranchId(branches, d.branchId.value))
    && MembersFresh(employees, branches, departments) && MembersFresh(users, branches, departments)
    && audit == []
  }

  ghost predicate IsBranchId(branches: seq<Branch>, id: nat) {
    exists b :: b in branches && b.id == id
  }

  ghost predicate IsDepartmentId(departments: seq<Department>, id: nat) {
    exists d :: d in departments && d.id == id
  }

  ghost predicate MembersFresh(members: seq<Member>, branches: seq<Branch>, departments: seq<Department>) {
    && DistinctMembers(members)
    && forall m :: m in members ==>
         && m.orgNodeId == None
         && (m.branchId.Some? ==> IsBranchId(branches, m.branchId.value))
         && (m.departmentId.Some? ==> IsDepartmentId(departments, m.departmentId.value))
  }

  /** The forest the backfill leaves. `before` is the organizations table it started from. */
  ghost predicate Migrated(before: Orgs, orgs: Orgs, branches: seq<Branch>, departments: seq<Department>,
                           branchNode: map<nat, nat>, deptNode: map<nat, nat>)
  {
    && (forall i, j :: 0 <= i < j < |departments| ==> departments[i].id != departments[j].id)
    && (forall b :: b in branches ==> b.organizationId in before)
    && (forall d :: d in departments ==> d.organizationId in before)
    && (forall d :: d in departments ==> d.branchId.Some? ==> OwnBranch(branches, d))
    && NodesFresh(before, orgs, branchNode) && NodesFresh(before, orgs, deptNode)
    && BranchesPlaced(orgs, branchNode, branches)
    && DepartmentsPlaced(orgs, branchNode, deptNode, departments, |departments|)
  }

  /** The tables the backfill writes. */
  datatype Tables = Tables(organizations: Orgs, departments: seq<Department>, employees: seq<Member>,
                           users: seq<Member>, locations: seq<Location>, audit: seq<AuditRow>)

  /** The tables after a completed backfill, against those it started from. */
  ghost predicate Backfilled(before: Tables, after: Tables, branches: seq<Branch>,
                             branchNode: map<nat, nat>, deptNode: map<nat, nat>)
  {
    && after.departments == Detached(before.departments, branches)
    && TreeIndexed(after.organizations) && CodesUnique(after.organizations)
    && Extends(Anchored(before.organizations), after.organizations)
    && |after.organizations| == |before.organizations| + |branches| + |before.departments|
    && Migrated(before.organizations, after.organizations, branches, after.departments, branchNode, deptNode)
    && CodesGiven(before, after.organizations, branches, branchNode, deptNode)
    && after.audit == Audit(EmployeeMember, before.employees, after.departments)
                      + Audit(UserMember, before.users, after.departments)
    && after.employees == RepointAll(before.employees, branchNode, deptNode)
    && after.users == UnscopeRootless(RepointAll(before.users, branchNode, deptNode))
    && after.locations == RepointLocations(before.locations, branchNode)
  }

  /** Each new node has the code that was generated for its branch or department. */
  ghost predicate CodesGiven(before: Tables, orgs: Orgs, branches: seq<Branch>, branchNode: map<nat, nat>,
                             deptNode: map<nat, nat>)
  {
    var plan := PlanOf(before.organizations, branches, before.departments);
    var codes := GeneratedCodes(plan.usedCodes, plan.jobs);
    && NodesNamed(codes, 0, orgs, branchNode, BranchIds(branches))
    && NodesNamed(codes, |branches|, orgs, deptNode, DepartmentIds(before.departments))
  }

  ghost predicate OwnBranch(branches: seq<Branch>, d: Department) {
    exists b :: b in branches && d.branchId == Some(b.id) && b.organizationId == d.organizationId
  }

  ghost predicate BranchesPlaced(orgs: Orgs, branchNode: map<nat, nat>, branches: seq<Branch>) {
    forall b :: b in branches ==> BranchPlaced(orgs, branchNode, b)
  }

  ghost predicate DepartmentsPlaced(orgs: Orgs, branchNode: map<nat, nat>, deptNode: map<nat, nat>,
                                    departments: seq<Department>, n: nat)
    requires n <= |departments|
  {
    forall j :: 0 <= j < n ==> DepartmentPlaced(orgs, branchNode, deptNode, departments[j])
  }

  /** The nodes are new rows, a different one for each legacy row. */
  ghost predicate NodesFresh(base: Orgs, orgs: Orgs, nodes: map<nat, nat>) {
    && (forall k :: k in nodes ==> nodes[k] !in base && nodes[k] in orgs)
    && (forall j, k :: j in nodes && k in nodes && j != k ==> nodes[j] != nodes[k])
  }

  /** The nodes of the legacy rows `ids` bear the codes from position `first` on. */
  ghost predicate NodesNamed(codes: seq<string>, first: nat, orgs: Orgs, nodes: map<nat, nat>, ids: seq<nat>) {
    && first + |ids| <= |codes|
    && forall j :: 0 <= j < |ids| ==> NodeNamed(codes[first..][j], orgs, nodes, ids[j])
  }

  ghost predicate NodeNamed(code: string, orgs: Orgs, nodes: map<nat, nat>, id: nat) {
    id in nodes && nodes[id] in orgs && orgs[nodes[id]].code == code
  }

  function BranchIds(branches: seq<Branch>): seq<nat> {
    seq(|branches|, i requires 0 <= i < |branches| => branches[i].id)
  }

  function DepartmentIds(departments: seq<Department>): seq<nat> {
    seq(|departments|, i requires 0 <= i < |departments| => departments[i].id)
  }

  // ── No branch link is lost silently ──────────────────────────────────────

  /** The audit rows about one member. */
  function RowsAbout(audit: seq<AuditRow>, memberType: MemberType, memberId: nat): seq<AuditRow> {
    if audit == [] then []
    else
      var last := audit[|audit| - 1];
      RowsAbout(audit[..|audit| - 1], memberType, memberId)
      + if last.memberType == memberType && last.memberId == memberId then [last] else []
  }

  lemma {:induction false} RowsAboutConcat(a: seq<AuditRow>, b: seq<AuditRow>, memberType: MemberType, memberId: nat)
    ensures RowsAbout(a + b, memberType, memberId)
         == RowsAbout(a, memberType, memberId) + RowsAbout(b, memberType, memberId)
  {
    if b == [] {
      assert a + b == a;
    } else {
      assert (a + b)[..|a + b| - 1] == a + b[..|b| - 1];
      RowsAboutConcat(a, b[..|b| - 1], memberType, memberId);
    }
  }

  lemma {:induction false} AuditRowsAbout(memberType: MemberType, members: seq<Member>, departments: seq<Department>,
                                          askedType: MemberType, asked: nat)
    requires DistinctMembers(members)
    requires askedType != memberType || forall m :: m in members ==> m.id != asked
    ensures RowsAbout(Audit(memberType, members, departments), askedType, asked) == []
  {
    if members != [] {
      var init, m := members[..|members| - 1], members[|members| - 1];
      AuditRowsAbout(memberType, init, departments, askedType, asked);
      assert m in members;
      var row := if LosesBranch(m, departments)
                 then [AuditRow(memberType, m.id, m.branchId.value, m.departmentId.value)] else [];
      RowsAboutConcat(Audit(memberType, init, departments), row, askedType, asked);
      assert RowsAbout(row, askedType, asked) == [] by { if row != [] { assert row[..0] == []; } }
    }
  }

  /** Exactly one row for a member whose link is lost, none for any other. */
  lemma {:induction false} OneRowPerLoss(memberType: MemberType, members: seq<Member>, departments: seq<Department>,
                                         i: nat)
    requires DistinctMembers(members) && i < |members|
    ensures RowsAbout(Audit(memberType, members, departments), memberType, members[i].id)
         == if LosesBranch(members[i], departments)
            then [AuditRow(memberType, members[i].id, members[i].branchId.value, members[i].departmentId.value)] else []
  {
    var init, last := members[..|members| - 1], members[|members| - 1];
    var row := if LosesBranch(last, departments)
               then [AuditRow(memberType, last.id, last.branchId.value, last.departmentId.value)] else [];
    RowsAboutConcat(Audit(memberType, init, departments), row, memberType, members[i].id);
    if row != [] { assert row[..0] == []; }
    if i == |members| - 1 {
      AuditRowsAbout(memberType, init, departments, memberType, last.id);
    } else {
      OneRowPerLoss(memberType, init, departments, i);
      assert members[i].id != last.id;
    }
  }

  lemma {:induction false} JoinedBranchOf(departments: seq<Department>, d: Department)
    requires forall i, j :: 0 <= i < j < |departments| ==> departments[i].id != departments[j].id
    requires d in departments
    ensures JoinedBranch(departments, d.id) == d.branchId
  {
    if departments[0] != d {
      assert d in departments[1..];
      var i :| 0 <= i < |departments[1..]| && departments[1..][i] == d;
      assert departments[0].id != departments[i + 1].id;
      JoinedBranchOf(departments[1..], d);
    }
  }

  /** Where a member's old branch b can be read off after the merge. */
  ghost predicate AtBranchNode(orgs: Orgs, branchNode: map<nat, nat>, m: Member, b: nat) {
    m.orgNodeId.Some? && b in branchNode && m.orgNodeId.value == branchNode[b]
  }

  ghost predicate UnderBranchNode(orgs: Orgs, branchNode: map<nat, nat>, m: Member, b: nat) {
    && m.orgNodeId.Some? && m.orgNodeId.value in orgs && b in branchNode
    && orgs[m.orgNodeId.value].parentId == Some(branchNode[b])
  }

  ghost predicate OnDepartmentNode(orgs: Orgs, branchNode: map<nat, nat>, deptNode: map<nat, nat>,
                                   departments: seq<Department>, r: Member, d: Department)
  {
    && d in departments && r.departmentId == Some(d.id)
    && DepartmentPlaced(orgs, branchNode, deptNode, d) && r.orgNodeId == Some(deptNode[d.id])
    && JoinedBranch(departments, d.id) == d.branchId
  }

  ghost predicate OnBranchNode(orgs: Orgs, branchNode: map<nat, nat>, branches: seq<Branch>, r: Member, b: Branch) {
    && b in branches && r.branchId == Some(b.id)
    && BranchPlaced(orgs, branchNode, b) && r.orgNodeId == Some(branchNode[b.id])
  }

  /** The node of a member: the department's node, else the branch's, else none. */
  lemma MemberNode(before: Orgs, orgs: Orgs, branches: seq<Branch>, departments: seq<Department>,
                   branchNode: map<nat, nat>, deptNode: map<nat, nat>, m: Member)
    requires Migrated(before, orgs, branches, departments, branchNode, deptNode)
    requires m.orgNodeId == None
    requires m.branchId.Some? ==> IsBranchId(branches, m.branchId.value)
    requires m.departmentId.Some? ==> IsDepartmentId(departments, m.departmentId.value)
    ensures var r := Repointed(m, branchNode, deptNode);
            && (m.departmentId.Some? ==> exists d :: OnDepartmentNode(orgs, branchNode, deptNode, departments, r, d))
            && (m.departmentId.None? && m.branchId.Some? ==> exists b :: OnBranchNode(orgs, branchNode, branches, r, b))
            && (m.departmentId.None? && m.branchId.None? ==> r.orgNodeId == None)
  {
    var r := Repointed(m, branchNode, deptNode);
    if m.departmentId.Some? {
      var d :| d in departments && d.id == m.departmentId.value;
      var j :| 0 <= j < |departments| && departments[j] == d;
      assert DepartmentPlaced(orgs, branchNode, deptNode, departments[j]);
      JoinedBranchOf(departments, d);
      assert OnDepartmentNode(orgs, branchNode, deptNode, departments, r, d);
    } else if m.branchId.Some? {
      var b :| b in branches && b.id == m.branchId.value;
      assert BranchPlaced(orgs, branchNode, b);
      assert OnBranchNode(orgs, branchNode, branches, r, b);
    }
  }

  function Members(tables: Tables, memberType: MemberType): seq<Member> {
    if memberType.EmployeeMember? then tables.employees else tables.users
  }

  lemma MembersStayFresh(members: seq<Member>, branches: seq<Branch>, departments: seq<Department>)
    requires MembersFresh(members, branches, departments)
    ensures MembersFresh(members, branches, Detached(departments, branches))
  {
    var detached := Detached(departments, branches);
    forall m | m in members && m.departmentId.Some? ensures IsDepartmentId(detached, m.departmentId.value) {
      var d :| d in departments && d.id == m.departmentId.value;
      var i :| 0 <= i < |departments| && departments[i] == d;
      assert detached[i] in detached && detached[i].id == d.id;
    }
  }

  lemma PreFacts(before: Tables, branches: seq<Branch>, memberType: MemberType)
    requires PreMigration(before.organizations, branches, before.departments, before.employees, before.users,
                          before.audit)
    ensures MembersFresh(Members(before, memberType), branches, before.departments)
    ensures forall i, j :: 0 <= i < j < |branches| ==> branches[i].id != branches[j].id
    ensures forall i, j :: 0 <= i < j < |before.departments| ==> before.departments[i].id != before.departments[j].id
  {
    hide MembersFresh;
  }

  /** A member after the backfill, from the member before it. */
  lemma MemberAfter(before: Tables, after: Tables, branches: seq<Branch>, branchNode: map<nat, nat>,
                    deptNode: map<nat, nat>, memberType: MemberType, i: nat)
    requires Backfilled(before, after, branches, branchNode, deptNode) && i < |Members(before, memberType)|
    ensures |Members(after, memberType)| == |Members(before, memberType)|
    ensures var r := Repointed(Members(before, memberType)[i], branchNode, deptNode);
            Members(after, memberType)[i] == if memberType.UserMember? then Guarded(r) else r
    ensures Migrated(before.organizations, after.organizations, branches, Detached(before.departments, branches),
                     branchNode, deptNode)
  {
    hide Migrated, Audit, TreeIndexed, CodesUnique, Extends, Detached, Repointed;
  }

  /**
   * For an employee or a user with a tenant who had branch b: they are on b's node, or on a child of it, or
   * else, and only else, the audit holds one row about them and it names b.
   */
  lemma BranchLinksAreKept(before: Tables, after: Tables, branches: seq<Branch>, branchNode: map<nat, nat>,
                           deptNode: map<nat, nat>, memberType: MemberType, i: nat)
    requires PreMigration(before.organizations, branches, before.departments, before.employees, before.users,
                          before.audit)
    requires Backfilled(before, after, branches, branchNode, deptNode)
    requires i < |Members(before, memberType)|
    requires var m := Members(before, memberType)[i];
             m.branchId.Some? && (memberType.UserMember? ==> m.organizationId.Some?)
    ensures |Members(after, memberType)| == |Members(before, memberType)|
    ensures var m, r := Members(before, memberType)[i], Members(after, memberType)[i];
            var rows := RowsAbout(after.audit, memberType, m.id);
            var b := m.branchId.value;
            && (rows == [] <==> || AtBranchNode(after.organizations, branchNode, r, b)
                                || UnderBranchNode(after.organizations, branchNode, r, b))
            && (rows != [] ==> |rows| == 1 && rows[0].branchId == b)
  {
    hide Audit, RowsAbout, Migrated, MembersFresh, PreMigration, Detached, TreeIndexed, CodesUnique, Extends, Repointed,
      RepointAll, UnscopeRootless, RepointLocations;
    var otherType := if memberType.EmployeeMember? then UserMember else EmployeeMember;
    var members, others, departments := Members(before, memberType), Members(before, otherType), after.departments;
    var m := members[i];
    PreFacts(before, branches, memberType);
    PreFacts(before, branches, otherType);
    MembersStayFresh(members, branches, before.departments);
    MembersStayFresh(others, branches, before.departments);
    MemberFacts(members, branches, departments, m);
    MemberFacts(others, branches, departments, m);
    MemberAfter(before, after, branches, branchNode, deptNode, memberType, i);
    RowsAboutConcat(Audit(EmployeeMember, before.employees, departments), Audit(UserMember, before.users, departments),
                    memberType, m.id);
    AuditRowsAbout(otherType, others, departments, memberType, m.id);
    OneRowPerLoss(memberType, members, departments, i);
    RepointedKeeps(m, branchNode, deptNode);
    NodeKinds(before.organizations, after.organizations, branches, departments, branchNode, deptNode, m);
  }

  lemma RepointedKeeps(m: Member, branchNode: map<nat, nat>, deptNode: map<nat, nat>)
    ensures Repointed(m, branchNode, deptNode) == m.(orgNodeId := Repointed(m, branchNode, deptNode).orgNodeId)
  {}

  lemma MemberFacts(members: seq<Member>, branches: seq<Branch>, departments: seq<Department>, m: Member)
    requires MembersFresh(members, branches, departments)
    ensures DistinctMembers(members)
    ensures m in members ==>
      m.orgNodeId == None && (m.branchId.Some? ==> IsBranchId(branches, m.branchId.value))
      && (m.departmentId.Some? ==> IsDepartmentId(departments, m.departmentId.value))
  {}

  /** Whether a repointed member's node is b's node, or a child of it, is decided by the links alone. */
  lemma NodeKinds(before: Orgs, orgs: Orgs, branches: seq<Branch>, departments: seq<Department>,
                  branchNode: map<nat, nat>, deptNode: map<nat, nat>, m: Member)
    requires Migrated(before, orgs, branches, departments, branchNode, deptNode)
    requires m.orgNodeId == None && m.branchId.Some?
    requires IsBranchId(branches, m.branchId.value)
    requires m.departmentId.Some? ==> IsDepartmentId(departments, m.departmentId.value)
    ensures var r := Repointed(m, branchNode, deptNode);
            var b := m.branchId.value;
            AtBranchNode(orgs, branchNode, r, b) || UnderBranchNode(orgs, branchNode, r, b)
            <==> !LosesBranch(m, departments)
  {
    var r := Repointed(m, branchNode, deptNode);
    var b := m.branchId.value;
    MemberNode(before, orgs, branches, departments, branchNode, deptNode, m);
    var home :| home in branches && home.id == b;
    assert BranchPlaced(orgs, branchNode, home);
    if m.departmentId.Some? {
      var d :| OnDepartmentNode(orgs, branchNode, deptNode, departments, r, d);
      assert r.orgNodeId == Some(deptNode[d.id]);
      assert orgs[deptNode[d.id]].nodeType != orgs[branchNode[b]].nodeType;
    }
  }

  // ── The final tenant check ───────────────────────────────────────────────

  /** What the migration's last assertion counts: a member on another company's node. */
  predicate CrossTenant(orgs: Orgs, m: Member) {
    && m.orgNodeId.Some? && m.orgNodeId.value in orgs && m.organizationId.Some?
    && orgs[m.orgNodeId.value].rootId != m.organizationId
  }

  /** The member's department, or lacking one the branch, is another company's. */
  ghost predicate PointsAbroad(m: Member, branches: seq<Branch>, departments: seq<Department>) {
    && m.organizationId.Some?
    && if m.departmentId.Some?
       then exists d :: d in departments && m.departmentId == Some(d.id) && m.organizationId != Some(d.organizationId)
       else exists b :: b in branches && m.branchId == Some(b.id) && m.organizationId != Some(b.organizationId)
  }

  lemma DetachedPointsAlike(m: Member, branches: seq<Branch>, departments: seq<Department>)
    ensures PointsAbroad(m, branches, Detached(departments, branches)) <==> PointsAbroad(m, branches, departments)
  {
    var detached := Detached(departments, branches);
    if d :| d in departments && m.departmentId == Some(d.id) && m.organizationId != Some(d.organizationId) {
      var i :| 0 <= i < |departments| && departments[i] == d;
      assert detached[i] in detached && detached[i].id == d.id && detached[i].organizationId == d.organizationId;
    }
    if d :| d in detached && m.departmentId == Some(d.id) && m.organizationId != Some(d.organizationId) {
      var i :| 0 <= i < |detached| && detached[i] == d;
      assert departments[i] in departments && departments[i].id == d.id;
    }
  }

  lemma RepointedAbroad(before: Orgs, orgs: Orgs, branches: seq<Branch>, departments: seq<Department>,
                        branchNode: map<nat, nat>, deptNode: map<nat, nat>, m: Member)
    requires Migrated(before, orgs, branches, departments, branchNode, deptNode)
    requires forall i, j :: 0 <= i < j < |branches| ==> branches[i].id != branches[j].id
    requires m.orgNodeId == None && m.organizationId.Some?
    requires m.branchId.Some? ==> IsBranchId(branches, m.branchId.value)
    requires m.departmentId.Some? ==> IsDepartmentId(departments, m.departmentId.value)
    ensures CrossTenant(orgs, Repointed(m, branchNode, deptNode)) <==> PointsAbroad(m, branches, departments)
  {
    var r := Repointed(m, branchNode, deptNode);
    MemberNode(before, orgs, branches, departments, branchNode, deptNode, m);
    if m.departmentId.Some? {
      var d :| OnDepartmentNode(orgs, branchNode, deptNode, departments, r, d);
      forall e | e in departments && e.id == d.id ensures e == d { SameDepartment(departments, d, e); }
    } else if m.branchId.Some? {
      var b :| OnBranchNode(orgs, branchNode, branches, r, b);
      forall e | e in branches && e.id == b.id ensures e == b { SameBranch(branches, b, e); }
    }
  }

  /**
   * After a completed backfill the check counts exactly the members whose department, or lacking one whose
   * branch, was another company's before it.
   */
  lemma TenantCheckIsExact(before: Tables, after: Tables, branches: seq<Branch>, branchNode: map<nat, nat>,
                           deptNode: map<nat, nat>, memberType: MemberType, i: nat)
    requires PreMigration(before.organizations, branches, before.departments, before.employees, before.users,
                          before.audit)
    requires Backfilled(before, after, branches, branchNode, deptNode)
    requires i < |Members(before, memberType)|
    ensures |Members(after, memberType)| == |Members(before, memberType)|
    ensures CrossTenant(after.organizations, Members(after, memberType)[i])
       <==> PointsAbroad(Members(before, memberType)[i], branches, before.departments)
  {
    hide Migrated, MembersFresh, PreMigration, Detached, PointsAbroad, Repointed, Backfilled;
    var m := Members(before, memberType)[i];
    var departments := Detached(before.departments, branches);
    PreFacts(before, branches, memberType);
    MembersStayFresh(Members(before, memberType), branches, before.departments);
    MemberFacts(Members(before, memberType), branches, departments, m);
    MemberAfter(before, after, branches, branchNode, deptNode, memberType, i);
    DetachedPointsAlike(m, branches, before.departments);
    RepointedKeeps(m, branchNode, deptNode);
    if m.organizationId.Some? {
      RepointedAbroad(before.organizations, after.organizations, branches, departments, branchNode, deptNode, m);
    } else {
      assert !PointsAbroad(m, branches, before.departments) by { NobodyAbroad(m, branches, before.departments); }
    }
  }

  lemma NobodyAbroad(m: Member, branches: seq<Branch>, departments: seq<Department>)
    requires m.organizationId.None?
    ensures !PointsAbroad(m, branches, departments)
  {}

  ghost predicate SomeoneAbroad(tables: Tables, branches: seq<Branch>) {
    || (exists i :: 0 <= i < |tables.employees| && PointsAbroad(tables.employees[i], branches, tables.departments))
    || (exists i :: 0 <= i < |tables.users| && PointsAbroad(tables.users[i], branches, tables.departments))
  }

  lemma RowsAreFilled(before: Tables, after: Tables, branches: seq<Branch>, branchNode: map<nat, nat>,
                      deptNode: map<nat, nat>)
    requires Backfilled(before, after, branches, branchNode, deptNode)
    ensures forall id :: id in after.organizations ==>
      after.organizations[id].rootId.Some? && after.organizations[id].path.Some?
  {
    hide Migrated, Audit, CodesUnique, Extends, TreeIndexed, AncestorAt, Str;
    forall id | id in after.organizations
      ensures after.organizations[id].rootId.Some? && after.organizations[id].path.Some?
    {
      DepthAndRootAreRight(after.organizations, id);
      PathShape(after.organizations, id);
    }
  }

  lemma CountedOfType(before: Tables, after: Tables, branches: seq<Branch>, branchNode: map<nat, nat>,
                      deptNode: map<nat, nat>, memberType: MemberType)
    requires PreMigration(before.organizations, branches, before.departments, before.employees, before.users,
                          before.audit)
    requires Backfilled(before, after, branches, branchNode, deptNode)
    ensures (exists m :: m in Members(after, memberType) && CrossTenant(after.organizations, m))
       <==> exists i :: 0 <= i < |Members(before, memberType)|
                        && PointsAbroad(Members(before, memberType)[i], branches, before.departments)
  {
    hide PreMigration, Backfilled, CrossTenant, PointsAbroad;
    SameNumber(before, after, branches, branchNode, deptNode, memberType);
    var was, now := Members(before, memberType), Members(after, memberType);
    forall i | 0 <= i < |was|
      ensures CrossTenant(after.organizations, now[i]) <==> PointsAbroad(was[i], branches, before.departments)
    {
      TenantCheckIsExact(before, after, branches, branchNode, deptNode, memberType, i);
    }
    if m :| m in now && CrossTenant(after.organizations, m) {
      var i :| 0 <= i < |now| && now[i] == m;
      assert PointsAbroad(was[i], branches, before.departments);
    }
    if i :| 0 <= i < |was| && PointsAbroad(was[i], branches, before.departments) {
      assert now[i] in now && CrossTenant(after.organizations, now[i]);
    }
  }

  lemma SameNumber(before: Tables, after: Tables, branches: seq<Branch>, branchNode: map<nat, nat>,
                   deptNode: map<nat, nat>, memberType: MemberType)
    requires Backfilled(before, after, branches, branchNode, deptNode)
    ensures |Members(after, memberType)| == |Members(before, memberType)|
  {
    hide Migrated, Audit, CodesUnique, Extends, TreeIndexed, Detached, Anchored, Repointed;
  }

  lemma SomeoneCounted(before: Tables, after: Tables, branches: seq<Branch>, branchNode: map<nat, nat>,
                       deptNode: map<nat, nat>)
    requires PreMigration(before.organizations, branches, before.departments, before.employees, before.users,
                          before.audit)
    requires Backfilled(before, after, branches, branchNode, deptNode)
    ensures SomeoneAbroad(before, branches) <==>
      || (exists m :: m in after.employees && CrossTenant(after.organizations, m))
      || (exists m :: m in after.users && CrossTenant(after.organizations, m))
  {
    hide PreMigration, Backfilled, CrossTenant, PointsAbroad;
    CountedOfType(before, after, branches, branchNode, deptNode, EmployeeMember);
    CountedOfType(before, after, branches, branchNode, deptNode, UserMember);
    assert Members(before, EmployeeMember) == before.employees && Members(after, EmployeeMember) == after.employees;
    assert Members(before, UserMember) == before.users && Members(after, UserMember) == after.users;
    if i :| 0 <= i < |before.employees| && PointsAbroad(before.employees[i], branches, before.departments) {
      assert PointsAbroad(Members(before, EmployeeMember)[i], branches, before.departments);
    }
    if i :| 0 <= i < |before.users| && PointsAbroad(before.users[i], branches, before.departments) {
      assert PointsAbroad(Members(before, UserMember)[i], branches, before.departments);
    }
  }

  lemma SameDepartment(departments: seq<Department>, d: Department, e: Department)
    requires forall i, j :: 0 <= i < j < |departments| ==> departments[i].id != departments[j].id
    requires d in departments && e in departments && d.id == e.id
    ensures d == e
  {
    var i :| 0 <= i < |departments| && departments[i] == d;
    var j :| 0 <= j < |departments| && departments[j] == e;
    assert i == j;
  }

  lemma SameBranch(branches: seq<Branch>, b: Branch, c: Branch)
    requires forall i, j :: 0 <= i < j < |branches| ==> branches[i].id != branches[j].id
    requires b in branches && c in branches && b.id == c.id
    ensures b == c
  {
    var i :| 0 <= i < |branches| && branches[i] == b;
    var j :| 0 <= j < |branches| && branches[j] == c;
    assert i == j;
  }
}
