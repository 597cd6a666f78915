/**
 * What a completed branch and department merge has made of each row, stated over the tables before it
 * (backend/alembic/versions/g3b4c5d6e7f8_org_tree_merge.py).
 */
module MergeRows {
  import opened Wrappers
  import opened Decimal
  import opened TreeIndex
  import opened MergeCodes
  import opened MergeMembers

  /** A row's position in its table before and after: the backfill updates rows in place. */
  lemma SameRows(before: Tables, after: Tables, branches: seq<Branch>, branchNode: map<nat, nat>,
                 deptNode: map<nat, nat>)
    requires Backfilled(before, after, branches, branchNode, deptNode)
    ensures |after.departments| == |before.departments| && |after.locations| == |before.locations|
    ensures |after.employees| == |before.employees| && |after.users| == |before.users|
    ensures before.organizations.Keys <= after.organizations.Keys
  {
    hide Migrated, Audit, TreeIndexed, CodesUnique, Repointed;
    assert Anchored(before.organizations).Keys == before.organizations.Keys;
  }

  /** Every organization stays, as the root of its own tree. */
  lemma CompanyAfter(before: Tables, after: Tables, branches: seq<Branch>, branchNode: map<nat, nat>,
                     deptNode: map<nat, nat>, id: nat)
    requires PreMigration(before.organizations, branches, before.departments, before.employees, before.users,
                          before.audit)
    requires Backfilled(before, after, branches, branchNode, deptNode) && id in before.organizations
    ensures id in after.organizations
    ensures after.organizations[id]
         == Org(before.organizations[id].code, None, Some(id), "company", Some("/" + Str(id) + "/"), 0)
  {
    hide Migrated, Audit, TreeIndexed, CodesUnique, Repointed, MembersFresh, Str;
    assert id in Anchored(before.organizations);
  }

  // ── Departments ──────────────────────────────────────────────────────────

  lemma ElsewhereUnlessOwn(d: Department, branches: seq<Branch>)
    requires forall i, j :: 0 <= i < j < |branches| ==> branches[i].id != branches[j].id
    requires d.branchId.Some? ==> IsBranchId(branches, d.branchId.value)
    ensures BranchElsewhere(d, branches) <==> d.branchId.Some? && !OwnBranch(branches, d)
  {
    if d.branchId.Some? {
      var b :| b in branches && b.id == d.branchId.value;
      forall c | c in branches && c.id == b.id ensures c == b { SameBranch(branches, b, c); }
    }
  }

  lemma DepartmentFacts(before: Tables, branches: seq<Branch>, d: Department)
    requires PreMigration(before.organizations, branches, before.departments, before.employees, before.users,
                          before.audit)
    requires d in before.departments
    ensures BranchElsewhere(d, branches) <==> d.branchId.Some? && !OwnBranch(branches, d)
  {
    hide MembersFresh, IsBranchId, BranchElsewhere, OwnBranch;
    ElsewhereUnlessOwn(d, branches);
  }

  /**
   * A department keeps its branch exactly if that is a branch of its own company. Its node then hangs under that
   * branch's node, and otherwise right under the company.
   */
  lemma DepartmentAfter(before: Tables, after: Tables, branches: seq<Branch>, branchNode: map<nat, nat>,
                        deptNode: map<nat, nat>, i: nat)
    requires PreMigration(before.organizations, branches, before.departments, before.employees, before.users,
                          before.audit)
    requires Backfilled(before, after, branches, branchNode, deptNode) && i < |before.departments|
    ensures |after.departments| == |before.departments|
    ensures var d := before.departments[i];
            after.departments[i] == if OwnBranch(branches, d) then d else d.(branchId := None)
    ensures var d := before.departments[i];
            && d.id in deptNode && deptNode[d.id] in after.organizations
            && (OwnBranch(branches, d) ==> d.branchId.Some? && d.branchId.value in branchNode)
            && var node := after.organizations[deptNode[d.id]];
               && node.nodeType == "department" && node.rootId == Some(d.organizationId)
               && node.parentId == Some(if OwnBranch(branches, d) then branchNode[d.branchId.value]
                                        else d.organizationId)
  {
    hide PreMigration, Audit, TreeIndexed, CodesUnique, Extends, Repointed, BranchesPlaced, NodesFresh, BranchElsewhere,
      OwnBranch;
    var d := before.departments[i];
    DepartmentFacts(before, branches, d);
    assert OwnBranch(branches, d) ==> d.branchId.Some? by { OwnBranchIsNamed(branches, d); }
    assert DepartmentPlaced(after.organizations, branchNode, deptNode, after.departments[i]);
  }

  lemma OwnBranchIsNamed(branches: seq<Branch>, d: Department)
    ensures OwnBranch(branches, d) ==> d.branchId.Some?
  {}

  // ── Members and locations ────────────────────────────────────────────────

  /** m's department, before the backfill, named no branch, another than m's, or one of another company. */
  ghost predicate DepartmentDisagrees(m: Member, branches: seq<Branch>, departments: seq<Department>) {
    exists d :: d in departments && m.departmentId == Some(d.id)
                && (d.branchId != m.branchId || !OwnBranch(branches, d))
  }

  lemma LosesExactly(before: Tables, branches: seq<Branch>, m: Member)
    requires PreMigration(before.organizations, branches, before.departments, before.employees, before.users,
                          before.audit)
    requires m.branchId.Some? && (m.departmentId.Some? ==> IsDepartmentId(before.departments, m.departmentId.value))
    ensures LosesBranch(m, Detached(before.departments, branches))
       <==> DepartmentDisagrees(m, branches, before.departments)
  {
    hide PreMigration, BranchElsewhere, OwnBranch, JoinedBranch;
    var departments, detached := before.departments, Detached(before.departments, branches);
    if m.departmentId.Some? {
      var d :| d in departments && d.id == m.departmentId.value;
      var i :| 0 <= i < |departments| && departments[i] == d;
      DistinctDepartments(before, branches);
      JoinedBranchOf(detached, detached[i]);
      DepartmentFacts(before, branches, d);
      forall e | e in departments && e.id == d.id ensures e == d { SameDepartment(departments, d, e); }
    }
  }

  lemma DistinctDepartments(before: Tables, branches: seq<Branch>)
    requires PreMigration(before.organizations, branches, before.departments, before.employees, before.users,
                          before.audit)
    ensures forall i, j :: 0 <= i < j < |before.departments| ==> before.departments[i].id != before.departments[j].id
  {}

  /** The audit names a member's branch exactly if the department, which wins, stood for another one or for none. */
  lemma AuditAfter(before: Tables, after: Tables, branches: seq<Branch>, branchNode: map<nat, nat>,
                   deptNode: map<nat, nat>, memberType: MemberType, i: nat)
    requires PreMigration(before.organizations, branches, before.departments, before.employees, before.users,
                          before.audit)
    requires Backfilled(before, after, branches, branchNode, deptNode) && i < |Members(before, memberType)|
    ensures var m := Members(before, memberType)[i];
            RowsAbout(after.audit, memberType, m.id)
            == if m.branchId.Some? && DepartmentDisagrees(m, branches, before.departments)
               then [AuditRow(memberType, m.id, m.branchId.value, m.departmentId.value)] else []
  {
    hide Audit, RowsAbout, Migrated, MembersFresh, PreMigration, Detached, TreeIndexed, CodesUnique, Extends, Repointed,
      RepointAll, UnscopeRootless, RepointLocations, LosesBranch, DepartmentDisagrees;
    var otherType := if memberType.EmployeeMember? then UserMember else EmployeeMember;
    var members, others, departments := Members(before, memberType), Members(before, otherType), after.departments;
    var m := members[i];
    PreFacts(before, branches, memberType);
    PreFacts(before, branches, otherType);
    MemberFacts(members, branches, before.departments, m);
    MemberFacts(others, branches, before.departments, m);
    RowsAboutConcat(Audit(EmployeeMember, before.employees, departments), Audit(UserMember, before.users, departments),
                    memberType, m.id);
    AuditRowsAbout(otherType, others, departments, memberType, m.id);
    OneRowPerLoss(memberType, members, departments, i);
    if m.branchId.Some? { LosesExactly(before, branches, m); } else { NothingToLose(m, departments); }
  }

  lemma NothingToLose(m: Member, departments: seq<Department>)
    requires m.branchId.None?
    ensures !LosesBranch(m, departments)
  {}

  /**
   * A member ends on the node of the department, lacking one on that of the branch, and lacking both on none; a user
   * without a company ends on none in any case. Nothing else about a member changes.
   */
  lemma MemberRowAfter(before: Tables, after: Tables, branches: seq<Branch>, branchNode: map<nat, nat>,
                       deptNode: map<nat, nat>, memberType: MemberType, i: nat)
    requires PreMigration(before.organizations, branches, before.departments, before.employees, before.users,
                          before.audit)
    requires Backfilled(before, after, branches, branchNode, deptNode) && i < |Members(before, memberType)|
    ensures |Members(after, memberType)| == |Members(before, memberType)|
    ensures var m := Members(before, memberType)[i];
            && (m.departmentId.Some? ==> m.departmentId.value in deptNode)
            && (m.branchId.Some? ==> m.branchId.value in branchNode)
            && Members(after, memberType)[i] == m.(orgNodeId :=
                 if memberType.UserMember? && m.organizationId.None? then None
                 else if m.departmentId.Some? then Some(deptNode[m.departmentId.value])
                 else if m.branchId.Some? then Some(branchNode[m.branchId.value])
                 else None)
  {
    hide PreMigration, Migrated, MembersFresh, Audit, TreeIndexed, CodesUnique, Extends, IsDepartmentId, IsBranchId;
    var m := Members(before, memberType)[i];
    PreFacts(before, branches, memberType);
    MemberFacts(Members(before, memberType), branches, before.departments, m);
    MemberAfter(before, after, branches, branchNode, deptNode, memberType, i);
    if m.departmentId.Some? {
      DepartmentHasNode(before, after, branches, branchNode, deptNode, m.departmentId.value);
    }
    if m.branchId.Some? { BranchHasNode(before, after, branches, branchNode, deptNode, m.branchId.value); }
  }

  lemma DepartmentHasNode(before: Tables, after: Tables, branches: seq<Branch>, branchNode: map<nat, nat>,
                          deptNode: map<nat, nat>, id: nat)
    requires PreMigration(before.organizations, branches, before.departments, before.employees, before.users,
                          before.audit)
    requires Backfilled(before, after, branches, branchNode, deptNode) && IsDepartmentId(before.departments, id)
    ensures id in deptNode
  {
    hide PreMigration, Backfilled, OwnBranch;
    var d :| d in before.departments && d.id == id;
    var i :| 0 <= i < |before.departments| && before.departments[i] == d;
    DepartmentAfter(before, after, branches, branchNode, deptNode, i);
  }

  lemma BranchHasNode(before: Tables, after: Tables, branches: seq<Branch>, branchNode: map<nat, nat>,
                      deptNode: map<nat, nat>, id: nat)
    requires Backfilled(before, after, branches, branchNode, deptNode) && IsBranchId(branches, id)
    ensures id in branchNode
  {
    hide Audit, TreeIndexed, CodesUnique, Extends, Repointed, DepartmentsPlaced, NodesFresh;
    var b :| b in branches && b.id == id;
    assert BranchPlaced(after.organizations, branchNode, b);
  }

  /** A location ends on the node of its branch; one without a branch stays as it was. */
  lemma LocationAfter(before: Tables, after: Tables, branches: seq<Branch>, branchNode: map<nat, nat>,
                      deptNode: map<nat, nat>, i: nat)
    requires Backfilled(before, after, branches, branchNode, deptNode) && i < |before.locations|
    requires var l := before.locations[i]; l.branchId.Some? ==> IsBranchId(branches, l.branchId.value)
    ensures |after.locations| == |before.locations|
    ensures var l := before.locations[i];
            && (l.branchId.Some? ==> l.branchId.value in branchNode)
            && after.locations[i]
               == if l.branchId.Some? then l.(orgNodeId := Some(branchNode[l.branchId.value])) else l
  {
    hide Migrated, Audit, TreeIndexed, CodesUnique, Extends, Repointed, IsBranchId;
    var l := before.locations[i];
    if l.branchId.Some? { BranchHasNode(before, after, branches, branchNode, deptNode, l.branchId.value); }
  }
}
