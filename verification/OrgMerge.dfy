/**
 * The migration that merges branches and departments into the organizations tree
 * (backend/alembic/versions/g3b4c5d6e7f8_org_tree_merge.py).
 */
module OrgMerge {
  import opened Wrappers
  import opened Sequences
  import opened Decimal
  import opened TreeIndex
  import opened MergeCodes
  import opened MergeMembers

  // ── One inserted node ────────────────────────────────────────────────────

  /** The tree is indexed, its codes are unique, and the used-code sets know all of them. */
  ghost predicate Filled(orgs: Orgs, usedCodes: map<nat, set<string>>) {
    && TreeIndexed(orgs)
    && CodesUnique(orgs)
    && CodesKnown(orgs, usedCodes)
  }

  ghost predicate CodesKnown(orgs: Orgs, usedCodes: map<nat, set<string>>) {
    forall id :: id in orgs ==> orgs[id].rootId.Some? && orgs[id].code in CodesOf(usedCodes, orgs[id].rootId.value)
  }

  lemma InsertKeepsFilled(orgs: Orgs, usedCodes: map<nat, set<string>>, newId: nat, row: Org)
    requires Filled(orgs, usedCodes)
    requires newId !in orgs
    requires row.parentId.Some? && row.parentId.value in orgs && IsChildRow(orgs[row.parentId.value], newId, row)
    requires row.rootId.Some? && row.code !in CodesOf(usedCodes, row.rootId.value)
    ensures var root := row.rootId.value;
            Filled(orgs[newId := row], usedCodes[root := CodesOf(usedCodes, root) + {row.code}])
    ensures Extends(orgs, orgs[newId := row])
  {
    hide TreeIndexed, CodesUnique, CodesKnown, IsChildRow;
    InsertKeepsIndex(orgs, newId, row);
    InsertKeepsCodesUnique(orgs, usedCodes, newId, row);
    InsertKeepsCodesKnown(orgs, usedCodes, newId, row);
  }

  lemma InsertKeepsIndex(orgs: Orgs, newId: nat, row: Org)
    requires TreeIndexed(orgs) && newId !in orgs
    requires row.parentId.Some? && row.parentId.value in orgs && IsChildRow(orgs[row.parentId.value], newId, row)
    ensures TreeIndexed(orgs[newId := row])
  {
    hide IsChildRow;
    var orgs' := orgs[newId := row];
    forall id | id in orgs' ensures RowIndexed(orgs', id) {
      if id != newId { assert RowIndexed(orgs, id); }
    }
  }

  lemma InsertKeepsCodesUnique(orgs: Orgs, usedCodes: map<nat, set<string>>, newId: nat, row: Org)
    requires CodesUnique(orgs) && CodesKnown(orgs, usedCodes)
    requires row.rootId.Some? && row.code !in CodesOf(usedCodes, row.rootId.value)
    ensures CodesUnique(orgs[newId := row])
  {
    hide CodesOf;
  }

  lemma InsertKeepsCodesKnown(orgs: Orgs, usedCodes: map<nat, set<string>>, newId: nat, row: Org)
    requires CodesKnown(orgs, usedCodes) && row.rootId.Some?
    ensures var root := row.rootId.value;
            CodesKnown(orgs[newId := row], usedCodes[root := CodesOf(usedCodes, root) + {row.code}])
  {}

  lemma MigratedNow(before: Orgs, orgs: Orgs, branches: seq<Branch>, departments: seq<Department>,
                    branchNode: map<nat, nat>, deptNode: map<nat, nat>)
    requires forall i, j :: 0 <= i < j < |departments| ==> departments[i].id != departments[j].id
    requires forall b :: b in branches ==> b.organizationId in before
    requires forall d :: d in departments ==> d.organizationId in before
    requires forall d :: d in departments ==> d.branchId.Some? ==> OwnBranch(branches, d)
    requires NodesFresh(Anchored(before), orgs, branchNode) && NodesFresh(Anchored(before), orgs, deptNode)
    requires BranchesPlaced(orgs, branchNode, branches)
    requires DepartmentsPlaced(orgs, branchNode, deptNode, departments, |departments|)
    ensures Migrated(before, orgs, branches, departments, branchNode, deptNode)
  {}

  class OrgDatabase {
    var organizations: Orgs
    var branches: seq<Branch>
    var departments: seq<Department>
    var employees: seq<Member>
    var users: seq<Member>
    var locations: seq<Location>
    var audit: seq<AuditRow>
    /** The old UNIQUE(code) on organizations is in force, as it is while upgrade() backfills. */
    const globalCodes: bool

    ghost function Data(): Tables
      reads this
    {
      Tables(organizations, departments, employees, users, locations, audit)
    }

    /** INSERT … RETURNING id, then the path that needs that id. The id is any unused one. */
    method InsertNode(rootId: nat, parentId: nat, parentPath: string, nodeType: string, code: string, depth: nat)
      returns (raised: bool, newId: nat, path: string)
      modifies this`organizations
      ensures raised <==> globalCodes && code in HeldCodes(old(organizations))
      ensures raised ==> organizations == old(organizations)
      ensures !raised ==> newId !in old(organizations) && path == parentPath + Str(newId) + "/"
      ensures var row := Org(code, Some(parentId), Some(rootId), nodeType, Some(path), depth);
              !raised ==> organizations == old(organizations)[newId := row]
    {
      newId, path := 0, "";
      if globalCodes && exists id :: id in organizations && organizations[id].code == code { return true, 0, ""; }
      raised := false;
      newId := UnusedId(organizations);
      organizations := organizations[newId := Org(code, Some(parentId), Some(rootId), nodeType, Some(""), depth)];
      path := parentPath + Str(newId) + "/";
      organizations := organizations[newId := organizations[newId].(path := Some(path))];
    }

    method UnusedId(orgs: Orgs) returns (id: nat)
      ensures id !in orgs
    {
      FreshNatExists(orgs.Keys);
      id :| id !in orgs;
    }

    /** A node with a free code, under a parent of the same company. */
    method AddNode(usedCodes: map<nat, set<string>>, rootId: nat, parentId: nat, parentPath: string,
                   nodeType: string, base: string, legacyId: nat, depth: nat)
      returns (raised: bool, newId: nat, path: string, used: map<nat, set<string>>)
      requires Filled(organizations, usedCodes)
      requires IsParent(organizations, parentId, parentPath, rootId, depth)
      modifies this`organizations
      ensures var code := Named(usedCodes, Job(rootId, base, nodeType, legacyId));
              && (raised <==> globalCodes && code in HeldCodes(old(organizations)))
              && (!raised ==> used == WithCode(usedCodes, rootId, code))
              && (!raised ==> HeldCodes(organizations) == HeldCodes(old(organizations)) + {code})
      ensures !raised ==> newId !in old(organizations) && newId in organizations
      ensures !raised ==> organizations[newId].code == Named(usedCodes, Job(rootId, base, nodeType, legacyId))
      ensures !raised ==> |organizations| == |old(organizations)| + 1
      ensures !raised ==> Filled(organizations, used) && Extends(old(organizations), organizations)
      ensures !raised ==> IsNode(organizations, newId, parentId, rootId, nodeType, path, depth)
    {
      hide FirstFree, Tried, HeldCodes, Filled, Extends, CodesOf;
      ghost var before := organizations;
      var code;
      code, used := UniqueCode(usedCodes, rootId, base, nodeType, legacyId);
      raised, newId, path := InsertNode(rootId, parentId, parentPath, nodeType, code, depth);
      if raised { return; }
      InsertKeepsFilled(before, usedCodes, newId, organizations[newId]);
      HeldOneMore(before, newId, organizations[newId]);
    }

    /** Branch nodes: depth 1, parented to the company root. */
    method InsertBranches(usedCodes: map<nat, set<string>>, ghost plan: Plan)
      returns (raised: bool, branchMap: map<nat, (nat, string)>, used: map<nat, set<string>>)
      requires Filled(organizations, usedCodes) && Progress(plan, organizations, usedCodes, 0, globalCodes)
      requires plan.jobs == BranchJobs(branches) + DepartmentJobs(departments)
      requires forall b :: b in branches ==> IsCompany(organizations, b.organizationId)
      requires forall i, j :: 0 <= i < j < |branches| ==> branches[i].id != branches[j].id
      modifies this`organizations
      ensures raised ==> globalCodes && !PlanIsFree(plan)
      ensures !raised ==> Progress(plan, organizations, used, |branches|, globalCodes)
      ensures !raised ==> Filled(organizations, used) && Extends(old(organizations), organizations)
      ensures !raised ==> |organizations| == |old(organizations)| + |branches|
      ensures !raised ==> BranchesMapped(organizations, branchMap, branches, |branches|)
      ensures !raised ==> NewNodes(plan, old(organizations), organizations, Nodes(branchMap), 0, BranchIds(branches))
    {
      hide Filled, IsNode, IsParent, Nodes, Progress, PlanIsFree, Named, WithCode, HeldCodes, NewNodes;
      ghost var ids := BranchIds(branches);
      NoNodes(plan, organizations, 0, ids);
      raised, branchMap, used := false, map[], usedCodes;
      for i := 0 to |branches|
        invariant !raised
        invariant Progress(plan, organizations, used, i, globalCodes)
        invariant Filled(organizations, used) && Extends(old(organizations), organizations)
        invariant |organizations| == |old(organizations)| + i
        invariant BranchesMapped(organizations, branchMap, branches, i)
        invariant NewNodes(plan, old(organizations), organizations, Nodes(branchMap), 0, ids[..i])
      {
        var b := branches[i];
        ghost var before, mapBefore, usedBefore := organizations, branchMap, used;
        assert plan.jobs[i] == Job(b.organizationId, b.code, "branch", b.id);
        CompanyIsParent(old(organizations), organizations, used, b.organizationId);
        var newId, path;
        raised, newId, path, used := AddNode(used, b.organizationId, b.organizationId,
          organizations[b.organizationId].path.value, "branch", b.code, b.id, 1);
        if raised {
          ProgressStops(plan, before, usedBefore, i);
          return;
        }
        ProgressStep(plan, before, organizations, usedBefore, i, globalCodes);
        branchMap := branchMap[b.id := (newId, path)];
        BranchStep(before, organizations, mapBefore, newId, path, branches, i);
        MappedNodes(mapBefore, b.id, newId, path);
        NewNodesStep(plan, old(organizations), before, organizations, usedBefore, globalCodes, Nodes(mapBefore), 0, ids,
                     i, newId);
        ExtendsFurther(old(organizations), before, organizations);
      }
      assert ids[..|branches|] == ids;
    }

    /** One department's node: under its branch's node if it has a branch, else under its company. */
    method AddDepartment(usedCodes: map<nat, set<string>>, branchMap: map<nat, (nat, string)>, d: Department)
      returns (raised: bool, newId: nat, used: map<nat, set<string>>, ghost path: string, ghost depth: nat)
      requires Filled(organizations, usedCodes) && IsCompany(organizations, d.organizationId)
      requires BranchesMapped(organizations, branchMap, branches, |branches|)
      requires d.branchId.Some? ==> OwnBranch(branches, d)
      modifies this`organizations
      ensures var code := Named(usedCodes, Job(d.organizationId, d.code, "department", d.id));
              && (raised <==> globalCodes && code in HeldCodes(old(organizations)))
              && (!raised ==> used == WithCode(usedCodes, d.organizationId, code))
              && (!raised ==> HeldCodes(organizations) == HeldCodes(old(organizations)) + {code})
      ensures !raised ==> newId !in old(organizations) && |organizations| == |old(organizations)| + 1
      ensures var code := Named(usedCodes, Job(d.organizationId, d.code, "department", d.id));
              !raised ==> newId in organizations && organizations[newId].code == code
      ensures !raised ==> Filled(organizations, used) && Extends(old(organizations), organizations)
      ensures d.branchId.Some? ==> d.branchId.value in branchMap
      ensures var parentId := if d.branchId.Some? then branchMap[d.branchId.value].0 else d.organizationId;
              !raised ==> IsNode(organizations, newId, parentId, d.organizationId, "department", path, depth)
    {
      hide Filled, TreeIndexed, CodesUnique, BranchesMapped, Extends, IsNode, IsParent, Named, WithCode, HeldCodes,
        OwnBranch, CodesOf;
      FilledParts(organizations, usedCodes);
      CompanyIsParent(organizations, organizations, usedCodes, d.organizationId);
      if d.branchId.Some? { OwnBranchIsParent(organizations, organizations, branchMap, branches, d); }
      var parentId, parentPath, level := d.organizationId, organizations[d.organizationId].path.value, 1;
      if d.branchId.Some? && d.branchId.value in branchMap {
        parentId, parentPath := branchMap[d.branchId.value].0, branchMap[d.branchId.value].1;
        level := 2;
      }
      var newPath;
      raised, newId, newPath, used := AddNode(usedCodes, d.organizationId, parentId, parentPath, "department",
                                              d.code, d.id, level);
      path, depth := newPath, level;
    }

    /** Department nodes, one by one. */
    method InsertDepartments(usedCodes: map<nat, set<string>>, branchMap: map<nat, (nat, string)>, ghost plan: Plan)
      returns (raised: bool, deptMap: map<nat, nat>)
      requires Filled(organizations, usedCodes) && Progress(plan, organizations, usedCodes, |branches|, globalCodes)
      requires plan.jobs == BranchJobs(branches) + DepartmentJobs(departments)
      requires BranchesMapped(organizations, branchMap, branches, |branches|)
      requires forall d :: d in departments ==> IsCompany(organizations, d.organizationId)
      requires forall d :: d in departments ==> d.branchId.Some? ==> OwnBranch(branches, d)
      requires forall i, j :: 0 <= i < j < |departments| ==> departments[i].id != departments[j].id
      modifies this`organizations
      ensures raised <==> globalCodes && !PlanIsFree(plan)
      ensures !raised ==> TreeIndexed(organizations) && CodesUnique(organizations)
      ensures !raised ==> Extends(old(organizations), organizations)
      ensures !raised ==> |organizations| == |old(organizations)| + |departments|
      ensures !raised ==> DepartmentsPlaced(organizations, Nodes(branchMap), deptMap, departments, |departments|)
      ensures !raised ==> NewNodes(plan, old(organizations), organizations, deptMap, |branches|,
                                   DepartmentIds(departments))
    {
      hide Filled, TreeIndexed, CodesUnique, BranchesMapped, DepartmentsPlaced, Extends, IsNode, IsCompany, Nodes,
        Progress, PlanIsFree, Named, WithCode, HeldCodes, OwnBranch, CodesOf, NewNodes, Planted, DepartmentIds;
      ghost var base := organizations;
      NothingPlanted(plan, base, usedCodes, branchMap, branches, departments, globalCodes);
      raised, deptMap := false, map[];
      var used := usedCodes;
      for i := 0 to |departments|
        invariant !raised
        invariant Filled(organizations, used)
        invariant Planted(plan, base, organizations, used, branchMap, deptMap, branches, departments, i, globalCodes)
      {
        var d := departments[i];
        ghost var before, mapBefore, usedBefore := organizations, deptMap, used;
        PlantedExtends(plan, base, organizations, used, branchMap, deptMap, branches, departments, i, globalCodes);
        CompaniesStay(base, organizations, departments);
        BranchesStayMapped(base, organizations, branchMap, branches);
        ghost var path, depth;
        var newId;
        raised, newId, used, path, depth := AddDepartment(used, branchMap, d);
        if raised {
          PlantingStops(plan, base, before, usedBefore, branchMap, deptMap, branches, departments, i);
          return;
        }
        deptMap := deptMap[d.id := newId];
        PlantedStep(plan, base, before, organizations, usedBefore, branchMap, mapBefore, branches, departments, i,
                    globalCodes, newId, path, depth);
      }
      FilledParts(organizations, used);
      AllPlanted(plan, base, organizations, used, branchMap, deptMap, branches, departments, globalCodes);
    }

    /** backfill_org_tree. The ghost results name the node each legacy row became. */
    method BackfillOrgTree() returns (raised: bool, ghost branchNode: map<nat, nat>, ghost deptNode: map<nat, nat>)
      requires PreMigration(organizations, branches, departments, employees, users, audit)
      modifies this`organizations, this`departments, this`audit, this`employees, this`users, this`locations
      ensures raised <==> globalCodes && !PlanIsFree(PlanOf(old(organizations), branches, old(departments)))
      ensures !raised ==> Backfilled(old(Data()), Data(), branches, branchNode, deptNode)
    {
      hide PreMigration, Detached, Anchored, Filled, TreeIndexed, CodesUnique, Audit, RepointAll, UnscopeRootless,
        RepointLocations, BranchesMapped, BranchesPlaced, DepartmentsPlaced, Nodes, Extends, Migrated, NodesFresh,
        NewNodes, NodesNamed, GeneratedCodes, CodesGiven, DepartmentIds,
        IsCompany, OwnBranch, MembersFresh, IsBranchId, Progress, PlanIsFree, HeldCodes, UsedAtFirst, BranchJobs,
        DepartmentJobs;
      branchNode, deptNode := map[], map[];
      ghost var before, plan := organizations, PlanOf(organizations, branches, departments);
      SchemaFacts(organizations, branches, departments, employees, users, audit);
      DetachedKeepsSchema(organizations, branches, departments);
      DetachedKeepsJobs(departments, branches);
      DetachedKeepsIds(departments, branches);
      departments := Detached(departments, branches);
      var usedCodes := UsedAtFirst(organizations);
      AnchoredIsFilled(organizations);
      organizations := Anchored(organizations);
      ProgressAtFirst(plan, organizations, usedCodes, globalCodes);
      var branchMap;
      raised, branchMap, usedCodes := InsertBranches(usedCodes, plan);
      if raised { return; }
      ghost var withBranches := organizations;
      CompaniesStay(Anchored(before), organizations, departments);
      var deptMap;
      raised, deptMap := InsertDepartments(usedCodes, branchMap, plan);
      if raised { return; }
      BranchesStayPlaced(withBranches, organizations, branchMap, branches);
      ExtendsFurther(Anchored(before), withBranches, organizations);
      AllNodesNew(plan, Anchored(before), withBranches, organizations, Nodes(branchMap), BranchIds(branches), deptMap,
                  DepartmentIds(departments));
      CodesGivenNow(old(Data()), organizations, branches, Nodes(branchMap), deptMap);
      MigratedNow(before, organizations, branches, departments, Nodes(branchMap), deptMap);
      branchNode, deptNode := Nodes(branchMap), deptMap;
      RepointMembers(Nodes(branchMap), deptMap);
    }

    /** The data part of upgrade(): the backfill and the integrity checks, in one transaction. */
    method Upgrade() returns (raised: bool, ghost branchNode: map<nat, nat>, ghost deptNode: map<nat, nat>)
      requires PreMigration(organizations, branches, departments, employees, users, audit)
      modifies this`organizations, this`departments, this`audit, this`employees, this`users, this`locations
      ensures raised <==>
        || (globalCodes && !PlanIsFree(PlanOf(old(organizations), branches, old(departments))))
        || SomeoneAbroad(old(Data()), branches)
      ensures raised ==> Data() == old(Data())
      ensures !raised ==> Backfilled(old(Data()), Data(), branches, branchNode, deptNode)
    {
      hide PreMigration, Backfilled, PlanIsFree, PlanOf, SomeoneAbroad, CrossTenant;
      var saved := Tables(organizations, departments, employees, users, locations, audit);
      raised, branchNode, deptNode := BackfillOrgTree();
      if !raised {
        RowsAreFilled(saved, Data(), branches, branchNode, deptNode);
        SomeoneCounted(saved, Data(), branches, branchNode, deptNode);
        raised := (exists id :: id in organizations && organizations[id].rootId.None?)
               || (exists id :: id in organizations && organizations[id].path.None?)
               || (exists m :: m in employees && CrossTenant(organizations, m))
               || (exists m :: m in users && CrossTenant(organizations, m));
      }
      if raised {
        organizations, departments, employees := saved.organizations, saved.departments, saved.employees;
        users, locations, audit := saved.users, saved.locations, saved.audit;
      }
    }

    /** The audit of dropped branch links, then the members' and locations' new nodes. */
    method RepointMembers(branchNode: map<nat, nat>, deptNode: map<nat, nat>)
      requires audit == []
      modifies this`audit, this`employees, this`users, this`locations
      ensures audit == Audit(EmployeeMember, old(employees), departments) + Audit(UserMember, old(users), departments)
      ensures employees == RepointAll(old(employees), branchNode, deptNode)
      ensures users == UnscopeRootless(RepointAll(old(users), branchNode, deptNode))
      ensures locations == RepointLocations(old(locations), branchNode)
    {
      audit := audit + Audit(EmployeeMember, employees, departments);
      audit := audit + Audit(UserMember, users, departments);
      employees := RepointAll(employees, branchNode, deptNode);
      users := RepointAll(users, branchNode, deptNode);
      users := UnscopeRootless(users);
      locations := RepointLocations(locations, branchNode);
    }
  }

  // ── Steps of the backfill ────────────────────────────────────────────────

  function Nodes(branchMap: map<nat, (nat, string)>): map<nat, nat> {
    map k | k in branchMap :: branchMap[k].0
  }

  ghost predicate IsCompany(orgs: Orgs, id: nat) {
    id in orgs && orgs[id].parentId == None && orgs[id].rootId == Some(id)
  }

  /** BranchPlaced, with what the department loop reads from the map. */
  ghost predicate BranchMapped(orgs: Orgs, branchMap: map<nat, (nat, string)>, b: Branch) {
    && b.id in branchMap
    && BranchPlaced(orgs, Nodes(branchMap), b)
    && orgs[branchMap[b.id].0].path == Some(branchMap[b.id].1) && orgs[branchMap[b.id].0].depth == 1
  }

  ghost predicate BranchesMapped(orgs: Orgs, branchMap: map<nat, (nat, string)>, branches: seq<Branch>, n: nat)
    requires n <= |branches|
  {
    forall j :: 0 <= j < n ==> BranchMapped(orgs, branchMap, branches[j])
  }

  /** parentId can take a child of the company rootId at this depth; its path is parentPath. */
  ghost predicate IsParent(orgs: Orgs, parentId: nat, parentPath: string, rootId: nat, depth: nat) {
    && parentId in orgs && orgs[parentId].path == Some(parentPath)
    && orgs[parentId].rootId == Some(rootId) && orgs[parentId].depth + 1 == depth
  }

  ghost predicate IsNode(orgs: Orgs, id: nat, parentId: nat, rootId: nat, nodeType: string, path: string, depth: nat) {
    && id in orgs && orgs[id].parentId == Some(parentId) && orgs[id].rootId == Some(rootId)
    && orgs[id].nodeType == nodeType && orgs[id].path == Some(path) && orgs[id].depth == depth
  }

  lemma ExtendsFurther(a: Orgs, b: Orgs, c: Orgs)
    requires Extends(a, b) && Extends(b, c)
    ensures Extends(a, c)
  {}

  lemma CompanyIsParent(base: Orgs, orgs: Orgs, usedCodes: map<nat, set<string>>, id: nat)
    requires IsCompany(base, id) && Extends(base, orgs) && Filled(orgs, usedCodes)
    ensures id in orgs && orgs[id].path.Some? && IsParent(orgs, id, orgs[id].path.value, id, 1)
  {
    assert RowIndexed(orgs, id);
  }

  lemma OwnBranchIsParent(base: Orgs, orgs: Orgs, branchMap: map<nat, (nat, string)>, branches: seq<Branch>,
                          d: Department)
    requires BranchesMapped(base, branchMap, branches, |branches|) && OwnBranch(branches, d) && Extends(base, orgs)
    ensures d.branchId.value in branchMap
    ensures IsParent(orgs, branchMap[d.branchId.value].0, branchMap[d.branchId.value].1, d.organizationId, 2)
  {
    var j :| 0 <= j < |branches| && d.branchId == Some(branches[j].id)
             && branches[j].organizationId == d.organizationId;
    assert BranchMapped(base, branchMap, branches[j]);
  }

  lemma BranchStep(before: Orgs, after: Orgs, branchMap: map<nat, (nat, string)>, newId: nat, path: string,
                   branches: seq<Branch>, i: nat)
    requires i < |branches| && BranchesMapped(before, branchMap, branches, i) && Extends(before, after)
    requires forall j :: 0 <= j < i ==> branches[j].id != branches[i].id
    requires IsNode(after, newId, branches[i].organizationId, branches[i].organizationId, "branch", path, 1)
    ensures BranchesMapped(after, branchMap[branches[i].id := (newId, path)], branches, i + 1)
  {
    var mapAfter := branchMap[branches[i].id := (newId, path)];
    forall j | 0 <= j < i ensures BranchMapped(after, mapAfter, branches[j]) {
      assert BranchMapped(before, branchMap, branches[j]);
    }
  }

  lemma FilledParts(orgs: Orgs, usedCodes: map<nat, set<string>>)
    requires Filled(orgs, usedCodes)
    ensures TreeIndexed(orgs) && CodesUnique(orgs) && Extends(orgs, orgs)
  {}

  /** The nodes of the legacy rows `ids`, whose jobs start at `first`, are new and named by the plan. */
  ghost predicate NewNodes(plan: Plan, base: Orgs, orgs: Orgs, nodes: map<nat, nat>, first: nat, ids: seq<nat>) {
    NodesFresh(base, orgs, nodes) && NodesNamed(GeneratedCodes(plan.usedCodes, plan.jobs), first, orgs, nodes, ids)
  }

  lemma NoNodes(plan: Plan, orgs: Orgs, first: nat, ids: seq<nat>)
    requires first <= |plan.jobs|
    ensures NewNodes(plan, orgs, orgs, map[], first, ids[..0])
    ensures NewNodes(plan, orgs, orgs, Nodes(map[]), first, ids[..0])
  {}

  lemma MappedNodes(branchMap: map<nat, (nat, string)>, branchId: nat, newId: nat, path: string)
    ensures Nodes(branchMap[branchId := (newId, path)]) == Nodes(branchMap)[branchId := newId]
  {}

  lemma FreshStep(base: Orgs, before: Orgs, after: Orgs, nodes: map<nat, nat>, id: nat, newId: nat)
    requires NodesFresh(base, before, nodes) && Extends(base, before) && Extends(before, after)
    requires newId !in before && newId in after
    ensures NodesFresh(base, after, nodes[id := newId])
  {}

  lemma NamedStep(codes: seq<string>, before: Orgs, after: Orgs, nodes: map<nat, nat>, first: nat, ids: seq<nat>,
                  i: nat, newId: nat)
    requires i < |ids| && first + i < |codes| && NodesNamed(codes, first, before, nodes, ids[..i])
    requires Extends(before, after) && newId in after && after[newId].code == codes[first + i]
    requires forall j :: 0 <= j < i ==> ids[j] != ids[i]
    ensures NodesNamed(codes, first, after, nodes[ids[i] := newId], ids[..i + 1])
  {
    forall j | 0 <= j < i + 1 ensures NodeNamed(codes[first..][j], after, nodes[ids[i] := newId], ids[..i + 1][j]) {
      if j < i { assert NodeNamed(codes[first..][j], before, nodes, ids[..i][j]); }
    }
  }

  lemma NewNodesStep(plan: Plan, base: Orgs, before: Orgs, after: Orgs, usedCodes: map<nat, set<string>>,
                     globalCodes: bool, nodes: map<nat, nat>, first: nat, ids: seq<nat>, i: nat, newId: nat)
    requires i < |ids| && first + i < |plan.jobs| && Progress(plan, before, usedCodes, first + i, globalCodes)
    requires NewNodes(plan, base, before, nodes, first, ids[..i]) && Extends(base, before) && Extends(before, after)
    requires newId !in before && newId in after && after[newId].code == Named(usedCodes, plan.jobs[first + i])
    requires forall j :: 0 <= j < i ==> ids[j] != ids[i]
    ensures NewNodes(plan, base, after, nodes[ids[i] := newId], first, ids[..i + 1])
  {
    hide NodesFresh, NodesNamed, GeneratedCodes, UsedAfter, Named, Extends, HeldCodes, CodesAreFree;
    GeneratedAt(plan.usedCodes, plan.jobs, first + i);
    FreshStep(base, before, after, nodes, ids[i], newId);
    NamedStep(GeneratedCodes(plan.usedCodes, plan.jobs), before, after, nodes, first, ids, i, newId);
  }

  /** The first n departments have their nodes. */
  ghost predicate Planted(plan: Plan, base: Orgs, orgs: Orgs, usedCodes: map<nat, set<string>>,
                          branchMap: map<nat, (nat, string)>, deptMap: map<nat, nat>, branches: seq<Branch>,
                          departments: seq<Department>, n: nat, globalCodes: bool)
    requires n <= |departments|
  {
    && Progress(plan, orgs, usedCodes, |branches| + n, globalCodes)
    && Extends(base, orgs) && |orgs| == |base| + n
    && DepartmentsPlaced(orgs, Nodes(branchMap), deptMap, departments, n)
    && NewNodes(plan, base, orgs, deptMap, |branches|, DepartmentIds(departments)[..n])
  }

  lemma NothingPlanted(plan: Plan, orgs: Orgs, usedCodes: map<nat, set<string>>, branchMap: map<nat, (nat, string)>,
                       branches: seq<Branch>, departments: seq<Department>, globalCodes: bool)
    requires Progress(plan, orgs, usedCodes, |branches|, globalCodes)
    ensures Planted(plan, orgs, orgs, usedCodes, branchMap, map[], branches, departments, 0, globalCodes)
  {
    hide GeneratedCodes, UsedAfter, HeldCodes, Named, Nodes;
    NoNodes(plan, orgs, |branches|, DepartmentIds(departments));
  }

  lemma PlantedExtends(plan: Plan, base: Orgs, orgs: Orgs, usedCodes: map<nat, set<string>>,
                       branchMap: map<nat, (nat, string)>, deptMap: map<nat, nat>, branches: seq<Branch>,
                       departments: seq<Department>, n: nat, globalCodes: bool)
    requires n <= |departments|
    requires Planted(plan, base, orgs, usedCodes, branchMap, deptMap, branches, departments, n, globalCodes)
    ensures Extends(base, orgs)
  {
    hide Progress, DepartmentsPlaced, NewNodes, Extends;
  }

  lemma PlantingStops(plan: Plan, base: Orgs, orgs: Orgs, usedCodes: map<nat, set<string>>,
                      branchMap: map<nat, (nat, string)>, deptMap: map<nat, nat>, branches: seq<Branch>,
                      departments: seq<Department>, n: nat)
    requires n < |departments| && plan.jobs == BranchJobs(branches) + DepartmentJobs(departments)
    requires Planted(plan, base, orgs, usedCodes, branchMap, deptMap, branches, departments, n, true)
    requires var d := departments[n];
             Named(usedCodes, Job(d.organizationId, d.code, "department", d.id)) in HeldCodes(orgs)
    ensures !PlanIsFree(plan)
  {
    hide Progress, DepartmentsPlaced, NewNodes, Extends, Named, HeldCodes, PlanIsFree;
    ProgressStops(plan, orgs, usedCodes, |branches| + n);
  }

  lemma PlantedStep(plan: Plan, base: Orgs, before: Orgs, after: Orgs, usedCodes: map<nat, set<string>>,
                    branchMap: map<nat, (nat, string)>, deptMap: map<nat, nat>, branches: seq<Branch>,
                    departments: seq<Department>, n: nat, globalCodes: bool, newId: nat, path: string, depth: nat)
    requires n < |departments| && plan.jobs == BranchJobs(branches) + DepartmentJobs(departments)
    requires forall i, j :: 0 <= i < j < |departments| ==> departments[i].id != departments[j].id
    requires Planted(plan, base, before, usedCodes, branchMap, deptMap, branches, departments, n, globalCodes)
    requires Extends(before, after) && |after| == |before| + 1 && newId !in before && newId in after
    requires var d := departments[n];
             var code := Named(usedCodes, Job(d.organizationId, d.code, "department", d.id));
             && (globalCodes ==> code !in HeldCodes(before)) && after[newId].code == code
             && HeldCodes(after) == HeldCodes(before) + {code}
    requires var d := departments[n];
             && (d.branchId.Some? ==> d.branchId.value in branchMap)
             && var parentId := if d.branchId.Some? then branchMap[d.branchId.value].0 else d.organizationId;
                IsNode(after, newId, parentId, d.organizationId, "department", path, depth)
    ensures var d := departments[n];
            var code := Named(usedCodes, Job(d.organizationId, d.code, "department", d.id));
            Planted(plan, base, after, WithCode(usedCodes, d.organizationId, code), branchMap, deptMap[d.id := newId],
                    branches, departments, n + 1, globalCodes)
  {
    hide Progress, DepartmentsPlaced, NewNodes, Extends, Named, HeldCodes, WithCode, IsNode, Nodes;
    var d := departments[n];
    assert plan.jobs[|branches| + n] == Job(d.organizationId, d.code, "department", d.id);
    ProgressStep(plan, before, after, usedCodes, |branches| + n, globalCodes);
    DepartmentStep(before, after, branchMap, deptMap, newId, path, depth, departments, n);
    NewNodesStep(plan, base, before, after, usedCodes, globalCodes, deptMap, |branches|, DepartmentIds(departments), n,
                 newId);
    ExtendsFurther(base, before, after);
  }

  lemma AllPlanted(plan: Plan, base: Orgs, orgs: Orgs, usedCodes: map<nat, set<string>>,
                   branchMap: map<nat, (nat, string)>, deptMap: map<nat, nat>, branches: seq<Branch>,
                   departments: seq<Department>, globalCodes: bool)
    requires plan.jobs == BranchJobs(branches) + DepartmentJobs(departments)
    requires Planted(plan, base, orgs, usedCodes, branchMap, deptMap, branches, departments, |departments|, globalCodes)
    ensures globalCodes ==> PlanIsFree(plan)
    ensures Extends(base, orgs) && |orgs| == |base| + |departments|
    ensures DepartmentsPlaced(orgs, Nodes(branchMap), deptMap, departments, |departments|)
    ensures NewNodes(plan, base, orgs, deptMap, |branches|, DepartmentIds(departments))
  {
    hide Progress, DepartmentsPlaced, NewNodes, Extends, PlanIsFree, Nodes;
    assert DepartmentIds(departments)[..|departments|] == DepartmentIds(departments);
    if globalCodes { ProgressDone(plan, orgs, usedCodes); }
  }

  lemma NamedStays(codes: seq<string>, before: Orgs, after: Orgs, nodes: map<nat, nat>, first: nat, ids: seq<nat>)
    requires NodesNamed(codes, first, before, nodes, ids) && Extends(before, after)
    ensures NodesNamed(codes, first, after, nodes, ids)
  {
    forall j | 0 <= j < |ids| ensures NodeNamed(codes[first..][j], after, nodes, ids[j]) {
      assert NodeNamed(codes[first..][j], before, nodes, ids[j]);
    }
  }

  lemma FreshStays(base: Orgs, before: Orgs, after: Orgs, nodes: map<nat, nat>)
    requires NodesFresh(base, before, nodes) && Extends(before, after)
    ensures NodesFresh(base, after, nodes)
  {}

  lemma FreshBelow(base: Orgs, middle: Orgs, orgs: Orgs, nodes: map<nat, nat>)
    requires NodesFresh(middle, orgs, nodes) && Extends(base, middle)
    ensures NodesFresh(base, orgs, nodes)
  {}

  lemma AllNodesNew(plan: Plan, base: Orgs, middle: Orgs, orgs: Orgs, branchNode: map<nat, nat>, branchIds: seq<nat>,
                    deptNode: map<nat, nat>, departmentIds: seq<nat>)
    requires NewNodes(plan, base, middle, branchNode, 0, branchIds) && Extends(base, middle) && Extends(middle, orgs)
    requires NewNodes(plan, middle, orgs, deptNode, |branchIds|, departmentIds)
    ensures NodesFresh(base, orgs, branchNode) && NodesFresh(base, orgs, deptNode)
    ensures var codes := GeneratedCodes(plan.usedCodes, plan.jobs);
            && NodesNamed(codes, 0, orgs, branchNode, branchIds)
            && NodesNamed(codes, |branchIds|, orgs, deptNode, departmentIds)
  {
    hide NodesFresh, NodesNamed, GeneratedCodes, Extends;
    FreshStays(base, middle, orgs, branchNode);
    FreshBelow(base, middle, orgs, deptNode);
    NamedStays(GeneratedCodes(plan.usedCodes, plan.jobs), middle, orgs, branchNode, 0, branchIds);
  }

  lemma DepartmentStep(before: Orgs, after: Orgs, branchMap: map<nat, (nat, string)>, deptMap: map<nat, nat>,
                       newId: nat, path: string, depth: nat, departments: seq<Department>, i: nat)
    requires i < |departments| && DepartmentsPlaced(before, Nodes(branchMap), deptMap, departments, i)
    requires Extends(before, after)
    requires forall j :: 0 <= j < i ==> departments[j].id != departments[i].id
    requires departments[i].branchId.Some? ==> departments[i].branchId.value in branchMap
    requires var d := departments[i];
             var parentId := if d.branchId.Some? then branchMap[d.branchId.value].0 else d.organizationId;
             IsNode(after, newId, parentId, d.organizationId, "department", path, depth)
    ensures DepartmentsPlaced(after, Nodes(branchMap), deptMap[departments[i].id := newId], departments, i + 1)
  {
    var mapAfter := deptMap[departments[i].id := newId];
    forall j | 0 <= j < i ensures DepartmentPlaced(after, Nodes(branchMap), mapAfter, departments[j]) {
      assert DepartmentPlaced(before, Nodes(branchMap), deptMap, departments[j]);
    }
  }

  lemma BranchesStayMapped(before: Orgs, after: Orgs, branchMap: map<nat, (nat, string)>, branches: seq<Branch>)
    requires BranchesMapped(before, branchMap, branches, |branches|) && Extends(before, after)
    ensures BranchesMapped(after, branchMap, branches, |branches|)
  {
    forall j | 0 <= j < |branches| ensures BranchMapped(after, branchMap, branches[j]) {
      assert BranchMapped(before, branchMap, branches[j]);
    }
  }

  lemma BranchesStayPlaced(before: Orgs, after: Orgs, branchMap: map<nat, (nat, string)>, branches: seq<Branch>)
    requires BranchesMapped(before, branchMap, branches, |branches|) && Extends(before, after)
    ensures BranchesPlaced(after, Nodes(branchMap), branches)
  {
    forall b | b in branches ensures BranchPlaced(after, Nodes(branchMap), b) {
      var j :| 0 <= j < |branches| && branches[j] == b;
      assert BranchMapped(before, branchMap, branches[j]);
    }
  }

  lemma SchemaFacts(orgs: Orgs, branches: seq<Branch>, departments: seq<Department>,
                    employees: seq<Member>, users: seq<Member>, audit: seq<AuditRow>)
    requires PreMigration(orgs, branches, departments, employees, users, audit)
    ensures forall id :: id in orgs ==> orgs[id].parentId == None
    ensures forall i, j :: 0 <= i < j < |branches| ==> branches[i].id != branches[j].id
    ensures forall i, j :: 0 <= i < j < |departments| ==> departments[i].id != departments[j].id
    ensures forall b :: b in branches ==> b.organizationId in orgs
    ensures forall d :: d in departments ==> d.organizationId in orgs
    ensures forall d :: d in departments ==> d.branchId.Some? ==> IsBranchId(branches, d.branchId.value)
    ensures audit == []
  {}

  lemma CompaniesStay(before: Orgs, after: Orgs, departments: seq<Department>)
    requires Extends(before, after)
    requires forall d :: d in departments ==> IsCompany(before, d.organizationId)
    ensures forall d :: d in departments ==> IsCompany(after, d.organizationId)
  {}

  lemma AnchoredIsFilled(orgs: Orgs)
    requires forall id :: id in orgs ==> orgs[id].parentId == None
    ensures Filled(Anchored(orgs), UsedAtFirst(orgs))
    ensures forall id :: id in orgs ==> IsCompany(Anchored(orgs), id)
    ensures |Anchored(orgs)| == |orgs| && HeldCodes(Anchored(orgs)) == HeldCodes(orgs)
  {
    var anchored := Anchored(orgs);
    assert anchored.Keys == orgs.Keys;
    forall id | id in anchored ensures RowIndexed(anchored, id) {}
    AnchoredHolds(orgs);
  }

  lemma AnchoredHolds(orgs: Orgs)
    ensures HeldCodes(Anchored(orgs)) == HeldCodes(orgs)
  {
    var anchored := Anchored(orgs);
    forall c | c in HeldCodes(orgs) ensures c in HeldCodes(anchored) {
      var id :| id in orgs && orgs[id].code == c;
      assert id in anchored && anchored[id].code == c;
    }
  }

  lemma DetachedKeepsJobs(departments: seq<Department>, branches: seq<Branch>)
    ensures DepartmentJobs(Detached(departments, branches)) == DepartmentJobs(departments)
  {}

  lemma DetachedKeepsIds(departments: seq<Department>, branches: seq<Branch>)
    ensures DepartmentIds(Detached(departments, branches)) == DepartmentIds(departments)
  {}

  lemma CodesGivenNow(before: Tables, orgs: Orgs, branches: seq<Branch>, branchNode: map<nat, nat>,
                      deptNode: map<nat, nat>)
    requires var plan := PlanOf(before.organizations, branches, before.departments);
             var codes := GeneratedCodes(plan.usedCodes, plan.jobs);
             && NodesNamed(codes, 0, orgs, branchNode, BranchIds(branches))
             && NodesNamed(codes, |BranchIds(branches)|, orgs, deptNode, DepartmentIds(before.departments))
    ensures CodesGiven(before, orgs, branches, branchNode, deptNode)
  {
    hide NodesNamed, PlanOf, GeneratedCodes;
  }

  lemma DetachedKeepsSchema(orgs: Orgs, branches: seq<Branch>, departments: seq<Department>)
    requires forall i, j :: 0 <= i < j < |departments| ==> departments[i].id != departments[j].id
    requires forall d :: d in departments ==> d.organizationId in orgs
    requires forall d :: d in departments ==> d.branchId.Some? ==> IsBranchId(branches, d.branchId.value)
    ensures var r := Detached(departments, branches);
            && |r| == |departments|
            && (forall i, j :: 0 <= i < j < |r| ==> r[i].id != r[j].id)
            && (forall d :: d in r ==> d.organizationId in orgs)
            && (forall d :: d in r ==> d.branchId.Some? ==> OwnBranch(branches, d))
  {
    var r := Detached(departments, branches);
    forall d | d in r
      ensures d.organizationId in orgs
      ensures d.branchId.Some? ==> OwnBranch(branches, d)
    {
      var i :| 0 <= i < |r| && r[i] == d;
      assert departments[i] in departments;
      if d.branchId.Some? {
        var b :| b in branches && b.id == d.branchId.value;
        assert b.organizationId == d.organizationId;
      }
    }
  }

  lemma FreshNatExists(used: set<nat>)
    ensures exists id: nat :: id !in used
  {
    var ints: set<int> := set x | x in used :: x;
    assert UpperBound(ints) !in ints && UpperBound(ints) !in used;
  }

  // ── Inputs on which the migration fails ──────────────────────────────────

  function TwoCompanies(): Orgs {
    map[1 := Org("ACME", None, None, "company", None, 0), 2 := Org("BETA", None, None, "company", None, 0)]
  }

  lemma TwoCompaniesCodes()
    ensures HeldCodes(TwoCompanies()) == {"ACME", "BETA"}
    ensures UsedAtFirst(TwoCompanies()) == map[1 := {"ACME"}, 2 := {"BETA"}]
  {
    var orgs := TwoCompanies();
    assert orgs[1].code == "ACME" && orgs[2].code == "BETA";
  }

  lemma FreshBase(usedCodes: map<nat, set<string>>, job: Job)
    requires job.base !in CodesOf(usedCodes, job.rootId)
    ensures Named(usedCodes, job) == job.base
  {
    assert Tried(CodesOf(usedCodes, job.rootId), job.base, job.nodeType, job.legacyId, 0);
    FirstFreeStep(CodesOf(usedCodes, job.rootId), job.base, job.nodeType, job.legacyId, 0);
  }

  lemma FirstJobKeepsItsBase(plan: Plan)
    requires plan.jobs != [] && plan.jobs[0].base !in CodesOf(plan.usedCodes, plan.jobs[0].rootId)
    ensures GeneratedCodes(plan.usedCodes, plan.jobs)[0] == plan.jobs[0].base
    ensures UsedAfter(plan.usedCodes, plan.jobs[..1]) == WithCode(plan.usedCodes, plan.jobs[0].rootId,
                                                                  plan.jobs[0].base)
  {
    hide Named, UsedAfter, GeneratedCodes, CodesOf;
    assert plan.jobs[..0] == [];
    NothingGenerated(plan.usedCodes);
    GeneratedAt(plan.usedCodes, plan.jobs, 0);
    FreshBase(plan.usedCodes, plan.jobs[0]);
  }

  lemma SameBaseClashes(plan: Plan)
    requires |plan.jobs| == 2 && plan.jobs[0].base == plan.jobs[1].base && plan.jobs[0].rootId != plan.jobs[1].rootId
    requires plan.jobs[0].base !in CodesOf(plan.usedCodes, plan.jobs[0].rootId)
    requires plan.jobs[1].base !in CodesOf(plan.usedCodes, plan.jobs[1].rootId)
    ensures !PlanIsFree(plan)
  {
    hide Named, UsedAfter, GeneratedCodes;
    FirstJobKeepsItsBase(plan);
    GeneratedAt(plan.usedCodes, plan.jobs, 1);
    FreshBase(UsedAfter(plan.usedCodes, plan.jobs[..1]), plan.jobs[1]);
    var codes := GeneratedCodes(plan.usedCodes, plan.jobs);
    assert codes[0] == codes[1];
  }

  lemma SingleJobIsFree(plan: Plan)
    requires |plan.jobs| == 1 && plan.jobs[0].base !in CodesOf(plan.usedCodes, plan.jobs[0].rootId) + plan.held
    ensures PlanIsFree(plan)
  {
    hide UsedAfter, GeneratedCodes;
    FirstJobKeepsItsBase(plan);
  }

  /**
   * Two companies with a branch of the same code: while codes are unique in the whole table, the second
   * insert raises.
   */
  lemma SameBranchCodeAborts()
    ensures var branches := [Branch(10, 1, "OPS"), Branch(13, 2, "OPS")];
            && PreMigration(TwoCompanies(), branches, [], [], [], [])
            && !PlanIsFree(PlanOf(TwoCompanies(), branches, []))
  {
    hide PlanIsFree;
    var branches := [Branch(10, 1, "OPS"), Branch(13, 2, "OPS")];
    var plan := PlanOf(TwoCompanies(), branches, []);
    TwoCompaniesCodes();
    SameBaseClashes(plan);
    forall b | b in branches ensures b.organizationId in TwoCompanies() {
      assert b == branches[0] || b == branches[1];
    }
  }

  function ForeignDepartment(): Department {
    Department(20, 2, None, "FIN")
  }

  function Stranger(): Member {
    Member(30, Some(1), None, Some(20), None)
  }

  lemma ForeignDepartmentIsFree()
    ensures PlanIsFree(PlanOf(TwoCompanies(), [], [ForeignDepartment()]))
  {
    hide PlanIsFree;
    TwoCompaniesCodes();
    SingleJobIsFree(PlanOf(TwoCompanies(), [], [ForeignDepartment()]));
  }

  /** An employee of one company in another's department: the backfill completes, and then the check fails. */
  lemma ForeignDepartmentFailsTheCheck()
    ensures PreMigration(TwoCompanies(), [], [ForeignDepartment()], [Stranger()], [], [])
    ensures PlanIsFree(PlanOf(TwoCompanies(), [], [ForeignDepartment()]))
    ensures PointsAbroad(Stranger(), [], [ForeignDepartment()])
  {
    hide PlanIsFree, PlanOf;
    ForeignDepartmentIsFree();
    var departments := [ForeignDepartment()];
    assert departments[0] in departments && IsDepartmentId(departments, 20);
  }
}
