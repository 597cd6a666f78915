/**
 * The codes that the branch and department merge gives its new nodes
 * (backend/alembic/versions/g3b4c5d6e7f8_org_tree_merge.py).
 */
module MergeCodes {
  import opened Wrappers
  import opened Sequences
  import opened Decimal
  import opened TreeIndex

  datatype Branch = Branch(id: nat, organizationId: nat, code: string)

  datatype Department = Department(id: nat, organizationId: nat, branchId: Option<nat>, code: string)

  // ── unique_code ──────────────────────────────────────────────────────────

  /** The codes tried, in order. */
  function Candidate(base: string, nodeType: string, legacyId: nat, k: nat): string {
    if k == 0 then base
    else if k == 1 then base + "-" + nodeType
    else if k == 2 then base + "-" + nodeType + "-" + Str(legacyId)
    else base + "-" + nodeType + "-" + Str(legacyId) + "-" + Str(k - 2)
  }

  lemma CandidatesDiffer(base: string, nodeType: string, legacyId: nat, j: nat, k: nat)
    requires j < k
    ensures Candidate(base, nodeType, legacyId, j) != Candidate(base, nodeType, legacyId, k)
  {
    hide Str;
    if j > 2 {
      var stem := base + "-" + nodeType + "-" + Str(legacyId) + "-";
      assert Candidate(base, nodeType, legacyId, j) == stem + Str(j - 2);
      assert Candidate(base, nodeType, legacyId, k) == stem + Str(k - 2);
      assert (stem + Str(j - 2))[|stem|..] == Str(j - 2);
      assert (stem + Str(k - 2))[|stem|..] == Str(k - 2);
      if Str(j - 2) == Str(k - 2) { StrInjective(j - 2, k - 2); }
    } else {
      assert |Candidate(base, nodeType, legacyId, j)| < |Candidate(base, nodeType, legacyId, k)|;
    }
  }

  /** When the first k candidates are all taken, at least k codes are. */
  lemma TriedCandidatesAreCodes(seen: set<string>, base: string, nodeType: string, legacyId: nat, k: nat)
    requires forall j: nat :: j < k ==> Candidate(base, nodeType, legacyId, j) in seen
    ensures k <= |seen|
  {
    hide Candidate;
    var tried := seq(k, j requires 0 <= j < k => Candidate(base, nodeType, legacyId, j));
    forall i, j | 0 <= i < j < k ensures tried[i] != tried[j] { CandidatesDiffer(base, nodeType, legacyId, i, j); }
    NoDupFitsInSet(tried, seen);
  }

  function CodesOf(usedCodes: map<nat, set<string>>, rootId: nat): set<string> {
    if rootId in usedCodes then usedCodes[rootId] else {}
  }

  ghost predicate Tried(seen: set<string>, base: string, nodeType: string, legacyId: nat, k: nat) {
    forall j: nat :: j < k ==> Candidate(base, nodeType, legacyId, j) in seen
  }

  /** The first free candidate from the k-th on. */
  ghost function FirstFree(seen: set<string>, base: string, nodeType: string, legacyId: nat, k: nat): string
    requires Tried(seen, base, nodeType, legacyId, k)
    decreases |seen| + 1 - k
  {
    var c := Candidate(base, nodeType, legacyId, k);
    if c !in seen then c
    else
      assert Tried(seen, base, nodeType, legacyId, k + 1);
      TriedCandidatesAreCodes(seen, base, nodeType, legacyId, k + 1);
      FirstFree(seen, base, nodeType, legacyId, k + 1)
  }

  lemma FirstFreeStep(seen: set<string>, base: string, nodeType: string, legacyId: nat, k: nat)
    requires Tried(seen, base, nodeType, legacyId, k)
    ensures k <= |seen|
    ensures var c := Candidate(base, nodeType, legacyId, k);
            if c !in seen then FirstFree(seen, base, nodeType, legacyId, k) == c
            else Tried(seen, base, nodeType, legacyId, k + 1)
                 && FirstFree(seen, base, nodeType, legacyId, k) == FirstFree(seen, base, nodeType, legacyId, k + 1)
  {
    hide Candidate;
    TriedCandidatesAreCodes(seen, base, nodeType, legacyId, k);
  }

  /** Takes the first free candidate; the loop ends because codes are finite in number. */
  method UniqueCode(usedCodes: map<nat, set<string>>, rootId: nat, base: string, nodeType: string, legacyId: nat)
    returns (code: string, usedCodes': map<nat, set<string>>)
    ensures code !in CodesOf(usedCodes, rootId)
    ensures usedCodes' == usedCodes[rootId := CodesOf(usedCodes, rootId) + {code}]
    ensures exists k: nat :: k <= |CodesOf(usedCodes, rootId)| && code == Candidate(base, nodeType, legacyId, k)
              && Tried(CodesOf(usedCodes, rootId), base, nodeType, legacyId, k)
    ensures code == FirstFree(CodesOf(usedCodes, rootId), base, nodeType, legacyId, 0)
  {
    hide FirstFree, Tried;
    var seen := CodesOf(usedCodes, rootId);
    ghost var k := 0;
    code := base;
    assert Tried(seen, base, nodeType, legacyId, 0) by { NothingTried(seen, base, nodeType, legacyId); }
    FirstFreeStep(seen, base, nodeType, legacyId, 0);
    if code in seen {
      code := base + "-" + nodeType;
      k := 1;
      FirstFreeStep(seen, base, nodeType, legacyId, 1);
    }
    if code in seen {
      code := base + "-" + nodeType + "-" + Str(legacyId);
      k := 2;
      FirstFreeStep(seen, base, nodeType, legacyId, 2);
    }
    var suffix: nat := 0;
    while code in seen
      invariant code == Candidate(base, nodeType, legacyId, k)
      invariant Tried(seen, base, nodeType, legacyId, k)
      invariant FirstFree(seen, base, nodeType, legacyId, 0) == FirstFree(seen, base, nodeType, legacyId, k)
      invariant code !in seen ==> FirstFree(seen, base, nodeType, legacyId, k) == code
      invariant code in seen ==> k == suffix + 2
      invariant code in seen ==> Tried(seen, base, nodeType, legacyId, k + 1)
      invariant code in seen ==>
        FirstFree(seen, base, nodeType, legacyId, 0) == FirstFree(seen, base, nodeType, legacyId, k + 1)
      invariant k <= |seen|
      decreases |seen| - k
    {
      suffix := suffix + 1;
      k := k + 1;
      code := base + "-" + nodeType + "-" + Str(legacyId) + "-" + Str(suffix);
      FirstFreeStep(seen, base, nodeType, legacyId, k);
    }
    usedCodes' := usedCodes[rootId := seen + {code}];
  }

  lemma NothingTried(seen: set<string>, base: string, nodeType: string, legacyId: nat)
    ensures Tried(seen, base, nodeType, legacyId, 0)
  {}

  // ── The codes a backfill generates ───────────────────────────────────────

  /** One call of unique_code. */
  datatype Job = Job(rootId: nat, base: string, nodeType: string, legacyId: nat)

  function BranchJobs(branches: seq<Branch>): seq<Job> {
    seq(|branches|, i requires 0 <= i < |branches| =>
      Job(branches[i].organizationId, branches[i].code, "branch", branches[i].id))
  }

  function DepartmentJobs(departments: seq<Department>): seq<Job> {
    seq(|departments|, i requires 0 <= i < |departments| =>
      Job(departments[i].organizationId, departments[i].code, "department", departments[i].id))
  }

  ghost function Named(usedCodes: map<nat, set<string>>, job: Job): string {
    FirstFree(CodesOf(usedCodes, job.rootId), job.base, job.nodeType, job.legacyId, 0)
  }

  ghost function WithCode(usedCodes: map<nat, set<string>>, rootId: nat, code: string): map<nat, set<string>> {
    usedCodes[rootId := CodesOf(usedCodes, rootId) + {code}]
  }

  ghost function UsedAfter(usedCodes: map<nat, set<string>>, jobs: seq<Job>): map<nat, set<string>> {
    if jobs == [] then usedCodes
    else
      var job := jobs[|jobs| - 1];
      var used := UsedAfter(usedCodes, jobs[..|jobs| - 1]);
      WithCode(used, job.rootId, Named(used, job))
  }

  /** The codes in the order they are generated. */
  ghost function GeneratedCodes(usedCodes: map<nat, set<string>>, jobs: seq<Job>): (codes: seq<string>)
    ensures |codes| == |jobs|
  {
    if jobs == [] then []
    else
      var init := jobs[..|jobs| - 1];
      GeneratedCodes(usedCodes, init) + [Named(UsedAfter(usedCodes, init), jobs[|jobs| - 1])]
  }

  /** No code is generated twice, or is a code already held. */
  ghost predicate CodesAreFree(held: set<string>, codes: seq<string>) {
    NoDup(codes) && forall c :: c in codes ==> c !in held
  }

  lemma {:induction false} GeneratedPrefix(usedCodes: map<nat, set<string>>, jobs: seq<Job>, i: nat)
    requires i <= |jobs|
    ensures GeneratedCodes(usedCodes, jobs)[..i] == GeneratedCodes(usedCodes, jobs[..i])
    decreases |jobs|
  {
    hide UsedAfter, Named;
    if i < |jobs| {
      var init := jobs[..|jobs| - 1];
      GeneratedPrefix(usedCodes, init, i);
      assert init[..i] == jobs[..i];
    } else {
      assert jobs[..i] == jobs;
    }
  }

  lemma GeneratedAt(usedCodes: map<nat, set<string>>, jobs: seq<Job>, i: nat)
    requires i < |jobs|
    ensures GeneratedCodes(usedCodes, jobs)[i] == Named(UsedAfter(usedCodes, jobs[..i]), jobs[i])
    ensures GeneratedCodes(usedCodes, jobs[..i + 1])
         == GeneratedCodes(usedCodes, jobs[..i]) + [Named(UsedAfter(usedCodes, jobs[..i]), jobs[i])]
    ensures UsedAfter(usedCodes, jobs[..i + 1])
         == WithCode(UsedAfter(usedCodes, jobs[..i]), jobs[i].rootId, Named(UsedAfter(usedCodes, jobs[..i]), jobs[i]))
  {
    hide Named, WithCode;
    assert jobs[..i + 1][..i] == jobs[..i];
    GeneratedPrefix(usedCodes, jobs, i + 1);
    assert GeneratedCodes(usedCodes, jobs)[i] == GeneratedCodes(usedCodes, jobs)[..i + 1][i];
  }

  lemma {:induction false} FirstFreeIsFree(seen: set<string>, base: string, nodeType: string, legacyId: nat, k: nat)
    requires Tried(seen, base, nodeType, legacyId, k)
    ensures FirstFree(seen, base, nodeType, legacyId, k) !in seen
    decreases |seen| + 1 - k
  {
    hide Candidate;
    if Candidate(base, nodeType, legacyId, k) in seen {
      assert Tried(seen, base, nodeType, legacyId, k + 1);
      TriedCandidatesAreCodes(seen, base, nodeType, legacyId, k + 1);
      FirstFreeIsFree(seen, base, nodeType, legacyId, k + 1);
    }
  }

  lemma {:induction false} UsedGrows(usedCodes: map<nat, set<string>>, jobs: seq<Job>, i: nat, j: nat, root: nat)
    requires i <= j <= |jobs|
    ensures CodesOf(UsedAfter(usedCodes, jobs[..i]), root) <= CodesOf(UsedAfter(usedCodes, jobs[..j]), root)
    decreases j
  {
    hide UsedAfter, Named;
    if i < j {
      UsedGrows(usedCodes, jobs, i, j - 1, root);
      GeneratedAt(usedCodes, jobs, j - 1);
    }
  }

  /** Codes collide only between companies: within one, no code is generated twice or was used before. */
  lemma CodesOfOneCompanyDiffer(usedCodes: map<nat, set<string>>, jobs: seq<Job>, i: nat, j: nat)
    requires i < j < |jobs| && jobs[i].rootId == jobs[j].rootId
    ensures GeneratedCodes(usedCodes, jobs)[i] != GeneratedCodes(usedCodes, jobs)[j]
    ensures GeneratedCodes(usedCodes, jobs)[i] !in CodesOf(usedCodes, jobs[i].rootId)
  {
    hide UsedAfter, GeneratedCodes, FirstFree;
    var root, used := jobs[i].rootId, UsedAfter(usedCodes, jobs[..i]);
    GeneratedAt(usedCodes, jobs, i);
    GeneratedAt(usedCodes, jobs, j);
    UsedGrows(usedCodes, jobs, 0, i, root);
    assert UsedAfter(usedCodes, jobs[..0]) == usedCodes by { NothingGenerated(usedCodes); }
    UsedGrows(usedCodes, jobs, i + 1, j, root);
    FirstFreeIsFree(CodesOf(used, root), jobs[i].base, jobs[i].nodeType, jobs[i].legacyId, 0);
    FirstFreeIsFree(CodesOf(UsedAfter(usedCodes, jobs[..j]), root), jobs[j].base, jobs[j].nodeType, jobs[j].legacyId,
                    0);
  }

  lemma NothingGenerated(usedCodes: map<nat, set<string>>)
    ensures UsedAfter(usedCodes, []) == usedCodes && GeneratedCodes(usedCodes, []) == []
  {}

  function HeldCodes(orgs: Orgs): set<string> {
    set id | id in orgs :: orgs[id].code
  }

  /** What one backfill sets out to do, and from where. */
  datatype Plan = Plan(held: set<string>, usedCodes: map<nat, set<string>>, jobs: seq<Job>)

  function UsedAtFirst(orgs: Orgs): map<nat, set<string>> {
    map id | id in orgs :: {orgs[id].code}
  }

  ghost function PlanOf(orgs: Orgs, branches: seq<Branch>, departments: seq<Department>): Plan {
    Plan(HeldCodes(orgs), UsedAtFirst(orgs), BranchJobs(branches) + DepartmentJobs(departments))
  }

  /** Every insert of the plan finds its code held by no company at all. */
  ghost predicate PlanIsFree(plan: Plan) {
    CodesAreFree(plan.held, GeneratedCodes(plan.usedCodes, plan.jobs))
  }

  ghost function SetOf(codes: seq<string>): set<string> {
    set c | c in codes
  }

  /** The first n jobs are done, each past the constraint on codes if that is in force. */
  ghost predicate Progress(plan: Plan, orgs: Orgs, usedCodes: map<nat, set<string>>, n: nat, globalCodes: bool) {
    && n <= |plan.jobs|
    && var codes := GeneratedCodes(plan.usedCodes, plan.jobs[..n]);
       && usedCodes == UsedAfter(plan.usedCodes, plan.jobs[..n])
       && HeldCodes(orgs) == plan.held + SetOf(codes)
       && (globalCodes ==> CodesAreFree(plan.held, codes))
  }

  lemma ProgressAtFirst(plan: Plan, orgs: Orgs, usedCodes: map<nat, set<string>>, globalCodes: bool)
    requires HeldCodes(orgs) == plan.held && usedCodes == plan.usedCodes
    ensures Progress(plan, orgs, usedCodes, 0, globalCodes)
  {
    assert plan.jobs[..0] == [];
  }

  lemma FreeOneMore(held: set<string>, codes: seq<string>, code: string)
    requires CodesAreFree(held, codes) && code !in held + SetOf(codes)
    ensures CodesAreFree(held, codes + [code])
  {}

  lemma SetOneMore(codes: seq<string>, code: string)
    ensures SetOf(codes + [code]) == SetOf(codes) + {code}
  {}

  lemma ProgressStep(plan: Plan, orgs: Orgs, orgs': Orgs, usedCodes: map<nat, set<string>>, n: nat, globalCodes: bool)
    requires Progress(plan, orgs, usedCodes, n, globalCodes) && n < |plan.jobs|
    requires HeldCodes(orgs') == HeldCodes(orgs) + {Named(usedCodes, plan.jobs[n])}
    requires globalCodes ==> Named(usedCodes, plan.jobs[n]) !in HeldCodes(orgs)
    ensures Progress(plan, orgs', WithCode(usedCodes, plan.jobs[n].rootId, Named(usedCodes, plan.jobs[n])), n + 1,
                     globalCodes)
  {
    hide HeldCodes, UsedAfter, GeneratedCodes, Named, WithCode, CodesAreFree, SetOf;
    var codes, code := GeneratedCodes(plan.usedCodes, plan.jobs[..n]), Named(usedCodes, plan.jobs[n]);
    GeneratedAt(plan.usedCodes, plan.jobs, n);
    SetOneMore(codes, code);
    if globalCodes { FreeOneMore(plan.held, codes, code); }
  }

  lemma ProgressStops(plan: Plan, orgs: Orgs, usedCodes: map<nat, set<string>>, n: nat)
    requires Progress(plan, orgs, usedCodes, n, true) && n < |plan.jobs|
    requires Named(usedCodes, plan.jobs[n]) in HeldCodes(orgs)
    ensures !PlanIsFree(plan)
  {
    hide HeldCodes, UsedAfter, GeneratedCodes, Named;
    var codes := GeneratedCodes(plan.usedCodes, plan.jobs);
    GeneratedAt(plan.usedCodes, plan.jobs, n);
    GeneratedPrefix(plan.usedCodes, plan.jobs, n);
    assert codes[n] in codes;
    if codes[n] in codes[..n] {
      var k :| 0 <= k < n && codes[k] == codes[n];
    }
  }

  lemma ProgressDone(plan: Plan, orgs: Orgs, usedCodes: map<nat, set<string>>)
    requires Progress(plan, orgs, usedCodes, |plan.jobs|, true)
    ensures PlanIsFree(plan)
  {
    assert plan.jobs[..|plan.jobs|] == plan.jobs;
  }

  lemma HeldOneMore(orgs: Orgs, id: nat, row: Org)
    requires id !in orgs
    ensures HeldCodes(orgs[id := row]) == HeldCodes(orgs) + {row.code}
  {
    var orgs' := orgs[id := row];
    forall c | c in HeldCodes(orgs) ensures c in HeldCodes(orgs') {
      var k :| k in orgs && orgs[k].code == c;
      assert k in orgs' && orgs'[k].code == c;
    }
    assert id in orgs' && orgs'[id].code == row.code;
  }
}
