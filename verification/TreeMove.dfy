/**
 * Moving a sub-unit of the organization tree (backend/app/services/organization_service.py): what the walks'
 * depth cap leaves of the cycle guard.
 */
module TreeMove {
  import opened Wrappers
  import opened Sequences
  import opened OrgTree

  datatype MoveError = NodeNotFound | Invalid | CodeConflict

  // ── The request ──────────────────────────────────────────────────────────

  /** `scope` is the company the caller acts in, None for a super admin who acts in none. */
  function NodeInTenant(t: Table, scope: Option<int>, id: int): Result<Row, MoveError> {
    var rows := WhereIdIn(t, [id]);
    if rows == [] then Err(NodeNotFound)
    else if scope.Some? && RootIdOf(t, rows[0].id) != scope then Err(NodeNotFound)
    else Ok(rows[0])
  }

  /** UPDATE … SET parent_id = p WHERE id = n. */
  function Reparented(t: Table, n: int, p: int): Table {
    seq(|t|, i requires 0 <= i < |t| => if t[i].id == n then t[i].(parentId := Some(p)) else t[i])
  }

  predicate SiblingCodeTaken(t: Table, codeOf: int -> string, parent: int, n: int) {
    exists r :: r in t && r.parentId == Some(parent) && r.id != n && codeOf(r.id) == codeOf(n)
  }

  /** move_node as a function of the table. */
  function Moved(t: Table, codeOf: int -> string, scope: Option<int>, n: int, p: int): Result<Table, MoveError> {
    var node := NodeInTenant(t, scope, n);
    if node.Err? then Err(node.error)
    else if node.value.parentId.None? then Err(Invalid)
    else
      var newParent := NodeInTenant(t, scope, p);
      if newParent.Err? then Err(newParent.error)
      else if RootIdOf(t, p) != RootIdOf(t, n) then Err(Invalid)
      else if node.value.parentId == Some(p) then Ok(t)
      else if p in DescendantsSubquery(t, n) then Err(Invalid)
      else if SiblingCodeTaken(t, codeOf, p, n) then Err(CodeConflict)
      else Ok(Reparented(t, n, p))
  }

  class OrgNodes {
    var table: Table
    const codeOf: int -> string

    constructor (table: Table, codeOf: int -> string)
      ensures this.table == table && this.codeOf == codeOf
    {
      this.table, this.codeOf := table, codeOf;
    }

    method MoveNode(scope: Option<int>, nodeId: int, newParentId: int) returns (error: Option<MoveError>)
      modifies this
      ensures var r := Moved(old(table), codeOf, scope, nodeId, newParentId);
              && error == (if r.Err? then Some(r.error) else None)
              && table == if r.Err? then old(table) else r.value
      ensures table == Run(old(table), codeOf, [MoveRequest(scope, nodeId, newParentId)])
    {
      hide RootIdOf, DescendantsSubquery, SiblingCodeTaken, Reparented, Run;
      OneMove(table, codeOf, MoveRequest(scope, nodeId, newParentId));
      var node := NodeInTenant(table, scope, nodeId);
      if node.Err? { return Some(node.error); }
      if node.value.parentId.None? { return Some(Invalid); }
      var newParent := NodeInTenant(table, scope, newParentId);
      if newParent.Err? { return Some(newParent.error); }
      if RootIdOf(table, newParentId) != RootIdOf(table, nodeId) { return Some(Invalid); }
      if node.value.parentId == Some(newParentId) { return None; }
      var blocked := DescendantsSubquery(table, nodeId);
      if newParentId in blocked { return Some(Invalid); }
      if SiblingCodeTaken(table, codeOf, newParentId, nodeId) { return Some(CodeConflict); }
      table := Reparented(table, nodeId, newParentId);
      return None;
    }
  }

  // ── The tree without the cap ─────────────────────────────────────────────

  /** a is x or an ancestor of x at any distance. */
  ghost predicate Above(t: seq<Row>, x: int, a: int) {
    exists k: nat :: Ancestor(t, x, k) == Some(a)
  }

  ghost predicate OnCycle(t: seq<Row>, x: int) {
    exists k: nat :: k > 0 && Ancestor(t, x, k) == Some(x)
  }

  /** What the foreign key and the cycle guard are there for. */
  ghost predicate Forest(t: Table) {
    ParentsExist(t) && forall x :: !OnCycle(t, x)
  }

  /** r is the company of x, however deep x lies. */
  ghost predicate BelongsTo(t: seq<Row>, x: int, r: int) {
    IsRoot(t, r) && Above(t, x, r)
  }

  ghost predicate SameCompany(t: Table, x: int, y: int) {
    forall r :: BelongsTo(t, x, r) <==> BelongsTo(t, y, r)
  }

  ghost predicate SameCompanies(t: Table, t': Table) {
    forall x, r :: BelongsTo(t', x, r) <==> BelongsTo(t, x, r)
  }

  /** An accepted move that changes something. */
  ghost predicate Moves(t: Table, n: int, p: int) {
    && HasRow(t, n) && HasRow(t, p) && !IsRoot(t, n)
    && RootIdOf(t, p) == RootIdOf(t, n) && !Within(t, p, n)
  }

  lemma MovedMeaning(t: Table, codeOf: int -> string, scope: Option<int>, n: int, p: int)
    requires Moved(t, codeOf, scope, n, p).Ok?
    ensures var t' := Moved(t, codeOf, scope, n, p).value;
            && (t' == t || (t' == Reparented(t, n, p) && Moves(t, n, p)))
            && (scope.Some? ==> RootIdOf(t, n) == scope)
  {
    hide RootIdOf, DescendantsSubquery, SiblingCodeTaken, Reparented, WhereIdIn, Ancestor;
    FoundRow(t, scope, n);
    FoundRow(t, scope, p);
    WithinIsDescent(t, p, n);
  }

  lemma FoundRow(t: Table, scope: Option<int>, id: int)
    requires NodeInTenant(t, scope, id).Ok?
    ensures HasRow(t, id) && NodeInTenant(t, scope, id).value == RowOf(t, id)
    ensures scope.Some? ==> RootIdOf(t, id) == scope
  {
    hide RootIdOf, WhereIdIn;
    var rows := WhereIdIn(t, [id]);
    assert rows[0] in rows;
    BaseRows(t, [id], id);
    RowUnique(t, rows[0], RowOf(t, id));
  }

  // ── Which moves are accepted ─────────────────────────────────────────────

  /** The caller may see node x: it exists and, unless the caller acts in no company, is of theirs. */
  ghost predicate Visible(t: Table, scope: Option<int>, x: int) {
    HasRow(t, x) && (scope.Some? ==> RootIdOf(t, x) == scope)
  }

  ghost predicate IsParentOf(t: Table, p: int, x: int) {
    HasRow(t, x) && RowOf(t, x).parentId == Some(p)
  }

  /** Another child of p has n's code. */
  ghost predicate CodeTakenUnder(t: Table, codeOf: int -> string, p: int, n: int) {
    exists x :: x != n && IsParentOf(t, p, x) && codeOf(x) == codeOf(n)
  }

  lemma SiblingsByRow(t: Table, codeOf: int -> string, p: int, n: int)
    ensures SiblingCodeTaken(t, codeOf, p, n) <==> CodeTakenUnder(t, codeOf, p, n)
  {
    if r :| r in t && r.parentId == Some(p) && r.id != n && codeOf(r.id) == codeOf(n) {
      RowUnique(t, r, RowOf(t, r.id));
      assert IsParentOf(t, p, r.id);
    }
    if x :| x != n && IsParentOf(t, p, x) && codeOf(x) == codeOf(n) {
      assert RowOf(t, x) in t;
    }
  }

  lemma SeenExactly(t: Table, scope: Option<int>, x: int)
    ensures NodeInTenant(t, scope, x).Ok? <==> Visible(t, scope, x)
    ensures NodeInTenant(t, scope, x) == if Visible(t, scope, x) then Ok(RowOf(t, x)) else Err(NodeNotFound)
  {
    hide RootIdOf, WhereIdIn;
    BaseRows(t, [x], x);
    if WhereIdIn(t, [x]) != [] {
      assert WhereIdIn(t, [x])[0] in WhereIdIn(t, [x]);
      RowUnique(t, WhereIdIn(t, [x])[0], RowOf(t, x));
    }
  }

  /**
   * A sub-unit that the caller may see is moved exactly if they may see the new parent too, both report one company,
   * and it is there already or the parent is neither it nor found below it and none of its new siblings has its code.
   * Only its parent then changes.
   */
  lemma MovedExactly(t: Table, codeOf: int -> string, scope: Option<int>, n: int, p: int)
    ensures var r := Moved(t, codeOf, scope, n, p);
            && (r == Err(NodeNotFound) <==>
                  !Visible(t, scope, n) || (!IsRoot(t, n) && !Visible(t, scope, p)))
            && (r == Err(Invalid) <==>
                  && Visible(t, scope, n)
                  && (IsRoot(t, n)
                      || (Visible(t, scope, p)
                          && (RootIdOf(t, p) != RootIdOf(t, n) || (!IsParentOf(t, p, n) && Within(t, p, n))))))
            && (r == Err(CodeConflict) <==>
                  && Visible(t, scope, n) && !IsRoot(t, n) && Visible(t, scope, p) && RootIdOf(t, p) == RootIdOf(t, n)
                  && !IsParentOf(t, p, n) && !Within(t, p, n) && CodeTakenUnder(t, codeOf, p, n))
            && (r.Ok? ==> |r.value| == |t| && forall i :: 0 <= i < |t| ==>
                  r.value[i] == if t[i].id == n then t[i].(parentId := Some(p)) else t[i])
  {
    hide RootIdOf, DescendantsSubquery, SiblingCodeTaken, WhereIdIn, Ancestor, NodeInTenant, Within, Visible,
      CodeTakenUnder;
    SeenExactly(t, scope, n);
    SeenExactly(t, scope, p);
    WithinIsDescent(t, p, n);
    SiblingsByRow(t, codeOf, p, n);
    if Visible(t, scope, n) {
      VisibleHasRow(t, scope, n);
      forall i | 0 <= i < |t| && t[i].id == n ensures t[i] == RowOf(t, n) { RowUnique(t, t[i], RowOf(t, n)); }
    }
  }

  lemma VisibleHasRow(t: Table, scope: Option<int>, x: int)
    requires Visible(t, scope, x)
    ensures HasRow(t, x)
  {}

  // ── Walks in the moved table ─────────────────────────────────────────────

  lemma ReparentedParent(t: Table, n: int, p: int, x: int)
    requires HasRow(t, n) && HasRow(t, p)
    ensures HasRow(Reparented(t, n, p), x) <==> HasRow(t, x)
    ensures Parent(Reparented(t, n, p), x) == if x == n then Some(p) else Parent(t, x)
    ensures IsRoot(Reparented(t, n, p), x) <==> x != n && IsRoot(t, x)
  {
    var t' := Reparented(t, n, p);
    forall y ensures HasRow(t', y) <==> HasRow(t, y) { ReparentedRow(t, n, p, y); }
    ReparentedRow(t, n, p, x);
  }

  lemma ReparentedRow(t: Table, n: int, p: int, x: int)
    ensures HasRow(Reparented(t, n, p), x) <==> HasRow(t, x)
    ensures HasRow(t, x) ==>
      RowOf(Reparented(t, n, p), x) == if x == n then RowOf(t, x).(parentId := Some(p)) else RowOf(t, x)
  {
    var t' := Reparented(t, n, p);
    if HasRow(t, x) {
      var r := RowOf(t, x);
      var i :| 0 <= i < |t| && t[i] == r;
      assert t'[i] in t' && t'[i].id == x;
      RowUnique(t', t'[i], RowOf(t', x));
    }
    if HasRow(t', x) {
      var i :| 0 <= i < |t'| && t'[i] == RowOf(t', x);
      assert t[i] in t && t[i].id == x;
    }
  }

  /** A walk that does not leave from n goes as before. */
  lemma {:induction false} SameWalk(t: Table, n: int, p: int, x: int, k: nat)
    requires HasRow(t, n) && HasRow(t, p)
    requires forall i: nat :: i < k ==> Ancestor(t, x, i) != Some(n)
    ensures Ancestor(Reparented(t, n, p), x, k) == Ancestor(t, x, k)
  {
    hide Reparented, Parent;
    ReparentedParent(t, n, p, x);
    if k > 0 {
      SameWalk(t, n, p, x, k - 1);
      if Ancestor(t, x, k - 1).Some? { ReparentedParent(t, n, p, Ancestor(t, x, k - 1).value); }
    }
  }

  /** The first time a walk meets a node. */
  lemma {:induction false} FirstMeeting(t: Table, x: int, a: int, k: nat) returns (i: nat)
    requires Ancestor(t, x, k) == Some(a)
    ensures i <= k && Ancestor(t, x, i) == Some(a) && forall j: nat :: j < i ==> Ancestor(t, x, j) != Some(a)
  {
    hide Ancestor;
    i := 0;
    while Ancestor(t, x, i) != Some(a)
      invariant i <= k
      invariant forall j: nat :: j < i ==> Ancestor(t, x, j) != Some(a)
      decreases k - i
    {
      i := i + 1;
    }
  }

  /** Whoever met n before meets it at the same step after. */
  lemma StillBelow(t: Table, n: int, p: int, x: int)
    requires HasRow(t, n) && HasRow(t, p) && Above(t, x, n)
    ensures Above(Reparented(t, n, p), x, n)
  {
    hide Ancestor, Reparented;
    var k: nat :| Ancestor(t, x, k) == Some(n);
    var i := FirstMeeting(t, x, n, k);
    SameWalk(t, n, p, x, i);
  }

  /** From n the walk goes on to p. */
  lemma ThroughParent(t: Table, n: int, p: int, k: nat)
    requires HasRow(t, n) && HasRow(t, p)
    ensures Ancestor(Reparented(t, n, p), n, k + 1) == Ancestor(Reparented(t, n, p), p, k)
  {
    hide Reparented;
    var t' := Reparented(t, n, p);
    ReparentedParent(t, n, p, n);
    assert Ancestor(t', n, 0) == Some(n);
    assert Ancestor(t', n, 1) == Some(p);
    AncestorSplit(t', n, 1, k);
  }

  // ── Cycles ───────────────────────────────────────────────────────────────

  /** The move closes a cycle exactly if the new parent lay below the node, at whatever distance. */
  lemma CycleExactlyFromBelow(t: Table, n: int, p: int)
    requires HasRow(t, n) && HasRow(t, p) && Forest(t)
    ensures (forall x :: !OnCycle(Reparented(t, n, p), x)) <==> !Above(t, p, n)
  {
    hide Ancestor, Reparented, Above, OnCycle, ParentsExist;
    var t' := Reparented(t, n, p);
    if Above(t, p, n) {
      CycleFromBelow(t, n, p);
    } else {
      forall x ensures !OnCycle(t', x) {
        if OnCycle(t', x) { CycleComesFrom(t, n, p, x); }
      }
    }
  }

  lemma CycleFromBelow(t: Table, n: int, p: int)
    requires HasRow(t, n) && HasRow(t, p) && Above(t, p, n)
    ensures OnCycle(Reparented(t, n, p), n)
  {
    hide Ancestor, Reparented;
    StillBelow(t, n, p, p);
    var k: nat :| Ancestor(Reparented(t, n, p), p, k) == Some(n);
    ThroughParent(t, n, p, k);
  }

  lemma CycleComesFrom(t: Table, n: int, p: int, x: int)
    requires HasRow(t, n) && HasRow(t, p) && OnCycle(Reparented(t, n, p), x)
    ensures Above(t, p, n) || OnCycle(t, x)
  {
    hide Ancestor, Reparented;
    var t' := Reparented(t, n, p);
    var k: nat :| k > 0 && Ancestor(t', x, k) == Some(x);
    if i: nat :| i < k && Ancestor(t, x, i) == Some(n) {
      var f := FirstMeeting(t, x, n, i);
      SameWalk(t, n, p, x, f);
      AncestorSplit(t', x, k, f);
      AncestorSplit(t', x, f, k);
      assert k + f == f + k;
      ThroughParent(t, n, p, k - 1);
      assert Ancestor(t', p, k - 1) == Some(n);
      BelowBefore(t, n, p, k - 1);
    } else {
      SameWalk(t, n, p, x, k);
    }
  }

  /** The new walk from p meets n only if the old one did. */
  lemma BelowBefore(t: Table, n: int, p: int, k: nat)
    requires HasRow(t, n) && HasRow(t, p) && Ancestor(Reparented(t, n, p), p, k) == Some(n)
    ensures Above(t, p, n)
  {
    hide Ancestor, Reparented;
    if !exists i: nat :: i < k && Ancestor(t, p, i) == Some(n) { SameWalk(t, n, p, p, k); }
  }

  // ── Companies ────────────────────────────────────────────────────────────

  lemma OnlyOneCompany(t: Table, x: int, r: int, s: int)
    requires BelongsTo(t, x, r) && BelongsTo(t, x, s)
    ensures r == s
  {
    hide Ancestor, IsRoot;
    var j: nat :| Ancestor(t, x, j) == Some(r);
    var k: nat :| Ancestor(t, x, k) == Some(s);
    if j < k { NothingAboveARoot(t, x, j, k); }
    if k < j { NothingAboveARoot(t, x, k, j); }
  }

  /** A node's company is that of every node above it. */
  lemma CompanyFromAbove(t: Table, x: int, a: int, r: int)
    requires Above(t, x, a)
    ensures BelongsTo(t, x, r) <==> BelongsTo(t, a, r)
  {
    hide Ancestor, IsRoot;
    var i: nat :| Ancestor(t, x, i) == Some(a);
    if BelongsTo(t, x, r) {
      var k: nat :| Ancestor(t, x, k) == Some(r);
      if k < i { NothingAboveARoot(t, x, k, i); }
      AncestorSplit(t, x, i, k - i);
    }
    if BelongsTo(t, a, r) {
      var k: nat :| Ancestor(t, a, k) == Some(r);
      AncestorSplit(t, x, i, k);
    }
  }

  lemma {:induction false} CycleNeverEnds(t: Table, x: int, c: nat, k: nat)
    requires c > 0 && Ancestor(t, x, c) == Some(x)
    ensures Ancestor(t, x, k).Some?
    decreases k
  {
    hide Ancestor;
    if k > c {
      CycleNeverEnds(t, x, c, k - c);
      AncestorSplit(t, x, c, k - c);
    } else {
      AncestorSplit(t, x, k, c - k);
    }
  }

  lemma CycleHasNoCompany(t: Table, x: int, r: int)
    requires OnCycle(t, x)
    ensures !BelongsTo(t, x, r)
  {
    hide Ancestor, IsRoot;
    var c: nat :| c > 0 && Ancestor(t, x, c) == Some(x);
    if BelongsTo(t, x, r) {
      var k: nat :| Ancestor(t, x, k) == Some(r);
      NothingAboveARoot(t, x, k, k + 1);
      CycleNeverEnds(t, x, c, k + 1);
    }
  }

  /** Without cycles every walk is shorter than the table. */
  lemma WalksEnd(t: Table, x: int)
    requires Ancestor(t, x, |t|).Some?
    ensures exists y :: OnCycle(t, y)
  {
    hide Ancestor;
    var s := FirstAncestors(t, x, |t|);
    forall y | y in s ensures y in Ids(t) {
      var i :| 0 <= i < |s| && s[i] == y;
      assert HasRow(t, Ancestor(t, x, i).value);
      IdsMember(t, y);
    }
    if NoDup(s) { NoDupFitsIn(s, Ids(t)); }
    var i, j :| 0 <= i < j < |s| && s[i] == s[j];
    AncestorSplit(t, x, i, j - i);
    assert OnCycle(t, s[i]);
  }

  lemma EveryoneBelongs(t: Table, x: int) returns (r: int)
    requires Forest(t) && HasRow(t, x)
    ensures BelongsTo(t, x, r)
  {
    hide Ancestor, OnCycle;
    if Ancestor(t, x, |t|).Some? { WalksEnd(t, x); }
    AncestorZero(t, x);
    assert |t| > 0;
    WalkStops(t, x, 0, |t| - 1);
    var j: nat :| Ancestor(t, x, j).Some? && Ancestor(t, x, j + 1) == None;
    TopIsRoot(t, x, j);
    r := Ancestor(t, x, j).value;
  }

  /** Every node keeps its company exactly if the move closes no cycle and stays within one company. */
  lemma CompaniesExactly(t: Table, n: int, p: int)
    requires HasRow(t, n) && HasRow(t, p) && Forest(t) && !IsRoot(t, n)
    ensures SameCompanies(t, Reparented(t, n, p)) <==> !Above(t, p, n) && SameCompany(t, p, n)
  {
    hide Ancestor, Reparented, Above, BelongsTo, OnCycle, ParentsExist, IsRoot;
    var t' := Reparented(t, n, p);
    if SameCompanies(t, t') {
      var r := EveryoneBelongs(t, n);
      assert BelongsTo(t', n, r);
      if Above(t, p, n) {
        CycleFromBelow(t, n, p);
        CycleHasNoCompany(t', n, r);
      }
      forall s ensures BelongsTo(t, p, s) <==> BelongsTo(t, n, s) {
        ParentIsAbove(t, n, p);
        CompanyFromAbove(t', n, p, s);
      }
    }
    if !Above(t, p, n) && SameCompany(t, p, n) {
      forall x, r ensures BelongsTo(t', x, r) <==> BelongsTo(t, x, r) { CompanyKept(t, n, p, x, r); }
    }
  }

  lemma ParentIsAbove(t: Table, n: int, p: int)
    requires HasRow(t, n) && HasRow(t, p)
    ensures Above(Reparented(t, n, p), n, p)
  {
    hide Reparented;
    ReparentedParent(t, n, p, p);
    ThroughParent(t, n, p, 0);
    AncestorZero(Reparented(t, n, p), p);
  }

  /** A node that does not lie below n keeps its walk, and so its company. */
  lemma OutsideKept(t: Table, n: int, p: int, x: int, r: int)
    requires HasRow(t, n) && HasRow(t, p) && !IsRoot(t, n) && !Above(t, x, n)
    ensures BelongsTo(Reparented(t, n, p), x, r) <==> BelongsTo(t, x, r)
  {
    hide Ancestor, Reparented, IsRoot;
    var t' := Reparented(t, n, p);
    ReparentedParent(t, n, p, r);
    forall k: nat ensures Ancestor(t', x, k) == Ancestor(t, x, k) { SameWalk(t, n, p, x, k); }
  }

  lemma CompanyKept(t: Table, n: int, p: int, x: int, r: int)
    requires HasRow(t, n) && HasRow(t, p) && !IsRoot(t, n) && !Above(t, p, n) && SameCompany(t, p, n)
    ensures BelongsTo(Reparented(t, n, p), x, r) <==> BelongsTo(t, x, r)
  {
    hide Ancestor, Reparented, IsRoot, Above, BelongsTo;
    var t' := Reparented(t, n, p);
    if Above(t, x, n) {
      StillBelow(t, n, p, x);
      ParentIsAbove(t, n, p);
      CompanyFromAbove(t', x, n, r);
      CompanyFromAbove(t', n, p, r);
      OutsideKept(t, n, p, p, r);
      CompanyFromAbove(t, x, n, r);
    } else {
      OutsideKept(t, n, p, x, r);
    }
  }

  // ── What the guard is worth ──────────────────────────────────────────────

  /** Where the node has a company within the cap, the guard sees all that lies below it, and the roots compare. */
  lemma GuardWorksUnderARoot(t: Table, n: int, p: int)
    requires Moves(t, n, p) && RootIdOf(t, n).Some?
    ensures !Above(t, p, n) && SameCompany(t, p, n)
  {
    hide Ancestor, RootIdOf, IsRoot;
    var r := RootIdOf(t, n).value;
    RootIdIsWithin(t, n, r);
    RootIdIsWithin(t, p, r);
    if k: nat :| Ancestor(t, p, k) == Some(n) {
      var j: nat :| j <= MAX_TREE_DEPTH && Ancestor(t, p, j) == Some(r);
      if k > MAX_TREE_DEPTH { NothingAboveARoot(t, p, j, k); }
    }
    forall s ensures BelongsTo(t, p, s) <==> BelongsTo(t, n, s) {
      if BelongsTo(t, p, s) { OnlyOneCompany(t, p, r, s); }
      if BelongsTo(t, n, s) { OnlyOneCompany(t, n, r, s); }
    }
  }

  lemma MovedForest(t: Table, n: int, p: int)
    requires HasRow(t, n) && HasRow(t, p) && Forest(t)
    ensures Forest(Reparented(t, n, p)) <==> !Above(t, p, n)
  {
    hide Ancestor, Reparented, Above, OnCycle, HasRow;
    var t' := Reparented(t, n, p);
    ParentsStillExist(t, n, p);
    CycleExactlyFromBelow(t, n, p);
  }

  lemma ParentsStillExist(t: Table, n: int, p: int)
    requires HasRow(t, n) && HasRow(t, p) && ParentsExist(t)
    ensures ParentsExist(Reparented(t, n, p))
  {
    hide HasRow;
    var t' := Reparented(t, n, p);
    forall r | r in t' && r.parentId.Some? ensures HasRow(t', r.parentId.value) {
      var i :| 0 <= i < |t'| && t'[i] == r;
      assert t[i] in t;
      ReparentedParent(t, n, p, r.parentId.value);
    }
  }

  /**
   * Exactly when an accepted move of a forest leaves a forest, and exactly when it leaves every node its company:
   * always when the node's root is found within the cap; deeper down only if the new parent did not lie below the
   * node, and, for the companies, if both belong to the same one.
   */
  lemma MoveIsSafeExactly(t: Table, n: int, p: int)
    requires Forest(t) && Moves(t, n, p)
    ensures Forest(Reparented(t, n, p)) <==> RootIdOf(t, n).Some? || !Above(t, p, n)
    ensures SameCompanies(t, Reparented(t, n, p))
       <==> RootIdOf(t, n).Some? || (!Above(t, p, n) && SameCompany(t, p, n))
  {
    hide Reparented, Above, RootIdOf, SameCompany, SameCompanies, IsRoot, Within, Forest;
    MovedForest(t, n, p);
    CompaniesExactly(t, n, p);
    if RootIdOf(t, n).Some? { GuardWorksUnderARoot(t, n, p); }
  }

  // ── Runs of moves inside companies ───────────────────────────────────────

  datatype MoveRequest = MoveRequest(scope: Option<int>, nodeId: int, newParentId: int)

  /** The table after the requests; a refused one changes nothing. */
  function Run(t: Table, codeOf: int -> string, reqs: seq<MoveRequest>): Table {
    if reqs == [] then t
    else
      var before, r := Run(t, codeOf, reqs[..|reqs| - 1]), reqs[|reqs| - 1];
      var m := Moved(before, codeOf, r.scope, r.nodeId, r.newParentId);
      if m.Ok? then m.value else before
  }

  lemma OneMove(t: Table, codeOf: int -> string, r: MoveRequest)
    ensures var m := Moved(t, codeOf, r.scope, r.nodeId, r.newParentId);
            Run(t, codeOf, [r]) == if m.Ok? then m.value else t
  {
    hide Moved;
    assert [r][..0] == [];
  }

  /** Over any run of moves by callers who act in a company the tree stays a forest and no node changes company. */
  lemma {:induction false} TenantMovesKeepTheForest(t: Table, codeOf: int -> string, reqs: seq<MoveRequest>)
    requires Forest(t) && forall r :: r in reqs ==> r.scope.Some?
    ensures Forest(Run(t, codeOf, reqs)) && SameCompanies(t, Run(t, codeOf, reqs))
  {
    hide Moved, Reparented, Forest, BelongsTo, Moves, RootIdOf;
    if reqs != [] {
      var init, r := reqs[..|reqs| - 1], reqs[|reqs| - 1];
      assert r in reqs;
      TenantMovesKeepTheForest(t, codeOf, init);
      var before := Run(t, codeOf, init);
      if Moved(before, codeOf, r.scope, r.nodeId, r.newParentId).Ok? {
        MovedMeaning(before, codeOf, r.scope, r.nodeId, r.newParentId);
        if Moves(before, r.nodeId, r.newParentId) { MoveIsSafeExactly(before, r.nodeId, r.newParentId); }
      }
    }
  }

  /** No two children of one node share a code. */
  ghost predicate SiblingsDiffer(t: Table, codeOf: int -> string) {
    forall x, y, p :: x != y && IsParentOf(t, p, x) && IsParentOf(t, p, y) ==> codeOf(x) != codeOf(y)
  }

  lemma MoveKeepsSiblings(t: Table, codeOf: int -> string, n: int, p: int)
    requires SiblingsDiffer(t, codeOf) && !SiblingCodeTaken(t, codeOf, p, n)
    ensures SiblingsDiffer(Reparented(t, n, p), codeOf)
  {
    hide SiblingCodeTaken, Reparented;
    var t' := Reparented(t, n, p);
    SiblingsByRow(t, codeOf, p, n);
    forall x, y, q | x != y && IsParentOf(t', q, x) && IsParentOf(t', q, y) ensures codeOf(x) != codeOf(y) {
      ReparentedRow(t, n, p, x);
      ReparentedRow(t, n, p, y);
      if x == n {
        assert q == p && IsParentOf(t, p, y);
      } else if y == n {
        assert q == p && IsParentOf(t, p, x);
      } else {
        assert IsParentOf(t, q, x) && IsParentOf(t, q, y);
      }
    }
  }

  /** Over any run of moves, by anyone, siblings keep different codes. */
  lemma {:induction false} MovesKeepSiblings(t: Table, codeOf: int -> string, reqs: seq<MoveRequest>)
    requires SiblingsDiffer(t, codeOf)
    ensures SiblingsDiffer(Run(t, codeOf, reqs), codeOf)
  {
    hide SiblingsDiffer, SiblingCodeTaken, Reparented, NodeInTenant, RootIdOf, DescendantsSubquery;
    if reqs != [] {
      var init, r := reqs[..|reqs| - 1], reqs[|reqs| - 1];
      MovesKeepSiblings(t, codeOf, init);
      var before := Run(t, codeOf, init);
      if !SiblingCodeTaken(before, codeOf, r.newParentId, r.nodeId) {
        MoveKeepsSiblings(before, codeOf, r.nodeId, r.newParentId);
      }
    }
  }

  // ── What the capped walks see of a move ──────────────────────────────────

  /** A root is found exactly if it is no more than the cap away. */
  lemma RootAt(t: Table, x: int, r: int, k: nat)
    requires IsRoot(t, r) && Ancestor(t, x, k) == Some(r)
    ensures RootIdOf(t, x) == if k <= MAX_TREE_DEPTH then Some(r) else None
  {
    hide Ancestor, RootIdOf, IsRoot;
    RootIdIsWithin(t, x, r);
    if k > MAX_TREE_DEPTH && RootIdOf(t, x).Some? {
      var s := RootIdOf(t, x).value;
      RootIdIsWithin(t, x, s);
      var j: nat :| j <= MAX_TREE_DEPTH && Ancestor(t, x, j) == Some(s);
      NothingAboveARoot(t, x, j, k);
    }
  }

  /** Nothing changes for a node that does not lie below the moved one. */
  lemma OutsideSeenAlike(t: Table, n: int, p: int, x: int)
    requires HasRow(t, n) && HasRow(t, p) && !IsRoot(t, n) && !Above(t, x, n)
    ensures RootIdOf(Reparented(t, n, p), x) == RootIdOf(t, x)
  {
    hide Ancestor, Reparented, RootIdOf, IsRoot;
    var t' := Reparented(t, n, p);
    forall k: nat ensures Ancestor(t', x, k) == Ancestor(t, x, k) { SameWalk(t, n, p, x, k); }
    forall s ensures RootIdOf(t', x) == Some(s) <==> RootIdOf(t, x) == Some(s) {
      ReparentedParent(t, n, p, s);
      RootIdIsWithin(t, x, s);
      RootIdIsWithin(t', x, s);
    }
    assert RootIdOf(t, x).Some? ==> RootIdOf(t, x) == Some(RootIdOf(t, x).value);
    assert RootIdOf(t', x).Some? ==> RootIdOf(t', x) == Some(RootIdOf(t', x).value);
  }

  lemma MeetsOnce(t: Table, x: int, n: int, j: nat)
    requires !OnCycle(t, n) && Ancestor(t, x, j) == Some(n)
    ensures forall i: nat :: i < j ==> Ancestor(t, x, i) != Some(n)
  {
    hide Ancestor;
    forall i: nat | i < j ensures Ancestor(t, x, i) != Some(n) {
      if Ancestor(t, x, i) == Some(n) { AncestorSplit(t, x, i, j - i); }
    }
  }

  /** A node j steps below n finds the root before the move at j + d steps, after it at j + e + 1. */
  lemma InsideSeenAt(t: Table, n: int, p: int, r: int, d: nat, e: nat, x: int, j: nat)
    requires Forest(t) && HasRow(t, n) && HasRow(t, p) && !Above(t, p, n) && IsRoot(t, r) && r != n
    requires Ancestor(t, n, d) == Some(r) && Ancestor(t, p, e) == Some(r) && Ancestor(t, x, j) == Some(n)
    ensures RootIdOf(t, x) == if j + d <= MAX_TREE_DEPTH then Some(r) else None
    ensures RootIdOf(Reparented(t, n, p), x) == if j + e + 1 <= MAX_TREE_DEPTH then Some(r) else None
  {
    hide Ancestor, Reparented, RootIdOf, IsRoot, ParentsExist;
    var t' := Reparented(t, n, p);
    AncestorSplit(t, x, j, d);
    RootAt(t, x, r, j + d);
    MeetsOnce(t, x, n, j);
    SameWalk(t, n, p, x, j);
    SameWalk(t, n, p, p, e);
    ThroughParent(t, n, p, e);
    AncestorSplit(t', x, j, e + 1);
    ReparentedParent(t, n, p, r);
    RootAt(t', x, r, j + (e + 1));
  }

  /** Every node of the moved sub-tree is as much within the cap as it was. */
  ghost predicate ReachKept(t: Table, n: int, d: nat, e: nat) {
    forall x, j: nat :: Ancestor(t, x, j) == Some(n) ==> (j + d <= MAX_TREE_DEPTH <==> j + e + 1 <= MAX_TREE_DEPTH)
  }

  /**
   * The company that the capped walks report stays the same for every node exactly if the move neither pushes a
   * node of the sub-tree beyond the cap nor pulls one back. d and e are the depths of the node and its new parent.
   */
  lemma ReportedCompaniesExactly(t: Table, n: int, p: int, d: nat, e: nat)
    requires Forest(t) && Moves(t, n, p) && RootIdOf(t, n).Some?
    requires Ancestor(t, n, d) == RootIdOf(t, n) && Ancestor(t, p, e) == RootIdOf(t, n)
    ensures (forall x :: RootIdOf(Reparented(t, n, p), x) == RootIdOf(t, x)) <==> ReachKept(t, n, d, e)
  {
    hide Ancestor, Reparented, RootIdOf, Forest, IsRoot, Within;
    var r := RootIdOf(t, n).value;
    RootIdIsWithin(t, n, r);
    GuardWorksUnderARoot(t, n, p);
    forall x, j: nat | Ancestor(t, x, j) == Some(n)
      ensures RootIdOf(Reparented(t, n, p), x) == RootIdOf(t, x)
         <==> (j + d <= MAX_TREE_DEPTH <==> j + e + 1 <= MAX_TREE_DEPTH)
    {
      InsideSeenAt(t, n, p, r, d, e, x, j);
    }
    forall x | !Above(t, x, n) ensures RootIdOf(Reparented(t, n, p), x) == RootIdOf(t, x) {
      OutsideSeenAlike(t, n, p, x);
    }
    if ReachKept(t, n, d, e) {
      forall x ensures RootIdOf(Reparented(t, n, p), x) == RootIdOf(t, x) {
        if Above(t, x, n) {
          var j: nat :| Ancestor(t, x, j) == Some(n);
        }
      }
    }
  }

  // ── Moves that do harm ───────────────────────────────────────────────────

  /** The top of the company that x lies in. */
  function TopOf(s: nat, x: nat): nat {
    if x < s then 0 else s
  }

  lemma ChainsAreForest(n: nat, s: nat)
    ensures Forest(Chains(n, s))
  {
    hide Ancestor;
    var t := Chains(n, s);
    forall r | r in t && r.parentId.Some? ensures HasRow(t, r.parentId.value) {
      var i :| 0 <= i < n && t[i] == r;
      assert t[i - 1] in t;
    }
    forall x ensures !OnCycle(t, x) {
      if k: nat :| k > 0 && Ancestor(t, x, k) == Some(x) {
        var r := RowOf(t, x);
        var i :| 0 <= i < n && t[i] == r;
        var up := x - TopOf(s, x);
        if k <= up {
          ChainsAncestors(n, s, x, k);
        } else {
          ChainsTop(n, s, TopOf(s, x));
          ChainsAncestors(n, s, x, up);
          NothingAboveARoot(t, x, up, k);
        }
      }
    }
  }

  lemma ChainsDeepDown(n: nat, s: nat, x: nat)
    requires TopOf(s, x) + MAX_TREE_DEPTH < x < n
    ensures RootIdOf(Chains(n, s), x) == None
  {
    hide Chains, RootIdOf, Ancestor;
    ChainsTop(n, s, TopOf(s, x));
    ChainsAncestors(n, s, x, x - TopOf(s, x));
    RootAt(Chains(n, s), x, TopOf(s, x), x - TopOf(s, x));
  }

  lemma ChainsRow(n: nat, s: nat, x: nat)
    requires x < n
    ensures HasRow(Chains(n, s), x)
    ensures RowOf(Chains(n, s), x).parentId == if x == 0 || x == s then None else Some(x - 1)
    ensures NodeInTenant(Chains(n, s), None, x) == Ok(RowOf(Chains(n, s), x))
  {
    hide WhereIdIn;
    var t := Chains(n, s);
    assert t[x] in t;
    RowUnique(t, t[x], RowOf(t, x));
    var rows := WhereIdIn(t, [x]);
    BaseRows(t, [x], x);
    FoundRow(t, None, x);
  }

  lemma LastHasNoChild(n: nat, s: nat, codeOf: int -> string, x: int)
    requires n > 0
    ensures !SiblingCodeTaken(Chains(n, s), codeOf, n - 1, x)
  {
    var t := Chains(n, s);
    forall r | r in t ensures r.parentId != Some(n - 1) { var i :| 0 <= i < n && t[i] == r; }
  }

  /** Below the cap a super admin who acts in no company may put node x under the last if the walk does not see x. */
  lemma DeepMoveIsAccepted(n: nat, s: nat, codeOf: int -> string, x: nat)
    requires TopOf(s, x) + MAX_TREE_DEPTH < x < n - 1 && TopOf(s, n - 1) + MAX_TREE_DEPTH < n - 1
    requires !Within(Chains(n, s), n - 1, x)
    ensures Moved(Chains(n, s), codeOf, None, x, n - 1) == Ok(Reparented(Chains(n, s), x, n - 1))
    ensures Moves(Chains(n, s), x, n - 1)
  {
    hide Chains, RootIdOf, Ancestor, Reparented, DescendantsSubquery, NodeInTenant, SiblingCodeTaken, Within;
    ChainsRow(n, s, x);
    ChainsRow(n, s, n - 1);
    ChainsDeepDown(n, s, x);
    ChainsDeepDown(n, s, n - 1);
    WithinIsDescent(Chains(n, s), n - 1, x);
    LastHasNoChild(n, s, codeOf, x);
  }

  /** Node 65 of a long chain goes under node 130, and the cycle is not noticed. */
  lemma DeepMoveClosesACycle(codeOf: int -> string)
    ensures var t := Chains(131, 0);
            && Forest(t)
            && Moved(t, codeOf, None, 65, 130) == Ok(Reparented(t, 65, 130)) && !Forest(Reparented(t, 65, 130))
  {
    hide Chains, Ancestor, Reparented, Moved, Forest;
    var t := Chains(131, 0);
    ChainsAreForest(131, 0);
    forall k: nat | k <= MAX_TREE_DEPTH ensures Ancestor(t, 130, k) != Some(65) { ChainsAncestors(131, 0, 130, k); }
    DeepMoveIsAccepted(131, 0, codeOf, 65);
    ChainsAncestors(131, 0, 130, 65);
    assert Above(t, 130, 65);
    MovedForest(t, 65, 130);
  }

  /** With two companies of 66 nodes in a row, the end of one goes under the end of the other. */
  lemma DeepMoveChangesCompany(codeOf: int -> string)
    ensures var t := Chains(132, 66);
            var t' := Reparented(t, 65, 131);
            && Forest(t)
            && Moved(t, codeOf, None, 65, 131) == Ok(t') && Forest(t')
            && BelongsTo(t, 65, 0) && BelongsTo(t', 65, 66)
  {
    hide Chains, Ancestor, Reparented, Moved, Forest, IsRoot;
    var t := Chains(132, 66);
    ChainsAreForest(132, 66);
    ChainsTop(132, 66, 0);
    ChainsTop(132, 66, 66);
    ChainsAncestors(132, 66, 65, 65);
    ChainsAncestors(132, 66, 131, 65);
    forall k: nat ensures Ancestor(t, 131, k) != Some(65) {
      if k <= 65 { ChainsAncestors(132, 66, 131, k); } else { NothingAboveARoot(t, 131, 65, k); }
    }
    DeepMoveIsAccepted(132, 66, codeOf, 65);
    MovedForest(t, 65, 131);
    assert BelongsTo(t, 131, 66) && !Above(t, 131, 65);
    ParentIsAbove(t, 65, 131);
    CompanyFromAbove(Reparented(t, 65, 131), 65, 131, 66);
    OutsideKept(t, 65, 131, 131, 66);
  }
}
