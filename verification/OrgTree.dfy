/**
 * The organization tree and its recursive walks (backend/app/middleware/tenant.py).
 *
 * The table is a sequence of rows with distinct primary keys. `parent_id` is an
 * arbitrary nullable column: cycles and dangling ids are allowed throughout. A
 * recursive CTE is its list of levels: the base rows, then the join of the table
 * with the level before, for as long as the level's depth is below the cap.
 */
module OrgTree {
  import opened Wrappers
  import opened Sequences

  const MAX_TREE_DEPTH: nat := 64

  datatype Row = Row(id: int, parentId: Option<int>, isActive: bool)

  ghost predicate DistinctIds(rows: seq<Row>) {
    forall i, j :: 0 <= i < j < |rows| ==> rows[i].id != rows[j].id
  }

  type Table = t: seq<Row> | DistinctIds(t) witness []

  // ── The SQL the queries are made of ──────────────────────────────────────

  /** SELECT … WHERE id IN ids. */
  function WhereIdIn(t: seq<Row>, ids: seq<int>): seq<Row> {
    if t == [] then []
    else WhereIdIn(t[..|t| - 1], ids) + if t[|t| - 1].id in ids then [t[|t| - 1]] else []
  }

  /** SELECT … WHERE parent_id = id. */
  function ChildrenOf(t: seq<Row>, id: int): seq<Row> {
    if t == [] then []
    else ChildrenOf(t[..|t| - 1], id) + if t[|t| - 1].parentId == Some(id) then [t[|t| - 1]] else []
  }

  /** SELECT … WHERE id = parent, which NULL never satisfies. */
  function ParentRows(t: seq<Row>, parent: Option<int>): seq<Row> {
    if parent.None? then [] else WhereIdIn(t, [parent.value])
  }

  /** The recursive member of the downward CTE: one output row for each pair of a
      level row and a child of it. */
  function DownStep(t: seq<Row>, level: seq<Row>): seq<Row> {
    if level == [] then []
    else DownStep(t, level[..|level| - 1]) + ChildrenOf(t, level[|level| - 1].id)
  }

  /** The recursive member of the upward CTE. */
  function UpStep(t: seq<Row>, level: seq<Row>): seq<Row> {
    if level == [] then []
    else UpStep(t, level[..|level| - 1]) + ParentRows(t, level[|level| - 1].parentId)
  }

  function DownLevel(t: seq<Row>, base: seq<Row>, depth: nat): seq<Row> {
    if depth == 0 then base else DownStep(t, DownLevel(t, base, depth - 1))
  }

  function UpLevel(t: seq<Row>, base: seq<Row>, depth: nat): seq<Row> {
    if depth == 0 then base else UpStep(t, UpLevel(t, base, depth - 1))
  }

  /** Every row the downward CTE yields at depths 0..depth, duplicates kept (UNION ALL). */
  function DownRows(t: seq<Row>, base: seq<Row>, depth: nat): seq<Row> {
    if depth == 0 then DownLevel(t, base, 0) else DownRows(t, base, depth - 1) + DownLevel(t, base, depth)
  }

  function UpRows(t: seq<Row>, base: seq<Row>, depth: nat): seq<Row> {
    if depth == 0 then UpLevel(t, base, 0) else UpRows(t, base, depth - 1) + UpLevel(t, base, depth)
  }

  function Ids(rows: seq<Row>): (ids: seq<int>)
    ensures |ids| == |rows|
    ensures forall i :: 0 <= i < |ids| ==> ids[i] == rows[i].id
  {
    seq(|rows|, i requires 0 <= i < |rows| => rows[i].id)
  }

  function RootsOnly(rows: seq<Row>): seq<Row> {
    if rows == [] then []
    else RootsOnly(rows[..|rows| - 1]) + if rows[|rows| - 1].parentId.None? then [rows[|rows| - 1]] else []
  }

  // ── The queries ──────────────────────────────────────────────────────────

  function DescendantsSubqueryMulti(t: Table, nodeIds: seq<int>): seq<int> {
    Ids(DownRows(t, WhereIdIn(t, nodeIds), MAX_TREE_DEPTH))
  }

  function DescendantsSubquery(t: Table, nodeId: int): seq<int> {
    DescendantsSubqueryMulti(t, [nodeId])
  }

  function RootsSubqueryMulti(t: Table, nodeIds: seq<int>): seq<int> {
    Ids(RootsOnly(UpRows(t, WhereIdIn(t, nodeIds), MAX_TREE_DEPTH)))
  }

  /** `scalar_one_or_none` raises on a second row; AtMostOneRootRow shows there never is one. */
  function RootIdOf(t: Table, nodeId: int): Option<int> {
    var rows := RootsSubqueryMulti(t, [nodeId]);
    AtMostOneRootRow(t, nodeId);
    assert |rows| <= 1;
    if rows == [] then None else Some(rows[0])
  }

  // ── Reference semantics: following parent_id one step at a time ──────────

  ghost predicate HasRow(t: seq<Row>, id: int) {
    exists r :: r in t && r.id == id
  }

  ghost function RowOf(t: seq<Row>, id: int): (r: Row)
    requires HasRow(t, id)
    ensures r in t && r.id == id
  {
    var r :| r in t && r.id == id; r
  }

  lemma RowUnique(t: Table, r: Row, s: Row)
    requires r in t && s in t && r.id == s.id
    ensures r == s
  {
    var i :| 0 <= i < |t| && t[i] == r;
    var j :| 0 <= j < |t| && t[j] == s;
    assert i == j;
  }

  /** The parent of a row, when both the row and the parent exist. */
  ghost function Parent(t: seq<Row>, id: int): Option<int> {
    if HasRow(t, id) && RowOf(t, id).parentId.Some? && HasRow(t, RowOf(t, id).parentId.value)
    then RowOf(t, id).parentId else None
  }

  /** The node reached from `id` in exactly `k` parent steps, if there is one. */
  ghost function Ancestor(t: seq<Row>, id: int, k: nat): (a: Option<int>)
    ensures a.Some? ==> HasRow(t, a.value) && HasRow(t, id)
  {
    if k == 0 then (if HasRow(t, id) then Some(id) else None)
    else
      var below := Ancestor(t, id, k - 1);
      if below.None? then None else Parent(t, below.value)
  }

  /** m lies in n's sub-tree as the capped walk sees it. */
  ghost predicate Within(t: seq<Row>, m: int, n: int) {
    exists k: nat :: k <= MAX_TREE_DEPTH && Ancestor(t, m, k) == Some(n)
  }

  ghost predicate IsRoot(t: seq<Row>, id: int) {
    HasRow(t, id) && RowOf(t, id).parentId == None
  }

  lemma {:induction false} AncestorSplit(t: Table, id: int, j: nat, k: nat)
    ensures Ancestor(t, id, j + k)
         == if Ancestor(t, id, j).None? then None else Ancestor(t, Ancestor(t, id, j).value, k)
  {
    if k > 0 { AncestorSplit(t, id, j, k - 1); }
  }

  /** A step down is a step of Parent. */
  lemma ParentStep(t: Table, child: Row, parent: Row)
    requires child in t && parent in t
    ensures child.parentId == Some(parent.id) <==> Parent(t, child.id) == Some(parent.id)
  {
    RowUnique(t, child, RowOf(t, child.id));
  }

  lemma {:induction false} WhereIdInMember(t: seq<Row>, ids: seq<int>, r: Row)
    ensures r in WhereIdIn(t, ids) <==> r in t && r.id in ids
  {
    if t != [] {
      WhereIdInMember(t[..|t| - 1], ids, r);
      assert t == t[..|t| - 1] + [t[|t| - 1]];
    }
  }

  lemma {:induction false} ChildrenOfMember(t: seq<Row>, id: int, r: Row)
    ensures r in ChildrenOf(t, id) <==> r in t && r.parentId == Some(id)
  {
    if t != [] {
      ChildrenOfMember(t[..|t| - 1], id, r);
      assert t == t[..|t| - 1] + [t[|t| - 1]];
    }
  }

  lemma {:induction false} RootsOnlyMember(rows: seq<Row>, r: Row)
    ensures r in RootsOnly(rows) <==> r in rows && r.parentId == None
  {
    if rows != [] {
      RootsOnlyMember(rows[..|rows| - 1], r);
      assert rows == rows[..|rows| - 1] + [rows[|rows| - 1]];
    }
  }

  lemma {:induction false} DownStepMember(t: seq<Row>, level: seq<Row>, r: Row)
    ensures r in DownStep(t, level) <==> r in t && exists c :: c in level && r.parentId == Some(c.id)
  {
    if level != [] {
      var last := level[|level| - 1];
      DownStepMember(t, level[..|level| - 1], r);
      ChildrenOfMember(t, last.id, r);
      assert level == level[..|level| - 1] + [last];
      assert r in DownStep(t, level) <==>
             r in DownStep(t, level[..|level| - 1]) || r in ChildrenOf(t, last.id);
    }
  }

  lemma {:induction false} UpStepMember(t: seq<Row>, level: seq<Row>, r: Row)
    ensures r in UpStep(t, level) <==> r in t && exists c :: c in level && c.parentId == Some(r.id)
  {
    if level != [] {
      var last := level[|level| - 1];
      UpStepMember(t, level[..|level| - 1], r);
      if last.parentId.Some? { WhereIdInMember(t, [last.parentId.value], r); }
      assert level == level[..|level| - 1] + [last];
      assert r in UpStep(t, level) <==>
             r in UpStep(t, level[..|level| - 1]) || r in ParentRows(t, last.parentId);
    }
  }

  /** Some base row is exactly k parent steps above `id`. */
  ghost predicate Reaches(t: seq<Row>, id: int, k: nat, base: seq<Row>) {
    exists b :: b in base && Ancestor(t, id, k) == Some(b.id)
  }

  /** Some base row is exactly k parent steps below `id`. */
  ghost predicate ReachedFrom(t: seq<Row>, base: seq<Row>, k: nat, id: int) {
    exists b :: b in base && Ancestor(t, b.id, k) == Some(id)
  }

  lemma {:induction false} DownLevelMeaning(t: Table, base: seq<Row>, k: nat, r: Row)
    requires forall b :: b in base ==> b in t
    ensures r in DownLevel(t, base, k) <==> r in t && Reaches(t, r.id, k, base)
  {
    hide WhereIdIn, DownStep, UpStep;
    if k == 0 {
      if r in t { forall b | b in base && b.id == r.id ensures b == r { RowUnique(t, b, r); } }
    } else {
      var level := DownLevel(t, base, k - 1);
      DownStepMember(t, level, r);
      if r in t {
        AncestorSplit(t, r.id, 1, k - 1);
        assert Ancestor(t, r.id, 1) == Parent(t, r.id);
        if c :| c in level && r.parentId == Some(c.id) {
          DownLevelMeaning(t, base, k - 1, c);
          ParentStep(t, r, c);
        }
        if Reaches(t, r.id, k, base) {
          var c := RowOf(t, Parent(t, r.id).value);
          DownLevelMeaning(t, base, k - 1, c);
          ParentStep(t, r, c);
        }
      }
    }
  }

  lemma {:induction false} UpLevelMeaning(t: Table, base: seq<Row>, k: nat, r: Row)
    requires forall b :: b in base ==> b in t
    ensures r in UpLevel(t, base, k) <==> r in t && ReachedFrom(t, base, k, r.id)
  {
    hide WhereIdIn, DownStep, UpStep;
    if k == 0 {
      if r in t { forall b | b in base && b.id == r.id ensures b == r { RowUnique(t, b, r); } }
    } else {
      var level := UpLevel(t, base, k - 1);
      UpStepMember(t, level, r);
      if r in t {
        if c :| c in level && c.parentId == Some(r.id) {
          UpLevelMeaning(t, base, k - 1, c);
          ParentStep(t, c, r);
          var b :| b in base && Ancestor(t, b.id, k - 1) == Some(c.id);
          assert Ancestor(t, b.id, k) == Some(r.id);
        }
        if b :| b in base && Ancestor(t, b.id, k) == Some(r.id) {
          var c := RowOf(t, Ancestor(t, b.id, k - 1).value);
          UpLevelMeaning(t, base, k - 1, c);
          ParentStep(t, c, r);
        }
      }
    }
  }

  lemma {:induction false} DownRowsMeaning(t: Table, base: seq<Row>, depth: nat, r: Row)
    ensures r in DownRows(t, base, depth) <==> exists k: nat :: k <= depth && r in DownLevel(t, base, k)
  {
    hide WhereIdIn, DownStep, UpStep;
    assert r in DownRows(t, base, depth) <==>
           r in DownLevel(t, base, depth) || (depth > 0 && r in DownRows(t, base, depth - 1));
    if depth > 0 { DownRowsMeaning(t, base, depth - 1, r); }
  }

  lemma {:induction false} UpRowsMeaning(t: Table, base: seq<Row>, depth: nat, r: Row)
    ensures r in UpRows(t, base, depth) <==> exists k: nat :: k <= depth && r in UpLevel(t, base, k)
  {
    hide WhereIdIn, DownStep, UpStep;
    assert r in UpRows(t, base, depth) <==>
           r in UpLevel(t, base, depth) || (depth > 0 && r in UpRows(t, base, depth - 1));
    if depth > 0 { UpRowsMeaning(t, base, depth - 1, r); }
  }

  // ── A single-seed up-walk ends in at most one root row ───────────────────

  lemma {:induction false} WhereIdInDistinct(t: Table, ids: seq<int>)
    ensures DistinctIds(WhereIdIn(t, ids))
  {
    if t != [] {
      var init: Table := t[..|t| - 1];
      WhereIdInDistinct(init, ids);
      forall r | r in WhereIdIn(init, ids) ensures r.id != t[|t| - 1].id {
        WhereIdInMember(init, ids, r);
        var i :| 0 <= i < |init| && init[i] == r;
      }
    }
  }

  lemma AtMostOneRowPerId(t: Table, id: int)
    ensures |WhereIdIn(t, [id])| <= 1
  {
    var rows := WhereIdIn(t, [id]);
    WhereIdInDistinct(t, [id]);
    forall i | 0 <= i < |rows| ensures rows[i].id == id {
      assert rows[i] in rows;
      WhereIdInMember(t, [id], rows[i]);
    }
    NoDupFitsIn(Ids(rows), [id]);
  }

  lemma {:induction false} SingleSeedLevel(t: Table, base: seq<Row>, depth: nat)
    requires |base| <= 1
    ensures |UpLevel(t, base, depth)| <= 1
  {
    hide UpStep;
    if depth > 0 {
      SingleSeedLevel(t, base, depth - 1);
      UpStepOfOne(t, UpLevel(t, base, depth - 1));
    }
  }

  lemma UpStepOfOne(t: Table, level: seq<Row>)
    requires |level| <= 1
    ensures |UpStep(t, level)| <= 1
    ensures |RootsOnly(level)| <= 1
    ensures level == [] ==> RootsOnly(level) == [] && UpStep(t, level) == []
    ensures RootsOnly(level) != [] ==> UpStep(t, level) == []
  {
    if level != [] {
      assert level[..0] == [];
      assert UpStep(t, level) == UpStep(t, []) + ParentRows(t, level[0].parentId) == ParentRows(t, level[0].parentId);
      if level[0].parentId.Some? { AtMostOneRowPerId(t, level[0].parentId.value); }
    }
  }

  lemma {:induction false} RootsOnlyConcat(a: seq<Row>, b: seq<Row>)
    ensures RootsOnly(a + b) == RootsOnly(a) + RootsOnly(b)
  {
    if b == [] {
      assert a + b == a;
    } else {
      assert (a + b)[..|a + b| - 1] == a + b[..|b| - 1];
      RootsOnlyConcat(a, b[..|b| - 1]);
    }
  }

  lemma {:induction false} RootRowsSoFar(t: Table, base: seq<Row>, depth: nat)
    requires |base| <= 1
    ensures |RootsOnly(UpRows(t, base, depth))| <= 1
    ensures RootsOnly(UpRows(t, base, depth)) != [] ==> UpStep(t, UpLevel(t, base, depth)) == []
  {
    hide RootsOnly, UpStep;
    SingleSeedLevel(t, base, depth);
    UpStepOfOne(t, UpLevel(t, base, depth));
    if depth > 0 {
      RootRowsSoFar(t, base, depth - 1);
      RootsOnlyConcat(UpRows(t, base, depth - 1), UpLevel(t, base, depth));
    }
  }

  /** The up-walk from one node, on any parent map, yields at most one root row. */
  lemma AtMostOneRootRow(t: Table, nodeId: int)
    ensures |RootsSubqueryMulti(t, [nodeId])| <= 1
  {
    AtMostOneRowPerId(t, nodeId);
    RootRowsSoFar(t, WhereIdIn(t, [nodeId]), MAX_TREE_DEPTH);
  }

  // ── What the walks mean ──────────────────────────────────────────────────

  lemma BaseRows(t: Table, ids: seq<int>, id: int)
    ensures forall b :: b in WhereIdIn(t, ids) ==> b in t && b.id in ids
    ensures (exists b :: b in WhereIdIn(t, ids) && b.id == id) <==> id in ids && HasRow(t, id)
  {
    forall b ensures b in WhereIdIn(t, ids) <==> b in t && b.id in ids { WhereIdInMember(t, ids, b); }
    if id in ids && HasRow(t, id) { assert RowOf(t, id) in WhereIdIn(t, ids); }
  }

  lemma IdsMember(rows: seq<Row>, id: int)
    ensures id in Ids(rows) <==> exists r :: r in rows && r.id == id
  {
    if id in Ids(rows) {
      var i :| 0 <= i < |rows| && Ids(rows)[i] == id;
      assert rows[i] in rows;
    }
    if r :| r in rows && r.id == id {
      var i :| 0 <= i < |rows| && rows[i] == r;
      assert Ids(rows)[i] == id;
    }
  }

  /** The downward walk from a list of nodes finds exactly the nodes that reach one
      of them in at most MAX_TREE_DEPTH parent steps, whatever the parent map. */
  lemma DescendantsMeaning(t: Table, nodeIds: seq<int>, m: int)
    ensures m in DescendantsSubqueryMulti(t, nodeIds) <==> exists n :: n in nodeIds && Within(t, m, n)
  {
    var base := WhereIdIn(t, nodeIds);
    var rows := DownRows(t, base, MAX_TREE_DEPTH);
    BaseRows(t, nodeIds, m);
    IdsMember(rows, m);
    if r :| r in rows && r.id == m {
      DownRowsMeaning(t, base, MAX_TREE_DEPTH, r);
      var k: nat :| k <= MAX_TREE_DEPTH && r in DownLevel(t, base, k);
      DownLevelMeaning(t, base, k, r);
      var b :| b in base && Ancestor(t, r.id, k) == Some(b.id);
      assert Within(t, m, b.id);
    }
    if n :| n in nodeIds && Within(t, m, n) {
      var k: nat :| k <= MAX_TREE_DEPTH && Ancestor(t, m, k) == Some(n);
      var r := RowOf(t, m);
      BaseRows(t, nodeIds, n);
      DownLevelMeaning(t, base, k, r);
      DownRowsMeaning(t, base, MAX_TREE_DEPTH, r);
    }
  }

  /** The upward walk keeps exactly the roots some seed reaches under the cap. */
  lemma RootsMeaning(t: Table, nodeIds: seq<int>, root: int)
    ensures root in RootsSubqueryMulti(t, nodeIds)
       <==> IsRoot(t, root) && exists n :: n in nodeIds && Within(t, n, root)
  {
    var base := WhereIdIn(t, nodeIds);
    var rows := UpRows(t, base, MAX_TREE_DEPTH);
    BaseRows(t, nodeIds, root);
    IdsMember(RootsOnly(rows), root);
    if r :| r in RootsOnly(rows) && r.id == root {
      RootsOnlyMember(rows, r);
      UpRowsMeaning(t, base, MAX_TREE_DEPTH, r);
      var k: nat :| k <= MAX_TREE_DEPTH && r in UpLevel(t, base, k);
      UpLevelMeaning(t, base, k, r);
      var b :| b in base && Ancestor(t, b.id, k) == Some(r.id);
      assert Within(t, b.id, root);
      RowUnique(t, r, RowOf(t, root));
    }
    if IsRoot(t, root) {
      if n :| n in nodeIds && Within(t, n, root) {
        var k: nat :| k <= MAX_TREE_DEPTH && Ancestor(t, n, k) == Some(root);
        var r := RowOf(t, root);
        BaseRows(t, nodeIds, n);
        UpLevelMeaning(t, base, k, r);
        UpRowsMeaning(t, base, MAX_TREE_DEPTH, r);
        RootsOnlyMember(rows, r);
      }
    }
  }

  // ── Main results ─────────────────────────────────────────────────────────

  /** Up and down walks are dual: a node's company root is the root whose sub-tree holds it. */
  lemma UpDownDuality(t: Table, m: int, r: int)
    ensures RootIdOf(t, m) == Some(r) <==> IsRoot(t, r) && m in DescendantsSubquery(t, r)
  {
    RootsMeaning(t, [m], r);
    DescendantsMeaning(t, [r], m);
    AtMostOneRootRow(t, m);
    var rows := RootsSubqueryMulti(t, [m]);
    assert r in rows <==> rows != [] && rows[0] == r;
    assert (exists n :: n in [m] && Within(t, n, r)) <==> Within(t, m, r) by { assert m in [m]; }
    assert (exists n :: n in [r] && Within(t, m, n)) <==> Within(t, m, r) by { assert r in [r]; }
  }

  /** Two companies never share a node. */
  lemma RootsHaveDisjointSubtrees(t: Table, r: int, s: int, m: int)
    requires IsRoot(t, r) && IsRoot(t, s)
    requires m in DescendantsSubquery(t, r) && m in DescendantsSubquery(t, s)
    ensures r == s
  {
    UpDownDuality(t, m, r);
    UpDownDuality(t, m, s);
  }

  /** Seeding the walks with several nodes gives the union of the single walks. */
  lemma MultiSeedIsUnion(t: Table, nodeIds: seq<int>, x: int)
    ensures x in DescendantsSubqueryMulti(t, nodeIds)
       <==> exists n :: n in nodeIds && x in DescendantsSubquery(t, n)
    ensures x in RootsSubqueryMulti(t, nodeIds) <==> exists n :: n in nodeIds && RootIdOf(t, n) == Some(x)
  {
    DescendantsMeaning(t, nodeIds, x);
    RootsMeaning(t, nodeIds, x);
    forall n ensures x in DescendantsSubquery(t, n) <==> Within(t, x, n) {
      DescendantsMeaning(t, [n], x);
      assert n in [n];
    }
    forall n ensures RootIdOf(t, n) == Some(x) <==> IsRoot(t, x) && Within(t, n, x) {
      UpDownDuality(t, n, x);
      DescendantsMeaning(t, [x], n);
      assert x in [x];
    }
  }

  // ── How far the cap reaches ──────────────────────────────────────────────

  /** No node has a 65th ancestor that its first 64 parent steps have not already met. */
  ghost predicate CapSuffices(t: seq<Row>) {
    forall m :: CapCovers(t, m)
  }

  ghost predicate CapCovers(t: seq<Row>, m: int) {
    var a := Ancestor(t, m, MAX_TREE_DEPTH + 1);
    a.Some? ==> Within(t, m, a.value)
  }

  lemma {:induction false} CapReachesAll(t: Table, m: int, k: nat)
    requires CapSuffices(t)
    requires Ancestor(t, m, k).Some?
    ensures Within(t, m, Ancestor(t, m, k).value)
  {
    if k > MAX_TREE_DEPTH {
      CapReachesAll(t, m, k - 1);
      var j: nat :| j <= MAX_TREE_DEPTH && Ancestor(t, m, j) == Ancestor(t, m, k - 1);
      assert Ancestor(t, m, j + 1) == Ancestor(t, m, k);
      if j == MAX_TREE_DEPTH { assert CapCovers(t, m); }
    }
  }

  lemma WithinIsDescent(t: Table, m: int, n: int)
    ensures m in DescendantsSubquery(t, n) <==> Within(t, m, n)
  {
    DescendantsMeaning(t, [n], m);
    assert n in [n];
  }

  /** Sub-trees nest: whatever lies under a node of n's sub-tree lies in n's sub-tree. */
  ghost predicate SubtreesNest(t: Table) {
    forall n, g, m :: g in DescendantsSubquery(t, n) && m in DescendantsSubquery(t, g)
                  ==> m in DescendantsSubquery(t, n)
  }

  /** The capped walk makes sub-trees nest exactly on the tables whose ancestry the cap covers. */
  lemma NestingNeedsTheCap(t: Table)
    ensures SubtreesNest(t) <==> CapSuffices(t)
  {
    if CapSuffices(t) {
      forall n, g, m | g in DescendantsSubquery(t, n) && m in DescendantsSubquery(t, g)
        ensures m in DescendantsSubquery(t, n)
      {
        WithinIsDescent(t, g, n);
        WithinIsDescent(t, m, g);
        WithinIsDescent(t, m, n);
        var j: nat :| j <= MAX_TREE_DEPTH && Ancestor(t, m, j) == Some(g);
        var k: nat :| k <= MAX_TREE_DEPTH && Ancestor(t, g, k) == Some(n);
        AncestorSplit(t, m, j, k);
        CapReachesAll(t, m, j + k);
      }
    }
    if SubtreesNest(t) {
      forall m ensures CapCovers(t, m) {
        AncestorSplit(t, m, 1, MAX_TREE_DEPTH);
        if Ancestor(t, m, MAX_TREE_DEPTH + 1).Some? {
          var n := Ancestor(t, m, MAX_TREE_DEPTH + 1).value;
          var g := Ancestor(t, m, 1).value;
          assert Within(t, g, n) && Within(t, m, g);
          WithinIsDescent(t, g, n);
          WithinIsDescent(t, m, g);
          WithinIsDescent(t, m, n);
        }
      }
    }
  }

  /** No node sits exactly 65 levels below a root: every node under a root is close enough
      for the up-walk to find it. Cycles do not matter here. */
  ghost predicate RootsInReach(t: seq<Row>) {
    forall m :: RootInReach(t, m)
  }

  ghost predicate RootInReach(t: seq<Row>, m: int) {
    var a := Ancestor(t, m, MAX_TREE_DEPTH + 1);
    a.Some? ==> !IsRoot(t, a.value)
  }

  /** A sub-tree belongs to the company its top belongs to. */
  ghost predicate SubtreesShareRoot(t: Table) {
    forall n, m :: m in DescendantsSubquery(t, n) && RootIdOf(t, n).Some? ==> RootIdOf(t, m) == RootIdOf(t, n)
  }

  lemma {:induction false} NothingAboveARoot(t: Table, id: int, k: nat, j: nat)
    requires Ancestor(t, id, k).Some? && IsRoot(t, Ancestor(t, id, k).value)
    requires k < j
    ensures Ancestor(t, id, j) == None
  {
    if j > k + 1 { NothingAboveARoot(t, id, k, j - 1); }
  }

  lemma RootIdIsWithin(t: Table, m: int, r: int)
    ensures RootIdOf(t, m) == Some(r) <==> IsRoot(t, r) && Within(t, m, r)
  {
    UpDownDuality(t, m, r);
    WithinIsDescent(t, m, r);
  }

  lemma SharedRootsNeedReach(t: Table)
    ensures SubtreesShareRoot(t) <==> RootsInReach(t)
  {
    if RootsInReach(t) {
      forall n, m | m in DescendantsSubquery(t, n) && RootIdOf(t, n).Some?
        ensures RootIdOf(t, m) == RootIdOf(t, n)
      {
        DescentKeepsRoot(t, n, m);
      }
    }
    if SubtreesShareRoot(t) {
      forall m ensures RootInReach(t, m) {
        AncestorSplit(t, m, 1, MAX_TREE_DEPTH);
        var a := Ancestor(t, m, MAX_TREE_DEPTH + 1);
        if a.Some? && IsRoot(t, a.value) {
          var n := Ancestor(t, m, 1).value;
          assert Within(t, n, a.value) && Within(t, m, n);
          RootIdIsWithin(t, n, a.value);
          WithinIsDescent(t, m, n);
          RootIdIsWithin(t, m, a.value);
          var k: nat :| k <= MAX_TREE_DEPTH && Ancestor(t, m, k) == a;
          NothingAboveARoot(t, m, k, MAX_TREE_DEPTH + 1);
        }
      }
    }
  }

  lemma DescentKeepsRoot(t: Table, n: int, m: int)
    requires RootsInReach(t)
    requires m in DescendantsSubquery(t, n)
    requires RootIdOf(t, n).Some?
    ensures RootIdOf(t, m) == RootIdOf(t, n)
  {
    hide Ancestor, RootIdOf, DescendantsSubquery;
    var r := RootIdOf(t, n).value;
    WithinIsDescent(t, m, n);
    RootIdIsWithin(t, n, r);
    var j: nat :| j <= MAX_TREE_DEPTH && Ancestor(t, m, j) == Some(n);
    var k: nat :| k <= MAX_TREE_DEPTH && Ancestor(t, n, k) == Some(r);
    AncestorSplit(t, m, j, k);
    var i := if j + k > MAX_TREE_DEPTH then j + k - (MAX_TREE_DEPTH + 1) else 0;
    AncestorSplit(t, m, i, MAX_TREE_DEPTH + 1);
    assert RootInReach(t, Ancestor(t, m, i).GetOr(m));
    RootIdIsWithin(t, m, r);
  }

  /** The converse needs no condition: a node whose root is found gives it to everything
      the down-walk lists it under. */
  lemma RootComesFromAbove(t: Table, n: int, m: int)
    requires m in DescendantsSubquery(t, n)
    requires RootIdOf(t, m).Some?
    ensures RootIdOf(t, n) == RootIdOf(t, m)
  {
    hide Ancestor, RootIdOf, DescendantsSubquery;
    var r := RootIdOf(t, m).value;
    WithinIsDescent(t, m, n);
    RootIdIsWithin(t, m, r);
    var j: nat :| j <= MAX_TREE_DEPTH && Ancestor(t, m, j) == Some(n);
    var k: nat :| k <= MAX_TREE_DEPTH && Ancestor(t, m, k) == Some(r);
    if k < j { NothingAboveARoot(t, m, k, j); }
    AncestorSplit(t, m, j, k - j);
    RootIdIsWithin(t, n, r);
  }

  // ── How many rows the walks produce ──────────────────────────────────────

  lemma {:induction false} ChildrenDistinct(t: Table, id: int)
    ensures DistinctIds(ChildrenOf(t, id))
  {
    if t != [] {
      var init: Table := t[..|t| - 1];
      ChildrenDistinct(init, id);
      forall r | r in ChildrenOf(init, id) ensures r.id != t[|t| - 1].id {
        ChildrenOfMember(init, id, r);
        var i :| 0 <= i < |init| && init[i] == r;
      }
    }
  }

  lemma {:induction false} DownStepDistinct(t: Table, level: seq<Row>)
    requires DistinctIds(level)
    ensures DistinctIds(DownStep(t, level))
  {
    if level != [] {
      var init, last := level[..|level| - 1], level[|level| - 1];
      DownStepDistinct(t, init);
      ChildrenDistinct(t, last.id);
      forall x, y | x in DownStep(t, init) && y in ChildrenOf(t, last.id) ensures x.id != y.id {
        DownStepMember(t, init, x);
        ChildrenOfMember(t, last.id, y);
        if x.id == y.id { RowUnique(t, x, y); }
      }
    }
  }

  lemma {:induction false} DownLevelDistinct(t: Table, base: seq<Row>, k: nat)
    requires DistinctIds(base) && forall b :: b in base ==> b in t
    ensures DistinctIds(DownLevel(t, base, k))
    ensures |DownLevel(t, base, k)| <= |t|
  {
    hide DownStep;
    var level := DownLevel(t, base, k);
    if k > 0 {
      DownLevelDistinct(t, base, k - 1);
      DownStepDistinct(t, DownLevel(t, base, k - 1));
    }
    forall r | r in level ensures r in t { DownLevelMeaning(t, base, k, r); }
    NoDupFitsIn(level, t);
  }

  lemma {:induction false} DownRowsBound(t: Table, base: seq<Row>, depth: nat)
    requires DistinctIds(base) && forall b :: b in base ==> b in t
    ensures |DownRows(t, base, depth)| <= (depth + 1) * |t|
  {
    hide DownLevel;
    DownLevelDistinct(t, base, depth);
    if depth > 0 {
      DownRowsBound(t, base, depth - 1);
      assert (depth + 1) * |t| == depth * |t| + |t|;
    }
  }

  lemma {:induction false} UpRowsBound(t: Table, base: seq<Row>, depth: nat)
    requires |base| <= 1
    ensures |UpRows(t, base, depth)| <= depth + 1
  {
    SingleSeedLevel(t, base, depth);
    if depth > 0 { UpRowsBound(t, base, depth - 1); }
  }

  /** Even on a cyclic table a downward walk yields at most 65 rows per organization,
      and the upward walk behind RootIdOf and AncestorChain at most 65 rows. */
  lemma WalksAreBounded(t: Table, nodeIds: seq<int>, nodeId: int)
    ensures |DescendantsSubqueryMulti(t, nodeIds)| <= (MAX_TREE_DEPTH + 1) * |t|
    ensures |UpRows(t, WhereIdIn(t, [nodeId]), MAX_TREE_DEPTH)| <= MAX_TREE_DEPTH + 1
  {
    WhereIdInDistinct(t, nodeIds);
    BaseRows(t, nodeIds, nodeId);
    DownRowsBound(t, WhereIdIn(t, nodeIds), MAX_TREE_DEPTH);
    AtMostOneRowPerId(t, nodeId);
    UpRowsBound(t, WhereIdIn(t, [nodeId]), MAX_TREE_DEPTH);
  }

  // ── root_ids_of ──────────────────────────────────────────────────────────

  /** The elements of s in order of first occurrence. */
  function FirstSeen(s: seq<int>): (d: seq<int>)
    ensures NoDup(d)
    ensures forall x :: x in d <==> x in s
  {
    if s == [] then []
    else
      var d := FirstSeen(s[..|s| - 1]);
      assert s == s[..|s| - 1] + [s[|s| - 1]];
      if s[|s| - 1] in d then d else d + [s[|s| - 1]]
  }

  function RootIdsOf(t: Table, nodeIds: seq<int>): seq<int> {
    if nodeIds == [] then [] else FirstSeen(RootsSubqueryMulti(t, nodeIds))
  }

  /** The loop over the insertion-ordered dict `seen`. */
  method ComputeRootIdsOf(t: Table, nodeIds: seq<int>) returns (roots: seq<int>)
    ensures roots == RootIdsOf(t, nodeIds)
    ensures NoDup(roots)
    ensures forall r :: r in roots <==> exists n :: n in nodeIds && RootIdOf(t, n) == Some(r)
  {
    forall r ensures r in RootIdsOf(t, nodeIds) <==> exists n :: n in nodeIds && RootIdOf(t, n) == Some(r) {
      RootIdsOfMeaning(t, nodeIds, r);
    }
    if nodeIds == [] { return []; }
    var rows := RootsSubqueryMulti(t, nodeIds);
    var seen: seq<int> := [];
    for i := 0 to |rows|
      invariant seen == FirstSeen(rows[..i])
    {
      assert rows[..i + 1][..i] == rows[..i];
      if rows[i] !in seen { seen := seen + [rows[i]]; }
    }
    assert rows[..|rows|] == rows;
    return seen;
  }

  /** The distinct company roots that some listed node rolls up to, no more and no fewer. */
  lemma RootIdsOfMeaning(t: Table, nodeIds: seq<int>, r: int)
    ensures r in RootIdsOf(t, nodeIds) <==> exists n :: n in nodeIds && RootIdOf(t, n) == Some(r)
    ensures NoDup(RootIdsOf(t, nodeIds))
  {
    MultiSeedIsUnion(t, nodeIds, r);
  }

  // ── ancestor_chain ───────────────────────────────────────────────────────

  /** The dict {r.id: r for r in rows}. */
  function ById(rows: seq<Row>): map<int, Row> {
    if rows == [] then map[] else ById(rows[..|rows| - 1])[rows[|rows| - 1].id := rows[|rows| - 1]]
  }

  lemma {:induction false} ByIdMeaning(t: Table, rows: seq<Row>, id: int)
    requires forall r :: r in rows ==> r in t
    ensures id in ById(rows) <==> exists r :: r in rows && r.id == id
    ensures id in ById(rows) ==> ById(rows)[id] in rows && ById(rows)[id].id == id
  {
    if rows != [] {
      var init := rows[..|rows| - 1];
      assert rows == init + [rows[|rows| - 1]];
      ByIdMeaning(t, init, id);
    }
  }

  function Reverse(s: seq<Row>): (r: seq<Row>)
    ensures |r| == |s|
    ensures forall i :: 0 <= i < |s| ==> r[i] == s[|s| - 1 - i]
  {
    if s == [] then [] else [s[|s| - 1]] + Reverse(s[..|s| - 1])
  }

  /** c lists, root first, exactly the nodes the capped up-walk from `id` meets: each is
      the parent of the next, none repeats, and the node itself comes last. */
  ghost predicate ChainOf(t: seq<Row>, id: int, c: seq<Row>) {
    && HasRow(t, id) && c != [] && c[|c| - 1] == RowOf(t, id)
    && DistinctIds(c)
    && (forall i :: 0 <= i < |c| - 1 ==> c[i + 1].parentId == Some(c[i].id))
    && (forall r :: r in c <==> r in t && Within(t, id, r.id))
  }

  lemma SelfWithin(t: Table, id: int)
    ensures Within(t, id, id) <==> HasRow(t, id)
  {
    assert HasRow(t, id) ==> Ancestor(t, id, 0) == Some(id);
  }

  lemma WithinHasRows(t: Table, m: int, n: int)
    requires Within(t, m, n)
    ensures HasRow(t, m) && HasRow(t, n)
  {}

  lemma UpWalkMeets(t: Table, nodeId: int, a: int)
    ensures a in Ids(UpRows(t, WhereIdIn(t, [nodeId]), MAX_TREE_DEPTH)) <==> Within(t, nodeId, a)
  {
    var base := WhereIdIn(t, [nodeId]);
    var rows := UpRows(t, base, MAX_TREE_DEPTH);
    BaseRows(t, [nodeId], nodeId);
    IdsMember(rows, a);
    if r :| r in rows && r.id == a {
      UpRowsMeaning(t, base, MAX_TREE_DEPTH, r);
      var k: nat :| k <= MAX_TREE_DEPTH && r in UpLevel(t, base, k);
      UpLevelMeaning(t, base, k, r);
      assert Ancestor(t, nodeId, k) == Some(a);
    }
    if Within(t, nodeId, a) {
      var k: nat :| k <= MAX_TREE_DEPTH && Ancestor(t, nodeId, k) == Some(a);
      var r := RowOf(t, a);
      UpLevelMeaning(t, base, k, r);
      UpRowsMeaning(t, base, MAX_TREE_DEPTH, r);
    }
  }

  lemma {:induction false} AncestorsListed(t: Table, id: int, c: seq<Row>, k: nat)
    requires c != [] && c[0].id == id && forall r :: r in c ==> r in t
    requires forall i :: 0 <= i < |c| - 1 ==> c[i].parentId == Some(c[i + 1].id)
    requires var next := c[|c| - 1].parentId;
             next.Some? && Within(t, id, next.value) ==> exists r :: r in c && r.id == next.value
    requires k <= MAX_TREE_DEPTH && Ancestor(t, id, k).Some?
    ensures exists i :: 0 <= i < |c| && c[i].id == Ancestor(t, id, k).value
  {
    if k > 0 {
      AncestorsListed(t, id, c, k - 1);
      var i :| 0 <= i < |c| && c[i].id == Ancestor(t, id, k - 1).value;
      var up := RowOf(t, Ancestor(t, id, k).value);
      assert c[i] in c;
      ParentStep(t, c[i], up);
      if i < |c| - 1 { assert c[i + 1].id == up.id; } else { assert Within(t, id, up.id); }
    }
  }

  /** What the cursor walk has collected when it stops: every ancestor under the cap. */
  ghost predicate Collected(t: seq<Row>, id: int, c: seq<Row>) {
    && HasRow(t, id) && c != [] && c[0].id == id
    && DistinctIds(c)
    && (forall i :: 0 <= i < |c| ==> c[i] in t && Within(t, id, c[i].id))
    && Linked(c)
    && (var next := c[|c| - 1].parentId;
        next.Some? && Within(t, id, next.value) ==> exists r :: r in c && r.id == next.value)
  }

  lemma CollectedAll(t: Table, id: int, c: seq<Row>, r: Row)
    requires Collected(t, id, c)
    ensures r in c <==> r in t && Within(t, id, r.id)
  {
    if r in t && Within(t, id, r.id) {
      var k: nat :| k <= MAX_TREE_DEPTH && Ancestor(t, id, k) == Some(r.id);
      AncestorsListed(t, id, c, k);
      var i :| 0 <= i < |c| && c[i].id == r.id;
      RowUnique(t, c[i], r);
    }
  }

  lemma ReverseMember(s: seq<Row>, r: Row)
    ensures r in Reverse(s) <==> r in s
  {
    if i :| 0 <= i < |s| && s[i] == r { assert Reverse(s)[|s| - 1 - i] == r; }
  }

  lemma UpwardIsChain(t: Table, id: int, c: seq<Row>)
    requires Collected(t, id, c)
    ensures ChainOf(t, id, Reverse(c))
  {
    hide Ancestor, Reverse, Within;
    forall r ensures r in Reverse(c) <==> r in t && Within(t, id, r.id) {
      CollectedAll(t, id, c, r);
      ReverseMember(c, r);
    }
    RowUnique(t, c[0], RowOf(t, id));
  }

  /** Each row's parent is the next one. */
  ghost predicate Linked(c: seq<Row>) {
    forall i :: 0 <= i < |c| - 1 ==> c[i].parentId == Some(c[i + 1].id)
  }

  lemma ClimbOne(c: seq<Row>, row: Row)
    requires Linked(c) && DistinctIds(c)
    requires forall r :: r in c ==> r.id != row.id
    requires c != [] ==> c[|c| - 1].parentId == Some(row.id)
    ensures Linked(c + [row]) && DistinctIds(c + [row])
    ensures forall r :: r in c + [row] <==> r in c || r == row
  {}

  lemma DropLast(c: seq<Row>)
    requires c != []
    ensures c == c[..|c| - 1] + [c[|c| - 1]]
  {}

  /** The cursor walk: ends on every table, cyclic ones included. */
  method AncestorChain(t: Table, nodeId: int, includeSelf: bool) returns (chain: seq<Row>)
    ensures !HasRow(t, nodeId) ==> chain == []
    ensures HasRow(t, nodeId) ==> ChainOf(t, nodeId, if includeSelf then chain else chain + [RowOf(t, nodeId)])
  {
    hide UpRows, WhereIdIn, Ids, Ancestor;
    var ids := Ids(UpRows(t, WhereIdIn(t, [nodeId]), MAX_TREE_DEPTH));
    forall a ensures (a in ids <==> Within(t, nodeId, a)) && (a in ids ==> HasRow(t, a) && HasRow(t, nodeId)) {
      UpWalkMeets(t, nodeId, a);
      if a in ids { WithinHasRows(t, nodeId, a); }
    }
    SelfWithin(t, nodeId);
    if ids == [] { return []; }
    var byId := FetchById(t, ids);
    chain := [];
    var cursor := Some(nodeId);
    var seen: set<int> := {};
    while cursor.Some? && cursor.value in byId && cursor.value !in seen
      invariant forall i :: 0 <= i < |chain| ==> chain[i] in t && chain[i].id in byId
      invariant Linked(chain)
      invariant DistinctIds(chain)
      invariant forall id :: id in seen <==> exists r :: r in chain && r.id == id
      invariant cursor == if chain == [] then Some(nodeId) else chain[|chain| - 1].parentId
      invariant chain != [] ==> chain[0].id == nodeId
      decreases byId.Keys - seen
    {
      var row := byId[cursor.value];
      ClimbOne(chain, row);
      seen := seen + {cursor.value};
      chain := chain + [row];
      cursor := row.parentId;
    }
    if HasRow(t, nodeId) { UpwardIsChain(t, nodeId, chain); }
    chain := Reverse(chain);
    if !includeSelf && chain != [] {
      DropLast(chain);
      chain := chain[..|chain| - 1];
    }
  }

  predicate Holds(t: Table, byId: map<int, Row>, id: int)
    requires id in byId
  {
    byId[id] in t && byId[id].id == id
  }

  /** The dict of the rows whose id the up-walk listed. */
  function FetchById(t: Table, ids: seq<int>): (byId: map<int, Row>)
    ensures forall id :: id in byId <==> id in ids && HasRow(t, id)
    ensures forall id :: id in byId ==> byId[id] in t && byId[id].id == id
  {
    assert forall id ::
      && (id in ById(WhereIdIn(t, ids)) <==> id in ids && HasRow(t, id))
      && (id in ById(WhereIdIn(t, ids)) ==> Holds(t, ById(WhereIdIn(t, ids)), id))
    by {
      forall id
        ensures id in ById(WhereIdIn(t, ids)) <==> id in ids && HasRow(t, id)
        ensures id in ById(WhereIdIn(t, ids)) ==> Holds(t, ById(WhereIdIn(t, ids)), id)
      {
        BaseRows(t, ids, id);
        ByIdMeaning(t, WhereIdIn(t, ids), id);
      }
    }
    ById(WhereIdIn(t, ids))
  }

  /** A chain begins at the node's company root exactly when the walk finds one. */
  lemma ChainStartsAtRoot(t: Table, id: int, c: seq<Row>)
    requires ChainOf(t, id, c)
    ensures RootIdOf(t, id) == if c[0].parentId.None? then Some(c[0].id) else None
  {
    hide Ancestor;
    assert c[0] in c;
    forall i | 0 < i < |c| ensures c[i].parentId.Some? { assert c[(i - 1) + 1].parentId == Some(c[i - 1].id); }
    if RootIdOf(t, id).Some? {
      var r := RootIdOf(t, id).value;
      UpDownDuality(t, id, r);
      WithinIsDescent(t, id, r);
      var i :| 0 <= i < |c| && c[i] == RowOf(t, r);
    }
    if c[0].parentId.None? {
      var r := c[0].id;
      RowUnique(t, c[0], RowOf(t, r));
      WithinIsDescent(t, id, r);
      UpDownDuality(t, id, r);
    }
  }

  // ── Which tables the cap covers ──────────────────────────────────────────

  ghost function FirstAncestors(t: seq<Row>, m: int, k: nat): (s: seq<int>)
    requires Ancestor(t, m, k).Some?
    ensures |s| == k + 1
    ensures forall i :: 0 <= i <= k ==> Ancestor(t, m, i) == Some(s[i])
  {
    if k == 0 then [m] else FirstAncestors(t, m, k - 1) + [Ancestor(t, m, k).value]
  }

  lemma {:induction false} AncestorsRepeat(t: Table, m: int, i: nat, j: nat, k: nat)
    requires Ancestor(t, m, i) == Ancestor(t, m, j)
    ensures Ancestor(t, m, i + k) == Ancestor(t, m, j + k)
  {
    if k > 0 { AncestorsRepeat(t, m, i, j, k - 1); }
  }

  /** A table of at most 65 organizations is covered, cycles or not. */
  lemma SmallTablesAreCovered(t: Table)
    requires |t| <= MAX_TREE_DEPTH + 1
    ensures CapSuffices(t)
  {
    var top := MAX_TREE_DEPTH + 1;
    forall m ensures CapCovers(t, m) {
      if Ancestor(t, m, top).Some? {
        var s := FirstAncestors(t, m, top);
        if NoDup(s) {
          forall x | x in s ensures x in Ids(t) {
            var i :| 0 <= i < |s| && s[i] == x;
            assert HasRow(t, Ancestor(t, m, i).value);
            IdsMember(t, x);
          }
          NoDupFitsIn(s, Ids(t));
          assert false;
        }
        var i, j :| 0 <= i < j < |s| && s[i] == s[j];
        AncestorsRepeat(t, m, i, j, top - j);
        assert Ancestor(t, m, top - (j - i)) == Ancestor(t, m, top);
      }
    }
  }

  /** Organizations 0, 1, …, n - 1, each the parent of the next, except that s starts a company of its own. */
  function Chains(n: nat, s: nat): (t: Table)
    ensures |t| == n
    ensures forall i :: 0 <= i < n ==> t[i] == Row(i, if i == 0 || i == s then None else Some(i - 1), true)
  {
    seq(n, i requires 0 <= i < n => Row(i, if i == 0 || i == s then None else Some(i - 1), true))
  }

  lemma {:induction false} ChainsAncestors(n: nat, s: nat, m: nat, k: nat)
    requires k <= m < n && (m < s || k <= m - s)
    ensures Ancestor(Chains(n, s), m, k) == Some(m - k)
  {
    var t := Chains(n, s);
    var x := m - if k == 0 then 0 else k - 1;
    assert t[x] in t;
    if k > 0 {
      ChainsAncestors(n, s, m, k - 1);
      assert t[x - 1] in t;
      RowUnique(t, t[x], RowOf(t, x));
    }
  }

  lemma ChainsTop(n: nat, s: nat, top: nat)
    requires top < n && (top == 0 || top == s)
    ensures IsRoot(Chains(n, s), top)
  {
    var t := Chains(n, s);
    assert t[top] in t;
    RowUnique(t, t[top], RowOf(t, top));
  }

  /** The shortest chain that the cap does not cover. */
  function DeepChain(): Table {
    Chains(66, 0)
  }

  lemma DeepChainAncestors(m: nat, k: nat)
    requires k <= m < 66
    ensures Ancestor(DeepChain(), m, k) == Some(m - k)
  {
    hide Chains, Ancestor;
    ChainsAncestors(66, 0, m, k);
  }

  lemma DeepChainIsNotCovered()
    ensures var t := DeepChain();
            65 in DescendantsSubquery(t, 1) && 1 in DescendantsSubquery(t, 0) && 65 !in DescendantsSubquery(t, 0)
  {
    hide Ancestor, DescendantsSubquery, DeepChain;
    var t := DeepChain();
    WithinIsDescent(t, 65, 1);
    WithinIsDescent(t, 1, 0);
    WithinIsDescent(t, 65, 0);
    DeepChainAncestors(65, 64);
    DeepChainAncestors(1, 1);
    forall k: nat | k <= MAX_TREE_DEPTH ensures Ancestor(t, 65, k) != Some(0) { DeepChainAncestors(65, k); }
  }

  /** On the same chain node 65 lies under node 1, whose company is node 0, and has no company itself. */
  lemma DeepChainLosesItsRoot()
    ensures var t := DeepChain();
            && !RootsInReach(t)
            && 65 in DescendantsSubquery(t, 1) && RootIdOf(t, 1) == Some(0) && RootIdOf(t, 65) == None
  {
    hide Ancestor, DescendantsSubquery, DeepChain, RootIdOf;
    var t := DeepChain();
    DeepChainIsNotCovered();
    DeepChainTop();
    DeepChainAncestors(65, 65);
    DeepChainAncestors(1, 1);
    assert !RootInReach(t, 65);
    RootIdIsWithin(t, 1, 0);
    if RootIdOf(t, 65).Some? {
      var r := RootIdOf(t, 65).value;
      RootIdIsWithin(t, 65, r);
      var k: nat :| k <= MAX_TREE_DEPTH && Ancestor(t, 65, k) == Some(r);
      DeepChainAncestors(65, k);
      NothingAboveARoot(t, 65, k, 65);
    }
  }

  lemma DeepChainTop()
    ensures IsRoot(DeepChain(), 0)
  {
    ChainsTop(66, 0, 0);
  }

  // ── Trees of height at most 64 ───────────────────────────────────────────

  /** No chain of parents is longer than the cap; in particular none is a cycle. */
  ghost predicate Shallow(t: seq<Row>) {
    forall m :: ShallowAt(t, m)
  }

  ghost predicate ShallowAt(t: seq<Row>, m: int) {
    Ancestor(t, m, MAX_TREE_DEPTH + 1) == None
  }

  /** The foreign key on parent_id. */
  ghost predicate ParentsExist(t: seq<Row>) {
    forall r :: r in t && r.parentId.Some? ==> HasRow(t, r.parentId.value)
  }

  /** Where the walk up from m stops. */
  lemma {:induction false} WalkStops(t: Table, m: int, k: nat, bound: nat)
    requires k <= bound && Ancestor(t, m, k).Some? && Ancestor(t, m, bound + 1) == None
    ensures exists j: nat :: k <= j <= bound && Ancestor(t, m, j).Some? && Ancestor(t, m, j + 1) == None
    decreases bound - k
  {
    hide Ancestor;
    if Ancestor(t, m, k + 1).Some? { WalkStops(t, m, k + 1, bound); }
  }

  lemma TopIsRoot(t: Table, m: int, j: nat)
    requires ParentsExist(t) && Ancestor(t, m, j).Some? && Ancestor(t, m, j + 1) == None
    ensures IsRoot(t, Ancestor(t, m, j).value)
  {
    var a := Ancestor(t, m, j).value;
    assert RowOf(t, a) in t;
  }

  /** In a tree of height at most 64 the cap covers every ancestry, and every node finds its company. */
  lemma ShallowTreesAreCovered(t: Table)
    requires Shallow(t)
    ensures CapSuffices(t) && RootsInReach(t)
    ensures ParentsExist(t) ==> forall m :: HasRow(t, m) ==> RootIdOf(t, m).Some?
  {
    hide Ancestor, RootIdOf;
    forall m | ParentsExist(t) && HasRow(t, m) ensures RootIdOf(t, m).Some? {
      assert Ancestor(t, m, 0) == Some(m) by { AncestorZero(t, m); }
      assert ShallowAt(t, m);
      WalkStops(t, m, 0, MAX_TREE_DEPTH);
      var j: nat :| j <= MAX_TREE_DEPTH && Ancestor(t, m, j).Some? && Ancestor(t, m, j + 1) == None;
      TopIsRoot(t, m, j);
      RootIdIsWithin(t, m, Ancestor(t, m, j).value);
    }
    forall m ensures CapCovers(t, m) && RootInReach(t, m) { assert ShallowAt(t, m); }
  }

  lemma AncestorZero(t: Table, m: int)
    requires HasRow(t, m)
    ensures Ancestor(t, m, 0) == Some(m)
  {}
}
