/**
 * The depth, root and path columns that index the organizations tree
 * (backend/alembic/versions/g3b4c5d6e7f8_org_tree_merge.py).
 */
module TreeIndex {
  import opened Wrappers
  import opened Decimal

  /** root_organization_id and path are NULL until the backfill fills them in. */
  datatype Org = Org(code: string, parentId: Option<nat>, rootId: Option<nat>, nodeType: string,
                     path: Option<string>, depth: nat)

  type Orgs = map<nat, Org>

  ghost predicate Extends(before: Orgs, after: Orgs) {
    forall id :: id in before ==> id in after && after[id] == before[id]
  }

  // ── The tree index ───────────────────────────────────────────────────────

  ghost predicate IsChildRow(parent: Org, id: nat, o: Org) {
    && o.rootId == parent.rootId && o.depth == parent.depth + 1
    && parent.path.Some? && o.path == Some(parent.path.value + Str(id) + "/")
  }

  /** Every row agrees with its parent's row. */
  ghost predicate RowIndexed(orgs: Orgs, id: nat)
    requires id in orgs
  {
    var o := orgs[id];
    if o.parentId.None? then
      o.rootId == Some(id) && o.depth == 0 && o.path == Some("/" + Str(id) + "/")
    else
      && o.parentId.value in orgs
      && IsChildRow(orgs[o.parentId.value], id, o)
  }

  ghost predicate TreeIndexed(orgs: Orgs) {
    forall id :: id in orgs ==> RowIndexed(orgs, id)
  }

  /** Company and code together name one node: uq_org_root_code. */
  ghost predicate CodesUnique(orgs: Orgs) {
    forall i, j :: i in orgs && j in orgs && i != j && orgs[i].rootId == orgs[j].rootId ==> orgs[i].code != orgs[j].code
  }

  /** The node k parent steps above `id`. */
  ghost function AncestorAt(orgs: Orgs, id: nat, k: nat): Option<nat> {
    if k == 0 then (if id in orgs then Some(id) else None)
    else
      var below := AncestorAt(orgs, id, k - 1);
      if below.None? || below.value !in orgs then None
      else if orgs[below.value].parentId.Some? && orgs[below.value].parentId.value in orgs
      then orgs[below.value].parentId else None
  }

  ghost predicate AncestorOrSelf(orgs: Orgs, a: nat, x: nat) {
    exists k: nat :: AncestorAt(orgs, x, k) == Some(a)
  }

  lemma {:induction false} AncestorViaParent(orgs: Orgs, x: nat, k: nat)
    requires TreeIndexed(orgs) && x in orgs
    ensures AncestorAt(orgs, x, k + 1)
         == if orgs[x].parentId.None? then None else AncestorAt(orgs, orgs[x].parentId.value, k)
  {
    assert RowIndexed(orgs, x);
    assert AncestorAt(orgs, x, 0) == Some(x);
    if k > 0 { AncestorViaParent(orgs, x, k - 1); }
  }

  lemma AncestorAtSelf(orgs: Orgs, x: nat)
    requires x in orgs
    ensures AncestorAt(orgs, x, 0) == Some(x)
  {}

  lemma RowFacts(orgs: Orgs, x: nat)
    requires TreeIndexed(orgs) && x in orgs
    ensures var o := orgs[x];
            && (o.parentId.None? ==> o.rootId == Some(x) && o.depth == 0)
            && (o.parentId.Some? ==> o.parentId.value in orgs)
            && (o.parentId.Some? ==> o.rootId == orgs[o.parentId.value].rootId)
            && (o.parentId.Some? ==> o.depth == orgs[o.parentId.value].depth + 1)
  {
    assert RowIndexed(orgs, x);
  }

  /** `depth` counts the parent steps to the top, and the top is the row's company. */
  lemma {:induction false} DepthAndRootAreRight(orgs: Orgs, x: nat)
    requires TreeIndexed(orgs) && x in orgs
    ensures var top := AncestorAt(orgs, x, orgs[x].depth);
            top.Some? && top == orgs[x].rootId && top.value in orgs && orgs[top.value].parentId == None
    ensures forall k: nat :: k > orgs[x].depth ==> AncestorAt(orgs, x, k) == None
    decreases orgs[x].depth
  {
    hide AncestorAt, TreeIndexed;
    AncestorAtSelf(orgs, x);
    RowFacts(orgs, x);
    if orgs[x].parentId.Some? {
      DepthAndRootAreRight(orgs, orgs[x].parentId.value);
      AncestorViaParent(orgs, x, orgs[x].depth - 1);
    }
    forall k: nat | k > orgs[x].depth ensures AncestorAt(orgs, x, k) == None { AncestorViaParent(orgs, x, k - 1); }
  }

  // ── Paths as strings ─────────────────────────────────────────────────────

  /** Between a prefix and the closing slash there is only a number. */
  lemma NoSlashInside(p: string, n: nat)
    ensures forall i :: |p| <= i < |p| + |Str(n)| ==> (p + Str(n) + "/")[i] != '/'
  {
    StrHasDigitsOnly(n);
    forall i | |p| <= i < |p| + |Str(n)| ensures (p + Str(n) + "/")[i] != '/' {
      assert (p + Str(n) + "/")[i] == Str(n)[i - |p|] && Str(n)[i - |p|] in Str(n);
    }
  }

  /** A prefix of p + n + "/" that ends in a slash is a prefix of p or the whole string. */
  lemma PrefixSkipsAComponent(s: string, p: string, n: nat)
    requires s != [] && s[|s| - 1] == '/'
    requires s <= p + Str(n) + "/"
    ensures s <= p || s == p + Str(n) + "/"
  {
    NoSlashInside(p, n);
    assert (p + Str(n) + "/")[|s| - 1] == '/';
  }

  /** The last component of a path is determined by the path. */
  lemma LastComponent(p: string, m: nat, q: string, n: nat)
    requires p != [] && p[|p| - 1] == '/' && q != [] && q[|q| - 1] == '/'
    requires p + Str(m) + "/" == q + Str(n) + "/"
    ensures p == q && m == n
  {
    var s := p + Str(m) + "/";
    NoSlashInside(p, m);
    NoSlashInside(q, n);
    assert s[|p| - 1] == p[|p| - 1] && s[|q| - 1] == q[|q| - 1];
    assert p == s[..|p|] && q == s[..|q|];
    assert Str(m) == s[|p|..|s| - 1] && Str(n) == s[|q|..|s| - 1];
    StrInjective(m, n);
  }

  /** What the row's own component is appended to. */
  ghost function Stem(orgs: Orgs, x: nat): string
    requires TreeIndexed(orgs) && x in orgs
  {
    assert RowIndexed(orgs, x);
    if orgs[x].parentId.None? then "/" else orgs[orgs[x].parentId.value].path.value
  }

  lemma PathShape(orgs: Orgs, x: nat)
    requires TreeIndexed(orgs) && x in orgs
    ensures orgs[x].path == Some(Stem(orgs, x) + Str(x) + "/")
    ensures Stem(orgs, x) != [] && Stem(orgs, x)[|Stem(orgs, x)| - 1] == '/'
  {
    assert RowIndexed(orgs, x);
    if orgs[x].parentId.Some? { assert RowIndexed(orgs, orgs[x].parentId.value); }
  }

  /** No two nodes have the same path. */
  lemma PathsAreDistinct(orgs: Orgs, a: nat, x: nat)
    requires TreeIndexed(orgs) && a in orgs && x in orgs
    requires orgs[a].path == orgs[x].path
    ensures a == x
  {
    PathShape(orgs, a);
    PathShape(orgs, x);
    LastComponent(Stem(orgs, a), a, Stem(orgs, x), x);
  }

  lemma ParentPathIsPrefix(orgs: Orgs, x: nat)
    requires TreeIndexed(orgs) && x in orgs
    ensures orgs[x].path.Some?
    ensures orgs[x].parentId.Some? ==>
      var p := orgs[x].parentId.value;
      p in orgs && orgs[p].path.Some? && orgs[p].path.value <= orgs[x].path.value
  {
    hide Str;
    assert RowIndexed(orgs, x);
  }

  lemma PrefixTrans(a: string, b: string, c: string)
    requires a <= b <= c
    ensures a <= c
  {}

  lemma {:induction false} AncestorPathIsPrefix(orgs: Orgs, a: nat, x: nat, k: nat)
    requires TreeIndexed(orgs) && a in orgs && x in orgs
    requires AncestorAt(orgs, x, k) == Some(a)
    ensures orgs[a].path.Some? && orgs[x].path.Some? && orgs[a].path.value <= orgs[x].path.value
    decreases k
  {
    hide AncestorAt, TreeIndexed;
    ParentPathIsPrefix(orgs, x);
    AncestorAtSelf(orgs, x);
    if k > 0 {
      AncestorViaParent(orgs, x, k - 1);
      var p := orgs[x].parentId.value;
      AncestorPathIsPrefix(orgs, a, p, k - 1);
      PrefixTrans(orgs[a].path.value, orgs[p].path.value, orgs[x].path.value);
    }
  }

  lemma {:induction false} PrefixIsAncestor(orgs: Orgs, a: nat, x: nat)
    requires TreeIndexed(orgs) && a in orgs && x in orgs
    requires orgs[a].path.Some? && orgs[x].path.Some? && orgs[a].path.value <= orgs[x].path.value
    ensures AncestorOrSelf(orgs, a, x)
    decreases orgs[x].depth
  {
    hide AncestorAt;
    AncestorAtSelf(orgs, x);
    PathShape(orgs, a);
    PathShape(orgs, x);
    assert RowIndexed(orgs, x);
    PrefixSkipsAComponent(orgs[a].path.value, Stem(orgs, x), x);
    if orgs[a].path == orgs[x].path {
      PathsAreDistinct(orgs, a, x);
      assert AncestorAt(orgs, x, 0) == Some(a);
    } else if orgs[x].parentId.Some? {
      var p := orgs[x].parentId.value;
      PrefixIsAncestor(orgs, a, p);
      var k: nat :| AncestorAt(orgs, p, k) == Some(a);
      AncestorViaParent(orgs, x, k);
    }
  }

  /** The index is exact: in an indexed tree the sub-tree of a is the set of rows whose
      path begins with a's path. */
  lemma PathIndexIsExact(orgs: Orgs, a: nat, x: nat)
    requires TreeIndexed(orgs) && a in orgs && x in orgs
    ensures orgs[a].path.Some? && orgs[x].path.Some?
    ensures orgs[a].path.value <= orgs[x].path.value <==> AncestorOrSelf(orgs, a, x)
  {
    PathShape(orgs, a);
    PathShape(orgs, x);
    if orgs[a].path.value <= orgs[x].path.value { PrefixIsAncestor(orgs, a, x); }
    if k: nat :| AncestorAt(orgs, x, k) == Some(a) { AncestorPathIsPrefix(orgs, a, x, k); }
  }
}
