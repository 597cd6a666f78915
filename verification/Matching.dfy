/**
 * Greedy assignment of faces to tracks (backend/app/engine/face_tracker.py, lines 98-126):
 * candidates sorted by falling overlap, each taken unless its face or its track is taken.
 */
module Matching {

  datatype Candidate = Candidate(face: nat, track: int, iou: real)

  // ── list.sort(key=…, reverse=True) ───────────────────────────────────────

  /** Places c after every element of at least its weight, so that equals keep their order. */
  function Insert(sorted: seq<Candidate>, c: Candidate): seq<Candidate> {
    if sorted == [] || sorted[|sorted| - 1].iou >= c.iou then sorted + [c]
    else Insert(sorted[..|sorted| - 1], c) + [sorted[|sorted| - 1]]
  }

  function SortDescending(s: seq<Candidate>): seq<Candidate> {
    if s == [] then [] else Insert(SortDescending(s[..|s| - 1]), s[|s| - 1])
  }

  ghost predicate Descending(s: seq<Candidate>) {
    forall i, j :: 0 <= i < j < |s| ==> s[i].iou >= s[j].iou
  }

  /** The candidates of one weight, in order. */
  ghost function OfWeight(s: seq<Candidate>, w: real): seq<Candidate> {
    if s == [] then []
    else OfWeight(s[..|s| - 1], w) + if s[|s| - 1].iou == w then [s[|s| - 1]] else []
  }

  lemma InsertStep(init: seq<Candidate>, last: Candidate, c: Candidate)
    ensures Insert(init + [last], c) == if last.iou >= c.iou then init + [last] + [c] else Insert(init, c) + [last]
    ensures Insert([], c) == [c]
  {
    assert (init + [last])[..|init|] == init;
  }

  lemma {:induction false} InsertOrders(sorted: seq<Candidate>, c: Candidate)
    requires Descending(sorted)
    ensures Descending(Insert(sorted, c))
    ensures multiset(Insert(sorted, c)) == multiset(sorted) + multiset{c}
  {
    hide Insert;
    InsertStep([], c, c);
    if sorted != [] {
      var init, last := sorted[..|sorted| - 1], sorted[|sorted| - 1];
      assert sorted == init + [last];
      InsertStep(init, last, c);
      InsertOrders(init, c);
      var r := Insert(init, c);
      forall i | 0 <= i < |r| ensures c.iou > last.iou ==> r[i].iou >= last.iou {
        assert r[i] in multiset(r);
        assert r[i] in init || r[i] == c;
      }
    }
  }

  lemma {:induction false} InsertIsStable(sorted: seq<Candidate>, c: Candidate, w: real)
    requires Descending(sorted)
    ensures OfWeight(Insert(sorted, c), w) == OfWeight(sorted, w) + if c.iou == w then [c] else []
  {
    hide Insert, OfWeight;
    InsertStep([], c, c);
    OfWeightAppend(sorted, c, w);
    if sorted == [] {
      assert [] + [c] == [c];
    } else if sorted[|sorted| - 1].iou < c.iou {
      var init, last := sorted[..|sorted| - 1], sorted[|sorted| - 1];
      assert sorted == init + [last];
      InsertStep(init, last, c);
      InsertIsStable(init, c, w);
      OfWeightAppend(init, last, w);
      OfWeightAppend(Insert(init, c), last, w);
    } else {
      InsertStep(sorted[..|sorted| - 1], sorted[|sorted| - 1], c);
      assert sorted == sorted[..|sorted| - 1] + [sorted[|sorted| - 1]];
    }
  }

  lemma OfWeightAppend(s: seq<Candidate>, c: Candidate, w: real)
    ensures OfWeight(s + [c], w) == OfWeight(s, w) + if c.iou == w then [c] else []
  {
    assert (s + [c])[..|s|] == s;
  }

  /** The sort rearranges, orders, and is stable: of equal weights none overtakes another. */
  lemma {:induction false} SortIsStable(s: seq<Candidate>, w: real)
    ensures Descending(SortDescending(s))
    ensures multiset(SortDescending(s)) == multiset(s)
    ensures OfWeight(SortDescending(s), w) == OfWeight(s, w)
  {
    hide Insert, OfWeight;
    if s != [] {
      var init, last := s[..|s| - 1], s[|s| - 1];
      SortIsStable(init, w);
      assert s == init + [last];
      InsertOrders(SortDescending(init), last);
      InsertIsStable(SortDescending(init), last, w);
      OfWeightAppend(init, last, w);
    } else {
      NothingWeighs(w);
    }
  }

  lemma NothingWeighs(w: real)
    ensures OfWeight([], w) == []
  {}

  lemma SortKeepsMembers(s: seq<Candidate>, c: Candidate)
    ensures c in SortDescending(s) <==> c in s
  {
    SortIsStable(s, 0.0);
    assert c in SortDescending(s) <==> c in multiset(SortDescending(s));
  }

  // ── The greedy pass ──────────────────────────────────────────────────────

  ghost predicate Clashes(a: Candidate, b: Candidate) {
    a.face == b.face || a.track == b.track
  }

  function Faces(s: seq<Candidate>): set<nat> {
    set c | c in s :: c.face
  }

  function Tracks(s: seq<Candidate>): set<int> {
    set c | c in s :: c.track
  }

  /** The pairs taken from `queue` when the pairs in `taken` were taken before. */
  function Greedy(queue: seq<Candidate>, taken: seq<Candidate>): seq<Candidate> {
    if queue == [] then []
    else if queue[0].face in Faces(taken) || queue[0].track in Tracks(taken) then Greedy(queue[1..], taken)
    else [queue[0]] + Greedy(queue[1..], taken + [queue[0]])
  }

  /** The assignment `update` makes from its candidate list. */
  function Assign(candidates: seq<Candidate>): seq<Candidate> {
    Greedy(SortDescending(candidates), [])
  }

  ghost predicate IsMatching(s: seq<Candidate>) {
    forall i, j :: 0 <= i < j < |s| ==> !Clashes(s[i], s[j])
  }

  function Total(s: seq<Candidate>): real {
    if s == [] then 0.0 else s[0].iou + Total(s[1..])
  }

  lemma {:induction false} GreedyIsMatching(queue: seq<Candidate>, taken: seq<Candidate>)
    requires IsMatching(taken)
    ensures IsMatching(taken + Greedy(queue, taken))
    ensures forall c :: c in Greedy(queue, taken) ==> c in queue
    decreases |queue|
  {
    if queue != [] {
      var head := queue[0];
      if head.face in Faces(taken) || head.track in Tracks(taken) {
        GreedyIsMatching(queue[1..], taken);
      } else {
        forall t | t in taken ensures !Clashes(t, head) {
          assert t.face in Faces(taken) && t.track in Tracks(taken);
        }
        GreedyIsMatching(queue[1..], taken + [head]);
        assert taken + Greedy(queue, taken) == taken + [head] + Greedy(queue[1..], taken + [head]);
      }
    }
  }

  /** Every candidate left out clashes with a taken one at least as heavy. */
  lemma {:induction false} GreedyLeavesNoBlockingPair(queue: seq<Candidate>, taken: seq<Candidate>, c: Candidate)
    requires Descending(queue)
    requires forall t, q :: t in taken && q in queue ==> t.iou >= q.iou
    requires c in queue
    ensures exists g :: g in taken + Greedy(queue, taken) && Clashes(g, c) && g.iou >= c.iou
    decreases |queue|
  {
    var head := queue[0];
    if head.face in Faces(taken) || head.track in Tracks(taken) {
      if c == head {
        var t :| t in taken && Clashes(t, head);
      } else {
        GreedyLeavesNoBlockingPair(queue[1..], taken, c);
      }
    } else {
      var rest := Greedy(queue[1..], taken + [head]);
      assert taken + Greedy(queue, taken) == taken + [head] + rest;
      if c == head {
        assert head in taken + [head] + rest;
      } else {
        GreedyLeavesNoBlockingPair(queue[1..], taken + [head], c);
      }
    }
  }

  // ── Half of the best ─────────────────────────────────────────────────────

  /** m without the pairs that use a face of `c`'s, or its track. */
  function Without(m: seq<Candidate>, c: Candidate): seq<Candidate> {
    if m == [] then []
    else (if m[0].face == c.face || m[0].track == c.track then [] else [m[0]]) + Without(m[1..], c)
  }

  lemma {:induction false} WithoutMembers(m: seq<Candidate>, c: Candidate, x: Candidate)
    ensures x in Without(m, c) <==> x in m && !Clashes(x, c)
  {
    if m != [] {
      WithoutMembers(m[1..], c, x);
      assert m == [m[0]] + m[1..];
    }
  }

  lemma {:induction false} WithoutIsMatching(m: seq<Candidate>, c: Candidate)
    requires IsMatching(m)
    ensures IsMatching(Without(m, c))
  {
    if m != [] {
      WithoutIsMatching(m[1..], c);
      forall x | x in Without(m[1..], c) ensures !Clashes(m[0], x) {
        WithoutMembers(m[1..], c, x);
        var i :| 0 <= i < |m[1..]| && m[1..][i] == x;
        assert !Clashes(m[0], m[i + 1]);
      }
    }
  }

  /** A matching uses c's face at most once and c's track at most once, so dropping the
      pairs that clash with c costs at most twice its weight. */
  lemma {:induction false} WithoutCost(m: seq<Candidate>, c: Candidate)
    requires IsMatching(m) && c.iou >= 0.0
    requires forall x :: x in m ==> x.iou <= c.iou
    ensures Total(m) <= Total(Without(m, c)) + 2.0 * c.iou
    ensures (forall x :: x in m ==> x.face != c.face) || (forall x :: x in m ==> x.track != c.track)
            ==> Total(m) <= Total(Without(m, c)) + c.iou
    ensures (forall x :: x in m ==> !Clashes(x, c)) ==> Total(m) == Total(Without(m, c))
  {
    if m != [] {
      var head, tail := m[0], m[1..];
      assert head in m;
      forall x | x in tail ensures x in m && !Clashes(head, x) {
        var i :| 0 <= i < |tail| && tail[i] == x;
        assert m[i + 1] == x && !Clashes(m[0], m[i + 1]);
      }
      assert IsMatching(tail);
      WithoutCost(tail, c);
      assert Total(m) == head.iou + Total(tail);
      if Clashes(head, c) {
        assert Without(m, c) == Without(tail, c);
        if head.face == c.face { assert forall x :: x in tail ==> x.face != c.face; }
        if head.track == c.track { assert forall x :: x in tail ==> x.track != c.track; }
      } else {
        assert Without(m, c) == [head] + Without(tail, c);
        assert Total(Without(m, c)) == head.iou + Total(Without(tail, c));
      }
    }
  }

  lemma FirstIsMember(m: seq<Candidate>)
    requires m != []
    ensures m[0] in m
  {}

  lemma {:induction false} GreedyIsHalfOptimal(queue: seq<Candidate>, taken: seq<Candidate>, m: seq<Candidate>)
    requires Descending(queue) && forall c :: c in queue ==> c.iou >= 0.0
    requires IsMatching(m) && forall c :: c in m ==> c in queue
    requires forall c :: c in m ==> c.face !in Faces(taken) && c.track !in Tracks(taken)
    ensures Total(m) <= 2.0 * Total(Greedy(queue, taken))
    decreases |queue|
  {
    if queue == [] {
      if m != [] { FirstIsMember(m); assert false; }
    } else {
      var head, rest := queue[0], queue[1..];
      assert queue == [head] + rest && Descending(rest);
      if head.face in Faces(taken) || head.track in Tracks(taken) {
        GreedyIsHalfOptimal(rest, taken, m);
      } else {
        var m' := Without(m, head);
        WithoutIsMatching(m, head);
        WithoutCost(m, head);
        forall x | x in m'
          ensures x in rest && x.face !in Faces(taken + [head]) && x.track !in Tracks(taken + [head])
        {
          WithoutMembers(m, head, x);
        }
        GreedyIsHalfOptimal(rest, taken + [head], m');
        var g := Greedy(rest, taken + [head]);
        assert Greedy(queue, taken) == [head] + g && ([head] + g)[1..] == g;
      }
    }
  }

  /** The assignment: a matching of the candidates, with no blocking pair, and at least half
      as heavy in total as any other matching of them. */
  lemma AssignmentIsStableAndHalfOptimal(candidates: seq<Candidate>, other: seq<Candidate>)
    requires forall c :: c in candidates ==> c.iou >= 0.0
    requires IsMatching(other) && forall c :: c in other ==> c in candidates
    ensures IsMatching(Assign(candidates)) && forall g :: g in Assign(candidates) ==> g in candidates
    ensures forall c :: c in candidates ==> exists g :: g in Assign(candidates) && Clashes(g, c) && g.iou >= c.iou
    ensures Total(other) <= 2.0 * Total(Assign(candidates))
  {
    hide SortDescending, Greedy, Total, IsMatching, Descending;
    var queue := SortDescending(candidates);
    SortIsStable(candidates, 0.0);
    forall c ensures c in queue <==> c in candidates { SortKeepsMembers(candidates, c); }
    NothingTaken();
    GreedyIsMatching(queue, []);
    assert [] + Assign(candidates) == Assign(candidates);
    forall c | c in candidates
      ensures exists g :: g in Assign(candidates) && Clashes(g, c) && g.iou >= c.iou
    {
      GreedyLeavesNoBlockingPair(queue, [], c);
    }
    GreedyIsHalfOptimal(queue, [], other);
  }

  lemma NothingTaken()
    ensures IsMatching([])
  {}
}
