/**
 * Which of several equal overlaps the face tracker prefers, and when it asks for a face to be recognized again
 * (backend/app/engine/face_tracker.py).
 */
module TrackerOutcomes {
  import opened Wrappers
  import opened Matching
  import opened FaceTracker
  import opened TrackerRuns

  // ── Which pairs are matched, exactly ─────────────────────────────────────

  /** The order of the double loop. */
  ghost predicate Earlier(a: Candidate, b: Candidate) {
    a.face < b.face || (a.face == b.face && a.track < b.track)
  }

  /** The order in which the greedy pass comes to the candidates: by overlap, equals as the double loop found them. */
  ghost predicate Precedes(a: Candidate, b: Candidate) {
    a.iou > b.iou || (a.iou == b.iou && Earlier(a, b))
  }

  ghost predicate InLoopOrder(s: seq<Candidate>) {
    forall i, j :: 0 <= i < j < |s| ==> Earlier(s[i], s[j])
  }

  ghost predicate InQueueOrder(s: seq<Candidate>) {
    forall i, j :: 0 <= i < j < |s| ==> Precedes(s[i], s[j])
  }

  ghost predicate Ascending(keys: seq<int>) {
    forall i, j :: 0 <= i < j < |keys| ==> keys[i] < keys[j]
  }

  lemma {:induction false} KeysAscend<T>(m: map<int, T>, n: nat)
    ensures Ascending(KeysUpTo(m, n))
  {
    if n > 0 {
      var keys := KeysUpTo(m, n - 1);
      KeysAscend(m, n - 1);
      forall i | 0 <= i < |keys| ensures keys[i] < n { assert keys[i] in keys; }
    }
  }

  lemma {:induction false} FaceInOrder(fi: nat, face: Box, table: Table, keys: seq<int>, cfg: TrackingConfig)
    requires Ascending(keys) && forall k :: k in keys ==> k in table
    ensures var s := CandidatesOfFace(fi, face, table, keys, cfg);
            InLoopOrder(s) && forall i :: 0 <= i < |s| ==> s[i].face == fi && s[i].track in keys
  {
    if keys != [] {
      var init, last := keys[..|keys| - 1], keys[|keys| - 1];
      FaceInOrder(fi, face, table, init, cfg);
      assert keys == init + [last];
      forall k | k in init ensures k < last { var i :| 0 <= i < |init| && init[i] == k; assert keys[i] < keys[|init|]; }
    }
  }

  lemma {:induction false} AllInOrder(faces: seq<Box>, table: Table, keys: seq<int>, cfg: TrackingConfig)
    requires Ascending(keys) && forall k :: k in keys ==> k in table
    ensures var s := CandidatesOf(faces, table, keys, cfg);
            InLoopOrder(s) && forall i :: 0 <= i < |s| ==> s[i].face < |faces|
  {
    hide CandidatesOfFace;
    if faces != [] {
      var n := |faces| - 1;
      AllInOrder(faces[..n], table, keys, cfg);
      FaceInOrder(n, faces[n], table, keys, cfg);
    }
  }

  lemma {:induction false} InsertInOrder(sorted: seq<Candidate>, c: Candidate)
    requires InQueueOrder(sorted) && forall x :: x in sorted ==> Earlier(x, c)
    ensures InQueueOrder(Insert(sorted, c))
    ensures forall x :: x in Insert(sorted, c) ==> x in sorted || x == c
  {
    hide Insert;
    InsertStep([], c, c);
    if sorted != [] {
      var init, last := sorted[..|sorted| - 1], sorted[|sorted| - 1];
      assert sorted == init + [last];
      InsertStep(init, last, c);
      InsertInOrder(init, c);
      if last.iou < c.iou {
        forall x | x in Insert(init, c) ensures Precedes(x, last) {
          if x in init { var i :| 0 <= i < |init| && init[i] == x; assert Precedes(sorted[i], sorted[|init|]); }
        }
      } else {
        forall i | 0 <= i < |sorted| ensures Precedes(sorted[i], c) {
          assert sorted[i] in sorted;
          if i < |init| { assert Precedes(sorted[i], sorted[|init|]); }
        }
      }
    }
  }

  lemma {:induction false} SortInOrder(s: seq<Candidate>)
    requires InLoopOrder(s)
    ensures InQueueOrder(SortDescending(s))
  {
    hide Insert;
    if s != [] {
      var init, last := s[..|s| - 1], s[|s| - 1];
      SortInOrder(init);
      forall x | x in SortDescending(init) ensures Earlier(x, last) {
        SortKeepsMembers(init, x);
        var i :| 0 <= i < |init| && init[i] == x;
        assert Earlier(s[i], s[|s| - 1]);
      }
      InsertInOrder(SortDescending(init), last);
    }
  }

  /** What the pass leaves out clashes with something taken before it came to it. */
  lemma {:induction false} GreedyPrefers(queue: seq<Candidate>, taken: seq<Candidate>, c: Candidate)
    requires InQueueOrder(queue) && c in queue
    ensures var chosen := Greedy(queue, taken);
            || c in chosen
            || (exists t :: t in taken && Clashes(t, c))
            || (exists g :: g in chosen && Clashes(g, c) && Precedes(g, c))
    decreases |queue|
  {
    var head, rest := queue[0], queue[1..];
    if head.face in Faces(taken) || head.track in Tracks(taken) {
      if c == head {
        var t :| t in taken && Clashes(t, head);
      } else {
        GreedyPrefers(rest, taken, c);
      }
    } else if c != head {
      assert c in rest;
      GreedyPrefers(rest, taken + [head], c);
      var i :| 0 <= i < |rest| && rest[i] == c;
      assert Precedes(queue[0], queue[i + 1]);
      if t :| t in taken + [head] && Clashes(t, c) && t !in taken { assert t == head; }
    }
  }

  /**
   * Of an update's candidates exactly those are matched that clash with no matched one of larger overlap, or of equal
   * overlap and an earlier face, or, for the same face, an older track.
   */
  lemma MatchedExactly(table: Table, nextId: nat, faces: seq<Box>, now: real, cfg: TrackingConfig, c: Candidate)
    requires c in UpdateCandidates(table, nextId, faces, now, cfg)
    ensures var chosen := UpdatePairs(table, nextId, faces, now, cfg);
            c in chosen <==> forall g :: g in chosen && Clashes(g, c) ==> !Precedes(g, c)
  {
    hide CandidatesOf, KeysUpTo, SortDescending, Greedy;
    var kept := Pruned(table, now, cfg);
    var keys := KeysUpTo(kept, nextId);
    var candidates := CandidatesOf(faces, kept, keys, cfg);
    var queue, chosen := SortDescending(candidates), UpdatePairs(table, nextId, faces, now, cfg);
    KeysAscend(kept, nextId);
    AllInOrder(faces, kept, keys, cfg);
    SortInOrder(candidates);
    SortKeepsMembers(candidates, c);
    GreedyPrefers(queue, [], c);
    MatchingOf(table, nextId, faces, now, cfg);
    if c in chosen {
      forall g | g in chosen && Clashes(g, c) ensures !Precedes(g, c) { OneOfAKind(chosen, g, c); }
    }
  }

  lemma OneOfAKind(s: seq<Candidate>, a: Candidate, b: Candidate)
    requires IsMatching(s) && a in s && b in s && Clashes(a, b)
    ensures a == b
  {
    var i :| 0 <= i < |s| && s[i] == a;
    var j :| 0 <= j < |s| && s[j] == b;
    assert Clashes(s[i], s[j]) && Clashes(s[j], s[i]);
  }

  // ── Where a track is after an update ─────────────────────────────────────

  lemma {:induction false} GrownAt(table: Table, nextId: nat, taken: set<nat>, faces: seq<Box>, n: nat, cameraId: int,
                                   now: real, cfg: TrackingConfig, i: nat)
    requires n <= |faces| && i < |Grown(table, nextId, taken, faces, n, cameraId, now, cfg).results|
    ensures var g := Grown(table, nextId, taken, faces, n, cameraId, now, cfg);
            var r := g.results[i];
            r.trackId in g.table && r.face < |faces| && r.isNewTrack
            && g.table[r.trackId] == NewTrack(r.trackId, cameraId, faces[r.face], now)
  {
    hide Grown;
    GrownStep(table, nextId, taken, faces, n, cameraId, now, cfg);
    if n > 0 {
      var was := Grown(table, nextId, taken, faces, n - 1, cameraId, now, cfg);
      GrownNext(table, nextId, taken, faces, n - 1, cameraId, now, cfg);
      if i < |was.results| { GrownAt(table, nextId, taken, faces, n - 1, cameraId, now, cfg, i); }
    }
  }

  /** A reported track sits on its face, seen now, with no frame lost, or one if it has only just been created. */
  lemma ReportedTrackIsOnItsFace(table: Table, nextId: nat, cameraId: int, faces: seq<Box>, now: real, clock: real,
                                 cfg: TrackingConfig, r: TrackingResult)
    requires IdsIssued(table, nextId) && r in Updated(table, nextId, cameraId, faces, now, clock, cfg).results
    ensures var u := Updated(table, nextId, cameraId, faces, now, clock, cfg);
            && r.trackId in u.table && r.face < |faces|
            && u.table[r.trackId].bbox == faces[r.face] && u.table[r.trackId].lastSeen == now
            && u.table[r.trackId].lostFrames == if r.isNewTrack then 1 else 0
  {
    hide UpdatePairs, MatchedResults, Grown, MatchedTable;
    var kept := Pruned(table, now, cfg);
    var chosen := UpdatePairs(table, nextId, faces, now, cfg);
    var matched := MatchedResults(kept, chosen, faces, now, clock, cfg);
    var after := MatchedTable(kept, chosen, faces, now);
    var g := Grown(after, nextId, Faces(chosen), faces, |faces|, cameraId, now, cfg);
    FewerIssued(table, kept, nextId);
    FewerIssued(kept, after, nextId);
    GrownTable(after, nextId, Faces(chosen), faces, |faces|, cameraId, now, cfg);
    GrownNext(after, nextId, Faces(chosen), faces, |faces|, cameraId, now, cfg);
    MatchedFacesInOrder(kept, chosen, faces, now, clock, cfg);
    assert r in matched + g.results;
    if r in matched {
      var i :| 0 <= i < |matched| && matched[i] == r;
      MatchingOf(table, nextId, faces, now, cfg);
      MatchedTrack(kept, chosen, faces, now, i);
      MatchedTrackIds(kept, chosen, faces, now, clock, cfg, r);
    } else {
      var i :| 0 <= i < |g.results| && g.results[i] == r;
      GrownAt(after, nextId, Faces(chosen), faces, |faces|, cameraId, now, cfg, i);
      forall c | c in chosen ensures c.track != r.trackId { assert c.track in kept.Keys; }
    }
  }

  /** A track that is not reported stays where it was and has lost one more frame. */
  lemma UnreportedTrackStays(table: Table, nextId: nat, cameraId: int, faces: seq<Box>, now: real, clock: real,
                             cfg: TrackingConfig, k: int)
    requires IdsIssued(table, nextId) && k in Updated(table, nextId, cameraId, faces, now, clock, cfg).table
    requires forall r :: r in Updated(table, nextId, cameraId, faces, now, clock, cfg).results ==> r.trackId != k
    ensures k in table
    ensures Updated(table, nextId, cameraId, faces, now, clock, cfg).table[k]
         == table[k].(lostFrames := table[k].lostFrames + 1)
  {
    hide UpdatePairs, MatchedResults, Grown, MatchedTable;
    var kept := Pruned(table, now, cfg);
    var chosen := UpdatePairs(table, nextId, faces, now, cfg);
    var matched := MatchedResults(kept, chosen, faces, now, clock, cfg);
    var after := MatchedTable(kept, chosen, faces, now);
    var g := Grown(after, nextId, Faces(chosen), faces, |faces|, cameraId, now, cfg);
    FewerIssued(table, kept, nextId);
    FewerIssued(kept, after, nextId);
    MatchedFacesInOrder(kept, chosen, faces, now, clock, cfg);
    GrownOnlyReported(after, nextId, Faces(chosen), faces, |faces|, cameraId, now, cfg, k);
    forall i | 0 <= i < |chosen| ensures chosen[i].track != k { assert matched[i] in matched + g.results; }
    forall i | 0 <= i < |g.results| ensures g.results[i].trackId != k { assert g.results[i] in matched + g.results; }
    assert k in after.Keys && k in kept;
    UnmatchedTrack(kept, chosen, faces, now, k);
    forall c | c in chosen ensures c.track != k { var i :| 0 <= i < |chosen| && chosen[i] == c; }
  }

  /** Growth adds no track but those it reports. */
  lemma {:induction false} GrownOnlyReported(table: Table, nextId: nat, taken: set<nat>, faces: seq<Box>, n: nat,
                                             cameraId: int, now: real, cfg: TrackingConfig, k: int)
    requires n <= |faces|
    ensures var g := Grown(table, nextId, taken, faces, n, cameraId, now, cfg);
            k in g.table && (forall i :: 0 <= i < |g.results| ==> g.results[i].trackId != k)
            ==> k in table && g.table[k] == table[k]
  {
    hide Grown;
    GrownStep(table, nextId, taken, faces, n, cameraId, now, cfg);
    if n > 0 {
      GrownOnlyReported(table, nextId, taken, faces, n - 1, cameraId, now, cfg, k);
      var was := Grown(table, nextId, taken, faces, n - 1, cameraId, now, cfg);
      var g := Grown(table, nextId, taken, faces, n, cameraId, now, cfg);
      if g != was {
        assert g.results[|was.results|].trackId == was.nextId + 1;
        forall i | 0 <= i < |was.results| ensures was.results[i] == g.results[i] {}
      }
    }
  }

  // ── When a face is due for recognition ───────────────────────────────────

  /** The last time the tracker was told who, if anyone, track k of camera c is. */
  ghost function LastMark(ops: seq<Op>, cfg: TrackingConfig, c: int, k: int): (m: Option<Op>)
    ensures m.Some? ==> m.value.MarkOp?
  {
    if ops == [] then None
    else
      var init, last := ops[..|ops| - 1], ops[|ops| - 1];
      if last.MarkOp? && last.cameraId == c && last.trackId == k && k in After(init, cfg).TableOf(c) then Some(last)
      else LastMark(init, cfg, c, k)
  }

  /** The track knows what it was last told. */
  ghost predicate Remembers(t: Track, m: Option<Op>) {
    match m
    case None => t.lastRecognizedAt == 0.0 && t.employeeId == None && !t.isUnknown
    case Some(op) =>
      && op.MarkOp? && t.lastRecognizedAt == op.now && t.employeeId == op.employeeId
      && t.isUnknown == op.employeeId.None?
  }

  ghost predicate SameMarks(t: Track, u: Track) {
    t.lastRecognizedAt == u.lastRecognizedAt && t.employeeId == u.employeeId && t.isUnknown == u.isUnknown
  }

  lemma GrownMarks(table: Table, nextId: nat, taken: set<nat>, faces: seq<Box>, n: nat, cameraId: int, now: real,
                   cfg: TrackingConfig)
    requires n <= |faces| && IdsIssued(table, nextId)
    ensures var g := Grown(table, nextId, taken, faces, n, cameraId, now, cfg);
            && (forall k :: k in table ==> k in g.table && g.table[k] == table[k])
            && (forall k :: k in g.table && k !in table ==> nextId < k && Remembers(g.table[k], None))
  {
    hide Grown, IdsIssued;
    var g := Grown(table, nextId, taken, faces, n, cameraId, now, cfg);
    GrownTable(table, nextId, taken, faces, n, cameraId, now, cfg);
    forall k | k in g.table && k !in table ensures Remembers(g.table[k], None) {
      GrownOnlyReported(table, nextId, taken, faces, n, cameraId, now, cfg, k);
      var i :| 0 <= i < |g.results| && g.results[i].trackId == k;
      GrownAt(table, nextId, taken, faces, n, cameraId, now, cfg, i);
    }
  }

  lemma {:induction false} MatchedMarks(table: Table, chosen: seq<Candidate>, faces: seq<Box>, now: real, k: int)
    requires PairsKnown(chosen, faces, table) && k in table
    ensures SameMarks(MatchedTable(table, chosen, faces, now)[k], table[k])
  {
    if chosen != [] {
      assert chosen[|chosen| - 1] in chosen;
      MatchedMarks(table, chosen[..|chosen| - 1], faces, now, k);
    }
  }

  lemma UpdateKeepsMarks(table: Table, nextId: nat, cameraId: int, faces: seq<Box>, now: real, clock: real,
                         cfg: TrackingConfig, k: int)
    requires IdsIssued(table, nextId)
    requires k in Updated(table, nextId, cameraId, faces, now, clock, cfg).table
    ensures var t := Updated(table, nextId, cameraId, faces, now, clock, cfg).table[k];
            if k <= nextId then k in table && SameMarks(t, table[k]) else Remembers(t, None)
  {
    hide UpdatePairs, MatchedResults, Grown, MatchedTable;
    var kept := Pruned(table, now, cfg);
    var chosen := UpdatePairs(table, nextId, faces, now, cfg);
    var after := MatchedTable(kept, chosen, faces, now);
    FewerIssued(table, kept, nextId);
    FewerIssued(kept, after, nextId);
    GrownMarks(after, nextId, Faces(chosen), faces, |faces|, cameraId, now, cfg);
    if k in after {
      assert k in after.Keys && k in kept;
      MatchedMarks(kept, chosen, faces, now, k);
    }
  }

  lemma {:induction false} MarksAreRemembered(ops: seq<Op>, cfg: TrackingConfig, c: int, k: int)
    ensures var s := After(ops, cfg);
            && (k in s.TableOf(c) ==> Remembers(s.TableOf(c)[k], LastMark(ops, cfg, c, k)))
            && (k > Last(s.last, c) ==> LastMark(ops, cfg, c, k) == None)
  {
    hide Updated;
    if ops != [] {
      var init, last := ops[..|ops| - 1], ops[|ops| - 1];
      MarksAreRemembered(init, cfg, c, k);
      IdsStayIssued(init, cfg, c);
      var was := After(init, cfg);
      if last.UpdateOp? && last.cameraId == c {
        var table, next := was.TableOf(c), Last(was.last, c);
        MatchedWereIssued(table, next, c, last.faces, last.now, last.clock, cfg, k);
        if k in Updated(table, next, c, last.faces, last.now, last.clock, cfg).table {
          UpdateKeepsMarks(table, next, c, last.faces, last.now, last.clock, cfg, k);
        }
      }
    }
  }

  /** Nobody was told lately: not within the cooldown who it is, nor within twice that that nobody knows. */
  ghost predicate LongEnoughAgo(m: Option<Op>, clock: real, cooldown: real)
    requires m.Some? ==> m.value.MarkOp?
  {
    match m
    case None => true
    case Some(op) =>
      || op.now == 0.0
      || (if op.employeeId == None then clock - op.now >= 2.0 * cooldown
          else op.employeeId == Some("") || clock - op.now >= cooldown)
  }

  lemma {:induction false} MatchedResultAt(table: Table, chosen: seq<Candidate>, faces: seq<Box>, now: real,
                                           clock: real, cfg: TrackingConfig, i: nat)
    requires PairsKnown(chosen, faces, table) && IsMatching(chosen) && i < |chosen|
    ensures chosen[i].track in table && chosen[i].face < |faces|
    ensures var results := MatchedResults(table, chosen, faces, now, clock, cfg);
            var t := table[chosen[i].track].Matched(faces[chosen[i].face], now);
            && |results| == |chosen|
            && results[i] == TrackingResult(chosen[i].face, chosen[i].track, false, t.hits,
                                            t.NeedsRecognition(cfg, clock), t.CooldownActive(cfg, clock))
  {
    hide MatchedTable;
    var init := chosen[..|chosen| - 1];
    assert chosen[i] in chosen;
    MatchedFacesInOrder(table, init, faces, now, clock, cfg);
    if i < |init| {
      MatchedResultAt(table, init, faces, now, clock, cfg, i);
    } else {
      MatchedTrack(table, chosen, faces, now, i);
    }
  }

  lemma MatchedResultOf(table: Table, nextId: nat, cameraId: int, faces: seq<Box>, now: real, clock: real,
                        cfg: TrackingConfig, r: TrackingResult)
    requires r in Updated(table, nextId, cameraId, faces, now, clock, cfg).results && !r.isNewTrack
    ensures r.trackId in table
    ensures exists face :: r.trackHits == table[r.trackId].hits + 1
              && (r.needsRecognition <==> table[r.trackId].Matched(face, now).NeedsRecognition(cfg, clock))
              && (r.cooldownActive <==> table[r.trackId].Matched(face, now).CooldownActive(cfg, clock))
  {
    hide UpdatePairs, MatchedResults, Grown, MatchedTable, Aged;
    var kept := Pruned(table, now, cfg);
    var chosen := UpdatePairs(table, nextId, faces, now, cfg);
    var matched := MatchedResults(kept, chosen, faces, now, clock, cfg);
    var after := MatchedTable(kept, chosen, faces, now);
    var grown := Grown(after, nextId, Faces(chosen), faces, |faces|, cameraId, now, cfg).results;
    GrownNext(after, nextId, Faces(chosen), faces, |faces|, cameraId, now, cfg);
    MatchedFacesInOrder(kept, chosen, faces, now, clock, cfg);
    assert r in matched + grown;
    forall g | g in grown ensures g.isNewTrack {
      var j :| 0 <= j < |grown| && grown[j] == g;
    }
    var i :| 0 <= i < |matched| && matched[i] == r;
    MatchingOf(table, nextId, faces, now, cfg);
    MatchedResultAt(kept, chosen, faces, now, clock, cfg, i);
  }

  /**
   * Over every run a matched face is reported as due for recognition exactly if it has been seen often enough and the
   * last word on its track is old enough; and as cooling down exactly if it is not due and somebody was named.
   */
  lemma RecognitionIsDueExactly(ops: seq<Op>, op: Op, cfg: TrackingConfig, r: TrackingResult)
    requires op.UpdateOp? && r in ResultsOf(After(ops, cfg), op, cfg) && !r.isNewTrack
    ensures var m := LastMark(ops, cfg, op.cameraId, r.trackId);
            && r.trackHits == 2 + MatchCount(ops, cfg, op.cameraId, r.trackId)
            && (r.needsRecognition <==> r.trackHits >= cfg.minHits && LongEnoughAgo(m, op.clock, cfg.cooldownSeconds))
            && (r.cooldownActive <==> !r.needsRecognition && m.Some? && m.value.employeeId.Some?)
  {
    hide Updated, After, MatchCount;
    var c, s := op.cameraId, After(ops, cfg);
    MatchedResultOf(s.TableOf(c), Last(s.last, c), c, op.faces, op.now, op.clock, cfg, r);
    MarksAreRemembered(ops, cfg, c, r.trackId);
    HitsCountMatches(ops, cfg, c, r.trackId);
  }
}
