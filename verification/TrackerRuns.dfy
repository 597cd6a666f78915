/**
 * What the face tracker promises about one update and over whole runs, stated on the
 * functions that MultiCameraTracker's methods are proved against.
 */
module TrackerRuns {
  import opened Wrappers
  import opened Sequences
  import opened Matching
  import opened FaceTracker

  // ── One update ───────────────────────────────────────────────────────────

  /** What matching does to one track: nothing, when no pair names it; … */
  lemma {:induction false} UnmatchedTrack(table: Table, chosen: seq<Candidate>, faces: seq<Box>, now: real, k: int)
    requires PairsKnown(chosen, faces, table) && k in table
    requires forall i :: 0 <= i < |chosen| ==> chosen[i].track != k
    ensures MatchedTable(table, chosen, faces, now)[k] == table[k]
  {
    if chosen != [] {
      assert chosen[|chosen| - 1] in chosen;
      UnmatchedTrack(table, chosen[..|chosen| - 1], faces, now, k);
    }
  }

  /** … and otherwise it is refreshed by the one pair that does. */
  lemma {:induction false} MatchedTrack(table: Table, chosen: seq<Candidate>, faces: seq<Box>, now: real, i: nat)
    requires PairsKnown(chosen, faces, table) && IsMatching(chosen) && i < |chosen|
    ensures chosen[i].track in table && chosen[i].face < |faces|
    ensures MatchedTable(table, chosen, faces, now)[chosen[i].track]
         == table[chosen[i].track].Matched(faces[chosen[i].face], now)
  {
    var init, last := chosen[..|chosen| - 1], chosen[|chosen| - 1];
    assert last in chosen && chosen[i] in chosen;
    if i < |init| {
      MatchedTrack(table, init, faces, now, i);
      assert !Clashes(chosen[i], last);
    } else {
      forall j | 0 <= j < |init| ensures init[j].track != last.track { assert !Clashes(chosen[j], last); }
      UnmatchedTrack(table, init, faces, now, last.track);
    }
  }

  lemma {:induction false} MatchedTrackIds(table: Table, chosen: seq<Candidate>, faces: seq<Box>, now: real,
                                           clock: real,
                                           cfg: TrackingConfig, r: TrackingResult)
    requires PairsKnown(chosen, faces, table)
    requires r in MatchedResults(table, chosen, faces, now, clock, cfg)
    ensures !r.isNewTrack && r.trackId in Tracks(chosen) && r.face in Faces(chosen)
  {
    var init, last := chosen[..|chosen| - 1], chosen[|chosen| - 1];
    assert chosen == init + [last] && last in chosen;
    if r in MatchedResults(table, init, faces, now, clock, cfg) {
      MatchedTrackIds(table, init, faces, now, clock, cfg, r);
      var c :| c in init && c.track == r.trackId;
      var d :| d in init && d.face == r.face;
      assert c in chosen && d in chosen;
    }
  }

  /** The faces named by results, in order. */
  function ResultFaces(results: seq<TrackingResult>): seq<nat> {
    seq(|results|, i requires 0 <= i < |results| => results[i].face)
  }

  lemma {:induction false} MatchedFacesInOrder(table: Table, chosen: seq<Candidate>, faces: seq<Box>, now: real,
                                               clock: real,
                                               cfg: TrackingConfig)
    requires PairsKnown(chosen, faces, table)
    ensures var r := MatchedResults(table, chosen, faces, now, clock, cfg);
            && |r| == |chosen|
            && forall i :: 0 <= i < |r| ==> r[i].face == chosen[i].face && r[i].trackId == chosen[i].track
  {
    if chosen != [] { MatchedFacesInOrder(table, chosen[..|chosen| - 1], faces, now, clock, cfg); }
  }

  /** New tracks get the next ids, one each, and enter only while there is room. */
  lemma {:induction false} GrownTable(table: Table, nextId: nat, taken: set<nat>, faces: seq<Box>, n: nat,
                                      cameraId: int,
                                      now: real, cfg: TrackingConfig)
    requires n <= |faces| && IdsIssued(table, nextId)
    ensures var g := Grown(table, nextId, taken, faces, n, cameraId, now, cfg);
            && IdsIssued(g.table, g.nextId)
            && (|table| <= cfg.maxTracks ==> |g.table| <= cfg.maxTracks)
            && (forall k :: k in table ==> k in g.table && g.table[k] == table[k])
            && (forall k :: k in g.table && k !in table ==>
                  nextId < k && g.table[k].hits == 1 && g.table[k].lastSeen == now)
  {
    hide Grown;
    GrownStep(table, nextId, taken, faces, n, cameraId, now, cfg);
    if n > 0 {
      GrownTable(table, nextId, taken, faces, n - 1, cameraId, now, cfg);
      var was := Grown(table, nextId, taken, faces, n - 1, cameraId, now, cfg);
      assert was.nextId + 1 !in was.table;
      GrownNext(table, nextId, taken, faces, n - 1, cameraId, now, cfg);
    }
  }

  lemma {:induction false} GrownNext(table: Table, nextId: nat, taken: set<nat>, faces: seq<Box>, n: nat, cameraId: int,
                                     now: real, cfg: TrackingConfig)
    requires n <= |faces|
    ensures var g := Grown(table, nextId, taken, faces, n, cameraId, now, cfg);
            && g.nextId == nextId + |g.results|
            && forall i :: 0 <= i < |g.results| ==> g.results[i].isNewTrack && g.results[i].trackId == nextId + 1 + i
  {
    hide Grown;
    GrownStep(table, nextId, taken, faces, n, cameraId, now, cfg);
    if n > 0 { GrownNext(table, nextId, taken, faces, n - 1, cameraId, now, cfg); }
  }

  /** Each unmatched face gets at most one new track. */
  lemma {:induction false} GrownFaces(table: Table, nextId: nat, taken: set<nat>, faces: seq<Box>, n: nat,
                                      cameraId: int,
                                      now: real, cfg: TrackingConfig)
    requires n <= |faces|
    ensures var g := Grown(table, nextId, taken, faces, n, cameraId, now, cfg);
            && (forall i :: 0 <= i < |g.results| ==> g.results[i].face < n)
            && (forall i :: 0 <= i < |g.results| ==> g.results[i].face !in taken)
            && (forall i, j :: 0 <= i < j < |g.results| ==> g.results[i].face != g.results[j].face)
  {
    hide Grown;
    GrownStep(table, nextId, taken, faces, n, cameraId, now, cfg);
    if n > 0 { GrownFaces(table, nextId, taken, faces, n - 1, cameraId, now, cfg); }
  }

  ghost predicate Reported(results: seq<TrackingResult>, f: nat) {
    exists i :: 0 <= i < |results| && results[i].face == f
  }

  lemma ReportedMeaning(results: seq<TrackingResult>, f: nat)
    ensures Reported(results, f) <==> f in ResultFaces(results)
  {
    if i :| 0 <= i < |results| && results[i].face == f { assert ResultFaces(results)[i] == f; }
    if f in ResultFaces(results) { var i :| 0 <= i < |results| && ResultFaces(results)[i] == f; }
  }

  /** A face is passed over only when it was matched already or the table was full. */
  lemma {:induction false} GrownRoom(table: Table, nextId: nat, taken: set<nat>, faces: seq<Box>, n: nat, cameraId: int,
                                     now: real, cfg: TrackingConfig, f: nat)
    requires n <= |faces| && IdsIssued(table, nextId) && f < n && f !in taken
    ensures var g := Grown(table, nextId, taken, faces, n, cameraId, now, cfg);
            Reported(g.results, f) || |g.table| >= cfg.maxTracks
  {
    hide Grown;
    GrownStep(table, nextId, taken, faces, n, cameraId, now, cfg);
    var was := Grown(table, nextId, taken, faces, n - 1, cameraId, now, cfg);
    var g := Grown(table, nextId, taken, faces, n, cameraId, now, cfg);
    GrownTable(table, nextId, taken, faces, n - 1, cameraId, now, cfg);
    assert was.nextId + 1 !in was.table;
    if f == n - 1 {
      if |was.table| < cfg.maxTracks { assert g.results[|g.results| - 1].face == f; }
    } else {
      GrownRoom(table, nextId, taken, faces, n - 1, cameraId, now, cfg, f);
      if i :| 0 <= i < |was.results| && was.results[i].face == f { assert g.results[i].face == f; }
    }
  }

  /** The pairs an update matches form the stable, half-optimal assignment of its candidates. */
  lemma PairsAreStableAndHalfOptimal(table: Table, nextId: nat, faces: seq<Box>, now: real, cfg: TrackingConfig,
                                     other: seq<Candidate>)
    requires IsMatching(other)
    requires forall c :: c in other ==> c in UpdateCandidates(table, nextId, faces, now, cfg)
    ensures var chosen := UpdatePairs(table, nextId, faces, now, cfg);
            && IsMatching(chosen)
            && (forall c :: c in UpdateCandidates(table, nextId, faces, now, cfg)
                  ==> exists g :: g in chosen && Clashes(g, c) && g.iou >= c.iou)
            && Total(other) <= 2.0 * Total(chosen)
  {
    hide CandidatesOf, Assign;
    var kept := Pruned(table, now, cfg);
    var candidates := UpdateCandidates(table, nextId, faces, now, cfg);
    forall c | c in candidates ensures c.iou >= 0.0 {
      CandidatesMeaning(faces, kept, KeysUpTo(kept, nextId), cfg, c);
      IouInUnitInterval(faces[c.face], kept[c.track].bbox);
    }
    AssignmentIsStableAndHalfOptimal(candidates, other);
  }

  /** The candidates are the pairs of a face and a track young enough whose overlap passes. */
  lemma CandidatesAreAllPairs(table: Table, nextId: nat, faces: seq<Box>, now: real, cfg: TrackingConfig, c: Candidate)
    requires IdsIssued(table, nextId)
    ensures c in UpdateCandidates(table, nextId, faces, now, cfg)
       <==> c.face < |faces| && c.track in table && now - table[c.track].lastSeen <= cfg.maxAgeSeconds
            && c.iou == ComputeIou(faces[c.face], table[c.track].bbox) && c.iou >= cfg.iouThreshold
  {
    var kept := Pruned(table, now, cfg);
    CandidatesMeaning(faces, kept, KeysUpTo(kept, nextId), cfg, c);
  }

  lemma MatchingOf(table: Table, nextId: nat, faces: seq<Box>, now: real, cfg: TrackingConfig)
    ensures IsMatching(UpdatePairs(table, nextId, faces, now, cfg))
  {
    NothingTaken();
    PairsAreStableAndHalfOptimal(table, nextId, faces, now, cfg, []);
  }

  predicate MatchedIn(results: seq<TrackingResult>, k: int) {
    exists r :: r in results && !r.isNewTrack && r.trackId == k
  }

  lemma MatchedInMeaning(table: Table, nextId: nat, cameraId: int, faces: seq<Box>, now: real, clock: real,
                         cfg: TrackingConfig, k: int)
    ensures MatchedIn(Updated(table, nextId, cameraId, faces, now, clock, cfg).results, k)
       <==> k in Tracks(UpdatePairs(table, nextId, faces, now, cfg))
  {
    hide UpdatePairs, MatchedResults, Grown, MatchedTable, Aged;
    var kept := Pruned(table, now, cfg);
    var chosen := UpdatePairs(table, nextId, faces, now, cfg);
    var matched := MatchedResults(kept, chosen, faces, now, clock, cfg);
    var after := MatchedTable(kept, chosen, faces, now);
    var grown := Grown(after, nextId, Faces(chosen), faces, |faces|, cameraId, now, cfg).results;
    MatchedFacesInOrder(kept, chosen, faces, now, clock, cfg);
    GrownNext(after, nextId, Faces(chosen), faces, |faces|, cameraId, now, cfg);
    forall r | r in grown ensures r.isNewTrack {
      var i :| 0 <= i < |grown| && grown[i] == r;
    }
    if c :| c in chosen && c.track == k {
      var i :| 0 <= i < |chosen| && chosen[i] == c;
      MatchedTrackIds(kept, chosen, faces, now, clock, cfg, matched[i]);
      assert matched[i] in matched + grown;
    }
    if r :| r in matched + grown && !r.isNewTrack && r.trackId == k {
      assert r in matched;
      MatchedTrackIds(kept, chosen, faces, now, clock, cfg, r);
    }
  }

  /** Where a track comes from: an old one gains a hit exactly when matched, a new one has one hit. */
  lemma TrackAfterUpdate(table: Table, nextId: nat, cameraId: int, faces: seq<Box>, now: real, clock: real,
                         cfg: TrackingConfig, k: int)
    requires IdsIssued(table, nextId)
    requires k in Updated(table, nextId, cameraId, faces, now, clock, cfg).table
    ensures var u := Updated(table, nextId, cameraId, faces, now, clock, cfg);
            var t := u.table[k];
            var hit := MatchedIn(u.results, k);
            && 1 <= k <= u.nextId
            && (k <= nextId ==> k in table && t.hits == table[k].hits + if hit then 1 else 0)
            && (k > nextId ==> t.hits == 1 && !hit)
            && (t.lastSeen == now || (k in table && !hit && t.lastSeen == table[k].lastSeen))
            && (now - t.lastSeen <= cfg.maxAgeSeconds || t.lastSeen == now)
  {
    hide UpdatePairs, MatchedResults, Grown, MatchedTable;
    var kept := Pruned(table, now, cfg);
    var chosen := UpdatePairs(table, nextId, faces, now, cfg);
    var after := MatchedTable(kept, chosen, faces, now);
    var g := Grown(after, nextId, Faces(chosen), faces, |faces|, cameraId, now, cfg);
    MatchedInMeaning(table, nextId, cameraId, faces, now, clock, cfg, k);
    FewerIssued(table, kept, nextId);
    FewerIssued(kept, after, nextId);
    GrownTable(after, nextId, Faces(chosen), faces, |faces|, cameraId, now, cfg);
    assert k in g.table;
    assert forall c :: c in chosen ==> c.track in kept.Keys;
    if k in after {
      assert k in after.Keys && k in kept;
      MatchingOf(table, nextId, faces, now, cfg);
      if c :| c in chosen && c.track == k {
        var i :| 0 <= i < |chosen| && chosen[i] == c;
        MatchedTrack(kept, chosen, faces, now, i);
      } else {
        forall i | 0 <= i < |chosen| ensures chosen[i].track != k { assert chosen[i] in chosen; }
        UnmatchedTrack(kept, chosen, faces, now, k);
      }
    }
  }

  /** The table stays within max_tracks, each face is reported at most once, and a face that
      is not reported found the table full. */
  lemma RoomAndFaces(table: Table, nextId: nat, cameraId: int, faces: seq<Box>, now: real, clock: real,
                     cfg: TrackingConfig)
    requires IdsIssued(table, nextId)
    ensures var u := Updated(table, nextId, cameraId, faces, now, clock, cfg);
            && (|table| <= cfg.maxTracks ==> |u.table| <= cfg.maxTracks)
            && NoDup(ResultFaces(u.results))
            && (forall f :: f in ResultFaces(u.results) ==> f < |faces|)
            && (forall f: nat :: f < |faces| && f !in ResultFaces(u.results) ==> |u.table| >= cfg.maxTracks)
  {
    hide UpdatePairs, MatchedResults, Grown, MatchedTable;
    var kept := Pruned(table, now, cfg);
    var chosen := UpdatePairs(table, nextId, faces, now, cfg);
    var after := MatchedTable(kept, chosen, faces, now);
    var matched := MatchedResults(kept, chosen, faces, now, clock, cfg);
    var g := Grown(after, nextId, Faces(chosen), faces, |faces|, cameraId, now, cfg);
    var u := Updated(table, nextId, cameraId, faces, now, clock, cfg);
    FewerIssued(table, kept, nextId);
    FewerIssued(kept, after, nextId);
    KeptSize(table, now, cfg);
    assert |after.Keys| == |kept.Keys|;
    GrownTable(after, nextId, Faces(chosen), faces, |faces|, cameraId, now, cfg);
    GrownFaces(after, nextId, Faces(chosen), faces, |faces|, cameraId, now, cfg);
    forall f: nat | f < |faces| && f !in Faces(chosen) && f !in ResultFaces(g.results)
      ensures |g.table| >= cfg.maxTracks
    {
      GrownRoom(after, nextId, Faces(chosen), faces, |faces|, cameraId, now, cfg, f);
      ReportedMeaning(g.results, f);
    }
    MatchedFacesInOrder(kept, chosen, faces, now, clock, cfg);
    MatchingOf(table, nextId, faces, now, cfg);
    assert u.table.Keys == g.table.Keys;
    assert |u.table.Keys| == |g.table.Keys|;
    assert ResultFaces(u.results) == ResultFaces(matched) + ResultFaces(g.results);
    forall f ensures f in ResultFaces(matched) <==> f in Faces(chosen) { FacesMember(matched, chosen, f); }
    ChosenFacesOnce(matched, chosen);
    NoDupConcat(ResultFaces(matched), ResultFaces(g.results));
  }

  lemma KeptSize(table: Table, now: real, cfg: TrackingConfig)
    ensures |Pruned(table, now, cfg)| <= |table|
  {
    var kept := Pruned(table, now, cfg);
    SubsetSize(kept.Keys, table.Keys);
  }

  lemma {:induction false} SubsetSize(a: set<int>, b: set<int>)
    requires a <= b
    ensures |a| <= |b|
  {
    assert b == a + (b - a);
  }

  lemma FacesMember(matched: seq<TrackingResult>, chosen: seq<Candidate>, f: nat)
    requires |matched| == |chosen| && forall i :: 0 <= i < |matched| ==> matched[i].face == chosen[i].face
    ensures f in ResultFaces(matched) <==> f in Faces(chosen)
  {
    if f in ResultFaces(matched) {
      var i :| 0 <= i < |matched| && ResultFaces(matched)[i] == f;
      assert chosen[i] in chosen;
    }
    if c :| c in chosen && c.face == f {
      var i :| 0 <= i < |chosen| && chosen[i] == c;
      assert ResultFaces(matched)[i] == f;
    }
  }

  lemma ChosenFacesOnce(matched: seq<TrackingResult>, chosen: seq<Candidate>)
    requires IsMatching(chosen)
    requires |matched| == |chosen| && forall i :: 0 <= i < |matched| ==> matched[i].face == chosen[i].face
    ensures NoDup(ResultFaces(matched))
  {
    forall i, j | 0 <= i < j < |matched| ensures ResultFaces(matched)[i] != ResultFaces(matched)[j] {
      assert !Clashes(chosen[i], chosen[j]);
    }
  }

  // ── Whole runs ───────────────────────────────────────────────────────────

  datatype Op =
    | UpdateOp(cameraId: int, faces: seq<Box>, now: real, clock: real)
    | MarkOp(cameraId: int, trackId: int, employeeId: Option<string>, confidence: real,
             livenessPassed: Option<bool>, reason: Option<string>, now: real)

  /** The tracker's two dicts, as values. */
  datatype Cameras = Cameras(tables: map<int, Table>, last: map<int, nat>) {
    function TableOf(c: int): Table { if c in tables then tables[c] else map[] }
  }

  function Step(s: Cameras, op: Op, cfg: TrackingConfig): Cameras {
    var c := op.cameraId;
    match op
    case UpdateOp(_, faces, now, clock) =>
      var u := Updated(s.TableOf(c), Last(s.last, c), c, faces, now, clock, cfg);
      Cameras(s.tables[c := u.table], s.last[c := u.nextId])
    case MarkOp(_, k, e, conf, live, why, now) =>
      if c in s.tables then Cameras(s.tables[c := Marked(s.tables[c], k, e, conf, live, why, now)], s.last) else s
  }

  function ResultsOf(s: Cameras, op: Op, cfg: TrackingConfig): seq<TrackingResult> {
    if op.MarkOp? then []
    else Updated(s.TableOf(op.cameraId), Last(s.last, op.cameraId), op.cameraId, op.faces, op.now, op.clock,
                 cfg).results
  }

  /** The tracker's state after a run that starts from an empty tracker. */
  function After(ops: seq<Op>, cfg: TrackingConfig): Cameras {
    if ops == [] then Cameras(map[], map[]) else Step(After(ops[..|ops| - 1], cfg), ops[|ops| - 1], cfg)
  }

  function NewIds(results: seq<TrackingResult>): seq<int> {
    if results == [] then []
    else
      var last := results[|results| - 1];
      NewIds(results[..|results| - 1]) + if last.isNewTrack then [last.trackId] else []
  }

  /** Every track id issued to camera c, in the order issued. */
  function IssuedIds(ops: seq<Op>, cfg: TrackingConfig, c: int): seq<int> {
    if ops == [] then []
    else
      var init, last := ops[..|ops| - 1], ops[|ops| - 1];
      IssuedIds(init, cfg, c) + if last.cameraId == c then NewIds(ResultsOf(After(init, cfg), last, cfg)) else []
  }

  /** The number of updates of camera c that matched track k. */
  function MatchCount(ops: seq<Op>, cfg: TrackingConfig, c: int, k: int): nat {
    if ops == [] then 0
    else
      var init, last := ops[..|ops| - 1], ops[|ops| - 1];
      MatchCount(init, cfg, c, k)
      + if last.cameraId == c && MatchedIn(ResultsOf(After(init, cfg), last, cfg), k) then 1 else 0
  }

  function UpTo(n: nat): seq<int> {
    seq(n, i requires 0 <= i < n => i + 1)
  }

  lemma NewIdsAppend(results: seq<TrackingResult>, r: TrackingResult)
    ensures NewIds(results + [r]) == NewIds(results) + if r.isNewTrack then [r.trackId] else []
  {
    assert (results + [r])[..|results|] == results;
  }

  lemma {:induction false} OldTracksOnly(results: seq<TrackingResult>)
    requires forall i :: 0 <= i < |results| ==> !results[i].isNewTrack
    ensures NewIds(results) == []
  {
    if results != [] { OldTracksOnly(results[..|results| - 1]); }
  }

  lemma {:induction false} NewIdsOf(matched: seq<TrackingResult>, grown: seq<TrackingResult>, next: nat)
    requires forall i :: 0 <= i < |matched| ==> !matched[i].isNewTrack
    requires forall i :: 0 <= i < |grown| ==> grown[i].isNewTrack && grown[i].trackId == next + 1 + i
    ensures UpTo(next) + NewIds(matched + grown) == UpTo(next + |grown|)
  {
    hide NewIds;
    if grown == [] {
      assert matched + grown == matched;
      OldTracksOnly(matched);
    } else {
      var init, r := grown[..|grown| - 1], grown[|grown| - 1];
      NewIdsOf(matched, init, next);
      assert matched + grown == matched + init + [r];
      NewIdsAppend(matched + init, r);
      assert UpTo(next + |grown|) == UpTo(next + |init|) + [r.trackId];
    }
  }

  lemma NoNewIds()
    ensures NewIds([]) == []
  {}

  lemma AfterOneMore(ops: seq<Op>, op: Op, cfg: TrackingConfig)
    ensures After(ops + [op], cfg) == Step(After(ops, cfg), op, cfg)
  {
    assert (ops + [op])[..|ops + [op]| - 1] == ops;
  }

  lemma UpdateIssues(table: Table, nextId: nat, cameraId: int, faces: seq<Box>, now: real, clock: real,
                     cfg: TrackingConfig)
    ensures var u := Updated(table, nextId, cameraId, faces, now, clock, cfg);
            UpTo(nextId) + NewIds(u.results) == UpTo(u.nextId)
  {
    hide UpdatePairs, MatchedResults, Grown, MatchedTable, NewIds, UpTo;
    var kept := Pruned(table, now, cfg);
    var chosen := UpdatePairs(table, nextId, faces, now, cfg);
    var after := MatchedTable(kept, chosen, faces, now);
    var matched := MatchedResults(kept, chosen, faces, now, clock, cfg);
    var g := Grown(after, nextId, Faces(chosen), faces, |faces|, cameraId, now, cfg);
    forall i | 0 <= i < |matched| ensures !matched[i].isNewTrack {
      MatchedTrackIds(kept, chosen, faces, now, clock, cfg, matched[i]);
    }
    GrownNext(after, nextId, Faces(chosen), faces, |faces|, cameraId, now, cfg);
    NewIdsOf(matched, g.results, nextId);
  }

  /** Track ids of a camera are 1, 2, 3, … in the order of issue: none is ever issued twice,
      and every track on the books bears one of them. */
  lemma {:induction false} IdsAreNeverReused(ops: seq<Op>, cfg: TrackingConfig, c: int)
    ensures var s := After(ops, cfg);
            && IssuedIds(ops, cfg, c) == UpTo(Last(s.last, c))
            && NoDup(IssuedIds(ops, cfg, c))
            && forall k :: k in s.TableOf(c) ==> k in IssuedIds(ops, cfg, c)
  {
    hide Updated, NewIds;
    NoNewIds();
    var s := After(ops, cfg);
    if ops != [] {
      var init, last := ops[..|ops| - 1], ops[|ops| - 1];
      IdsAreNeverReused(init, cfg, c);
      var was := After(init, cfg);
      if last.UpdateOp? && last.cameraId == c {
        UpdateIssues(was.TableOf(c), Last(was.last, c), c, last.faces, last.now, last.clock, cfg);
      }
    }
    IdsStayIssued(ops, cfg, c);
    forall k | k in s.TableOf(c) ensures k in UpTo(Last(s.last, c)) { assert UpTo(Last(s.last, c))[k - 1] == k; }
  }

  lemma {:induction false} IdsStayIssued(ops: seq<Op>, cfg: TrackingConfig, c: int)
    ensures IdsIssued(After(ops, cfg).TableOf(c), Last(After(ops, cfg).last, c))
  {
    hide Updated;
    if ops != [] {
      var init, last := ops[..|ops| - 1], ops[|ops| - 1];
      IdsStayIssued(init, cfg, c);
      var was := After(init, cfg);
      if last.UpdateOp? && last.cameraId == c {
        var u := Updated(was.TableOf(c), Last(was.last, c), c, last.faces, last.now, last.clock, cfg);
        forall k | k in u.table ensures 1 <= k <= u.nextId {
          TrackAfterUpdate(was.TableOf(c), Last(was.last, c), c, last.faces, last.now, last.clock, cfg, k);
        }
      }
    }
  }

  /** No camera ever tracks more than max_tracks faces. */
  lemma {:induction false} TableStaysBounded(ops: seq<Op>, cfg: TrackingConfig, c: int)
    ensures |After(ops, cfg).TableOf(c)| <= if cfg.maxTracks < 0 then 0 else cfg.maxTracks
  {
    hide Updated;
    if ops != [] {
      var init, last := ops[..|ops| - 1], ops[|ops| - 1];
      TableStaysBounded(init, cfg, c);
      IdsStayIssued(init, cfg, c);
      var was := After(init, cfg);
      if last.cameraId == c {
        if last.UpdateOp? {
          RoomAndFaces(was.TableOf(c), Last(was.last, c), c, last.faces, last.now, last.clock, cfg);
          if cfg.maxTracks < 0 { NoRoomNoTracks(Last(was.last, c), c, last.faces, last.now, last.clock, cfg); }
        } else if c in was.tables {
          assert After(ops, cfg).TableOf(c).Keys == was.TableOf(c).Keys;
          assert |After(ops, cfg).TableOf(c).Keys| == |was.TableOf(c).Keys|;
        }
      }
    }
  }

  lemma {:induction false} NothingGrows(table: Table, nextId: nat, taken: set<nat>, faces: seq<Box>, n: nat,
                                        cameraId: int,
                                        now: real, cfg: TrackingConfig)
    requires n <= |faces| && cfg.maxTracks < 0
    ensures Grown(table, nextId, taken, faces, n, cameraId, now, cfg).table == table
  {
    if n > 0 { NothingGrows(table, nextId, taken, faces, n - 1, cameraId, now, cfg); }
  }

  lemma NoRoomNoTracks(nextId: nat, cameraId: int, faces: seq<Box>, now: real, clock: real, cfg: TrackingConfig)
    requires cfg.maxTracks < 0
    ensures |Updated(map[], nextId, cameraId, faces, now, clock, cfg).table| == 0
  {
    hide UpdatePairs, MatchedTable;
    var kept := Pruned(map[], now, cfg);
    var chosen := UpdatePairs(map[], nextId, faces, now, cfg);
    var after := MatchedTable(kept, chosen, faces, now);
    assert kept.Keys == {} && after.Keys == {};
    NothingGrows(after, nextId, Faces(chosen), faces, |faces|, cameraId, now, cfg);
    assert Updated(map[], nextId, cameraId, faces, now, clock, cfg).table.Keys == {};
  }

  /** `hits` is one more than the number of updates that matched the track; and an id not yet
      issued has never been matched. */
  lemma {:induction false} HitsCountMatches(ops: seq<Op>, cfg: TrackingConfig, c: int, k: int)
    ensures var s := After(ops, cfg);
            && (k in s.TableOf(c) ==> s.TableOf(c)[k].hits == 1 + MatchCount(ops, cfg, c, k))
            && (k > Last(s.last, c) ==> MatchCount(ops, cfg, c, k) == 0)
  {
    hide Updated, MatchedIn;
    if ops != [] {
      var init, last := ops[..|ops| - 1], ops[|ops| - 1];
      HitsCountMatches(init, cfg, c, k);
      IdsStayIssued(init, cfg, c);
      var was := After(init, cfg);
      if last.cameraId == c {
        if last.UpdateOp? {
          var table, next := was.TableOf(c), Last(was.last, c);
          var u := Updated(table, next, c, last.faces, last.now, last.clock, cfg);
          if k in u.table { TrackAfterUpdate(table, next, c, last.faces, last.now, last.clock, cfg, k); }
          MatchedWereIssued(table, next, c, last.faces, last.now, last.clock, cfg, k);
        } else {
          NoMatchInMark(was, last, cfg, k);
        }
      }
    }
  }

  lemma NoMatchInMark(s: Cameras, op: Op, cfg: TrackingConfig, k: int)
    requires op.MarkOp?
    ensures !MatchedIn(ResultsOf(s, op, cfg), k)
  {}

  lemma MatchedWereIssued(table: Table, nextId: nat, cameraId: int, faces: seq<Box>, now: real, clock: real,
                          cfg: TrackingConfig, k: int)
    requires IdsIssued(table, nextId)
    ensures Updated(table, nextId, cameraId, faces, now, clock, cfg).nextId >= nextId
    ensures MatchedIn(Updated(table, nextId, cameraId, faces, now, clock, cfg).results, k) ==> k <= nextId
  {
    hide UpdatePairs, MatchedResults, Grown, MatchedTable, MatchedIn;
    var kept := Pruned(table, now, cfg);
    var chosen := UpdatePairs(table, nextId, faces, now, cfg);
    var after := MatchedTable(kept, chosen, faces, now);
    MatchedInMeaning(table, nextId, cameraId, faces, now, clock, cfg, k);
    GrownNext(after, nextId, Faces(chosen), faces, |faces|, cameraId, now, cfg);
  }

  /** The operations on one camera. */
  function OnCamera(ops: seq<Op>, c: int): seq<Op> {
    if ops == [] then []
    else
      var last := ops[|ops| - 1];
      OnCamera(ops[..|ops| - 1], c) + if last.cameraId == c then [last] else []
  }

  ghost predicate SameCamera(s: Cameras, t: Cameras, c: int) {
    s.TableOf(c) == t.TableOf(c) && Last(s.last, c) == Last(t.last, c) && (c in s.tables <==> c in t.tables)
  }

  lemma StepIsLocal(s: Cameras, t: Cameras, op: Op, cfg: TrackingConfig, c: int)
    requires SameCamera(s, t, c)
    ensures op.cameraId == c ==> SameCamera(Step(s, op, cfg), Step(t, op, cfg), c)
    ensures op.cameraId != c ==> SameCamera(Step(s, op, cfg), t, c)
  {
    hide Updated;
    if op.UpdateOp? && op.cameraId == c {
      assert Updated(s.TableOf(c), Last(s.last, c), c, op.faces, op.now, op.clock, cfg)
          == Updated(t.TableOf(c), Last(t.last, c), c, op.faces, op.now, op.clock, cfg);
    }
  }

  /** Cameras do not interfere: a camera's tracks and ids are those of its own operations alone. */
  lemma {:induction false} CamerasAreIndependent(ops: seq<Op>, cfg: TrackingConfig, c: int)
    ensures SameCamera(After(ops, cfg), After(OnCamera(ops, c), cfg), c)
  {
    hide Step, SameCamera;
    if ops == [] {
      assert SameCamera(After(ops, cfg), After(OnCamera(ops, c), cfg), c) by { SameAsItself(After([], cfg), c); }
    } else {
      var init, last := ops[..|ops| - 1], ops[|ops| - 1];
      var mine := OnCamera(init, c);
      CamerasAreIndependent(init, cfg, c);
      StepIsLocal(After(init, cfg), After(mine, cfg), last, cfg, c);
      AfterOneMore(mine, last, cfg);
      assert mine + [] == mine;
    }
  }

  lemma SameAsItself(s: Cameras, c: int)
    ensures SameCamera(s, s, c)
  {}
}
