/**
 * The multi-camera face tracker (backend/app/engine/face_tracker.py).
 *
 * FaceTrack and MultiCameraTracker are the source's mutable objects. Their methods are
 * proved against functions of the tables' values, and the run-long properties are lemmas
 * about those functions. Coordinates, times and confidences are reals. A dict of tracks is
 * enumerated by ascending id, which is its insertion order because ids only grow.
 */
module FaceTracker {
  import opened Wrappers
  import opened Sequences
  import opened Matching

  // ── Intersection over union ──────────────────────────────────────────────

  datatype Box = Box(x1: real, y1: real, x2: real, y2: real)

  function Max(a: real, b: real): real { if a >= b then a else b }

  function Min(a: real, b: real): real { if a <= b then a else b }

  function Area(b: Box): real { (b.x2 - b.x1) * (b.y2 - b.y1) }

  function Intersection(a: Box, b: Box): real {
    Max(0.0, Min(a.x2, b.x2) - Max(a.x1, b.x1)) * Max(0.0, Min(a.y2, b.y2) - Max(a.y1, b.y1))
  }

  function ComputeIou(a: Box, b: Box): real {
    var inter := Intersection(a, b);
    if inter <= 0.0 then 0.0
    else
      var union := Area(a) + Area(b) - inter;
      if union > 0.0 then inter / union else 0.0
  }

  ghost predicate Proper(b: Box) {
    b.x1 < b.x2 && b.y1 < b.y2
  }

  /** Some open rectangle lies in both boxes. */
  ghost predicate Overlap(a: Box, b: Box) {
    Max(a.x1, b.x1) < Min(a.x2, b.x2) && Max(a.y1, b.y1) < Min(a.y2, b.y2)
  }

  lemma ProductMonotone(w: real, h: real, w': real, h': real)
    requires 0.0 < w <= w' && 0.0 < h <= h'
    ensures 0.0 < w * h <= w' * h'
    ensures w * h == w' * h' ==> w == w' && h == h'
  {
    assert w' * h' - w * h == (w' - w) * h' + w * (h' - h);
  }

  lemma OverlapFacts(a: Box, b: Box)
    ensures Intersection(a, b) > 0.0 <==> Overlap(a, b)
    ensures Intersection(a, b) >= 0.0
    ensures Overlap(a, b) ==> Intersection(a, b) <= Area(a) && Intersection(a, b) <= Area(b)
    ensures Overlap(a, b) ==> Proper(a) && Proper(b)
    ensures Overlap(a, b) && Intersection(a, b) == Area(a) && Intersection(a, b) == Area(b) ==> a == b
  {
    var w := Min(a.x2, b.x2) - Max(a.x1, b.x1);
    var h := Min(a.y2, b.y2) - Max(a.y1, b.y1);
    if Overlap(a, b) {
      ProductMonotone(w, h, a.x2 - a.x1, a.y2 - a.y1);
      ProductMonotone(w, h, b.x2 - b.x1, b.y2 - b.y1);
    } else if w <= 0.0 {
      assert Max(0.0, w) == 0.0;
    } else {
      assert Max(0.0, h) == 0.0;
    }
  }

  lemma Ratio(x: real, y: real)
    requires 0.0 < x <= y
    ensures 0.0 < x / y <= 1.0
    ensures x / y == 1.0 <==> x == y
  {}

  /** For any four numbers a box: the result lies in [0, 1], is positive exactly on an
      overlap, and is 1 exactly for one and the same proper box. */
  lemma IouInUnitInterval(a: Box, b: Box)
    ensures 0.0 <= ComputeIou(a, b) <= 1.0
    ensures ComputeIou(a, b) > 0.0 <==> Overlap(a, b)
    ensures ComputeIou(a, b) == 1.0 <==> a == b && Proper(a)
  {
    OverlapFacts(a, b);
    var inter := Intersection(a, b);
    if Overlap(a, b) { Ratio(inter, Area(a) + Area(b) - inter); }
  }

  lemma IouIsSymmetric(a: Box, b: Box)
    ensures ComputeIou(a, b) == ComputeIou(b, a)
  {
    assert Intersection(a, b) == Intersection(b, a);
  }

  /** The point (x, y) lies strictly inside b. */
  ghost predicate Inside(b: Box, x: real, y: real) {
    b.x1 < x < b.x2 && b.y1 < y < b.y2
  }

  ghost predicate SharePoint(a: Box, b: Box) {
    exists x: real, y: real :: Inside(a, x, y) && Inside(b, x, y)
  }

  /** The points strictly inside c are exactly those strictly inside both a and b. */
  ghost predicate IsCommonPart(a: Box, b: Box, c: Box) {
    forall x: real, y: real :: Inside(c, x, y) <==> Inside(a, x, y) && Inside(b, x, y)
  }

  /** The ratio of what c covers to what a and b cover together, c counted once. */
  ghost predicate IsShareOfUnion(iou: real, a: Box, b: Box, c: Box) {
    var ofA, ofB, ofC := (a.x2 - a.x1) * (a.y2 - a.y1), (b.x2 - b.x1) * (b.y2 - b.y1), (c.x2 - c.x1) * (c.y2 - c.y1);
    ofC > 0.0 && iou * (ofA + ofB - ofC) == ofC
  }

  function Common(a: Box, b: Box): Box {
    Box(Max(a.x1, b.x1), Max(a.y1, b.y1), Min(a.x2, b.x2), Min(a.y2, b.y2))
  }

  lemma CommonIsCommonPart(a: Box, b: Box)
    ensures IsCommonPart(a, b, Common(a, b))
    ensures SharePoint(a, b) <==> Overlap(a, b)
  {
    var c := Common(a, b);
    if Overlap(a, b) {
      var x, y := (c.x1 + c.x2) / 2.0, (c.y1 + c.y2) / 2.0;
      assert Inside(a, x, y) && Inside(b, x, y);
    }
  }

  lemma Quotient(x: real, y: real)
    requires y > 0.0
    ensures x / y * y == x
  {}

  lemma ShareOfUnion(a: Box, b: Box)
    requires Overlap(a, b)
    ensures IsShareOfUnion(ComputeIou(a, b), a, b, Common(a, b))
  {
    hide Area, Intersection;
    OverlapFacts(a, b);
    Quotient(Intersection(a, b), Area(a) + Area(b) - Intersection(a, b));
    AreasByCorners(a, b);
  }

  lemma AreasByCorners(a: Box, b: Box)
    requires Overlap(a, b)
    ensures Area(a) == (a.x2 - a.x1) * (a.y2 - a.y1) && Area(b) == (b.x2 - b.x1) * (b.y2 - b.y1)
    ensures Intersection(a, b) == (Common(a, b).x2 - Common(a, b).x1) * (Common(a, b).y2 - Common(a, b).y1)
  {}

  /** Two boxes that share a point have a common part, and the ratio is its share of their union; all others have 0. */
  lemma IouIsShareOfUnion(a: Box, b: Box)
    ensures !SharePoint(a, b) ==> ComputeIou(a, b) == 0.0
    ensures SharePoint(a, b) ==> exists c :: IsCommonPart(a, b, c) && IsShareOfUnion(ComputeIou(a, b), a, b, c)
  {
    hide ComputeIou, IsShareOfUnion, IsCommonPart, SharePoint, Overlap;
    CommonIsCommonPart(a, b);
    if Overlap(a, b) {
      ShareOfUnion(a, b);
    } else {
      IouInUnitInterval(a, b);
    }
  }

  // ── Tracks as values ─────────────────────────────────────────────────────

  datatype TrackingConfig = TrackingConfig(
    maxTracks: int, iouThreshold: real, maxAgeSeconds: real, minHits: int, cooldownSeconds: real)

  /** The attributes of a FaceTrack object at one moment. */
  datatype Track = Track(
    trackId: int, cameraId: int, bbox: Box, lastSeen: real, firstSeen: real, hits: int,
    lastRecognizedAt: real, employeeId: Option<string>, confidence: real, isUnknown: bool,
    lostFrames: int, livenessPassed: Option<bool>, reason: Option<string>)
  {
    /** `clock` is the reading of time.time() at the property access. */
    predicate NeedsRecognition(cfg: TrackingConfig, clock: real) {
      if hits < cfg.minHits then false
      else if employeeId.GetOr("") != "" && RecognizedWithin(cfg.cooldownSeconds, clock) then false
      else if isUnknown && RecognizedWithin(cfg.cooldownSeconds * 2.0, clock) then false
      else true
    }

    /** since_last_recognition < seconds; it is infinite before the first recognition. */
    predicate RecognizedWithin(seconds: real, clock: real) {
      lastRecognizedAt != 0.0 && clock - lastRecognizedAt < seconds
    }

    predicate CooldownActive(cfg: TrackingConfig, clock: real) {
      !NeedsRecognition(cfg, clock) && employeeId.Some?
    }

    function Matched(face: Box, now: real): Track {
      this.(bbox := face, lastSeen := now, hits := hits + 1, lostFrames := 0)
    }

    function Lost(): Track {
      this.(lostFrames := lostFrames + 1)
    }

    function Recognized(employee: Option<string>, conf: real, liveness: Option<bool>, why: Option<string>,
                        now: real): Track
    {
      this.(lastRecognizedAt := now, employeeId := employee, confidence := conf, isUnknown := employee.None?,
            livenessPassed := liveness, reason := why)
    }
  }

  function NewTrack(id: int, cameraId: int, face: Box, now: real): Track {
    Track(id, cameraId, face, now, now, 1, 0.0, None, 0.0, false, 0, None, None)
  }

  /** `face` is the index of the detection in the frame. */
  datatype TrackingResult = TrackingResult(
    face: nat, trackId: int, isNewTrack: bool, trackHits: int, needsRecognition: bool, cooldownActive: bool)

  type Table = map<int, Track>

  // ── One update as a function of the camera's table ───────────────────────

  /** The keys of a table among 1..n, ascending. */
  function KeysUpTo<T>(m: map<int, T>, n: nat): (keys: seq<int>)
    ensures forall k :: k in keys <==> k in m && 1 <= k <= n
    ensures NoDup(keys)
  {
    if n == 0 then [] else KeysUpTo(m, n - 1) + if n in m then [n] else []
  }

  function Pruned(table: Table, now: real, cfg: TrackingConfig): Table {
    map k | k in table && !(now - table[k].lastSeen > cfg.maxAgeSeconds) :: table[k]
  }

  function CandidatesOfFace(fi: nat, face: Box, table: Table, keys: seq<int>, cfg: TrackingConfig): seq<Candidate>
    requires forall k :: k in keys ==> k in table
  {
    if keys == [] then []
    else
      var last := keys[|keys| - 1];
      var iou := ComputeIou(face, table[last].bbox);
      CandidatesOfFace(fi, face, table, keys[..|keys| - 1], cfg)
      + if iou >= cfg.iouThreshold then [Candidate(fi, last, iou)] else []
  }

  function CandidatesOf(faces: seq<Box>, table: Table, keys: seq<int>, cfg: TrackingConfig): seq<Candidate>
    requires forall k :: k in keys ==> k in table
  {
    if faces == [] then []
    else
      var n := |faces| - 1;
      CandidatesOf(faces[..n], table, keys, cfg) + CandidatesOfFace(n, faces[n], table, keys, cfg)
  }

  ghost predicate PairsKnown(chosen: seq<Candidate>, faces: seq<Box>, table: Table) {
    forall c :: c in chosen ==> c.face < |faces| && c.track in table
  }

  function MatchedTable(table: Table, chosen: seq<Candidate>, faces: seq<Box>, now: real): (r: Table)
    requires PairsKnown(chosen, faces, table)
    ensures r.Keys == table.Keys
  {
    if chosen == [] then table
    else
      var last := chosen[|chosen| - 1];
      assert last in chosen;
      var t := MatchedTable(table, chosen[..|chosen| - 1], faces, now);
      t[last.track := t[last.track].Matched(faces[last.face], now)]
  }

  function MatchedResults(table: Table, chosen: seq<Candidate>, faces: seq<Box>, now: real, clock: real,
                          cfg: TrackingConfig): seq<TrackingResult>
    requires PairsKnown(chosen, faces, table)
  {
    if chosen == [] then []
    else
      var last := chosen[|chosen| - 1];
      assert last in chosen;
      var t := MatchedTable(table, chosen, faces, now)[last.track];
      MatchedResults(table, chosen[..|chosen| - 1], faces, now, clock, cfg)
      + [TrackingResult(last.face, last.track, false, t.hits, t.NeedsRecognition(cfg, clock),
                        t.CooldownActive(cfg, clock))]
  }

  datatype Growth = Growth(table: Table, nextId: nat, results: seq<TrackingResult>)

  /** New tracks for the first n faces, skipping matched ones and those that find the table full. */
  function Grown(table: Table, nextId: nat, taken: set<nat>, faces: seq<Box>, n: nat, cameraId: int, now: real,
                 cfg: TrackingConfig): Growth
    requires n <= |faces|
  {
    if n == 0 then Growth(table, nextId, [])
    else
      var g := Grown(table, nextId, taken, faces, n - 1, cameraId, now, cfg);
      if (n - 1) in taken || |g.table| >= cfg.maxTracks then g
      else
        var id := g.nextId + 1;
        Growth(g.table[id := NewTrack(id, cameraId, faces[n - 1], now)], id,
               g.results + [TrackingResult(n - 1, id, true, 1, false, false)])
  }

  /** One face more. */
  lemma GrownStep(table: Table, nextId: nat, taken: set<nat>, faces: seq<Box>, n: nat, cameraId: int, now: real,
                  cfg: TrackingConfig)
    requires n <= |faces|
    ensures n == 0 ==> Grown(table, nextId, taken, faces, n, cameraId, now, cfg) == Growth(table, nextId, [])
    ensures n > 0 ==>
      var g := Grown(table, nextId, taken, faces, n - 1, cameraId, now, cfg);
      var id := g.nextId + 1;
      Grown(table, nextId, taken, faces, n, cameraId, now, cfg)
      == if (n - 1) in taken || |g.table| >= cfg.maxTracks then g
         else Growth(g.table[id := NewTrack(id, cameraId, faces[n - 1], now)], id,
                     g.results + [TrackingResult(n - 1, id, true, 1, false, false)])
  {}

  function Aged(table: Table, matched: set<int>): Table {
    map k | k in table :: if k in matched then table[k] else table[k].Lost()
  }

  /** The candidates of an update: every face-track pair over the threshold. */
  function UpdateCandidates(table: Table, nextId: nat, faces: seq<Box>, now: real,
                            cfg: TrackingConfig): seq<Candidate> {
    var kept := Pruned(table, now, cfg);
    CandidatesOf(faces, kept, KeysUpTo(kept, nextId), cfg)
  }

  lemma {:induction false} CandidatesMeaning(faces: seq<Box>, table: Table, keys: seq<int>, cfg: TrackingConfig,
                                             c: Candidate)
    requires forall k :: k in keys ==> k in table
    ensures c in CandidatesOf(faces, table, keys, cfg)
       <==> c.face < |faces| && c.track in keys && c.iou >= cfg.iouThreshold
            && c.iou == ComputeIou(faces[c.face], table[c.track].bbox)
  {
    if faces != [] {
      var n := |faces| - 1;
      CandidatesMeaning(faces[..n], table, keys, cfg, c);
      FaceCandidatesMeaning(n, faces[n], table, keys, cfg, c);
    }
  }

  lemma {:induction false} FaceCandidatesMeaning(fi: nat, face: Box, table: Table, keys: seq<int>,
                                                 cfg: TrackingConfig, c: Candidate)
    requires forall k :: k in keys ==> k in table
    ensures c in CandidatesOfFace(fi, face, table, keys, cfg)
       <==> c.face == fi && c.track in keys && c.iou >= cfg.iouThreshold
            && c.iou == ComputeIou(face, table[c.track].bbox)
  {
    if keys != [] {
      assert keys == keys[..|keys| - 1] + [keys[|keys| - 1]];
      FaceCandidatesMeaning(fi, face, table, keys[..|keys| - 1], cfg, c);
    }
  }

  lemma AssignedPairsKnown(table: Table, keys: seq<int>, faces: seq<Box>, cfg: TrackingConfig)
    requires forall k :: k in keys ==> k in table
    ensures PairsKnown(Assign(CandidatesOf(faces, table, keys, cfg)), faces, table)
  {
    hide CandidatesOf, SortDescending, Greedy;
    var candidates := CandidatesOf(faces, table, keys, cfg);
    GreedyIsMatching(SortDescending(candidates), []) by { NothingTaken(); }
    forall c | c in Assign(candidates) ensures c.face < |faces| && c.track in table {
      SortKeepsMembers(candidates, c);
      CandidatesMeaning(faces, table, keys, cfg, c);
    }
  }

  /** The pairs an update matches. */
  function UpdatePairs(table: Table, nextId: nat, faces: seq<Box>, now: real,
                       cfg: TrackingConfig): (chosen: seq<Candidate>)
    ensures PairsKnown(chosen, faces, Pruned(table, now, cfg))
  {
    var kept := Pruned(table, now, cfg);
    AssignedPairsKnown(kept, KeysUpTo(kept, nextId), faces, cfg);
    Assign(UpdateCandidates(table, nextId, faces, now, cfg))
  }

  /** MultiCameraTracker.update on one camera's table. */
  function Updated(table: Table, nextId: nat, cameraId: int, faces: seq<Box>, now: real, clock: real,
                   cfg: TrackingConfig): Growth
  {
    var kept := Pruned(table, now, cfg);
    var chosen := UpdatePairs(table, nextId, faces, now, cfg);
    var grown := Grown(MatchedTable(kept, chosen, faces, now), nextId, Faces(chosen), faces, |faces|, cameraId, now,
                       cfg);
    Growth(Aged(grown.table, Tracks(chosen)), grown.nextId,
           MatchedResults(kept, chosen, faces, now, clock, cfg) + grown.results)
  }

  // ── The objects ──────────────────────────────────────────────────────────

  class FaceTrack {
    var trackId: int
    var cameraId: int
    var bbox: Box
    var lastSeen: real
    var firstSeen: real
    var hits: int
    var lastRecognizedAt: real
    var employeeId: Option<string>
    var confidence: real
    var isUnknown: bool
    var lostFrames: int
    var livenessPassed: Option<bool>
    var reason: Option<string>

    constructor (id: int, cameraId: int, face: Box, now: real)
      ensures View() == NewTrack(id, cameraId, face, now)
    {
      trackId, this.cameraId, bbox, lastSeen, firstSeen, hits := id, cameraId, face, now, now, 1;
      lastRecognizedAt, employeeId, confidence, isUnknown, lostFrames := 0.0, None, 0.0, false, 0;
      livenessPassed, reason := None, None;
    }

    function View(): Track
      reads this
    {
      Track(trackId, cameraId, bbox, lastSeen, firstSeen, hits, lastRecognizedAt, employeeId, confidence,
            isUnknown, lostFrames, livenessPassed, reason)
    }

    method Mark(employee: Option<string>, conf: real, liveness: Option<bool>, why: Option<string>, now: real)
      modifies this
      ensures View() == old(View()).Recognized(employee, conf, liveness, why, now)
    {
      lastRecognizedAt := now;
      employeeId := employee;
      confidence := conf;
      isUnknown := employee.None?;
      livenessPassed := liveness;
      reason := why;
    }
  }

  /** A camera's dict, as values. */
  ghost function Snap(table: map<int, FaceTrack>): Table
    reads table.Values
  {
    map k | k in table :: table[k].View()
  }

  /** No object is filed under two ids. */
  ghost predicate Separate(table: map<int, FaceTrack>) {
    forall j, k :: j in table && k in table && j != k ==> table[j] != table[k]
  }

  /** Each track object is filed once, under one camera, under an id already issued. */
  ghost predicate WellFiled(tracks: map<int, map<int, FaceTrack>>, nextTrackId: map<int, nat>) {
    && (forall c :: c in tracks ==> Separate(tracks[c]))
    && (forall c, k :: c in tracks && k in tracks[c] ==> 1 <= k <= Last(nextTrackId, c))
    && (forall c, d :: c in tracks && d in tracks && c != d ==> tracks[c].Values !! tracks[d].Values)
  }

  function Last(nextTrackId: map<int, nat>, cameraId: int): nat {
    if cameraId in nextTrackId then nextTrackId[cameraId] else 0
  }

  /** The counters of the other cameras. */
  function Elsewhere(nextTrackId: map<int, nat>, cameraId: int): map<int, nat> {
    nextTrackId - {cameraId}
  }

  lemma ElsewhereSame(before: map<int, nat>, after: map<int, nat>, cameraId: int)
    requires Elsewhere(before, cameraId) == Elsewhere(after, cameraId)
    ensures forall c :: c != cameraId ==> Last(after, c) == Last(before, c)
  {
    forall c | c != cameraId ensures Last(after, c) == Last(before, c) {
      assert c in before <==> c in Elsewhere(before, cameraId);
      assert c in after <==> c in Elsewhere(after, cameraId);
    }
  }

  lemma StoreKeepsFiling(tracks: map<int, map<int, FaceTrack>>, before: map<int, nat>, after: map<int, nat>,
                         cameraId: int, table: map<int, FaceTrack>)
    requires WellFiled(tracks, before) && Separate(table)
    requires forall k :: k in table ==> 1 <= k <= Last(after, cameraId)
    requires forall c :: c != cameraId ==> Last(after, c) == Last(before, c)
    requires forall c :: c in tracks && c != cameraId ==> tracks[c].Values !! table.Values
    ensures WellFiled(tracks[cameraId := table], after)
  {}

  lemma InValues(table: map<int, FaceTrack>, k: int)
    requires k in table
    ensures table[k] in table.Values
  {}

  class MultiCameraTracker {
    const cfg: TrackingConfig
    var tracks: map<int, map<int, FaceTrack>>
    var nextTrackId: map<int, nat>

    constructor (cfg: TrackingConfig)
      ensures this.cfg == cfg && tracks == map[] && nextTrackId == map[]
    {
      this.cfg := cfg;
      tracks, nextTrackId := map[], map[];
    }

    ghost predicate Valid()
      reads this
    {
      WellFiled(tracks, nextTrackId)
    }

    function CameraDict(cameraId: int): map<int, FaceTrack>
      reads this
    {
      if cameraId in tracks then tracks[cameraId] else map[]
    }

    function LastId(cameraId: int): nat
      reads this
    {
      Last(nextTrackId, cameraId)
    }

    /** A camera's tracks, as values. */
    ghost function TableOf(cameraId: int): Table
      reads this, CameraDict(cameraId).Values
    {
      Snap(CameraDict(cameraId))
    }

    method NextId(cameraId: int) returns (id: nat)
      modifies this`nextTrackId
      ensures id == old(LastId(cameraId)) + 1
      ensures nextTrackId == old(nextTrackId)[cameraId := id]
    {
      id := LastId(cameraId) + 1;
      nextTrackId := nextTrackId[cameraId := id];
    }

    /** The stale tracks leave the dict; the objects are not touched. */
    method Prune(table: map<int, FaceTrack>, now: real) returns (kept: map<int, FaceTrack>)
      requires Separate(table)
      ensures Snap(kept) == Pruned(Snap(table), now, cfg)
      ensures Separate(kept) && kept.Values <= table.Values && kept.Keys <= table.Keys
    {
      kept := map k | k in table && !(now - table[k].lastSeen > cfg.maxAgeSeconds) :: table[k];
      assert forall k :: k in kept <==> k in Pruned(Snap(table), now, cfg);
      assert forall k :: k in kept ==> Snap(kept)[k] == Pruned(Snap(table), now, cfg)[k];
      assert Snap(kept) == Pruned(Snap(table), now, cfg);
    }

    /** The inner loop: one face against every track. */
    method CollectForFace(fi: nat, face: Box, table: map<int, FaceTrack>,
                          keys: seq<int>) returns (found: seq<Candidate>)
      requires forall k :: k in keys ==> k in table
      ensures found == CandidatesOfFace(fi, face, Snap(table), keys, cfg)
    {
      found := [];
      for i := 0 to |keys|
        invariant found == CandidatesOfFace(fi, face, Snap(table), keys[..i], cfg)
      {
        var tid := keys[i];
        assert tid in keys;
        var iou := ComputeIou(face, table[tid].bbox);
        if iou >= cfg.iouThreshold { found := found + [Candidate(fi, tid, iou)]; }
        assert keys[..i + 1][..i] == keys[..i];
      }
      assert keys[..|keys|] == keys;
    }

    /** The double loop over faces and tracks. */
    method CollectCandidates(faces: seq<Box>, table: map<int, FaceTrack>, lastId: nat)
      returns (assignments: seq<Candidate>)
      ensures assignments == CandidatesOf(faces, Snap(table), KeysUpTo(Snap(table), lastId), cfg)
    {
      var keys := KeysUpTo(table, lastId);
      SameKeys(table, Snap(table), lastId);
      assignments := [];
      for fi := 0 to |faces|
        invariant assignments == CandidatesOf(faces[..fi], Snap(table), keys, cfg)
      {
        var found := CollectForFace(fi, faces[fi], table, keys);
        assignments := assignments + found;
        assert faces[..fi + 1][..fi] == faces[..fi];
      }
      assert faces[..|faces|] == faces;
    }

    /** One matched track is refreshed in place. */
    method Refresh(table: map<int, FaceTrack>, k: int, face: Box, now: real)
      requires k in table && Separate(table)
      modifies table[k]
      ensures Snap(table) == old(Snap(table))[k := old(Snap(table))[k].Matched(face, now)]
    {
      InValues(table, k);
      var track := table[k];
      track.bbox := face;
      track.lastSeen := now;
      track.hits := track.hits + 1;
      track.lostFrames := 0;
      assert forall j :: j in table && j != k ==> table[j].View() == old(table[j].View());
      assert Snap(table) == old(Snap(table))[k := old(Snap(table))[k].Matched(face, now)];
    }

    /** The greedy loop over the sorted assignments. */
    method MatchTracks(table: map<int, FaceTrack>, queue: seq<Candidate>, faces: seq<Box>, now: real, clock: real)
      returns (matchedFaces: set<nat>, matchedTracks: set<int>, results: seq<TrackingResult>)
      requires Separate(table) && PairsKnown(queue, faces, Snap(table))
      modifies table.Values
      ensures PairsKnown(Greedy(queue, []), faces, old(Snap(table)))
      ensures matchedFaces == Faces(Greedy(queue, [])) && matchedTracks == Tracks(Greedy(queue, []))
      ensures Snap(table) == MatchedTable(old(Snap(table)), Greedy(queue, []), faces, now)
      ensures results == MatchedResults(old(Snap(table)), Greedy(queue, []), faces, now, clock, cfg)
    {
      hide MatchedTable, MatchedResults, Greedy, Faces, Tracks;
      ghost var before := Snap(table);
      matchedFaces, matchedTracks, results := {}, {}, [];
      ghost var chosen: seq<Candidate> := [];
      NothingMatched(before, faces, now, clock, cfg);
      assert queue[0..] == queue;
      for i := 0 to |queue|
        invariant PairsKnown(chosen, faces, before)
        invariant chosen + Greedy(queue[i..], chosen) == Greedy(queue, [])
        invariant matchedFaces == Faces(chosen) && matchedTracks == Tracks(chosen)
        invariant Snap(table) == MatchedTable(before, chosen, faces, now)
        invariant results == MatchedResults(before, chosen, faces, now, clock, cfg)
      {
        var c := queue[i];
        assert c in queue;
        GreedyStep(queue, i, chosen);
        if c.face !in matchedFaces && c.track !in matchedTracks {
          MatchStep(before, chosen, c, faces, now, clock, cfg);
          matchedFaces := matchedFaces + {c.face};
          matchedTracks := matchedTracks + {c.track};
          Refresh(table, c.track, faces[c.face], now);
          chosen := chosen + [c];
          var t := table[c.track].View();
          assert t == Snap(table)[c.track];
          results := results + [TrackingResult(c.face, c.track, false, t.hits, t.NeedsRecognition(cfg, clock),
                                               t.CooldownActive(cfg, clock))];
        }
      }
      GreedyEnd(queue, chosen);
    }

    /** Files one new track object under the next id. */
    method AddTrack(cameraId: int, table: map<int, FaceTrack>, face: Box, now: real)
      returns (newId: nat, grown: map<int, FaceTrack>)
      requires Separate(table)
      modifies this`nextTrackId
      ensures newId == old(LastId(cameraId)) + 1 && LastId(cameraId) == newId
      ensures Elsewhere(nextTrackId, cameraId) == Elsewhere(old(nextTrackId), cameraId)
      ensures Separate(grown) && newId in grown && fresh(grown[newId]) && grown == table[newId := grown[newId]]
      ensures Snap(grown) == old(Snap(table))[newId := NewTrack(newId, cameraId, face, now)]
    {
      newId := NextId(cameraId);
      var created := new FaceTrack(newId, cameraId, face, now);
      grown := table[newId := created];
      assert Snap(grown) == Snap(table)[newId := created.View()];
    }

    /** The second loop: a new track for each unmatched face while there is room. */
    method GrowTracks(cameraId: int, kept: map<int, FaceTrack>, matchedFaces: set<nat>, faces: seq<Box>, now: real)
      returns (table: map<int, FaceTrack>, results: seq<TrackingResult>)
      requires Separate(kept)
      modifies this`nextTrackId
      ensures Growth(Snap(table), LastId(cameraId), results)
           == Grown(old(Snap(kept)), old(LastId(cameraId)), matchedFaces, faces, |faces|, cameraId, now, cfg)
      ensures Separate(table) && forall k :: k in table ==> (k in kept && table[k] == kept[k]) || fresh(table[k])
      ensures Elsewhere(nextTrackId, cameraId) == Elsewhere(old(nextTrackId), cameraId)
    {
      hide Snap, Grown, Separate, Last, Elsewhere;
      table, results := kept, [];
      ghost var before, first := Snap(kept), LastId(cameraId);
      GrownStep(before, first, matchedFaces, faces, 0, cameraId, now, cfg);
      for fi := 0 to |faces|
        invariant Separate(table) && forall k :: k in table ==> (k in kept && table[k] == kept[k]) || fresh(table[k])
        invariant Growth(Snap(table), LastId(cameraId), results)
               == Grown(before, first, matchedFaces, faces, fi, cameraId, now, cfg)
        invariant Elsewhere(nextTrackId, cameraId) == Elsewhere(old(nextTrackId), cameraId)
      {
        SnapSize(table);
        GrownStep(before, first, matchedFaces, faces, fi + 1, cameraId, now, cfg);
        if fi !in matchedFaces && |table| < cfg.maxTracks {
          var newId;
          newId, table := AddTrack(cameraId, table, faces[fi], now);
          results := results + [TrackingResult(fi, newId, true, 1, false, false)];
        }
      }
    }

    /** One unmatched track counts a lost frame. */
    method LoseFrame(table: map<int, FaceTrack>, k: int)
      requires k in table && Separate(table)
      modifies table[k]
      ensures Snap(table) == old(Snap(table))[k := old(Snap(table))[k].Lost()]
    {
      InValues(table, k);
      table[k].lostFrames := table[k].lostFrames + 1;
      assert forall j :: j in table && j != k ==> table[j].View() == old(table[j].View());
      assert Snap(table) == old(Snap(table))[k := old(Snap(table))[k].Lost()];
    }

    /** The last loop. */
    method AgeTracks(table: map<int, FaceTrack>, matchedTracks: set<int>, lastId: nat)
      requires Separate(table) && IdsIssued(Snap(table), lastId)
      modifies table.Values
      ensures Snap(table) == Aged(old(Snap(table)), matchedTracks)
    {
      hide Snap, AgedSome, Aged;
      ghost var before := Snap(table);
      var keys := KeysUpTo(table, lastId);
      SnapSize(table);
      assert forall k :: k in table <==> k in Snap(table).Keys;
      AgeBounds(table, matchedTracks, keys);
      assert keys[..0] == [];
      for i := 0 to |keys|
        invariant Snap(table) == AgedSome(before, matchedTracks, keys[..i])
      {
        var tid := keys[i];
        assert tid in keys;
        InValues(table, tid);
        AgeStep(table, before, matchedTracks, keys, i);
        if tid !in matchedTracks { LoseFrame(table, tid); }
      }
      assert keys[..|keys|] == keys;
    }

    /** The body of update on one camera's dict. `now` is the reading at the start of the
        call, `clock` the one the needs_recognition property takes. */
    method UpdateDict(cameraId: int, dict: map<int, FaceTrack>, faces: seq<Box>, now: real, clock: real)
      returns (table: map<int, FaceTrack>, results: seq<TrackingResult>)
      requires Separate(dict) && IdsIssued(Snap(dict), LastId(cameraId))
      modifies this`nextTrackId, dict.Values
      ensures Separate(table) && forall k :: k in table ==> table[k] in dict.Values || fresh(table[k])
      ensures IdsIssued(Snap(table), LastId(cameraId))
      ensures Growth(Snap(table), LastId(cameraId), results)
           == Updated(old(Snap(dict)), old(LastId(cameraId)), cameraId, faces, now, clock, cfg)
      ensures Elsewhere(nextTrackId, cameraId) == Elsewhere(old(nextTrackId), cameraId)
    {
      hide Snap, Separate, CandidatesOf, SortDescending, Greedy, MatchedTable, MatchedResults, Grown, Aged, Faces,
        Tracks, PairsKnown, Pruned, KeysUpTo, IdsIssued;
      SnapSize(dict);
      table := Prune(dict, now);
      ghost var pruned := table;
      ghost var kept, lastId := Snap(table), LastId(cameraId);
      SnapSize(table);
      var assignments := CollectCandidates(faces, table, LastId(cameraId));
      assignments := SortDescending(assignments);
      QueueKnown(kept, lastId, faces, cfg);
      var matchedFaces, matchedTracks, matchedResults := MatchTracks(table, assignments, faces, now, clock);
      ghost var refreshed := Snap(table);
      SnapSize(table);
      FewerIssued(old(Snap(dict)), refreshed, lastId);
      var grownResults;
      table, grownResults := GrowTracks(cameraId, table, matchedFaces, faces, now);
      SnapSize(table);
      GrownIds(refreshed, lastId, matchedFaces, faces, |faces|, cameraId, now, cfg);
      ghost var grown := Snap(table);
      forall track | track in table.Values ensures track in dict.Values || fresh(track) {
        var k := KeyOf(table, track);
        if k in pruned && pruned[k] == track { InValues(pruned, k); }
      }
      AgeTracks(table, matchedTracks, LastId(cameraId));
      SnapSize(table);
      FewerIssued(grown, Snap(table), LastId(cameraId));
      results := matchedResults + grownResults;
    }

    lemma FilingFacts(cameraId: int)
      requires Valid()
      ensures Separate(CameraDict(cameraId)) && IdsIssued(Snap(CameraDict(cameraId)), LastId(cameraId))
      ensures forall c :: c in tracks && c != cameraId ==> tracks[c].Values !! CameraDict(cameraId).Values
    {}

    /** Files a camera's new table. */
    method Store(cameraId: int, table: map<int, FaceTrack>, ghost before: map<int, nat>)
      requires WellFiled(tracks, before) && Separate(table) && IdsIssued(Snap(table), LastId(cameraId))
      requires Elsewhere(before, cameraId) == Elsewhere(nextTrackId, cameraId)
      requires forall c :: c in tracks && c != cameraId ==> tracks[c].Values !! table.Values
      modifies this`tracks
      ensures Valid() && tracks == old(tracks)[cameraId := table]
    {
      hide Separate, WellFiled, Snap, Last, Elsewhere;
      SnapSize(table);
      assert forall k :: k in table ==> k in Snap(table).Keys;
      ElsewhereSame(before, nextTrackId, cameraId);
      StoreKeepsFiling(tracks, before, nextTrackId, cameraId, table);
      tracks := tracks[cameraId := table];
    }

    /** One frame of one camera. */
    method Update(cameraId: int, faces: seq<Box>, now: real, clock: real) returns (results: seq<TrackingResult>)
      requires Valid()
      modifies this`tracks, this`nextTrackId, CameraDict(cameraId).Values
      ensures Valid()
      ensures Growth(TableOf(cameraId), LastId(cameraId), results)
           == Updated(old(TableOf(cameraId)), old(LastId(cameraId)), cameraId, faces, now, clock, cfg)
      ensures forall c :: c != cameraId ==> TableOf(c) == old(TableOf(c))
      ensures forall c :: c != cameraId ==> Last(nextTrackId, c) == Last(old(nextTrackId), c)
    {
      hide Updated, Separate, WellFiled, Snap, Last, Elsewhere, IdsIssued;
      FilingFacts(cameraId);
      ghost var before := nextTrackId;
      var table;
      table, results := UpdateDict(cameraId, CameraDict(cameraId), faces, now, clock);
      ElsewhereSame(before, nextTrackId, cameraId);
      forall c | c in tracks && c != cameraId ensures tracks[c].Values !! table.Values {
        forall track | track in table.Values ensures track !in tracks[c].Values { var k := KeyOf(table, track); }
      }
      Store(cameraId, table, before);
    }

    method MarkRecognized(cameraId: int, trackId: int, employeeId: Option<string>, confidence: real,
                          livenessPassed: Option<bool>, reason: Option<string>, now: real)
      requires Valid()
      modifies CameraDict(cameraId).Values
      ensures Valid()
      ensures TableOf(cameraId)
           == Marked(old(TableOf(cameraId)), trackId, employeeId, confidence, livenessPassed, reason, now)
      ensures forall c :: c != cameraId ==> TableOf(c) == old(TableOf(c))
    {
      hide WellFiled, Separate;
      FilingFacts(cameraId);
      var table := CameraDict(cameraId);
      if trackId in table {
        MarkTrack(table, trackId, employeeId, confidence, livenessPassed, reason, now);
      }
    }

    method MarkTrack(table: map<int, FaceTrack>, k: int, employeeId: Option<string>, confidence: real,
                     livenessPassed: Option<bool>, reason: Option<string>, now: real)
      requires k in table && Separate(table)
      modifies table[k]
      ensures Snap(table) == Marked(old(Snap(table)), k, employeeId, confidence, livenessPassed, reason, now)
    {
      InValues(table, k);
      table[k].Mark(employeeId, confidence, livenessPassed, reason, now);
      assert forall j :: j in table && j != k ==> table[j].View() == old(table[j].View());
      assert Snap(table) == Marked(old(Snap(table)), k, employeeId, confidence, livenessPassed, reason, now);
    }
  }

  function Marked(table: Table, trackId: int, employeeId: Option<string>, confidence: real,
                  livenessPassed: Option<bool>, reason: Option<string>, now: real): Table
  {
    if trackId in table
    then table[trackId := table[trackId].Recognized(employeeId, confidence, livenessPassed, reason, now)]
    else table
  }

  /** Everything in the sorted queue names a face of the frame and a track of the table. */
  lemma QueueKnown(table: Table, lastId: nat, faces: seq<Box>, cfg: TrackingConfig)
    ensures PairsKnown(SortDescending(CandidatesOf(faces, table, KeysUpTo(table, lastId), cfg)), faces, table)
  {
    hide SortDescending, CandidatesOf;
    var keys := KeysUpTo(table, lastId);
    var candidates := CandidatesOf(faces, table, keys, cfg);
    forall c | c in SortDescending(candidates) ensures c.face < |faces| && c.track in table {
      SortKeepsMembers(candidates, c);
      CandidatesMeaning(faces, table, keys, cfg, c);
    }
  }

  ghost predicate IdsIssued(table: Table, nextId: nat) {
    forall k :: k in table ==> 1 <= k <= nextId
  }

  lemma FewerIssued(table: Table, kept: Table, nextId: nat)
    requires IdsIssued(table, nextId) && kept.Keys <= table.Keys
    ensures IdsIssued(kept, nextId)
  {
    assert forall k :: k in kept ==> k in kept.Keys;
  }

  lemma {:induction false} GrownIds(table: Table, nextId: nat, taken: set<nat>, faces: seq<Box>, n: nat, cameraId: int,
                                    now: real, cfg: TrackingConfig)
    requires n <= |faces| && IdsIssued(table, nextId)
    ensures var g := Grown(table, nextId, taken, faces, n, cameraId, now, cfg);
            IdsIssued(g.table, g.nextId) && g.nextId >= nextId
  {
    if n > 0 { GrownIds(table, nextId, taken, faces, n - 1, cameraId, now, cfg); }
  }

  ghost function AgedSome(table: Table, matched: set<int>, keys: seq<int>): Table {
    map k | k in table :: if k in keys && k !in matched then table[k].Lost() else table[k]
  }

  lemma AgeBounds(objects: map<int, FaceTrack>, matched: set<int>, keys: seq<int>)
    requires forall k :: k in keys <==> k in objects
    ensures AgedSome(Snap(objects), matched, []) == Snap(objects)
    ensures AgedSome(Snap(objects), matched, keys) == Aged(Snap(objects), matched)
  {
    var some, all := AgedSome(Snap(objects), matched, keys), Aged(Snap(objects), matched);
    assert forall k :: k in Snap(objects) ==> k in objects;
    assert forall k :: k in all ==> some[k] == all[k];
  }

  lemma AgeStep(objects: map<int, FaceTrack>, table: Table, matched: set<int>, keys: seq<int>, i: nat)
    requires i < |keys| && NoDup(keys) && keys[i] in objects && table.Keys == objects.Keys
    ensures var was := AgedSome(table, matched, keys[..i]);
            && keys[i] in was
            && AgedSome(table, matched, keys[..i + 1])
               == if keys[i] in matched then was else was[keys[i] := was[keys[i]].Lost()]
  {
    assert keys[..i + 1] == keys[..i] + [keys[i]];
    assert keys[i] !in keys[..i];
    assert keys[i] in table.Keys;
  }

  lemma SnapSize(table: map<int, FaceTrack>)
    ensures Snap(table).Keys == table.Keys && |Snap(table)| == |table|
  {
    assert Snap(table).Keys == table.Keys;
  }

  lemma NothingMatched(table: Table, faces: seq<Box>, now: real, clock: real, cfg: TrackingConfig)
    ensures PairsKnown([], faces, table)
    ensures MatchedTable(table, [], faces, now) == table && MatchedResults(table, [], faces, now, clock, cfg) == []
    ensures Faces([]) == {} && Tracks([]) == {}
  {}

  lemma GreedyStep(queue: seq<Candidate>, i: nat, chosen: seq<Candidate>)
    requires i < |queue|
    ensures var c := queue[i];
            chosen + Greedy(queue[i..], chosen)
            == if c.face in Faces(chosen) || c.track in Tracks(chosen) then chosen + Greedy(queue[i + 1..], chosen)
               else chosen + [c] + Greedy(queue[i + 1..], chosen + [c])
  {
    assert queue[i..][1..] == queue[i + 1..];
  }

  lemma GreedyEnd(queue: seq<Candidate>, chosen: seq<Candidate>)
    ensures chosen + Greedy(queue[|queue|..], chosen) == chosen
  {}

  lemma MatchStep(table: Table, chosen: seq<Candidate>, c: Candidate, faces: seq<Box>, now: real, clock: real,
                  cfg: TrackingConfig)
    requires PairsKnown(chosen, faces, table) && c.face < |faces| && c.track in table
    ensures PairsKnown(chosen + [c], faces, table)
    ensures Faces(chosen + [c]) == Faces(chosen) + {c.face} && Tracks(chosen + [c]) == Tracks(chosen) + {c.track}
    ensures var was := MatchedTable(table, chosen, faces, now);
            MatchedTable(table, chosen + [c], faces, now) == was[c.track := was[c.track].Matched(faces[c.face], now)]
    ensures var t := MatchedTable(table, chosen + [c], faces, now)[c.track];
            MatchedResults(table, chosen + [c], faces, now, clock, cfg)
            == MatchedResults(table, chosen, faces, now, clock, cfg)
               + [TrackingResult(c.face, c.track, false, t.hits, t.NeedsRecognition(cfg, clock),
                                 t.CooldownActive(cfg, clock))]
  {
    assert (chosen + [c])[..|chosen|] == chosen;
  }

  lemma {:induction false} SameKeys<A, B>(a: map<int, A>, b: map<int, B>, n: nat)
    requires a.Keys == b.Keys
    ensures KeysUpTo(a, n) == KeysUpTo(b, n)
  {
    assert forall k :: k in a <==> k in a.Keys;
    assert forall k :: k in b <==> k in b.Keys;
    if n > 0 { SameKeys(a, b, n - 1); }
  }
}
