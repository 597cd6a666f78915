/** What holds in every run of a camera's stream loop (backend/app/engine/stream_manager.py). */
module StreamRuns {
  import opened Wrappers
  import opened StreamLoop

  // ── What holds in every run ──────────────────────────────────────────────

  /**
   * Whatever the interleaving, a capture is never released twice and never read by two threads at once. As long
   * as the event loop does not cancel the future of a read on it, it is also never released under a reader and
   * never read after its release.
   */
  lemma ReleaseNeverRacesARead(actions: seq<Action>, cap: nat)
    requires cap in Run(actions).caps
    ensures Run(actions).caps[cap].released <= 1
    ensures Run(actions).caps[cap].readers <= 1
    ensures TearDownRead(cap) !in actions ==> !Run(actions).caps[cap].racedRelease
    ensures TearDownRead(cap) !in actions && Run(actions).caps[cap].readers > 0 ==> Run(actions).caps[cap].released == 0
  {
    RunKeepsInv(actions);
    TornByTearDown(actions, cap);
    hide Run;
    assert Owned(Run(actions), cap);
  }

  lemma TornStep(s: State, a: Action, cap: nat)
    ensures cap in Next(s, a).torn ==> cap in s.torn || a == TearDownRead(cap)
  {
    hide Released;
    ReleaseMoves(s, s.current);
    match a
    case OpenResumes(_, _) => if s.pc.Opening? && s.pc.open.Constructed? { ReleaseMoves(s, Some(s.pc.open.cap)); }
    case ReadResumes(_, _) => ReleaseMoves(s.(failures := 0), s.current);
    case Cancel => CancelKeepsDropped(s);
    case TearDownRead(_) => CancelKeepsDropped(s);
    case TearDownOpen(_) => ReleaseMoves(s.(lostOpens := s.lostOpens + 1), s.current);
    case OrphanCallback(c) => ReleaseMoves(s.(orphaned := s.orphaned - {c}), Some(c));
    case DrainCallback(c) => ReleaseMoves(s.(draining := s.draining - {c}), Some(c));
    case _ =>
  }

  lemma {:induction false} TornByTearDown(actions: seq<Action>, cap: nat)
    ensures cap in Run(actions).torn ==> TearDownRead(cap) in actions
  {
    hide Next;
    if actions != [] {
      var before, a := actions[..|actions| - 1], actions[|actions| - 1];
      TornByTearDown(before, cap);
      TornStep(Run(before), a, cap);
      assert actions == before + [a];
    }
  }

  /** A capture is released, or exactly one party still holds it: the stream, an open, a callback, or nobody again. */
  lemma EveryCaptureHasOneHolder(actions: seq<Action>, cap: nat)
    requires cap in Run(actions).caps
    ensures Claims(Run(actions), cap) + Run(actions).caps[cap].released == 1
  {
    hide Run;
    RunKeepsInv(actions);
    assert Owned(Run(actions), cap);
  }

  /** The offline alert fires once in each outage: at its first failed attempt and never again before a recovery. */
  lemma OneAlertPerOutage(actions: seq<Action>)
    ensures Run(actions).alerts == Run(actions).outagesEnded + if Run(actions).attempts > 0 then 1 else 0
  {
    hide Run;
    RunKeepsInv(actions);
  }

  // ── Reads still in flight ────────────────────────────────────────────────

  function Readers(s: State, cap: nat): nat {
    if cap in s.caps then s.caps[cap].readers else 0
  }

  /** A thread is inside read() that the loop no longer awaits. */
  ghost predicate Stray(s: State, cap: nat) {
    Readers(s, cap) > 0 && s.pc != Reading(cap, ReadBusy)
  }

  /** The loop leaves a read behind that has not returned. */
  predicate Abandons(s: State, a: Action, cap: nat) {
    s.pc == Reading(cap, ReadBusy) && (a == Cancel || a == TearDownRead(cap))
  }

  lemma ReleaseKeepsReaders(s: State, c: Option<nat>, cap: nat)
    ensures Readers(Released(s, c), cap) == Readers(s, cap)
    ensures Released(s, c) == s.(caps := Released(s, c).caps)
  {}

  lemma CancelKeepsReaders(s: State, cap: nat)
    ensures Readers(Cancelled(s), cap) == Readers(s, cap)
    ensures Cancelled(s).pc == Idle
  {
    hide Released;
    match s.pc
    case Opening(OpenBusy) => ReleaseKeepsReaders(s.(orphanOpens := s.orphanOpens + 1), s.current, cap);
    case Opening(Constructed(a)) => ReleaseKeepsReaders(Orphan(s, a), s.current, cap);
    case Reading(a, _) => ReleaseKeepsReaders(Drain(s, a), None, cap);
    case _ => ReleaseKeepsReaders(s, s.current, cap);
  }

  lemma AfterReadKeepsReaders(s: State, read: ReadThread, fileSource: bool, fails: bool, cap: nat)
    requires s.pc.Reading? && s.pc.read == read
    ensures Readers(AfterRead(s, read, fileSource, fails), cap) == Readers(s, cap)
    ensures read != ReadBusy ==> !AfterRead(s, read, fileSource, fails).pc.Reading?
    ensures read == ReadBusy ==> AfterRead(s, read, fileSource, fails) == s
  {
    hide Released;
    ReleaseKeepsReaders(s, s.current, cap);
    ReleaseKeepsReaders(s.(failures := 0), s.current, cap);
  }

  lemma ConnectedReaders(s: State, a: nat, isOpened: bool, settable: bool, cap: nat)
    requires s.pc == Opening(Constructed(a)) && a in s.caps && s.caps[a].readers == 0
    ensures Stray(Connected(s, a, isOpened, settable), cap) <==> Stray(s, cap)
  {
    hide Released;
    ReleaseKeepsReaders(s, Some(a), cap);
  }

  /** Who may be inside read(): only the loop's own thread, and those it left behind. */
  lemma ReadersFacts(s: State, cap: nat)
    requires Inv(s)
    ensures Readers(s, cap) <= 1 && Readers(s, s.nextCap) == 0 && s.nextCap !in s.caps
    ensures s.current.Some? ==> s.current.value in s.caps
    ensures s.current == Some(cap) && s.pc != Reading(cap, ReadBusy) ==> Readers(s, cap) == 0
    ensures s.pc == Opening(Constructed(cap)) ==> cap in s.caps && Readers(s, cap) == 0
    ensures s.pc == Reading(cap, ReadBusy) ==> Readers(s, cap) == 1
    ensures s.pc.Reading? ==> s.current == Some(s.pc.cap)
    ensures cap in s.orphaned ==> Readers(s, cap) == 0
  {
    assert Owned(s, cap) && Owned(s, s.nextCap);
    if s.current.Some? { assert Owned(s, s.current.value); }
  }

  function Raced(s: State, cap: nat): bool {
    cap in s.caps && s.caps[cap].racedRelease
  }

  lemma NewMoves(s: State, cap: nat)
    requires s.nextCap !in s.caps
    ensures WithNew(s) == s.(caps := WithNew(s).caps, nextCap := s.nextCap + 1)
    ensures Readers(WithNew(s), cap) == Readers(s, cap) && (Raced(WithNew(s), cap) <==> Raced(s, cap))
  {}

  lemma BegunMoves(s: State, c: nat, cap: nat)
    requires c in s.caps
    ensures ReadBegun(s, c) == s.(caps := ReadBegun(s, c).caps)
    ensures Readers(ReadBegun(s, c), cap) == Readers(s, cap) + if cap == c then 1 else 0
    ensures Raced(ReadBegun(s, c), cap) <==> Raced(s, cap)
  {}

  lemma EndedMoves(s: State, c: nat, cap: nat)
    ensures ReadEnded(s, c) == s.(caps := ReadEnded(s, c).caps)
    ensures Readers(ReadEnded(s, c), cap)
         == if cap == c && Readers(s, c) > 0 then Readers(s, c) - 1 else Readers(s, cap)
    ensures Raced(ReadEnded(s, c), cap) <==> Raced(s, cap)
  {}

  /** A read is astray exactly if the loop leaves it behind now, or it was astray and does not return now. */
  lemma StrayStep(s: State, a: Action, cap: nat)
    requires Inv(s)
    ensures Stray(Next(s, a), cap) <==> Abandons(s, a, cap) || (Stray(s, cap) && a != DrainReturns(cap))
  {
    hide Next, Inv;
    if Outside(a) { StrayStepOutside(s, a, cap); } else { StrayStepInLoop(s, a, cap); }
  }

  lemma StrayStepInLoop(s: State, a: Action, cap: nat)
    requires Inv(s) && !Outside(a)
    ensures Stray(Next(s, a), cap) <==> Abandons(s, a, cap) || (Stray(s, cap) && a != DrainReturns(cap))
  {
    hide Inv, Next, Stray, Races, Raced, Abandons;
    match a
    case OpenReturns(_) => StrayStepOpen(s, a, cap);
    case OpenResumes(_, _) => StrayStepOpen(s, a, cap);
    case ReadReturns(_) => StrayStepRead(s, a, cap);
    case ReadResumes(_, _) => StrayStepRead(s, a, cap);
    case Loop(_) => StrayStepLoop(s, a, cap);
    case _ => StrayStepOther(s, a, cap);
  }

  lemma StrayStepOpen(s: State, a: Action, cap: nat)
    requires Inv(s) && (a.OpenReturns? || a.OpenResumes?)
    ensures Stray(Next(s, a), cap) <==> Abandons(s, a, cap) || (Stray(s, cap) && a != DrainReturns(cap))
  {
    hide Inv, WithNew, Connected;
    ReadersFacts(s, cap);
    if a.OpenReturns? {
      NewMoves(s, cap);
    } else {
      if s.pc.Opening? && s.pc.open.Constructed? {
        ReadersFacts(s, s.pc.open.cap);
        ConnectedReaders(s, s.pc.open.cap, a.isOpened, a.settable, cap);
      }
    }
  }

  lemma StrayStepRead(s: State, a: Action, cap: nat)
    requires Inv(s) && (a.ReadReturns? || a.ReadResumes?)
    ensures Stray(Next(s, a), cap) <==> Abandons(s, a, cap) || (Stray(s, cap) && a != DrainReturns(cap))
  {
    hide ReadEnded, AfterRead, Inv;
    ReadersFacts(s, cap);
    if s.pc.Reading? {
      ReadersFacts(s, s.pc.cap);
      if a.ReadReturns? {
        EndedMoves(s, s.pc.cap, cap);
      } else {
        AfterReadKeepsReaders(s, s.pc.read, a.fileSource, a.fails, cap);
      }
    }
  }

  lemma StrayStepLoop(s: State, a: Action, cap: nat)
    requires Inv(s) && a.Loop?
    ensures Stray(Next(s, a), cap) <==> Abandons(s, a, cap) || (Stray(s, cap) && a != DrainReturns(cap))
  {
    hide Released, ReadBegun, Inv;
    ReadersFacts(s, cap);
    if s.current.Some? { BegunMoves(s.(pc := Reading(s.current.value, ReadBusy)), s.current.value, cap); }
    ReleaseKeepsReaders(s, s.current, cap);
  }

  lemma StrayStepOther(s: State, a: Action, cap: nat)
    requires Inv(s) && (a.Start? || a.Signal? || a.Wake? || a.LoopError? || a.Cancel?)
    ensures Stray(Next(s, a), cap) <==> Abandons(s, a, cap) || (Stray(s, cap) && a != DrainReturns(cap))
  {
    hide Released, Cancelled, Inv;
    ReadersFacts(s, cap);
    ReleaseKeepsReaders(s, s.current, cap);
    if a.Cancel? { CancelKeepsReaders(s, cap); }
  }

  lemma StrayStepOutside(s: State, a: Action, cap: nat)
    requires Inv(s) && Outside(a)
    ensures Stray(Next(s, a), cap) <==> Abandons(s, a, cap) || (Stray(s, cap) && a != DrainReturns(cap))
  {
    hide Inv, Next, Stray, Races, Raced, Abandons;
    match a
    case OrphanCallback(_) => StrayStepCallback(s, a, cap);
    case DrainCallback(_) => StrayStepCallback(s, a, cap);
    case TearDownRead(_) => StrayStepTearDown(s, a, cap);
    case TearDownOpen(_) => StrayStepTearDown(s, a, cap);
    case _ => StrayStepReturn(s, a, cap);
  }

  lemma StrayStepReturn(s: State, a: Action, cap: nat)
    requires Inv(s) && (a.OrphanReturns? || a.LostReturns? || a.DrainReturns?)
    ensures Stray(Next(s, a), cap) <==> Abandons(s, a, cap) || (Stray(s, cap) && a != DrainReturns(cap))
  {
    hide Inv, WithNew, ReadEnded;
    ReadersFacts(s, cap);
    if a.DrainReturns? { EndedMoves(s, a.cap, cap); } else { NewMoves(s, cap); }
  }

  lemma StrayStepCallback(s: State, a: Action, cap: nat)
    requires Inv(s) && (a.OrphanCallback? || a.DrainCallback?)
    ensures Stray(Next(s, a), cap) <==> Abandons(s, a, cap) || (Stray(s, cap) && a != DrainReturns(cap))
  {
    hide Inv, Released;
    ReadersFacts(s, cap);
    if a.OrphanCallback? {
      ReleaseKeepsReaders(s.(orphaned := s.orphaned - {a.cap}), Some(a.cap), cap);
    } else {
      ReleaseKeepsReaders(s.(draining := s.draining - {a.cap}), Some(a.cap), cap);
    }
  }

  lemma StrayStepTearDown(s: State, a: Action, cap: nat)
    requires Inv(s) && (a.TearDownRead? || a.TearDownOpen?)
    ensures Stray(Next(s, a), cap) <==> Abandons(s, a, cap) || (Stray(s, cap) && a != DrainReturns(cap))
  {
    hide Inv, Released, Cancelled;
    ReadersFacts(s, cap);
    if s.current.Some? { ReadersFacts(s, s.current.value); }
    if a.TearDownRead? {
      CancelKeepsReaders(s, cap);
    } else {
      ReleaseKeepsReaders(s.(lostOpens := s.lostOpens + 1), s.current, cap);
    }
  }

  /** The i-th action leaves a read of `cap` behind, and its thread has not returned since. */
  predicate AbandonedAt(actions: seq<Action>, cap: nat, i: nat)
    requires i < |actions|
  {
    Abandons(Run(actions[..i]), actions[i], cap) && DrainReturns(cap) !in actions[i + 1..]
  }

  lemma {:induction false} StrayExactlyIfAbandoned(actions: seq<Action>, cap: nat)
    ensures Stray(Run(actions), cap) <==> exists i :: 0 <= i < |actions| && AbandonedAt(actions, cap, i)
  {
    hide Next, Abandons, Stray, Inv;
    if actions == [] {
      assert !Stray(INITIAL, cap) by { NoStrayAtFirst(cap); }
    } else {
      var n := |actions| - 1;
      var before, a := actions[..n], actions[n];
      RunKeepsInv(before);
      StrayExactlyIfAbandoned(before, cap);
      StrayStep(Run(before), a, cap);
      forall i | 0 <= i < n
        ensures AbandonedAt(actions, cap, i) <==> AbandonedAt(before, cap, i) && a != DrainReturns(cap)
      {
        assert before[..i] == actions[..i] && actions[i + 1..] == before[i + 1..] + [a];
      }
      assert AbandonedAt(actions, cap, n) <==> Abandons(Run(before), a, cap) by { assert actions[n + 1..] == []; }
    }
  }

  lemma NoStrayAtFirst(cap: nat)
    ensures !Stray(INITIAL, cap)
  {}

  /**
   * Once the loop is over, a capture is unreleased exactly if it waits for a done-callback or was forgotten, and
   * a read of it is in flight exactly if some cancellation reached the loop in the middle of that read, whose
   * thread has not returned since.
   */
  lemma AfterTheLoop(actions: seq<Action>, cap: nat)
    requires Run(actions).pc.Idle? && cap in Run(actions).caps
    ensures Run(actions).caps[cap].released == 0 <==>
              cap in Run(actions).orphaned + Run(actions).draining + Run(actions).dropped
    ensures Run(actions).caps[cap].readers > 0 <==> exists i :: 0 <= i < |actions| && AbandonedAt(actions, cap, i)
  {
    hide Run, AbandonedAt;
    RunKeepsInv(actions);
    StrayExactlyIfAbandoned(actions, cap);
    assert Owned(Run(actions), cap);
  }

  // ── Releases under a reader ──────────────────────────────────────────────

  /** The done-callback of a read whose future was cancelled runs while its thread is still reading. */
  predicate Races(s: State, a: Action, cap: nat) {
    a == DrainCallback(cap) && cap in s.draining && cap in s.torn && Readers(s, cap) > 0
  }

  lemma ReleaseRaces(s: State, c: Option<nat>, cap: nat)
    ensures Released(s, c) == s.(caps := Released(s, c).caps)
    ensures Raced(Released(s, c), cap) <==> Raced(s, cap) || (c == Some(cap) && Readers(s, cap) > 0)
  {}

  lemma CancelRaces(s: State, cap: nat)
    requires Inv(s)
    ensures Raced(Cancelled(s), cap) <==> Raced(s, cap)
  {
    hide Released, Inv;
    ReadersFacts(s, cap);
    match s.pc
    case Opening(OpenBusy) => ReleaseRaces(s.(orphanOpens := s.orphanOpens + 1), s.current, cap);
    case Opening(Constructed(a)) => ReleaseRaces(Orphan(s, a), s.current, cap);
    case Reading(a, _) => ReleaseRaces(Drain(s, a), None, cap);
    case _ => ReleaseRaces(s, s.current, cap);
  }

  lemma AfterReadRaces(s: State, read: ReadThread, fileSource: bool, fails: bool, cap: nat)
    requires Inv(s) && s.pc.Reading? && s.pc.read == read
    ensures Raced(AfterRead(s, read, fileSource, fails), cap) <==> Raced(s, cap)
  {
    hide Released, Inv;
    ReadersFacts(s, cap);
    ReleaseRaces(s, s.current, cap);
    ReleaseRaces(s.(failures := 0), s.current, cap);
  }

  lemma ConnectedRaces(s: State, a: nat, isOpened: bool, settable: bool, cap: nat)
    requires s.pc == Opening(Constructed(a)) && Readers(s, a) == 0
    ensures Raced(Connected(s, a, isOpened, settable), cap) <==> Raced(s, cap)
  {
    hide Released;
    ReleaseRaces(s, Some(a), cap);
  }

  lemma RaceStep(s: State, a: Action, cap: nat)
    requires Inv(s)
    ensures Raced(Next(s, a), cap) <==> Raced(s, cap) || Races(s, a, cap)
  {
    hide Next, Inv;
    if Outside(a) { RaceStepOutside(s, a, cap); } else { RaceStepInLoop(s, a, cap); }
  }

  lemma RaceStepInLoop(s: State, a: Action, cap: nat)
    requires Inv(s) && !Outside(a)
    ensures Raced(Next(s, a), cap) <==> Raced(s, cap) || Races(s, a, cap)
  {
    hide Inv, Next, Stray, Races, Raced, Abandons;
    match a
    case OpenReturns(_) => RaceStepOpen(s, a, cap);
    case OpenResumes(_, _) => RaceStepOpen(s, a, cap);
    case ReadReturns(_) => RaceStepRead(s, a, cap);
    case ReadResumes(_, _) => RaceStepRead(s, a, cap);
    case _ => RaceStepOther(s, a, cap);
  }

  lemma RaceStepOpen(s: State, a: Action, cap: nat)
    requires Inv(s) && (a.OpenReturns? || a.OpenResumes?)
    ensures Raced(Next(s, a), cap) <==> Raced(s, cap) || Races(s, a, cap)
  {
    hide Inv, WithNew, Connected;
    ReadersFacts(s, cap);
    if a.OpenReturns? {
      NewMoves(s, cap);
    } else {
      if s.pc.Opening? && s.pc.open.Constructed? {
        ReadersFacts(s, s.pc.open.cap);
        ConnectedRaces(s, s.pc.open.cap, a.isOpened, a.settable, cap);
      }
    }
  }

  lemma RaceStepRead(s: State, a: Action, cap: nat)
    requires Inv(s) && (a.ReadReturns? || a.ReadResumes?)
    ensures Raced(Next(s, a), cap) <==> Raced(s, cap) || Races(s, a, cap)
  {
    hide ReadEnded, AfterRead, Inv;
    ReadersFacts(s, cap);
    if s.pc.Reading? {
      ReadersFacts(s, s.pc.cap);
      if a.ReadReturns? {
        EndedMoves(s, s.pc.cap, cap);
      } else {
        AfterReadRaces(s, s.pc.read, a.fileSource, a.fails, cap);
      }
    }
  }

  lemma RaceStepOther(s: State, a: Action, cap: nat)
    requires Inv(s) && (a.Start? || a.Signal? || a.Loop? || a.Wake? || a.LoopError? || a.Cancel?)
    ensures Raced(Next(s, a), cap) <==> Raced(s, cap) || Races(s, a, cap)
  {
    hide Released, Cancelled, ReadBegun, Inv;
    ReadersFacts(s, cap);
    if s.current.Some? {
      ReadersFacts(s, s.current.value);
      BegunMoves(s.(pc := Reading(s.current.value, ReadBusy)), s.current.value, cap);
    }
    ReleaseRaces(s, s.current, cap);
    if a.Cancel? { CancelRaces(s, cap); }
  }

  lemma RaceStepOutside(s: State, a: Action, cap: nat)
    requires Inv(s) && Outside(a)
    ensures Raced(Next(s, a), cap) <==> Raced(s, cap) || Races(s, a, cap)
  {
    hide Inv, Next, Stray, Races, Raced, Abandons;
    match a
    case OrphanCallback(_) => RaceStepCallback(s, a, cap);
    case DrainCallback(_) => RaceStepCallback(s, a, cap);
    case TearDownRead(_) => RaceStepTearDown(s, a, cap);
    case TearDownOpen(_) => RaceStepTearDown(s, a, cap);
    case _ => RaceStepReturn(s, a, cap);
  }

  lemma RaceStepReturn(s: State, a: Action, cap: nat)
    requires Inv(s) && (a.OrphanReturns? || a.LostReturns? || a.DrainReturns?)
    ensures Raced(Next(s, a), cap) <==> Raced(s, cap) || Races(s, a, cap)
  {
    hide Inv, WithNew, ReadEnded;
    ReadersFacts(s, cap);
    if a.DrainReturns? { EndedMoves(s, a.cap, cap); } else { NewMoves(s, cap); }
  }

  lemma RaceStepCallback(s: State, a: Action, cap: nat)
    requires Inv(s) && (a.OrphanCallback? || a.DrainCallback?)
    ensures Raced(Next(s, a), cap) <==> Raced(s, cap) || Races(s, a, cap)
  {
    hide Inv, Released;
    ReadersFacts(s, cap);
    if a.OrphanCallback? {
      ReleaseRaces(s.(orphaned := s.orphaned - {a.cap}), Some(a.cap), cap);
    } else {
      ReleaseRaces(s.(draining := s.draining - {a.cap}), Some(a.cap), cap);
    }
  }

  lemma RaceStepTearDown(s: State, a: Action, cap: nat)
    requires Inv(s) && (a.TearDownRead? || a.TearDownOpen?)
    ensures Raced(Next(s, a), cap) <==> Raced(s, cap) || Races(s, a, cap)
  {
    hide Inv, Released, Cancelled;
    ReadersFacts(s, cap);
    if s.current.Some? { ReadersFacts(s, s.current.value); }
    if a.TearDownRead? { CancelRaces(s, cap); } else { ReleaseRaces(s.(lostOpens := s.lostOpens + 1), s.current, cap); }
  }

  predicate RacesAt(actions: seq<Action>, cap: nat, i: nat)
    requires i < |actions|
  {
    Races(Run(actions[..i]), actions[i], cap)
  }

  /** A capture is released under a reader exactly if that step was taken. */
  lemma {:induction false} RacesExactlyByTearDown(actions: seq<Action>, cap: nat)
    ensures Raced(Run(actions), cap) <==> exists i :: 0 <= i < |actions| && RacesAt(actions, cap, i)
  {
    hide Next, Races, Raced, Inv;
    if actions == [] {
      assert !Raced(INITIAL, cap) by { NoRaceAtFirst(cap); }
    } else {
      var n := |actions| - 1;
      var before, a := actions[..n], actions[n];
      RunKeepsInv(before);
      RacesExactlyByTearDown(before, cap);
      RaceStep(Run(before), a, cap);
      forall i | 0 <= i < n ensures RacesAt(actions, cap, i) <==> RacesAt(before, cap, i) {
        assert before[..i] == actions[..i] && before[i] == actions[i];
      }
      assert RacesAt(actions, cap, n) <==> Races(Run(before), a, cap);
    }
  }

  lemma NoRaceAtFirst(cap: nat)
    ensures !Raced(INITIAL, cap)
  {}

  // ── Runs that break a promise ────────────────────────────────────────────

  lemma FirstOpen()
    ensures Run([Start(true), Loop(false), OpenReturns(true)])
            == INITIAL.(caps := map[0 := Capture(0, 0, false)], nextCap := 1, pc := Opening(Constructed(0)),
                        running := true)
  {
    assert [Start(true)] == [] + [Start(true)];
    assert [Start(true), Loop(false)] == [Start(true)] + [Loop(false)];
    assert [Start(true), Loop(false), OpenReturns(true)] == [Start(true), Loop(false)] + [OpenReturns(true)];
    RunStep([], Start(true));
    RunStep([Start(true)], Loop(false));
    RunStep([Start(true), Loop(false)], OpenReturns(true));
  }

  /** _await_stream_task promises no read in flight once it returns; a force-cancel mid-read breaks that. */
  lemma ForceCancelLeavesAReadInFlight()
    ensures var s := Run([Start(true), Loop(false), OpenReturns(true), OpenResumes(true, true), Cancel]);
            s.pc.Idle? && s.caps == map[0 := Capture(1, 0, false)]
  {
    hide Run;
    var prefix := [Start(true), Loop(false), OpenReturns(true)];
    assert prefix + [OpenResumes(true, true)] + [Cancel]
        == [Start(true), Loop(false), OpenReturns(true), OpenResumes(true, true), Cancel];
    FirstOpen();
    RunStep(prefix, OpenResumes(true, true));
    RunStep(prefix + [OpenResumes(true, true)], Cancel);
  }

  /** Shutting the event loop down in the middle of a read releases the capture under the reader. */
  lemma TearDownRacesARead()
    ensures var s := Run([Start(true), Loop(false), OpenReturns(true), OpenResumes(true, true), TearDownRead(0),
                          DrainCallback(0)]);
            s.caps == map[0 := Capture(1, 1, true)]
  {
    hide Run;
    var prefix := [Start(true), Loop(false), OpenReturns(true)];
    assert prefix + [OpenResumes(true, true)] + [TearDownRead(0)] + [DrainCallback(0)]
        == [Start(true), Loop(false), OpenReturns(true), OpenResumes(true, true), TearDownRead(0), DrainCallback(0)];
    FirstOpen();
    RunStep(prefix, OpenResumes(true, true));
    RunStep(prefix + [OpenResumes(true, true)], TearDownRead(0));
    RunStep(prefix + [OpenResumes(true, true)] + [TearDownRead(0)], DrainCallback(0));
  }

  /** The deferred release does come, right after the stuck read returns. */
  lemma DeferredReleaseHappens(actions: seq<Action>, cap: nat)
    requires cap in Run(actions).draining
    ensures var s := Next(Next(Run(actions), DrainReturns(cap)), DrainCallback(cap));
            cap in s.caps && s.caps[cap] == Capture(0, 1, false) && cap !in s.draining
  {
    hide Run;
    RunKeepsInv(actions);
    assert Owned(Run(actions), cap);
  }

  // ── Which captures are never released ────────────────────────────────────

  /**
   * The places where a capture is lost: _connect_stream cannot configure it after opening, or puts it in the place
   * of one that is still held because it reported itself closed; or its open's future was cancelled at shutdown.
   */
  ghost predicate Forgets(s: State, a: Action) {
    || (a == LostReturns(true) && s.lostOpens > 0)
    || (s.pc.Opening? && s.pc.open.Constructed?
        && a.OpenResumes? && a.isOpened
        && (!a.settable || s.current.Some?))
  }

  lemma DroppedByForgetting(s: State, a: Action)
    requires Inv(s)
    ensures Forgets(s, a) ==> exists cap :: cap in Next(s, a).dropped && cap !in s.dropped
    ensures !Forgets(s, a) ==> Next(s, a).dropped == s.dropped
    ensures s.dropped <= Next(s, a).dropped
  {
    hide Next, Inv;
    if Forgets(s, a) {
      ForgetsOne(s, a);
    } else if Outside(a) {
      OutsideKeepsDropped(s, a);
    } else {
      LoopKeepsDropped(s, a);
    }
  }

  lemma ForgetsOne(s: State, a: Action)
    requires Inv(s) && Forgets(s, a)
    ensures exists cap :: cap in Next(s, a).dropped && cap !in s.dropped
    ensures s.dropped <= Next(s, a).dropped
  {
    assert Owned(s, s.nextCap);
    if s.current.Some? { assert Owned(s, s.current.value); }
    if a.OpenResumes? { assert Owned(s, s.pc.open.cap); }
    var cap := if a.LostReturns? then s.nextCap else if a.settable then s.current.value else s.pc.open.cap;
    assert cap in Next(s, a).dropped && cap !in s.dropped;
  }

  lemma LoopKeepsDropped(s: State, a: Action)
    requires !Forgets(s, a) && !Outside(a)
    ensures Next(s, a).dropped == s.dropped
  {
    hide Released, OutsideNext, Cancelled;
    ReleaseMoves(s, s.current);
    match a
    case OpenResumes(_, _) => if s.pc.Opening? && s.pc.open.Constructed? { ReleaseMoves(s, Some(s.pc.open.cap)); }
    case ReadResumes(_, _) => ReleaseMoves(s.(failures := 0), s.current);
    case Cancel => CancelKeepsDropped(s);
    case _ =>
  }

  lemma OutsideKeepsDropped(s: State, a: Action)
    requires !Forgets(s, a) && Outside(a)
    ensures Next(s, a).dropped == s.dropped
  {
    hide Released, LoopNext, Cancelled;
    match a
    case TearDownRead(_) => CancelKeepsDropped(s);
    case TearDownOpen(_) => ReleaseMoves(s.(lostOpens := s.lostOpens + 1), s.current);
    case OrphanCallback(c) => ReleaseMoves(s.(orphaned := s.orphaned - {c}), Some(c));
    case DrainCallback(c) => ReleaseMoves(s.(draining := s.draining - {c}), Some(c));
    case _ =>
  }

  lemma CancelKeepsDropped(s: State)
    ensures Cancelled(s).dropped == s.dropped && Cancelled(s).torn == s.torn
  {
    hide Released;
    match s.pc
    case Opening(OpenBusy) => ReleaseMoves(s.(orphanOpens := s.orphanOpens + 1), s.current);
    case Opening(Constructed(a)) => ReleaseMoves(Orphan(s, a), s.current);
    case Reading(a, _) => ReleaseMoves(Drain(s, a), None);
    case _ => ReleaseMoves(s, s.current);
  }

  lemma {:induction false} DroppedExactlyByForgetting(actions: seq<Action>)
    ensures Run(actions).dropped == {} <==> forall i :: 0 <= i < |actions| ==> !Forgets(Run(actions[..i]), actions[i])
  {
    hide Next, Forgets, Inv;
    if actions != [] {
      var before := actions[..|actions| - 1];
      var a := actions[|actions| - 1];
      RunKeepsInv(before);
      DroppedExactlyByForgetting(before);
      DroppedByForgetting(Run(before), a);
      forall i | 0 <= i < |before| ensures before[..i] == actions[..i] && before[i] == actions[i] {}
      if Run(actions).dropped == {} {
        assert !Forgets(Run(before), a);
        assert Run(before).dropped == {};
        forall i | 0 <= i < |actions| ensures !Forgets(Run(actions[..i]), actions[i]) {
          if i < |before| { assert !Forgets(Run(before[..i]), before[i]); }
        }
      } else if Run(before).dropped != {} {
        var i :| 0 <= i < |before| && Forgets(Run(before[..i]), before[i]);
        assert Forgets(Run(actions[..i]), actions[i]);
      } else {
        assert Forgets(Run(actions[..|before|]), actions[|before|]);
      }
    }
  }

  /**
   * When the loop has ended and no abandoned call is outstanding, every capture ever constructed has
   * been released exactly once, if and only if neither forgetting branch of _connect_stream was taken.
   */
  lemma SettledStreamHasReleasedAll(actions: seq<Action>)
    requires Run(actions).pc.Idle? && Run(actions).orphaned == {} && Run(actions).draining == {}
    ensures (forall cap :: cap in Run(actions).caps ==> Run(actions).caps[cap].released == 1)
            <==> (forall i :: 0 <= i < |actions| ==> !Forgets(Run(actions[..i]), actions[i]))
  {
    hide Run, Forgets;
    var s := Run(actions);
    DroppedExactlyByForgetting(actions);
    RunKeepsInv(actions);
    if s.dropped == {} {
      forall cap | cap in s.caps ensures s.caps[cap].released == 1 { assert Owned(s, cap); }
    } else {
      var cap :| cap in s.dropped;
      assert Owned(s, cap);
    }
  }

  /** It can happen: a camera that opens but refuses its resolution is never released. */
  lemma UnsettableCaptureIsForgotten()
    ensures Run([Start(true), Loop(false), OpenReturns(true), OpenResumes(true, false)]).dropped == {0}
  {
    hide Run;
    var prefix := [Start(true), Loop(false), OpenReturns(true)];
    assert prefix + [OpenResumes(true, false)] == [Start(true), Loop(false), OpenReturns(true),
                                                   OpenResumes(true, false)];
    FirstOpen();
    RunStep(prefix, OpenResumes(true, false));
  }
}
