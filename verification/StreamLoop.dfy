/**
 * Who may release a camera's capture, and when (backend/app/engine/stream_manager.py).
 *
 * A stream's read loop runs on the event loop; open() and read() run on worker threads.
 * Each action below is one stretch of code between two awaits, one thread returning, one
 * callback, or one outside signal, so a sequence of actions is one interleaving. An action
 * that is not possible in a state leaves the state as it is.
 */
module StreamLoop {
  import opened Wrappers

  const READ_FAILURE_STREAK: nat := 5

  /** `readers`: worker threads inside read(). `racedRelease`: it was released while there were any. */
  datatype Capture = Capture(readers: nat, released: nat, racedRelease: bool)

  /** What a worker thread has come to. */
  datatype OpenThread = OpenBusy | Constructed(cap: nat) | OpenRaised
  datatype ReadThread = ReadBusy | Frame | NoFrame | ReadRaised

  /** Where the read loop is waiting. */
  datatype Pc =
    | Idle                                 // no loop task
    | Top                                  // about to test the loop condition
    | Opening(open: OpenThread)            // awaiting shield(open_fut)
    | Reading(cap: nat, read: ReadThread)  // awaiting shield(read_fut)
    | Sleeping                             // any other await of the loop body
    | Backoff                              // _reconnect_backoff in the loop body
    | HandlerBackoff                       // _reconnect_backoff in the exception handler

  datatype State = State(
    caps: map<nat, Capture>,
    nextCap: nat,              // captures constructed so far
    pc: Pc,
    current: Option<nat>,      // stream._capture
    running: bool,             // stream._running
    managerRunning: bool,      // self._running
    failures: nat,             // read_failures
    attempts: nat,             // stream.reconnect_attempts
    orphanOpens: nat,          // abandoned opens whose thread is still busy
    orphaned: set<nat>,        // abandoned opens' captures, awaiting their done-callback
    draining: set<nat>,        // captures of abandoned reads, awaiting their done-callback
    dropped: set<nat>,         // captures the code forgets without releasing
    torn: set<nat>,            // captures whose read future was itself cancelled
    lostOpens: nat,            // opens whose future was cancelled and whose thread is still busy
    alerts: nat,               // CAMERA_OFFLINE alerts so far
    outagesEnded: nat)         // times reconnect_attempts went back to zero from above

  datatype Action =
    | Start(resetAttempts: bool)  // start(), start_stream(), or a restart by the health monitor
    | Signal(streamRuns: bool, managerRuns: bool)  // stop, stop_stream, remove_stream, start
    | Loop(isOpened: bool)        // the loop condition and the test for an open capture
    | OpenReturns(ok: bool)       // the worker thread finishes the constructor
    | OpenResumes(isOpened: bool, settable: bool)
    | ReadReturns(result: ReadThread)
    | ReadResumes(fileSource: bool, fails: bool)
    | Wake                        // a sleep ends
    | LoopError                   // any other exception in the loop body, with no read in flight
    | Cancel                      // force-cancel delivered at the current await
    | TearDownRead(cap: nat)      // the event loop, shutting down, cancels the future of a read
    | TearDownOpen(abandoned: bool)  // or of an open: an abandoned one, or the one the loop awaits
    | LostReturns(ok: bool)       // the thread of such an open returns
    | OrphanReturns(ok: bool)
    | OrphanCallback(cap: nat)
    | DrainReturns(cap: nat)
    | DrainCallback(cap: nat)

  const INITIAL := State(map[], 0, Idle, None, false, true, 0, 0, 0, {}, {}, {}, {}, 0, 0, 0)

  /** _safe_release. */
  function Released(s: State, cap: Option<nat>): State {
    if cap.Some? && cap.value in s.caps then
      var c := s.caps[cap.value];
      s.(caps := s.caps[cap.value := Capture(c.readers, c.released + 1, c.racedRelease || c.readers > 0)])
    else s
  }

  /** _release_capture. */
  function ReleaseCurrent(s: State): State {
    Released(s, s.current).(current := None)
  }

  /** The finally block, after which the loop task is done. */
  function Finished(s: State): State {
    ReleaseCurrent(s).(pc := Idle)
  }

  /** _reconnect_backoff up to its sleep. */
  function BackingOff(s: State, pc: Pc): State {
    s.(pc := pc, attempts := s.attempts + 1, alerts := s.alerts + if s.attempts == 0 then 1 else 0)
  }

  /** reconnect_attempts = 0. */
  function AttemptsReset(s: State): State {
    s.(attempts := 0, outagesEnded := s.outagesEnded + if s.attempts > 0 then 1 else 0)
  }

  /** The exception handler up to its sleep. */
  function Handled(s: State): State {
    BackingOff(ReleaseCurrent(s).(failures := 0), HandlerBackoff)
  }

  /** A worker thread enters read(). */
  function ReadBegun(s: State, cap: nat): State {
    if cap in s.caps then s.(caps := s.caps[cap := s.caps[cap].(readers := s.caps[cap].readers + 1)]) else s
  }

  /** A worker thread leaves read(). */
  function ReadEnded(s: State, cap: nat): State {
    if cap in s.caps && s.caps[cap].readers > 0
    then s.(caps := s.caps[cap := s.caps[cap].(readers := s.caps[cap].readers - 1)]) else s
  }

  /** The constructor yields a capture object nobody has seen before, numbered `s.nextCap`. */
  function WithNew(s: State): State {
    s.(caps := s.caps[s.nextCap := Capture(0, 0, false)], nextCap := s.nextCap + 1)
  }

  /** _connect_stream from the opened capture on; success goes straight into the next read. */
  function Connected(s: State, cap: nat, isOpened: bool, settable: bool): State {
    if !isOpened then BackingOff(Released(s, Some(cap)), Backoff)
    else if !settable then BackingOff(s.(dropped := s.dropped + {cap}), Backoff)
    else
      var forgotten := if s.current.Some? then {s.current.value} else {};
      ReadBegun(s.(current := Some(cap), dropped := s.dropped + forgotten, failures := 0, pc := Reading(cap, ReadBusy)),
                cap)
  }

  /** The loop after read() has come back. */
  function AfterRead(s: State, read: ReadThread, fileSource: bool, fails: bool): State {
    match read
    case ReadBusy => s
    case ReadRaised => Handled(s)
    case NoFrame =>
      if s.failures + 1 < READ_FAILURE_STREAK then s.(failures := s.failures + 1, pc := Top)
      else
        var r := ReleaseCurrent(s.(failures := 0));
        if fileSource then r.(pc := Sleeping) else BackingOff(r, Backoff)
    case Frame =>
      if fails then Handled(s)
      else AttemptsReset(s.(failures := 0, pc := Sleeping))
  }

  /** A force-cancel mid-open leaves the capture to _release_open_result. */
  function Orphan(s: State, cap: nat): State {
    s.(pc := Idle, orphaned := s.orphaned + {cap})
  }

  /** A force-cancel mid-read leaves the capture to _drain_and_release. */
  function Drain(s: State, cap: nat): State {
    s.(pc := Idle, current := None, draining := s.draining + {cap})
  }

  /** A cancellation delivered where the loop waits. */
  function Cancelled(s: State): State {
    match s.pc
    case Idle => s
    case Opening(OpenBusy) => Finished(s.(orphanOpens := s.orphanOpens + 1))
    case Opening(Constructed(cap)) => Finished(Orphan(s, cap))
    case Reading(cap, _) => Finished(Drain(s, cap))
    case _ => Finished(s)
  }

  /** The actions of worker threads, callbacks and the event loop's shutdown, as opposed to the read loop's own. */
  predicate Outside(a: Action) {
    || a.OrphanReturns? || a.OrphanCallback? || a.LostReturns? || a.DrainReturns? || a.DrainCallback?
    || a.TearDownRead? || a.TearDownOpen?
  }

  /** What the read loop does, and what is done to it. */
  function LoopNext(s: State, a: Action): State {
    match a
    case Start(reset) =>
      if s.pc != Idle then s
      else
        var t := s.(pc := Top, running := true, failures := 0);
        if reset then AttemptsReset(t) else t
    case Signal(stream, manager) => s.(running := stream && s.running, managerRunning := manager)
    case Loop(isOpened) =>
      if s.pc != Top then s
      else if !s.running || !s.managerRunning then Finished(s)
      else if s.current.None? || !isOpened then s.(pc := Opening(OpenBusy))
      else ReadBegun(s.(pc := Reading(s.current.value, ReadBusy)), s.current.value)
    case OpenReturns(ok) =>
      if s.pc != Opening(OpenBusy) then s
      else if ok then WithNew(s).(pc := Opening(Constructed(s.nextCap)))
      else s.(pc := Opening(OpenRaised))
    case OpenResumes(isOpened, settable) =>
      (match s.pc
       case Opening(Constructed(cap)) => Connected(s, cap, isOpened, settable)
       case Opening(OpenRaised) => BackingOff(s, Backoff)
       case _ => s)
    case ReadReturns(result) =>
      if s.pc.Reading? && s.pc.read.ReadBusy? && !result.ReadBusy?
      then ReadEnded(s, s.pc.cap).(pc := Reading(s.pc.cap, result)) else s
    case ReadResumes(fileSource, fails) =>
      if s.pc.Reading? then AfterRead(s, s.pc.read, fileSource, fails) else s
    case Wake => if s.pc in {Sleeping, Backoff, HandlerBackoff} then s.(pc := Top) else s
    case LoopError =>
      if (s.pc == Top && s.running && s.managerRunning) || s.pc == Sleeping then Handled(s) else s
    case Cancel => Cancelled(s)
    case _ => s
  }

  /** What worker threads, done-callbacks and the event loop's shutdown do. */
  function OutsideNext(s: State, a: Action): State {
    match a
    case OrphanReturns(ok) =>
      if s.orphanOpens == 0 then s
      else if ok then WithNew(s).(orphanOpens := s.orphanOpens - 1, orphaned := s.orphaned + {s.nextCap})
      else s.(orphanOpens := s.orphanOpens - 1)
    case OrphanCallback(cap) =>
      if cap in s.orphaned then Released(s.(orphaned := s.orphaned - {cap}), Some(cap)) else s
    case TearDownRead(cap) =>
      if s.pc.Reading? && s.pc.cap == cap then Cancelled(s).(torn := s.torn + {cap})
      else if cap in s.draining then s.(torn := s.torn + {cap}) else s
    case TearDownOpen(abandoned) =>
      if abandoned && s.orphanOpens > 0 then s.(orphanOpens := s.orphanOpens - 1, lostOpens := s.lostOpens + 1)
      else if !abandoned && s.pc == Opening(OpenBusy) then Finished(s.(lostOpens := s.lostOpens + 1))
      else s
    case LostReturns(ok) =>
      if s.lostOpens == 0 then s
      else if ok then WithNew(s).(lostOpens := s.lostOpens - 1, dropped := s.dropped + {s.nextCap})
      else s.(lostOpens := s.lostOpens - 1)
    case DrainReturns(cap) => if s.pc != Reading(cap, ReadBusy) then ReadEnded(s, cap) else s
    case DrainCallback(cap) =>
      if cap in s.draining && cap in s.caps && (s.caps[cap].readers == 0 || cap in s.torn)
      then Released(s.(draining := s.draining - {cap}), Some(cap)) else s
    case _ => s
  }

  function Next(s: State, a: Action): State {
    if Outside(a) then OutsideNext(s, a) else LoopNext(s, a)
  }

  function Run(actions: seq<Action>): State {
    if actions == [] then INITIAL else Next(Run(actions[..|actions| - 1]), actions[|actions| - 1])
  }

  // ── Ownership ────────────────────────────────────────────────────────────

  ghost function One(b: bool): nat {
    if b then 1 else 0
  }

  /** How many parties still hold a capture. */
  ghost function Claims(s: State, cap: nat): nat {
    One(s.current == Some(cap)) + One(s.pc == Opening(Constructed(cap)))
    + One(cap in s.orphaned) + One(cap in s.draining) + One(cap in s.dropped)
  }

  /** Exactly one party holds the capture or has released it, and a read is in flight only where it may be. */
  ghost predicate Owned(s: State, cap: nat) {
    if cap < s.nextCap then
      && cap in s.caps
      && Claims(s, cap) + s.caps[cap].released == 1
      && (s.caps[cap].racedRelease ==> s.caps[cap].released == 1 && cap in s.torn)
      && s.caps[cap].readers <= 1
      && (s.caps[cap].readers == 1 ==> s.pc == Reading(cap, ReadBusy) || cap in s.draining || s.caps[cap].racedRelease)
      && (s.pc == Reading(cap, ReadBusy) ==> s.caps[cap].readers == 1)
    else cap !in s.caps && Claims(s, cap) == 0
  }

  ghost predicate Steady(s: State) {
    && (s.pc.Reading? ==> s.current == Some(s.pc.cap))
    && (s.pc.Idle? ==> s.current.None?)
    && s.failures < READ_FAILURE_STREAK
    && s.alerts == s.outagesEnded + One(s.attempts > 0)
  }

  ghost predicate Inv(s: State) {
    Steady(s) && forall cap: nat :: Owned(s, cap)
  }

  /** The loop is at a point where no capture is being opened or read. */
  ghost predicate Quiet(pc: Pc) {
    !(pc.Opening? && pc.open.Constructed?) && !(pc.Reading? && pc.read.ReadBusy?)
  }

  /** `t` holds the captures of `s`, whatever else differs. */
  ghost predicate SameHands(s: State, t: State) {
    && t.caps == s.caps && t.nextCap == s.nextCap && t.current == s.current
    && t.orphaned == s.orphaned && t.draining == s.draining && t.dropped == s.dropped && s.torn <= t.torn
  }

  lemma QuietMoveKeepsOwned(s: State, t: State, cap: nat)
    requires Owned(s, cap) && SameHands(s, t) && Quiet(s.pc) && Quiet(t.pc)
    ensures Owned(t, cap)
  {}

  lemma ReleaseCurrentKeepsOwned(s: State, cap: nat)
    requires Quiet(s.pc) && Owned(s, cap) && (s.current.Some? ==> Owned(s, s.current.value))
    ensures Owned(ReleaseCurrent(s), cap)
  {}

  /** Letting the current capture go and then moving to a quiet point. */
  lemma LettingGoKeepsOwned(s: State, t: State, cap: nat)
    requires Quiet(s.pc) && (forall c: nat :: Owned(s, c))
    requires Quiet(t.pc) && SameHands(ReleaseCurrent(s), t)
    ensures Owned(t, cap)
  {
    hide Owned;
    assert Owned(s, cap);
    if s.current.Some? { assert Owned(s, s.current.value); }
    ReleaseCurrentKeepsOwned(s, cap);
    QuietMoveKeepsOwned(ReleaseCurrent(s), t, cap);
  }

  lemma OrphanKeepsOwned(s: State, a: nat, cap: nat)
    requires s.pc == Opening(Constructed(a)) && Owned(s, a) && Owned(s, cap)
    ensures Owned(Orphan(s, a), cap)
  {}

  lemma DrainKeepsOwned(s: State, a: nat, cap: nat)
    requires s.pc.Reading? && s.pc.cap == a && s.current == Some(a) && Owned(s, a) && Owned(s, cap)
    ensures Owned(Drain(s, a), cap)
  {}

  lemma CancelKeepsOwned(s: State, cap: nat)
    requires Inv(s)
    ensures Owned(Cancelled(s), cap)
  {
    hide Owned;
    match s.pc
    case Idle => assert Owned(s, cap);
    case Opening(OpenBusy) =>
      LettingGoKeepsOwned(s, Cancelled(s), cap);
    case Opening(Constructed(a)) =>
      forall c: nat ensures Owned(Orphan(s, a), c) {
        assert Owned(s, a) && Owned(s, c);
        OrphanKeepsOwned(s, a, c);
      }
      LettingGoKeepsOwned(Orphan(s, a), Cancelled(s), cap);
    case Reading(a, _) =>
      forall c: nat ensures Owned(Drain(s, a), c) {
        assert Owned(s, a) && Owned(s, c);
        DrainKeepsOwned(s, a, c);
      }
      LettingGoKeepsOwned(Drain(s, a), Cancelled(s), cap);
    case _ => LettingGoKeepsOwned(s, Cancelled(s), cap);
  }

  lemma AfterReadKeepsOwned(s: State, read: ReadThread, fileSource: bool, fails: bool, cap: nat)
    requires Inv(s) && s.pc.Reading? && s.pc.read == read
    ensures Owned(AfterRead(s, read, fileSource, fails), cap)
  {
    hide Owned;
    var t := AfterRead(s, read, fileSource, fails);
    assert Owned(s, cap);
    if read != ReadBusy {
      if read == ReadRaised || (read == Frame && fails) || (read == NoFrame && s.failures + 1 >= READ_FAILURE_STREAK) {
        LettingGoKeepsOwned(s, t, cap);
      } else {
        QuietMoveKeepsOwned(s, t, cap);
      }
    }
  }

  lemma ConnectedKeepsOwned(s: State, a: nat, isOpened: bool, settable: bool, cap: nat)
    requires Owned(s, a) && Owned(s, cap) && (s.current.Some? ==> Owned(s, s.current.value))
    requires s.pc == Opening(Constructed(a))
    ensures Owned(Connected(s, a, isOpened, settable), cap)
  {
    hide BackingOff;
    var t := Connected(s, a, isOpened, settable);
    if !isOpened {
      var m := Released(s, Some(a));
      assert Owned(m.(pc := Idle), cap);
      assert SameHands(m, t) && t.pc == Backoff by { BackingOffMoves(m, Backoff); }
    } else if !settable {
      var m := s.(dropped := s.dropped + {a});
      assert Owned(m.(pc := Idle), cap);
      assert SameHands(m, t) && t.pc == Backoff by { BackingOffMoves(m, Backoff); }
    }
  }

  lemma BackingOffMoves(s: State, pc: Pc)
    ensures SameHands(s, BackingOff(s, pc)) && BackingOff(s, pc).pc == pc
  {}

  lemma OpenReturnsKeepsOwned(s: State, a: Action, cap: nat)
    requires Inv(s) && a.OpenReturns?
    ensures Owned(Next(s, a), cap)
  {
    hide OutsideNext;
    assert Owned(s, cap) && Owned(s, s.nextCap);
  }

  lemma OpenResumesKeepsOwned(s: State, a: Action, cap: nat)
    requires Inv(s) && a.OpenResumes?
    ensures Owned(Next(s, a), cap)
  {
    hide Owned, Connected, BackingOff;
    assert Owned(s, cap);
    if s.current.Some? { assert Owned(s, s.current.value); }
    match s.pc
    case Opening(Constructed(c)) =>
      assert Owned(s, c);
      ConnectedKeepsOwned(s, c, a.isOpened, a.settable, cap);
    case Opening(OpenRaised) =>
      BackingOffMoves(s, Backoff);
      QuietMoveKeepsOwned(s, Next(s, a), cap);
    case _ =>
  }

  lemma LateOpenKeepsOwned(s: State, a: Action, cap: nat)
    requires Inv(s) && (a.OrphanReturns? || a.LostReturns?)
    ensures Owned(Next(s, a), cap)
  {
    hide Owned, LoopNext;
    assert Owned(s, cap) && Owned(s, s.nextCap);
    if a.OrphanReturns? && s.orphanOpens > 0 {
      if a.ok { NewlyOwned(s, Next(s, a), cap); } else { TornKeepsOwned(s, Next(s, a), cap); }
    } else if a.LostReturns? && s.lostOpens > 0 {
      if a.ok { NewlyOwned(s, Next(s, a), cap); } else { TornKeepsOwned(s, Next(s, a), cap); }
    }
  }

  /** A new capture that joins the orphans or is lost at once. */
  lemma NewlyOwned(s: State, t: State, cap: nat)
    requires Owned(s, cap) && Owned(s, s.nextCap) && (s.pc.Reading? ==> s.current == Some(s.pc.cap))
    requires t.caps == WithNew(s).caps && t.nextCap == s.nextCap + 1 && t.pc == s.pc && t.current == s.current
    requires t.draining == s.draining && s.torn <= t.torn
    requires (t.orphaned == s.orphaned + {s.nextCap} && t.dropped == s.dropped)
          || (t.orphaned == s.orphaned && t.dropped == s.dropped + {s.nextCap})
    ensures Owned(t, cap)
  {}

  lemma OrphanCallbackKeepsOwned(s: State, a: Action, cap: nat)
    requires Inv(s) && a.OrphanCallback?
    ensures Owned(Next(s, a), cap)
  {
    assert Owned(s, cap) && Owned(s, a.cap);
  }

  lemma TearDownKeepsOwned(s: State, a: Action, cap: nat)
    requires Inv(s) && (a.TearDownRead? || a.TearDownOpen?)
    ensures Owned(Next(s, a), cap)
  {
    hide Owned;
    assert Owned(s, cap);
    if a.TearDownRead? {
      if s.pc.Reading? && s.pc.cap == a.cap {
        CancelKeepsOwned(s, cap);
        TornKeepsOwned(Cancelled(s), Next(s, a), cap);
      } else {
        TornKeepsOwned(s, Next(s, a), cap);
      }
    } else if !a.abandoned && s.pc == Opening(OpenBusy) {
      LettingGoKeepsOwned(s, Next(s, a), cap);
    } else {
      TornKeepsOwned(s, Next(s, a), cap);
    }
  }

  lemma TornKeepsOwned(s: State, t: State, cap: nat)
    requires Owned(s, cap) && SameHands(s, t) && t.pc == s.pc
    ensures Owned(t, cap)
  {}

  lemma DrainActionKeepsOwned(s: State, a: Action, cap: nat)
    requires Inv(s) && (a.DrainReturns? || a.DrainCallback?)
    ensures Owned(Next(s, a), cap)
  {
    assert Owned(s, cap) && Owned(s, a.cap);
  }

  lemma LoopKeepsOwned(s: State, a: Action, cap: nat)
    requires Inv(s) && (a.Loop? || a.LoopError?)
    ensures Owned(Next(s, a), cap)
  {
    assert Owned(s, cap);
    if s.current.Some? { assert Owned(s, s.current.value); }
    var goesOn := s.running && s.managerRunning;
    if (a.LoopError? && (s.pc == Sleeping || (s.pc == Top && goesOn))) || (s.pc == Top && a.Loop? && !goesOn) {
      hide Owned;
      LettingGoKeepsOwned(s, Next(s, a), cap);
    }
  }

  lemma ReadReturnsKeepsOwned(s: State, a: Action, cap: nat)
    requires Inv(s) && a.ReadReturns?
    ensures Owned(Next(s, a), cap)
  {
    assert Owned(s, cap);
    if s.pc.Reading? { assert Owned(s, s.pc.cap); }
  }

  lemma NextKeepsOwned(s: State, a: Action, cap: nat)
    requires Inv(s)
    ensures Owned(Next(s, a), cap)
  {
    hide Owned;
    assert Owned(s, cap);
    match a
    case Start(_) => if s.pc.Idle? { QuietMoveKeepsOwned(s, Next(s, a), cap); }
    case Signal(_, _) => SignalKeepsOwned(s, a, cap);
    case Loop(_) => LoopKeepsOwned(s, a, cap);
    case OpenReturns(_) => OpenReturnsKeepsOwned(s, a, cap);
    case OpenResumes(_, _) => OpenResumesKeepsOwned(s, a, cap);
    case ReadReturns(_) => ReadReturnsKeepsOwned(s, a, cap);
    case ReadResumes(f, e) => if s.pc.Reading? { AfterReadKeepsOwned(s, s.pc.read, f, e, cap); }
    case Wake => if Quiet(s.pc) { QuietMoveKeepsOwned(s, Next(s, a), cap); }
    case LoopError => LoopKeepsOwned(s, a, cap);
    case TearDownRead(_) => TearDownKeepsOwned(s, a, cap);
    case TearDownOpen(_) => TearDownKeepsOwned(s, a, cap);
    case LostReturns(_) => LateOpenKeepsOwned(s, a, cap);
    case Cancel => CancelKeepsOwned(s, cap);
    case OrphanReturns(_) => LateOpenKeepsOwned(s, a, cap);
    case OrphanCallback(_) => OrphanCallbackKeepsOwned(s, a, cap);
    case DrainReturns(_) => DrainActionKeepsOwned(s, a, cap);
    case DrainCallback(_) => DrainActionKeepsOwned(s, a, cap);
  }

  lemma SignalKeepsOwned(s: State, a: Action, cap: nat)
    requires Owned(s, cap) && a.Signal?
    ensures Owned(Next(s, a), cap)
  {}

  lemma ReleaseMoves(s: State, cap: Option<nat>)
    ensures Released(s, cap) == s.(caps := Released(s, cap).caps)
  {}

  lemma CancelKeepsSteady(s: State)
    requires Steady(s)
    ensures Steady(Cancelled(s))
  {
    hide Released;
    match s.pc
    case Opening(OpenBusy) => ReleaseMoves(s.(orphanOpens := s.orphanOpens + 1), s.current);
    case Opening(Constructed(a)) => ReleaseMoves(Orphan(s, a), s.current);
    case Reading(a, _) => ReleaseMoves(Drain(s, a), None);
    case _ => ReleaseMoves(s, s.current);
  }

  lemma AfterReadKeepsSteady(s: State, read: ReadThread, fileSource: bool, fails: bool)
    requires Steady(s)
    ensures Steady(AfterRead(s, read, fileSource, fails))
  {
    hide Released;
    ReleaseMoves(s, s.current);
    ReleaseMoves(s.(failures := 0), s.current);
  }

  lemma OpenResumesKeepsSteady(s: State, a: Action)
    requires Steady(s) && a.OpenResumes?
    ensures Steady(Next(s, a))
  {
    hide Released;
    if s.pc.Opening? && s.pc.open.Constructed? { ReleaseMoves(s, Some(s.pc.open.cap)); }
  }

  lemma NextKeepsSteady(s: State, a: Action)
    requires Steady(s)
    ensures Steady(Next(s, a))
  {
    hide Released, Connected, AfterRead, Cancelled;
    ReleaseMoves(s, s.current);
    match a
    case OpenResumes(_, _) => OpenResumesKeepsSteady(s, a);
    case ReadResumes(f, e) => if s.pc.Reading? { AfterReadKeepsSteady(s, s.pc.read, f, e); }
    case Cancel => CancelKeepsSteady(s);
    case OrphanCallback(c) => ReleaseMoves(s.(orphaned := s.orphaned - {c}), Some(c));
    case DrainCallback(c) => ReleaseMoves(s.(draining := s.draining - {c}), Some(c));
    case TearDownRead(c) => CancelKeepsSteady(s);
    case TearDownOpen(_) => ReleaseMoves(s.(lostOpens := s.lostOpens + 1), s.current);
    case _ =>
  }

  lemma {:induction false} RunKeepsInv(actions: seq<Action>)
    ensures Inv(Run(actions))
  {
    hide Owned, Steady, Next;
    if actions == [] {
      assert Steady(INITIAL) by { SteadyAtFirst(); }
      forall cap: nat ensures Owned(INITIAL, cap) { NothingAtFirst(cap); }
    } else {
      var s, a := Run(actions[..|actions| - 1]), actions[|actions| - 1];
      RunKeepsInv(actions[..|actions| - 1]);
      NextKeepsSteady(s, a);
      forall cap: nat ensures Owned(Next(s, a), cap) { NextKeepsOwned(s, a, cap); }
    }
  }

  lemma RunStep(actions: seq<Action>, a: Action)
    ensures Run(actions + [a]) == Next(Run(actions), a)
  {
    assert (actions + [a])[..|actions|] == actions;
  }

  lemma SteadyAtFirst()
    ensures Steady(INITIAL)
  {}

  lemma NothingAtFirst(cap: nat)
    ensures Owned(INITIAL, cap)
  {}
}
