/**
 * What the stream loop does when (backend/app/engine/stream_manager.py): when it ends, when it opens and reads, how
 * many failed reads cost a capture its place, and which failures make an outage.
 */
module StreamProgress {
  import opened Wrappers
  import opened StreamLoop

  // ── The end of the loop ──────────────────────────────────────────────────

  /** Both flags of the loop condition. */
  predicate MayGoOn(s: State) {
    s.running && s.managerRunning
  }

  /** The action cancels the loop at the await it is in. */
  predicate CancelsLoop(s: State, a: Action) {
    || a == Cancel
    || (s.pc.Reading? && a == TearDownRead(s.pc.cap))
    || (s.pc == Opening(OpenBusy) && a == TearDownOpen(false))
  }

  /** A loop ends exactly by a cancellation, or by testing its condition when a flag is down. */
  lemma LoopEndsExactly(s: State, a: Action)
    requires !s.pc.Idle?
    ensures Next(s, a).pc.Idle? <==> CancelsLoop(s, a) || (s.pc == Top && a.Loop? && !MayGoOn(s))
  {
    hide Released;
    ReleaseMoves(s, s.current);
    if a.ReadResumes? { ReleaseMoves(s.(failures := 0), s.current); }
    if a.OpenResumes? && s.pc.Opening? && s.pc.open.Constructed? { ReleaseMoves(s, Some(s.pc.open.cap)); }
    if a.OrphanCallback? { ReleaseMoves(s.(orphaned := s.orphaned - {a.cap}), Some(a.cap)); }
    if a.DrainCallback? { ReleaseMoves(s.(draining := s.draining - {a.cap}), Some(a.cap)); }
  }

  /** What is none of the loop's own business moves it nowhere, unless it ends it. */
  lemma OutsideMovesNothing(s: State, a: Action)
    requires Outside(a)
    ensures Next(s, a).pc == s.pc || Next(s, a).pc.Idle?
  {
    hide Released;
    ReleaseMoves(s, s.current);
    if a.OrphanCallback? { ReleaseMoves(s.(orphaned := s.orphaned - {a.cap}), Some(a.cap)); }
    if a.DrainCallback? { ReleaseMoves(s.(draining := s.draining - {a.cap}), Some(a.cap)); }
  }

  /** Neither do the steps that are not about to read or open. */
  lemma OthersBeginNothing(s: State, a: Action)
    requires !Outside(a) && !a.Loop? && !a.OpenResumes?
    ensures Next(s, a).pc == s.pc || !(Next(s, a).pc == Opening(OpenBusy)
                                       || (Next(s, a).pc.Reading? && Next(s, a).pc.read.ReadBusy?))
  {
    hide Released;
    ReleaseMoves(s, s.current);
    if a.ReadResumes? { ReleaseMoves(s.(failures := 0), s.current); }
  }

  lemma OpenedBegins(s: State, a: Action, cap: nat)
    requires a.OpenResumes?
    ensures Next(s, a).pc != Opening(OpenBusy) || Next(s, a).pc == s.pc
    ensures s.pc != Reading(cap, ReadBusy) ==>
      (Next(s, a).pc == Reading(cap, ReadBusy) <==>
         s.pc == Opening(Constructed(cap)) && a == OpenResumes(true, true))
  {
    hide Released;
    if s.pc.Opening? && s.pc.open.Constructed? { ReleaseMoves(s, Some(s.pc.open.cap)); }
  }

  /**
   * The loop reads exactly the capture it holds, when that reports open, or the one it has just connected; and it
   * opens exactly when it holds none that reports open.
   */
  lemma LoopBeginsExactly(s: State, a: Action, cap: nat)
    ensures s.pc != Reading(cap, ReadBusy) ==>
      (Next(s, a).pc == Reading(cap, ReadBusy) <==>
         || (s.pc == Top && MayGoOn(s) && a == Loop(true) && s.current == Some(cap))
         || (s.pc == Opening(Constructed(cap)) && a == OpenResumes(true, true)))
    ensures s.pc != Opening(OpenBusy) ==>
      (Next(s, a).pc == Opening(OpenBusy) <==>
         s.pc == Top && MayGoOn(s) && (a == Loop(false) || (a.Loop? && s.current == None)))
  {
    if a.Loop? {
      hide Released;
      ReleaseMoves(s, s.current);
    } else {
      hide Next;
      if Outside(a) {
        OutsideMovesNothing(s, a);
      } else if a.OpenResumes? {
        OpenedBegins(s, a, cap);
      } else {
        OthersBeginNothing(s, a);
      }
    }
  }

  /** A cancellation changes neither the flags nor the count of failures. */
  lemma CancelKeepsCounts(s: State)
    ensures Cancelled(s).running == s.running && Cancelled(s).attempts == s.attempts && Cancelled(s).alerts == s.alerts
  {
    hide Released;
    match s.pc
    case Opening(OpenBusy) => ReleaseMoves(s.(orphanOpens := s.orphanOpens + 1), s.current);
    case Opening(Constructed(a)) => ReleaseMoves(Orphan(s, a), s.current);
    case Reading(a, _) => ReleaseMoves(Drain(s, a), None);
    case _ => ReleaseMoves(s, s.current);
  }

  lemma CancelKeepsFlags(s: State)
    ensures Cancelled(s).running == s.running && Cancelled(s).managerRunning == s.managerRunning
  {
    hide Released;
    match s.pc
    case Opening(OpenBusy) => ReleaseMoves(s.(orphanOpens := s.orphanOpens + 1), s.current);
    case Opening(Constructed(a)) => ReleaseMoves(Orphan(s, a), s.current);
    case Reading(a, _) => ReleaseMoves(Drain(s, a), None);
    case _ => ReleaseMoves(s, s.current);
  }

  lemma CancelEnds(s: State)
    ensures Cancelled(s).pc == Idle
  {
    hide Released;
    ReleaseMoves(s, s.current);
  }

  // ── After a stop ─────────────────────────────────────────────────────────

  /** The steps the loop has left at most once it has been told to stop. */
  function Rank(pc: Pc): nat {
    match pc
    case Idle => 0
    case Top => 1
    case Backoff => 2
    case HandlerBackoff => 2
    case Sleeping => 3
    case Reading(_, read) => if read.ReadBusy? then 5 else 4
    case Opening(open) => if open.OpenBusy? then 7 else 6
  }

  /** The action is what the loop is waiting for. */
  predicate Awaited(s: State, a: Action) {
    match s.pc
    case Idle => false
    case Top => a.Loop?
    case Opening(open) => if open.OpenBusy? then a.OpenReturns? else a.OpenResumes?
    case Reading(_, read) => if read.ReadBusy? then a.ReadReturns? && !a.result.ReadBusy? else a.ReadResumes?
    case Sleeping => a == Wake
    case Backoff => a == Wake
    case HandlerBackoff => a == Wake
  }

  /** Nothing but a start undoes a stop, and every step takes a stopped loop nearer to its end. */
  lemma StoppedStep(s: State, a: Action)
    requires !s.running && !a.Start?
    ensures !Next(s, a).running
    ensures Rank(Next(s, a).pc) <= Rank(s.pc)
    ensures Awaited(s, a) ==> Rank(Next(s, a).pc) < Rank(s.pc)
  {
    hide Next;
    if Outside(a) {
      OutsideKeepsFlags(s, a);
      OutsideMovesNothing(s, a);
    } else {
      StoppedOwnStep(s, a);
    }
  }

  lemma OutsideKeepsFlags(s: State, a: Action)
    requires Outside(a)
    ensures Next(s, a).running == s.running && Next(s, a).managerRunning == s.managerRunning
  {
    hide Released, Cancelled;
    CancelKeepsFlags(s);
    if a.OrphanCallback? { ReleaseMoves(s.(orphaned := s.orphaned - {a.cap}), Some(a.cap)); }
    if a.DrainCallback? { ReleaseMoves(s.(draining := s.draining - {a.cap}), Some(a.cap)); }
    if a.TearDownOpen? { ReleaseMoves(s.(lostOpens := s.lostOpens + 1), s.current); }
  }

  lemma StoppedOwnStep(s: State, a: Action)
    requires !s.running && !a.Start? && !Outside(a)
    ensures !Next(s, a).running
    ensures Rank(Next(s, a).pc) <= Rank(s.pc)
    ensures Awaited(s, a) ==> Rank(Next(s, a).pc) < Rank(s.pc)
  {
    hide Released, Cancelled;
    ReleaseMoves(s, s.current);
    CancelKeepsCounts(s);
    assert Cancelled(s).pc == Idle by { CancelEnds(s); }
    if a.ReadResumes? { ReleaseMoves(s.(failures := 0), s.current); }
    if a.OpenResumes? && s.pc.Opening? && s.pc.open.Constructed? { ReleaseMoves(s, Some(s.pc.open.cap)); }
  }

  /** How often, from s on, the loop got what it was waiting for. */
  function AwaitedCount(s: State, actions: seq<Action>): nat
    decreases |actions|
  {
    if actions == [] then 0
    else (if Awaited(s, actions[0]) then 1 else 0) + AwaitedCount(Next(s, actions[0]), actions[1..])
  }

  function RunFrom(s: State, actions: seq<Action>): State
    decreases |actions|
  {
    if actions == [] then s else RunFrom(Next(s, actions[0]), actions[1..])
  }

  lemma {:induction false} StoppedLoopWindsDown(s: State, actions: seq<Action>)
    requires !s.running && forall a :: a in actions ==> !a.Start?
    ensures Rank(RunFrom(s, actions).pc) + AwaitedCount(s, actions) <= Rank(s.pc)
    decreases |actions|
  {
    hide Next, Rank, Awaited;
    if actions != [] {
      StoppedStep(s, actions[0]);
      StoppedLoopWindsDown(Next(s, actions[0]), actions[1..]);
    }
  }

  /** Once stopped and not started again, a loop gets at most seven more answers, and then it is over. */
  lemma StopEndsTheLoop(before: seq<Action>, managerRuns: bool, after: seq<Action>)
    requires forall a :: a in after ==> !a.Start?
    ensures var stopped := Next(Run(before), Signal(false, managerRuns));
            && AwaitedCount(stopped, after) <= 7
            && (AwaitedCount(stopped, after) == 7 ==> RunFrom(stopped, after).pc.Idle?)
  {
    hide Run;
    var stopped := Next(Run(before), Signal(false, managerRuns));
    StoppedLoopWindsDown(stopped, after);
  }

  /** Action i starts the loop. */
  predicate StartsAt(actions: seq<Action>, i: nat)
    requires i < |actions|
  {
    actions[i].Start? && Run(actions[..i]).pc.Idle?
  }

  predicate Stops(a: Action) {
    a.Signal? && !a.streamRuns
  }

  /** The loop has been started, and not stopped since. */
  ghost predicate Started(actions: seq<Action>) {
    exists i :: 0 <= i < |actions| && StartsAt(actions, i) && forall j :: i < j < |actions| ==> !Stops(actions[j])
  }

  /** The last word about the manager was that it stops. */
  ghost predicate ManagerDown(actions: seq<Action>) {
    exists i :: 0 <= i < |actions| && actions[i].Signal? && !actions[i].managerRuns
                && forall j :: i < j < |actions| ==> !actions[j].Signal?
  }

  lemma FlagsStep(s: State, a: Action)
    ensures Next(s, a).running <==> (a.Start? && s.pc.Idle?) || (s.running && !Stops(a))
    ensures Next(s, a).managerRunning <==> if a.Signal? then a.managerRuns else s.managerRunning
  {
    hide Next;
    if Outside(a) { OutsideKeepsFlags(s, a); } else { OwnStepFlags(s, a); }
  }

  lemma OwnStepFlags(s: State, a: Action)
    requires !Outside(a)
    ensures Next(s, a).running <==> (a.Start? && s.pc.Idle?) || (s.running && !Stops(a))
    ensures Next(s, a).managerRunning <==> if a.Signal? then a.managerRuns else s.managerRunning
  {
    hide Released, Cancelled;
    ReleaseMoves(s, s.current);
    CancelKeepsFlags(s);
    if a.ReadResumes? { ReleaseMoves(s.(failures := 0), s.current); }
    if a.OpenResumes? && s.pc.Opening? && s.pc.open.Constructed? { ReleaseMoves(s, Some(s.pc.open.cap)); }
  }

  lemma StartedStep(actions: seq<Action>)
    requires actions != []
    ensures var init, n := actions[..|actions| - 1], |actions| - 1;
            && (Started(actions) <==> StartsAt(actions, n) || (Started(init) && !Stops(actions[n])))
            && (ManagerDown(actions) <==> if actions[n].Signal? then !actions[n].managerRuns else ManagerDown(init))
  {
    hide Run;
    var init, n := actions[..|actions| - 1], |actions| - 1;
    forall i | 0 <= i < n
      ensures init[i] == actions[i]
      ensures StartsAt(init, i) <==> StartsAt(actions, i)
    {
      assert init[..i] == actions[..i];
    }
  }

  /** A stream runs exactly if it was started and not stopped since; the manager unless it was last told to stop. */
  lemma {:induction false} FlagsAreHeard(actions: seq<Action>)
    ensures Run(actions).running <==> Started(actions)
    ensures Run(actions).managerRunning <==> !ManagerDown(actions)
  {
    hide Next, Started, ManagerDown;
    if actions == [] {
      NothingSaidAtFirst();
    } else {
      FlagsAreHeard(actions[..|actions| - 1]);
      FlagsStep(Run(actions[..|actions| - 1]), actions[|actions| - 1]);
      StartedStep(actions);
    }
  }

  lemma NothingSaidAtFirst()
    ensures !Started([]) && !ManagerDown([])
  {}

  // ── Outages ──────────────────────────────────────────────────────────────

  /** The loop learns that its camera does not work: an open, five reads in a row, or anything else failed. */
  predicate Fails(s: State, a: Action) {
    || (a.OpenResumes? && s.pc == Opening(OpenRaised))
    || (a.OpenResumes? && s.pc.Opening? && s.pc.open.Constructed? && !(a.isOpened && a.settable))
    || (a.ReadResumes? && s.pc.Reading? && s.pc.read == ReadRaised)
    || (a.ReadResumes? && s.pc.Reading? && s.pc.read == Frame && a.fails)
    || (a.ReadResumes? && s.pc.Reading? && s.pc.read == NoFrame && s.failures + 1 >= 5 && !a.fileSource)
    || (a == LoopError && (s.pc == Sleeping || (s.pc == Top && MayGoOn(s))))
  }

  /** A frame arrived, or somebody started the stream afresh. */
  predicate Recovers(s: State, a: Action) {
    || (a.ReadResumes? && s.pc.Reading? && s.pc.read == Frame && !a.fails)
    || (a == Start(true) && s.pc.Idle?)
  }

  /** Attempts and alerts after an action, given whether it is a failure or a recovery. */
  ghost predicate Counted(s: State, t: State, fails: bool, recovers: bool) {
    && t.attempts == (if fails then s.attempts + 1 else if recovers then 0 else s.attempts)
    && t.alerts == s.alerts + if fails && s.attempts == 0 then 1 else 0
  }

  lemma OutsideCounts(s: State, a: Action)
    requires Outside(a)
    ensures Counted(s, Next(s, a), false, false)
  {
    hide Released, Cancelled;
    CancelKeepsCounts(s);
    ReleaseMoves(s.(lostOpens := s.lostOpens + 1), s.current);
    if a.OrphanCallback? { ReleaseMoves(s.(orphaned := s.orphaned - {a.cap}), Some(a.cap)); }
    if a.DrainCallback? { ReleaseMoves(s.(draining := s.draining - {a.cap}), Some(a.cap)); }
  }

  lemma ReadCounts(s: State, a: Action)
    requires a.ReadResumes?
    ensures Counted(s, Next(s, a), Fails(s, a), Recovers(s, a))
  {
    hide Released;
    ReleaseMoves(s, s.current);
    ReleaseMoves(s.(failures := 0), s.current);
  }

  lemma OpenCounts(s: State, a: Action)
    requires a.OpenResumes?
    ensures Counted(s, Next(s, a), Fails(s, a), Recovers(s, a))
  {
    hide Released;
    if s.pc.Opening? && s.pc.open.Constructed? { ReleaseMoves(s, Some(s.pc.open.cap)); }
  }

  lemma OtherCounts(s: State, a: Action)
    requires !Outside(a) && !a.ReadResumes? && !a.OpenResumes?
    ensures Counted(s, Next(s, a), Fails(s, a), Recovers(s, a))
  {
    hide Released, Cancelled;
    ReleaseMoves(s, s.current);
    CancelKeepsCounts(s);
  }

  /** Failures are counted up to the next recovery, and the first of them raises the alert. */
  lemma OutageStep(s: State, a: Action)
    ensures Counted(s, Next(s, a), Fails(s, a), Recovers(s, a))
  {
    hide Next, Counted;
    if Outside(a) {
      OutsideCounts(s, a);
    } else if a.ReadResumes? {
      ReadCounts(s, a);
    } else if a.OpenResumes? {
      OpenCounts(s, a);
    } else {
      OtherCounts(s, a);
    }
  }

  predicate FailsAt(actions: seq<Action>, i: nat)
    requires i < |actions|
  {
    Fails(Run(actions[..i]), actions[i])
  }

  predicate RecoversAt(actions: seq<Action>, i: nat)
    requires i < |actions|
  {
    Recovers(Run(actions[..i]), actions[i])
  }

  /** Something failed, and nothing has recovered since. */
  ghost predicate InOutage(actions: seq<Action>) {
    exists i :: 0 <= i < |actions| && FailsAt(actions, i)
                && forall j :: i < j < |actions| ==> !RecoversAt(actions, j)
  }

  /** The failures that came while there was no outage. */
  ghost function OutagesBegun(actions: seq<Action>): nat {
    if actions == [] then 0
    else
      var init := actions[..|actions| - 1];
      OutagesBegun(init) + if FailsAt(actions, |actions| - 1) && !InOutage(init) then 1 else 0
  }

  lemma InOutageStep(actions: seq<Action>)
    requires actions != []
    ensures var n := |actions| - 1;
            InOutage(actions) <==> FailsAt(actions, n) || (InOutage(actions[..n]) && !RecoversAt(actions, n))
  {
    hide Run, Fails, Recovers;
    var n := |actions| - 1;
    var init := actions[..n];
    forall i | 0 <= i < n
      ensures FailsAt(init, i) <==> FailsAt(actions, i)
      ensures RecoversAt(init, i) <==> RecoversAt(actions, i)
    {
      assert init[..i] == actions[..i] && init[i] == actions[i];
    }
  }

  /** There is one alert for each outage: a first failure begins one, a frame or a fresh start ends it. */
  lemma {:induction false} AlertsAreOutages(actions: seq<Action>)
    ensures Run(actions).alerts == OutagesBegun(actions)
    ensures Run(actions).attempts > 0 <==> InOutage(actions)
  {
    hide Next, Fails, Recovers, InOutage;
    if actions != [] {
      var init, a := actions[..|actions| - 1], actions[|actions| - 1];
      AlertsAreOutages(init);
      OutageStep(Run(init), a);
      InOutageStep(actions);
    } else {
      assert !InOutage([]) by { NoOutageAtFirst(); }
    }
  }

  lemma NoOutageAtFirst()
    ensures !InOutage([])
  {}

  // ── Five failed reads in a row ───────────────────────────────────────────

  /** A read whose result reached the loop. */
  datatype ReadBack = ReadBack(cap: nat, result: ReadThread)

  predicate BringsBack(s: State, a: Action) {
    a.ReadResumes? && s.pc.Reading? && !s.pc.read.ReadBusy?
  }

  function ReadsBack(actions: seq<Action>): seq<ReadBack> {
    if actions == [] then []
    else
      var init, a := actions[..|actions| - 1], actions[|actions| - 1];
      var s := Run(init);
      ReadsBack(init) + if BringsBack(s, a) then [ReadBack(s.pc.cap, s.pc.read)] else []
  }

  /** How many of the last reads, without a break, were reads of this capture that brought no frame. */
  function Streak(log: seq<ReadBack>, cap: nat): nat {
    if log == [] || log[|log| - 1] != ReadBack(cap, NoFrame) then 0
    else 1 + Streak(log[..|log| - 1], cap)
  }

  lemma StreakStep(log: seq<ReadBack>, r: ReadBack, cap: nat)
    ensures Streak(log + [r], cap) == if r == ReadBack(cap, NoFrame) then Streak(log, cap) + 1 else 0
  {
    assert (log + [r])[..|log|] == log;
  }

  lemma NeverRead(log: seq<ReadBack>, cap: nat)
    requires forall r :: r in log ==> r.cap != cap
    ensures Streak(log, cap) == 0
  {}

  /** The failures of the running loop are the streak of the capture it holds; a new capture has been read by nobody. */
  ghost predicate StreakOk(s: State, log: seq<ReadBack>) {
    && (forall r :: r in log ==> r.cap < s.nextCap)
    && (s.current.Some? ==> s.current.value < s.nextCap)
    && (s.pc.Opening? && s.pc.open.Constructed? ==>
          s.pc.open.cap < s.nextCap && forall r :: r in log ==> r.cap != s.pc.open.cap)
    && (!s.pc.Idle? ==> s.failures == if s.current.Some? then Streak(log, s.current.value) else 0)
  }

  lemma StreakOpen(s: State, a: Action, log: seq<ReadBack>)
    requires StreakOk(s, log) && (a.OpenReturns? || a.OpenResumes?)
    ensures StreakOk(Next(s, a), log)
  {
    hide Released, Streak;
    if a.OpenResumes? && s.pc.Opening? && s.pc.open.Constructed? {
      ReleaseMoves(s, Some(s.pc.open.cap));
      NeverRead(log, s.pc.open.cap);
    }
  }

  lemma StreakRead(s: State, a: Action, log: seq<ReadBack>)
    requires StreakOk(s, log) && BringsBack(s, a) && s.current == Some(s.pc.cap)
    ensures StreakOk(Next(s, a), log + [ReadBack(s.pc.cap, s.pc.read)])
  {
    hide Released, Streak;
    ReleaseMoves(s, s.current);
    ReleaseMoves(s.(failures := 0), s.current);
    StreakStep(log, ReadBack(s.pc.cap, s.pc.read), s.pc.cap);
  }

  lemma CancelKeepsStreak(s: State, log: seq<ReadBack>)
    requires StreakOk(s, log)
    ensures StreakOk(Cancelled(s), log) && (!s.pc.Idle? ==> Cancelled(s).pc.Idle?)
  {
    hide Released, Streak;
    match s.pc
    case Opening(OpenBusy) => ReleaseMoves(s.(orphanOpens := s.orphanOpens + 1), s.current);
    case Opening(Constructed(a)) => ReleaseMoves(Orphan(s, a), s.current);
    case Reading(a, _) => ReleaseMoves(Drain(s, a), None);
    case _ => ReleaseMoves(s, s.current);
  }

  lemma StreakOutside(s: State, a: Action, log: seq<ReadBack>)
    requires StreakOk(s, log) && Outside(a)
    ensures StreakOk(Next(s, a), log)
  {
    hide Released, Cancelled, Streak;
    CancelKeepsStreak(s, log);
    ReleaseMoves(s.(lostOpens := s.lostOpens + 1), s.current);
    if a.OrphanCallback? { ReleaseMoves(s.(orphaned := s.orphaned - {a.cap}), Some(a.cap)); }
    if a.DrainCallback? { ReleaseMoves(s.(draining := s.draining - {a.cap}), Some(a.cap)); }
  }

  lemma StreakOther(s: State, a: Action, log: seq<ReadBack>)
    requires StreakOk(s, log) && Steady(s) && !Outside(a) && !a.OpenReturns? && !a.OpenResumes? && !BringsBack(s, a)
    ensures StreakOk(Next(s, a), log)
  {
    hide Released, Cancelled, Streak;
    CancelKeepsStreak(s, log);
    ReleaseMoves(s, s.current);
  }

  lemma {:induction false} StreakInEveryRun(actions: seq<Action>)
    ensures StreakOk(Run(actions), ReadsBack(actions))
  {
    hide Next, StreakOk, BringsBack, Owned;
    if actions == [] {
      assert StreakOk(INITIAL, []) by { NoStreakAtFirst(); }
    } else {
      var init, a := actions[..|actions| - 1], actions[|actions| - 1];
      var s, log := Run(init), ReadsBack(init);
      StreakInEveryRun(init);
      RunKeepsInv(init);
      assert log + [] == log;
      if BringsBack(s, a) {
        BroughtBackFromCurrent(s, a);
        StreakRead(s, a, log);
      } else if Outside(a) {
        StreakOutside(s, a, log);
      } else if a.OpenReturns? || a.OpenResumes? {
        StreakOpen(s, a, log);
      } else {
        StreakOther(s, a, log);
      }
    }
  }

  lemma BroughtBackFromCurrent(s: State, a: Action)
    requires Steady(s) && BringsBack(s, a)
    ensures s.current == Some(s.pc.cap)
  {}

  lemma NoStreakAtFirst()
    ensures StreakOk(INITIAL, [])
  {}

  /**
   * A read that brings no frame costs the capture its place exactly if the four reads before it were reads of the same
   * capture without a frame. It is released, and the outage begins unless the source is a file.
   */
  lemma FifthFailureReleases(actions: seq<Action>, cap: nat, fileSource: bool, fails: bool)
    requires Run(actions).pc == Reading(cap, NoFrame)
    ensures var s, t := Run(actions), Next(Run(actions), ReadResumes(fileSource, fails));
            if Streak(ReadsBack(actions), cap) < 4 then t.current == Some(cap) && t.pc == Top && t.caps == s.caps
            else
              && t.current == None && cap in t.caps && t.caps[cap].released == 1 && !t.caps[cap].racedRelease
              && t.pc == (if fileSource then Sleeping else Backoff)
  {
    hide Run, Streak;
    StreakInEveryRun(actions);
    RunKeepsInv(actions);
    var s := Run(actions);
    assert Owned(s, cap);
  }

  /** An abandoned open hands over its capture, which the done-callback then releases, once. */
  lemma OrphanReleaseHappens(actions: seq<Action>, cap: nat)
    requires cap in Run(actions).orphaned
    ensures var s := Next(Run(actions), OrphanCallback(cap));
            cap in s.caps && s.caps[cap].released == 1 && !s.caps[cap].racedRelease && cap !in s.orphaned
  {
    hide Run;
    RunKeepsInv(actions);
    assert Owned(Run(actions), cap);
  }
}
