/**
 * Attendance events: duplicate prevention and the bounded queue
 * (backend/app/engine/attendance_generator.py). Times are whole ticks of the clock.
 */
module AttendanceGenerator {
  import opened Wrappers
  import opened WindowMemory

  const MAX_PENDING_EVENTS: nat := 1000

  datatype EventType = CheckIn | CheckOut | BreakStart | BreakEnd | OvertimeStart | OvertimeEnd {
    function Value(): string {
      match this
      case CheckIn => "CHECK_IN"
      case CheckOut => "CHECK_OUT"
      case BreakStart => "BREAK_START"
      case BreakEnd => "BREAK_END"
      case OvertimeStart => "OVERTIME_START"
      case OvertimeEnd => "OVERTIME_END"
    }
  }

  datatype Event = Event(employeeId: string, cameraId: Option<int>, eventType: EventType, timestamp: int)

  function Key(employeeId: string, eventType: EventType): string {
    employeeId + ":" + eventType.Value()
  }

  // ── The key names one employee and one type ──────────────────────────────

  lemma ValuesDiffer(a: EventType, b: EventType)
    ensures a.Value() == b.Value() ==> a == b
    ensures ':' !in a.Value()
  {}

  /** Employee ids may contain anything, colons too. */
  lemma KeyIsInjective(e: string, a: EventType, f: string, b: EventType)
    ensures Key(e, a) == Key(f, b) <==> e == f && a == b
  {
    ValuesDiffer(a, b);
    ValuesDiffer(b, a);
    var k, v, w := Key(e, a), a.Value(), b.Value();
    if k == Key(f, b) {
      ColonAt(e, v);
      ColonAt(f, w);
      assert |e| == |f|;
      assert e == k[..|e|] && f == k[..|f|];
      assert v == k[|e| + 1..] && w == k[|f| + 1..];
    }
  }

  /** The colon before a colon-free tail is the last one. */
  lemma ColonAt(head: string, tail: string)
    requires ':' !in tail
    ensures (head + ":" + tail)[|head|] == ':'
    ensures forall i :: |head| < i < |head + ":" + tail| ==> (head + ":" + tail)[i] != ':'
  {
    var s := head + ":" + tail;
    forall i | |head| < i < |s| ensures s[i] != ':' { assert s[i] == tail[i - |head| - 1]; }
  }

  // ── DuplicateTracker ─────────────────────────────────────────────────────

  function Expired(events: Memory, now: int, window: int): set<string> {
    set k | k in events && now - events[k] > window * 2
  }

  lemma RemovedCount(events: Memory, keys: set<string>)
    requires keys <= events.Keys
    ensures |events - keys| == |events| - |keys|
  {
    assert (events - keys).Keys == events.Keys - keys;
    assert |(events - keys).Keys| == |events - keys| && |events.Keys| == |events|;
  }

  class DuplicateTracker {
    var events: Memory

    constructor ()
      ensures events == map[]
    {
      events := map[];
    }

    method IsDuplicate(employeeId: string, eventType: EventType, now: int, window: int) returns (duplicate: bool)
      modifies this
      ensures duplicate <==> Recent(old(events), Key(employeeId, eventType), now, window)
      ensures events == Apply(old(events), Ask(Key(employeeId, eventType), now, now), window)
    {
      var key := Key(employeeId, eventType);
      if key in events && now - events[key] < window { return true; }
      events := events[key := now];
      return false;
    }

    method ClearExpired(now: int, window: int) returns (removed: nat)
      modifies this
      ensures events == Apply(old(events), Forget(Expired(old(events), now, window), now), window)
      ensures forall k :: k in events <==> k in old(events) && now - old(events)[k] <= 2 * window
      ensures removed == |old(events)| - |events|
    {
      var expired := set k | k in events && now - events[k] > window * 2;
      assert expired == Expired(events, now, window);
      RemovedCount(events, expired);
      events := events - expired;
      removed := |expired|;
    }
  }

  // ── Runs of the tracker ──────────────────────────────────────────────────

  datatype TrackerCall = CheckDuplicate(employeeId: string, eventType: EventType, now: int) | Sweep(now: int)

  /** The memory calls the tracker's calls amount to. */
  function AsMemoryCalls(calls: seq<TrackerCall>, window: int): seq<Call> {
    if calls == [] then []
    else
      var init := AsMemoryCalls(calls[..|calls| - 1], window);
      init + [AsMemoryCall(calls[|calls| - 1], After(init, window), window)]
  }

  ghost predicate InOrder(calls: seq<TrackerCall>) {
    forall i, j :: 0 <= i < j < |calls| ==> calls[i].now <= calls[j].now
  }

  /** The memory call of one tracker call made in a given state. */
  function AsMemoryCall(c: TrackerCall, m: Memory, window: int): Call {
    match c
    case CheckDuplicate(e, t, now) => Ask(Key(e, t), now, now)
    case Sweep(now) => Forget(Expired(m, now, window), now)
  }

  lemma {:induction false} TrackerKeepsDiscipline(calls: seq<TrackerCall>, window: int, clock: int)
    requires InOrder(calls) && forall i :: 0 <= i < |calls| ==> calls[i].now <= clock
    ensures var m := AsMemoryCalls(calls, window);
            && (forall i :: 0 <= i < |m| ==> m[i].Ends() <= clock)
            && Clocked(m) && ForgetsOldOnly(m, window)
    decreases |calls|
  {
    if calls != [] {
      hide Clocked, ForgetsOldOnly, After, Latest;
      var init, last := calls[..|calls| - 1], calls[|calls| - 1];
      assert forall i :: 0 <= i < |init| ==> init[i] == calls[i];
      TrackerKeepsDiscipline(init, window, last.now);
      var was := AsMemoryCalls(init, window);
      var c := AsMemoryCall(last, After(was, window), window);
      MemoryTracksHistory(was, window, last.now);
      SweepIsOld(After(was, window), History(was, window), window, last.now);
      ClockedOneMore(was, c);
      ForgetsOneMore(was, c, window);
    }
  }

  /** What a sweep removes is not recent. */
  lemma SweepIsOld(m: Memory, history: seq<Accepted>, window: int, now: int)
    requires Latest(m, history, window, now)
    ensures forall k :: k in Expired(m, now, window) ==> !Recent(m, k, now, window)
  {
    forall k | k in Expired(m, now, window) ensures !Recent(m, k, now, window) { assert Accepted(k, m[k]) in history; }
  }

  /** Every acceptance in a run: which employee, which event type, when. */
  datatype Accept = Accept(employeeId: string, eventType: EventType, time: int)

  ghost function Accepts(calls: seq<TrackerCall>, window: int): seq<Accept> {
    if calls == [] then []
    else
      var init, last := calls[..|calls| - 1], calls[|calls| - 1];
      var h := Accepts(init, window);
      if last.CheckDuplicate? && !AcceptedWithin(h, last.employeeId, last.eventType, last.now, window)
      then h + [Accept(last.employeeId, last.eventType, last.now)] else h
  }

  ghost predicate AcceptedWithin(h: seq<Accept>, employeeId: string, eventType: EventType, now: int, window: int) {
    exists a :: a in h && a.employeeId == employeeId && a.eventType == eventType && now - a.time < window
  }

  /** The same acceptances, one list by employee and type, the other by key. */
  ghost predicate Agree(h: seq<Accept>, m: seq<Accepted>) {
    |h| == |m| && forall i :: 0 <= i < |h| ==> m[i] == Accepted(Key(h[i].employeeId, h[i].eventType), h[i].time)
  }

  lemma AgreeOneMore(h: seq<Accept>, m: seq<Accepted>, a: Accept)
    requires Agree(h, m)
    ensures Agree(h + [a], m + [Accepted(Key(a.employeeId, a.eventType), a.time)])
  {
    hide Key;
  }

  lemma {:induction false} AcceptsAreHistory(calls: seq<TrackerCall>, window: int)
    ensures Agree(Accepts(calls, window), History(AsMemoryCalls(calls, window), window))
  {
    if calls != [] {
      hide History, Agree, AcceptedWithin, InWindow, Key, After, Expired;
      var init, last := calls[..|calls| - 1], calls[|calls| - 1];
      AcceptsAreHistory(init, window);
      var was := AsMemoryCalls(init, window);
      HistoryOneMore(was, AsMemoryCall(last, After(was, window), window), window);
      if last.CheckDuplicate? {
        WithinAgree(Accepts(init, window), History(was, window), last.employeeId, last.eventType, last.now, window);
        AgreeOneMore(Accepts(init, window), History(was, window), Accept(last.employeeId, last.eventType, last.now));
      }
    } else {
      assert Agree([], History([], window));
    }
  }

  lemma WithinAgree(h: seq<Accept>, m: seq<Accepted>, employeeId: string, eventType: EventType, now: int, window: int)
    requires Agree(h, m)
    ensures AcceptedWithin(h, employeeId, eventType, now, window) <==> InWindow(m, Key(employeeId, eventType), now,
                                                                                window)
  {
    if a :| a in h && a.employeeId == employeeId && a.eventType == eventType && now - a.time < window {
      var i :| 0 <= i < |h| && h[i] == a;
      assert m[i] in m;
    }
    if a :| a in m && a.key == Key(employeeId, eventType) && now - a.time < window {
      var i :| 0 <= i < |m| && m[i] == a;
      KeyIsInjective(h[i].employeeId, h[i].eventType, employeeId, eventType);
      assert h[i] in h;
    }
  }

  /** After any run with any sweeps at any moments, an event is called a duplicate exactly
      when an event of that employee and type was accepted less than a window ago. */
  lemma DuplicateMeansAcceptedWithin(calls: seq<TrackerCall>, window: int, employeeId: string, eventType: EventType,
                                     now: int)
    requires InOrder(calls) && forall i :: 0 <= i < |calls| ==> calls[i].now <= now
    ensures Recent(After(AsMemoryCalls(calls, window), window), Key(employeeId, eventType), now, window)
       <==> AcceptedWithin(Accepts(calls, window), employeeId, eventType, now, window)
  {
    var m := AsMemoryCalls(calls, window);
    TrackerKeepsDiscipline(calls, window, now);
    ForgettingIsInvisible(m, window, Key(employeeId, eventType), now);
    AcceptsAreHistory(calls, window);
    WithinAgree(Accepts(calls, window), History(m, window), employeeId, eventType, now, window);
  }

  /** Accepted events of one employee and type are at least a window apart. */
  lemma {:induction false} AcceptedEventsAreSpaced(calls: seq<TrackerCall>, window: int, i: nat, j: nat)
    requires InOrder(calls) && i < j < |Accepts(calls, window)|
    requires var h := Accepts(calls, window); h[i].employeeId == h[j].employeeId && h[i].eventType == h[j].eventType
    ensures Accepts(calls, window)[j].time - Accepts(calls, window)[i].time >= window
  {
    TrackerKeepsDiscipline(calls, window, if calls == [] then 0 else calls[|calls| - 1].now);
    AcceptsAreHistory(calls, window);
    AcceptancesAreSpaced(AsMemoryCalls(calls, window), window, i, j);
  }

  // ── AttendanceGenerator ──────────────────────────────────────────────────

  /** deque(maxlen=n).append: a full deque drops its oldest element. */
  function Appended<T>(queue: seq<T>, x: T, maxlen: nat): seq<T> {
    if |queue| < maxlen then queue + [x]
    else if maxlen == 0 then []
    else queue[|queue| - maxlen + 1..] + [x]
  }

  function Dropped<T>(queue: seq<T>, x: T, maxlen: nat): seq<T> {
    if |queue| < maxlen then []
    else if maxlen == 0 then queue + [x]
    else queue[..|queue| - maxlen + 1]
  }

  function ResolveEventType(eventType: EventType, direction: Option<string>): EventType {
    if direction == Some("in") then CheckIn
    else if direction == Some("out") then CheckOut
    else eventType
  }

  class AttendanceGenerator {
    const tracker: DuplicateTracker
    const window: int
    var queue: seq<Event>
    var totalEvents: nat
    var duplicatesPrevented: nat

    constructor (window: int)
      ensures fresh(tracker) && tracker.events == map[] && this.window == window
      ensures queue == [] && totalEvents == 0 && duplicatesPrevented == 0
    {
      tracker := new DuplicateTracker();
      this.window := window;
      queue, totalEvents, duplicatesPrevented := [], 0, 0;
    }

    /** `now` is the duplicate check's clock reading, `stamp` the event's own, a little later. */
    method GenerateEvent(employeeId: string, cameraId: Option<int>, eventType: EventType, direction: Option<string>,
                         enqueue: bool, now: int, stamp: int) returns (event: Option<Event>)
      modifies this`queue, this`totalEvents, this`duplicatesPrevented, tracker
      ensures var resolved := ResolveEventType(eventType, direction);
              var duplicate := Recent(old(tracker.events), Key(employeeId, resolved), now, window);
              && event == (if duplicate then None else Some(Event(employeeId, cameraId, resolved, stamp)))
              && tracker.events == Apply(old(tracker.events), Ask(Key(employeeId, resolved), now, now), window)
              && queue == (if duplicate || !enqueue then old(queue)
                           else Appended(old(queue), event.value, MAX_PENDING_EVENTS))
              && totalEvents == old(totalEvents) + (if duplicate then 0 else 1)
              && duplicatesPrevented == old(duplicatesPrevented) + (if duplicate then 1 else 0)
      ensures event.Some? && enqueue && |old(queue)| <= 1000 ==>
        queue == (if |old(queue)| < 1000 then old(queue) else old(queue)[1..]) + [event.value]
      ensures event.Some? && direction == Some("in") ==> event.value.eventType == CheckIn
      ensures event.Some? && direction == Some("out") ==> event.value.eventType == CheckOut
      ensures event.Some? && direction !in {Some("in"), Some("out")} ==> event.value.eventType == eventType
    {
      var resolved := ResolveEventType(eventType, direction);
      var duplicate := tracker.IsDuplicate(employeeId, resolved, now, window);
      if duplicate {
        duplicatesPrevented := duplicatesPrevented + 1;
        return None;
      }
      var e := Event(employeeId, cameraId, resolved, stamp);
      if enqueue { queue := Appended(queue, e, MAX_PENDING_EVENTS); }
      totalEvents := totalEvents + 1;
      return Some(e);
    }

    /** Pops until the queue is empty. */
    method DrainEvents() returns (events: seq<Event>)
      modifies this`queue
      ensures events == old(queue) && queue == []
    {
      events := [];
      while queue != []
        invariant events + queue == old(queue)
        decreases |queue|
      {
        events := events + [queue[0]];
        queue := queue[1..];
      }
    }
  }

  /** The queue never exceeds its bound, and what is dropped is exactly the oldest. */
  lemma AppendKeepsTheNewest<T>(queue: seq<T>, x: T, maxlen: nat)
    requires |queue| <= maxlen
    ensures Dropped(queue, x, maxlen) + Appended(queue, x, maxlen) == queue + [x]
    ensures |Appended(queue, x, maxlen)| <= maxlen
    ensures |queue| < maxlen ==> Dropped(queue, x, maxlen) == []
  {}
}
