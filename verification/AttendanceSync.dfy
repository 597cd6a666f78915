/**
 * The consumer that drains attendance events into the ledger
 * (backend/app/engine/attendance_sync.py). The attendance service is an oracle: for each
 * event it returns a record, raises, or is interrupted.
 */
module AttendanceSync {
  import opened Wrappers
  import opened Sequences
  import opened AttendanceGenerator

  /** What became of an event that the consumer is done with. */
  datatype Outcome =
    | Persisted | Noop | NoRecord            // routed to the attendance service
    | NotAnEmployee | Stale | NoLedgerColumns  // discarded, with the reason

  /** One call of the service with its commit: it returns the record's last action, or
      raises and is rolled back, or something escapes the handler (a cancellation, or an
      error of the rollback itself). */
  datatype Verdict = Returned(lastAction: Option<string>) | NoResult | Raised | Escaped

  datatype Effect = Settled(outcome: Outcome) | Requeued | Broken

  function EventIntent(t: EventType): Option<string> {
    match t
    case CheckIn => Some("check_in")
    case CheckOut => Some("check_out")
    case _ => None
  }

  /** The reason to discard an event before it reaches the service. `pkOf` is
      employee_pk_from_identity. */
  function DiscardReason(e: Event, now: int, maxAge: int, pkOf: string -> Option<int>): Option<Outcome> {
    if pkOf(e.employeeId).None? then Some(NotAnEmployee)
    else if now - e.timestamp > maxAge then Some(Stale)
    else if EventIntent(e.eventType).None? then Some(NoLedgerColumns)
    else None
  }

  function PersistEvent(e: Event, v: Verdict, now: int, maxAge: int, pkOf: string -> Option<int>): Effect {
    var discard := DiscardReason(e, now, maxAge, pkOf);
    if discard.Some? then Settled(discard.value)
    else match v
      case Returned(action) =>
        if action == Some("check_in") || action == Some("check_out") then Settled(Persisted) else Settled(Noop)
      case NoResult => Settled(NoRecord)
      case Raised => Requeued
      case Escaped => Broken
  }

  datatype Done = Done(event: Event, outcome: Outcome)

  function EventsOf(done: seq<Done>): seq<Event> {
    seq(|done|, i requires 0 <= i < |done| => done[i].event)
  }

  // ── The pipeline as a state machine ──────────────────────────────────────

  /** A drain in progress: events[..processed] are settled or in the retry list. While it is
      `popping` it still collects the generator's events, one at a time. */
  datatype Batch = Batch(events: seq<Event>, processed: nat, now: int, popping: bool)

  /** `produced`, `done` and `evicted` are histories: all events ever enqueued, all events
      the consumer is done with, and all events the bounded queue dropped. */
  datatype State = State(queue: seq<Event>, retry: seq<Event>, batch: Option<Batch>,
                         produced: seq<Event>, done: seq<Done>, evicted: seq<Event>)

  /** Producers run on other threads, so Produce may fall between any two steps of a drain.
      Interrupt is a cancellation, or a failure to open or close the session. */
  datatype Action =
    Produce(event: Event) | Begin | Pop | Collected(now: int) | Process(verdict: Verdict) | Interrupt | Finish

  datatype Config = Config(maxAge: int, pkOf: string -> Option<int>)

  const EMPTY := State([], [], None, [], [], [])

  ghost predicate WellFormed(s: State) {
    s.batch.Some? ==>
      s.batch.value.processed <= |s.batch.value.events| && (s.batch.value.popping ==> s.batch.value.processed == 0)
  }

  /** The events of the running drain that it has not got to. */
  ghost function Remaining(s: State): seq<Event>
    requires WellFormed(s)
  {
    if s.batch.None? then [] else s.batch.value.events[s.batch.value.processed..]
  }

  ghost function Step(s: State, a: Action, cfg: Config): (t: State)
    requires WellFormed(s)
    ensures WellFormed(t)
  {
    match a
    case Produce(e) =>
      s.(queue := Appended(s.queue, e, MAX_PENDING_EVENTS), produced := s.produced + [e],
         evicted := s.evicted + Dropped(s.queue, e, MAX_PENDING_EVENTS))
    case Begin =>
      if s.batch.Some? then s else s.(retry := [], batch := Some(Batch(s.retry, 0, 0, true)))
    case Pop =>
      if s.batch.None? || !s.batch.value.popping || s.queue == [] then s
      else s.(queue := s.queue[1..], batch := Some(s.batch.value.(events := s.batch.value.events + [s.queue[0]])))
    case Collected(now) =>
      if s.batch.None? || !s.batch.value.popping || s.queue != [] then s
      else if s.batch.value.events == [] then s.(batch := None)
      else s.(batch := Some(s.batch.value.(now := now, popping := false)))
    case Process(v) =>
      if s.batch.None? || s.batch.value.popping || s.batch.value.processed == |s.batch.value.events| then s
      else
        var b := s.batch.value;
        var e := b.events[b.processed];
        var onward := Some(b.(processed := b.processed + 1));
        (match PersistEvent(e, v, b.now, cfg.maxAge, cfg.pkOf)
         case Settled(o) => s.(done := s.done + [Done(e, o)], batch := onward)
         case Requeued => s.(retry := s.retry + [e], batch := onward)
         case Broken => s.(retry := s.retry + Remaining(s), batch := None))
    case Interrupt =>
      if s.batch.Some? && s.batch.value.popping then s else s.(retry := s.retry + Remaining(s), batch := None)
    case Finish => if Completed(s) then s.(batch := None) else s
  }

  /** The running drain has got to the end of its events. */
  ghost predicate Completed(s: State)
    requires WellFormed(s)
  {
    s.batch.Some? && !s.batch.value.popping && s.batch.value.processed == |s.batch.value.events|
  }

  ghost function Run(s: State, actions: seq<Action>, cfg: Config): (t: State)
    requires WellFormed(s)
    ensures WellFormed(t)
  {
    if actions == [] then s else Step(Run(s, actions[..|actions| - 1], cfg), actions[|actions| - 1], cfg)
  }

  /** Every event ever produced is in exactly one place. */
  ghost predicate Conserved(s: State)
    requires WellFormed(s)
  {
    multiset(s.produced)
    == multiset(s.queue) + multiset(s.retry) + multiset(Remaining(s)) + multiset(EventsOf(s.done)) + multiset(s.evicted)
  }

  lemma ProduceConserves(s: State, e: Event, cfg: Config)
    requires WellFormed(s) && Conserved(s) && |s.queue| <= MAX_PENDING_EVENTS
    ensures Conserved(Step(s, Produce(e), cfg)) && |Step(s, Produce(e), cfg).queue| <= MAX_PENDING_EVENTS
  {
    hide EventsOf, Appended, Dropped;
    var dropped, kept := Dropped(s.queue, e, MAX_PENDING_EVENTS), Appended(s.queue, e, MAX_PENDING_EVENTS);
    AppendKeepsTheNewest(s.queue, e, MAX_PENDING_EVENTS);
    assert multiset(dropped) + multiset(kept) == multiset(dropped + kept);
    assert multiset(dropped + kept) == multiset(s.queue + [e]);
    assert multiset(s.queue + [e]) == multiset(s.queue) + multiset{e};
    assert multiset(s.produced + [e]) == multiset(s.produced) + multiset{e};
    assert multiset(s.evicted + dropped) == multiset(s.evicted) + multiset(dropped);
    Shuffle(multiset(s.produced), multiset(s.queue), multiset(s.retry), multiset(Remaining(s)),
            multiset(EventsOf(s.done)), multiset(s.evicted), multiset(dropped), multiset(kept), multiset{e});
  }

  lemma Shuffle<T>(p: multiset<T>, q: multiset<T>, r: multiset<T>, m: multiset<T>, n: multiset<T>, v: multiset<T>,
                   d: multiset<T>, k: multiset<T>, e: multiset<T>)
    requires p == q + r + m + n + v && d + k == q + e
    ensures p + e == k + r + m + n + (v + d)
  {
    forall x ensures (p + e)[x] == (k + r + m + n + (v + d))[x] { assert (d + k)[x] == (q + e)[x]; }
  }

  lemma InterruptConserves(s: State, cfg: Config)
    requires WellFormed(s) && Conserved(s)
    ensures Conserved(Step(s, Interrupt, cfg))
  {
    hide EventsOf;
  }

  lemma EventsOfOneMore(done: seq<Done>, d: Done)
    ensures EventsOf(done + [d]) == EventsOf(done) + [d.event]
  {}

  lemma RemainingSplits(b: Batch)
    requires b.processed < |b.events|
    ensures b.events[b.processed..] == [b.events[b.processed]] + b.events[b.processed + 1..]
  {}

  lemma CollectConserves(s: State, a: Action, cfg: Config)
    requires WellFormed(s) && Conserved(s) && (a.Begin? || a.Pop? || a.Collected?)
    ensures Conserved(Step(s, a, cfg))
  {
    hide EventsOf, PersistEvent, Appended, Dropped;
    assert s.retry[0..] == s.retry;
    if a.Pop? && s.batch.Some? && s.batch.value.popping && s.queue != [] {
      var events := s.batch.value.events;
      assert (events + [s.queue[0]])[0..] == events[0..] + [s.queue[0]];
      assert s.queue == [s.queue[0]] + s.queue[1..];
      assert multiset(s.queue) == multiset{s.queue[0]} + multiset(s.queue[1..]);
    }
  }

  lemma MoveOne<T>(p: multiset<T>, q: multiset<T>, r: multiset<T>, m: multiset<T>, rest: multiset<T>, n: multiset<T>,
                   v: multiset<T>, e: multiset<T>)
    requires p == q + r + m + n + v && m == e + rest
    ensures p == q + r + rest + (n + e) + v
    ensures p == q + (r + e) + rest + n + v
  {}

  lemma ProcessConserves(s: State, v: Verdict, cfg: Config)
    requires WellFormed(s) && Conserved(s)
    ensures Conserved(Step(s, Process(v), cfg))
  {
    hide PersistEvent, EventsOf, Conserved;
    if s.batch.Some? && !s.batch.value.popping && s.batch.value.processed < |s.batch.value.events| {
      var b := s.batch.value;
      var e := b.events[b.processed];
      match PersistEvent(e, v, b.now, cfg.maxAge, cfg.pkOf)
      case Settled(o) => SettleConserves(s, Done(e, o));
      case Requeued => RequeueConserves(s);
      case Broken => InterruptConserves(s, cfg);
    }
  }

  lemma SettleConserves(s: State, d: Done)
    requires WellFormed(s) && Conserved(s) && s.batch.Some? && !s.batch.value.popping
    requires s.batch.value.processed < |s.batch.value.events|
    requires d.event == s.batch.value.events[s.batch.value.processed]
    ensures var b := s.batch.value;
            Conserved(s.(done := s.done + [d], batch := Some(b.(processed := b.processed + 1))))
  {
    hide EventsOf;
    var b := s.batch.value;
    var rest := b.events[b.processed + 1..];
    RemainingSplits(b);
    assert multiset([d.event] + rest) == multiset{d.event} + multiset(rest);
    EventsOfOneMore(s.done, d);
    MoveOne(multiset(s.produced), multiset(s.queue), multiset(s.retry), multiset(Remaining(s)), multiset(rest),
            multiset(EventsOf(s.done)), multiset(s.evicted), multiset{d.event});
  }

  lemma RequeueConserves(s: State)
    requires WellFormed(s) && Conserved(s) && s.batch.Some? && !s.batch.value.popping
    requires s.batch.value.processed < |s.batch.value.events|
    ensures var b := s.batch.value;
            Conserved(s.(retry := s.retry + [b.events[b.processed]], batch := Some(b.(processed := b.processed + 1))))
  {
    hide EventsOf;
    var b := s.batch.value;
    var e, rest := b.events[b.processed], b.events[b.processed + 1..];
    RemainingSplits(b);
    assert multiset([e] + rest) == multiset{e} + multiset(rest);
    assert multiset(s.retry + [e]) == multiset(s.retry) + multiset{e};
    MoveOne(multiset(s.produced), multiset(s.queue), multiset(s.retry), multiset(Remaining(s)), multiset(rest),
            multiset(EventsOf(s.done)), multiset(s.evicted), multiset{e});
  }

  lemma StepConserves(s: State, a: Action, cfg: Config)
    requires WellFormed(s) && Conserved(s) && |s.queue| <= MAX_PENDING_EVENTS
    ensures Conserved(Step(s, a, cfg)) && |Step(s, a, cfg).queue| <= MAX_PENDING_EVENTS
  {
    hide PersistEvent, EventsOf, Appended, Dropped;
    if a.Produce? { ProduceConserves(s, a.event, cfg); }
    if a.Begin? || a.Pop? || a.Collected? { CollectConserves(s, a, cfg); }
    if a.Process? { ProcessConserves(s, a.verdict, cfg); }
    if a.Interrupt? { InterruptConserves(s, cfg); }
  }

  /** Over any interleaving of producers, drains, per-event failures, interruptions and
      completions, no event is lost and none is duplicated. */
  lemma {:induction false} EventsAreConserved(actions: seq<Action>, cfg: Config)
    ensures Conserved(Run(EMPTY, actions, cfg)) && |Run(EMPTY, actions, cfg).queue| <= MAX_PENDING_EVENTS
  {
    hide Conserved;
    if actions == [] {
      NothingToConserve();
    } else {
      EventsAreConserved(actions[..|actions| - 1], cfg);
      StepConserves(Run(EMPTY, actions[..|actions| - 1], cfg), actions[|actions| - 1], cfg);
    }
  }

  lemma NothingToConserve()
    ensures Conserved(EMPTY)
  {}

  /** If no event was produced twice, each is in exactly one place, exactly once. */
  lemma EachEventIsInOnePlace(actions: seq<Action>, cfg: Config, e: Event)
    requires NoDup(Run(EMPTY, actions, cfg).produced)
    requires e in Run(EMPTY, actions, cfg).produced
    ensures var s := Run(EMPTY, actions, cfg);
            multiset(s.queue)[e] + multiset(s.retry)[e] + multiset(Remaining(s))[e]
            + multiset(EventsOf(s.done))[e] + multiset(s.evicted)[e] == 1
  {
    hide Run;
    EventsAreConserved(actions, cfg);
    CountInNoDup(Run(EMPTY, actions, cfg).produced, e);
  }

  lemma {:induction false} CountInNoDup(s: seq<Event>, e: Event)
    requires NoDup(s)
    ensures multiset(s)[e] == if e in s then 1 else 0
  {
    if s != [] {
      var init, last := s[..|s| - 1], s[|s| - 1];
      assert s == init + [last];
      CountInNoDup(init, e);
      assert last !in init;
    }
  }

  // ── Order ────────────────────────────────────────────────────────────────

  /** Where the elements of a subsequence sit in the whole. */
  ghost predicate Places<T>(a: seq<T>, b: seq<T>, at: seq<nat>) {
    && |at| == |a|
    && (forall i :: 0 <= i < |a| ==> at[i] < |b| && b[at[i]] == a[i])
    && (forall i, j :: 0 <= i < j < |a| ==> at[i] < at[j])
  }

  ghost predicate Subsequence<T>(a: seq<T>, b: seq<T>) {
    exists at: seq<nat> :: Places(a, b, at)
  }

  lemma DropOne<T>(a: seq<T>, i: nat, b: seq<T>)
    requires i < |a| && Subsequence(a, b)
    ensures Subsequence(a[..i] + a[i + 1..], b)
  {
    var at: seq<nat> :| Places(a, b, at);
    assert Places(a[..i] + a[i + 1..], b, at[..i] + at[i + 1..]);
  }

  lemma {:induction false} DropMiddle<T>(a: seq<T>, m: seq<T>, c: seq<T>, b: seq<T>)
    requires Subsequence(a + m + c, b)
    ensures Subsequence(a + c, b)
    decreases |m|
  {
    if m == [] {
      assert a + m + c == a + c;
    } else {
      DropOne(a + m + c, |a|, b);
      assert (a + m + c)[..|a|] + (a + m + c)[|a| + 1..] == a + m[1..] + c;
      DropMiddle(a, m[1..], c, b);
    }
  }

  lemma AppendBoth<T>(a: seq<T>, b: seq<T>, x: T)
    requires Subsequence(a, b)
    ensures Subsequence(a + [x], b + [x])
  {
    var at: seq<nat> :| Places(a, b, at);
    assert Places(a + [x], b + [x], at + [|b|]);
  }

  /** What is still to be dealt with, oldest first. */
  ghost function Pending(s: State): seq<Event>
    requires WellFormed(s)
  {
    s.retry + Remaining(s) + s.queue
  }

  lemma ProduceKeepsOrder(s: State, e: Event, cfg: Config)
    requires WellFormed(s) && |s.queue| <= MAX_PENDING_EVENTS && Subsequence(Pending(s), s.produced)
    ensures var t := Step(s, Produce(e), cfg); Subsequence(Pending(t), t.produced)
  {
    hide Appended, Dropped, Subsequence;
    var dropped, kept := Dropped(s.queue, e, MAX_PENDING_EVENTS), Appended(s.queue, e, MAX_PENDING_EVENTS);
    AppendBoth(Pending(s), s.produced, e);
    AppendKeepsTheNewest(s.queue, e, MAX_PENDING_EVENTS);
    var front := s.retry + Remaining(s);
    assert Pending(s) + [e] == front + (s.queue + [e]);
    assert front + (dropped + kept) == front + dropped + kept;
    DropMiddle(front, dropped, kept, s.produced + [e]);
  }

  lemma Regroup<T>(r: seq<T>, e: T, rest: seq<T>, q: seq<T>)
    ensures r + ([e] + rest) + q == r + [e] + (rest + q)
    ensures (r + [e]) + rest + q == r + ([e] + rest) + q
    ensures (r + ([e] + rest)) + [] + q == r + ([e] + rest) + q
    ensures r + rest + q == r + (rest + q)
  {}

  lemma ProcessKeepsOrder(s: State, v: Verdict, cfg: Config)
    requires WellFormed(s) && Subsequence(Pending(s), s.produced)
    ensures var t := Step(s, Process(v), cfg); Subsequence(Pending(t), t.produced)
  {
    hide PersistEvent, Subsequence;
    var t := Step(s, Process(v), cfg);
    if s.batch.Some? && !s.batch.value.popping && s.batch.value.processed < |s.batch.value.events| {
      var b := s.batch.value;
      RemainingSplits(b);
      var e, rest := b.events[b.processed], b.events[b.processed + 1..];
      Regroup(s.retry, e, rest, s.queue);
      var effect := PersistEvent(e, v, b.now, cfg.maxAge, cfg.pkOf);
      if effect.Settled? { DropMiddle(s.retry, [e], rest + s.queue, s.produced); }
    }
  }

  lemma StepKeepsOrder(s: State, a: Action, cfg: Config)
    requires WellFormed(s) && |s.queue| <= MAX_PENDING_EVENTS && Subsequence(Pending(s), s.produced)
    ensures var t := Step(s, a, cfg); Subsequence(Pending(t), t.produced)
  {
    hide PersistEvent, Appended, Dropped, Subsequence;
    if a.Produce? { ProduceKeepsOrder(s, a.event, cfg); }
    else if a.Process? { ProcessKeepsOrder(s, a.verdict, cfg); }
    else { OthersKeepPending(s, a, cfg); }
  }

  lemma OthersKeepPending(s: State, a: Action, cfg: Config)
    requires WellFormed(s) && !a.Produce? && !a.Process?
    ensures Pending(Step(s, a, cfg)) == Pending(s)
  {
    if a.Pop? && s.batch.Some? && s.batch.value.popping && s.queue != [] {
      var events := s.batch.value.events;
      assert s.retry + (events + [s.queue[0]])[0..] + s.queue[1..] == s.retry + events[0..] + s.queue;
    }
  }

  /** Retries, the drain in progress and the queue, read in this order, are always in
      production order: nothing overtakes. */
  lemma {:induction false} PendingKeepsOrder(actions: seq<Action>, cfg: Config)
    ensures var s := Run(EMPTY, actions, cfg); Subsequence(Pending(s), s.produced)
  {
    if actions == [] {
      assert Places(Pending(EMPTY), [], []);
    } else {
      hide Subsequence;
      PendingKeepsOrder(actions[..|actions| - 1], cfg);
      EventsAreConserved(actions[..|actions| - 1], cfg);
      StepKeepsOrder(Run(EMPTY, actions[..|actions| - 1], cfg), actions[|actions| - 1], cfg);
    }
  }

  // ── Age ──────────────────────────────────────────────────────────────────

  /** Worth retrying at time now: the service could take it and it is not stale. */
  ghost predicate Retriable(e: Event, now: int, cfg: Config) {
    DiscardReason(e, now, cfg.maxAge, cfg.pkOf).None?
  }

  /** While a drain runs, the retry list holds only events it has itself found retriable. */
  ghost predicate RetryIsFresh(s: State, cfg: Config) {
    s.batch.Some? ==>
      if s.batch.value.popping then s.retry == [] else forall e :: e in s.retry ==> Retriable(e, s.batch.value.now, cfg)
  }

  lemma {:induction false} RetryStaysFresh(actions: seq<Action>, cfg: Config)
    ensures RetryIsFresh(Run(EMPTY, actions, cfg), cfg)
  {
    if actions != [] {
      RetryStaysFresh(actions[..|actions| - 1], cfg);
      StepKeepsRetryFresh(Run(EMPTY, actions[..|actions| - 1], cfg), actions[|actions| - 1], cfg);
    }
  }

  lemma StepKeepsRetryFresh(s: State, a: Action, cfg: Config)
    requires WellFormed(s) && RetryIsFresh(s, cfg)
    ensures RetryIsFresh(Step(s, a, cfg), cfg)
  {}

  /** A drain that runs to its end leaves for retry only events the service could take and
      that were at most max_age old when the drain began. */
  lemma CompletedDrainLeavesFreshRetries(actions: seq<Action>, cfg: Config, e: Event)
    requires Completed(Run(EMPTY, actions, cfg))
    requires e in Step(Run(EMPTY, actions, cfg), Finish, cfg).retry
    ensures var now := Run(EMPTY, actions, cfg).batch.value.now;
            && now - e.timestamp <= cfg.maxAge && cfg.pkOf(e.employeeId).Some? && EventIntent(e.eventType).Some?
    ensures Step(Run(EMPTY, actions, cfg), Finish, cfg).batch.None?
  {
    RetryStaysFresh(actions, cfg);
  }

  // ── The consumer object ──────────────────────────────────────────────────

  /** The first n events of a running drain, undisturbed by producers. */
  ghost function Processed(s: State, verdicts: nat -> Verdict, n: nat, cfg: Config): (t: State)
    requires WellFormed(s)
    ensures WellFormed(t)
  {
    if n == 0 then s else Step(Processed(s, verdicts, n - 1, cfg), Process(verdicts(n - 1)), cfg)
  }

  /** The state once a drain has collected its events, undisturbed by producers. */
  ghost function Opened(s: State, now: int): (t: State)
    requires WellFormed(s)
    ensures WellFormed(t)
  {
    if s.batch.Some? || s.retry + s.queue == [] then s
    else s.(queue := [], retry := [], batch := Some(Batch(s.retry + s.queue, 0, now, false)))
  }

  /** drain_once as steps of the state machine. `opens` and `closes` say whether the
      session could be opened and closed. */
  ghost function Drained(s: State, now: int, opens: bool, verdicts: nat -> Verdict, closes: bool,
                         cfg: Config): (t: State)
    requires WellFormed(s)
    ensures WellFormed(t)
  {
    var b := Opened(s, now);
    if b.batch.None? then b
    else if !opens then Step(b, Interrupt, cfg)
    else Step(Processed(b, verdicts, |b.batch.value.events|, cfg), if closes then Finish else Interrupt, cfg)
  }

  /** Whether the drain ends in an exception. */
  ghost predicate DrainRaises(s: State, now: int, opens: bool, verdicts: nat -> Verdict, closes: bool, cfg: Config)
    requires WellFormed(s)
  {
    var b := Opened(s, now);
    b.batch.Some?
    && (!opens || !closes || Processed(b, verdicts, |b.batch.value.events|, cfg).batch.None?)
  }

  function WritesIn(done: seq<Done>): nat {
    if done == [] then 0 else WritesIn(done[..|done| - 1]) + if done[|done| - 1].outcome == Persisted then 1 else 0
  }

  lemma WritesInOneMore(done: seq<Done>, d: Done)
    ensures WritesIn(done + [d]) == WritesIn(done) + if d.outcome == Persisted then 1 else 0
  {
    assert (done + [d])[..|done|] == done;
  }

  class AttendanceEventConsumer {
    const generator: AttendanceGenerator
    const cfg: Config
    var retry: seq<Event>
    ghost var done: seq<Done>

    constructor (generator: AttendanceGenerator, cfg: Config)
      ensures this.generator == generator && this.cfg == cfg && retry == [] && done == []
    {
      this.generator, this.cfg := generator, cfg;
      retry, done := [], [];
    }

    /** The state between drains; the histories of the producers are not the consumer's. */
    ghost function View(): State
      reads this, generator
    {
      State(generator.queue, retry, None, [], done, [])
    }

    /** The loop over one batch; `broken` tells that something escaped the handler. */
    method PersistBatch(events: seq<Event>, now: int, verdicts: nat -> Verdict)
      returns (persisted: nat, processed: nat, broken: bool)
      requires retry == []
      modifies this
      ensures var start := Draining([], events, 0, now, old(done));
              && Processed(start, verdicts, |events|, cfg)
                 == (if broken then State([], retry, None, [], done, [])
                     else Draining(retry, events, processed, now, done))
              && processed <= |events| && (!broken ==> processed == |events|)
      ensures !broken ==> WritesIn(done) == WritesIn(old(done)) + persisted
    {
      hide Step, Processed, WritesIn, PersistEvent;
      ghost var start := Draining([], events, 0, now, done);
      ProcessedNone(start, verdicts, cfg);
      persisted, processed := 0, 0;
      while processed < |events|
        invariant processed <= |events|
        invariant Draining(retry, events, processed, now, done) == Processed(start, verdicts, processed, cfg)
        invariant WritesIn(done) == WritesIn(old(done)) + persisted
      {
        var event := events[processed];
        var effect := PersistEvent(event, verdicts(processed), now, cfg.maxAge, cfg.pkOf);
        ProcessedOneMore(start, verdicts, processed, cfg);
        ProcessStep(retry, events, processed, now, done, verdicts(processed), cfg);
        match effect {
          case Settled(outcome) =>
            WritesInOneMore(done, Done(event, outcome));
            done := done + [Done(event, outcome)];
            if outcome == Persisted { persisted := persisted + 1; }
          case Requeued =>
            retry := retry + [event];
          case Broken =>
            retry := retry + events[processed..];
            BrokenDrainIsOver(start, verdicts, processed + 1, |events|, cfg);
            return persisted, processed, true;
        }
        processed := processed + 1;
      }
      return persisted, processed, false;
    }

    /** Returns how many events produced a real write. `raised` tells that the drain ended in
        an exception, which the caller then sees instead of the count. */
    method DrainOnce(now: int, opens: bool, verdicts: nat -> Verdict, closes: bool)
      returns (persisted: nat, raised: bool)
      modifies this, generator`queue
      ensures View() == Drained(old(View()), now, opens, verdicts, closes, cfg)
      ensures raised <==> DrainRaises(old(View()), now, opens, verdicts, closes, cfg)
      ensures !raised ==> WritesIn(done) == WritesIn(old(done)) + persisted
    {
      hide Processed, WritesIn;
      var drained := generator.DrainEvents();
      var events := retry + drained;
      retry := [];
      if events == [] { return 0, false; }
      if !opens {
        retry := retry + events;
        return 0, true;
      }
      var processed, broken;
      persisted, processed, broken := PersistBatch(events, now, verdicts);
      if broken { return persisted, true; }
      if !closes {
        retry := retry + events[processed..];
        return persisted, true;
      }
      return persisted, false;
    }
  }

  /** The consumer's state in the middle of a drain. */
  ghost function Draining(retry: seq<Event>, events: seq<Event>, processed: nat, now: int, done: seq<Done>): State {
    State([], retry, Some(Batch(events, processed, now, false)), [], done, [])
  }

  lemma ProcessStep(retry: seq<Event>, events: seq<Event>, processed: nat, now: int, done: seq<Done>, v: Verdict,
                    cfg: Config)
    requires processed < |events|
    ensures var e := events[processed];
            Step(Draining(retry, events, processed, now, done), Process(v), cfg)
            == match PersistEvent(e, v, now, cfg.maxAge, cfg.pkOf)
               case Settled(o) => Draining(retry, events, processed + 1, now, done + [Done(e, o)])
               case Requeued => Draining(retry + [e], events, processed + 1, now, done)
               case Broken => State([], retry + events[processed..], None, [], done, [])
  {}

  lemma ProcessedNone(s: State, verdicts: nat -> Verdict, cfg: Config)
    requires WellFormed(s)
    ensures Processed(s, verdicts, 0, cfg) == s
  {}

  lemma ProcessedOneMore(s: State, verdicts: nat -> Verdict, n: nat, cfg: Config)
    requires WellFormed(s)
    ensures Processed(s, verdicts, n + 1, cfg) == Step(Processed(s, verdicts, n, cfg), Process(verdicts(n)), cfg)
  {}

  lemma {:induction false} BrokenDrainIsOver(s: State, verdicts: nat -> Verdict, m: nat, n: nat, cfg: Config)
    requires WellFormed(s) && m <= n
    requires Processed(s, verdicts, m, cfg).batch.None?
    ensures Processed(s, verdicts, n, cfg) == Processed(s, verdicts, m, cfg)
    decreases n
  {
    if m < n { BrokenDrainIsOver(s, verdicts, m, n - 1, cfg); }
  }

  /** The steps with which a drain collects `queued` events, and then deals with n in all. */
  ghost function CollectActions(queued: nat, now: int): seq<Action> {
    [Begin] + seq(queued, i requires 0 <= i < queued => Pop) + [Collected(now)]
  }

  ghost function DrainActions(queued: nat, n: nat, now: int, opens: bool, verdicts: nat -> Verdict, closes: bool)
    : seq<Action>
  {
    CollectActions(queued, now)
    + if n == 0 then [] else if !opens then [Interrupt]
      else seq(n, i requires 0 <= i < n => Process(verdicts(i))) + [if closes then Finish else Interrupt]
  }

  lemma {:induction false} RunConcat(s: State, a: seq<Action>, b: seq<Action>, cfg: Config)
    requires WellFormed(s)
    ensures Run(s, a + b, cfg) == Run(Run(s, a, cfg), b, cfg)
  {
    if b == [] {
      assert a + b == a;
    } else {
      assert (a + b)[..|a + b| - 1] == a + b[..|b| - 1];
      RunConcat(s, a, b[..|b| - 1], cfg);
    }
  }

  lemma RunOne(s: State, a: Action, cfg: Config)
    requires WellFormed(s)
    ensures Run(s, [a], cfg) == Step(s, a, cfg) && Run(s, [], cfg) == s
  {
    assert [a][..0] == [];
  }

  lemma {:induction false} ProcessedIsRun(s: State, verdicts: nat -> Verdict, n: nat, cfg: Config)
    requires WellFormed(s)
    ensures Run(s, seq(n, i requires 0 <= i < n => Process(verdicts(i))), cfg) == Processed(s, verdicts, n, cfg)
  {
    if n > 0 {
      var actions := seq(n, i requires 0 <= i < n => Process(verdicts(i)));
      assert actions[..n - 1] == seq(n - 1, i requires 0 <= i < n - 1 => Process(verdicts(i)));
      ProcessedIsRun(s, verdicts, n - 1, cfg);
    }
  }

  lemma {:induction false} PopsTakeAll(s: State, n: nat, cfg: Config)
    requires WellFormed(s) && s.batch.Some? && s.batch.value.popping && n <= |s.queue|
    ensures Run(s, seq(n, i requires 0 <= i < n => Pop), cfg)
         == s.(queue := s.queue[n..], batch := Some(s.batch.value.(events := s.batch.value.events + s.queue[..n])))
  {
    if n == 0 {
      assert s.queue[0..] == s.queue && s.batch.value.events + s.queue[..0] == s.batch.value.events;
    } else {
      var pops := seq(n, i requires 0 <= i < n => Pop);
      assert pops[..n - 1] == seq(n - 1, i requires 0 <= i < n - 1 => Pop);
      PopsTakeAll(s, n - 1, cfg);
      var events := s.batch.value.events;
      assert (events + s.queue[..n - 1]) + [s.queue[n - 1..][0]] == events + s.queue[..n];
      assert s.queue[n - 1..][1..] == s.queue[n..];
    }
  }

  lemma CollectingOpens(s: State, now: int, cfg: Config)
    requires WellFormed(s) && s.batch.None?
    ensures Run(s, CollectActions(|s.queue|, now), cfg) == Opened(s, now)
  {
    hide Run;
    var n := |s.queue|;
    var pops := seq(n, i requires 0 <= i < n => Pop);
    var b := Step(s, Begin, cfg);
    RunConcat(s, [Begin] + pops, [Collected(now)], cfg);
    RunConcat(s, [Begin], pops, cfg);
    RunOne(s, Begin, cfg);
    PopsTakeAll(b, n, cfg);
    assert s.queue[n..] == [] && s.retry + s.queue[..n] == s.retry + s.queue;
    RunOne(Run(b, pops, cfg), Collected(now), cfg);
  }

  /** A drain from any reachable state between drains reaches a reachable state: what is
      proved of all runs holds before and after every DrainOnce. */
  lemma DrainIsARun(before: seq<Action>, now: int, opens: bool, verdicts: nat -> Verdict, closes: bool, cfg: Config)
    requires Run(EMPTY, before, cfg).batch.None?
    ensures var s := Run(EMPTY, before, cfg);
            Drained(s, now, opens, verdicts, closes, cfg)
            == Run(EMPTY, before + DrainActions(|s.queue|, |s.retry + s.queue|, now, opens, verdicts, closes), cfg)
  {
    hide Run, Processed, CollectActions;
    var s := Run(EMPTY, before, cfg);
    var n := |s.retry + s.queue|;
    var b, collect := Opened(s, now), CollectActions(|s.queue|, now);
    var all := DrainActions(|s.queue|, n, now, opens, verdicts, closes);
    RunConcat(EMPTY, before, all, cfg);
    CollectingOpens(s, now, cfg);
    if n == 0 {
      assert all == collect;
    } else if !opens {
      RunConcat(s, collect, [Interrupt], cfg);
      RunOne(b, Interrupt, cfg);
    } else {
      var steps := seq(n, i requires 0 <= i < n => Process(verdicts(i)));
      var last := if closes then Finish else Interrupt;
      RunConcat(s, collect, steps + [last], cfg);
      RunConcat(b, steps, [last], cfg);
      ProcessedIsRun(b, verdicts, n, cfg);
      RunOne(Processed(b, verdicts, n, cfg), last, cfg);
    }
  }

  // ── What a drain does to each of its events ──────────────────────────────

  /** The ledger can take e: an employee's check-in or check-out, not too old. */
  ghost predicate Writable(e: Event, now: int, cfg: Config) {
    && cfg.pkOf(e.employeeId).Some?
    && (e.eventType == CheckIn || e.eventType == CheckOut)
    && now - e.timestamp <= cfg.maxAge
  }

  /** The drain gets through the first k events: it is cut off while writing event k, or by nothing. */
  ghost predicate GetsThrough(events: seq<Event>, now: int, verdicts: nat -> Verdict, cfg: Config, k: nat) {
    && k <= |events|
    && (forall i :: 0 <= i < k ==> Writable(events[i], now, cfg) ==> verdicts(i) != Escaped)
    && (k < |events| ==> Writable(events[k], now, cfg) && verdicts(k) == Escaped)
  }

  lemma SomeEventIsLast(events: seq<Event>, now: int, verdicts: nat -> Verdict, cfg: Config) returns (k: nat)
    ensures GetsThrough(events, now, verdicts, cfg, k)
  {
    k := 0;
    while k < |events| && !(Writable(events[k], now, cfg) && verdicts(k) == Escaped)
      invariant k <= |events|
      invariant forall i :: 0 <= i < k ==> Writable(events[i], now, cfg) ==> verdicts(i) != Escaped
    {
      k := k + 1;
    }
  }

  /** Of the first n events, those whose write raised. */
  ghost function Failed(events: seq<Event>, now: int, verdicts: nat -> Verdict, cfg: Config, n: nat): seq<Event>
    requires n <= |events|
  {
    if n == 0 then []
    else
      Failed(events, now, verdicts, cfg, n - 1)
      + if Writable(events[n - 1], now, cfg) && verdicts(n - 1) == Raised then [events[n - 1]] else []
  }

  /** How many of the first n events became a check-in or a check-out of the ledger. */
  ghost function Written(events: seq<Event>, now: int, verdicts: nat -> Verdict, cfg: Config, n: nat): nat
    requires n <= |events|
  {
    if n == 0 then 0
    else
      Written(events, now, verdicts, cfg, n - 1)
      + if Writable(events[n - 1], now, cfg)
           && verdicts(n - 1) in {Returned(Some("check_in")), Returned(Some("check_out"))} then 1 else 0
  }

  /** When an outcome is the right one for an event and the verdict on it. */
  ghost predicate IsOutcomeOf(o: Outcome, e: Event, v: Verdict, now: int, cfg: Config) {
    match o
    case NotAnEmployee => cfg.pkOf(e.employeeId) == None
    case Stale => cfg.pkOf(e.employeeId) != None && e.timestamp < now - cfg.maxAge
    case NoLedgerColumns =>
      && cfg.pkOf(e.employeeId) != None && now - e.timestamp <= cfg.maxAge
      && e.eventType in {BreakStart, BreakEnd, OvertimeStart, OvertimeEnd}
    case Persisted => Writable(e, now, cfg) && v in {Returned(Some("check_in")), Returned(Some("check_out"))}
    case Noop => Writable(e, now, cfg) && v.Returned? && v.lastAction !in {Some("check_in"), Some("check_out")}
    case NoRecord => Writable(e, now, cfg) && v == NoResult
  }

  /** `settled` lists the rest of the first n events, in order, each with its outcome. */
  ghost predicate SettlesTheRest(settled: seq<Done>, events: seq<Event>, now: int, verdicts: nat -> Verdict,
                                 cfg: Config, n: nat)
    requires n <= |events|
  {
    if n == 0 then settled == []
    else if Writable(events[n - 1], now, cfg) && verdicts(n - 1) == Raised
    then SettlesTheRest(settled, events, now, verdicts, cfg, n - 1)
    else
      && settled != []
      && settled[|settled| - 1].event == events[n - 1]
      && IsOutcomeOf(settled[|settled| - 1].outcome, events[n - 1], verdicts(n - 1), now, cfg)
      && SettlesTheRest(settled[..|settled| - 1], events, now, verdicts, cfg, n - 1)
  }

  /** One event, in a drain that has got to it. */
  lemma ProcessEvent(s: State, i: nat, now: int, v: Verdict, cfg: Config)
    requires s.batch.Some? && i < |s.batch.value.events| && s.batch == Some(Batch(s.batch.value.events, i, now, false))
    requires Writable(s.batch.value.events[i], now, cfg) ==> v != Escaped
    ensures var t, e := Step(s, Process(v), cfg), s.batch.value.events[i];
            && t == s.(retry := t.retry, done := t.done, batch := Some(Batch(s.batch.value.events, i + 1, now, false)))
            && if Writable(e, now, cfg) && v == Raised then t.retry == s.retry + [e] && t.done == s.done
               else
                 && t.retry == s.retry && |t.done| == |s.done| + 1
                 && t.done == s.done + [Done(e, t.done[|s.done|].outcome)]
                 && IsOutcomeOf(t.done[|s.done|].outcome, e, v, now, cfg)
                 && (t.done[|s.done|].outcome == Persisted
                     <==> Writable(e, now, cfg) && v in {Returned(Some("check_in")), Returned(Some("check_out"))})
  {}

  /** The first n events of a drain that gets through them. */
  lemma {:induction false} ProcessedEvents(s: State, now: int, verdicts: nat -> Verdict, cfg: Config, n: nat)
    requires s.batch.Some? && s.batch == Some(Batch(s.batch.value.events, 0, now, false)) && n <= |s.batch.value.events|
    requires forall i :: 0 <= i < n ==> Writable(s.batch.value.events[i], now, cfg) ==> verdicts(i) != Escaped
    ensures var t, events := Processed(s, verdicts, n, cfg), s.batch.value.events;
            && t == s.(retry := s.retry + Failed(events, now, verdicts, cfg, n), done := t.done,
                       batch := Some(Batch(events, n, now, false)))
            && |s.done| <= |t.done| && t.done[..|s.done|] == s.done
            && SettlesTheRest(t.done[|s.done|..], events, now, verdicts, cfg, n)
            && WritesIn(t.done) == WritesIn(s.done) + Written(events, now, verdicts, cfg, n)
  {
    hide Step, Writable, IsOutcomeOf, WritesIn;
    var events := s.batch.value.events;
    if n > 0 {
      ProcessedEvents(s, now, verdicts, cfg, n - 1);
      var was := Processed(s, verdicts, n - 1, cfg);
      var t := Step(was, Process(verdicts(n - 1)), cfg);
      ProcessEvent(was, n - 1, now, verdicts(n - 1), cfg);
      if !(Writable(events[n - 1], now, cfg) && verdicts(n - 1) == Raised) {
        var d := t.done[|was.done|];
        WritesInOneMore(was.done, d);
        assert t.done[|s.done|..] == was.done[|s.done|..] + [d];
      }
    }
  }

  /** An event whose write is cut off ends the drain: it and all after it go back. */
  lemma CutOff(s: State, i: nat, now: int, cfg: Config)
    requires s.batch.Some? && i < |s.batch.value.events| && s.batch == Some(Batch(s.batch.value.events, i, now, false))
    requires Writable(s.batch.value.events[i], now, cfg)
    ensures Step(s, Process(Escaped), cfg) == s.(retry := s.retry + s.batch.value.events[i..], batch := None)
  {}

  /**
   * A drain whose session opened, whatever became of its writes: the events it got through are in retry, in order, if
   * their write raised, and are otherwise done with, in order and for the right reason; the others go back to retry.
   */
  lemma DrainIsExact(s: State, now: int, verdicts: nat -> Verdict, closes: bool, cfg: Config, k: nat)
    requires s.batch.None? && GetsThrough(s.retry + s.queue, now, verdicts, cfg, k)
    ensures var t, events := Drained(s, now, true, verdicts, closes, cfg), s.retry + s.queue;
            && t == s.(queue := [], retry := Failed(events, now, verdicts, cfg, k) + events[k..], done := t.done)
            && |s.done| <= |t.done| && t.done[..|s.done|] == s.done
            && SettlesTheRest(t.done[|s.done|..], events, now, verdicts, cfg, k)
            && WritesIn(t.done) == WritesIn(s.done) + Written(events, now, verdicts, cfg, k)
            && (DrainRaises(s, now, true, verdicts, closes, cfg) <==> k < |events| || (events != [] && !closes))
  {
    hide Processed, SettlesTheRest, Failed, Written, WritesIn, Writable;
    var events := s.retry + s.queue;
    if events == [] {
      assert s.queue == [] && s.retry == [] && s.done[..|s.done|] == s.done && s.done[|s.done|..] == [];
      NothingToDo(events, now, verdicts, cfg);
    } else {
      var b := Opened(s, now);
      ProcessedEvents(b, now, verdicts, cfg, k);
      var p := Processed(b, verdicts, k, cfg);
      if k < |events| {
        CutOff(p, k, now, cfg);
        ProcessedOneMore(b, verdicts, k, cfg);
        BrokenDrainIsOver(b, verdicts, k + 1, |events|, cfg);
      } else {
        assert events[k..] == [];
      }
    }
  }

  lemma NothingToDo(events: seq<Event>, now: int, verdicts: nat -> Verdict, cfg: Config)
    ensures Failed(events, now, verdicts, cfg, 0) == [] && Written(events, now, verdicts, cfg, 0) == 0
    ensures SettlesTheRest([], events, now, verdicts, cfg, 0)
  {}

  /** A drain whose session does not open puts everything back, and raises if there was anything. */
  lemma UnopenedDrainPutsAllBack(s: State, now: int, verdicts: nat -> Verdict, closes: bool, cfg: Config)
    requires s.batch.None?
    ensures Drained(s, now, false, verdicts, closes, cfg) == s.(queue := [], retry := s.retry + s.queue)
    ensures DrainRaises(s, now, false, verdicts, closes, cfg) <==> s.retry + s.queue != []
  {}
}
