/**
 * Whole runs of the realtime hub: sockets come and go, events are published, clients read
 * (backend/app/realtime/hub.py, backend/app/api/ws.py).
 *
 * In the in-process mode the hub's lock is never held across a suspension, so each stretch of
 * realtime_ws between two awaits that can suspend is one action. A socket that is registered but never
 * announced is one whose handshake is still under way or has failed.
 */
module HubRuns {
  import opened Wrappers
  import opened Hub
  import Sequences

  /** An event that matched a mailbox, and how many were queued there at that moment. */
  datatype Offer = Offer(event: Event, queued: nat)

  /** The history of one socket: when it registered, what it was offered, what its pump has taken to send. */
  datatype Log = Log(since: nat, offers: seq<Offer>, consumed: seq<Event>)

  datatype State = State(
    boxes: map<nat, Box>,   // the registered sockets
    live: set<nat>,         // those whose presence has been announced
    logs: map<nat, Log>,
    nextId: nat,
    counts: Counts,
    events: seq<Event>)     // everything published so far

  /** `roots` is the order in which the hub's loop over a set of roots found the transitions. */
  datatype Action =
    | Register(user: int, orgs: Option<set<int>>)
    | Announce(id: nat, roots: seq<int>)
    | Close(id: nat, roots: seq<int>)
    | Publish(org: Option<int>, to: Option<set<int>>, text: string)
    | Consume(id: nat)

  const INITIAL := State(map[], {}, map[], 0, map[], [])

  function Logged(log: Log, b: Box, e: Event): Log {
    if Wants(b.user, b.orgs, e) then log.(offers := log.offers + [Offer(e, |b.queue|)]) else log
  }

  function Published(s: State, e: Event): State {
    s.(boxes := Deliver(s.boxes, e),
       logs := map k | k in s.logs :: if k in s.boxes then Logged(s.logs[k], s.boxes[k], e) else s.logs[k],
       events := s.events + [e])
  }

  /** The announcements for a list of roots, one after the other. */
  function Announced(s: State, user: int, online: bool, roots: seq<int>): State {
    if roots == [] then s
    else Published(Announced(s, user, online, roots[..|roots| - 1]), PresenceEvent(user, online, roots[|roots| - 1]))
  }

  lemma {:induction false} AnnouncedDelivers(s: State, user: int, online: bool, roots: seq<int>)
    ensures Announced(s, user, online, roots).boxes == DeliverPresence(s.boxes, user, online, roots)
  {
    if roots != [] {
      AnnouncedDelivers(s, user, online, roots[..|roots| - 1]);
    }
  }

  ghost function Next(s: State, a: Action): State {
    match a
    case Register(user, orgs) =>
      if |SocketsOf(s.boxes, user)| >= MAX_CONNECTIONS_PER_USER then s
      else s.(boxes := s.boxes[s.nextId := Box(user, orgs, [])],
              logs := s.logs[s.nextId := Log(|s.events|, [], [])], nextId := s.nextId + 1)
    case Announce(id, roots) =>
      if id in s.boxes && id !in s.live
         && Lists(roots, ComesOnline(s.counts, s.boxes[id].user, RootsOf(s.boxes[id].orgs))) then
        var b := s.boxes[id];
        Announced(s.(live := s.live + {id}, counts := Up(s.counts, b.user, RootsOf(b.orgs))), b.user, true, roots)
      else s
    case Close(id, roots) =>
      if id in s.boxes && id in s.live
         && Lists(roots, GoesOffline(s.counts, s.boxes[id].user, RootsOf(s.boxes[id].orgs))) then
        var b := s.boxes[id];
        Announced(s.(boxes := s.boxes - {id}, live := s.live - {id}, counts := Down(s.counts, b.user, RootsOf(b.orgs))),
                  b.user, false, roots)
      else s
    case Publish(org, to, text) => Published(s, Event(org, to, Other(text)))
    case Consume(id) =>
      if id in s.boxes && id in s.logs && s.boxes[id].queue != [] then
        var b := s.boxes[id];
        s.(boxes := s.boxes[id := b.(queue := b.queue[1..])],
           logs := s.logs[id := s.logs[id].(consumed := s.logs[id].consumed + [b.queue[0]])])
      else s
  }

  ghost function Run(actions: seq<Action>): State {
    if actions == [] then INITIAL else Next(Run(actions[..|actions| - 1]), actions[|actions| - 1])
  }

  // ── What a client receives ───────────────────────────────────────────────

  /** The events a mailbox had to be offered out of a list of published ones. */
  function Wanted(user: int, orgs: Option<set<int>>, events: seq<Event>): seq<Event> {
    if events == [] then []
    else
      var last := events[|events| - 1];
      Wanted(user, orgs, events[..|events| - 1]) + if Wants(user, orgs, last) then [last] else []
  }

  function EventsOf(offers: seq<Offer>): seq<Event> {
    seq(|offers|, i requires 0 <= i < |offers| => offers[i].event)
  }

  /** The offers that found room: fewer than 100 queued. */
  function Kept(offers: seq<Offer>): seq<Event> {
    if offers == [] then []
    else
      var last := offers[|offers| - 1];
      Kept(offers[..|offers| - 1]) + if last.queued < MAX_QUEUED_EVENTS then [last.event] else []
  }

  /** A socket's mailbox and history agree with each other and with everything published since it registered. */
  ghost predicate MailOk(s: State, id: nat) {
    id in s.boxes ==>
      && id < s.nextId
      && id in s.logs
      && s.logs[id].since <= |s.events|
      && |s.boxes[id].queue| <= MAX_QUEUED_EVENTS
      && s.logs[id].consumed + s.boxes[id].queue == Kept(s.logs[id].offers)
      && EventsOf(s.logs[id].offers) == Wanted(s.boxes[id].user, s.boxes[id].orgs, s.events[s.logs[id].since..])
  }

  lemma WantedOneMore(user: int, orgs: Option<set<int>>, events: seq<Event>, e: Event)
    ensures Wanted(user, orgs, events + [e]) == Wanted(user, orgs, events) + if Wants(user, orgs, e) then [e] else []
  {
    assert (events + [e])[..|events|] == events;
  }

  lemma KeptOneMore(offers: seq<Offer>, o: Offer)
    ensures Kept(offers + [o]) == Kept(offers) + if o.queued < MAX_QUEUED_EVENTS then [o.event] else []
  {
    assert (offers + [o])[..|offers|] == offers;
  }

  lemma PublishedKeepsMail(s: State, e: Event, id: nat)
    requires MailOk(s, id)
    ensures MailOk(Published(s, e), id)
  {
    if id in s.boxes {
      var b, log := s.boxes[id], s.logs[id];
      assert (s.events + [e])[log.since..] == s.events[log.since..] + [e];
      WantedOneMore(b.user, b.orgs, s.events[log.since..], e);
      if Wants(b.user, b.orgs, e) {
        var o := Offer(e, |b.queue|);
        KeptOneMore(log.offers, o);
        assert EventsOf(log.offers + [o]) == EventsOf(log.offers) + [e];
        assert log.consumed + (b.queue + [e]) == (log.consumed + b.queue) + [e];
      }
    }
  }

  lemma {:induction false} AnnouncedKeepsMail(s: State, user: int, online: bool, roots: seq<int>, id: nat)
    requires MailOk(s, id)
    ensures MailOk(Announced(s, user, online, roots), id)
  {
    hide MailOk, Published;
    if roots != [] {
      AnnouncedKeepsMail(s, user, online, roots[..|roots| - 1], id);
      PublishedKeepsMail(Announced(s, user, online, roots[..|roots| - 1]),
                         PresenceEvent(user, online, roots[|roots| - 1]), id);
    }
  }

  lemma NextKeepsMail(s: State, a: Action, id: nat)
    requires MailOk(s, id) && MailOk(s, s.nextId)
    ensures MailOk(Next(s, a), id)
  {
    hide Kept, Wanted, Deliver, Published, Announced, ComesOnline, GoesOffline, Up, Down, Lists, SocketsOf;
    match a
    case Register(user, orgs) =>
      assert s.events[|s.events|..] == [];
      NothingYet(user, orgs);
    case Announce(i, roots) =>
      if i in s.boxes {
        var b := s.boxes[i];
        AnnouncedKeepsMail(s.(live := s.live + {i}, counts := Up(s.counts, b.user, RootsOf(b.orgs))), b.user, true,
                           roots, id);
      }
    case Close(i, roots) =>
      if i in s.boxes {
        var b := s.boxes[i];
        var t := s.(boxes := s.boxes - {i}, live := s.live - {i}, counts := Down(s.counts, b.user, RootsOf(b.orgs)));
        AnnouncedKeepsMail(t, b.user, false, roots, id);
      }
    case Publish(org, to, text) => PublishedKeepsMail(s, Event(org, to, Other(text)), id);
    case Consume(i) =>
      if i == id && i in s.boxes && s.boxes[i].queue != [] {
        var b, log := s.boxes[i], s.logs[i];
        assert log.consumed + [b.queue[0]] + b.queue[1..] == log.consumed + b.queue;
      }
  }

  lemma NothingYet(user: int, orgs: Option<set<int>>)
    ensures Kept([]) == [] && Wanted(user, orgs, []) == [] && EventsOf([]) == []
  {}

  lemma {:induction false} MailInEveryRun(actions: seq<Action>, id: nat)
    ensures MailOk(Run(actions), id)
    decreases |actions|
  {
    hide Next, MailOk;
    if actions == [] {
      assert MailOk(INITIAL, id) by { NoMailAtFirst(id); }
    } else {
      var before := actions[..|actions| - 1];
      MailInEveryRun(before, id);
      MailInEveryRun(before, Run(before).nextId);
      NextKeepsMail(Run(before), actions[|actions| - 1], id);
    }
  }

  lemma NoMailAtFirst(id: nat)
    ensures MailOk(INITIAL, id)
  {}

  /**
   * What has been taken to be sent to a client, followed by what is waiting, is every event published for it since it
   * registered, in publication order, without those that found 100 events already queued.
   */
  lemma ClientsReceiveInOrder(actions: seq<Action>, id: nat)
    requires id in Run(actions).boxes
    ensures var s := Run(actions);
            && id in s.logs && s.logs[id].since <= |s.events|
            && |s.boxes[id].queue| <= MAX_QUEUED_EVENTS
            && s.logs[id].consumed + s.boxes[id].queue == Kept(s.logs[id].offers)
            && EventsOf(s.logs[id].offers) == Wanted(s.boxes[id].user, s.boxes[id].orgs, s.events[s.logs[id].since..])
  {
    hide Run;
    MailInEveryRun(actions, id);
  }

  lemma {:induction false} WantedIsWanted(user: int, orgs: Option<set<int>>, events: seq<Event>)
    ensures forall e :: e in Wanted(user, orgs, events) ==> e in events && Wants(user, orgs, e)
  {
    if events != [] {
      WantedIsWanted(user, orgs, events[..|events| - 1]);
    }
  }

  lemma {:induction false} AddressedIsWanted(user: int, orgs: Option<set<int>>, events: seq<Event>, e: Event)
    requires e in events
    ensures e in Wanted(user, orgs, events) <==> IsAddressed(user, orgs, e)
  {
    var init := events[..|events| - 1];
    assert Wants(user, orgs, e) <==> IsAddressed(user, orgs, e);
    if e in init {
      AddressedIsWanted(user, orgs, init, e);
    } else {
      WantedIsWanted(user, orgs, init);
    }
  }

  /** Of the events published since a socket registered, it was offered exactly those addressed to it. */
  lemma EveryoneIsOfferedTheirEvents(actions: seq<Action>, id: nat, e: Event)
    requires id in Run(actions).boxes
    ensures var s := Run(actions);
            && id in s.logs && s.logs[id].since <= |s.events|
            && (e in EventsOf(s.logs[id].offers)
                <==> e in s.events[s.logs[id].since..] && IsAddressed(s.boxes[id].user, s.boxes[id].orgs, e))
  {
    hide Run, Kept, Wanted, IsAddressed;
    var s := Run(actions);
    MailInEveryRun(actions, id);
    var published := s.events[s.logs[id].since..];
    WantedIsWanted(s.boxes[id].user, s.boxes[id].orgs, published);
    if e in published { AddressedIsWanted(s.boxes[id].user, s.boxes[id].orgs, published, e); }
  }

  lemma {:induction false} KeptIsOffered(offers: seq<Offer>)
    ensures forall e :: e in Kept(offers) ==> e in EventsOf(offers)
  {
    if offers != [] {
      var n := |offers| - 1;
      KeptIsOffered(offers[..n]);
      assert EventsOf(offers) == EventsOf(offers[..n]) + [offers[n].event];
    }
  }

  /** Tenant isolation: a scoped client only ever gets direct events for its user and broadcasts for its own roots. */
  lemma ClientsSeeOnlyTheirTenants(actions: seq<Action>, id: nat, e: Event)
    requires id in Run(actions).boxes && id in Run(actions).logs
    requires e in Run(actions).logs[id].consumed + Run(actions).boxes[id].queue
    ensures e in Run(actions).events
    ensures e.to.Some? ==> Run(actions).boxes[id].user in e.to.value
    ensures var orgs := Run(actions).boxes[id].orgs;
            e.to.None? && orgs.Some? ==> e.org.Some? && e.org.value in orgs.value
  {
    hide Run, Kept, Wanted;
    var s := Run(actions);
    MailInEveryRun(actions, id);
    KeptIsOffered(s.logs[id].offers);
    WantedIsWanted(s.boxes[id].user, s.boxes[id].orgs, s.events[s.logs[id].since..]);
  }

  // ── Presence and the per-user cap ────────────────────────────────────────

  /** The live sockets of a user in a company root. */
  ghost function LiveIn(s: State, org: int, user: int): set<nat> {
    set id | id in s.live && id in s.boxes && s.boxes[id].user == user
             && s.boxes[id].orgs.Some? && org in s.boxes[id].orgs.value
  }

  /** The online and offline announcements made about a user to everyone in a root, in order. */
  function Said(events: seq<Event>, org: int, user: int): seq<bool> {
    if events == [] then []
    else
      var last := events[|events| - 1];
      Said(events[..|events| - 1], org, user)
      + if last.to.None? && last.org == Some(org) && last.payload.Presence? && last.payload.user == user
        then [last.payload.online] else []
  }

  /** online, offline, online, … */
  ghost predicate Alternates(said: seq<bool>) {
    forall i :: 0 <= i < |said| ==> (said[i] <==> i % 2 == 0)
  }

  ghost predicate PresenceOk(s: State, org: int, user: int) {
    && Count(s.counts, org, user) == |LiveIn(s, org, user)|
    && Alternates(Said(s.events, org, user))
    && (|Said(s.events, org, user)| % 2 == 1 <==> Count(s.counts, org, user) > 0)
  }

  ghost predicate SocketsOk(s: State) {
    && s.live <= s.boxes.Keys
    && (forall id :: id in s.boxes ==> id < s.nextId)
    && (forall user :: |SocketsOf(s.boxes, user)| <= MAX_CONNECTIONS_PER_USER)
  }

  /** Publishing changes neither who is registered nor any presence. */
  ghost predicate SamePeople(s: State, t: State) {
    && t.live == s.live && t.counts == s.counts && t.nextId == s.nextId && t.boxes.Keys == s.boxes.Keys
    && (forall id :: id in s.boxes ==> t.boxes[id].user == s.boxes[id].user && t.boxes[id].orgs == s.boxes[id].orgs)
  }

  lemma SamePeopleSameSets(s: State, t: State, org: int, user: int)
    requires SamePeople(s, t)
    ensures LiveIn(t, org, user) == LiveIn(s, org, user)
    ensures SocketsOf(t.boxes, user) == SocketsOf(s.boxes, user)
  {}

  lemma SaidOneMore(events: seq<Event>, e: Event, org: int, user: int)
    ensures Said(events + [e], org, user)
            == Said(events, org, user)
               + if e.to.None? && e.org == Some(org) && e.payload.Presence? && e.payload.user == user
                 then [e.payload.online] else []
  {
    assert (events + [e])[..|events|] == events;
  }

  lemma PublishedStep(s: State, e: Event)
    ensures SamePeople(s, Published(s, e)) && Published(s, e).events == s.events + [e]
  {}

  lemma SamePeopleTrans(s: State, t: State, u: State)
    requires SamePeople(s, t) && SamePeople(t, u)
    ensures SamePeople(s, u)
  {}

  lemma LastIsNew(roots: seq<int>, org: int)
    requires roots != [] && Sequences.NoDup(roots)
    ensures var n := |roots| - 1;
            && Sequences.NoDup(roots[..n])
            && (org in roots <==> org in roots[..n] || org == roots[n])
            && roots[n] !in roots[..n]
  {
    assert roots == roots[..|roots| - 1] + [roots[|roots| - 1]];
  }

  /** Announcing a list of distinct roots says one thing about each of them and nothing about any other pair. */
  lemma {:induction false} AnnouncedSays(s: State, user: int, online: bool, roots: seq<int>, org: int, u: int)
    requires Sequences.NoDup(roots)
    ensures var t := Announced(s, user, online, roots);
            && SamePeople(s, t)
            && Said(t.events, org, u) == Said(s.events, org, u) + if u == user && org in roots then [online] else []
  {
    if roots == [] {
      assert Announced(s, user, online, roots) == s;
    } else {
      hide Said, Published, SamePeople, Sequences.NoDup;
      var n := |roots| - 1;
      LastIsNew(roots, org);
      var m := Announced(s, user, online, roots[..n]);
      var e := PresenceEvent(user, online, roots[n]);
      AnnouncedSays(s, user, online, roots[..n], org, u);
      PublishedStep(m, e);
      SamePeopleTrans(s, m, Published(m, e));
      SaidOneMore(m.events, e, org, u);
      assert Announced(s, user, online, roots) == Published(m, e);
    }
  }

  lemma UpCount(counts: Counts, user: int, orgs: set<int>, org: int, u: int)
    ensures Count(Up(counts, user, orgs), org, u) == Count(counts, org, u) + if u == user && org in orgs then 1 else 0
    ensures org in ComesOnline(counts, user, orgs) <==> org in orgs && Count(counts, org, user) == 0
  {}

  lemma OneSaidMore(said: seq<bool>, online: bool)
    requires Alternates(said) && (|said| % 2 == 1 <==> !online)
    ensures Alternates(said + [online])
  {}

  lemma LiveGrows(s: State, m: State, id: nat, org: int, user: int)
    requires id in s.boxes && id !in s.live && m.boxes == s.boxes && m.live == s.live + {id}
    ensures |LiveIn(m, org, user)|
            == |LiveIn(s, org, user)| + if s.boxes[id].user == user && org in RootsOf(s.boxes[id].orgs) then 1 else 0
  {
    if s.boxes[id].user == user && org in RootsOf(s.boxes[id].orgs) {
      assert LiveIn(m, org, user) == LiveIn(s, org, user) + {id};
    } else {
      assert LiveIn(m, org, user) == LiveIn(s, org, user);
    }
  }

  lemma AnnounceKeepsPresence(s: State, id: nat, roots: seq<int>, org: int, user: int)
    requires id in s.boxes && id !in s.live && s.live <= s.boxes.Keys
    requires Lists(roots, ComesOnline(s.counts, s.boxes[id].user, RootsOf(s.boxes[id].orgs)))
    requires PresenceOk(s, org, user)
    ensures PresenceOk(Next(s, Announce(id, roots)), org, user)
  {
    hide Announced, Said, Up, ComesOnline, Count, LiveIn, RootsOf, Alternates;
    var b := s.boxes[id];
    UpCount(s.counts, b.user, RootsOf(b.orgs), org, user);
    var m := s.(live := s.live + {id}, counts := Up(s.counts, b.user, RootsOf(b.orgs)));
    var t := Announced(m, b.user, true, roots);
    AnnouncedSays(m, b.user, true, roots, org, user);
    SamePeopleSameSets(m, t, org, user);
    LiveGrows(s, m, id, org, user);
    if org in roots && b.user == user {
      OneSaidMore(Said(s.events, org, user), true);
    } else {
      assert Said(t.events, org, user) == Said(s.events, org, user);
    }
  }

  lemma CloseKeepsPresence(s: State, id: nat, roots: seq<int>, org: int, user: int)
    requires id in s.boxes && id in s.live && s.live <= s.boxes.Keys
    requires Lists(roots, GoesOffline(s.counts, s.boxes[id].user, RootsOf(s.boxes[id].orgs)))
    requires PresenceOk(s, org, user)
    ensures PresenceOk(Next(s, Close(id, roots)), org, user)
  {
    hide Announced, Said;
    var b := s.boxes[id];
    var m := s.(boxes := s.boxes - {id}, live := s.live - {id}, counts := Down(s.counts, b.user, RootsOf(b.orgs)));
    var t := Announced(m, b.user, false, roots);
    AnnouncedSays(m, b.user, false, roots, org, user);
    SamePeopleSameSets(m, t, org, user);
    if b.user == user && org in RootsOf(b.orgs) {
      assert id in LiveIn(s, org, user);
      assert LiveIn(m, org, user) == LiveIn(s, org, user) - {id};
      if org in roots { OneSaidMore(Said(s.events, org, user), false); }
    } else {
      assert LiveIn(m, org, user) == LiveIn(s, org, user);
    }
  }

  lemma OtherActionsKeepPresence(s: State, a: Action, org: int, user: int)
    requires !a.Announce? && !a.Close? && s.live <= s.boxes.Keys && s.nextId !in s.boxes
    requires PresenceOk(s, org, user)
    ensures PresenceOk(Next(s, a), org, user)
  {
    hide Said, Deliver;
    var t := Next(s, a);
    assert LiveIn(t, org, user) == LiveIn(s, org, user) by { hide *; OthersKeepLive(s, a, org, user); }
    if a.Publish? { SaidOneMore(s.events, Event(a.org, a.to, Other(a.text)), org, user); }
  }

  lemma OthersKeepLive(s: State, a: Action, org: int, user: int)
    requires !a.Announce? && !a.Close? && s.live <= s.boxes.Keys && s.nextId !in s.boxes
    ensures LiveIn(Next(s, a), org, user) == LiveIn(s, org, user)
  {}

  lemma NextKeepsPresence(s: State, a: Action, org: int, user: int)
    requires SocketsOk(s) && PresenceOk(s, org, user)
    ensures PresenceOk(Next(s, a), org, user)
  {
    hide PresenceOk;
    match a
    case Announce(id, roots) =>
      if id in s.boxes && id !in s.live
         && Lists(roots, ComesOnline(s.counts, s.boxes[id].user, RootsOf(s.boxes[id].orgs)))
      {
        AnnounceKeepsPresence(s, id, roots, org, user);
      }
    case Close(id, roots) =>
      if id in s.boxes && id in s.live
         && Lists(roots, GoesOffline(s.counts, s.boxes[id].user, RootsOf(s.boxes[id].orgs)))
      {
        CloseKeepsPresence(s, id, roots, org, user);
      }
    case _ => OtherActionsKeepPresence(s, a, org, user);
  }

  lemma SamePeopleKeepsSockets(s: State, t: State)
    requires SocketsOk(s) && SamePeople(s, t)
    ensures SocketsOk(t)
  {
    forall user ensures |SocketsOf(t.boxes, user)| <= MAX_CONNECTIONS_PER_USER {
      SamePeopleSameSets(s, t, 0, user);
    }
  }

  lemma OneMoreSocket(boxes: map<nat, Box>, id: nat, b: Box, user: int)
    requires id !in boxes
    ensures |SocketsOf(boxes[id := b], user)| == |SocketsOf(boxes, user)| + if b.user == user then 1 else 0
  {
    if b.user == user {
      assert SocketsOf(boxes[id := b], user) == SocketsOf(boxes, user) + {id};
    } else {
      assert SocketsOf(boxes[id := b], user) == SocketsOf(boxes, user);
    }
  }

  lemma RegisterKeepsSockets(s: State, user: int, orgs: Option<set<int>>)
    requires SocketsOk(s)
    ensures SocketsOk(Next(s, Register(user, orgs)))
  {
    hide SocketsOf;
    var t := Next(s, Register(user, orgs));
    if t.nextId != s.nextId {
      forall u ensures |SocketsOf(t.boxes, u)| <= MAX_CONNECTIONS_PER_USER {
        OneMoreSocket(s.boxes, s.nextId, Box(user, orgs, []), u);
      }
    }
  }

  lemma CloseKeepsSockets(s: State, id: nat, m: State)
    requires SocketsOk(s) && m.boxes == s.boxes - {id} && m.live == s.live - {id} && m.nextId == s.nextId
    ensures SocketsOk(m)
  {
    forall u ensures |SocketsOf(m.boxes, u)| <= MAX_CONNECTIONS_PER_USER {
      assert SocketsOf(m.boxes, u) == SocketsOf(s.boxes, u) - {id};
    }
  }

  lemma ConsumeKeepsSockets(s: State, id: nat)
    requires SocketsOk(s)
    ensures SocketsOk(Next(s, Consume(id)))
  {
    SamePeopleKeepsSockets(s, Next(s, Consume(id)));
  }

  lemma NextKeepsSockets(s: State, a: Action)
    requires SocketsOk(s)
    ensures SocketsOk(Next(s, a))
  {
    hide SocketsOk, Announced, Published, SamePeople, Up, Down, ComesOnline, GoesOffline;
    match a
    case Register(user, orgs) => RegisterKeepsSockets(s, user, orgs);
    case Announce(id, roots) =>
      if id in s.boxes && id !in s.live
         && Lists(roots, ComesOnline(s.counts, s.boxes[id].user, RootsOf(s.boxes[id].orgs)))
      {
        var b := s.boxes[id];
        var m := s.(live := s.live + {id}, counts := Up(s.counts, b.user, RootsOf(b.orgs)));
        assert SocketsOk(m) by { LiveKeepsSockets(s, id, m); }
        AnnouncedSays(m, b.user, true, roots, 0, 0);
        SamePeopleKeepsSockets(m, Next(s, a));
      }
    case Close(id, roots) =>
      if id in s.boxes && id in s.live
         && Lists(roots, GoesOffline(s.counts, s.boxes[id].user, RootsOf(s.boxes[id].orgs)))
      {
        var b := s.boxes[id];
        var m := s.(boxes := s.boxes - {id}, live := s.live - {id}, counts := Down(s.counts, b.user, RootsOf(b.orgs)));
        CloseKeepsSockets(s, id, m);
        AnnouncedSays(m, b.user, false, roots, 0, 0);
        SamePeopleKeepsSockets(m, Next(s, a));
      }
    case Publish(org, to, text) =>
      PublishedStep(s, Event(org, to, Other(text)));
      SamePeopleKeepsSockets(s, Next(s, a));
    case Consume(id) => ConsumeKeepsSockets(s, id);
  }

  lemma LiveKeepsSockets(s: State, id: nat, m: State)
    requires SocketsOk(s) && id in s.boxes
    requires m.boxes == s.boxes && m.live == s.live + {id} && m.nextId == s.nextId
    ensures SocketsOk(m)
  {}

  lemma NobodyAtFirst(org: int, user: int)
    ensures SocketsOk(INITIAL) && PresenceOk(INITIAL, org, user)
  {
    forall u ensures SocketsOf(INITIAL.boxes, u) == {} {}
    assert LiveIn(INITIAL, org, user) == {};
  }

  lemma {:induction false} PresenceInEveryRun(actions: seq<Action>, org: int, user: int)
    ensures SocketsOk(Run(actions)) && PresenceOk(Run(actions), org, user)
  {
    hide Next, SocketsOk, PresenceOk;
    if actions == [] {
      NobodyAtFirst(org, user);
    } else {
      var before, a := actions[..|actions| - 1], actions[|actions| - 1];
      PresenceInEveryRun(before, org, user);
      NextKeepsSockets(Run(before), a);
      NextKeepsPresence(Run(before), a, org, user);
    }
  }

  /** However connects and disconnects interleave, the counter is the number of live sockets, so the roster is exact. */
  lemma CounterIsLiveSockets(actions: seq<Action>, org: int, user: int)
    ensures Count(Run(actions).counts, org, user) == |LiveIn(Run(actions), org, user)|
    ensures Count(Run(actions).counts, org, user) > 0 <==> exists id :: id in LiveIn(Run(actions), org, user)
  {
    hide Run, LiveIn;
    PresenceInEveryRun(actions, org, user);
    var here := LiveIn(Run(actions), org, user);
    if here != {} { assert Sequences.Pick(here) in here; }
  }

  /** Each user's announcements in a root go online, offline, online, …; the last one is right. */
  lemma AnnouncementsAlternate(actions: seq<Action>, org: int, user: int)
    ensures var said := Said(Run(actions).events, org, user);
            && (forall i :: 0 <= i < |said| ==> (said[i] <==> i % 2 == 0))
            && (said != [] && said[|said| - 1] <==> LiveIn(Run(actions), org, user) != {})
  {
    hide Run, Said, LiveIn;
    PresenceInEveryRun(actions, org, user);
    CounterIsLiveSockets(actions, org, user);
  }

  lemma AtMostEightSockets(actions: seq<Action>, user: int)
    ensures |SocketsOf(Run(actions).boxes, user)| <= 8
  {
    hide Run;
    PresenceInEveryRun(actions, 0, user);
  }
}
