/**
 * The hub's objects at work are a run of its state machine (backend/app/realtime/hub.py,
 * backend/app/api/ws.py): what is proved of every run holds of them.
 */
module HubServer {
  import opened Wrappers
  import opened Hub
  import opened HubRuns
  import Sequences

  /** `sockets` names each mailbox by the number it has in the state machine. */
  ghost predicate Linked<K>(mailboxes: map<K, Box>, sockets: map<nat, K>, boxes: map<nat, Box>) {
    && sockets.Keys == boxes.Keys && sockets.Values == mailboxes.Keys
    && (forall i, j :: i in sockets && j in sockets && i != j ==> sockets[i] != sockets[j])
    && (forall i :: i in sockets ==> mailboxes[sockets[i]] == boxes[i])
  }

  lemma InValues<K>(sockets: map<nat, K>, i: nat)
    requires i in sockets
    ensures sockets[i] in sockets.Values
  {}

  lemma DeliverLinked<K>(mailboxes: map<K, Box>, sockets: map<nat, K>, boxes: map<nat, Box>, e: Event)
    requires Linked(mailboxes, sockets, boxes)
    ensures Linked(Deliver(mailboxes, e), sockets, Deliver(boxes, e))
  {
    hide Wants, Offered;
    assert Deliver(mailboxes, e).Keys == mailboxes.Keys && Deliver(boxes, e).Keys == boxes.Keys;
    forall i | i in sockets
      ensures sockets[i] in mailboxes && Deliver(mailboxes, e)[sockets[i]] == Deliver(boxes, e)[i]
    {
      InValues(sockets, i);
    }
  }

  lemma {:induction false} PresenceLinked<K>(mailboxes: map<K, Box>, sockets: map<nat, K>, boxes: map<nat, Box>,
                                             user: int,
                                             online: bool, roots: seq<int>)
    requires Linked(mailboxes, sockets, boxes)
    ensures Linked(DeliverPresence(mailboxes, user, online, roots), sockets,
                   DeliverPresence(boxes, user, online, roots))
  {
    hide Linked, Deliver;
    if roots != [] {
      var init := roots[..|roots| - 1];
      PresenceLinked(mailboxes, sockets, boxes, user, online, init);
      DeliverLinked(DeliverPresence(mailboxes, user, online, init), sockets, DeliverPresence(boxes, user, online, init),
                    PresenceEvent(user, online, roots[|roots| - 1]));
    }
  }

  lemma JoinLinked<K>(mailboxes: map<K, Box>, sockets: map<nat, K>, boxes: map<nat, Box>, id: nat, k: K, b: Box)
    requires Linked(mailboxes, sockets, boxes) && id !in boxes && k !in mailboxes
    ensures Linked(mailboxes[k := b], sockets[id := k], boxes[id := b])
  {
    var sockets' := sockets[id := k];
    forall i | i in sockets ensures sockets[i] in mailboxes && sockets'[i] == sockets[i] { InValues(sockets, i); }
    forall x ensures x in sockets'.Values <==> x in mailboxes[k := b].Keys {
      if x in mailboxes {
        assert x in sockets.Values;
        var i :| i in sockets && sockets[i] == x;
        assert sockets'[i] == x;
      }
      if x == k { assert sockets'[id] == x; }
    }
  }

  lemma LeaveLinked<K>(mailboxes: map<K, Box>, sockets: map<nat, K>, boxes: map<nat, Box>, id: nat)
    requires Linked(mailboxes, sockets, boxes) && id in boxes
    ensures Linked(mailboxes - {sockets[id]}, sockets - {id}, boxes - {id})
  {
    var sockets' := sockets - {id};
    forall i | i in sockets' ensures sockets[i] in mailboxes && sockets'[i] == sockets[i] && sockets[i] != sockets[id] {
      InValues(sockets, i);
    }
    forall x ensures x in sockets'.Values <==> x in (mailboxes - {sockets[id]}).Keys {
      if x in mailboxes && x != sockets[id] {
        assert x in sockets.Values;
        var i :| i in sockets && sockets[i] == x;
        assert i in sockets' && sockets'[i] == x;
      }
    }
  }

  lemma {:induction false} SameCount<K>(mailboxes: map<K, Box>, sockets: map<nat, K>, boxes: map<nat, Box>, user: int)
    requires Linked(mailboxes, sockets, boxes)
    ensures |SocketsOf(mailboxes, user)| == |SocketsOf(boxes, user)|
    decreases |boxes|
  {
    hide Linked;
    if boxes == map[] {
      NobodyLinked(mailboxes, sockets, boxes);
      assert SocketsOf(mailboxes, user) == {} && SocketsOf(boxes, user) == {};
    } else {
      var id := Sequences.Pick(boxes.Keys);
      LinkedAt(mailboxes, sockets, boxes, id);
      LeaveLinked(mailboxes, sockets, boxes, id);
      var k := sockets[id];
      assert |boxes - {id}| < |boxes| by { assert (boxes - {id}).Keys == boxes.Keys - {id}; }
      SameCount(mailboxes - {k}, sockets - {id}, boxes - {id}, user);
      OneLess(mailboxes, k, user);
      OneLess(boxes, id, user);
    }
  }

  lemma NobodyLinked<K>(mailboxes: map<K, Box>, sockets: map<nat, K>, boxes: map<nat, Box>)
    requires Linked(mailboxes, sockets, boxes) && boxes == map[]
    ensures mailboxes == map[]
  {
    assert sockets == map[];
  }

  lemma LinkedAt<K>(mailboxes: map<K, Box>, sockets: map<nat, K>, boxes: map<nat, Box>, id: nat)
    requires Linked(mailboxes, sockets, boxes) && id in boxes
    ensures id in sockets && sockets[id] in mailboxes && mailboxes[sockets[id]] == boxes[id]
  {
    InValues(sockets, id);
  }

  lemma OneLess<K>(boxes: map<K, Box>, k: K, user: int)
    requires k in boxes
    ensures |SocketsOf(boxes, user)| == |SocketsOf(boxes - {k}, user)| + if boxes[k].user == user then 1 else 0
  {
    if boxes[k].user == user {
      assert SocketsOf(boxes, user) == SocketsOf(boxes - {k}, user) + {k};
    } else {
      assert SocketsOf(boxes, user) == SocketsOf(boxes - {k}, user);
    }
  }

  lemma ReadLinked<K>(mailboxes: map<K, Box>, sockets: map<nat, K>, boxes: map<nat, Box>, id: nat, b: Box)
    requires Linked(mailboxes, sockets, boxes) && id in boxes
    ensures Linked(mailboxes[sockets[id] := b], sockets, boxes[id := b])
  {
    InValues(sockets, id);
  }

  lemma NextIdIsNew(actions: seq<Action>)
    ensures Run(actions).nextId !in Run(actions).boxes
  {
    hide Run;
    PresenceInEveryRun(actions, 0, 0);
  }

  lemma RunOneMore(actions: seq<Action>, a: Action)
    ensures Run(actions + [a]) == Next(Run(actions), a)
  {
    assert (actions + [a])[..|actions|] == actions;
  }

  /** Announcing changes the mailboxes as the hub does, and no counter. */
  lemma AnnouncedMoves(s: State, user: int, online: bool, roots: seq<int>)
    requires Sequences.NoDup(roots)
    ensures Announced(s, user, online, roots).boxes == DeliverPresence(s.boxes, user, online, roots)
    ensures Announced(s, user, online, roots).counts == s.counts && Announced(s, user, online, roots).live == s.live
  {
    hide Announced, DeliverPresence;
    AnnouncedDelivers(s, user, online, roots);
    AnnouncedSays(s, user, online, roots, 0, 0);
  }

  lemma NextAnnounce(s: State, id: nat, roots: seq<int>)
    requires id in s.boxes && id !in s.live
    requires Lists(roots, ComesOnline(s.counts, s.boxes[id].user, RootsOf(s.boxes[id].orgs)))
    ensures var t := Next(s, Announce(id, roots));
            && t.boxes == DeliverPresence(s.boxes, s.boxes[id].user, true, roots)
            && t.counts == Up(s.counts, s.boxes[id].user, RootsOf(s.boxes[id].orgs)) && t.live == s.live + {id}
  {
    hide Announced, DeliverPresence, Up, ComesOnline;
    var b := s.boxes[id];
    AnnouncedMoves(s.(live := s.live + {id}, counts := Up(s.counts, b.user, RootsOf(b.orgs))), b.user, true, roots);
  }

  lemma NextClose(s: State, id: nat, roots: seq<int>)
    requires id in s.boxes && id in s.live
    requires Lists(roots, GoesOffline(s.counts, s.boxes[id].user, RootsOf(s.boxes[id].orgs)))
    ensures var t := Next(s, Close(id, roots));
            && t.boxes == DeliverPresence(s.boxes - {id}, s.boxes[id].user, false, roots)
            && t.counts == Down(s.counts, s.boxes[id].user, RootsOf(s.boxes[id].orgs)) && t.live == s.live - {id}
  {
    hide Announced, DeliverPresence, Down, GoesOffline;
    var b := s.boxes[id];
    AnnouncedMoves(s.(boxes := s.boxes - {id}, live := s.live - {id},
                      counts := Down(s.counts, b.user, RootsOf(b.orgs))),
                   b.user, false, roots);
  }

  /** The process that serves the websockets: a hub, and the ghost record of what has been done with it. */
  class Server {
    const hub: RealtimeHub
    ghost var sockets: map<nat, Connection>
    ghost var run: seq<Action>

    ghost predicate Valid()
      reads this, hub, hub.connections
    {
      Linked(hub.Boxes(), sockets, Run(run).boxes) && hub.presenceCounts == Run(run).counts
    }

    constructor ()
      ensures Valid() && run == [] && fresh(hub)
    {
      hub := new RealtimeHub();
      sockets, run := map[], [];
      new;
      assert hub.Boxes() == map[];
    }

    /** A handshake gets its mailbox, or is refused. */
    method Accept(userId: int, orgIds: Option<set<int>>) returns (conn: Connection?)
      requires Valid()
      modifies this`sockets, this`run, hub`connections
      ensures Valid() && run == old(run) + [Register(userId, orgIds)]
      ensures sockets == if conn == null then old(sockets) else old(sockets)[old(Run(run).nextId) := conn]
    {
      hide Run, Linked, SocketsOf;
      ghost var s, mailboxes := Run(run), hub.Boxes();
      NextIdIsNew(run);
      SameCount(mailboxes, sockets, s.boxes, userId);
      RunOneMore(run, Register(userId, orgIds));
      conn := hub.Register(userId, orgIds);
      run := run + [Register(userId, orgIds)];
      if conn != null {
        ghost var joined: Connection := conn;
        assert joined !in mailboxes;
        JoinLinked(mailboxes, sockets, s.boxes, s.nextId, joined, Box(userId, orgIds, []));
        sockets := sockets[s.nextId := joined];
      }
    }

    method GoLive(ghost id: nat, conn: Connection) returns (ghost roots: seq<int>)
      requires Valid() && id in sockets && sockets[id] == conn && id !in Run(run).live
      modifies this`run, hub`presenceCounts, hub.connections
      ensures Valid() && run == old(run) + [Announce(id, roots)] && Run(run).live == old(Run(run).live) + {id}
    {
      hide Run, Linked, Next, Up, DeliverPresence, ComesOnline;
      ghost var s, mailboxes := Run(run), hub.Boxes();
      Numbered(mailboxes, sockets, s.boxes, id);
      var announced := hub.GoLive(conn);
      roots := announced;
      NextAnnounce(s, id, roots);
      RunOneMore(run, Announce(id, roots));
      PresenceLinked(mailboxes, sockets, s.boxes, conn.userId, true, roots);
      run := run + [Announce(id, roots)];
    }

    method HangUp(ghost id: nat, conn: Connection) returns (ghost roots: seq<int>)
      requires Valid() && id in sockets && sockets[id] == conn && id in Run(run).live
      modifies this`sockets, this`run, hub, hub.connections
      ensures Valid() && run == old(run) + [Close(id, roots)]
      ensures sockets == old(sockets) - {id}
    {
      hide Run, Linked, Next, Down, DeliverPresence, GoesOffline;
      ghost var s, mailboxes := Run(run), hub.Boxes();
      Numbered(mailboxes, sockets, s.boxes, id);
      LeaveLinked(mailboxes, sockets, s.boxes, id);
      var announced := hub.HangUp(conn);
      roots := announced;
      NextClose(s, id, roots);
      RunOneMore(run, Close(id, roots));
      PresenceLinked(mailboxes - {conn}, sockets - {id}, s.boxes - {id}, conn.userId, false, roots);
      sockets := sockets - {id};
      run := run + [Close(id, roots)];
    }

    method Broadcast(org: Option<int>, to: Option<set<int>>, text: string)
      requires Valid()
      modifies this`run, hub.connections
      ensures Valid() && run == old(run) + [Publish(org, to, text)]
    {
      hide Run, Linked, Deliver;
      ghost var s, mailboxes := Run(run), hub.Boxes();
      hub.DeliverLocal(Event(org, to, Other(text)));
      RunOneMore(run, Publish(org, to, text));
      DeliverLinked(mailboxes, sockets, s.boxes, Event(org, to, Other(text)));
      run := run + [Publish(org, to, text)];
    }

    /** _pump_outgoing takes one event, if there is one. */
    method Read(ghost id: nat, conn: Connection) returns (e: Option<Event>)
      requires Valid() && id in sockets && sockets[id] == conn
      modifies this`run, hub.connections
      ensures Valid() && run == old(run) + [Consume(id)]
    {
      hide Run, Linked;
      ghost var s, mailboxes := Run(run), hub.Boxes();
      Numbered(mailboxes, sockets, s.boxes, id);
      MailInEveryRun(run, id);
      e := conn.Get();
      RunOneMore(run, Consume(id));
      if e.Some? {
        ghost var b := s.boxes[id].(queue := s.boxes[id].queue[1..]);
        assert hub.Boxes() == mailboxes[conn := b];
        ReadLinked(mailboxes, sockets, s.boxes, id, b);
      } else {
        assert hub.Boxes() == mailboxes;
      }
      run := run + [Consume(id)];
    }
  }

  lemma Numbered<K>(mailboxes: map<K, Box>, sockets: map<nat, K>, boxes: map<nat, Box>, id: nat)
    requires Linked(mailboxes, sockets, boxes) && id in sockets
    ensures id in boxes && sockets[id] in mailboxes && mailboxes[sockets[id]] == boxes[id]
  {
    InValues(sockets, id);
  }
}
