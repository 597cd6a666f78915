/** The realtime hub in its in-process mode (backend/app/realtime/hub.py). */
module Hub {
  import Sequences
  import opened Wrappers

  const MAX_QUEUED_EVENTS: nat := 100
  const MAX_CONNECTIONS_PER_USER: nat := 8

  datatype Payload = Presence(user: int, online: bool) | Other(text: string)

  /** A serialized event: its organization, its recipients when it is addressed directly, its content. */
  datatype Event = Event(org: Option<int>, to: Option<set<int>>, payload: Payload)

  /** One subscriber as the hub sees it. `orgs` is None for a super admin watching every tenant. */
  datatype Box = Box(user: int, orgs: Option<set<int>>, queue: seq<Event>)

  type Counts = map<(int, int), int>

  /** A direct event goes to its recipients; a broadcast to the super admins and to its own root's watchers. */
  predicate Wants(user: int, orgs: Option<set<int>>, e: Event) {
    if e.to.Some? then user in e.to.value
    else orgs.None? || (e.org.Some? && e.org.value in orgs.value)
  }

  /** Who an event is for: its recipients if it has any; else whoever watches every tenant, or its organization. */
  ghost predicate IsAddressed(user: int, orgs: Option<set<int>>, e: Event) {
    match e.to
    case Some(users) => user in users
    case None =>
      match orgs
      case None => true
      case Some(watched) => e.org.Some? && e.org.value in watched
  }

  /** put_nowait on a bounded queue, with QueueFull swallowed. */
  function Offered(queue: seq<Event>, e: Event): seq<Event> {
    if |queue| < MAX_QUEUED_EVENTS then queue + [e] else queue
  }

  function Deliver<K>(boxes: map<K, Box>, e: Event): map<K, Box> {
    map k | k in boxes ::
      if Wants(boxes[k].user, boxes[k].orgs, e) then boxes[k].(queue := Offered(boxes[k].queue, e)) else boxes[k]
  }

  function SocketsOf<K>(boxes: map<K, Box>, user: int): set<K> {
    set k | k in boxes && boxes[k].user == user
  }

  /** Presence counters: live sockets by (company root, user). */
  function Count(counts: Counts, org: int, user: int): int {
    if (org, user) in counts then counts[(org, user)] else 0
  }

  function Up(counts: Counts, user: int, orgs: set<int>): Counts {
    map key | key in counts.Keys + set org | org in orgs :: (org, user) ::
      Count(counts, key.0, key.1) + if key.1 == user && key.0 in orgs then 1 else 0
  }

  function Down(counts: Counts, user: int, orgs: set<int>): Counts {
    map key | key in counts && !(key.1 == user && key.0 in orgs && counts[key] <= 1) ::
      counts[key] - if key.1 == user && key.0 in orgs then 1 else 0
  }

  /** `list` holds each element of a set once, in whatever order a loop over the set took. */
  ghost predicate Lists(list: seq<int>, s: set<int>) {
    && Sequences.NoDup(list)
    && (forall x :: x in list <==> x in s)
  }

  ghost predicate Ascending(list: seq<int>) {
    forall i, j :: 0 <= i < j < |list| ==> list[i] < list[j]
  }

  /** The roots that a new socket brings online, and those that a closing one takes offline. */
  ghost function ComesOnline(counts: Counts, user: int, orgs: set<int>): set<int> {
    set org | org in orgs && Count(counts, org, user) == 0
  }

  ghost function GoesOffline(counts: Counts, user: int, orgs: set<int>): set<int> {
    set org | org in orgs && Count(counts, org, user) <= 1
  }

  lemma UpOne(counts: Counts, user: int, done: set<int>, org: int)
    requires org !in done
    ensures Count(Up(counts, user, done), org, user) == Count(counts, org, user)
    ensures Up(counts, user, done + {org}) == Up(counts, user, done)[(org, user) := Count(counts, org, user) + 1]
    ensures ComesOnline(counts, user, done + {org})
            == ComesOnline(counts, user, done) + if Count(counts, org, user) == 0 then {org} else {}
    ensures org !in ComesOnline(counts, user, done)
  {}

  lemma DownOne(counts: Counts, user: int, done: set<int>, org: int)
    requires org !in done
    ensures Count(Down(counts, user, done), org, user) == Count(counts, org, user)
    ensures Down(counts, user, done + {org})
            == if Count(counts, org, user) <= 1 then Down(counts, user, done) - {(org, user)}
               else Down(counts, user, done)[(org, user) := Count(counts, org, user) - 1]
    ensures GoesOffline(counts, user, done + {org})
            == GoesOffline(counts, user, done) + if Count(counts, org, user) <= 1 then {org} else {}
    ensures org !in GoesOffline(counts, user, done)
  {}

  function PresenceEvent(user: int, online: bool, root: int): Event {
    Event(Some(root), None, Presence(user, online))
  }

  /** The announcements for a list of roots, delivered one after the other. */
  function DeliverPresence<K>(boxes: map<K, Box>, user: int, online: bool, roots: seq<int>): map<K, Box> {
    if roots == [] then boxes
    else
      var n := |roots| - 1;
      Deliver(DeliverPresence(boxes, user, online, roots[..n]), PresenceEvent(user, online, roots[n]))
  }

  function RootsOf(orgs: Option<set<int>>): set<int> {
    if orgs.Some? then orgs.value else {}
  }

  method Take<T(==)>(s: set<T>) returns (x: T)
    requires s != {}
    ensures x in s
  {
    x :| x in s;
  }

  class Connection {
    const userId: int
    const orgIds: Option<set<int>>
    var queue: seq<Event>

    constructor (userId: int, orgIds: Option<set<int>>)
      ensures this.userId == userId && this.orgIds == orgIds && queue == []
    {
      this.userId := userId;
      this.orgIds := orgIds;
      queue := [];
    }

    /** What _pump_outgoing takes to send next; None while it would wait. */
    method Get() returns (e: Option<Event>)
      modifies this
      ensures e.None? <==> old(queue) == []
      ensures e.Some? ==> old(queue) == [e.value] + queue
      ensures e.None? ==> queue == []
    {
      if queue == [] { return None; }
      e := Some(queue[0]);
      queue := queue[1..];
    }

    ghost function AsBox(): Box
      reads this
    {
      Box(userId, orgIds, queue)
    }
  }

  class RealtimeHub {
    var connections: set<Connection>
    var presenceCounts: Counts

    constructor ()
      ensures connections == {} && presenceCounts == map[]
    {
      connections := {};
      presenceCounts := map[];
    }

    ghost function Boxes(): map<Connection, Box>
      reads this`connections, connections
    {
      map conn | conn in connections :: conn.AsBox()
    }

    method Active(userId: int) returns (active: nat)
      ensures active == |SocketsOf(Boxes(), userId)|
    {
      active := 0;
      var rest := connections;
      ghost var mine: set<Connection> := {};
      while rest != {}
        invariant rest <= connections
        invariant mine == set c | c in connections - rest && c.userId == userId
        invariant active == |mine|
      {
        var c := Take(rest);
        rest := rest - {c};
        if c.userId == userId {
          active := active + 1;
          mine := mine + {c};
        }
      }
      assert mine == SocketsOf(Boxes(), userId);
    }

    method Register(userId: int, orgIds: Option<set<int>>) returns (conn: Connection?)
      modifies this`connections
      ensures conn == null <==> |SocketsOf(old(Boxes()), userId)| >= 8
      ensures conn == null ==> connections == old(connections)
      ensures conn != null ==> fresh(conn) && connections == old(connections) + {conn}
      ensures Boxes() == if conn == null then old(Boxes()) else old(Boxes())[conn := Box(userId, orgIds, [])]
    {
      conn := new Connection(userId, orgIds);
      var active := Active(userId);
      if active >= MAX_CONNECTIONS_PER_USER { return null; }
      connections := connections + {conn};
    }

    method Unregister(conn: Connection)
      modifies this`connections
      ensures connections == old(connections) - {conn}
      ensures Boxes() == old(Boxes()) - {conn}
    {
      connections := connections - {conn};
    }

    method DeliverLocal(e: Event)
      modifies connections
      ensures Boxes() == Deliver(old(Boxes()), e)
      ensures forall conn :: conn in connections ==>
        if IsAddressed(conn.userId, conn.orgIds, e) && |old(conn.queue)| < 100
        then conn.queue == old(conn.queue) + [e] else conn.queue == old(conn.queue)
    {
      var targets := set conn | conn in connections && Wants(conn.userId, conn.orgIds, e);
      var rest := targets;
      while rest != {}
        invariant rest <= targets
        invariant forall conn :: conn in connections ==>
          conn.queue == if conn in targets - rest then Offered(old(conn.queue), e) else old(conn.queue)
      {
        var conn := Take(rest);
        rest := rest - {conn};
        if |conn.queue| < MAX_QUEUED_EVENTS {
          conn.queue := conn.queue + [e];
        }
      }
    }

    method PresenceConnect(userId: int, orgIds: set<int>) returns (became: seq<int>)
      modifies this`presenceCounts
      ensures presenceCounts == Up(old(presenceCounts), userId, orgIds)
      ensures Lists(became, ComesOnline(old(presenceCounts), userId, orgIds))
    {
      became := [];
      var rest := orgIds;
      ghost var counts := presenceCounts;
      while rest != {}
        invariant rest <= orgIds
        invariant presenceCounts == Up(counts, userId, orgIds - rest)
        invariant Lists(became, ComesOnline(counts, userId, orgIds - rest))
      {
        var org := Take(rest);
        ghost var done := orgIds - rest;
        rest := rest - {org};
        var n := (if (org, userId) in presenceCounts then presenceCounts[(org, userId)] else 0) + 1;
        presenceCounts := presenceCounts[(org, userId) := n];
        assert orgIds - rest == done + {org};
        UpOne(counts, userId, done, org);
        if n == 1 { became := became + [org]; }
      }
      assert orgIds - rest == orgIds;
    }

    method PresenceDisconnect(userId: int, orgIds: set<int>) returns (gone: seq<int>)
      modifies this`presenceCounts
      ensures presenceCounts == Down(old(presenceCounts), userId, orgIds)
      ensures Lists(gone, GoesOffline(old(presenceCounts), userId, orgIds))
    {
      gone := [];
      var rest := orgIds;
      ghost var counts := presenceCounts;
      while rest != {}
        invariant rest <= orgIds
        invariant presenceCounts == Down(counts, userId, orgIds - rest)
        invariant Lists(gone, GoesOffline(counts, userId, orgIds - rest))
      {
        var org := Take(rest);
        ghost var done := orgIds - rest;
        rest := rest - {org};
        var n := (if (org, userId) in presenceCounts then presenceCounts[(org, userId)] else 0) - 1;
        assert orgIds - rest == done + {org};
        DownOne(counts, userId, done, org);
        if n <= 0 {
          presenceCounts := presenceCounts - {(org, userId)};
          gone := gone + [org];
        } else {
          presenceCounts := presenceCounts[(org, userId) := n];
        }
      }
      assert orgIds - rest == orgIds;
    }

    /** realtime_ws once the handshake is done. `roots` are the roots announced. */
    method GoLive(conn: Connection) returns (roots: seq<int>)
      modifies this`presenceCounts, connections
      ensures presenceCounts == Up(old(presenceCounts), conn.userId, RootsOf(conn.orgIds))
      ensures Lists(roots, ComesOnline(old(presenceCounts), conn.userId, RootsOf(conn.orgIds)))
      ensures Boxes() == DeliverPresence(old(Boxes()), conn.userId, true, roots)
    {
      roots := PresenceConnect(conn.userId, RootsOf(conn.orgIds));
      AnnounceAll(conn.userId, true, roots);
    }

    /** The finally block of realtime_ws. */
    method HangUp(conn: Connection) returns (roots: seq<int>)
      modifies this, connections
      ensures presenceCounts == Down(old(presenceCounts), conn.userId, RootsOf(conn.orgIds))
      ensures Lists(roots, GoesOffline(old(presenceCounts), conn.userId, RootsOf(conn.orgIds)))
      ensures Boxes() == DeliverPresence(old(Boxes()) - {conn}, conn.userId, false, roots)
    {
      Unregister(conn);
      roots := PresenceDisconnect(conn.userId, RootsOf(conn.orgIds));
      AnnounceAll(conn.userId, false, roots);
    }

    method AnnounceAll(userId: int, online: bool, roots: seq<int>)
      modifies connections
      ensures Boxes() == DeliverPresence(old(Boxes()), userId, online, roots)
    {
      ghost var boxes := Boxes();
      for i := 0 to |roots|
        invariant Boxes() == DeliverPresence(boxes, userId, online, roots[..i])
      {
        DeliverLocal(PresenceEvent(userId, online, roots[i]));
        assert roots[..i + 1][..i] == roots[..i];
      }
      assert roots[..|roots|] == roots;
    }

    method OnlineUserIds(orgId: Option<int>) returns (ids: seq<int>)
      ensures Ascending(ids)
      ensures forall user :: user in ids <==> orgId.Some? && Count(presenceCounts, orgId.value, user) > 0
    {
      ids := [];
      if orgId.None? { return; }
      var rest := presenceCounts.Keys;
      while rest != {}
        invariant rest <= presenceCounts.Keys
        invariant Ascending(ids)
        invariant forall user :: user in ids <==>
          (orgId.value, user) in presenceCounts.Keys - rest && presenceCounts[(orgId.value, user)] > 0
      {
        var key := Take(rest);
        rest := rest - {key};
        if key.0 == orgId.value && presenceCounts[key] > 0 {
          InsertedSorts(ids, key.1);
          ids := Inserted(ids, key.1);
        }
      }
    }
  }

  /** One step of sorting: a new element put in its place. */
  function Inserted(list: seq<int>, x: int): seq<int> {
    if list == [] || x < list[0] then [x] + list else [list[0]] + Inserted(list[1..], x)
  }

  lemma FrontAscends(x: int, rest: seq<int>)
    requires Ascending(rest) && forall y :: y in rest ==> x < y
    ensures Ascending([x] + rest)
  {
    assert forall j :: 0 <= j < |rest| ==> rest[j] in rest;
  }

  lemma {:induction false} InsertedSorts(list: seq<int>, x: int)
    requires Ascending(list) && x !in list
    ensures Ascending(Inserted(list, x))
    ensures forall y :: y in Inserted(list, x) <==> y in list || y == x
  {
    hide Ascending;
    if list != [] {
      assert list == [list[0]] + list[1..];
      TailAscends(list);
      if x < list[0] {
        FrontAscends(x, list);
      } else {
        InsertedSorts(list[1..], x);
        FrontAscends(list[0], Inserted(list[1..], x));
      }
    } else {
      FrontAscends(x, []) by { assert Ascending([]) by { NothingAscends(); } }
    }
  }

  lemma NothingAscends()
    ensures Ascending([])
  {}

  lemma TailAscends(list: seq<int>)
    requires list != [] && Ascending(list)
    ensures Ascending(list[1..]) && forall y :: y in list[1..] ==> list[0] < y
  {}
}
