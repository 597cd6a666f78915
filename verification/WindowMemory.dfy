/**
 * A memory of the last accepted time per key, with which both the duplicate tracker and
 * the unknown-person cooldown decide: a key is refused while its last accepted time is
 * less than a window ago, and old entries may be forgotten.
 */
module WindowMemory {

  type Memory = map<string, int>

  predicate Recent(m: Memory, key: string, now: int, window: int) {
    key in m && now - m[key] < window
  }

  /** Ask decides at `seen` and, when it accepts, notes the time `stamp`. */
  datatype Call = Ask(key: string, seen: int, stamp: int) | Forget(drop: set<string>, now: int) {
    function Starts(): int { if Ask? then seen else now }
    function Ends(): int { if Ask? then stamp else now }
  }

  function Apply(m: Memory, c: Call, window: int): Memory {
    match c
    case Ask(key, seen, stamp) => if Recent(m, key, seen, window) then m else m[key := stamp]
    case Forget(drop, _) => m - drop
  }

  function After(calls: seq<Call>, window: int): Memory {
    if calls == [] then map[] else Apply(After(calls[..|calls| - 1], window), calls[|calls| - 1], window)
  }

  // ── The reference: a full history, nothing ever forgotten ────────────────

  datatype Accepted = Accepted(key: string, time: int)

  ghost predicate InWindow(history: seq<Accepted>, key: string, now: int, window: int) {
    exists a :: a in history && a.key == key && now - a.time < window
  }

  ghost function History(calls: seq<Call>, window: int): seq<Accepted> {
    if calls == [] then []
    else
      var h := History(calls[..|calls| - 1], window);
      var c := calls[|calls| - 1];
      if c.Ask? && !InWindow(h, c.key, c.seen, window) then h + [Accepted(c.key, c.stamp)] else h
  }

  /** The clock never goes back. */
  ghost predicate Clocked(calls: seq<Call>) {
    && (forall i :: 0 <= i < |calls| ==> calls[i].Starts() <= calls[i].Ends())
    && (forall i, j :: 0 <= i < j < |calls| ==> calls[i].Ends() <= calls[j].Starts())
  }

  /** Only entries a full window old are forgotten. */
  ghost predicate ForgetsOldOnly(calls: seq<Call>, window: int) {
    forall i :: 0 <= i < |calls| && calls[i].Forget? ==>
      forall k :: k in calls[i].drop ==> !Recent(After(calls[..i], window), k, calls[i].now, window)
  }

  lemma PrefixFacts(calls: seq<Call>, window: int)
    requires calls != [] && Clocked(calls) && ForgetsOldOnly(calls, window)
    ensures var init := calls[..|calls| - 1]; Clocked(init) && ForgetsOldOnly(init, window)
  {
    var init := calls[..|calls| - 1];
    forall i | 0 <= i < |init| ensures init[..i] == calls[..i] && init[i] == calls[i] {}
  }

  lemma AfterOneMore(calls: seq<Call>, c: Call, window: int)
    ensures After(calls + [c], window) == Apply(After(calls, window), c, window)
  {
    assert (calls + [c])[..|calls|] == calls;
  }

  lemma HistoryOneMore(calls: seq<Call>, c: Call, window: int)
    ensures var h := History(calls, window);
            History(calls + [c], window)
            == if c.Ask? && !InWindow(h, c.key, c.seen, window) then h + [Accepted(c.key, c.stamp)] else h
  {
    assert (calls + [c])[..|calls|] == calls;
  }

  lemma ClockedOneMore(calls: seq<Call>, c: Call)
    requires Clocked(calls) && c.Starts() <= c.Ends()
    requires forall i :: 0 <= i < |calls| ==> calls[i].Ends() <= c.Starts()
    ensures Clocked(calls + [c])
    ensures forall i :: 0 <= i < |calls + [c]| ==> (calls + [c])[i].Ends() <= c.Ends()
  {}

  lemma ForgetsOneMore(calls: seq<Call>, c: Call, window: int)
    requires ForgetsOldOnly(calls, window)
    requires c.Forget? ==> forall k :: k in c.drop ==> !Recent(After(calls, window), k, c.now, window)
    ensures ForgetsOldOnly(calls + [c], window)
  {
    var m := calls + [c];
    forall i | 0 <= i < |m| && m[i].Forget?
      ensures forall k :: k in m[i].drop ==> !Recent(After(m[..i], window), k, m[i].now, window)
    {
      if i < |calls| { assert m[..i] == calls[..i]; } else { assert m[..i] == calls; }
    }
  }

  ghost predicate Latest(m: Memory, history: seq<Accepted>, window: int, clock: int) {
    && (forall k :: k in m ==> Accepted(k, m[k]) in history)
    && (forall a :: a in history ==> a.time <= clock)
    && (forall a :: a in history ==> (a.key in m && a.time <= m[a.key]) || clock - a.time >= window)
  }

  lemma {:induction false} MemoryTracksHistory(calls: seq<Call>, window: int, clock: int)
    requires Clocked(calls) && ForgetsOldOnly(calls, window)
    requires forall i :: 0 <= i < |calls| ==> calls[i].Ends() <= clock
    ensures Latest(After(calls, window), History(calls, window), window, clock)
    decreases |calls|
  {
    if calls != [] {
      var init, c := calls[..|calls| - 1], calls[|calls| - 1];
      PrefixFacts(calls, window);
      assert forall i :: 0 <= i < |init| ==> init[i] == calls[i];
      MemoryTracksHistory(init, window, c.Starts());
      var m, h := After(init, window), History(init, window);
      if c.Ask? {
        LatestDecides(m, h, window, c.seen, c.key);
      } else {
        assert calls[..|calls| - 1] == init;
        assert forall k :: k in c.drop ==> !Recent(m, k, c.now, window);
      }
    }
  }

  lemma LatestDecides(m: Memory, history: seq<Accepted>, window: int, clock: int, key: string)
    requires Latest(m, history, window, clock)
    ensures Recent(m, key, clock, window) <==> InWindow(history, key, clock, window)
  {
    if Recent(m, key, clock, window) { assert Accepted(key, m[key]) in history; }
  }

  /** The memory answers as the full history would, whatever has been forgotten. */
  lemma ForgettingIsInvisible(calls: seq<Call>, window: int, key: string, now: int)
    requires Clocked(calls) && ForgetsOldOnly(calls, window)
    requires forall i :: 0 <= i < |calls| ==> calls[i].Ends() <= now
    ensures Recent(After(calls, window), key, now, window) <==> InWindow(History(calls, window), key, now, window)
  {
    MemoryTracksHistory(calls, window, now);
    LatestDecides(After(calls, window), History(calls, window), window, now, key);
  }

  lemma {:induction false} HistoryIsClocked(calls: seq<Call>, window: int, clock: int)
    requires Clocked(calls) && forall i :: 0 <= i < |calls| ==> calls[i].Ends() <= clock
    ensures forall a :: a in History(calls, window) ==> a.time <= clock
    decreases |calls|
  {
    if calls != [] {
      var init, c := calls[..|calls| - 1], calls[|calls| - 1];
      assert forall i :: 0 <= i < |init| ==> init[i] == calls[i];
      HistoryIsClocked(init, window, c.Starts());
    }
  }

  /** Two acceptances of one key are at least a window apart. */
  lemma {:induction false} AcceptancesAreSpaced(calls: seq<Call>, window: int, i: nat, j: nat)
    requires Clocked(calls)
    requires i < j < |History(calls, window)|
    requires History(calls, window)[i].key == History(calls, window)[j].key
    ensures History(calls, window)[j].time - History(calls, window)[i].time >= window
    decreases |calls|
  {
    var init, c := calls[..|calls| - 1], calls[|calls| - 1];
    var h := History(init, window);
    assert forall k :: 0 <= k < |init| ==> init[k] == calls[k];
    if j < |h| {
      AcceptancesAreSpaced(init, window, i, j);
    } else {
      assert h[i] in h;
      assert !InWindow(h, c.key, c.seen, window);
    }
  }
}
