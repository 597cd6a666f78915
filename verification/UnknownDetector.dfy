/** The alert cooldown for unknown faces (backend/app/engine/unknown_detector.py). */
module UnknownDetector {
  import opened WindowMemory

  const MAX_COOLDOWN_KEYS: nat := 10000

  /** The entries the pruning of an overfull cache throws away. */
  function Outdated(cache: Memory, now: int, cooldown: int): set<string> {
    set k | k in cache && !(now - cache[k] < cooldown * 2)
  }

  class UnknownPersonDetector {
    var cooldownCache: Memory
    const cooldown: int

    constructor (cooldown: int)
      ensures cooldownCache == map[] && this.cooldown == cooldown
    {
      cooldownCache := map[];
      this.cooldown := cooldown;
    }

    method IsOnCooldown(key: string, now: int) returns (onCooldown: bool)
      ensures onCooldown <==> Recent(cooldownCache, key, now, cooldown)
    {
      if key !in cooldownCache { return false; }
      var last := cooldownCache[key];
      return now - last < cooldown;
    }

    /** `stamp` and `swept` are two readings of the clock. */
    method SetCooldown(key: string, stamp: int, swept: int)
      modifies this
      ensures var set_ := old(cooldownCache)[key := stamp];
              cooldownCache == if |set_| > 10000 then set_ - Outdated(set_, swept, cooldown) else set_
    {
      cooldownCache := cooldownCache[key := stamp];
      if |cooldownCache| > MAX_COOLDOWN_KEYS {
        cooldownCache := map k | k in cooldownCache && swept - cooldownCache[k] < cooldown * 2 :: cooldownCache[k];
      }
    }

    /** The decision part of process_unknown: report unless the key is cooling down. */
    method Admit(key: string, seen: int, stamp: int, swept: int) returns (admitted: bool)
      modifies this
      ensures admitted <==> !Recent(old(cooldownCache), key, seen, cooldown)
      ensures cooldownCache == Sighted(old(cooldownCache), Sighting(key, seen, stamp, swept), cooldown)
    {
      var cooling := IsOnCooldown(key, seen);
      if cooling { return false; }
      SetCooldown(key, stamp, swept);
      return true;
    }
  }

  // ── Runs ─────────────────────────────────────────────────────────────────

  /** One unknown face and the three clock readings its processing takes. */
  datatype Sighting = Sighting(key: string, seen: int, stamp: int, swept: int)

  function Sighted(cache: Memory, s: Sighting, cooldown: int): Memory {
    if Recent(cache, s.key, s.seen, cooldown) then cache
    else
      var set_ := cache[s.key := s.stamp];
      if |set_| > MAX_COOLDOWN_KEYS then set_ - Outdated(set_, s.swept, cooldown) else set_
  }

  function Cache(run: seq<Sighting>, cooldown: int): Memory {
    if run == [] then map[] else Sighted(Cache(run[..|run| - 1], cooldown), run[|run| - 1], cooldown)
  }

  /** Each sighting as an ask and a forget, which may drop nothing. */
  function AsMemoryCalls(run: seq<Sighting>, cooldown: int): seq<Call> {
    if run == [] then []
    else
      var init, s := run[..|run| - 1], run[|run| - 1];
      AsMemoryCalls(init, cooldown) + [AskOf(s)] + [ForgetOf(Cache(init, cooldown), s, cooldown)]
  }

  ghost predicate InOrder(run: seq<Sighting>) {
    && (forall i :: 0 <= i < |run| ==> run[i].seen <= run[i].stamp <= run[i].swept)
    && (forall i, j :: 0 <= i < j < |run| ==> run[i].swept <= run[j].seen)
  }

  /** The two memory calls of one sighting. */
  function AskOf(s: Sighting): Call { Ask(s.key, s.seen, s.stamp) }

  function ForgetOf(cache: Memory, s: Sighting, cooldown: int): Call {
    var set_ := Apply(cache, AskOf(s), cooldown);
    var pruned := !Recent(cache, s.key, s.seen, cooldown) && |set_| > MAX_COOLDOWN_KEYS;
    Forget(if pruned then Outdated(set_, s.swept, cooldown) else {}, s.swept)
  }

  lemma TwoCalls(cache: Memory, s: Sighting, cooldown: int)
    ensures Apply(Apply(cache, AskOf(s), cooldown), ForgetOf(cache, s, cooldown), cooldown) == Sighted(cache, s,
                                                                                                       cooldown)
  {}

  lemma {:induction false} CacheIsMemory(run: seq<Sighting>, cooldown: int)
    ensures After(AsMemoryCalls(run, cooldown), cooldown) == Cache(run, cooldown)
  {
    hide After, Apply, Sighted, ForgetOf;
    if run == [] {
      AfterNothing(cooldown);
    } else {
      var init, s := run[..|run| - 1], run[|run| - 1];
      var was, cache := AsMemoryCalls(init, cooldown), Cache(init, cooldown);
      CacheIsMemory(init, cooldown);
      AfterOneMore(was, AskOf(s), cooldown);
      AfterOneMore(was + [AskOf(s)], ForgetOf(cache, s, cooldown), cooldown);
      TwoCalls(cache, s, cooldown);
    }
  }

  lemma AfterNothing(cooldown: int)
    ensures After([], cooldown) == map[]
  {}

  /** Nothing outdated is still recent. */
  lemma OutdatedIsNotRecent(m: Memory, now: int, cooldown: int)
    requires forall k :: k in m ==> m[k] <= now
    ensures forall k :: k in Outdated(m, now, cooldown) ==> !Recent(m, k, now, cooldown)
  {}

  lemma {:induction false} CallsAreClocked(run: seq<Sighting>, cooldown: int, clock: int)
    requires InOrder(run) && forall i :: 0 <= i < |run| ==> run[i].swept <= clock
    ensures var m := AsMemoryCalls(run, cooldown);
            Clocked(m) && forall i :: 0 <= i < |m| ==> m[i].Ends() <= clock
    decreases |run|
  {
    hide Clocked;
    if run == [] {
      NoCallsClocked();
    } else {
      var init, s := run[..|run| - 1], run[|run| - 1];
      assert forall i :: 0 <= i < |init| ==> init[i] == run[i];
      CallsAreClocked(init, cooldown, s.seen);
      var was := AsMemoryCalls(init, cooldown);
      ClockedOneMore(was, AskOf(s));
      ClockedOneMore(was + [AskOf(s)], ForgetOf(Cache(init, cooldown), s, cooldown));
    }
  }

  lemma NoCallsClocked()
    ensures Clocked([])
  {}

  lemma {:induction false} CallsForgetOldOnly(run: seq<Sighting>, cooldown: int)
    requires InOrder(run)
    ensures ForgetsOldOnly(AsMemoryCalls(run, cooldown), cooldown)
    decreases |run|
  {
    if run != [] {
      hide ForgetsOldOnly, After;
      var init, s := run[..|run| - 1], run[|run| - 1];
      assert forall i :: 0 <= i < |init| ==> init[i] == run[i];
      var was := AsMemoryCalls(init, cooldown);
      CallsForgetOldOnly(init, cooldown);
      CacheIsMemory(init, cooldown);
      CacheIsNotAhead(init, cooldown, s.seen);
      OutdatedIsNotRecent(Apply(Cache(init, cooldown), AskOf(s), cooldown), s.swept, cooldown);
      AfterOneMore(was, AskOf(s), cooldown);
      ForgetsOneMore(was, AskOf(s), cooldown);
      ForgetsOneMore(was + [AskOf(s)], ForgetOf(Cache(init, cooldown), s, cooldown), cooldown);
    }
  }

  lemma {:induction false} CacheIsNotAhead(run: seq<Sighting>, cooldown: int, clock: int)
    requires InOrder(run) && forall i :: 0 <= i < |run| ==> run[i].swept <= clock
    ensures forall k :: k in Cache(run, cooldown) ==> Cache(run, cooldown)[k] <= clock
    decreases |run|
  {
    if run != [] {
      var init := run[..|run| - 1];
      assert forall i :: 0 <= i < |init| ==> init[i] == run[i];
      CacheIsNotAhead(init, cooldown, run[|run| - 1].seen);
    }
  }

  /** The sightings reported in a run, judged by the full history. */
  ghost function Reports(run: seq<Sighting>, cooldown: int): seq<Accepted> {
    if run == [] then []
    else
      var h := Reports(run[..|run| - 1], cooldown);
      var s := run[|run| - 1];
      if InWindow(h, s.key, s.seen, cooldown) then h else h + [Accepted(s.key, s.stamp)]
  }

  lemma {:induction false} ReportsAreHistory(run: seq<Sighting>, cooldown: int)
    ensures Reports(run, cooldown) == History(AsMemoryCalls(run, cooldown), cooldown)
  {
    if run != [] {
      var init, s := run[..|run| - 1], run[|run| - 1];
      hide History;
      ReportsAreHistory(init, cooldown);
      var was := AsMemoryCalls(init, cooldown);
      HistoryOneMore(was, AskOf(s), cooldown);
      HistoryOneMore(was + [AskOf(s)], ForgetOf(Cache(init, cooldown), s, cooldown), cooldown);
    }
  }

  /** Pruning the cache never changes an answer: a face is suppressed exactly when its key
      was reported less than a cooldown ago. */
  lemma SuppressedMeansReportedWithin(run: seq<Sighting>, cooldown: int, key: string, now: int)
    requires InOrder(run) && forall i :: 0 <= i < |run| ==> run[i].swept <= now
    ensures Recent(Cache(run, cooldown), key, now, cooldown) <==> InWindow(Reports(run, cooldown), key, now, cooldown)
  {
    CallsAreClocked(run, cooldown, now);
    CallsForgetOldOnly(run, cooldown);
    CacheIsMemory(run, cooldown);
    ReportsAreHistory(run, cooldown);
    ForgettingIsInvisible(AsMemoryCalls(run, cooldown), cooldown, key, now);
  }
}
