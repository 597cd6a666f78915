/**
 * The request limiters (backend/app/core/rate_limit.py): an in-process sliding window and a
 * fixed window kept in Redis. Times are whole ticks of the clock.
 */
module RateLimit {
  import Decimal
  import Sequences

  const MAX_TRACKED_KEYS: nat := 50000

  type Hits = map<string, seq<int>>

  /** What a named limiter allows; a key belongs to one limiter. */
  datatype Limit = Limit(maxRequests: int, window: int)

  function Key(name: string, ip: string): string {
    name + ":" + ip
  }

  /** Limiter names contain no colon; addresses may. */
  lemma KeyIsInjective(name: string, ip: string, other: string, otherIp: string)
    requires ':' !in name && ':' !in other
    ensures Key(name, ip) == Key(other, otherIp) <==> name == other && ip == otherIp
  {
    var k := Key(name, ip);
    if k == Key(other, otherIp) {
      assert k[|name|] == ':' && k[|other|] == ':';
      assert forall i :: 0 <= i < |name| ==> k[i] == name[i] && name[i] in name;
      assert forall i :: 0 <= i < |other| ==> k[i] == other[i] && other[i] in other;
      assert |name| == |other|;
      assert name == k[..|name|] && other == k[..|other|];
      assert ip == k[|name| + 1..] && otherIp == k[|other| + 1..];
    }
  }

  // ── The sliding window ───────────────────────────────────────────────────

  function Trimmed(bucket: seq<int>, cutoff: int): seq<int> {
    if bucket != [] && bucket[0] < cutoff then Trimmed(bucket[1..], cutoff) else bucket
  }

  function Bucket(hits: Hits, key: string): seq<int> {
    if key in hits then hits[key] else []
  }

  /** The first pass of a purge: keys with no hit since the cutoff. */
  function Stale(hits: Hits, cutoff: int): set<string> {
    set k | k in hits && (hits[k] == [] || hits[k][|hits[k]| - 1] < cutoff)
  }

  function Purged(hits: Hits, now: int, window: int): Hits {
    if |hits| <= MAX_TRACKED_KEYS then hits
    else
      var kept := hits - Stale(hits, now - window);
      if |kept| > MAX_TRACKED_KEYS then map[] else kept
  }

  predicate Allowed(hits: Hits, key: string, limit: Limit, now: int) {
    |Trimmed(Bucket(hits, key), now - limit.window)| < limit.maxRequests
  }

  /** The dict after the request, before any purge. */
  function Noted(hits: Hits, key: string, limit: Limit, now: int): Hits {
    var bucket := Trimmed(Bucket(hits, key), now - limit.window);
    hits[key := if |bucket| >= limit.maxRequests then bucket else bucket + [now]]
  }

  function Served(hits: Hits, key: string, limit: Limit, now: int): Hits {
    if Allowed(hits, key, limit, now) then Purged(Noted(hits, key, limit, now), now, limit.window)
    else Noted(hits, key, limit, now)
  }

  ghost predicate Sorted(s: seq<int>) {
    forall i, j :: 0 <= i < j < |s| ==> s[i] <= s[j]
  }

  /** The keys with a hit no older than the cutoff. */
  ghost function ActiveSince(hits: Hits, cutoff: int): set<string>
    requires forall k :: k in hits ==> Sorted(hits[k])
  {
    set k | k in hits && exists t :: t in hits[k] && t >= cutoff
  }

  /** A purge does nothing up to 50000 keys; beyond, it keeps the active keys, or none if those are too many. */
  lemma PurgeExactly(hits: Hits, now: int, window: int)
    requires forall k :: k in hits ==> Sorted(hits[k])
    ensures var kept, active := Purged(hits, now, window), ActiveSince(hits, now - window);
            && kept.Keys == (if |hits| <= 50000 then hits.Keys else if |active| <= 50000 then active else {})
            && forall k :: k in kept ==> kept[k] == hits[k]
  {
    var cutoff := now - window;
    var left := hits - Stale(hits, cutoff);
    forall k | k in hits ensures k in Stale(hits, cutoff) <==> k !in ActiveSince(hits, cutoff) {
      if k !in Stale(hits, cutoff) { assert hits[k][|hits[k]| - 1] in hits[k]; }
    }
    assert left.Keys == ActiveSince(hits, cutoff);
    assert |left| == |left.Keys|;
  }

  class InMemoryLimiter {
    var hits: Hits

    constructor ()
      ensures hits == map[]
    {
      hits := map[];
    }

    method PurgeIfNeeded(now: int, window: int)
      modifies this
      ensures hits == Purged(old(hits), now, window)
    {
      if |hits| <= MAX_TRACKED_KEYS { return; }
      var cutoff := now - window;
      var stale := set k | k in hits && (hits[k] == [] || hits[k][|hits[k]| - 1] < cutoff);
      assert stale == Stale(hits, cutoff);
      hits := hits - stale;
      if |hits| > MAX_TRACKED_KEYS { hits := map[]; }
    }

    method Allow(name: string, ip: string, limit: Limit, now: int) returns (allowed: bool)
      modifies this
      ensures allowed <==> Allowed(old(hits), Key(name, ip), limit, now)
      ensures hits == Served(old(hits), Key(name, ip), limit, now)
    {
      hide Purged, Key;
      var key := Key(name, ip);
      var bucket := if key in hits then hits[key] else [];
      var cutoff := now - limit.window;
      while bucket != [] && bucket[0] < cutoff
        invariant Trimmed(bucket, cutoff) == Trimmed(Bucket(hits, key), cutoff)
        decreases |bucket|
      {
        bucket := bucket[1..];
      }
      if |bucket| >= limit.maxRequests {
        hits := hits[key := bucket];
        return false;
      }
      bucket := bucket + [now];
      hits := hits[key := bucket];
      PurgeIfNeeded(now, limit.window);
      return true;
    }
  }

  // ── The reference: the full history of admitted requests ─────────────────

  datatype Hit = Hit(key: string, time: int)

  /** How many hits of a key fall in [from, to]. */
  function CountIn(history: seq<Hit>, key: string, from: int, to: int): nat {
    if history == [] then 0
    else
      var last := history[|history| - 1];
      CountIn(history[..|history| - 1], key, from, to) + if last.key == key && from <= last.time <= to then 1 else 0
  }

  predicate Admits(history: seq<Hit>, h: Hit, limit: Limit) {
    CountIn(history, h.key, h.time - limit.window, h.time) < limit.maxRequests
  }

  /** The admitted requests, judged by the full history. */
  function History(requests: seq<Hit>, limits: string -> Limit): seq<Hit> {
    if requests == [] then []
    else
      var h := History(requests[..|requests| - 1], limits);
      var r := requests[|requests| - 1];
      if Admits(h, r, limits(r.key)) then h + [r] else h
  }

  /** The limiter's dict after the requests. */
  function After(requests: seq<Hit>, limits: string -> Limit): Hits {
    if requests == [] then map[]
    else
      var r := requests[|requests| - 1];
      Served(After(requests[..|requests| - 1], limits), r.key, limits(r.key), r.time)
  }

  ghost predicate InOrder(requests: seq<Hit>) {
    forall i, j :: 0 <= i < j < |requests| ==> requests[i].time <= requests[j].time
  }

  ghost predicate AllBefore(times: seq<int>, cutoff: int) {
    forall i :: 0 <= i < |times| ==> times[i] < cutoff
  }

  /**
   * The keys that the purge of a request drops, seen from the dict before it: none unless the request is
   * admitted and the dict is over its size; then the stale ones, and all if too many keys are not stale.
   */
  ghost predicate PurgeDrops(hits: Hits, r: Hit, limits: string -> Limit, k: string) {
    var limit := limits(r.key);
    var noted := Noted(hits, r.key, limit, r.time);
    var stale := Stale(noted, r.time - limit.window);
    && Allowed(hits, r.key, limit, r.time)
    && |noted| > MAX_TRACKED_KEYS
    && k in noted
    && (k in stale || |noted - stale| > MAX_TRACKED_KEYS)
  }

  /** If the purge drops k, no hit of k is left in k's own window. */
  ghost predicate HarmlessTo(hits: Hits, r: Hit, limits: string -> Limit, k: string) {
    PurgeDrops(hits, r, limits, k)
    ==> AllBefore(Noted(hits, r.key, limits(r.key), r.time)[k], r.time - limits(k).window)
  }

  ghost predicate AlwaysHarmlessTo(requests: seq<Hit>, limits: string -> Limit, k: string) {
    forall i :: 0 <= i < |requests| ==> HarmlessTo(After(requests[..i], limits), requests[i], limits, k)
  }

  // ── A bucket is what is left of the key's history ────────────────────────

  /** The times of a key's hits, in order. */
  ghost function TimesOf(history: seq<Hit>, key: string): seq<int> {
    if history == [] then []
    else
      var last := history[|history| - 1];
      TimesOf(history[..|history| - 1], key) + if last.key == key then [last.time] else []
  }

  /** Everything in the history from the cutoff on is in the bucket, and the bucket is its tail. */
  ghost predicate IsTail(bucket: seq<int>, times: seq<int>, cutoff: int) {
    && |bucket| <= |times| && bucket == times[|times| - |bucket|..]
    && forall i :: 0 <= i < |times| - |bucket| ==> times[i] < cutoff
  }

  lemma {:induction false} TrimmedIsTail(bucket: seq<int>, times: seq<int>, cutoff: int)
    requires Sorted(times) && IsTail(bucket, times, cutoff)
    ensures IsTail(Trimmed(bucket, cutoff), times, cutoff)
    ensures forall t :: t in Trimmed(bucket, cutoff) ==> t >= cutoff
    decreases |bucket|
  {
    if bucket != [] && bucket[0] < cutoff {
      var n := |times| - |bucket|;
      assert bucket[1..] == times[n + 1..];
      TrimmedIsTail(bucket[1..], times, cutoff);
    } else {
      assert forall i :: 0 <= i < |bucket| ==> bucket[i] == times[|times| - |bucket| + i];
    }
  }

  ghost function CountTimes(times: seq<int>, from: int, to: int): nat {
    if times == [] then 0
    else CountTimes(times[..|times| - 1], from, to) + if from <= times[|times| - 1] <= to then 1 else 0
  }

  lemma {:induction false} CountByTimes(history: seq<Hit>, key: string, from: int, to: int)
    ensures CountIn(history, key, from, to) == CountTimes(TimesOf(history, key), from, to)
  {
    if history != [] {
      CountByTimes(history[..|history| - 1], key, from, to);
      var times := TimesOf(history[..|history| - 1], key);
      assert (times + [history[|history| - 1].time])[..|times|] == times;
      assert times + [] == times;
    }
  }

  lemma {:induction false} CountPrefixAndTail(prefix: seq<int>, tail: seq<int>, from: int, to: int)
    requires forall i :: 0 <= i < |prefix| ==> prefix[i] < from
    requires forall i :: 0 <= i < |tail| ==> from <= tail[i] <= to
    ensures CountTimes(prefix + tail, from, to) == |tail|
    decreases |prefix| + |tail|
  {
    hide CountTimes;
    CountTimesOneMore([], 0, from, to);
    if tail != [] {
      var init, last := tail[..|tail| - 1], tail[|tail| - 1];
      CountPrefixAndTail(prefix, init, from, to);
      CountTimesOneMore(prefix + init, last, from, to);
      assert prefix + tail == prefix + init + [last];
    } else if prefix != [] {
      var init, last := prefix[..|prefix| - 1], prefix[|prefix| - 1];
      CountPrefixAndTail(init, [], from, to);
      CountTimesOneMore(init, last, from, to);
      assert prefix + tail == init + [last] && init + [] == init;
    } else {
      assert prefix + tail == [];
    }
  }

  lemma CountTimesOneMore(times: seq<int>, t: int, from: int, to: int)
    ensures CountTimes(times + [t], from, to) == CountTimes(times, from, to) + if from <= t <= to then 1 else 0
    ensures CountTimes([], from, to) == 0
  {
    assert (times + [t])[..|times|] == times;
  }

  lemma CountIsLength(history: seq<Hit>, key: string, tail: seq<int>, from: int, to: int)
    requires AllBefore(TimesOf(history, key), to + 1)
    requires IsTail(tail, TimesOf(history, key), from) && forall t :: t in tail ==> t >= from
    ensures CountIn(history, key, from, to) == |tail|
  {
    hide CountIn, TimesOf, CountTimes;
    var times := TimesOf(history, key);
    var n := |times| - |tail|;
    assert times == times[..n] + tail;
    forall i | 0 <= i < |tail| ensures from <= tail[i] <= to { assert tail[i] in tail && tail[i] == times[n + i]; }
    CountByTimes(history, key, from, to);
    CountPrefixAndTail(times[..n], tail, from, to);
  }

  // ── The limiter is the reference ─────────────────────────────────────────

  /** k's bucket is a tail of its history that misses nothing live; if k is not tracked nothing is live. */
  ghost predicate Faithful(hits: Hits, history: seq<Hit>, limits: string -> Limit, k: string, clock: int) {
    IsTail(Bucket(hits, k), TimesOf(history, k), clock - limits(k).window)
  }

  ghost predicate UpToNow(times: seq<int>, clock: int) {
    Sorted(times) && AllBefore(times, clock + 1)
  }

  lemma UpToNowAppend(times: seq<int>, was: int, clock: int)
    requires UpToNow(times, was) && was <= clock
    ensures UpToNow(times, clock) && UpToNow(times + [was], clock)
  {}

  lemma {:induction false} TimesFacts(requests: seq<Hit>, limits: string -> Limit, key: string, clock: int)
    requires InOrder(requests) && forall i :: 0 <= i < |requests| ==> requests[i].time <= clock
    ensures UpToNow(TimesOf(History(requests, limits), key), clock)
    decreases |requests|
  {
    hide TimesOf, UpToNow, Admits;
    if requests == [] {
      NoTimes(key, clock);
    } else {
      var init, r := requests[..|requests| - 1], requests[|requests| - 1];
      assert forall i :: 0 <= i < |init| ==> init[i] == requests[i];
      var times := TimesOf(History(init, limits), key);
      TimesFacts(init, limits, key, r.time);
      TimesOneMore(History(init, limits), r, key);
      UpToNowAppend(times, r.time, clock);
      assert times + [] == times;
    }
  }

  lemma NoTimes(key: string, clock: int)
    ensures TimesOf([], key) == [] && UpToNow([], clock)
  {}

  lemma TimesOneMore(history: seq<Hit>, h: Hit, key: string)
    ensures TimesOf(history + [h], key) == TimesOf(history, key) + if h.key == key then [h.time] else []
  {
    assert (history + [h])[..|history|] == history;
  }

  lemma TailLater(bucket: seq<int>, times: seq<int>, cutoff: int, later: int)
    requires IsTail(bucket, times, cutoff) && cutoff <= later
    ensures IsTail(bucket, times, later)
  {}

  lemma TailGrows(bucket: seq<int>, times: seq<int>, cutoff: int, t: int)
    requires IsTail(bucket, times, cutoff)
    ensures IsTail(bucket + [t], times + [t], cutoff)
  {
    assert bucket + [t] == (times + [t])[|times| - |bucket|..];
  }

  lemma TailDropped(bucket: seq<int>, times: seq<int>, cutoff: int)
    requires IsTail(bucket, times, cutoff) && forall i :: 0 <= i < |bucket| ==> bucket[i] < cutoff
    ensures IsTail([], times, cutoff)
  {
    var n := |times| - |bucket|;
    forall i | 0 <= i < |times| ensures times[i] < cutoff {
      if i >= n { assert bucket[i - n] == times[i]; }
    }
  }

  /** Faithful at r's time, the dict decides r as the history does. */
  lemma DecidesAlike(hits: Hits, requests: seq<Hit>, limits: string -> Limit, r: Hit)
    requires InOrder(requests) && forall i :: 0 <= i < |requests| ==> requests[i].time <= r.time
    requires Faithful(hits, History(requests, limits), limits, r.key, r.time)
    ensures Allowed(hits, r.key, limits(r.key), r.time) <==> Admits(History(requests, limits), r, limits(r.key))
  {
    hide IsTail, History, Trimmed, TimesOf, CountIn, Sorted;
    var h, w := History(requests, limits), limits(r.key).window;
    TimesFacts(requests, limits, r.key, r.time);
    TrimmedIsTail(Bucket(hits, r.key), TimesOf(h, r.key), r.time - w);
    CountIsLength(h, r.key, Trimmed(Bucket(hits, r.key), r.time - w), r.time - w, r.time);
  }

  /** One key through one request, before any purge. */
  lemma NotedStaysTail(hits: Hits, requests: seq<Hit>, limits: string -> Limit, r: Hit, k: string)
    requires InOrder(requests) && forall i :: 0 <= i < |requests| ==> requests[i].time <= r.time
    requires Faithful(hits, History(requests, limits), limits, k, r.time)
    ensures var h := History(requests, limits);
            IsTail(Bucket(Noted(hits, r.key, limits(r.key), r.time), k),
                   TimesOf(if Admits(h, r, limits(r.key)) then h + [r] else h, k), r.time - limits(k).window)
  {
    hide IsTail, History, Trimmed, TimesOf, CountIn, Sorted;
    var h, cutoff := History(requests, limits), r.time - limits(k).window;
    TimesFacts(requests, limits, k, r.time);
    TimesOneMore(h, r, k);
    if k == r.key {
      DecidesAlike(hits, requests, limits, r);
      TrimmedIsTail(Bucket(hits, k), TimesOf(h, k), cutoff);
      TailGrows(Trimmed(Bucket(hits, k), cutoff), TimesOf(h, k), cutoff, r.time);
    }
    assert TimesOf(h, k) + [] == TimesOf(h, k);
  }

  lemma ServedStaysFaithful(hits: Hits, requests: seq<Hit>, limits: string -> Limit, r: Hit, k: string)
    requires InOrder(requests) && forall i :: 0 <= i < |requests| ==> requests[i].time <= r.time
    requires Faithful(hits, History(requests, limits), limits, k, r.time)
    requires HarmlessTo(hits, r, limits, k)
    ensures var h := History(requests, limits);
            Faithful(Served(hits, r.key, limits(r.key), r.time), if Admits(h, r, limits(r.key)) then h + [r] else h,
                     limits, k, r.time)
  {
    hide IsTail, History, Noted, TimesOf, Admits, Allowed, Served, HarmlessTo, Bucket;
    var h := History(requests, limits);
    var h' := if Admits(h, r, limits(r.key)) then h + [r] else h;
    var noted := Noted(hits, r.key, limits(r.key), r.time);
    var served := Served(hits, r.key, limits(r.key), r.time);
    NotedStaysTail(hits, requests, limits, r, k);
    ServedKeepsOrDrops(hits, r, limits, k);
    if Bucket(served, k) != Bucket(noted, k) {
      TailDropped(Bucket(noted, k), TimesOf(h', k), r.time - limits(k).window);
    }
  }

  /** The purge drops exactly the keys PurgeDrops names, and touches no other bucket. */
  lemma PurgeDropsExactly(hits: Hits, r: Hit, limits: string -> Limit, k: string)
    ensures var noted := Noted(hits, r.key, limits(r.key), r.time);
            var served := Served(hits, r.key, limits(r.key), r.time);
            && (k in noted && k !in served <==> PurgeDrops(hits, r, limits, k))
            && (k in served ==> k in noted && served[k] == noted[k])
  {
    hide Noted, Allowed, Stale;
  }

  lemma ServedKeepsOrDrops(hits: Hits, r: Hit, limits: string -> Limit, k: string)
    requires HarmlessTo(hits, r, limits, k)
    ensures var was := Bucket(Noted(hits, r.key, limits(r.key), r.time), k);
            var now := Bucket(Served(hits, r.key, limits(r.key), r.time), k);
            now == was || (now == [] && AllBefore(was, r.time - limits(k).window))
  {
    hide Noted, Served, PurgeDrops, AllBefore;
    PurgeDropsExactly(hits, r, limits, k);
  }

  lemma PrefixInOrder(requests: seq<Hit>)
    requires requests != [] && InOrder(requests)
    ensures var init, r := requests[..|requests| - 1], requests[|requests| - 1];
            InOrder(init) && forall i :: 0 <= i < |init| ==> init[i].time <= r.time
  {}

  lemma PrefixHarmless(requests: seq<Hit>, limits: string -> Limit, k: string)
    requires requests != [] && AlwaysHarmlessTo(requests, limits, k)
    ensures var init, r := requests[..|requests| - 1], requests[|requests| - 1];
            AlwaysHarmlessTo(init, limits, k) && HarmlessTo(After(init, limits), r, limits, k)
  {
    hide HarmlessTo, After;
    var init := requests[..|requests| - 1];
    forall i | 0 <= i < |init| ensures init[i] == requests[i] && init[..i] == requests[..i] {}
    assert requests[..|requests| - 1] == init;
  }

  lemma {:induction false} LimiterIsFaithful(requests: seq<Hit>, limits: string -> Limit, k: string, clock: int)
    requires InOrder(requests) && forall i :: 0 <= i < |requests| ==> requests[i].time <= clock
    requires AlwaysHarmlessTo(requests, limits, k)
    ensures Faithful(After(requests, limits), History(requests, limits), limits, k, clock)
    decreases |requests|
  {
    if requests != [] {
      hide Served, Faithful, HarmlessTo, Admits, AlwaysHarmlessTo, InOrder;
      var init, r := requests[..|requests| - 1], requests[|requests| - 1];
      PrefixInOrder(requests);
      PrefixHarmless(requests, limits, k);
      LimiterIsFaithful(init, limits, k, r.time);
      ServedStaysFaithful(After(init, limits), init, limits, r, k);
    }
    FaithfulLater(requests, limits, k, clock);
  }

  lemma FaithfulLater(requests: seq<Hit>, limits: string -> Limit, k: string, clock: int)
    requires requests != [] ==>
      requests[|requests| - 1].time <= clock
      && Faithful(After(requests, limits), History(requests, limits), limits, k, requests[|requests| - 1].time)
    ensures Faithful(After(requests, limits), History(requests, limits), limits, k, clock)
  {
    hide IsTail, Bucket, TimesOf, Served, Admits;
    if requests == [] {
      NothingTracked(k, clock - limits(k).window);
    } else {
      var t := requests[|requests| - 1].time;
      TailLater(Bucket(After(requests, limits), k), TimesOf(History(requests, limits), k),
                t - limits(k).window, clock - limits(k).window);
    }
  }

  lemma NothingTracked(k: string, cutoff: int)
    ensures IsTail(Bucket(map[], k), TimesOf([], k), cutoff)
  {}

  /**
   * While purges are harmless to r's key, whatever they do to others, the limiter answers r exactly as the full
   * history does: allow while fewer than max_requests admitted hits of the key are at most a window old.
   */
  lemma SlidingWindowIsExact(requests: seq<Hit>, limits: string -> Limit, r: Hit)
    requires InOrder(requests) && forall i :: 0 <= i < |requests| ==> requests[i].time <= r.time
    requires AlwaysHarmlessTo(requests, limits, r.key)
    ensures Allowed(After(requests, limits), r.key, limits(r.key), r.time)
       <==> Admits(History(requests, limits), r, limits(r.key))
  {
    LimiterIsFaithful(requests, limits, r.key, r.time);
    DecidesAlike(After(requests, limits), requests, limits, r);
  }

  // ── Which purges are harmless ────────────────────────────────────────────

  /** The first pass drops nothing that a limiter with no longer a window than the caller's
      would still count. */
  lemma StaleIsOutOfWindow(hits: Hits, now: int, callerWindow: int, k: string, ownWindow: int)
    requires k in Stale(hits, now - callerWindow) && Sorted(hits[k]) && ownWindow <= callerWindow
    ensures AllBefore(hits[k], now - ownWindow)
  {}

  /** Few enough keys survive the first pass of r's purge, so there is no second one. */
  ghost predicate FirstPassOnly(hits: Hits, r: Hit, limits: string -> Limit) {
    var noted := Noted(hits, r.key, limits(r.key), r.time);
    |noted - Stale(noted, r.time - limits(r.key).window)| <= MAX_TRACKED_KEYS
  }

  /** So a purge that stops after its first pass is harmless to every key with no longer a window than the caller's. */
  lemma FirstPassIsHarmless(hits: Hits, r: Hit, limits: string -> Limit, k: string)
    requires UpToNow(Bucket(hits, k), r.time)
    requires limits(k).window <= limits(r.key).window
    requires FirstPassOnly(hits, r, limits)
    ensures HarmlessTo(hits, r, limits, k)
  {
    hide Stale, Noted, Sorted, AllBefore, Allowed;
    var limit := limits(r.key);
    var noted := Noted(hits, r.key, limit, r.time);
    if PurgeDrops(hits, r, limits, k) {
      NotedIsSorted(hits, r.key, limit, r.time, k);
      StaleIsOutOfWindow(noted, r.time, limit.window, k, limits(k).window);
    }
  }

  /** Buckets hold ascending times, none ahead of the clock, whatever purges did. */
  lemma {:induction false} BucketsAreUpToNow(requests: seq<Hit>, limits: string -> Limit, k: string, clock: int)
    requires InOrder(requests) && forall i :: 0 <= i < |requests| ==> requests[i].time <= clock
    ensures UpToNow(Bucket(After(requests, limits), k), clock)
    decreases |requests|
  {
    hide UpToNow, Served, InOrder, Bucket;
    if requests == [] {
      NoBucket(k, clock);
    } else {
      var init, r := requests[..|requests| - 1], requests[|requests| - 1];
      PrefixInOrder(requests);
      BucketsAreUpToNow(init, limits, k, r.time);
      ServedIsUpToNow(After(init, limits), r, limits, k, clock);
    }
  }

  lemma NoBucket(k: string, clock: int)
    ensures UpToNow(Bucket(map[], k), clock)
  {}

  lemma ServedIsUpToNow(hits: Hits, r: Hit, limits: string -> Limit, k: string, clock: int)
    requires UpToNow(Bucket(hits, k), r.time) && r.time <= clock
    ensures UpToNow(Bucket(Served(hits, r.key, limits(r.key), r.time), k), clock)
  {
    hide Noted, Served, PurgeDrops, Trimmed;
    PurgeDropsExactly(hits, r, limits, k);
    NotedIsSorted(hits, r.key, limits(r.key), r.time, k);
  }

  /**
   * Over a run in which no purge gets to its second pass, a key keeps its guarantee as long as only limiters
   * with at least its own window ever purge.
   */
  lemma FirstPassesAreHarmless(requests: seq<Hit>, limits: string -> Limit, k: string)
    requires InOrder(requests)
    requires forall i :: 0 <= i < |requests| ==> FirstPassOnly(After(requests[..i], limits), requests[i], limits)
    requires forall r :: r in requests ==> limits(k).window <= limits(r.key).window
    ensures AlwaysHarmlessTo(requests, limits, k)
  {
    hide After, Bucket, HarmlessTo, Sorted, AllBefore, InOrder, FirstPassOnly;
    forall i | 0 <= i < |requests| ensures HarmlessTo(After(requests[..i], limits), requests[i], limits, k) {
      assert requests[i] in requests;
      EarlierInOrder(requests, i);
      BucketsAreUpToNow(requests[..i], limits, k, requests[i].time);
      FirstPassIsHarmless(After(requests[..i], limits), requests[i], limits, k);
    }
  }

  lemma EarlierInOrder(requests: seq<Hit>, i: nat)
    requires InOrder(requests) && i < |requests|
    ensures InOrder(requests[..i]) && forall j :: 0 <= j < i ==> requests[..i][j].time <= requests[i].time
  {}

  /** A run that never tracks more than 50000 keys purges nothing. */
  lemma FewKeysAreSafe(requests: seq<Hit>, limits: string -> Limit, k: string)
    requires |KeysOf(requests)| <= MAX_TRACKED_KEYS
    ensures AlwaysHarmlessTo(requests, limits, k)
  {
    hide After, Noted, Stale, Allowed, AllBefore;
    forall i | 0 <= i < |requests| ensures HarmlessTo(After(requests[..i], limits), requests[i], limits, k) {
      var hits, r := After(requests[..i], limits), requests[i];
      TrackedWereAsked(requests[..i], limits);
      NotedKeys(hits, r.key, limits(r.key), r.time);
      assert r in requests && KeysOf(requests[..i]) <= KeysOf(requests);
      assert Noted(hits, r.key, limits(r.key), r.time).Keys <= KeysOf(requests);
      SmallerSet(Noted(hits, r.key, limits(r.key), r.time).Keys, KeysOf(requests));
    }
  }

  function KeysOf(requests: seq<Hit>): set<string> {
    set r | r in requests :: r.key
  }

  lemma NotedKeys(hits: Hits, key: string, limit: Limit, now: int)
    ensures Noted(hits, key, limit, now).Keys == hits.Keys + {key}
    ensures Served(hits, key, limit, now).Keys <= hits.Keys + {key}
  {
    hide Stale, Trimmed, Bucket, Allowed;
  }

  lemma {:induction false} TrackedWereAsked(requests: seq<Hit>, limits: string -> Limit)
    ensures After(requests, limits).Keys <= KeysOf(requests)
  {
    hide Served;
    if requests != [] {
      var init, r := requests[..|requests| - 1], requests[|requests| - 1];
      TrackedWereAsked(init, limits);
      NotedKeys(After(init, limits), r.key, limits(r.key), r.time);
      assert r in requests && KeysOf(init) <= KeysOf(requests);
    }
  }

  lemma {:induction false} SmallerSet<T>(a: set<T>, b: set<T>)
    requires a <= b
    ensures |a| <= |b|
  {
    if a != {} {
      var x := Sequences.Pick(a);
      SmallerSet(a - {x}, b - {x});
    }
  }

  lemma {:induction false} TrimmedToNothing(bucket: seq<int>, cutoff: int)
    ensures Trimmed(bucket, cutoff) == [] <==> AllBefore(bucket, cutoff)
    decreases |bucket|
  {
    if bucket != [] && bucket[0] < cutoff {
      TrimmedToNothing(bucket[1..], cutoff);
      assert bucket == [bucket[0]] + bucket[1..];
    }
  }

  /** A request's purge, whichever branch it takes, changes no later answer about k. */
  ghost predicate PurgeIsInvisibleTo(hits: Hits, r: Hit, limits: string -> Limit, k: string) {
    forall max, now | now >= r.time :: SameAnswer(hits, r, limits, k, max, now)
  }

  ghost predicate SameAnswer(hits: Hits, r: Hit, limits: string -> Limit, k: string, max: int, now: int) {
    var limit := Limit(max, limits(k).window);
    Allowed(Served(hits, r.key, limits(r.key), r.time), k, limit, now)
    <==> Allowed(Noted(hits, r.key, limits(r.key), r.time), k, limit, now)
  }

  lemma AllBeforeLater(times: seq<int>, cutoff: int, later: int)
    requires AllBefore(times, cutoff) && cutoff <= later
    ensures AllBefore(times, later)
  {}

  /** The purge goes unnoticed by a key exactly when it does not drop it with a hit still in its window. */
  lemma PurgeIsInvisibleWhenHarmless(hits: Hits, r: Hit, limits: string -> Limit, k: string)
    ensures PurgeIsInvisibleTo(hits, r, limits, k) <==> HarmlessTo(hits, r, limits, k)
  {
    hide Noted, Served, Trimmed, AllBefore, PurgeDrops;
    var noted, w := Noted(hits, r.key, limits(r.key), r.time), limits(k).window;
    PurgeDropsExactly(hits, r, limits, k);
    if HarmlessTo(hits, r, limits, k) {
      forall max: int, now | now >= r.time ensures SameAnswer(hits, r, limits, k, max, now) {
        if PurgeDrops(hits, r, limits, k) {
          AllBeforeLater(noted[k], r.time - w, now - w);
          TrimmedToNothing(noted[k], now - w);
          TrimmedToNothing([], now - w);
          NothingBefore(now - w);
        }
      }
    }
    if PurgeIsInvisibleTo(hits, r, limits, k) && PurgeDrops(hits, r, limits, k) {
      assert SameAnswer(hits, r, limits, k, 1, r.time);
      NothingBefore(r.time - w);
      TrimmedToNothing([], r.time - w);
      TrimmedToNothing(noted[k], r.time - w);
    }
  }

  lemma NothingBefore(cutoff: int)
    ensures AllBefore([], cutoff)
  {}

  lemma NotedIsSorted(hits: Hits, key: string, limit: Limit, now: int, k: string)
    requires UpToNow(Bucket(hits, k), now)
    ensures UpToNow(Bucket(Noted(hits, key, limit, now), k), now)
  {
    hide Trimmed, UpToNow;
    if k == key {
      TrimmedIsUpToNow(Bucket(hits, key), now - limit.window, now);
    } else {
      assert Bucket(Noted(hits, key, limit, now), k) == Bucket(hits, k);
    }
  }

  lemma TrimmedIsUpToNow(bucket: seq<int>, cutoff: int, now: int)
    requires UpToNow(bucket, now)
    ensures UpToNow(Trimmed(bucket, cutoff), now) && UpToNow(Trimmed(bucket, cutoff) + [now], now)
  {
    hide Trimmed, UpToNow;
    TrimmedIsSuffix(bucket, cutoff);
    SuffixUpToNow(bucket, Trimmed(bucket, cutoff), now);
  }

  lemma SuffixUpToNow(bucket: seq<int>, suffix: seq<int>, now: int)
    requires UpToNow(bucket, now)
    requires |suffix| <= |bucket| && suffix == bucket[|bucket| - |suffix|..]
    ensures UpToNow(suffix, now) && UpToNow(suffix + [now], now)
  {
    var n := |bucket| - |suffix|;
    assert forall i :: 0 <= i < |suffix| ==> suffix[i] == bucket[n + i];
  }

  lemma {:induction false} TrimmedIsSuffix(bucket: seq<int>, cutoff: int)
    ensures |Trimmed(bucket, cutoff)| <= |bucket|
    ensures Trimmed(bucket, cutoff) == bucket[|bucket| - |Trimmed(bucket, cutoff)|..]
    decreases |bucket|
  {
    if bucket != [] && bucket[0] < cutoff { TrimmedIsSuffix(bucket[1..], cutoff); }
  }

  /** The requests the limiter let through. */
  function Admitted(requests: seq<Hit>, limits: string -> Limit): seq<Hit> {
    if requests == [] then []
    else
      var init, r := requests[..|requests| - 1], requests[|requests| - 1];
      Admitted(init, limits) + if Allowed(After(init, limits), r.key, limits(r.key), r.time) then [r] else []
  }

  /** What the limiter lets through of a key is what the full history admits, while purges are harmless to that key. */
  lemma {:induction false} AdmittedIsHistory(requests: seq<Hit>, limits: string -> Limit, k: string)
    requires InOrder(requests) && AlwaysHarmlessTo(requests, limits, k)
    ensures TimesOf(Admitted(requests, limits), k) == TimesOf(History(requests, limits), k)
    decreases |requests|
  {
    if requests != [] {
      hide Allowed, Admits, After, AlwaysHarmlessTo, InOrder, TimesOf;
      var init, r := requests[..|requests| - 1], requests[|requests| - 1];
      PrefixInOrder(requests);
      PrefixHarmless(requests, limits, k);
      AdmittedIsHistory(init, limits, k);
      if r.key == k { SlidingWindowIsExact(init, limits, r); }
      TimesOneMore(Admitted(init, limits), r, k);
      TimesOneMore(History(init, limits), r, k);
      assert Admitted(init, limits) + [] == Admitted(init, limits);
    }
  }

  /**
   * While purges are harmless to a key, no closed interval as long as its window holds more than its
   * max_requests admitted requests.
   */
  lemma SlidingWindowLimits(requests: seq<Hit>, limits: string -> Limit, key: string, from: int)
    requires InOrder(requests) && AlwaysHarmlessTo(requests, limits, key)
    ensures CountIn(Admitted(requests, limits), key, from, from + limits(key).window)
         <= if limits(key).maxRequests < 0 then 0 else limits(key).maxRequests
  {
    hide TimesOf, CountTimes, CountIn, History, Admitted, AlwaysHarmlessTo, InOrder;
    var to := from + limits(key).window;
    AdmittedIsHistory(requests, limits, key);
    CountByTimes(Admitted(requests, limits), key, from, to);
    CountByTimes(History(requests, limits), key, from, to);
    WindowHoldsAtMostMax(requests, limits, key, from);
  }

  lemma {:induction false} WindowHoldsAtMostMax(requests: seq<Hit>, limits: string -> Limit, key: string, from: int)
    requires InOrder(requests)
    ensures CountIn(History(requests, limits), key, from, from + limits(key).window)
         <= if limits(key).maxRequests < 0 then 0 else limits(key).maxRequests
    decreases |requests|
  {
    if requests != [] {
      var init, r := requests[..|requests| - 1], requests[|requests| - 1];
      var h, limit := History(init, limits), limits(key);
      var to := from + limit.window;
      WindowHoldsAtMostMax(init, limits, key, from);
      CountOneMore(h, r, key, from, to);
      if r.key == key && from <= r.time <= to && Admits(h, r, limit) {
        HistoryNotAhead(init, limits, r.time);
        CountWider(h, key, from, to, r.time - limit.window, r.time);
      }
    }
  }

  lemma {:induction false} HistoryNotAhead(requests: seq<Hit>, limits: string -> Limit, clock: int)
    requires forall i :: 0 <= i < |requests| ==> requests[i].time <= clock
    ensures forall i :: 0 <= i < |History(requests, limits)| ==> History(requests, limits)[i].time <= clock
  {
    if requests != [] { HistoryNotAhead(requests[..|requests| - 1], limits, clock); }
  }

  /** Hits up to `clock` in [from, to] are among those in [earlier, clock]. */
  lemma {:induction false} CountWider(history: seq<Hit>, key: string, from: int, to: int, earlier: int, clock: int)
    requires earlier <= from && forall i :: 0 <= i < |history| ==> history[i].time <= clock
    ensures CountIn(history, key, from, to) <= CountIn(history, key, earlier, clock)
  {
    if history != [] { CountWider(history[..|history| - 1], key, from, to, earlier, clock); }
  }

  lemma CountOneMore(history: seq<Hit>, h: Hit, key: string, from: int, to: int)
    ensures CountIn(history + [h], key, from, to)
         == CountIn(history, key, from, to) + if h.key == key && from <= h.time <= to then 1 else 0
  {
    assert (history + [h])[..|history|] == history;
  }

  // ── A purge that does harm ───────────────────────────────────────────────

  function Once(key: string): Limit {
    Limit(1, 60)
  }

  /** Addresses of one /16 network, as many as a purge takes. */
  function Address(n: nat): string {
    "10.0." + Decimal.Str(n / 256) + "." + Decimal.Str(n % 256)
  }

  /** The bucket that a login from the n-th address is counted in. */
  function Client(n: nat): string {
    Key("login", Address(n))
  }

  /** The dot before a run of digits is the last one. */
  lemma LastDot(head: string, n: nat)
    ensures var s := head + "." + Decimal.Str(n);
            s[|head|] == '.' && forall i :: |head| < i < |s| ==> s[i] != '.'
  {
    hide Decimal.Str;
    var s, digits := head + "." + Decimal.Str(n), Decimal.Str(n);
    Decimal.StrHasDigitsOnly(n);
    forall i | |head| < i < |s| ensures s[i] != '.' {
      assert s[i] == digits[i - |head| - 1] && digits[i - |head| - 1] in digits;
    }
  }

  lemma ClientsDiffer(m: nat, n: nat)
    requires Client(m) == Client(n)
    ensures m == n
  {
    hide Decimal.Str, Key;
    KeyIsInjective("login", Address(m), "login", Address(n));
    var p, q := "10.0." + Decimal.Str(m / 256), "10.0." + Decimal.Str(n / 256);
    LastDot(p, m % 256);
    LastDot(q, n % 256);
    var s := Address(m);
    assert s == p + "." + Decimal.Str(m % 256) == q + "." + Decimal.Str(n % 256);
    assert |p| == |q|;
    assert p == s[..|p|] && q == s[..|q|];
    assert Decimal.Str(m % 256) == s[|p| + 1..] && Decimal.Str(n % 256) == s[|q| + 1..];
    assert Decimal.Str(m / 256) == p[5..] && Decimal.Str(n / 256) == q[5..];
    Decimal.StrInjective(m / 256, n / 256);
    Decimal.StrInjective(m % 256, n % 256);
  }

  /** Requests of n different clients at one moment. */
  function Flood(n: nat): seq<Hit> {
    if n == 0 then [] else Flood(n - 1) + [Hit(Client(n - 1), 0)]
  }

  /** The dict that holds one live hit for each of them. */
  function Crowd(n: nat): Hits {
    if n == 0 then map[] else Crowd(n - 1)[Client(n - 1) := [0]]
  }

  lemma {:induction false} CrowdFacts(n: nat)
    ensures |Crowd(n)| == n
    ensures forall k :: k in Crowd(n) ==> Crowd(n)[k] == [0]
    ensures forall i: nat :: i >= n ==> Client(i) !in Crowd(n)
  {
    hide Client;
    if n > 0 {
      CrowdFacts(n - 1);
      forall i: nat | i >= n ensures Client(i) != Client(n - 1) {
        if Client(i) == Client(n - 1) { ClientsDiffer(i, n - 1); }
      }
    }
  }

  /** One more client is admitted and noted; while there is room nobody is forgotten, and past it everybody is. */
  lemma CrowdGrows(n: nat)
    ensures Allowed(Crowd(n), Client(n), Once(Client(n)), 0)
    ensures Noted(Crowd(n), Client(n), Once(Client(n)), 0) == Crowd(n + 1)
    ensures Served(Crowd(n), Client(n), Once(Client(n)), 0)
         == if n + 1 <= MAX_TRACKED_KEYS then Crowd(n + 1) else map[]
  {
    hide Client, Crowd, Stale;
    CrowdOneMore(n);
    CrowdFacts(n);
    CrowdFacts(n + 1);
    assert Bucket(Crowd(n), Client(n)) == [];
    assert [] + [0] == [0];
    CrowdIsLive(n + 1);
    assert Crowd(n + 1) - {} == Crowd(n + 1);
  }

  lemma CrowdIsLive(n: nat)
    ensures Stale(Crowd(n), -60) == {}
  {
    hide Crowd;
    CrowdFacts(n);
  }

  lemma CrowdOneMore(n: nat)
    ensures Crowd(n + 1) == Crowd(n)[Client(n) := [0]]
  {}

  lemma FloodOneMore(n: nat)
    ensures Flood(n + 1) == Flood(n) + [Hit(Client(n), 0)]
    ensures Flood(n + 1)[..|Flood(n + 1)| - 1] == Flood(n) && Flood(0) == [] && Crowd(0) == map[]
  {}

  lemma {:induction false} FloodIsCrowd(n: nat)
    requires n <= MAX_TRACKED_KEYS
    ensures After(Flood(n), Once) == Crowd(n) && Admitted(Flood(n), Once) == Flood(n)
  {
    hide Crowd, Flood, Allowed, Served;
    if n == 0 {
      FloodOneMore(0);
    } else {
      FloodOneMore(n - 1);
      FloodIsCrowd(n - 1);
      CrowdGrows(n - 1);
    }
  }

  lemma {:induction false} FloodCounts(n: nat)
    ensures CountIn(Flood(n), Client(0), 0, 60) == if n == 0 then 0 else 1
    ensures forall i :: 0 <= i < |Flood(n)| ==> Flood(n)[i].time == 0
  {
    hide CountIn, Flood, Client;
    FloodOneMore(n);
    if n == 0 {
      CountNothing(Client(0));
    } else {
      FloodCounts(n - 1);
      FloodOneMore(n - 1);
      if Client(n - 1) == Client(0) { ClientsDiffer(n - 1, 0); }
      CountOneMore(Flood(n - 1), Hit(Client(n - 1), 0), Client(0), 0, 60);
    }
  }

  lemma CountNothing(key: string)
    ensures CountIn([], key, 0, 60) == 0
  {}

  lemma AdmittedOneMore(requests: seq<Hit>, r: Hit, limits: string -> Limit)
    ensures After(requests + [r], limits) == Served(After(requests, limits), r.key, limits(r.key), r.time)
    ensures Admitted(requests + [r], limits)
         == Admitted(requests, limits)
            + if Allowed(After(requests, limits), r.key, limits(r.key), r.time) then [r] else []
  {
    assert (requests + [r])[..|requests|] == requests;
  }

  /**
   * The clear does harm: one client is let through, 50000 others fill the dict, and the first is let through
   * again at once, twice its limit. The purge that forgets it is the last newcomer's.
   */
  lemma ClearedLimiterForgets()
    ensures var first, last := Client(0), Client(MAX_TRACKED_KEYS);
            var run := Flood(MAX_TRACKED_KEYS) + [Hit(last, 0)] + [Hit(first, 0)];
            && InOrder(run)
            && CountIn(Admitted(run, Once), first, 0, 60) == 2 * Once(first).maxRequests
            && !HarmlessTo(After(Flood(MAX_TRACKED_KEYS), Once), Hit(last, 0), Once, first)
  {
    hide Crowd, Flood, Allowed, Served, Noted, CountIn, Admitted, After, Stale, Client;
    var n := MAX_TRACKED_KEYS;
    var first, last := Client(0), Client(n);
    var flooded := Flood(n) + [Hit(last, 0)];
    FloodIsCrowd(n);
    FloodCounts(n);
    CrowdGrows(n);
    AdmittedOneMore(Flood(n), Hit(last, 0), Once);
    AdmittedOneMore(flooded, Hit(first, 0), Once);
    assert Allowed(map[], first, Once(first), 0) by { NobodyTracked(first); }
    FirstClient(n);
    CountOneMore(Flood(n), Hit(last, 0), first, 0, 60);
    CountOneMore(flooded, Hit(first, 0), first, 0, 60);
    PurgeDropsExactly(Crowd(n), Hit(last, 0), Once, first);
    assert Crowd(n + 1)[first][0] == 0;
  }

  lemma NobodyTracked(k: string)
    ensures Allowed(map[], k, Once(k), 0)
  {}

  lemma {:induction false} FirstClient(n: nat)
    requires n > 0
    ensures Client(n) != Client(0)
    ensures Client(0) in Crowd(n + 1) && Crowd(n + 1)[Client(0)] == [0]
  {
    hide Crowd, Client;
    if Client(n) == Client(0) { ClientsDiffer(n, 0); }
    CrowdOneMore(n);
    CrowdFacts(n + 1);
    if n > 1 { FirstClient(n - 1); } else { CrowdOneMore(0); }
  }

  // ── The fixed window in Redis ────────────────────────────────────────────

  /** rl:{name}:{ip}:{bucket}; the number of the window is part of the key. */
  datatype BucketKey = BucketKey(key: string, bucket: int)

  datatype Counter = Counter(count: nat, expiresAt: int)

  type Store = map<BucketKey, Counter>

  function BucketOf(time: int, window: int): int
    requires window > 0
  {
    time / window
  }

  /** A key past its expiry is gone. */
  function Live(store: Store, k: BucketKey, now: int): nat {
    if k in store && now < store[k].expiresAt then store[k].count else 0
  }

  /** INCR, and EXPIRE when the count is 1. */
  function Incremented(store: Store, k: BucketKey, now: int, window: int): Store {
    var count := Live(store, k, now) + 1;
    store[k := Counter(count, if count == 1 then now + window else store[k].expiresAt)]
  }

  class RedisLimiter {
    var store: Store

    constructor ()
      ensures store == map[]
    {
      store := map[];
    }

    method AllowRedis(name: string, ip: string, limit: Limit, now: int) returns (allowed: bool)
      requires limit.window > 0
      modifies this
      ensures var k := BucketKey(Key(name, ip), BucketOf(now, limit.window));
              && store == Incremented(old(store), k, now, limit.window)
              && (allowed <==> Live(old(store), k, now) + 1 <= limit.maxRequests)
    {
      var bucket := now / limit.window;
      var k := BucketKey(Key(name, ip), bucket);
      var count := Live(store, k, now) + 1;
      var expiresAt := if count > 1 then store[k].expiresAt else now;
      store := store[k := Counter(count, expiresAt)];
      if count == 1 { store := store[k := Counter(count, now + limit.window)]; }
      allowed := count <= limit.maxRequests;
    }
  }

  /** The store after the requests. */
  function RedisAfter(requests: seq<Hit>, limits: string -> Limit): Store
    requires forall r :: r in requests ==> limits(r.key).window > 0
  {
    if requests == [] then map[]
    else
      var r := requests[|requests| - 1];
      assert r in requests;
      var w := limits(r.key).window;
      Incremented(RedisAfter(requests[..|requests| - 1], limits), BucketKey(r.key, BucketOf(r.time, w)), r.time, w)
  }

  /** The number of requests of a key in one fixed window, allowed or not. */
  function Asked(requests: seq<Hit>, key: string, bucket: int, window: int): nat
    requires window > 0
  {
    if requests == [] then 0
    else
      var r := requests[|requests| - 1];
      Asked(requests[..|requests| - 1], key, bucket, window)
      + if r.key == key && BucketOf(r.time, window) == bucket then 1 else 0
  }

  lemma WindowBounds(time: int, window: int)
    requires window > 0
    ensures BucketOf(time, window) * window <= time < (BucketOf(time, window) + 1) * window
  {}

  lemma Cancel(a: int, b: int, w: int)
    requires w > 0 && a * w < b * w
    ensures a < b
  {
    assert (b - a) * w == b * w - a * w;
  }

  lemma BucketMonotone(s: int, t: int, window: int)
    requires window > 0 && s <= t
    ensures BucketOf(s, window) <= BucketOf(t, window)
  {
    WindowBounds(s, window);
    WindowBounds(t, window);
    Cancel(BucketOf(s, window), BucketOf(t, window) + 1, window);
  }

  /** A counter of the current window counts all its requests, and outlives the window. */
  ghost predicate CounterIsRight(store: Store, requests: seq<Hit>, key: string, bucket: int, window: int)
    requires window > 0
  {
    var k := BucketKey(key, bucket);
    var asked := Asked(requests, key, bucket, window);
    if k in store then store[k].count == asked && asked > 0 && store[k].expiresAt >= (bucket + 1) * window
    else asked == 0
  }

  lemma {:induction false} CountersCountWindows(requests: seq<Hit>, limits: string -> Limit, key: string, bucket: int)
    requires forall r :: r in requests ==> limits(r.key).window > 0
    requires limits(key).window > 0
    ensures CounterIsRight(RedisAfter(requests, limits), requests, key, bucket, limits(key).window)
    decreases |requests|
  {
    if requests != [] {
      var init, r := requests[..|requests| - 1], requests[|requests| - 1];
      assert forall x :: x in init ==> x in requests;
      assert r in requests;
      CountersCountWindows(init, limits, key, bucket);
      WindowBounds(r.time, limits(r.key).window);
    }
  }

  /** At any moment of a window the live counter is the number of that window's requests so
      far: an expiry set on the first increment never resets a window that is still running. */
  lemma ExpiryNeverResetsARunningWindow(requests: seq<Hit>, limits: string -> Limit, key: string, now: int)
    requires forall r :: r in requests ==> limits(r.key).window > 0
    requires limits(key).window > 0
    ensures var w := limits(key).window;
            Live(RedisAfter(requests, limits), BucketKey(key, BucketOf(now, w)), now)
            == Asked(requests, key, BucketOf(now, w), w)
  {
    CountersCountWindows(requests, limits, key, BucketOf(now, limits(key).window));
    WindowBounds(now, limits(key).window);
  }

  lemma {:induction false} CountersExpire(requests: seq<Hit>, limits: string -> Limit, key: string, bucket: int)
    requires forall r :: r in requests ==> limits(r.key).window > 0
    requires limits(key).window > 0
    ensures var store, k := RedisAfter(requests, limits), BucketKey(key, bucket);
            k in store ==> store[k].expiresAt < (bucket + 2) * limits(key).window
    decreases |requests|
  {
    if requests != [] {
      var init, r := requests[..|requests| - 1], requests[|requests| - 1];
      assert forall x :: x in init ==> x in requests;
      assert r in requests;
      CountersExpire(init, limits, key, bucket);
      WindowBounds(r.time, limits(r.key).window);
    }
  }

  /** No counter outlives its own window by more than one. */
  lemma OldCountersAreGone(requests: seq<Hit>, limits: string -> Limit, key: string, bucket: int, now: int)
    requires forall r :: r in requests ==> limits(r.key).window > 0
    requires limits(key).window > 0 && now >= (bucket + 2) * limits(key).window
    ensures Live(RedisAfter(requests, limits), BucketKey(key, bucket), now) == 0
  {
    CountersExpire(requests, limits, key, bucket);
  }

  /** The requests the Redis limiter let through. */
  function RedisAdmitted(requests: seq<Hit>, limits: string -> Limit): seq<Hit>
    requires forall r :: r in requests ==> limits(r.key).window > 0
  {
    if requests == [] then []
    else
      var init, r := requests[..|requests| - 1], requests[|requests| - 1];
      assert r in requests;
      var k := BucketKey(r.key, BucketOf(r.time, limits(r.key).window));
      RedisAdmitted(init, limits)
      + if Live(RedisAfter(init, limits), k, r.time) + 1 <= limits(r.key).maxRequests then [r] else []
  }

  /** Admissions of a key in one fixed window: the first max_requests of its requests. */
  lemma {:induction false} FixedWindowAdmits(requests: seq<Hit>, limits: string -> Limit, key: string, bucket: int)
    requires forall r :: r in requests ==> limits(r.key).window > 0
    requires limits(key).window > 0
    ensures var w, max := limits(key).window, limits(key).maxRequests;
            var asked := Asked(requests, key, bucket, w);
            Asked(RedisAdmitted(requests, limits), key, bucket,
                  w) == if asked <= max then asked else if max < 0 then 0 else max
    decreases |requests|
  {
    if requests != [] {
      hide RedisAfter, Live;
      var init, r := requests[..|requests| - 1], requests[|requests| - 1];
      assert forall x :: x in init ==> x in requests;
      assert r in requests;
      FixedWindowAdmits(init, limits, key, bucket);
      ExpiryNeverResetsARunningWindow(init, limits, r.key, r.time);
      AskedOneMore(RedisAdmitted(init, limits), r, key, bucket, limits(key).window);
      assert RedisAdmitted(init, limits) + [] == RedisAdmitted(init, limits);
    }
  }

  lemma AskedOneMore(requests: seq<Hit>, r: Hit, key: string, bucket: int, window: int)
    requires window > 0
    ensures Asked(requests + [r], key, bucket, window)
         == Asked(requests, key, bucket, window) + if r.key == key && BucketOf(r.time, window) == bucket then 1 else 0
  {
    assert (requests + [r])[..|requests|] == requests;
  }

  /** A half-open interval of the window's length meets at most two fixed windows. */
  lemma {:induction false} IntervalMeetsTwoWindows(history: seq<Hit>, key: string, from: int, window: int)
    requires window > 0
    ensures CountIn(history, key, from, from + window - 1)
         <= Asked(history, key, BucketOf(from, window), window)
          + Asked(history, key, BucketOf(from, window) + 1, window)
  {
    if history != [] {
      var t := history[|history| - 1].time;
      IntervalMeetsTwoWindows(history[..|history| - 1], key, from, window);
      if from <= t <= from + window - 1 {
        BucketMonotone(from, t, window);
        BucketMonotone(t, from + window, window);
        NextWindow(from, window);
      }
    }
  }

  lemma NextWindow(time: int, window: int)
    requires window > 0
    ensures BucketOf(time + window, window) == BucketOf(time, window) + 1
  {
    hide BucketOf;
    var b, next := BucketOf(time, window), BucketOf(time + window, window);
    WindowBounds(time, window);
    WindowBounds(time + window, window);
    assert (b + 1) * window == b * window + window && (b + 2) * window == (b + 1) * window + window;
    Cancel(b + 1, next + 1, window);
    Cancel(next, b + 2, window);
  }

  /** At most twice max_requests in any half-open interval [from, from + window). */
  lemma FixedWindowLimits(requests: seq<Hit>, limits: string -> Limit, key: string, from: int)
    requires forall r :: r in requests ==> limits(r.key).window > 0
    requires limits(key).window > 0 && limits(key).maxRequests >= 0
    ensures CountIn(RedisAdmitted(requests, limits), key, from, from + limits(key).window - 1)
         <= 2 * limits(key).maxRequests
  {
    var w := limits(key).window;
    FixedWindowAdmits(requests, limits, key, BucketOf(from, w));
    FixedWindowAdmits(requests, limits, key, BucketOf(from, w) + 1);
    IntervalMeetsTwoWindows(RedisAdmitted(requests, limits), key, from, w);
  }
}
