/** The sliding-window rate limiter over a Redis sorted set with an expiry. */
module RateLimiter {
  import opened Text

  /** A sorted set: the scores of its members, in the order they were added, and the time it expires. */
  datatype ZSet = ZSet(scores: seq<int>, expireAt: Option<int>)

  // ----- counting -----

  /** How many of `times` are after `t`. */
  function CountAfter(times: seq<int>, t: int): (n: nat)
    ensures n <= |times|
  {
    if |times| == 0 then 0
    else CountAfter(times[..|times| - 1], t) + (if times[|times| - 1] > t then 1 else 0)
  }

  /** The scores that `zremrangebyscore key 0 upTo` leaves. */
  function Trim(scores: seq<int>, upTo: int): seq<int> {
    if |scores| == 0 then []
    else
      var s := scores[|scores| - 1];
      Trim(scores[..|scores| - 1], upTo) + (if 0 <= s <= upTo then [] else [s])
  }

  /** The scores that `zcount key low high` counts. */
  function CountBetween(scores: seq<int>, low: int, high: int): nat {
    if |scores| == 0 then 0
    else CountBetween(scores[..|scores| - 1], low, high) + (if low <= scores[|scores| - 1] <= high then 1 else 0)
  }

  /** The places of the scores in a closed interval. */
  ghost function PlacesBetween(scores: seq<int>, low: int, high: int): set<int> {
    set i | 0 <= i < |scores| && low <= scores[i] <= high
  }

  lemma {:induction false} CountBetweenIsSize(scores: seq<int>, low: int, high: int)
    ensures CountBetween(scores, low, high) == |PlacesBetween(scores, low, high)|
  {
    if |scores| > 0 {
      var n, p := |scores| - 1, scores[..|scores| - 1];
      CountBetweenIsSize(p, low, high);
      assert PlacesBetween(scores, low, high)
        == PlacesBetween(p, low, high) + (if low <= scores[n] <= high then {n} else {});
      assert n !in PlacesBetween(p, low, high);
    }
  }

  ghost predicate AllBetween(times: seq<int>, low: int, high: int) {
    forall i :: 0 <= i < |times| ==> low <= times[i] <= high
  }

  lemma {:induction false} TrimKeeps(scores: seq<int>, upTo: int, high: int)
    requires AllBetween(scores, 0, high)
    ensures AllBetween(Trim(scores, upTo), 0, high)
    ensures |Trim(scores, upTo)| == CountAfter(scores, upTo)
  {
    if |scores| > 0 { TrimKeeps(scores[..|scores| - 1], upTo, high); }
  }

  lemma {:induction false} TrimKeepsLater(scores: seq<int>, upTo: int, t: int)
    requires upTo <= t
    ensures CountAfter(Trim(scores, upTo), t) == CountAfter(scores, t)
  {
    if |scores| > 0 {
      var p := Trim(scores[..|scores| - 1], upTo);
      TrimKeepsLater(scores[..|scores| - 1], upTo, t);
      var s := scores[|scores| - 1];
      if !(0 <= s <= upTo) { CountAfterAppend(p, s, t); }
      assert p + [] == p;
    }
  }

  lemma CountAfterAppend(times: seq<int>, x: int, t: int)
    ensures CountAfter(times + [x], t) == CountAfter(times, t) + (if x > t then 1 else 0)
  {
    assert (times + [x])[..|times|] == times;
  }

  lemma {:induction false} NoneAfter(times: seq<int>, t: int)
    requires forall i :: 0 <= i < |times| ==> times[i] <= t
    ensures CountAfter(times, t) == 0
  {
    if |times| > 0 { NoneAfter(times[..|times| - 1], t); }
  }

  // ----- the Redis commands and the limiter -----

  datatype RateLimitConfig = RateLimitConfig(windowMs: int, maxRequests: int)

  datatype RateLimitInfo = RateLimitInfo(limit: int, current: int, remaining: int, resetTime: int)

  /** The scores of a key, none when it is absent. */
  function Scores(sets: map<string, ZSet>, key: string): seq<int> {
    if key in sets then sets[key].scores else []
  }

  /** The part of Redis the limiter uses; a sorted set that loses its last member is deleted. */
  class Redis {
    var sets: map<string, ZSet>

    constructor ()
      ensures sets == map[]
    {
      sets := map[];
    }

    method ZRemRangeByScore(key: string, upTo: int)
      modifies this
      ensures sets == if Trim(Scores(old(sets), key), upTo) == [] then old(sets) - {key}
                      else old(sets)[key := ZSet(Trim(Scores(old(sets), key), upTo), old(sets)[key].expireAt)]
    {
      if key in sets {
        var left := Trim(sets[key].scores, upTo);
        if |left| == 0 {
          sets := sets - {key};
        } else {
          sets := sets[key := ZSet(left, sets[key].expireAt)];
        }
      } else {
        assert sets - {key} == sets;
      }
    }

    method ZCard(key: string) returns (n: nat)
      ensures n == |Scores(sets, key)|
    {
      return if key in sets then |sets[key].scores| else 0;
    }

    method ZCount(key: string, low: int, high: int) returns (n: nat)
      ensures n == CountBetween(Scores(sets, key), low, high)
    {
      return if key in sets then CountBetween(sets[key].scores, low, high) else 0;
    }

    /** Adds a fresh member. */
    method ZAdd(key: string, score: int)
      modifies this
      ensures sets == old(sets)[key := ZSet(Scores(old(sets), key) + [score],
                                            if key in old(sets) then old(sets)[key].expireAt else None)]
    {
      sets := sets[key := if key in sets then ZSet(sets[key].scores + [score], sets[key].expireAt)
                          else ZSet([] + [score], None)];
    }

    /** A time to live that is not positive deletes the key at once. */
    method PExpire(key: string, ms: int, now: int)
      modifies this
      ensures sets == if key !in old(sets) then old(sets)
                      else if ms <= 0 then old(sets) - {key}
                      else old(sets)[key := ZSet(old(sets)[key].scores, Some(now + ms))]
    {
      if key in sets {
        sets := if ms <= 0 then sets - {key} else sets[key := ZSet(sets[key].scores, Some(now + ms))];
      }
    }

    method Del(key: string)
      modifies this
      ensures sets == old(sets) - {key}
    {
      sets := sets - {key};
    }
  }

  /** What `checkLimit` leaves of a key's scores. */
  function CheckedScores(scores: seq<int>, now: int, windowMs: int): seq<int> {
    if windowMs <= 0 then [] else Trim(scores, now - windowMs) + [now]
  }

  /** All sorted sets after `checkLimit`. */
  function CheckedSets(sets: map<string, ZSet>, key: string, now: int, windowMs: int): map<string, ZSet> {
    if windowMs <= 0 then sets - {key}
    else sets[key := ZSet(CheckedScores(Scores(sets, key), now, windowMs), Some(now + windowMs))]
  }

  class Limiter {
    const redis: Redis

    constructor (redis: Redis)
      ensures this.redis == redis
    {
      this.redis := redis;
    }

    method CheckLimit(key: string, config: RateLimitConfig, now: int) returns (info: RateLimitInfo)
      modifies redis
      ensures redis.sets == CheckedSets(old(redis.sets), key, now, config.windowMs)
      ensures var count := |Trim(Scores(old(redis.sets), key), now - config.windowMs)|;
              info == RateLimitInfo(config.maxRequests, count + 1,
                                    if config.maxRequests - count - 1 > 0 then config.maxRequests - count - 1 else 0,
                                    now + config.windowMs)
    {
      var windowStart := now - config.windowMs;
      redis.ZRemRangeByScore(key, windowStart);
      var count := redis.ZCard(key);
      redis.ZAdd(key, now);
      redis.PExpire(key, config.windowMs, now);
      var remaining := if config.maxRequests - count - 1 > 0 then config.maxRequests - count - 1 else 0;
      var resetTime := now + config.windowMs;
      return RateLimitInfo(config.maxRequests, count + 1, remaining, resetTime);
    }

    method ResetLimit(key: string)
      modifies redis
      ensures redis.sets == old(redis.sets) - {key}
    {
      redis.Del(key);
    }

    method GetStatus(key: string, config: RateLimitConfig, now: int) returns (info: RateLimitInfo)
      ensures var count := |PlacesBetween(Scores(redis.sets, key), now - config.windowMs, now)|;
              info == RateLimitInfo(config.maxRequests, count,
                                    if config.maxRequests - count > 0 then config.maxRequests - count else 0,
                                    now + config.windowMs)
    {
      CountBetweenIsSize(Scores(redis.sets, key), now - config.windowMs, now);
      var windowStart := now - config.windowMs;
      var count := redis.ZCount(key, windowStart, now);
      var remaining := if config.maxRequests - count > 0 then config.maxRequests - count else 0;
      return RateLimitInfo(config.maxRequests, count, remaining, now + config.windowMs);
    }
  }

  // ----- whole runs on one key -----

  /** What happens to one key: calls, resets, and Redis noticing that the key has expired. */
  datatype Event = Check(time: int) | Reset | Expire(time: int)

  /** A key, with the calls since its last reset and the latest time seen. */
  datatype KeyState = KeyState(scores: seq<int>, expireAt: Option<int>, calls: seq<int>, now: int)

  const INITIAL: KeyState := KeyState([], None, [], 0)

  /** Clocks do not run backwards, and a key expires at its time or later, however late it is noticed. */
  ghost predicate Enabled(s: KeyState, e: Event) {
    match e
    case Check(t) => s.now <= t
    case Reset => true
    case Expire(t) => s.now <= t && s.expireAt.Some? && s.expireAt.value <= t
  }

  ghost function Next(s: KeyState, e: Event, windowMs: int): KeyState {
    match e
    case Check(t) =>
      KeyState(CheckedScores(s.scores, t, windowMs), if windowMs <= 0 then None else Some(t + windowMs),
               s.calls + [t], t)
    case Reset => KeyState([], None, [], s.now)
    case Expire(t) => s.(scores := [], expireAt := None, now := t)
  }

  ghost function After(events: seq<Event>, windowMs: int): KeyState {
    if |events| == 0 then INITIAL else Next(After(events[..|events| - 1], windowMs), events[|events| - 1], windowMs)
  }

  ghost predicate IsRun(events: seq<Event>, windowMs: int) {
    |events| > 0 ==>
      && IsRun(events[..|events| - 1], windowMs)
      && Enabled(After(events[..|events| - 1], windowMs), events[|events| - 1])
  }

  /** Trimming and expiry only drop scores that no later window can see. */
  ghost predicate Inv(s: KeyState, windowMs: int) {
    && AllBetween(s.scores, 0, s.now) && AllBetween(s.calls, 0, s.now) && 0 <= s.now
    && (forall t :: s.now - windowMs <= t ==> CountAfter(s.scores, t) == CountAfter(s.calls, t))
    && (s.expireAt.Some? ==> forall i :: 0 <= i < |s.calls| ==> s.calls[i] + windowMs <= s.expireAt.value)
  }

  lemma CheckKeepsInv(s: KeyState, t: int, windowMs: int)
    requires Inv(s, windowMs) && Enabled(s, Check(t))
    ensures Inv(Next(s, Check(t), windowMs), windowMs)
  {
    hide Trim, CountAfter;
    var s' := Next(s, Check(t), windowMs);
    TrimKeeps(s.scores, t - windowMs, s.now);
    forall c | t - windowMs <= c
      ensures CountAfter(s'.scores, c) == CountAfter(s'.calls, c)
    {
      CountAfterAppend(s.calls, t, c);
      if windowMs <= 0 {
        NoneAfter(s.calls, c);
      } else {
        CountAfterAppend(Trim(s.scores, t - windowMs), t, c);
        TrimKeepsLater(s.scores, t - windowMs, c);
      }
    }
  }

  lemma ExpireKeepsInv(s: KeyState, t: int, windowMs: int)
    requires Inv(s, windowMs) && Enabled(s, Expire(t))
    ensures Inv(Next(s, Expire(t), windowMs), windowMs)
  {
    forall c | t - windowMs <= c
      ensures CountAfter(s.calls, c) == 0
    {
      NoneAfter(s.calls, c);
    }
  }

  lemma {:induction false} RunKeepsInv(events: seq<Event>, windowMs: int)
    requires IsRun(events, windowMs)
    ensures Inv(After(events, windowMs), windowMs)
  {
    if |events| > 0 {
      var before := After(events[..|events| - 1], windowMs);
      RunKeepsInv(events[..|events| - 1], windowMs);
      match events[|events| - 1] {
        case Check(t) => CheckKeepsInv(before, t, windowMs);
        case Reset =>
        case Expire(t) => ExpireKeepsInv(before, t, windowMs);
      }
    }
  }

  /** After every run, the next call counts exactly the calls since the last reset that lie in (now - window, now]. */
  lemma CountIsExact(events: seq<Event>, windowMs: int, now: int)
    requires IsRun(events, windowMs) && Enabled(After(events, windowMs), Check(now))
    ensures |Trim(After(events, windowMs).scores, now - windowMs)|
            == CountAfter(After(events, windowMs).calls, now - windowMs)
    ensures AllBetween(After(events, windowMs).calls, 0, now)
  {
    hide After, IsRun;
    RunKeepsInv(events, windowMs);
    var s := After(events, windowMs);
    TrimKeeps(s.scores, now - windowMs, s.now);
  }

  // ----- whole runs on all keys -----

  /** An event of one key. */
  datatype Action = On(key: string, event: Event)

  /** The sorted sets of Redis and the time of the latest event. */
  datatype World = World(sets: map<string, ZSet>, now: int)

  ghost predicate Possible(w: World, a: Action) {
    match a.event
    case Check(t) => w.now <= t
    case Reset => true
    case Expire(t) => w.now <= t && a.key in w.sets && w.sets[a.key].expireAt.Some? && w.sets[a.key].expireAt.value <= t
  }

  ghost function Happened(w: World, a: Action, windowMs: int): World {
    match a.event
    case Check(t) => World(CheckedSets(w.sets, a.key, t, windowMs), t)
    case Reset => World(w.sets - {a.key}, w.now)
    case Expire(t) => World(w.sets - {a.key}, t)
  }

  /** All keys after a run; each key has its window. */
  ghost function WorldAfter(run: seq<Action>, windows: string -> int): World {
    if |run| == 0 then World(map[], 0)
    else
      var last := run[|run| - 1];
      Happened(WorldAfter(run[..|run| - 1], windows), last, windows(last.key))
  }

  ghost predicate IsWorldRun(run: seq<Action>, windows: string -> int) {
    |run| > 0 ==>
      && IsWorldRun(run[..|run| - 1], windows)
      && Possible(WorldAfter(run[..|run| - 1], windows), run[|run| - 1])
  }

  /** The events of one key. */
  function OwnEvents(run: seq<Action>, key: string): seq<Event> {
    if |run| == 0 then []
    else
      OwnEvents(run[..|run| - 1], key) + (if run[|run| - 1].key == key then [run[|run| - 1].event] else [])
  }

  /** The sorted set of the key has the scores and the expiry of the state. */
  predicate Agrees(sets: map<string, ZSet>, key: string, s: KeyState) {
    if key in sets then sets[key] == ZSet(s.scores, s.expireAt) else s.scores == [] && s.expireAt == None
  }

  /** Each event does to its key's sorted set what `Next` says, and nothing to any other. */
  lemma EventAgrees(w: World, a: Action, windowMs: int, s: KeyState)
    requires Agrees(w.sets, a.key, s)
    ensures Agrees(Happened(w, a, windowMs).sets, a.key, Next(s, a.event, windowMs))
    ensures forall k :: k != a.key ==>
              && (k in Happened(w, a, windowMs).sets <==> k in w.sets)
              && (k in w.sets ==> Happened(w, a, windowMs).sets[k] == w.sets[k])
  {
    hide Trim;
  }

  lemma EventIsEnabled(w: World, a: Action, s: KeyState)
    requires Agrees(w.sets, a.key, s) && s.now <= w.now && Possible(w, a)
    ensures Enabled(s, a.event)
  {
  }

  lemma AfterAppend(events: seq<Event>, e: Event, windowMs: int)
    ensures After(events + [e], windowMs) == Next(After(events, windowMs), e, windowMs)
    ensures IsRun(events + [e], windowMs) <==> IsRun(events, windowMs) && Enabled(After(events, windowMs), e)
  {
    assert (events + [e])[..|events|] == events;
  }

  /** What each key sees of a run on all keys is a run on that key alone, and its sorted set is the one of that run. */
  lemma {:induction false} KeySeesItsRun(run: seq<Action>, windows: string -> int, key: string)
    requires IsWorldRun(run, windows)
    ensures var own, w := OwnEvents(run, key), WorldAfter(run, windows);
            && IsRun(own, windows(key)) && Agrees(w.sets, key, After(own, windows(key)))
            && After(own, windows(key)).now <= w.now
  {
    if |run| > 0 {
      hide Next, Happened, Enabled, Possible, Agrees, After, IsRun;
      var p, last := run[..|run| - 1], run[|run| - 1];
      var before, own := WorldAfter(p, windows), OwnEvents(p, key);
      KeySeesItsRun(p, windows, key);
      StepIsSeen(before, last, windows, key, own);
      assert own + [] == own;
    } else {
      assert OwnEvents(run, key) == [];
    }
  }

  lemma StepIsSeen(before: World, last: Action, windows: string -> int, key: string, own: seq<Event>)
    requires IsRun(own, windows(key)) && Agrees(before.sets, key, After(own, windows(key)))
    requires After(own, windows(key)).now <= before.now && Possible(before, last)
    ensures var seen := if last.key == key then own + [last.event] else own;
            var w := Happened(before, last, windows(last.key));
            && IsRun(seen, windows(key)) && Agrees(w.sets, key, After(seen, windows(key)))
            && After(seen, windows(key)).now <= w.now
  {
    hide After, IsRun, CheckedScores, Scores;
    if last.key == key {
      EventAgrees(before, last, windows(key), After(own, windows(key)));
      EventIsEnabled(before, last, After(own, windows(key)));
      AfterAppend(own, last.event, windows(key));
    }
  }

  /** Event `i` of the run is a call for the key, later than `t`, with no reset of the key after it. */
  ghost predicate IsCounted(run: seq<Action>, i: int, key: string, t: int) {
    && 0 <= i < |run| && run[i].key == key && run[i].event.Check? && run[i].event.time > t
    && forall j :: i < j < |run| ==> run[j] != On(key, Reset)
  }

  ghost function CountedCalls(run: seq<Action>, key: string, t: int): set<int> {
    set i | 0 <= i < |run| && IsCounted(run, i, key, t)
  }

  lemma CountedAppend(p: seq<Action>, a: Action, key: string, t: int)
    ensures CountedCalls(p + [a], key, t)
            == if a == On(key, Reset) then {}
               else CountedCalls(p, key, t)
                    + (if a.key == key && a.event.Check? && a.event.time > t then {|p|} else {})
    ensures |p| !in CountedCalls(p, key, t)
  {
    var run := p + [a];
    assert run[|p|] == a;
    forall i: nat | i < |p|
      ensures IsCounted(run, i, key, t) <==> a != On(key, Reset) && IsCounted(p, i, key, t)
    {
      assert run[i] == p[i];
      if IsCounted(p, i, key, t) && a != On(key, Reset) {
        assert forall j :: i < j < |run| ==> run[j] == if j < |p| then p[j] else a;
      }
      if IsCounted(run, i, key, t) {
        assert forall j :: i < j < |p| ==> p[j] == run[j];
      }
    }
  }

  lemma {:induction false} CallsAreCounted(run: seq<Action>, windowMs: int, key: string, t: int)
    ensures |CountedCalls(run, key, t)| == CountAfter(After(OwnEvents(run, key), windowMs).calls, t)
  {
    if |run| == 0 {
      assert OwnEvents(run, key) == [];
    } else {
      hide CountedCalls, IsCounted, CountAfter, After;
      var p, last := run[..|run| - 1], run[|run| - 1];
      CallsAreCounted(p, windowMs, key, t);
      assert run == p + [last];
      CountedAppend(p, last, key, t);
      CallsAppend(OwnEvents(p, key), last, windowMs, key, t);
    }
  }

  lemma CallsAppend(own: seq<Event>, last: Action, windowMs: int, key: string, t: int)
    ensures var seen := own + (if last.key == key then [last.event] else []);
            CountAfter(After(seen, windowMs).calls, t)
            == if last == On(key, Reset) then 0
               else CountAfter(After(own, windowMs).calls, t)
                    + (if last.key == key && last.event.Check? && last.event.time > t then 1 else 0)
  {
    hide After, CheckedScores;
    if last.key == key {
      AfterAppend(own, last.event, windowMs);
      if last.event.Check? { CountAfterAppend(After(own, windowMs).calls, last.event.time, t); }
    } else {
      assert own + [] == own;
    }
  }

  /** After every run on any number of keys, the count that `checkLimit` makes in Redis is that of the earlier calls for
      its key in (now - window, now] since the last reset of that key. */
  lemma CurrentIsExact(run: seq<Action>, windows: string -> int, key: string, now: int)
    requires IsWorldRun(run, windows) && WorldAfter(run, windows).now <= now
    ensures var w := windows(key);
            |Trim(Scores(WorldAfter(run, windows).sets, key), now - w)| == |CountedCalls(run, key, now - w)|
  {
    hide After, IsRun, WorldAfter, IsWorldRun, CountedCalls, OwnEvents, Trim, CountAfter;
    KeySeesItsRun(run, windows, key);
    CountIsExact(OwnEvents(run, key), windows(key), now);
    CallsAreCounted(run, windows(key), key, now - windows(key));
  }

  /** A call of `checkLimit` after any run: what it reports, and that Redis is then as after the longer run. */
  method CheckAfter(ghost run: seq<Action>, ghost windows: string -> int, limiter: Limiter, key: string,
                    config: RateLimitConfig, now: int) returns (info: RateLimitInfo)
    requires IsWorldRun(run, windows) && WorldAfter(run, windows).now <= now
    requires limiter.redis.sets == WorldAfter(run, windows).sets && config.windowMs == windows(key)
    modifies limiter.redis
    ensures info.limit == config.maxRequests && info.current == |CountedCalls(run, key, now - config.windowMs)| + 1
    ensures IsWorldRun(run + [On(key, Check(now))], windows)
    ensures limiter.redis.sets == WorldAfter(run + [On(key, Check(now))], windows).sets
  {
    CurrentIsExact(run, windows, key, now);
    assert (run + [On(key, Check(now))])[..|run|] == run;
    info := limiter.CheckLimit(key, config, now);
  }

  // ----- what admitting on `current <= limit` guarantees -----

  /** Whether call `i` of a key is within the limit: `current <= limit` for the count of `CountIsExact`. */
  predicate Admitted(calls: seq<int>, i: nat, windowMs: int, maxRequests: int)
    requires i < |calls|
  {
    CountAfter(calls[..i], calls[i] - windowMs) + 1 <= maxRequests
  }

  /** The admitted calls among the first `n` that lie in (end - window, end]. */
  function AdmittedIn(calls: seq<int>, n: nat, windowMs: int, maxRequests: int, end: int): (count: nat)
    requires n <= |calls|
  {
    if n == 0 then 0
    else AdmittedIn(calls, n - 1, windowMs, maxRequests, end)
         + (if end - windowMs < calls[n - 1] <= end && Admitted(calls, n - 1, windowMs, maxRequests) then 1 else 0)
  }

  lemma {:induction false} AdmittedAtMostCount(calls: seq<int>, n: nat, windowMs: int, maxRequests: int, end: int,
      t: int)
    requires n <= |calls| && t <= end - windowMs
    ensures AdmittedIn(calls, n, windowMs, maxRequests, end) <= CountAfter(calls[..n], t)
    decreases n
  {
    if n > 0 {
      AdmittedAtMostCount(calls, n - 1, windowMs, maxRequests, end, t);
      assert calls[..n][..n - 1] == calls[..n - 1];
    }
  }

  /** In every interval of the window's length at most `maxRequests` calls are admitted. */
  lemma {:induction false} AtMostLimitPerWindow(calls: seq<int>, n: nat, windowMs: int, maxRequests: int, end: int)
    requires n <= |calls|
    ensures AdmittedIn(calls, n, windowMs, maxRequests, end) <= if maxRequests > 0 then maxRequests else 0
    decreases n
  {
    if n > 0 {
      var last := calls[n - 1];
      if end - windowMs < last <= end && Admitted(calls, n - 1, windowMs, maxRequests) {
        AdmittedAtMostCount(calls, n - 1, windowMs, maxRequests, end, last - windowMs);
      } else {
        AtMostLimitPerWindow(calls, n - 1, windowMs, maxRequests, end);
      }
    }
  }

  // ----- where the code departs from that -----

  /** What `checkLimit` reports for a count of earlier calls. */
  function Info(config: RateLimitConfig, count: nat, now: int): RateLimitInfo {
    RateLimitInfo(config.maxRequests, count + 1,
                  if config.maxRequests - count - 1 > 0 then config.maxRequests - count - 1 else 0,
                  now + config.windowMs)
  }

  /** The test of the middleware before it answers 429. */
  predicate MiddlewareRefuses(info: RateLimitInfo) {
    info.remaining < 0
  }

  /** The middleware decides as intended exactly for the calls that are within the limit: `remaining` is clamped at
      zero, so no call is ever refused. */
  lemma RefusesAsIntendedIff(config: RateLimitConfig, count: nat, now: int)
    ensures var info := Info(config, count, now);
            (MiddlewareRefuses(info) <==> info.current > info.limit) <==> count < config.maxRequests
  {
  }

  /** A refusal that does not happen: the second call of a window with a limit of one. */
  lemma OverLimitCallPasses()
    ensures var events := [Check(1000)];
            IsRun(events, 500) && Enabled(After(events, 500), Check(1001))
            && !Admitted([1000, 1001], 1, 500, 1)
            && !MiddlewareRefuses(Info(RateLimitConfig(500, 1), |Trim(After(events, 500).scores, 1001 - 500)|, 1001))
  {
    var events := [Check(1000)];
    assert events[..0] == [];
    assert After([], 500) == INITIAL && IsRun([], 500);
    assert [1000, 1001][..1] == [1000];
    assert CountAfter([1000], 501) == 1;
  }

  lemma {:induction false} StatusCountSplits(scores: seq<int>, now: int, windowMs: int)
    requires AllBetween(scores, 0, now) && windowMs >= 0
    ensures CountAfter(scores, now - windowMs) <= CountBetween(scores, now - windowMs, now)
    ensures CountAfter(scores, now - windowMs) == CountBetween(scores, now - windowMs, now)
            <==> now - windowMs !in scores
  {
    if |scores| > 0 {
      StatusCountSplits(scores[..|scores| - 1], now, windowMs);
      assert scores == scores[..|scores| - 1] + [scores[|scores| - 1]];
    }
  }

  /** `getStatus` counts a closed interval and so agrees with `checkLimit` exactly when no stored call is one whole
      window old. */
  lemma StatusAgreesIff(events: seq<Event>, windowMs: int, now: int)
    requires IsRun(events, windowMs) && After(events, windowMs).now <= now && windowMs >= 0
    ensures var s := After(events, windowMs);
            |PlacesBetween(s.scores, now - windowMs, now)| == CountAfter(s.calls, now - windowMs)
            <==> now - windowMs !in s.scores
  {
    hide After, IsRun, CountAfter, CountBetween, PlacesBetween;
    RunKeepsInv(events, windowMs);
    StatusCountSplits(After(events, windowMs).scores, now, windowMs);
    CountBetweenIsSize(After(events, windowMs).scores, now - windowMs, now);
  }
}
