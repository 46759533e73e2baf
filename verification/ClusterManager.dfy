/** The respawn limit of the cluster manager: counting windows and what they bound. */
module ClusterManager {

  /** Restarts counted for a worker since `firstRestart`. */
  datatype RestartData = RestartData(count: int, firstRestart: int)

  datatype Entry = Absent | Present(data: RestartData)

  function Lookup(m: map<int, RestartData>, workerId: int): Entry {
    if workerId in m then Present(m[workerId]) else Absent
  }

  /** One decision: the worker's new entry, and whether a respawn is granted. */
  function Decide(e: Entry, now: int, maxRestarts: int, restartWindow: int): (RestartData, bool) {
    match e
    case Absent => (RestartData(1, now), true)
    case Present(d) =>
      if now - d.firstRestart > restartWindow then (RestartData(1, now), true)
      else if d.count >= maxRestarts then (d, false)
      else (RestartData(d.count + 1, d.firstRestart), true)
  }

  class Manager {
    const maxRestarts: int
    const restartWindow: int
    var restartCounts: map<int, RestartData>

    constructor (maxRestarts: int, restartWindow: int)
      ensures this.maxRestarts == maxRestarts && this.restartWindow == restartWindow && restartCounts == map[]
    {
      this.maxRestarts, this.restartWindow, restartCounts := maxRestarts, restartWindow, map[];
    }

    /** `checkRespawnLimit` at time `now`. */
    method CheckRespawnLimit(workerId: int, now: int) returns (granted: bool)
      modifies this`restartCounts
      ensures var (windows, ok) := Decide(Lookup(old(restartCounts), workerId), now, maxRestarts, restartWindow);
              granted == ok && restartCounts == old(restartCounts)[workerId := windows]
      ensures var known := workerId in old(restartCounts);
              var d := if known then old(restartCounts)[workerId] else RestartData(0, now);
              var isOver := now - d.firstRestart > restartWindow;
              && (granted <==> !known || isOver || d.count < maxRestarts)
              && restartCounts == if !granted then old(restartCounts)
                                  else if !known || isOver then old(restartCounts)[workerId := RestartData(1, now)]
                                  else old(restartCounts)[workerId := RestartData(d.count + 1, d.firstRestart)]
    {
      if workerId !in restartCounts {
        restartCounts := restartCounts[workerId := RestartData(1, now)];
        return true;
      }
      var data := restartCounts[workerId];
      if now - data.firstRestart > restartWindow {
        restartCounts := restartCounts[workerId := RestartData(1, now)];
        return true;
      }
      if data.count >= maxRestarts {
        assert restartCounts == restartCounts[workerId := data];
        return false;
      }
      restartCounts := restartCounts[workerId := RestartData(data.count + 1, data.firstRestart)];
      return true;
    }
  }

  // ----- runs of one worker id -----

  /** The entry after the calls at `times`. */
  function EntryAfter(times: seq<int>, maxRestarts: int, restartWindow: int): Entry {
    if |times| == 0 then Absent
    else
      var before := EntryAfter(times[..|times| - 1], maxRestarts, restartWindow);
      Present(Decide(before, times[|times| - 1], maxRestarts, restartWindow).0)
  }

  /** Whether the `i`-th call is granted. */
  predicate Granted(times: seq<int>, i: nat, maxRestarts: int, restartWindow: int)
    requires i < |times|
  {
    Decide(EntryAfter(times[..i], maxRestarts, restartWindow), times[i], maxRestarts, restartWindow).1
  }

  /** The granted calls among the first `n` whose time lies in [from, to]. */
  function GrantedIn(times: seq<int>, n: nat, maxRestarts: int, restartWindow: int, from: int, to: int): nat
    requires n <= |times|
  {
    if n == 0 then 0
    else GrantedIn(times, n - 1, maxRestarts, restartWindow, from, to)
         + (if from <= times[n - 1] <= to && Granted(times, n - 1, maxRestarts, restartWindow) then 1 else 0)
  }

  ghost predicate NonDecreasing(times: seq<int>) {
    forall i, j :: 0 <= i < j < |times| ==> times[i] <= times[j]
  }

  function Cap(maxRestarts: int): nat {
    if maxRestarts > 1 then maxRestarts else 1
  }

  /** The granted calls among the first `n` from time `from` on. */
  function GrantedFrom(times: seq<int>, n: nat, maxRestarts: int, restartWindow: int, from: int): nat
    requires n <= |times|
  {
    if n == 0 then 0
    else GrantedFrom(times, n - 1, maxRestarts, restartWindow, from)
         + (if from <= times[n - 1] && Granted(times, n - 1, maxRestarts, restartWindow) then 1 else 0)
  }

  lemma {:induction false} NoneFrom(times: seq<int>, n: nat, maxRestarts: int, restartWindow: int, from: int)
    requires n <= |times| && forall i :: 0 <= i < n ==> times[i] < from
    ensures GrantedFrom(times, n, maxRestarts, restartWindow, from) == 0
    decreases n
  {
    if n > 0 { NoneFrom(times, n - 1, maxRestarts, restartWindow, from); }
  }

  /** What the counter of the current counting window bounds: the grants after the window's first, and those that
      a closed interval of one window reaching into it can add from the window before. */
  lemma {:induction false} CounterBoundsGrants(times: seq<int>, n: nat, maxRestarts: int, restartWindow: int, from: int)
    requires 0 < n <= |times| && NonDecreasing(times) && restartWindow >= 0
    ensures var e := EntryAfter(times[..n], maxRestarts, restartWindow);
            && e.Present? && 1 <= e.data.count <= Cap(maxRestarts) && e.data.firstRestart <= times[n - 1]
            && (from > e.data.firstRestart ==>
                  GrantedFrom(times, n, maxRestarts, restartWindow, from) <= e.data.count - 1)
            && (from >= e.data.firstRestart - restartWindow ==>
                  GrantedFrom(times, n, maxRestarts, restartWindow, from) <= Cap(maxRestarts) - 1 + e.data.count)
    decreases n
  {
    assert times[..n][..n - 1] == times[..n - 1];
    if n == 1 {
      assert times[..0] == [];
    } else {
      CounterBoundsGrants(times, n - 1, maxRestarts, restartWindow, from);
    }
    if from > times[n - 1] {
      NoneFrom(times, n, maxRestarts, restartWindow, from);
    }
  }

  lemma {:induction false} AllInside(times: seq<int>, n: nat, maxRestarts: int, restartWindow: int, from: int, to: int)
    requires n <= |times| && forall i :: 0 <= i < n ==> times[i] <= to
    ensures GrantedIn(times, n, maxRestarts, restartWindow, from, to)
            == GrantedFrom(times, n, maxRestarts, restartWindow, from)
    decreases n
  {
    if n > 0 { AllInside(times, n - 1, maxRestarts, restartWindow, from, to); }
  }

  /** In every closed interval as long as the window at most 2 * max(1, maxRestarts) - 1 respawns are granted. */
  lemma {:induction false} RespawnsPerInterval(times: seq<int>, n: nat, maxRestarts: int, restartWindow: int, from: int)
    requires n <= |times| && NonDecreasing(times)
    ensures GrantedIn(times, n, maxRestarts, restartWindow, from, from + restartWindow) <= 2 * Cap(maxRestarts) - 1
    decreases n
  {
    if n > 0 {
      if times[n - 1] > from + restartWindow {
        RespawnsPerInterval(times, n - 1, maxRestarts, restartWindow, from);
      } else {
        AllInside(times, n, maxRestarts, restartWindow, from, from + restartWindow);
        if restartWindow < 0 {
          NoneFrom(times, n, maxRestarts, restartWindow, from);
          return;
        }
        CounterBoundsGrants(times, n, maxRestarts, restartWindow, from);
      }
    }
  }

  // ----- when the bound is reached -----

  lemma OneMoreCall(times: seq<int>, t: int, maxRestarts: int, restartWindow: int, from: int, to: int)
    ensures var (data, granted) := Decide(EntryAfter(times, maxRestarts, restartWindow), t, maxRestarts, restartWindow);
            && EntryAfter(times + [t], maxRestarts, restartWindow) == Present(data)
            && GrantedIn(times + [t], |times| + 1, maxRestarts, restartWindow, from, to)
               == GrantedIn(times, |times|, maxRestarts, restartWindow, from, to)
                   + (if from <= t <= to && granted then 1 else 0)
  {
    assert (times + [t])[..|times|] == times;
    PrefixGrants(times, times + [t], |times|, maxRestarts, restartWindow, from, to);
  }

  lemma {:induction false} PrefixGrants(times: seq<int>, more: seq<int>, n: nat, maxRestarts: int, restartWindow: int,
                                        from: int, to: int)
    requires n <= |times| <= |more| && more[..|times|] == times
    ensures GrantedIn(more, n, maxRestarts, restartWindow, from, to)
            == GrantedIn(times, n, maxRestarts, restartWindow, from, to)
    decreases n
  {
    if n > 0 {
      PrefixGrants(times, more, n - 1, maxRestarts, restartWindow, from, to);
      assert more[..n - 1] == times[..n - 1] && more[n - 1] == times[n - 1];
    }
  }

  /** A first call at 0, then `k` calls at the end of its counting window. */
  function LateCalls(k: nat, window: int): (t: seq<int>)
    ensures |t| == k + 1 && t[0] == 0 && forall i :: 0 < i <= k ==> t[i] == window
  {
    [0] + seq(k, _ => window)
  }

  lemma {:induction false} LateCallsGranted(k: nat, maxRestarts: int, window: int)
    requires window >= 1 && k <= Cap(maxRestarts) - 1
    ensures EntryAfter(LateCalls(k, window), maxRestarts, window) == Present(RestartData(k + 1, 0))
    ensures GrantedIn(LateCalls(k, window), k + 1, maxRestarts, window, window, 2 * window) == k
  {
    if k == 0 {
      assert LateCalls(0, window) == [] + [0];
      OneMoreCall([], 0, maxRestarts, window, window, 2 * window);
    } else {
      LateCallsGranted(k - 1, maxRestarts, window);
      assert LateCalls(k, window) == LateCalls(k - 1, window) + [window];
      OneMoreCall(LateCalls(k - 1, window), window, maxRestarts, window, window, 2 * window);
    }
  }

  /** And `k` calls just after it, which open a new one. */
  function ThenCalls(first: seq<int>, k: nat, window: int): seq<int> {
    first + seq(k, _ => window + 1)
  }

  lemma NoCalls(first: seq<int>, window: int)
    ensures ThenCalls(first, 0, window) == first
  {
  }

  lemma {:induction false} ThenCallsGranted(first: seq<int>, k: nat, maxRestarts: int, window: int)
    requires window >= 1 && 1 <= k <= Cap(maxRestarts)
    requires first == LateCalls(Cap(maxRestarts) - 1, window)
    ensures EntryAfter(ThenCalls(first, k, window), maxRestarts, window) == Present(RestartData(k, window + 1))
    ensures GrantedIn(ThenCalls(first, k, window), |first| + k, maxRestarts, window, window, 2 * window)
            == Cap(maxRestarts) - 1 + k
  {
    hide GrantedIn, EntryAfter, LateCalls;
    var before := ThenCalls(first, k - 1, window);
    assert ThenCalls(first, k, window) == before + [window + 1];
    hide ThenCalls;
    OneMoreCall(before, window + 1, maxRestarts, window, window, 2 * window);
    LateCallsGranted(Cap(maxRestarts) - 1, maxRestarts, window);
    if k == 1 {
      assert before == first by { NoCalls(first, window); }
    } else {
      ThenCallsGranted(first, k - 1, maxRestarts, window);
    }
  }

  /** Without a window's length, only the calls of one moment count together. */
  lemma {:induction false} GrantsAtOneMoment(times: seq<int>, n: nat, maxRestarts: int, from: int)
    requires 0 < n <= |times| && NonDecreasing(times) && times[n - 1] <= from
    ensures GrantedIn(times, n, maxRestarts, 0, from, from) <= Cap(maxRestarts)
    ensures var e := EntryAfter(times[..n], maxRestarts, 0);
            && e.Present? && e.data.firstRestart == times[n - 1] && 1 <= e.data.count <= Cap(maxRestarts)
            && GrantedIn(times, n, maxRestarts, 0, from, from) <= (if times[n - 1] == from then e.data.count else 0)
    decreases n
  {
    assert times[..n][..n - 1] == times[..n - 1];
    if n == 1 {
      assert times[..0] == [];
    } else {
      GrantsAtOneMoment(times, n - 1, maxRestarts, from);
    }
  }

  lemma {:induction false} NoneLater(times: seq<int>, n: nat, maxRestarts: int, restartWindow: int, from: int, to: int)
    requires n <= |times| && to < from
    ensures GrantedIn(times, n, maxRestarts, restartWindow, from, to) == 0
  {
    if n > 0 { NoneLater(times, n - 1, maxRestarts, restartWindow, from, to); }
  }

  lemma {:induction false} MomentBound(times: seq<int>, n: nat, maxRestarts: int, from: int)
    requires n <= |times| && NonDecreasing(times)
    ensures GrantedIn(times, n, maxRestarts, 0, from, from) <= Cap(maxRestarts)
  {
    if n > 0 {
      if times[n - 1] <= from {
        GrantsAtOneMoment(times, n, maxRestarts, from);
      } else {
        MomentBound(times, n - 1, maxRestarts, from);
      }
    }
  }

  ghost predicate ReachesBound(times: seq<int>, from: int, maxRestarts: int, restartWindow: int) {
    NonDecreasing(times)
    && GrantedIn(times, |times|, maxRestarts, restartWindow, from, from + restartWindow) == 2 * Cap(maxRestarts) - 1
  }

  lemma PositiveWindowReaches(maxRestarts: int, restartWindow: int) returns (times: seq<int>)
    requires restartWindow >= 1
    ensures ReachesBound(times, restartWindow, maxRestarts, restartWindow)
  {
    hide GrantedIn;
    var first := LateCalls(Cap(maxRestarts) - 1, restartWindow);
    ThenCallsGranted(first, Cap(maxRestarts), maxRestarts, restartWindow);
    times := ThenCalls(first, Cap(maxRestarts), restartWindow);
  }

  lemma ShortWindowMisses(times: seq<int>, from: int, maxRestarts: int, restartWindow: int)
    requires restartWindow < 0 || (restartWindow == 0 && maxRestarts > 1)
    ensures !ReachesBound(times, from, maxRestarts, restartWindow)
  {
    hide GrantedIn;
    if NonDecreasing(times) {
      if restartWindow == 0 {
        MomentBound(times, |times|, maxRestarts, from);
      } else {
        NoneLater(times, |times|, maxRestarts, restartWindow, from, from + restartWindow);
      }
    }
  }

  /** For which settings calls exist that reach the bound: all with a window of positive length, and with length zero
      only a single restart. */
  lemma BoundReachedIff(maxRestarts: int, restartWindow: int)
    ensures (exists times, from :: ReachesBound(times, from, maxRestarts, restartWindow))
            <==> restartWindow >= 1 || (restartWindow == 0 && maxRestarts <= 1)
  {
    if restartWindow >= 1 {
      var times := PositiveWindowReaches(maxRestarts, restartWindow);
    } else if restartWindow == 0 && maxRestarts <= 1 {
      OneMoreCall([], 0, maxRestarts, 0, 0, 0);
      assert ReachesBound([] + [0], 0, maxRestarts, 0);
    } else {
      hide ReachesBound;
      forall times, from ensures !ReachesBound(times, from, maxRestarts, restartWindow) {
        ShortWindowMisses(times, from, maxRestarts, restartWindow);
      }
    }
  }

  // ----- runs over several worker ids -----

  /** A worker's exit: its id and the time. */
  datatype Exit = Exit(workerId: int, time: int)

  function CountsAfter(exits: seq<Exit>, maxRestarts: int, restartWindow: int): map<int, RestartData> {
    if |exits| == 0 then map[]
    else
      var m := CountsAfter(exits[..|exits| - 1], maxRestarts, restartWindow);
      var e := exits[|exits| - 1];
      m[e.workerId := Decide(Lookup(m, e.workerId), e.time, maxRestarts, restartWindow).0]
  }

  lemma {:induction false} CountedIds(exits: seq<Exit>, maxRestarts: int, restartWindow: int, id: int)
    ensures id in CountsAfter(exits, maxRestarts, restartWindow)
            <==> exists i :: 0 <= i < |exits| && exits[i].workerId == id
  {
    if |exits| > 0 {
      var p := exits[..|exits| - 1];
      CountedIds(p, maxRestarts, restartWindow, id);
      if id in CountsAfter(p, maxRestarts, restartWindow) {
        var i :| 0 <= i < |p| && p[i].workerId == id;
        assert exits[i].workerId == id;
      }
      if id == exits[|exits| - 1].workerId {
        assert exits[|exits| - 1].workerId == id;
      }
    }
  }

  /** Counting is per worker id: an id that never exited before is always respawned, so workers that come back under
      new ids are never limited, whatever the two settings say. */
  lemma FreshIdAlwaysGranted(exits: seq<Exit>, next: Exit, maxRestarts: int, restartWindow: int)
    requires forall i :: 0 <= i < |exits| ==> exits[i].workerId != next.workerId
    ensures var entry := Lookup(CountsAfter(exits, maxRestarts, restartWindow), next.workerId);
            Decide(entry, next.time, maxRestarts, restartWindow).1
  {
    CountedIds(exits, maxRestarts, restartWindow, next.workerId);
  }

  /** The exit times of one worker. */
  function TimesOf(exits: seq<Exit>, id: int): seq<int> {
    if |exits| == 0 then []
    else
      var e := exits[|exits| - 1];
      TimesOf(exits[..|exits| - 1], id) + (if e.workerId == id then [e.time] else [])
  }

  /** The respawns granted to all workers in [from, to]. */
  function GrantedToAll(exits: seq<Exit>, maxRestarts: int, restartWindow: int, from: int, to: int): nat {
    if |exits| == 0 then 0
    else
      var p, e := exits[..|exits| - 1], exits[|exits| - 1];
      var entry := Lookup(CountsAfter(p, maxRestarts, restartWindow), e.workerId);
      GrantedToAll(p, maxRestarts, restartWindow, from, to)
      + (if from <= e.time <= to && Decide(entry, e.time, maxRestarts, restartWindow).1 then 1 else 0)
  }

  /** Each worker's counter is that of its own exits alone. */
  lemma {:induction false} CountsByWorker(exits: seq<Exit>, maxRestarts: int, restartWindow: int, id: int)
    ensures Lookup(CountsAfter(exits, maxRestarts, restartWindow), id)
            == EntryAfter(TimesOf(exits, id), maxRestarts, restartWindow)
  {
    if |exits| > 0 {
      var p, e := exits[..|exits| - 1], exits[|exits| - 1];
      CountsByWorker(p, maxRestarts, restartWindow, id);
      if e.workerId == id {
        OneMoreCall(TimesOf(p, id), e.time, maxRestarts, restartWindow, 0, 0);
      } else {
        assert TimesOf(p, id) + [] == TimesOf(p, id);
      }
    }
  }

  /** What the first `n` of the ids are granted. */
  function Shares(exits: seq<Exit>, ids: seq<int>, n: nat, maxRestarts: int, restartWindow: int, from: int,
      to: int): nat
    requires n <= |ids|
  {
    if n == 0 then 0
    else
      var times := TimesOf(exits, ids[n - 1]);
      Shares(exits, ids, n - 1, maxRestarts, restartWindow, from, to)
      + GrantedIn(times, |times|, maxRestarts, restartWindow, from, to)
  }

  ghost predicate DistinctIds(ids: seq<int>) {
    forall i, j :: 0 <= i < j < |ids| ==> ids[i] != ids[j]
  }

  lemma {:induction false} ShareOfOneMore(exits: seq<Exit>, e: Exit, ids: seq<int>, n: nat, maxRestarts: int,
                                          restartWindow: int, from: int, to: int)
    requires n <= |ids| && DistinctIds(ids)
    ensures var entry := EntryAfter(TimesOf(exits, e.workerId), maxRestarts, restartWindow);
            Shares(exits + [e], ids, n, maxRestarts, restartWindow, from, to)
            == Shares(exits, ids, n, maxRestarts, restartWindow, from, to)
               + (if e.workerId in ids[..n] && from <= e.time <= to
                     && Decide(entry, e.time, maxRestarts, restartWindow).1
                  then 1 else 0)
    decreases n
  {
    hide GrantedIn, EntryAfter;
    if n > 0 {
      var id := ids[n - 1];
      ShareOfOneMore(exits, e, ids, n - 1, maxRestarts, restartWindow, from, to);
      assert (exits + [e])[..|exits|] == exits;
      assert ids[..n] == ids[..n - 1] + [id] && id !in ids[..n - 1];
      if e.workerId == id {
        OneMoreCall(TimesOf(exits, id), e.time, maxRestarts, restartWindow, from, to);
      } else {
        assert TimesOf(exits, id) + [] == TimesOf(exits, id);
      }
    }
  }

  lemma {:induction false} NoShares(ids: seq<int>, n: nat, maxRestarts: int, restartWindow: int, from: int, to: int)
    requires n <= |ids|
    ensures Shares([], ids, n, maxRestarts, restartWindow, from, to) == 0
    decreases n
  {
    if n > 0 { NoShares(ids, n - 1, maxRestarts, restartWindow, from, to); }
  }

  /** The grants of all workers are the sum of what each is granted by its own exits. */
  lemma {:induction false} GrantsAreShares(exits: seq<Exit>, ids: seq<int>, maxRestarts: int, restartWindow: int,
                                           from: int, to: int)
    requires DistinctIds(ids) && forall i :: 0 <= i < |exits| ==> exits[i].workerId in ids
    ensures GrantedToAll(exits, maxRestarts, restartWindow, from, to)
            == Shares(exits, ids, |ids|, maxRestarts, restartWindow, from, to)
  {
    hide GrantedIn, EntryAfter;
    if |exits| == 0 {
      NoShares(ids, |ids|, maxRestarts, restartWindow, from, to);
    } else {
      var p, e := exits[..|exits| - 1], exits[|exits| - 1];
      GrantsAreShares(p, ids, maxRestarts, restartWindow, from, to);
      assert exits == p + [e] && ids[..|ids|] == ids;
      assert exits[|exits| - 1].workerId in ids;
      ShareOfOneMore(p, e, ids, |ids|, maxRestarts, restartWindow, from, to);
      CountsByWorker(p, maxRestarts, restartWindow, e.workerId);
      hide Shares, CountsAfter, DistinctIds;
    }
  }

  ghost predicate InOrder(exits: seq<Exit>) {
    forall i, j :: 0 <= i < j < |exits| ==> exits[i].time <= exits[j].time
  }

  lemma {:induction false} TimesInOrder(exits: seq<Exit>, id: int)
    requires InOrder(exits)
    ensures NonDecreasing(TimesOf(exits, id))
    ensures forall i :: 0 <= i < |TimesOf(exits, id)| ==>
            exits != [] && TimesOf(exits, id)[i] <= exits[|exits| - 1].time
  {
    if |exits| > 0 {
      TimesInOrder(exits[..|exits| - 1], id);
    }
  }

  lemma {:induction false} SharesBound(exits: seq<Exit>, ids: seq<int>, n: nat, maxRestarts: int, restartWindow: int,
      from: int)
    requires n <= |ids| && InOrder(exits)
    ensures Shares(exits, ids, n, maxRestarts, restartWindow, from, from + restartWindow)
            <= n * (2 * Cap(maxRestarts) - 1)
    decreases n
  {
    if n > 0 {
      SharesBound(exits, ids, n - 1, maxRestarts, restartWindow, from);
      var times := TimesOf(exits, ids[n - 1]);
      TimesInOrder(exits, ids[n - 1]);
      RespawnsPerInterval(times, |times|, maxRestarts, restartWindow, from);
      hide GrantedIn;
      assert n * (2 * Cap(maxRestarts) - 1) == (n - 1) * (2 * Cap(maxRestarts) - 1) + (2 * Cap(maxRestarts) - 1);
    }
  }

  /** For all workers together: in a closed interval as long as the window at most (2 * max(1, maxRestarts) - 1)
      respawns are granted for each worker id that occurs. */
  lemma RespawnsOfAllWorkers(exits: seq<Exit>, ids: seq<int>, maxRestarts: int, restartWindow: int, from: int)
    requires InOrder(exits) && DistinctIds(ids) && forall i :: 0 <= i < |exits| ==> exits[i].workerId in ids
    ensures GrantedToAll(exits, maxRestarts, restartWindow, from, from + restartWindow)
            <= |ids| * (2 * Cap(maxRestarts) - 1)
  {
    GrantsAreShares(exits, ids, maxRestarts, restartWindow, from, from + restartWindow);
    SharesBound(exits, ids, |ids|, maxRestarts, restartWindow, from);
  }

  // ----- that bound is sharp -----

  /** At one time, the workers 0 to `workers` - 1 all exit. */
  function Round(time: int, workers: nat): seq<Exit> {
    if workers == 0 then [] else Round(time, workers - 1) + [Exit(workers - 1, time)]
  }

  function Rounds(times: seq<int>, workers: nat): seq<Exit> {
    if |times| == 0 then [] else Rounds(times[..|times| - 1], workers) + Round(times[|times| - 1], workers)
  }

  lemma {:induction false} TimesOfAppend(a: seq<Exit>, b: seq<Exit>, id: int)
    ensures TimesOf(a + b, id) == TimesOf(a, id) + TimesOf(b, id)
  {
    if |b| == 0 {
      assert a + b == a;
    } else {
      TimesOfAppend(a, b[..|b| - 1], id);
      assert (a + b)[..|a + b| - 1] == a + b[..|b| - 1];
    }
  }

  lemma {:induction false} RoundMembers(time: int, workers: nat)
    ensures forall i :: 0 <= i < |Round(time, workers)| ==>
              Round(time, workers)[i].time == time && 0 <= Round(time, workers)[i].workerId < workers
  {
    if workers > 0 { RoundMembers(time, workers - 1); }
  }

  lemma {:induction false} RoundTimes(time: int, workers: nat, id: int)
    ensures TimesOf(Round(time, workers), id) == if 0 <= id < workers then [time] else []
  {
    if workers > 0 {
      RoundTimes(time, workers - 1, id);
      OneExit(Round(time, workers - 1), Exit(workers - 1, time), id);
      hide TimesOf;
    }
  }

  lemma OneExit(exits: seq<Exit>, e: Exit, id: int)
    ensures TimesOf(exits + [e], id) == TimesOf(exits, id) + (if e.workerId == id then [e.time] else [])
  {
    assert (exits + [e])[..|exits|] == exits;
  }

  lemma {:induction false} RoundsTimes(times: seq<int>, workers: nat, id: int)
    requires NonDecreasing(times) && 0 <= id < workers
    ensures TimesOf(Rounds(times, workers), id) == times && InOrder(Rounds(times, workers))
    ensures forall i :: 0 <= i < |Rounds(times, workers)| ==>
              0 <= Rounds(times, workers)[i].workerId < workers
              && times != [] && Rounds(times, workers)[i].time <= times[|times| - 1]
  {
    if |times| > 0 {
      var p, t := times[..|times| - 1], times[|times| - 1];
      RoundsTimes(p, workers, id);
      RoundTimes(t, workers, id);
      RoundMembers(t, workers);
      TimesOfAppend(Rounds(p, workers), Round(t, workers), id);
      assert p + [t] == times;
      hide Round, TimesOf;
    }
  }

  lemma {:induction false} SharesOfRounds(times: seq<int>, workers: nat, ids: seq<int>, n: nat, maxRestarts: int,
                                          restartWindow: int, from: int)
    requires n <= |ids| <= workers && (forall k :: 0 <= k < |ids| ==> ids[k] == k)
    requires ReachesBound(times, from, maxRestarts, restartWindow)
    ensures Shares(Rounds(times, workers), ids, n, maxRestarts, restartWindow, from, from + restartWindow)
            == n * (2 * Cap(maxRestarts) - 1)
    decreases n
  {
    hide GrantedIn, Rounds;
    if n > 0 {
      SharesOfRounds(times, workers, ids, n - 1, maxRestarts, restartWindow, from);
      RoundsTimes(times, workers, n - 1);
      assert n * (2 * Cap(maxRestarts) - 1) == (n - 1) * (2 * Cap(maxRestarts) - 1) + (2 * Cap(maxRestarts) - 1);
    }
  }

  function Numbers(n: nat): (ids: seq<int>)
    ensures |ids| == n && forall k :: 0 <= k < n ==> ids[k] == k
  {
    seq(n, k => k)
  }

  /** For any number of workers and any window of positive length there are exits that reach it. */
  lemma AllWorkersReachBound(workers: nat, maxRestarts: int, restartWindow: int) returns (exits: seq<Exit>)
    requires restartWindow >= 1
    ensures InOrder(exits) && forall i :: 0 <= i < |exits| ==> 0 <= exits[i].workerId < workers
    ensures GrantedToAll(exits, maxRestarts, restartWindow, restartWindow, 2 * restartWindow)
            == workers * (2 * Cap(maxRestarts) - 1)
  {
    if workers == 0 {
      return [];
    }
    hide GrantedIn, GrantedToAll, Shares, Rounds, TimesOf;
    var times := PositiveWindowReaches(maxRestarts, restartWindow);
    var ids := Numbers(workers);
    assert NonDecreasing(times);
    hide ReachesBound, Numbers;
    exits := Rounds(times, workers);
    RoundsTimes(times, workers, 0);
    assert restartWindow + restartWindow == 2 * restartWindow;
    forall i | 0 <= i < |exits| ensures exits[i].workerId in ids {
      assert ids[exits[i].workerId] == exits[i].workerId;
    }
    GrantsAreShares(exits, ids, maxRestarts, restartWindow, restartWindow, 2 * restartWindow);
    SharesOfRounds(times, workers, ids, workers, maxRestarts, restartWindow, restartWindow);
  }
}
