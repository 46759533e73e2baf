/** Overlapping calls of `checkLimit` on one key: each of its commands is a step of its own. */
module RateLimiterCalls {
  import opened Text

  /** Where a call that began at `time` stands: its ZREMRANGEBYSCORE, its ZCARD with the answer, or its ZADD is done. */
  datatype Phase = Trimmed(time: int) | Counted(time: int, count: nat) | Added(time: int, count: nat)

  /** The members of the sorted set, one for each call that is in it, with their scores; and all calls so far. */
  datatype State = State(members: map<nat, int>, calls: map<nat, Phase>)

  /** `Gone` is the expiry or the deletion of the key; setting the time to live changes no member. */
  datatype Step = Trim(call: nat, time: int) | Card(call: nat) | Add(call: nat) | Gone

  const EMPTY: State := State(map[], map[])

  predicate Enabled(s: State, step: Step) {
    match step
    case Trim(call, _) => call !in s.calls && call !in s.members
    case Card(call) => call in s.calls && s.calls[call].Trimmed?
    case Add(call) => call in s.calls && s.calls[call].Counted?
    case Gone => true
  }

  function Next(s: State, step: Step, windowMs: int): State
    requires Enabled(s, step)
  {
    match step
    case Trim(call, time) =>
      State(map c | c in s.members && s.members[c] > time - windowMs :: s.members[c], s.calls[call := Trimmed(time)])
    case Card(call) => s.(calls := s.calls[call := Counted(s.calls[call].time, |s.members|)])
    case Add(call) =>
      State(s.members[call := s.calls[call].time], s.calls[call := Added(s.calls[call].time, s.calls[call].count)])
    case Gone => s.(members := map[])
  }

  function After(steps: seq<Step>, windowMs: int): State {
    if |steps| == 0 then EMPTY
    else
      var before := After(steps[..|steps| - 1], windowMs);
      if Enabled(before, steps[|steps| - 1]) then Next(before, steps[|steps| - 1], windowMs) else before
  }

  // ----- how many are admitted -----

  /** A limit and one interval (end - window, end]. */
  datatype Window = Window(maxRequests: int, windowMs: int, end: int)

  predicate Inside(p: Phase, w: Window) {
    w.end - w.windowMs < p.time <= w.end
  }

  /** `current <= limit` for the count it got. */
  predicate IsAdmitted(p: Phase, w: Window) {
    !p.Trimmed? && p.count + 1 <= w.maxRequests
  }

  function Admitted(s: State, w: Window): set<nat> {
    set c | c in s.calls && IsAdmitted(s.calls[c], w) && Inside(s.calls[c], w)
  }

  /** The admitted calls of the interval that a ZCARD would not count now. */
  function Unseen(s: State, w: Window): set<nat> {
    Admitted(s, w) - s.members.Keys
  }

  function Most(a: nat, b: nat): nat {
    if a > b then a else b
  }

  /** The largest number of unseen calls at a ZCARD that admits one of the interval. */
  function MostUnseen(steps: seq<Step>, w: Window): nat {
    if |steps| == 0 then 0
    else
      var before, step := After(steps[..|steps| - 1], w.windowMs), steps[|steps| - 1];
      Most(MostUnseen(steps[..|steps| - 1], w),
           if step.Card? && Enabled(before, step) && Inside(before.calls[step.call], w) then |Unseen(before, w)| else 0)
  }

  lemma SizeOfUnion(a: set<nat>, b: set<nat>)
    ensures |a + b| <= |a| + |b|
  {
    assert a + b == a + (b - a);
  }

  lemma {:induction false} SizeOfSubset(a: set<nat>, b: set<nat>)
    requires a <= b
    ensures |a| <= |b|
  {
    if a != {} {
      var x :| x in a;
      SizeOfSubset(a - {x}, b - {x});
    }
  }

  lemma {:induction false} KeysSize(m: map<nat, int>)
    ensures |m.Keys| == |m|
  {
  }

  /** A ZCARD that admits a call of the interval finds all admitted ones but the unseen. */
  lemma CardAdmits(s: State, call: nat, w: Window)
    requires Enabled(s, Card(call))
    ensures var t := Next(s, Card(call), w.windowMs);
            && Admitted(t, w) <= Admitted(s, w) + {call}
            && (call in Admitted(t, w) ==> |Admitted(t, w)| <= w.maxRequests + |Unseen(s, w)|)
  {
    var t := Next(s, Card(call), w.windowMs);
    if call in Admitted(t, w) {
      KeysSize(s.members);
      SizeOfUnion(s.members.Keys, Unseen(s, w));
      SizeOfSubset(Admitted(s, w), s.members.Keys + Unseen(s, w));
      SizeOfUnion(Admitted(s, w), {call});
      SizeOfSubset(Admitted(t, w), Admitted(s, w) + {call});
    }
  }

  lemma OthersAdmitNone(s: State, step: Step, w: Window)
    requires Enabled(s, step) && !step.Card?
    ensures Admitted(Next(s, step, w.windowMs), w) == Admitted(s, w)
  {
  }

  /** However calls overlap, in every interval of the window's length the admitted calls exceed the limit by at most the
      calls that some deciding ZCARD did not see. */
  lemma {:induction false} ExcessIsUnseen(steps: seq<Step>, w: Window)
    ensures |Admitted(After(steps, w.windowMs), w)|
            <= (if w.maxRequests > 0 then w.maxRequests else 0) + MostUnseen(steps, w)
  {
    hide Unseen;
    if |steps| > 0 {
      var before, step := After(steps[..|steps| - 1], w.windowMs), steps[|steps| - 1];
      ExcessIsUnseen(steps[..|steps| - 1], w);
      if Enabled(before, step) {
        if step.Card? {
          CardAdmits(before, step.call, w);
          var t := Next(before, step, w.windowMs);
          if step.call !in Admitted(t, w) { SizeOfSubset(Admitted(t, w), Admitted(before, w)); }
        } else {
          OthersAdmitNone(before, step, w);
        }
      }
      hide Admitted;
    }
  }

  // ----- what is unseen -----

  /** The calls between their ZCARD and their ZADD. */
  function Between(s: State, w: Window): set<nat> {
    set c | c in s.calls && s.calls[c].Counted? && Inside(s.calls[c], w)
  }

  /** No call that began after the interval has trimmed, and the key was never gone. */
  predicate NothingLost(steps: seq<Step>, w: Window) {
    forall k :: 0 <= k < |steps| ==> !steps[k].Gone? && (steps[k].Trim? ==> steps[k].time <= w.end)
  }

  /** An added call of the interval is in the set. */
  ghost predicate AddedAreMembers(s: State, w: Window) {
    forall c :: c in s.calls && s.calls[c].Added? && Inside(s.calls[c], w) ==>
      c in s.members && s.members[c] == s.calls[c].time
  }

  lemma AddedStay(s: State, step: Step, w: Window)
    requires AddedAreMembers(s, w) && Enabled(s, step) && !step.Gone? && (step.Trim? ==> step.time <= w.end)
    ensures AddedAreMembers(Next(s, step, w.windowMs), w)
  {
    var t := Next(s, step, w.windowMs);
    forall c | c in t.calls && t.calls[c].Added? && Inside(t.calls[c], w)
      ensures c in t.members && t.members[c] == t.calls[c].time
    {
      if step.Trim? {
        assert c in s.calls && s.calls[c] == t.calls[c];
      }
    }
  }

  lemma {:induction false} AddedAlways(steps: seq<Step>, w: Window)
    requires NothingLost(steps, w)
    ensures AddedAreMembers(After(steps, w.windowMs), w)
  {
    hide AddedAreMembers;
    if |steps| > 0 {
      AddedAlways(steps[..|steps| - 1], w);
      var before := After(steps[..|steps| - 1], w.windowMs);
      if Enabled(before, steps[|steps| - 1]) { AddedStay(before, steps[|steps| - 1], w); }
    } else {
      NoneAdded(w);
    }
  }

  lemma NoneAdded(w: Window)
    ensures AddedAreMembers(EMPTY, w)
  {
  }

  /** Then the unseen calls are among those between their ZCARD and their ZADD. */
  lemma UnseenAreBetween(steps: seq<Step>, w: Window)
    requires NothingLost(steps, w)
    ensures Unseen(After(steps, w.windowMs), w) <= Between(After(steps, w.windowMs), w)
  {
    AddedAlways(steps, w);
    hide After;
  }

  /** The largest number of calls of the interval that were between ZCARD and ZADD when another one did its ZCARD. */
  function MostBetween(steps: seq<Step>, w: Window): nat {
    if |steps| == 0 then 0
    else
      var before, step := After(steps[..|steps| - 1], w.windowMs), steps[|steps| - 1];
      Most(MostBetween(steps[..|steps| - 1], w),
           if step.Card? && Enabled(before, step) && Inside(before.calls[step.call], w)
           then |Between(before, w)| else 0)
  }

  lemma {:induction false} UnseenAtMostBetween(steps: seq<Step>, w: Window)
    requires NothingLost(steps, w)
    ensures MostUnseen(steps, w) <= MostBetween(steps, w)
  {
    hide Unseen, Between, After;
    if |steps| > 0 {
      var p := steps[..|steps| - 1];
      UnseenAtMostBetween(p, w);
      UnseenAreBetween(p, w);
      SizeOfSubset(Unseen(After(p, w.windowMs), w), Between(After(p, w.windowMs), w));
    }
  }

  /** As long as nothing is lost, the excess over the limit is at most the calls between their ZCARD and their ZADD;
      without overlap there is none. */
  lemma ExcessIsBetween(steps: seq<Step>, w: Window)
    requires NothingLost(steps, w)
    ensures |Admitted(After(steps, w.windowMs), w)|
            <= (if w.maxRequests > 0 then w.maxRequests else 0) + MostBetween(steps, w)
  {
    ExcessIsUnseen(steps, w);
    UnseenAtMostBetween(steps, w);
  }

  // ----- the excess happens -----

  /** `n` calls at one time that all trim and count before the first one adds. */
  function Crowd(n: nat, time: int): seq<Step> {
    if n == 0 then [] else Crowd(n - 1, time) + [Trim(n - 1, time)] + [Card(n - 1)]
  }

  lemma AfterMore(steps: seq<Step>, step: Step, windowMs: int)
    ensures var s := After(steps, windowMs);
            After(steps + [step], windowMs) == if Enabled(s, step) then Next(s, step, windowMs) else s
  {
    assert (steps + [step])[..|steps|] == steps;
  }

  /** The first `n` calls have all counted nothing. */
  ghost predicate IsCrowd(s: State, n: nat, time: int) {
    && s.members == map[] && (forall c: nat :: c in s.calls <==> c < n)
    && forall c :: c in s.calls ==> s.calls[c] == Counted(time, 0)
  }

  lemma CrowdGrows(s: State, n: nat, time: int, windowMs: int)
    requires IsCrowd(s, n, time)
    ensures Enabled(s, Trim(n, time)) && Enabled(Next(s, Trim(n, time), windowMs), Card(n))
    ensures IsCrowd(Next(Next(s, Trim(n, time), windowMs), Card(n), windowMs), n + 1, time)
  {
    assert n !in s.calls;
  }

  lemma {:induction false} CrowdState(n: nat, time: int, windowMs: int)
    ensures IsCrowd(After(Crowd(n, time), windowMs), n, time)
  {
    hide IsCrowd;
    if n > 0 {
      var p := Crowd(n - 1, time);
      CrowdState(n - 1, time, windowMs);
      CrowdGrows(After(p, windowMs), n - 1, time, windowMs);
      AfterMore(p, Trim(n - 1, time), windowMs);
      AfterMore(p + [Trim(n - 1, time)], Card(n - 1), windowMs);
      hide After, Next;
    } else {
      NoCrowd(time);
    }
  }

  lemma NoCrowd(time: int)
    ensures IsCrowd(EMPTY, 0, time)
  {
  }

  lemma {:induction false} FirstNumbers(n: nat, s: set<nat>)
    requires forall c: nat :: c in s <==> c < n
    ensures |s| == n
  {
    if n == 0 {
      assert s == {};
    } else {
      assert n - 1 in s;
      FirstNumbers(n - 1, s - {n - 1});
    }
  }

  /** Any number of calls at once are all admitted, with a limit of one. */
  lemma CrowdIsAdmitted(n: nat, time: int, windowMs: int)
    requires windowMs > 0
    ensures |Admitted(After(Crowd(n, time), windowMs), Window(1, windowMs, time))| == n
  {
    CrowdState(n, time, windowMs);
    var s, w := After(Crowd(n, time), windowMs), Window(1, windowMs, time);
    hide After;
    forall c: nat ensures c in Admitted(s, w) <==> c < n {
      assert c in s.calls <==> c < n;
    }
    FirstNumbers(n, Admitted(s, w));
  }

  /** Nor is that the only way: a call that begins after the interval trims an admitted member before a call of the
      interval counts; no call is between its ZCARD and its ZADD, and yet the limit of one is exceeded. */
  lemma LateTrimHides(time: int, windowMs: int)
    requires windowMs > 1
    ensures var end := time + windowMs - 1;
            var w := Window(1, windowMs, end);
            var s := After([Trim(0, time), Card(0), Add(0), Trim(1, end), Trim(2, end + 1)], windowMs);
            && Between(s, w) == {} && Unseen(s, w) == {0}
            && Enabled(s, Card(1)) && Admitted(Next(s, Card(1), windowMs), w) == {0, 1}
  {
    var end := time + windowMs - 1;
    TwoTrims(time, windowMs);
    hide After, Next;
    TrimmedAway(time, Window(1, windowMs, end));
    CardOne(State(map[], map[0 := Added(time, 0), 1 := Trimmed(end), 2 := Trimmed(end + 1)]), Window(1, windowMs, end));
  }

  lemma TrimmedAway(time: int, w: Window)
    requires w.windowMs > 1 && w.maxRequests == 1 && w.end == time + w.windowMs - 1
    ensures var s := State(map[], map[0 := Added(time, 0), 1 := Trimmed(w.end), 2 := Trimmed(w.end + 1)]);
            Admitted(s, w) == {0} && Between(s, w) == {} && Unseen(s, w) == {0}
  {
    var s := State(map[], map[0 := Added(time, 0), 1 := Trimmed(w.end), 2 := Trimmed(w.end + 1)]);
    assert Admitted(s, w) == {0};
  }

  lemma TwoTrims(time: int, windowMs: int)
    requires windowMs > 1
    ensures var end := time + windowMs - 1;
            After([Trim(0, time), Card(0), Add(0), Trim(1, end), Trim(2, end + 1)], windowMs)
            == State(map[], map[0 := Added(time, 0), 1 := Trimmed(end), 2 := Trimmed(end + 1)])
  {
    var end := time + windowMs - 1;
    OneAdded(time, windowMs);
    var steps := [Trim(0, time), Card(0), Add(0)];
    AfterMore(steps, Trim(1, end), windowMs);
    AfterMore(steps + [Trim(1, end)], Trim(2, end + 1), windowMs);
    assert steps + [Trim(1, end)] + [Trim(2, end + 1)]
        == [Trim(0, time), Card(0), Add(0), Trim(1, end), Trim(2, end + 1)];
    hide After;
    var one := State(map[0 := time], map[0 := Added(time, 0)]);
    var two := State(map[0 := time], map[0 := Added(time, 0), 1 := Trimmed(end)]);
    assert Next(one, Trim(1, end), windowMs).members == map[0 := time];
    assert Next(one, Trim(1, end), windowMs) == two;
    assert Next(two, Trim(2, end + 1), windowMs).members == map[];
  }

  lemma CardOne(s: State, w: Window)
    requires Enabled(s, Card(1)) && s.members == map[] && Admitted(s, w) == {0} && w.maxRequests == 1
    requires Inside(s.calls[1], w)
    ensures Admitted(Next(s, Card(1), w.windowMs), w) == {0, 1}
  {
    var t := Next(s, Card(1), w.windowMs);
    assert forall c :: c != 1 ==> (c in Admitted(t, w) <==> c in Admitted(s, w));
  }

  /** The first call is done. */
  lemma OneAdded(time: int, windowMs: int)
    ensures After([Trim(0, time), Card(0), Add(0)], windowMs) == State(map[0 := time], map[0 := Added(time, 0)])
  {
    assert [Trim(0, time), Card(0), Add(0)] == [] + [Trim(0, time)] + [Card(0)] + [Add(0)];
    AfterMore([], Trim(0, time), windowMs);
    AfterMore([] + [Trim(0, time)], Card(0), windowMs);
    AfterMore([] + [Trim(0, time)] + [Card(0)], Add(0), windowMs);
    assert After([], windowMs) == EMPTY;
    hide After;
    var s := State(map[], map[0 := Trimmed(time)]);
    assert Next(EMPTY, Trim(0, time), windowMs) == s;
    assert Next(s, Card(0), windowMs) == State(map[], map[0 := Counted(time, 0)]);
  }
}
