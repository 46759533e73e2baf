/** Backend selection: round robin, weighted draws, least connections and the 32-bit IP hash. */
module LoadBalancer {
  import opened JsInt
  import opened Text

  datatype Strategy = RoundRobin | LeastConnections | Weighted | IpHash

  /** A backend; its address and the time of its last health check play no part. */
  datatype Backend = Backend(id: string, weight: real, healthy: bool, active: nat, total: nat, failed: nat)

  // ----- the hash -----

  /** The sum of c_i * 31^(n-1-i) over the UTF-16 code units. */
  function Polynomial(units: seq<nat>): nat {
    if |units| == 0 then 0 else 31 * Polynomial(units[..|units| - 1]) + units[|units| - 1]
  }

  lemma PolynomialOfThree(a: nat, b: nat, c: nat)
    ensures Polynomial([a, b, c]) == a * 31 * 31 + b * 31 + c
  {
    var u := [a, b, c];
    assert u[..2] == [a, b] && [a, b][..1] == [a] && [a][..0] == [];
    assert Polynomial([]) == 0;
    assert Polynomial([a]) == a;
    assert Polynomial([a, b]) == 31 * a + b;
  }

  function Abs(x: int): nat {
    if x < 0 then -x else x
  }

  /** `simpleHash`: the absolute value of the signed 32-bit residue of the polynomial. */
  method SimpleHash(units: seq<nat>) returns (r: nat)
    ensures r == Abs(ToInt32(Polynomial(units)))
    ensures r <= TWO31
  {
    var hash := 0;
    for i := 0 to |units|
      invariant hash == ToInt32(Polynomial(units[..i]))
    {
      hide BitAnd, ShiftLeft, ToInt32;
      assert units[..i + 1][..i] == units[..i];
      HashStep(hash, Polynomial(units[..i]), units[i]);
      hash := ShiftLeft(hash, 5) - hash + units[i];
      hash := BitAnd(hash, hash);
    }
    assert units[..|units|] == units;
    return Abs(hash);
  }

  lemma HashStep(hash: int, value: nat, unit: nat)
    requires hash == ToInt32(value)
    ensures var next := ShiftLeft(hash, 5) - hash + unit;
            BitAnd(next, next) == ToInt32(31 * value + unit)
  {
    var next := ShiftLeft(hash, 5) - hash + unit;
    AndSelf(next);
    hide BitAnd;
    Pow2Values();
    assert 5 % 32 == 5;
    hide Pow2;
    assert ShiftLeft(hash, 5) == ToInt32(ToInt32(hash) * 32);
    hide ShiftLeft;
    TimesThirtyOne(value, unit);
  }

  lemma TimesThirtyOne(value: nat, unit: nat)
    ensures ToInt32(ToInt32(ToInt32(ToInt32(value)) * 32) - ToInt32(value) + unit) == ToInt32(31 * value + unit)
  {
    var h := ToInt32(value);
    WrapMultiple(value);
    WrapMultiple(h * 32);
    var a, b := (value - h) / TWO32, (h * 32 - ToInt32(h * 32)) / TWO32;
    assert ToInt32(h) == h;
    assert ToInt32(h * 32) - h + unit == 31 * value + unit - TWO32 * (31 * a + b);
    AddWraps(31 * value + unit, 31 * a + b);
  }

  /** Wrapping subtracts a multiple of 2^32. */
  lemma WrapMultiple(x: int)
    ensures x == ToInt32(x) + TWO32 * ((x - ToInt32(x)) / TWO32)
  {
  }

  lemma AddWraps(x: int, k: int)
    ensures ToInt32(x - TWO32 * k) == ToInt32(x)
  {
  }

  lemma AndSelf(x: int)
    ensures BitAnd(x, x) == ToInt32(x)
  {
    hide AndBits;
    AndBitsSelf(ToUint32(x));
  }

  // ----- the choices, as positions in the list of healthy backends -----

  function Healthy(backends: seq<Backend>): (r: seq<Backend>)
    ensures forall b :: b in r <==> b in backends && b.healthy
  {
    if |backends| == 0 then []
    else if backends[0].healthy then [backends[0]] + Healthy(backends[1..])
    else Healthy(backends[1..])
  }

  /** The healthy ones keep their order. */
  lemma {:induction false} HealthyIsFilter(a: seq<Backend>, b: seq<Backend>, c: Backend)
    ensures Healthy(a + b) == Healthy(a) + Healthy(b)
    ensures Healthy([c]) == if c.healthy then [c] else []
  {
    assert [c][1..] == [];
    if |a| == 0 {
      assert a + b == b;
    } else {
      assert (a + b)[1..] == a[1..] + b;
      HealthyIsFilter(a[1..], b, c);
    }
  }

  /** The sum of the first `k` weights. */
  function WeightBefore(backends: seq<Backend>, k: nat): real
    requires k <= |backends|
  {
    if k == 0 then 0.0 else WeightBefore(backends, k - 1) + backends[k - 1].weight
  }

  function TotalWeight(backends: seq<Backend>): real {
    WeightBefore(backends, |backends|)
  }

  /** The first backend at or after `k` whose cumulative weight reaches the draw; the first of all if none does. */
  function WeightedFrom(backends: seq<Backend>, draw: real, k: nat): (i: nat)
    requires k <= |backends| && backends != []
    ensures i < |backends|
    decreases |backends| - k
  {
    if k == |backends| then 0
    else if draw <= WeightBefore(backends, k + 1) then k
    else WeightedFrom(backends, draw, k + 1)
  }

  /** The first backend with the fewest active connections. */
  predicate IsLeast(backends: seq<Backend>, i: nat) {
    && i < |backends|
    && (forall j :: 0 <= j < |backends| ==> backends[i].active <= backends[j].active)
    && (forall j :: 0 <= j < i ==> backends[i].active < backends[j].active)
  }

  /** Which healthy backend a strategy must pick. */
  ghost predicate IsChoice(s: Strategy, backends: seq<Backend>, index: nat, clientIp: seq<nat>, random: real, i: nat)
    requires backends != []
  {
    match s
    case RoundRobin => i == index % |backends|
    case LeastConnections => IsLeast(backends, i)
    case Weighted => i == WeightedFrom(backends, random * TotalWeight(backends), 0)
    case IpHash => i == Abs(ToInt32(Polynomial(clientIp))) % |backends|
  }

  /** A backend as `registerBackend` stores it. */
  function Added(id: string, weight: real): Backend {
    Backend(id, weight, true, 0, 0, 0)
  }

  /** The register after `registerBackend`: a known id keeps its place and loses its counters. */
  function Registered(backends: seq<Backend>, id: string, weight: real): seq<Backend> {
    if |backends| == 0 then [Added(id, weight)]
    else if backends[0].id == id then [Added(id, weight)] + backends[1..]
    else [backends[0]] + Registered(backends[1..], id, weight)
  }

  function Started(b: Backend): Backend {
    b.(active := b.active + 1, total := b.total + 1)
  }

  function Completed(b: Backend, success: bool): Backend {
    b.(active := if b.active > 0 then b.active - 1 else 0, failed := if success then b.failed else b.failed + 1)
  }

  /** The balancer; `backends` lists the values of the source's map in its insertion order. */
  class Balancer {
    const strategy: Strategy
    var backends: seq<Backend>
    var currentIndex: nat

    ghost predicate Valid()
      reads this
    {
      forall i, j :: 0 <= i < j < |backends| ==> backends[i].id != backends[j].id
    }

    constructor (strategy: Strategy)
      ensures Valid() && this.strategy == strategy && backends == [] && currentIndex == 0
    {
      this.strategy, backends, currentIndex := strategy, [], 0;
    }

    method Find(id: string) returns (i: nat)
      ensures i <= |backends| && (i < |backends| ==> backends[i].id == id)
      ensures forall j :: 0 <= j < i ==> backends[j].id != id
    {
      i := 0;
      while i < |backends| && backends[i].id != id
        invariant i <= |backends| && forall j :: 0 <= j < i ==> backends[j].id != id
      {
        i := i + 1;
      }
    }

    method RegisterBackend(id: string, weight: real)
      requires Valid()
      modifies this`backends
      ensures Valid() && backends == Registered(old(backends), id, weight)
      ensures var known := exists i :: 0 <= i < |old(backends)| && old(backends)[i].id == id;
              && |backends| == (if known then |old(backends)| else |old(backends)| + 1)
              && (!known ==> backends[|old(backends)|] == Backend(id, weight, true, 0, 0, 0))
      ensures forall i :: 0 <= i < |old(backends)| ==>
                backends[i] == if old(backends)[i].id == id then Backend(id, weight, true, 0, 0, 0)
                               else old(backends)[i]
    {
      var i := Find(id);
      RegisteredAt(backends, id, weight, i);
      var added := Added(id, weight);
      backends := if i < |backends| then backends[i := added] else backends + [added];
    }

    method RecordRequestStart(id: string)
      requires Valid()
      modifies this`backends
      ensures Valid() && |backends| == |old(backends)|
      ensures forall i :: 0 <= i < |backends| ==>
                backends[i] == if old(backends)[i].id == id then Started(old(backends)[i]) else old(backends)[i]
      ensures forall i :: 0 <= i < |backends| && old(backends)[i].id == id ==>
                var b := old(backends)[i];
                backends[i] == Backend(id, b.weight, b.healthy, b.active + 1, b.total + 1, b.failed)
    {
      var i := Find(id);
      if i < |backends| {
        var b := backends[i];
        backends := backends[i := b.(active := b.active + 1, total := b.total + 1)];
      }
    }

    method RecordRequestComplete(id: string, success: bool)
      requires Valid()
      modifies this`backends
      ensures Valid() && |backends| == |old(backends)|
      ensures forall i :: 0 <= i < |backends| ==>
                backends[i] == if old(backends)[i].id == id then Completed(old(backends)[i], success)
                    else old(backends)[i]
      ensures forall i :: 0 <= i < |backends| && old(backends)[i].id == id ==>
                var b := old(backends)[i];
                && backends[i].active == (if b.active == 0 then 0 else b.active - 1)
                && backends[i] == Backend(id, b.weight, b.healthy, backends[i].active, b.total,
                                          if success then b.failed else b.failed + 1)
    {
      var i := Find(id);
      if i < |backends| {
        var b := backends[i];
        b := b.(active := if b.active - 1 > 0 then b.active - 1 else 0);
        if !success {
          b := b.(failed := b.failed + 1);
        }
        backends := backends[i := b];
      }
    }

    /** `getNextBackend`; `random` is the draw of `Math.random()`. */
    method GetNextBackend(clientIp: seq<nat>, random: real) returns (chosen: Option<Backend>)
      requires 0.0 <= random < 1.0
      modifies this`currentIndex
      ensures chosen.None? <==> Healthy(backends) == []
      ensures chosen.Some? ==> exists i: nat | i < |Healthy(backends)| ::
                chosen.value == Healthy(backends)[i]
                && IsChoice(strategy, Healthy(backends), old(currentIndex), clientIp, random, i)
      ensures currentIndex == old(currentIndex) + (if chosen.Some? && strategy.RoundRobin? then 1 else 0)
    {
      var healthy := Healthy(backends);
      if |healthy| == 0 {
        return None;
      }
      var i := ChooseIndex(healthy, clientIp, random);
      return Some(healthy[i]);
    }

    method ChooseIndex(healthy: seq<Backend>, clientIp: seq<nat>, random: real) returns (i: nat)
      requires healthy != []
      modifies this`currentIndex
      ensures i < |healthy| && IsChoice(strategy, healthy, old(currentIndex), clientIp, random, i)
      ensures currentIndex == old(currentIndex) + (if strategy.RoundRobin? then 1 else 0)
    {
      match strategy {
        case RoundRobin =>
          i := currentIndex % |healthy|;
          currentIndex := currentIndex + 1;
        case LeastConnections =>
          i := LeastConnectionsIndex(healthy);
        case Weighted =>
          i := WeightedIndex(healthy, random);
        case IpHash =>
          var hash := SimpleHash(clientIp);
          i := hash % |healthy|;
      }
    }
  }

  lemma {:induction false} RegisteredAt(backends: seq<Backend>, id: string, weight: real, i: nat)
    requires i <= |backends| && (i < |backends| ==> backends[i].id == id)
    requires forall j :: 0 <= j < i ==> backends[j].id != id
    ensures var added := Added(id, weight);
            Registered(backends, id, weight) == if i < |backends| then backends[i := added] else backends + [added]
    decreases i
  {
    if i > 0 { RegisteredAt(backends[1..], id, weight, i - 1); }
  }

  /** `leastConnections`: a reduction that keeps the earlier backend on a tie. */
  method LeastConnectionsIndex(backends: seq<Backend>) returns (min: nat)
    requires backends != []
    ensures IsLeast(backends, min)
  {
    min := 0;
    for i := 1 to |backends|
      invariant IsLeast(backends[..i], min)
    {
      if backends[i].active < backends[min].active {
        min := i;
      }
    }
    assert backends[..|backends|] == backends;
  }

  /** `weighted`: subtracts the weights one after the other from `Math.random() * totalWeight`. */
  method WeightedIndex(backends: seq<Backend>, random: real) returns (i: nat)
    requires backends != []
    ensures i == WeightedFrom(backends, random * TotalWeight(backends), 0)
  {
    var totalWeight := 0.0;
    for k := 0 to |backends|
      invariant totalWeight == WeightBefore(backends, k)
    {
      totalWeight := totalWeight + backends[k].weight;
    }
    assert totalWeight == TotalWeight(backends);
    ghost var draw := random * TotalWeight(backends);
    var rest := random * totalWeight;
    for k := 0 to |backends|
      invariant rest == draw - WeightBefore(backends, k)
      invariant WeightedFrom(backends, draw, 0) == WeightedFrom(backends, draw, k)
    {
      rest := rest - backends[k].weight;
      if rest <= 0.0 {
        return k;
      }
    }
    return 0;
  }

  // ----- fairness -----

  lemma WeightMonotone(backends: seq<Backend>, j: nat, k: nat)
    requires j <= k <= |backends| && forall i :: 0 <= i < |backends| ==> backends[i].weight >= 0.0
    ensures WeightBefore(backends, j) <= WeightBefore(backends, k)
    decreases k - j
  {
    if j < k { WeightMonotone(backends, j, k - 1); }
  }

  lemma {:induction false} WeightedFromFinds(backends: seq<Backend>, draw: real, k: nat, i: nat)
    requires forall j :: 0 <= j < |backends| ==> backends[j].weight >= 0.0
    requires k <= i < |backends| && WeightBefore(backends, i) < draw <= WeightBefore(backends, i + 1)
    ensures WeightedFrom(backends, draw, k) == i
    decreases i - k
  {
    if k < i {
      WeightMonotone(backends, k + 1, i);
      WeightedFromFinds(backends, draw, k + 1, i);
    }
  }

  /** A positive draw up to the total weight lies in the interval of exactly one backend. */
  lemma {:induction false} DrawHasInterval(backends: seq<Backend>, draw: real, n: nat) returns (i: nat)
    requires n <= |backends| && 0.0 < draw <= WeightBefore(backends, n)
    ensures i < n && WeightBefore(backends, i) < draw <= WeightBefore(backends, i + 1)
    decreases n
  {
    if draw <= WeightBefore(backends, n - 1) {
      i := DrawHasInterval(backends, draw, n - 1);
    } else {
      i := n - 1;
    }
  }

  /** No weight is left to subtract, and the draw is still positive. */
  predicate FallsThrough(backends: seq<Backend>, draw: real) {
    forall k :: 0 < k <= |backends| ==> draw > WeightBefore(backends, k)
  }

  /** Weighted fairness: a positive draw up to the total picks a backend exactly when it lies in the interval of its
      own weight; the draw 0 picks the first backend, even at weight 0; the fallback at the end of the loop is never
      reached. */
  lemma WeightedIsProportional(backends: seq<Backend>, draw: real, i: nat)
    requires forall j :: 0 <= j < |backends| ==> backends[j].weight >= 0.0
    requires i < |backends| && 0.0 <= draw <= TotalWeight(backends)
    ensures WeightedFrom(backends, draw, 0) == i
            <==> if draw == 0.0 then i == 0 else WeightBefore(backends, i) < draw <= WeightBefore(backends, i + 1)
    ensures WeightBefore(backends, i + 1) - WeightBefore(backends, i) == backends[i].weight
    ensures !FallsThrough(backends, draw)
  {
    if draw == 0.0 {
      assert WeightBefore(backends, 1) == backends[0].weight;
      return;
    }
    var k := DrawHasInterval(backends, draw, |backends|);
    WeightedFromFinds(backends, draw, 0, k);
    if WeightBefore(backends, i) < draw <= WeightBefore(backends, i + 1) {
      WeightedFromFinds(backends, draw, 0, i);
    }
  }

  /** How often backend `j` of `n` is picked in `picks` round-robin picks from `start`. */
  function TimesPicked(start: nat, picks: nat, n: nat, j: nat): nat
    requires n > 0
  {
    if picks == 0 then 0
    else TimesPicked(start, picks - 1, n, j) + (if (start + picks - 1) % n == j then 1 else 0)
  }

  lemma NextRemainder(x: nat, n: nat)
    requires n > 0
    ensures (x + 1) % n == if x % n == n - 1 then 0 else x % n + 1
    ensures (x + 1) / n == if x % n == n - 1 then x / n + 1 else x / n
  {
    var q, r := x / n, x % n;
    assert x + 1 == n * q + (r + 1);
    if r == n - 1 {
      assert n * (q + 1) == n * q + n;
      DivModUnique(x + 1, n, q + 1, 0);
    } else {
      DivModUnique(x + 1, n, q, r + 1);
    }
  }

  /** Where a pick lands, relative to the first one. */
  lemma {:induction false} PickOffset(start: nat, k: nat, n: nat)
    requires n > 0
    ensures (start + k) % n == if start % n + k % n < n then start % n + k % n else start % n + k % n - n
    decreases k
  {
    if k == 0 {
      DivModUnique(0, n, 0, 0);
    } else {
      PickOffset(start, k - 1, n);
      NextRemainder(start + k - 1, n);
      NextRemainder(k - 1, n);
    }
  }

  /** The distance from the position of `start` forward to `j`, around the list. */
  function Distance(start: nat, n: nat, j: nat): nat
    requires j < n
  {
    if start % n <= j then j - start % n else j + n - start % n
  }

  lemma {:induction false} TimesPickedValue(start: nat, picks: nat, n: nat, j: nat)
    requires j < n
    ensures TimesPicked(start, picks, n, j) == picks / n + (if picks % n > Distance(start, n, j) then 1 else 0)
    decreases picks
  {
    if picks == 0 {
      DivModUnique(0, n, 0, 0);
    } else {
      TimesPickedValue(start, picks - 1, n, j);
      PickOffset(start, picks - 1, n);
      NextRemainder(picks - 1, n);
    }
  }

  /** Round-robin fairness: over an unchanged list, `n` consecutive picks hit every backend exactly once, and after
      any number of picks two backends differ by at most one. */
  lemma RoundRobinIsFair(start: nat, picks: nat, n: nat, i: nat, j: nat)
    requires i < n && j < n
    ensures TimesPicked(start, n, n, i) == 1
    ensures -1 <= TimesPicked(start, picks, n, i) - TimesPicked(start, picks, n, j) <= 1
  {
    TimesPickedValue(start, picks, n, i);
    TimesPickedValue(start, picks, n, j);
    TimesPickedValue(start, n, n, i);
    DivModUnique(n, n, 1, 0);
  }

  ghost predicate DistinctIds(backends: seq<Backend>) {
    forall i, j :: 0 <= i < j < |backends| ==> backends[i].id != backends[j].id
  }

  /** What `picks` consecutive picks from an unchanged list give, the index being `start` before the first. */
  function PickedFrom(healthy: seq<Backend>, start: nat, picks: nat): (chosen: seq<Backend>)
    requires healthy != []
    ensures |chosen| == picks
  {
    if picks == 0 then []
    else PickedFrom(healthy, start, picks - 1) + [healthy[(start + picks - 1) % |healthy|]]
  }

  lemma {:induction false} PicksCounted(healthy: seq<Backend>, start: nat, picks: nat, j: nat)
    requires j < |healthy| && DistinctIds(healthy)
    ensures multiset(PickedFrom(healthy, start, picks))[healthy[j]] == TimesPicked(start, picks, |healthy|, j)
    decreases picks
  {
    if picks > 0 {
      PicksCounted(healthy, start, picks - 1, j);
      var last := (start + picks - 1) % |healthy|;
      assert healthy[last] == healthy[j] <==> last == j;
    }
  }

  lemma {:induction false} HealthyIsDistinct(backends: seq<Backend>)
    requires DistinctIds(backends)
    ensures DistinctIds(Healthy(backends))
  {
    if |backends| > 0 {
      HealthyIsDistinct(backends[1..]);
      var rest := Healthy(backends[1..]);
      forall j | 0 <= j < |rest| ensures rest[j].id != backends[0].id {
        assert rest[j] in backends[1..];
      }
    }
  }

  /** Each healthy backend exactly once in as many picks as there are, and over any number of picks two of them differ
      by at most one. */
  ghost predicate IsFair(healthy: seq<Backend>, chosen: seq<Backend>) {
    forall b, c :: b in healthy && c in healthy ==>
      && (|chosen| == |healthy| ==> multiset(chosen)[b] == 1)
      && multiset(chosen)[b] <= multiset(chosen)[c] + 1
  }

  lemma PicksAreFair(healthy: seq<Backend>, start: nat, picks: nat)
    requires healthy != [] && DistinctIds(healthy)
    ensures IsFair(healthy, PickedFrom(healthy, start, picks))
  {
    var chosen := PickedFrom(healthy, start, picks);
    hide PickedFrom, TimesPicked;
    forall b, c | b in healthy && c in healthy
      ensures |chosen| == |healthy| ==> multiset(chosen)[b] == 1
      ensures multiset(chosen)[b] <= multiset(chosen)[c] + 1
    {
      var i: nat :| i < |healthy| && healthy[i] == b;
      var j: nat :| j < |healthy| && healthy[j] == c;
      PicksCounted(healthy, start, picks, i);
      PicksCounted(healthy, start, picks, j);
      RoundRobinIsFair(start, picks, |healthy|, i, j);
    }
  }

  lemma NothingPicked(healthy: seq<Backend>, start: nat)
    requires healthy != []
    ensures PickedFrom(healthy, start, 0) == []
  {
  }

  /** What the contract of one pick says of round robin. */
  lemma OnePick(healthy: seq<Backend>, start: nat, k: nat, clientIp: seq<nat>, random: real, next: Backend)
    requires healthy != []
    requires exists i: nat | i < |healthy| ::
               next == healthy[i] && IsChoice(RoundRobin, healthy, start + k, clientIp, random, i)
    ensures PickedFrom(healthy, start, k + 1) == PickedFrom(healthy, start, k) + [next]
  {
  }

  /** A caller that asks `picks` times in a row, the backends and their health unchanged, is served fairly. */
  method ConsecutivePicks(b: Balancer, clientIp: seq<nat>, random: real, picks: nat) returns (chosen: seq<Backend>)
    requires b.Valid() && b.strategy == RoundRobin && Healthy(b.backends) != [] && 0.0 <= random < 1.0
    modifies b`currentIndex
    ensures chosen == PickedFrom(Healthy(b.backends), old(b.currentIndex), picks)
    ensures IsFair(Healthy(b.backends), chosen)
  {
    hide IsFair, IsChoice, PickedFrom;
    ghost var start, healthy := b.currentIndex, Healthy(b.backends);
    HealthyIsDistinct(b.backends);
    PicksAreFair(healthy, start, picks);
    hide Healthy;
    chosen := [];
    assert chosen == PickedFrom(healthy, start, 0) by { NothingPicked(healthy, start); }
    for k := 0 to picks
      invariant b.currentIndex == start + k
      invariant chosen == PickedFrom(healthy, start, k)
    {
      var next := b.GetNextBackend(clientIp, random);
      OnePick(healthy, start, k, clientIp, random, next.value);
      chosen := chosen + [next.value];
    }
  }

  // ----- request accounting -----

  /** One recorded event of a backend: a start, a completion, or a registration of the same id again. */
  datatype RequestEvent = Start | Complete(success: bool) | Register(weight: real)

  function AfterEvents(b: Backend, events: seq<RequestEvent>): Backend {
    if |events| == 0 then b
    else
      var before := AfterEvents(b, events[..|events| - 1]);
      match events[|events| - 1]
      case Start => Started(before)
      case Complete(success) => Completed(before, success)
      case Register(weight) => Added(before.id, weight)
  }

  /** The requests in flight: those at first, plus the started minus the completed ones; a registration ends none. */
  function InFlight(b: Backend, events: seq<RequestEvent>): int {
    if |events| == 0 then b.active
    else
      InFlight(b, events[..|events| - 1])
      + (match events[|events| - 1] case Start => 1 case Complete(_) => -1 case Register(_) => 0)
  }

  predicate ShowsInFlight(b: Backend, events: seq<RequestEvent>) {
    AfterEvents(b, events).active == InFlight(b, events) && (|events| > 0 ==> ShowsInFlight(b, events[..|events| - 1]))
  }

  /** No completion comes without a request in flight, and no registration while there is one. */
  predicate Accounted(b: Backend, events: seq<RequestEvent>) {
    |events| > 0 ==>
      && Accounted(b, events[..|events| - 1])
      && (match events[|events| - 1]
          case Start => true
          case Complete(_) => InFlight(b, events[..|events| - 1]) > 0
          case Register(_) => InFlight(b, events[..|events| - 1]) == 0)
  }

  /** The active counter shows the requests in flight all along exactly when no completion comes without one and the
      id is registered again only while there is none. */
  lemma {:induction false} ActiveShowsInFlightIff(b: Backend, events: seq<RequestEvent>)
    ensures ShowsInFlight(b, events) <==> Accounted(b, events)
  {
    if |events| > 0 { ActiveShowsInFlightIff(b, events[..|events| - 1]); }
  }

  /** Without a new registration the counter is never too low, and it is right at the end exactly when no completion
      came without a request in flight. */
  lemma {:induction false} ActiveIsBalanceIff(b: Backend, events: seq<RequestEvent>)
    requires forall k :: 0 <= k < |events| ==> !events[k].Register?
    ensures AfterEvents(b, events).active >= InFlight(b, events)
    ensures AfterEvents(b, events).active == InFlight(b, events)
            <==> forall k :: 0 <= k <= |events| ==> InFlight(b, events[..k]) >= 0
  {
    if |events| == 0 {
      assert forall k :: 0 <= k <= 0 ==> events[..k] == [];
    } else {
      var p := events[..|events| - 1];
      ActiveIsBalanceIff(b, p);
      assert forall k :: 0 <= k <= |p| ==> events[..k] == p[..k];
      assert events[..|events|] == events;
    }
  }

  /** Registering an id with a request in flight makes the counter too low, once the next request starts and one of the
      two ends: no completion here is without a start. */
  lemma RegistrationHidesRequest(b: Backend, weight: real)
    requires b.active == 0
    ensures var events := [Start, Register(weight), Start, Complete(true)];
            AfterEvents(b, events).active == 0 && InFlight(b, events) == 1
  {
    var e := [Start, Register(weight), Start, Complete(true)];
    assert e[..3] == [Start, Register(weight), Start] && e[..3][..2] == [Start, Register(weight)];
    assert e[..3][..2][..1] == [Start] && [Start][..0] == [];
    assert AfterEvents(b, [Start]).active == 1 && InFlight(b, [Start]) == 1;
    assert AfterEvents(b, e[..3][..2]).active == 0 && InFlight(b, e[..3][..2]) == 1;
    assert AfterEvents(b, e[..3]).active == 1 && InFlight(b, e[..3]) == 2;
  }
}
