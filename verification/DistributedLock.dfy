/** The Redis lock: SET NX PX, compare-and-delete, compare-and-extend, and mutual exclusion of `withLock` bodies. */
module DistributedLock {
  import opened Text

  /** The value and the expiry of a lock key. */
  datatype Entry = Entry(value: nat, expireAt: int)

  type Store = map<string, Entry>

  datatype SetReply = OK | Nil | ServerError

  // ----- the three commands of the source, as Redis runs them -----

  /** `SET key value PX ttl NX`; Redis refuses a time to live that is not positive. */
  function SetNxPx(store: Store, now: int, key: string, value: nat, ttl: int): (Store, SetReply) {
    if ttl <= 0 then (store, ServerError)
    else if key in store then (store, Nil)
    else (store[key := Entry(value, now + ttl)], OK)
  }

  /** The script of `release`. */
  function DeleteIfEqual(store: Store, key: string, value: nat): (Store, int) {
    if key in store && store[key].value == value then (store - {key}, 1) else (store, 0)
  }

  /** The script of `extend`; `pexpire` with a time that is not positive deletes the key and answers 1. */
  function ExtendIfEqual(store: Store, now: int, key: string, value: nat, ttl: int): (Store, int) {
    if key !in store || store[key].value != value then (store, 0)
    else if ttl <= 0 then (store - {key}, 1)
    else (store[key := Entry(value, now + ttl)], 1)
  }

  /** What may happen at the server between two commands of one client: time passes, Redis notices an expired key
      (at its time or later), other clients send commands. */
  datatype Env =
    | Tick(ms: nat)
    | Expire(key: string)
    | OtherSet(key: string, value: nat, ttl: int)
    | OtherDelete(key: string, value: nat)
    | OtherExtend(key: string, value: nat, ttl: int)

  datatype Server = Server(store: Store, now: int)

  function EnvStep(s: Server, e: Env): Server {
    match e
    case Tick(ms) => s.(now := s.now + ms)
    case Expire(key) => if key in s.store && s.store[key].expireAt <= s.now then s.(store := s.store - {key}) else s
    case OtherSet(key, value, ttl) => s.(store := SetNxPx(s.store, s.now, key, value, ttl).0)
    case OtherDelete(key, value) => s.(store := DeleteIfEqual(s.store, key, value).0)
    case OtherExtend(key, value, ttl) => s.(store := ExtendIfEqual(s.store, s.now, key, value, ttl).0)
  }

  function EnvSteps(s: Server, es: seq<Env>): Server {
    if |es| == 0 then s else EnvStep(EnvSteps(s, es[..|es| - 1]), es[|es| - 1])
  }

  // ----- what a release and an extension leave behind, key by key -----

  /** All keys but one are as they were. */
  ghost predicate OnlyKey(before: Store, after: Store, key: string) {
    forall k :: k != key ==> (k in after <==> k in before) && (k in before ==> after[k] == before[k])
  }

  /** `released` says whether the caller held the key; then it is free, and otherwise nothing happened. */
  ghost predicate Freed(before: Store, after: Store, key: string, value: nat, released: bool) {
    && (released <==> key in before && before[key].value == value)
    && (released ==> key !in after && OnlyKey(before, after, key))
    && (!released ==> after == before)
  }

  /** `extended` says whether the caller held the key; then it expires `ttl` from now under the same value, or is gone
      if that is not in the future, and otherwise nothing happened. */
  ghost predicate Prolonged(before: Server, after: Store, key: string, value: nat, ttl: int, extended: bool) {
    && (extended <==> key in before.store && before.store[key].value == value)
    && (extended ==> OnlyKey(before.store, after, key) && (key in after <==> ttl > 0))
    && (extended && ttl > 0 ==> after[key].value == value && after[key].expireAt == before.now + ttl)
    && (!extended ==> after == before.store)
  }

  /** A release of a held lock frees it for anyone, and the store is as if the lock had never been taken. */
  lemma ReleaseLetsOthersIn(store: Store, now: int, key: string, value: nat, other: nat, ttl: int)
    requires key in store && store[key].value == value && ttl > 0
    ensures SetNxPx(store, now, key, other, ttl) == (store, Nil)
    ensures var after := DeleteIfEqual(store, key, value).0;
            SetNxPx(after, now, key, other, ttl).1 == OK
            && SetNxPx(after, now, key, other, ttl).0[key] == Entry(other, now + ttl)
  {
  }

  function Extended(store: Store, now: int, key: string, value: nat, extensions: seq<nat>): Store {
    if |extensions| == 0 then store
    else ExtendIfEqual(Extended(store, now, key, value, extensions[..|extensions| - 1]), now, key, value,
                       extensions[|extensions| - 1]).0
  }

  /** Taking a free lock, extending it any number of times and releasing it restores the store. */
  lemma {:induction false} LockRoundTrip(store: Store, now: int, key: string, value: nat, ttl: int,
                                         extensions: seq<nat>)
    requires key !in store && ttl > 0 && forall i :: 0 <= i < |extensions| ==> extensions[i] > 0
    ensures DeleteIfEqual(Extended(SetNxPx(store, now, key, value, ttl).0, now, key, value, extensions), key, value)
            == (store, 1)
  {
    var taken := SetNxPx(store, now, key, value, ttl).0;
    ExtendedKeeps(taken, now, key, value, extensions);
    var last := Extended(taken, now, key, value, extensions);
    assert last - {key} == store;
  }

  lemma {:induction false} ExtendedKeeps(store: Store, now: int, key: string, value: nat, extensions: seq<nat>)
    requires key in store && store[key].value == value && forall i :: 0 <= i < |extensions| ==> extensions[i] > 0
    ensures var after := Extended(store, now, key, value, extensions);
            key in after && after[key].value == value && OnlyKey(store, after, key)
  {
    if |extensions| > 0 {
      ExtendedKeeps(store, now, key, value, extensions[..|extensions| - 1]);
    }
  }

  // ----- the client -----

  /** What befalls a command on its way. */
  datatype Fault = Delivered | RequestLost | ReplyLost

  /** One attempt of `acquire`: the fault of its command, and the environment up to the next attempt. */
  datatype Attempt = Attempt(fault: Fault, during: seq<Env>)

  datatype LockInfo = LockInfo(value: nat, acquiredAt: int, expiresAt: int)

  datatype Outcome = Acquired | NotAcquired | Threw

  /** The server and the outcome of `acquire` from attempt `attempt` on. */
  function AcquireFrom(s: Server, key: string, value: nat, ttl: int, retries: int, world: nat -> Attempt, attempt: nat)
    : (Server, Outcome)
    decreases retries - attempt
  {
    if attempt > retries then (s, NotAcquired)
    else
      var (store, reply) := SetNxPx(s.store, s.now, key, value, ttl);
      var after := if world(attempt).fault == RequestLost then s else s.(store := store);
      var failed := world(attempt).fault != Delivered || reply == ServerError;
      if !failed && reply == OK then (after, Acquired)
      else if attempt == retries then (after, if failed then Threw else NotAcquired)
      else AcquireFrom(EnvSteps(after, world(attempt).during), key, value, ttl, retries, world, attempt + 1)
  }

  /** Redis as one client sees it. */
  class Redis {
    var state: Server

    constructor (now: int)
      ensures state == Server(map[], now)
    {
      state := Server(map[], now);
    }

    method Set(key: string, value: nat, ttl: int, fault: Fault) returns (reply: SetReply)
      modifies this
      ensures var (store, r) := SetNxPx(old(state).store, old(state).now, key, value, ttl);
              && state == (if fault == RequestLost then old(state) else old(state).(store := store))
              && reply == (if fault == Delivered then r else ServerError)
    {
      if fault == RequestLost {
        return ServerError;
      }
      if ttl <= 0 {
        return ServerError;
      }
      if key in state.store {
        reply := Nil;
      } else {
        state := state.(store := state.store[key := Entry(value, state.now + ttl)]);
        reply := OK;
      }
      if fault == ReplyLost {
        reply := ServerError;
      }
    }

    method Pass(es: seq<Env>)
      modifies this
      ensures state == EnvSteps(old(state), es)
    {
      state := EnvSteps(state, es);
    }

    method EvalRelease(key: string, value: nat) returns (result: int)
      modifies this
      ensures (state, result) == (old(state).(store := DeleteIfEqual(old(state).store, key, value).0),
                                  DeleteIfEqual(old(state).store, key, value).1)
    {
      var (store, r) := DeleteIfEqual(state.store, key, value);
      state := state.(store := store);
      result := r;
    }

    method EvalExtend(key: string, value: nat, ttl: int) returns (result: int)
      modifies this
      ensures (state, result)
              == (old(state).(store := ExtendIfEqual(old(state).store, old(state).now, key, value, ttl).0),
                                  ExtendIfEqual(old(state).store, old(state).now, key, value, ttl).1)
    {
      var (store, r) := ExtendIfEqual(state.store, state.now, key, value, ttl);
      state := state.(store := store);
      result := r;
    }
  }

  class Lock {
    const redis: Redis
    var locks: map<string, LockInfo>

    constructor (redis: Redis)
      ensures this.redis == redis && locks == map[]
    {
      this.redis, locks := redis, map[];
    }

    /** `acquire`: retries after a busy lock and after an error, and throws when the last attempt fails. */
    method Acquire(resource: string, lockValue: nat, ttl: int, retries: int, world: nat -> Attempt)
      returns (outcome: Outcome)
      modifies this, redis
      ensures (redis.state, outcome)
              == AcquireFrom(old(redis.state), "lock:" + resource, lockValue, ttl, retries, world, 0)
      ensures locks == if outcome == Acquired
                then old(locks)[resource := LockInfo(lockValue, redis.state.now, redis.state.now + ttl)] else old(locks)
    {
      var lockKey := "lock:" + resource;
      var attempt := 0;
      while attempt <= retries
        invariant attempt >= 0 && locks == old(locks)
        invariant AcquireFrom(redis.state, lockKey, lockValue, ttl, retries, world, attempt)
                  == AcquireFrom(old(redis.state), lockKey, lockValue, ttl, retries, world, 0)
      {
        var result := redis.Set(lockKey, lockValue, ttl, world(attempt).fault);
        if result == OK {
          var now := redis.state.now;
          locks := locks[resource := LockInfo(lockValue, now, now + ttl)];
          return Acquired;
        }
        if result == ServerError && attempt == retries {
          return Threw;
        }
        if attempt < retries {
          redis.Pass(world(attempt).during);
        }
        attempt := attempt + 1;
      }
      return NotAcquired;
    }

    method Release(resource: string, lockValue: nat) returns (released: bool)
      modifies this, redis
      ensures var (store, r) := DeleteIfEqual(old(redis.state).store, "lock:" + resource, lockValue);
              redis.state == old(redis.state).(store := store) && released == (r == 1)
      ensures Freed(old(redis.state).store, redis.state.store, "lock:" + resource, lockValue, released)
      ensures locks == if released then old(locks) - {resource} else old(locks)
    {
      var lockKey := "lock:" + resource;
      var result := redis.EvalRelease(lockKey, lockValue);
      if result == 1 {
        locks := locks - {resource};
        return true;
      }
      return false;
    }

    method Extend(resource: string, lockValue: nat, additionalTtl: int) returns (extended: bool)
      modifies this, redis
      ensures var (store, r) :=
              ExtendIfEqual(old(redis.state).store, old(redis.state).now, "lock:" + resource, lockValue,
                                              additionalTtl);
              redis.state == old(redis.state).(store := store) && extended == (r == 1)
      ensures Prolonged(old(redis.state), redis.state.store, "lock:" + resource, lockValue, additionalTtl, extended)
      ensures locks == if extended && resource in old(locks)
                then old(locks)[resource := old(locks)[resource].(expiresAt := redis.state.now + additionalTtl)]
                else old(locks)
    {
      var lockKey := "lock:" + resource;
      var result := redis.EvalExtend(lockKey, lockValue, additionalTtl);
      if result == 1 {
        if resource in locks {
          var lockInfo := locks[resource];
          locks := locks[resource := lockInfo.(expiresAt := redis.state.now + additionalTtl)];
        }
        return true;
      }
      return false;
    }
  }

  /** An acquired lock is in the store under the caller's value, for the full time to live from that moment. */
  lemma {:induction false} AcquiredIsStored(s: Server, key: string, value: nat, ttl: int, retries: int,
                                            world: nat -> Attempt, attempt: nat)
    ensures var (after, outcome) := AcquireFrom(s, key, value, ttl, retries, world, attempt);
            outcome == Acquired ==> ttl > 0 && key in after.store && after.store[key] == Entry(value, after.now + ttl)
    decreases retries - attempt
  {
    if attempt <= retries {
      var (store, reply) := SetNxPx(s.store, s.now, key, value, ttl);
      var after := if world(attempt).fault == RequestLost then s else s.(store := store);
      AcquiredIsStored(EnvSteps(after, world(attempt).during), key, value, ttl, retries, world, attempt + 1);
    }
  }

  /** The server after the SET of one attempt: a lost request, a time to live that is not positive and a held key change
      nothing. */
  function AfterAttempt(s: Server, key: string, value: nat, ttl: int, fault: Fault): Server {
    if fault == RequestLost || ttl <= 0 || key in s.store then s
    else s.(store := s.store[key := Entry(value, s.now + ttl)])
  }

  /** The server that attempt `k` meets, when the ones before it failed. */
  function Met(s: Server, key: string, value: nat, ttl: int, world: nat -> Attempt, k: nat): Server {
    if k == 0 then s
    else EnvSteps(AfterAttempt(Met(s, key, value, ttl, world, k - 1), key, value, ttl, world(k - 1).fault),
                  world(k - 1).during)
  }

  /** Attempt `k` succeeds: its command and the reply arrive, and the key is free. */
  predicate Succeeds(s: Server, key: string, value: nat, ttl: int, world: nat -> Attempt, k: nat) {
    world(k).fault == Delivered && ttl > 0 && key !in Met(s, key, value, ttl, world, k).store
  }

  /** Attempt `k` ends with an error. */
  predicate Errs(ttl: int, world: nat -> Attempt, k: nat) {
    world(k).fault != Delivered || ttl <= 0
  }

  /** `acquire` with any faults: it succeeds exactly when one of the `retries + 1` attempts does, throws exactly when
      none does and the last one ends with an error, and returns null otherwise; the server is as the last attempt left
      it. */
  lemma {:induction false} AcquireOutcomeIff(s: Server, key: string, value: nat, ttl: int, retries: int,
                                             world: nat -> Attempt, attempt: nat)
    requires attempt <= retries
    ensures var (after, outcome) :=
              AcquireFrom(Met(s, key, value, ttl, world, attempt), key, value, ttl, retries, world, attempt);
            && (outcome == Acquired
                <==> exists k: nat :: attempt <= k <= retries && Succeeds(s, key, value, ttl, world, k))
            && (outcome == Threw <==> outcome != Acquired && Errs(ttl, world, retries))
            && (outcome != Acquired ==>
                after == AfterAttempt(Met(s, key, value, ttl, world, retries), key, value, ttl, world(retries).fault))
    decreases retries - attempt
  {
    var met := Met(s, key, value, ttl, world, attempt);
    var after := AfterAttempt(met, key, value, ttl, world(attempt).fault);
    assert met.(store := met.store) == met;
    assert after == if world(attempt).fault == RequestLost then met
                    else met.(store := SetNxPx(met.store, met.now, key, value, ttl).0);
    if !Succeeds(s, key, value, ttl, world, attempt) && attempt < retries {
      assert Met(s, key, value, ttl, world, attempt + 1) == EnvSteps(after, world(attempt).during);
      AcquireOutcomeIff(s, key, value, ttl, retries, world, attempt + 1);
    }
    hide EnvSteps, Met;
  }

  /** The server just before an attempt, as long as no attempt before it succeeded. */
  function Before(s: Server, world: nat -> Attempt, attempt: nat): Server {
    if attempt == 0 then s else EnvSteps(Before(s, world, attempt - 1), world(attempt - 1).during)
  }

  /** With every command delivered, `acquire` gives up exactly when all its `retries + 1` attempts met a held key. */
  lemma {:induction false} GivesUpIffAlwaysHeld(s: Server, key: string, value: nat, ttl: int, retries: int,
                                                world: nat -> Attempt, attempt: nat)
    requires ttl > 0 && attempt <= retries + 1 && forall k :: world(k).fault == Delivered
    ensures var (after, outcome) := AcquireFrom(Before(s, world, attempt), key, value, ttl, retries, world, attempt);
            && outcome != Threw
            && (outcome == NotAcquired <==> forall k: nat :: attempt <= k <= retries ==>
                key in Before(s, world, k).store)
    decreases retries - attempt
  {
    if attempt <= retries {
      var b := Before(s, world, attempt);
      assert b.(store := b.store) == b;
      GivesUpIffAlwaysHeld(s, key, value, ttl, retries, world, attempt + 1);
    }
  }

  // ----- all clients together -----

  /** Where a client of `withLock` stands.  `until` is the current expiry of its lock at the server. */
  datatype Phase =
    | Idle
    | Trying(key: string, value: nat, ttl: int, attempt: nat, retries: int)
    | Granted(key: string, value: nat, until: int)
    | InBody(key: string, value: nat, until: int)
    | Leaving(key: string, value: nat)

  datatype Sys = Sys(store: Store, now: int, clients: map<nat, Phase>, used: set<nat>)

  datatype Step =
    | Pass(ms: nat)
    | KeyExpires(key: string)
    | Begin(client: nat, key: string, value: nat, ttl: int, retries: int)
    | SendSet(client: nat, fault: Fault)
    | EnterBody(client: nat)
    | ExtendLock(client: nat, ttl: int)
    | EndBody(client: nat)
    | SendRelease(client: nat, fault: Fault)
    | StaleRelease(key: string, value: nat)
    | StaleExtend(key: string, value: nat, ttl: int)

  ghost predicate Init(s: Sys) {
    s.store == map[] && s.clients == map[] && s.used == {}
  }

  function PhaseOf(s: Sys, client: nat): Phase {
    if client in s.clients then s.clients[client] else Idle
  }

  predicate Holds(p: Phase) {
    p.Granted? || p.InBody?
  }

  ghost predicate NotHeld(s: Sys, value: nat) {
    forall c :: c in s.clients && !s.clients[c].Idle? ==> s.clients[c].value != value
  }

  /** Lock values are fresh; a stale command carries a value that was used but that no granted lock has now. */
  ghost predicate Enabled(s: Sys, step: Step) {
    match step
    case Pass(_) => true
    case KeyExpires(key) => key in s.store && s.store[key].expireAt <= s.now
    case Begin(c, _, value, _, _) => PhaseOf(s, c).Idle? && value !in s.used
    case SendSet(c, _) => PhaseOf(s, c).Trying?
    case EnterBody(c) => PhaseOf(s, c).Granted?
    case ExtendLock(c, _) => PhaseOf(s, c).InBody?
    case EndBody(c) => PhaseOf(s, c).InBody?
    case SendRelease(c, _) => PhaseOf(s, c).Leaving?
    case StaleRelease(_, value) => value in s.used && NotHeld(s, value)
    case StaleExtend(_, value, _) => value in s.used && NotHeld(s, value)
  }

  /** The next attempt, or the end of `acquire` after the last one. */
  function AfterFailedSet(p: Phase): Phase
    requires p.Trying?
  {
    if p.attempt >= p.retries then Idle else p.(attempt := p.attempt + 1)
  }

  ghost function Next(s: Sys, step: Step): Sys
    requires Enabled(s, step)
  {
    match step
    case Pass(ms) => s.(now := s.now + ms)
    case KeyExpires(key) => s.(store := s.store - {key})
    case Begin(c, key, value, ttl, retries) =>
      s.(clients := s.clients[c := if retries < 0 then Idle else Trying(key, value, ttl, 0, retries)],
         used := s.used + {value})
    case SendSet(c, fault) =>
      var p := s.clients[c];
      var (store, reply) := SetNxPx(s.store, s.now, p.key, p.value, p.ttl);
      var after := if fault == RequestLost then s else s.(store := store);
      if fault == Delivered && reply == OK
      then after.(clients := s.clients[c := Granted(p.key, p.value, s.now + p.ttl)])
      else after.(clients := s.clients[c := AfterFailedSet(p)])
    case EnterBody(c) => var p := s.clients[c]; s.(clients := s.clients[c := InBody(p.key, p.value, p.until)])
    case ExtendLock(c, ttl) =>
      var p := s.clients[c];
      var (store, result) := ExtendIfEqual(s.store, s.now, p.key, p.value, ttl);
      s.(store := store, clients := if result == 1 then s.clients[c := p.(until := s.now + ttl)] else s.clients)
    case EndBody(c) => var p := s.clients[c]; s.(clients := s.clients[c := Leaving(p.key, p.value)])
    case SendRelease(c, fault) =>
      var p := s.clients[c];
      s.(store := if fault == RequestLost then s.store else DeleteIfEqual(s.store, p.key, p.value).0,
         clients := s.clients[c := Idle])
    case StaleRelease(key, value) => s.(store := DeleteIfEqual(s.store, key, value).0)
    case StaleExtend(key, value, ttl) => s.(store := ExtendIfEqual(s.store, s.now, key, value, ttl).0)
  }

  /** A finite run: consecutive states, each the next of the one before by some enabled step. */
  ghost predicate IsRun(states: seq<Sys>, steps: seq<Step>) {
    && |states| == |steps| + 1 && Init(states[0])
    && forall i :: 0 <= i < |steps| ==> Enabled(states[i], steps[i]) && states[i + 1] == Next(states[i], steps[i])
  }

  // ----- safety -----

  /** Values are unique and remembered. */
  ghost predicate DistinctValues(s: Sys) {
    && (forall c :: c in s.clients && !s.clients[c].Idle? ==> s.clients[c].value in s.used)
    && (forall c, d :: c in s.clients && d in s.clients && c != d && !s.clients[c].Idle? && !s.clients[d].Idle?
          ==> s.clients[c].value != s.clients[d].value)
  }

  ghost predicate Protected(s: Sys, c: nat)
    requires c in s.clients && Holds(s.clients[c])
  {
    s.clients[c].key in s.store && s.store[s.clients[c].key] == Entry(s.clients[c].value, s.clients[c].until)
  }

  /** A lock that has not reached its expiry is in the store. */
  ghost predicate Inv(s: Sys) {
    && DistinctValues(s)
    && (forall c :: c in s.clients && Holds(s.clients[c]) && s.now < s.clients[c].until ==> Protected(s, c))
  }

  lemma StepKeepsValues(s: Sys, step: Step)
    requires DistinctValues(s) && Enabled(s, step)
    ensures DistinctValues(Next(s, step))
  {
  }

  lemma StepKeepsInv(s: Sys, step: Step)
    requires Inv(s) && Enabled(s, step)
    ensures Inv(Next(s, step))
  {
    StepKeepsValues(s, step);
    var s' := Next(s, step);
    forall c | c in s'.clients && Holds(s'.clients[c]) && s'.now < s'.clients[c].until
      ensures Protected(s', c)
    {
      if c in s.clients && Holds(s.clients[c]) && s'.clients[c].until == s.clients[c].until {
        assert Protected(s, c);
      }
    }
  }

  lemma {:induction false} RunKeepsInv(states: seq<Sys>, steps: seq<Step>, i: nat)
    requires IsRun(states, steps) && i < |states|
    ensures Inv(states[i])
    decreases i
  {
    if i > 0 {
      RunKeepsInv(states, steps, i - 1);
      StepKeepsInv(states[i - 1], steps[i - 1]);
    }
  }

  /** Every body is still before the current expiry of its lock. */
  ghost predicate Timely(s: Sys) {
    forall c :: c in s.clients && s.clients[c].InBody? ==> s.now < s.clients[c].until
  }

  ghost predicate NoOverlap(s: Sys) {
    forall c, d :: c in s.clients && d in s.clients && c != d && s.clients[c].InBody? && s.clients[d].InBody?
      ==> s.clients[c].key != s.clients[d].key
  }

  /** Mutual exclusion: in every run, at every moment at which no body has outlived its lock, no two bodies for one
      resource overlap, whatever commands get lost and however late expiry is noticed. */
  lemma BodiesNeverOverlap(states: seq<Sys>, steps: seq<Step>, i: nat)
    requires IsRun(states, steps) && i < |states| && Timely(states[i])
    ensures NoOverlap(states[i])
  {
    RunKeepsInv(states, steps, i);
    var s := states[i];
    forall c, d | c in s.clients && d in s.clients && c != d && s.clients[c].InBody? && s.clients[d].InBody?
      ensures s.clients[c].key != s.clients[d].key
    {
      assert Protected(s, c) && Protected(s, d);
    }
  }

  /** The client that a step belongs to. */
  predicate IsStepOf(step: Step, c: nat) {
    match step
    case Begin(x, _, _, _, _) => x == c
    case SendSet(x, _) => x == c
    case EnterBody(x) => x == c
    case ExtendLock(x, _) => x == c
    case EndBody(x) => x == c
    case SendRelease(x, _) => x == c
    case _ => false
  }

  /** A live lock is out of everyone else's reach: in every run, no step of another client, stale release or stale
      extension included, changes the entry or the phase of a holder before its expiry. */
  lemma LiveLockUntouched(states: seq<Sys>, steps: seq<Step>, i: nat, c: nat)
    requires IsRun(states, steps) && i < |steps| && !IsStepOf(steps[i], c)
    requires c in states[i].clients && Holds(states[i].clients[c]) && states[i].now < states[i].clients[c].until
    ensures c in states[i + 1].clients && states[i + 1].clients[c] == states[i].clients[c]
    ensures states[i].clients[c].key in states[i].store && states[i].clients[c].key in states[i + 1].store
    ensures states[i + 1].store[states[i].clients[c].key] == states[i].store[states[i].clients[c].key]
  {
    RunKeepsInv(states, steps, i);
    assert Protected(states[i], c);
  }

  /** Once another holder has the resource, the release and the extension of the former one change nothing. */
  lemma StaleOwnerChangesNothing(states: seq<Sys>, steps: seq<Step>, i: nat, c: nat, d: nat, ttl: int)
    requires IsRun(states, steps) && i < |states| && c != d
    requires c in states[i].clients && Holds(states[i].clients[c]) && states[i].now < states[i].clients[c].until
    requires d in states[i].clients && (states[i].clients[d].InBody? || states[i].clients[d].Leaving?)
    requires states[i].clients[d].key == states[i].clients[c].key
    ensures var s, p := states[i], states[i].clients[d];
            && DeleteIfEqual(s.store, p.key, p.value) == (s.store, 0)
            && ExtendIfEqual(s.store, s.now, p.key, p.value, ttl) == (s.store, 0)
  {
    RunKeepsInv(states, steps, i);
    assert Protected(states[i], c);
  }

  // ----- a release in a run -----

  predicate IsUnder(store: Store, key: string, value: nat) {
    key in store && store[key].value == value
  }

  /** A client's value is stored under no other key, and nothing is stored under a value that nobody used. */
  ghost predicate OwnKeys(s: Sys) {
    && (forall k :: k in s.store ==> s.store[k].value in s.used)
    && (forall c, k :: c in s.clients && !s.clients[c].Idle? && IsUnder(s.store, k, s.clients[c].value) ==>
          k == s.clients[c].key)
  }

  lemma StepKeepsOwnKeys(s: Sys, step: Step)
    requires OwnKeys(s) && DistinctValues(s) && Enabled(s, step)
    ensures OwnKeys(Next(s, step))
  {
    var t := Next(s, step);
    forall k | k in t.store ensures t.store[k].value in t.used {
      assert k in s.store ==> s.store[k].value in s.used;
    }
    forall c, k | c in t.clients && !t.clients[c].Idle? && IsUnder(t.store, k, t.clients[c].value)
      ensures k == t.clients[c].key
    {
      if c in s.clients && !s.clients[c].Idle? && IsUnder(s.store, k, s.clients[c].value) {
        assert k == s.clients[c].key;
      }
    }
  }

  lemma {:induction false} RunKeepsOwnKeys(states: seq<Sys>, steps: seq<Step>, i: nat)
    requires IsRun(states, steps) && i < |states|
    ensures OwnKeys(states[i]) && DistinctValues(states[i])
    decreases i
  {
    if i > 0 {
      RunKeepsOwnKeys(states, steps, i - 1);
      StepKeepsOwnKeys(states[i - 1], steps[i - 1]);
      StepKeepsValues(states[i - 1], steps[i - 1]);
      hide OwnKeys, DistinctValues, Next;
    }
  }

  /** In every run, once the release of a client reaches the server, no key is left with that client's value, and every
      key with another value is as it was. */
  lemma ReleaseFrees(states: seq<Sys>, steps: seq<Step>, i: nat, c: nat)
    requires IsRun(states, steps) && i < |steps| && steps[i].SendRelease? && steps[i].client == c
    requires steps[i].fault != RequestLost
    ensures var value, before, after := states[i].clients[c].value, states[i].store, states[i + 1].store;
            && (forall k :: !IsUnder(after, k, value))
            && forall k :: k in before && !IsUnder(before, k, value) ==> k in after && after[k] == before[k]
  {
    RunKeepsOwnKeys(states, steps, i);
    var p, before, after := states[i].clients[c], states[i].store, states[i + 1].store;
    assert after == DeleteIfEqual(before, p.key, p.value).0;
    forall k ensures !IsUnder(after, k, p.value) {
      assert IsUnder(before, k, p.value) ==> k == p.key;
    }
  }

  // ----- the timing condition is needed -----

  /** The steps lead from one state to another. */
  ghost predicate IsPath(states: seq<Sys>, steps: seq<Step>) {
    && |states| == |steps| + 1
    && forall i :: 0 <= i < |steps| ==> Enabled(states[i], steps[i]) && states[i + 1] == Next(states[i], steps[i])
  }

  ghost predicate Leads(s: Sys, t: Sys) {
    exists states, steps :: IsPath(states, steps) && states[0] == s && states[|steps|] == t
  }

  lemma LeadsNowhere(s: Sys)
    ensures Leads(s, s)
  {
    assert IsPath([s], []) && [s][0] == s;
  }

  lemma StepLeads(s: Sys, t: Sys, step: Step)
    requires Leads(s, t) && Enabled(t, step)
    ensures Leads(s, Next(t, step))
  {
    var states, steps :| IsPath(states, steps) && states[0] == s && states[|steps|] == t;
    hide Next, Enabled;
    var states', steps' := states + [Next(t, step)], steps + [step];
    assert IsPath(states', steps');
    assert states'[0] == s && states'[|steps'|] == Next(t, step);
  }

  /** One client takes the free lock `k` and starts its body. */
  lemma TakeLock(s: Sys, t: Sys, c: nat, k: string, value: nat, ttl: int) returns (u: Sys)
    requires Leads(s, t) && c !in t.clients && value !in t.used && k !in t.store && ttl > 0
    ensures Leads(s, u) && u.clients == t.clients[c := InBody(k, value, t.now + ttl)] && u.now == t.now
  {
    hide Leads;
    StepLeads(s, t, Begin(c, k, value, ttl, 0));
    var s1 := Next(t, Begin(c, k, value, ttl, 0));
    assert s1.clients == t.clients[c := Trying(k, value, ttl, 0, 0)];
    StepLeads(s, s1, SendSet(c, Delivered));
    var s2 := Next(s1, SendSet(c, Delivered));
    assert s2.clients == t.clients[c := Granted(k, value, t.now + ttl)];
    StepLeads(s, s2, EnterBody(c));
    u := Next(s2, EnterBody(c));
  }

  lemma {:induction false} NotIn(used: set<nat>) returns (n: nat)
    ensures forall m :: m in used ==> m < n
  {
    if used == {} {
      n := 0;
    } else {
      var m :| m in used;
      var k := NotIn(used - {m});
      n := if m < k then k else m + 1;
      assert forall x :: x in used ==> x == m || x in used - {m};
    }
  }

  /** Whoever holds the key, even a client that is gone, it is free after a time. */
  lemma KeyGetsFree(start: Sys, s: Sys, key: string) returns (t: Sys)
    requires Leads(start, s)
    ensures Leads(start, t) && key !in t.store && t.clients == s.clients && t.used == s.used
    ensures (key in s.store ==> s.store[key].expireAt <= s.now) ==> t.now == s.now
  {
    t := s;
    if key in s.store {
      hide Leads;
      if s.now < s.store[key].expireAt {
        StepLeads(start, t, Pass(s.store[key].expireAt - s.now));
        t := Next(t, Pass(s.store[key].expireAt - s.now));
      }
      StepLeads(start, t, KeyExpires(key));
      t := Next(t, KeyExpires(key));
    }
  }

  /** Mutual exclusion needs the timing condition in every state: whatever has happened since `start`, a body that
      goes on has a continuation in which it meets another body for its resource.  Past its expiry it meets it without
      any time passing, if no other lock that is still valid is in the store. */
  lemma EveryBodyCanBeOverlapped(start: Sys, s: Sys, c: nat, ttl: int) returns (t: Sys)
    requires Leads(start, s) && c in s.clients && s.clients[c].InBody? && ttl > 0
    ensures Leads(start, t) && !NoOverlap(t)
    ensures c in t.clients && t.clients[c] == s.clients[c]
    ensures (s.clients[c].key in s.store ==> s.store[s.clients[c].key].expireAt <= s.now) ==> t.now == s.now
  {
    var key := s.clients[c].key;
    var free := KeyGetsFree(start, s, key);
    var d := NotIn(free.clients.Keys);
    var value := NotIn(free.used);
    t := TakeLock(start, free, d, key, value, ttl);
    assert d != c && t.clients[c].InBody? && t.clients[d].InBody?;
    assert t.clients[d].key == t.clients[c].key == key;
  }

  /** In particular an overlap can be reached from the beginning. */
  lemma OverlapWithoutTiming(start: Sys) returns (t: Sys)
    requires Init(start)
    ensures Leads(start, t) && !NoOverlap(t)
  {
    LeadsNowhere(start);
    var s := TakeLock(start, start, 1, "lock:r", 10, 5);
    t := EveryBodyCanBeOverlapped(start, s, 1, 5);
  }
}
