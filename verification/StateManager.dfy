/** State shared through Redis, with a local cache of the watched keys and change events. */
module StateManager {
  import opened Text

  /** A JSON value; what is neither null, boolean, integer nor text is kept as its text.  Storing a value and reading it
      back gives the same value. */
  datatype Json = Null | Bool(b: bool) | Number(n: int) | Text(s: string) | Other(json: string)

  datatype Change = Change(key: string, oldValue: Json, newValue: Json)

  /** The `state:` keys in Redis, and one manager: the watched keys in the order they were added, the cache, the emitted
      events, and whether the poll timer runs. */
  datatype State = State(store: map<string, Json>, watched: seq<string>, cache: map<string, Json>,
                         events: seq<Change>, polling: bool)

  datatype Entry = Entry(key: string, value: Json)

  datatype Op =
    | Get(key: string)
    | Set(key: string, value: Json)
    | Delete(key: string)
    | Watch(key: string)
    | Unwatch(key: string)
    | Poll
    | Mset(entries: seq<Entry>)
    | Increment(key: string, amount: int)
    | CompareAndSet(key: string, expected: Json, newValue: Json)
    | Clear
    /** Other instances write, or keys expire. */
    | Outside(newStore: map<string, Json>)

  // ----- the operations as functions -----

  /** What a read gives: an absent key reads as null. */
  function Read(m: map<string, Json>, key: string): Json {
    if key in m then m[key] else Null
  }

  /** `cached || null`: a falsy value is reported as null. */
  function OldValue(cache: map<string, Json>, key: string): Json {
    var v := Read(cache, key);
    if v == Bool(false) || v == Number(0) || v == Text("") then Null else v
  }

  function Cached(s: State, key: string, value: Json): State {
    if key in s.watched then s.(cache := s.cache[key := value]) else s
  }

  function Emitted(s: State, key: string, oldValue: Json, newValue: Json): State {
    if key in s.watched then s.(events := s.events + [Change(key, oldValue, newValue)]) else s
  }

  function AfterGet(s: State, key: string): State {
    if key in s.store then Cached(s, key, s.store[key]) else s
  }

  /** `JSON.stringify` of the current and of the cached value; a key missing in the cache is undefined, not null. */
  predicate Differs(cache: map<string, Json>, key: string, current: Json) {
    key !in cache || cache[key] != current
  }

  /** The poll's work for one key: the read refreshes the cache before the comparison. */
  function PollKey(s: State, key: string): State {
    var t := AfterGet(s, key);
    var current := Read(s.store, key);
    if Differs(t.cache, key, current)
    then t.(cache := t.cache[key := current], events := t.events + [Change(key, OldValue(t.cache, key), current)])
    else t
  }

  function PollFirst(s: State, n: nat): (t: State)
    requires n <= |s.watched|
    ensures t.watched == s.watched && t.store == s.store
  {
    if n == 0 then s else PollKey(PollFirst(s, n - 1), s.watched[n - 1])
  }

  function Written(store: map<string, Json>, entries: seq<Entry>): map<string, Json> {
    if |entries| == 0 then store
    else Written(store, entries[..|entries| - 1])[entries[|entries| - 1].key := entries[|entries| - 1].value]
  }

  function Without(keys: seq<string>, key: string): seq<string> {
    if |keys| == 0 then []
    else if keys[0] == key then Without(keys[1..], key) else [keys[0]] + Without(keys[1..], key)
  }

  predicate IsInt64(n: int) {
    -0x8000_0000_0000_0000 <= n < 0x8000_0000_0000_0000
  }

  /** Redis' `incrby`: an absent key counts as zero; other values and an overflow are errors. */
  function Incremented(store: map<string, Json>, key: string, amount: int): Option<int> {
    var current := if key in store then store[key] else Number(0);
    if current.Number? && IsInt64(current.n) && IsInt64(current.n + amount) then Some(current.n + amount) else None
  }

  function Apply(s: State, op: Op): State {
    match op
    case Get(key) => AfterGet(s, key)
    case Set(key, value) =>
      var t := Cached(s.(store := s.store[key := value]), key, value);
      Emitted(t, key, OldValue(s.cache, key), value)
    case Delete(key) =>
      var cache := if key in s.watched then s.cache - {key} else s.cache;
      Emitted(s.(store := s.store - {key}, cache := cache), key, OldValue(s.cache, key), Null)
    case Watch(key) =>
      if key in s.watched then s
      else s.(cache := s.cache[key := Read(s.store, key)], watched := s.watched + [key], polling := true)
    case Unwatch(key) =>
      var left := Without(s.watched, key);
      s.(watched := left, cache := s.cache - {key}, polling := s.polling && left != [])
    case Poll => PollFirst(s, |s.watched|)
    case Mset(entries) => s.(store := Written(s.store, entries))
    case Increment(key, amount) =>
      (match Incremented(s.store, key, amount)
       case None => s
       case Some(n) => Cached(s.(store := s.store[key := Number(n)]), key, Number(n)))
    case CompareAndSet(key, expected, newValue) =>
      if key in s.store && s.store[key] == expected
      then Cached(s.(store := s.store[key := newValue]), key, newValue) else s
    case Clear => if s.store == map[] then s else s.(store := map[], cache := map[])
    case Outside(newStore) => s.(store := newStore)
  }

  /** What the cache or Redis holds for a key, if anything. */
  function Lookup(m: map<string, Json>, key: string): Option<Json> {
    if key in m then Some(m[key]) else None
  }

  /** Each watched key is cached with its value in Redis, null if it has none, and nothing else is changed. */
  ghost predicate IsRefreshed(watched: seq<string>, store: map<string, Json>, before: map<string, Json>,
                              after: map<string, Json>) {
    forall key :: Lookup(after, key)
                  == if key !in watched then Lookup(before, key)
                     else if key in store then Some(store[key]) else Some(Null)
  }

  /** Entry `i` is the last one for its key. */
  predicate IsLast(entries: seq<Entry>, i: nat)
    requires i < |entries|
  {
    forall j :: i < j < |entries| ==> entries[j].key != entries[i].key
  }

  /** Each key has the value of its last entry; a key without an entry is as before. */
  ghost predicate IsWritten(before: map<string, Json>, entries: seq<Entry>, after: map<string, Json>) {
    && (forall i :: 0 <= i < |entries| && IsLast(entries, i) ==>
          Lookup(after, entries[i].key) == Some(entries[i].value))
    && (forall key :: (forall i :: 0 <= i < |entries| ==> entries[i].key != key) ==>
          Lookup(after, key) == Lookup(before, key))
  }

  // ----- the object -----

  class Redis {
    var state: map<string, Json>

    constructor ()
      ensures state == map[]
    {
      state := map[];
    }
  }

  class Manager {
    const redis: Redis
    var watchedKeys: seq<string>
    var stateCache: map<string, Json>
    var events: seq<Change>
    var polling: bool

    ghost function View(): State
      reads this, redis
    {
      State(redis.state, watchedKeys, stateCache, events, polling)
    }

    constructor (redis: Redis)
      ensures this.redis == redis && View() == State(redis.state, [], map[], [], false)
    {
      this.redis := redis;
      watchedKeys, stateCache, events, polling := [], map[], [], false;
    }

    method Get(key: string) returns (value: Json)
      modifies this`stateCache
      ensures View() == Apply(old(View()), Op.Get(key))
      ensures value == if key in redis.state then redis.state[key] else Null
      ensures stateCache == if key in redis.state && key in watchedKeys then old(stateCache)[key := redis.state[key]]
                            else old(stateCache)
    {
      if key !in redis.state {
        return Null;
      }
      value := redis.state[key];
      if key in watchedKeys {
        stateCache := stateCache[key := value];
      }
    }

    /** Emits one change event. */
    method Emit(change: Change)
      modifies this`events
      ensures events == old(events) + [change]
    {
      events := events + [change];
    }

    method Set(key: string, value: Json)
      modifies this`stateCache, this`events, redis
      ensures View() == Apply(old(View()), Op.Set(key, value))
      ensures redis.state == old(redis.state)[key := value]
      ensures stateCache == if key in watchedKeys then old(stateCache)[key := value] else old(stateCache)
      ensures var was := if key in old(stateCache) then old(stateCache)[key] else Null;
              var reported := if was in {Bool(false), Number(0), Text("")} then Null else was;
              events == if key in watchedKeys then old(events) + [Change(key, reported, value)] else old(events)
    {
      var oldValue := Null;
      if key in watchedKeys {
        oldValue := OldValue(stateCache, key);
      }
      redis.state := redis.state[key := value];
      if key in watchedKeys {
        stateCache := stateCache[key := value];
        Emit(Change(key, oldValue, value));
      }
    }

    method Delete(key: string) returns (deleted: bool)
      modifies this`stateCache, this`events, redis
      ensures View() == Apply(old(View()), Op.Delete(key))
      ensures redis.state == old(redis.state) - {key}
      ensures stateCache == if key in watchedKeys then old(stateCache) - {key} else old(stateCache)
      ensures var was := if key in old(stateCache) then old(stateCache)[key] else Null;
              var reported := if was in {Bool(false), Number(0), Text("")} then Null else was;
              events == if key in watchedKeys then old(events) + [Change(key, reported, Null)] else old(events)
      ensures deleted == (key in old(redis.state))
    {
      var oldValue := Null;
      if key in watchedKeys {
        oldValue := OldValue(stateCache, key);
      }
      deleted := key in redis.state;
      redis.state := redis.state - {key};
      if key in watchedKeys {
        stateCache := stateCache - {key};
        Emit(Change(key, oldValue, Null));
      }
    }

    method Watch(key: string)
      modifies this
      ensures View() == Apply(old(View()), Op.Watch(key))
      ensures key in old(watchedKeys) ==> View() == old(View())
      ensures key !in old(watchedKeys) ==>
                && watchedKeys == old(watchedKeys) + [key] && polling && events == old(events)
                && stateCache == old(stateCache)[key := if key in redis.state then redis.state[key] else Null]
    {
      if key in watchedKeys {
        return;
      }
      var value := Get(key);
      stateCache := stateCache[key := value];
      watchedKeys := watchedKeys + [key];
      if !polling {
        polling := true;
      }
    }

    method Unwatch(key: string)
      modifies this
      ensures View() == Apply(old(View()), Op.Unwatch(key))
      ensures forall k :: k in watchedKeys <==> k in old(watchedKeys) && k != key
      ensures stateCache == old(stateCache) - {key} && events == old(events)
      ensures polling == (old(polling) && watchedKeys != [])
    {
      WithoutMembers(watchedKeys, key);
      watchedKeys := Without(watchedKeys, key);
      stateCache := stateCache - {key};
      if |watchedKeys| == 0 && polling {
        polling := false;
      }
    }

    /** `checkForChanges`. */
    method CheckForChanges()
      modifies this`stateCache, this`events
      ensures View() == Apply(old(View()), Poll)
      ensures IsRefreshed(watchedKeys, redis.state, old(stateCache), stateCache)
    {
      hide IsRefreshed;
      PolledAll(View());
      for n := 0 to |watchedKeys|
        invariant View() == PollFirst(old(View()), n)
      {
        var key := watchedKeys[n];
        assert key in watchedKeys;
        var currentValue := Get(key);
        if key !in stateCache || stateCache[key] != currentValue {
          var change := Change(key, OldValue(stateCache, key), currentValue);
          stateCache := stateCache[key := currentValue];
          Emit(change);
        }
      }
    }

    method Mset(entries: seq<Entry>)
      modifies redis
      ensures View() == Apply(old(View()), Op.Mset(entries))
      ensures IsWritten(old(redis.state), entries, redis.state)
    {
      hide IsWritten;
      WrittenAll(redis.state, entries);
      for i := 0 to |entries|
        invariant redis.state == Written(old(redis.state), entries[..i])
      {
        assert entries[..i + 1][..i] == entries[..i];
        redis.state := redis.state[entries[i].key := entries[i].value];
      }
      assert entries[..|entries|] == entries;
    }

    /** `None` stands for the error that Redis answers. */
    method Increment(key: string, amount: int) returns (result: Option<int>)
      modifies this`stateCache, redis
      ensures View() == Apply(old(View()), Op.Increment(key, amount))
      ensures result == Incremented(old(redis.state), key, amount)
      ensures var current := if key in old(redis.state) then old(redis.state)[key] else Number(0);
              && (result.Some? <==> current.Number? && -0x8000_0000_0000_0000 <= current.n < 0x8000_0000_0000_0000
                                    && -0x8000_0000_0000_0000 <= current.n + amount < 0x8000_0000_0000_0000)
              && (result.Some? ==>
                    && result.value == current.n + amount
                    && redis.state == old(redis.state)[key := Number(result.value)]
                    && stateCache == if key in watchedKeys then old(stateCache)[key := Number(result.value)]
                                     else old(stateCache))
              && (result.None? ==> redis.state == old(redis.state) && stateCache == old(stateCache))
    {
      result := Incremented(redis.state, key, amount);
      if result.Some? {
        redis.state := redis.state[key := Number(result.value)];
        if key in watchedKeys {
          stateCache := stateCache[key := Number(result.value)];
        }
      }
    }

    method Decrement(key: string, amount: int) returns (result: Option<int>)
      modifies this`stateCache, redis
      ensures View() == Apply(old(View()), Op.Increment(key, 0 - amount))
      ensures result == Incremented(old(redis.state), key, 0 - amount)
    {
      result := Increment(key, 0 - amount);
    }

    /** The script runs as one command. */
    method CompareAndSet(key: string, expected: Json, newValue: Json) returns (ok: bool)
      modifies this`stateCache, redis
      ensures View() == Apply(old(View()), Op.CompareAndSet(key, expected, newValue))
      ensures ok == (key in old(redis.state) && old(redis.state)[key] == expected)
      ensures redis.state == if ok then old(redis.state)[key := newValue] else old(redis.state)
      ensures stateCache == if ok && key in watchedKeys then old(stateCache)[key := newValue] else old(stateCache)
    {
      ok := key in redis.state && redis.state[key] == expected;
      if ok {
        redis.state := redis.state[key := newValue];
      }
      if ok && key in watchedKeys {
        stateCache := stateCache[key := newValue];
      }
    }

    method Clear() returns (count: nat)
      modifies this`stateCache, redis
      ensures View() == Apply(old(View()), Op.Clear)
      ensures count == |old(redis.state)|
      ensures redis.state == map[] && stateCache == if old(redis.state) == map[] then old(stateCache) else map[]
    {
      count := |redis.state|;
      if count == 0 {
        return;
      }
      redis.state := map[];
      stateCache := map[];
    }
  }

  // ----- coherence -----

  /** Every watched key reads the same in the cache and in Redis. */
  ghost predicate Coherent(s: State) {
    forall key :: key in s.watched ==> Read(s.cache, key) == Read(s.store, key)
  }

  /** Neither a write from outside nor `mset`, which leaves the cache alone. */
  predicate KeepsCache(op: Op) {
    !op.Mset? && !op.Outside?
  }

  lemma {:induction false} WithoutMembers(keys: seq<string>, key: string)
    ensures forall k :: k in Without(keys, key) <==> k in keys && k != key
  {
    if |keys| > 0 {
      WithoutMembers(keys[1..], key);
      assert forall k :: k in keys <==> k == keys[0] || k in keys[1..];
    }
  }

  lemma PollKeyCaches(s: State, key: string, other: string)
    requires key in s.watched
    ensures Lookup(PollKey(s, key).cache, other)
            == if other == key then Some(Read(s.store, key)) else Lookup(s.cache, other)
  {
  }

  /** The poll caches what Redis holds, key by key. */
  lemma {:induction false} PolledAgree(s: State, n: nat, key: string)
    requires n <= |s.watched|
    ensures Lookup(PollFirst(s, n).cache, key)
            == if key in s.watched[..n] then Some(Read(s.store, key)) else Lookup(s.cache, key)
    decreases n
  {
    if n > 0 {
      PolledAgree(s, n - 1, key);
      var t, last := PollFirst(s, n - 1), s.watched[n - 1];
      assert PollFirst(s, n) == PollKey(t, last);
      hide PollFirst, PollKey, Lookup, Read;
      assert s.watched[..n] == s.watched[..n - 1] + [last];
      assert last in s.watched;
      PollKeyCaches(t, last, key);
    }
  }

  /** After a poll of all watched keys. */
  lemma PolledAll(s: State)
    ensures IsRefreshed(s.watched, s.store, s.cache, Apply(s, Poll).cache)
  {
    assert s.watched[..|s.watched|] == s.watched;
    forall key ensures Lookup(Apply(s, Poll).cache, key)
                       == if key in s.watched then Some(Read(s.store, key)) else Lookup(s.cache, key) {
      PolledAgree(s, |s.watched|, key);
    }
  }

  /** Whatever the cache held, a poll makes it agree with Redis, and it writes nothing to Redis. */
  lemma PollRestores(s: State)
    ensures Coherent(Apply(s, Poll)) && Apply(s, Poll).store == s.store
  {
    var t := Apply(s, Poll);
    assert s.watched[..|s.watched|] == s.watched;
    forall key | key in t.watched ensures Read(t.cache, key) == Read(t.store, key) {
      PolledAgree(s, |s.watched|, key);
    }
  }

  lemma PutKeeps(s: State, key: string, value: Json)
    requires Coherent(s)
    ensures Coherent(Cached(s.(store := s.store[key := value]), key, value))
  {
  }

  lemma DeleteKeeps(s: State, key: string)
    requires Coherent(s)
    ensures Coherent(Apply(s, Delete(key)))
  {
  }

  /** Each operation of the manager itself keeps the cache coherent, `mset` apart. */
  lemma OperationKeepsCoherence(s: State, op: Op)
    requires Coherent(s) && KeepsCache(op)
    ensures Coherent(Apply(s, op))
  {
    match op {
      case Get(key) =>
      case Set(key, value) => PutKeeps(s, key, value);
      case Delete(key) => DeleteKeeps(s, key);
      case Watch(key) =>
      case Unwatch(key) => WithoutMembers(s.watched, key);
      case Poll => PollRestores(s);
      case Increment(key, amount) =>
        if Incremented(s.store, key, amount).Some? {
          PutKeeps(s, key, Number(Incremented(s.store, key, amount).value));
        }
      case CompareAndSet(key, expected, newValue) => PutKeeps(s, key, newValue);
      case Clear =>
    }
  }

  /** `mset` keeps the cache coherent exactly when the last entry for each watched key has the value the cache already
      holds for it. */
  lemma MsetKeepsCoherenceIff(s: State, entries: seq<Entry>)
    requires Coherent(s)
    ensures Coherent(Apply(s, Mset(entries)))
            <==> forall i :: 0 <= i < |entries| && entries[i].key in s.watched && IsLast(entries, i)
                   ==> entries[i].value == Read(s.cache, entries[i].key)
  {
    var w := Written(s.store, entries);
    if forall i :: 0 <= i < |entries| && entries[i].key in s.watched && IsLast(entries, i)
         ==> entries[i].value == Read(s.cache, entries[i].key) {
      forall key | key in s.watched ensures Read(s.cache, key) == Read(w, key) {
        WrittenLast(s.store, entries, key);
        if i :| 0 <= i < |entries| && entries[i].key == key {
          var last := LastEntry(entries, i);
        }
      }
    } else {
      var i :| 0 <= i < |entries| && entries[i].key in s.watched && IsLast(entries, i)
               && entries[i].value != Read(s.cache, entries[i].key);
      WrittenLast(s.store, entries, entries[i].key);
    }
  }

  lemma {:induction false} LastEntry(entries: seq<Entry>, i: nat) returns (last: nat)
    requires i < |entries|
    ensures i <= last < |entries| && entries[last].key == entries[i].key && IsLast(entries, last)
    decreases |entries| - i
  {
    if IsLast(entries, i) {
      last := i;
    } else {
      var j :| i < j < |entries| && entries[j].key == entries[i].key;
      last := LastEntry(entries, j);
    }
  }

  /** The last entry for a key decides. */
  lemma {:induction false} WrittenLast(store: map<string, Json>, entries: seq<Entry>, key: string)
    ensures forall i :: 0 <= i < |entries| && IsLast(entries, i) && entries[i].key == key
              ==> Read(Written(store, entries), key) == entries[i].value
    ensures (forall i :: 0 <= i < |entries| ==> entries[i].key != key) ==>
            Read(Written(store, entries), key) == Read(store, key)
  {
    if |entries| > 0 {
      var p, last := entries[..|entries| - 1], entries[|entries| - 1];
      WrittenLast(store, p, key);
      assert Written(store, entries) == Written(store, p)[last.key := last.value];
      hide Written;
      if i :| 0 <= i < |entries| && IsLast(entries, i) && entries[i].key == key {
        forall k | 0 <= k < |entries| && IsLast(entries, k) && entries[k].key == key
          ensures Read(Written(store, entries), key) == entries[k].value
        {
          if k < |p| {
            assert entries[|p|].key != key;
            assert p[k] == entries[k] && IsLast(p, k);
          }
        }
      }
    }
  }

  lemma WrittenAll(store: map<string, Json>, entries: seq<Entry>)
    ensures IsWritten(store, entries, Written(store, entries))
  {
    forall i | 0 <= i < |entries| && IsLast(entries, i)
      ensures Lookup(Written(store, entries), entries[i].key) == Some(entries[i].value)
    {
      WrittenLast(store, entries, entries[i].key);
      EntryIsWritten(store, entries, i);
    }
    forall key | forall i :: 0 <= i < |entries| ==> entries[i].key != key
      ensures Lookup(Written(store, entries), key) == Lookup(store, key)
    {
      UnwrittenLookup(store, entries, key);
    }
  }

  lemma {:induction false} EntryIsWritten(store: map<string, Json>, entries: seq<Entry>, i: nat)
    requires i < |entries|
    ensures entries[i].key in Written(store, entries)
  {
    if i < |entries| - 1 { EntryIsWritten(store, entries[..|entries| - 1], i); }
  }

  // ----- runs -----

  function Run(s: State, ops: seq<Op>): State {
    if |ops| == 0 then s else Apply(Run(s, ops[..|ops| - 1]), ops[|ops| - 1])
  }

  /** After any history, one poll restores coherence, and it lasts until the next write from outside or `mset`. */
  lemma {:induction false} CoherentSincePoll(s: State, history: seq<Op>, ops: seq<Op>)
    requires forall i :: 0 <= i < |ops| ==> KeepsCache(ops[i])
    ensures Coherent(Run(s, history + [Poll] + ops))
    decreases |ops|
  {
    var all := history + [Poll] + ops;
    if |ops| == 0 {
      assert all[..|all| - 1] == history;
      PollRestores(Run(s, history));
    } else {
      var p := ops[..|ops| - 1];
      assert all[..|all| - 1] == history + [Poll] + p;
      CoherentSincePoll(s, history, p);
      OperationKeepsCoherence(Run(s, all[..|all| - 1]), ops[|ops| - 1]);
    }
  }

  ghost predicate Distinct(keys: seq<string>) {
    forall i, j :: 0 <= i < j < |keys| ==> keys[i] != keys[j]
  }

  /** The watched keys are distinct, only watched keys are cached, and the timer runs while there are any. */
  ghost predicate Tidy(s: State) {
    && Distinct(s.watched)
    && (forall key :: key in s.cache ==> key in s.watched)
    && (s.polling <==> s.watched != [])
  }

  lemma {:induction false} WithoutDistinct(keys: seq<string>, key: string)
    requires Distinct(keys)
    ensures Distinct(Without(keys, key))
  {
    if |keys| > 0 {
      WithoutDistinct(keys[1..], key);
      WithoutMembers(keys[1..], key);
      var v := Without(keys[1..], key);
      assert keys[0] !in keys[1..];
      assert Distinct([keys[0]] + v) by {
        forall j | 0 <= j < |v| ensures v[j] != keys[0] { assert v[j] in v; }
      }
    }
  }

  lemma {:induction false} PollKeepsTidy(s: State, n: nat)
    requires Tidy(s) && n <= |s.watched|
    ensures Tidy(PollFirst(s, n))
    decreases n
  {
    if n > 0 {
      PollKeepsTidy(s, n - 1);
      assert s.watched[n - 1] in s.watched;
    }
  }

  lemma UnwatchKeepsTidy(s: State, key: string)
    requires Tidy(s)
    ensures Tidy(Apply(s, Unwatch(key)))
  {
    WithoutMembers(s.watched, key);
    WithoutDistinct(s.watched, key);
  }

  lemma StepKeepsTidy(s: State, op: Op)
    requires Tidy(s)
    ensures Tidy(Apply(s, op))
  {
    match op {
      case Unwatch(key) => UnwatchKeepsTidy(s, key);
      case Poll => PollKeepsTidy(s, |s.watched|);
      case _ =>
    }
  }

  lemma {:induction false} RunKeepsTidy(s: State, ops: seq<Op>)
    requires Tidy(s)
    ensures Tidy(Run(s, ops))
  {
    if |ops| > 0 {
      RunKeepsTidy(s, ops[..|ops| - 1]);
      StepKeepsTidy(Run(s, ops[..|ops| - 1]), ops[|ops| - 1]);
    }
  }

  // ----- which changes are announced -----

  /** What polling the first `n` keys announces. */
  function Announced(s: State, n: nat): seq<Change>
    requires n <= |s.watched|
  {
    if n == 0 then []
    else
      var key := s.watched[n - 1];
      Announced(s, n - 1)
      + (if key !in s.store && Differs(s.cache, key, Null) then [Change(key, OldValue(s.cache, key), Null)] else [])
  }

  /** A poll announces the keys that are gone from Redis while the cache does not hold a null for them, and nothing
      else: each read has already refreshed the cache when the values are compared. */
  lemma {:induction false} PollAnnounces(s: State, n: nat)
    requires n <= |s.watched| && Distinct(s.watched)
    ensures PollFirst(s, n).events == s.events + Announced(s, n)
    decreases n
  {
    if n > 0 {
      PollAnnounces(s, n - 1);
      var key, t := s.watched[n - 1], PollFirst(s, n - 1);
      NotBefore(s.watched, n - 1);
      hide Distinct;
      assert PollFirst(s, n) == PollKey(t, key);
      NotYetPolled(s, n - 1, key);
      hide PollFirst, PollKey, OldValue, Differs;
      PollKeyEvents(t, key);
    }
  }

  lemma NotBefore(keys: seq<string>, n: nat)
    requires Distinct(keys) && n < |keys|
    ensures keys[n] in keys && keys[n] !in keys[..n]
  {
  }

  lemma NotYetPolled(s: State, n: nat, key: string)
    requires n <= |s.watched| && key !in s.watched[..n]
    ensures var t := PollFirst(s, n);
            OldValue(t.cache, key) == OldValue(s.cache, key)
                && Differs(t.cache, key, Null) == Differs(s.cache, key, Null)
  {
    PolledAgree(s, n, key);
  }

  lemma PollKeyEvents(s: State, key: string)
    requires key in s.watched
    ensures PollKey(s, key).events
            == s.events
                + (if key !in s.store && Differs(s.cache, key, Null) then [Change(key, OldValue(s.cache, key), Null)]
                    else [])
  {
  }

  ghost predicate Announces(s: State, key: string) {
    exists c :: c in Announced(s, |s.watched|) && c.key == key
  }

  lemma {:induction false} AnnouncedIff(s: State, n: nat, key: string)
    requires n <= |s.watched|
    ensures (exists c :: c in Announced(s, n) && c.key == key)
            <==> key in s.watched[..n] && key !in s.store && Differs(s.cache, key, Null)
    decreases n
  {
    if n > 0 {
      AnnouncedIff(s, n - 1, key);
      var last := s.watched[n - 1];
      assert s.watched[..n] == s.watched[..n - 1] + [last];
      var item := Change(last, OldValue(s.cache, last), Null);
      if last !in s.store && Differs(s.cache, last, Null) {
        assert Announced(s, n) == Announced(s, n - 1) + [item];
        assert item in Announced(s, n);
      } else {
        assert Announced(s, n) == Announced(s, n - 1);
      }
    }
  }

  /** The promise is one announcement for each watched key whose value in Redis is not the cached one.  The poll keeps
      it for a key exactly when the key is gone from Redis and has a cached value, or is there with that very value: a
      new value is never announced, and a deletion is announced again after the manager's own `delete`. */
  lemma AnnouncesAsPromisedIff(s: State, key: string)
    requires key in s.watched
    ensures (Announces(s, key) <==> Read(s.cache, key) != Read(s.store, key))
            <==> if key in s.store then Read(s.cache, key) == s.store[key] else key in s.cache
  {
    AnnouncedIff(s, |s.watched|, key);
    assert s.watched[..|s.watched|] == s.watched;
  }

  /** After `delete` of a watched key, which announces it, the next poll announces a change from null to null. */
  lemma DeleteIsAnnouncedTwice(s: State, key: string)
    requires Tidy(s) && key in s.watched
    ensures var t := Apply(s, Delete(key));
            && t.events == s.events + [Change(key, OldValue(s.cache, key), Null)]
            && Announces(t, key) && OldValue(t.cache, key) == Null
            && Apply(t, Poll).events == t.events + Announced(t, |t.watched|)
  {
    var t := Apply(s, Delete(key));
    AnnouncedIff(t, |t.watched|, key);
    assert t.watched[..|t.watched|] == t.watched;
    PollAnnounces(t, |t.watched|);
  }

  /** A second poll changes nothing and announces nothing. */
  lemma PollIsIdempotent(s: State)
    ensures Apply(Apply(s, Poll), Poll) == Apply(s, Poll)
  {
    assert s.watched[..|s.watched|] == s.watched;
    forall i | 0 <= i < |s.watched| { PolledAgree(s, |s.watched|, s.watched[i]); }
    PollOfPolled(Apply(s, Poll), |s.watched|);
  }

  lemma {:induction false} PollOfPolled(s: State, n: nat)
    requires n <= |s.watched|
    requires forall i :: 0 <= i < |s.watched| ==>
            s.watched[i] in s.cache && s.cache[s.watched[i]] == Read(s.store, s.watched[i])
    ensures PollFirst(s, n) == s
    decreases n
  {
    if n > 0 {
      PollOfPolled(s, n - 1);
      var key := s.watched[n - 1];
      assert key in s.store ==> s.cache[key := s.store[key]] == s.cache;
    }
  }

  // ----- what each operation leaves alone, and counters -----

  /** The operation may write this key to Redis, other than by counting. */
  predicate Writes(op: Op, key: string) {
    match op
    case Set(k, _) => k == key
    case Delete(k) => k == key
    case CompareAndSet(k, _, _) => k == key
    case Mset(entries) => exists i :: 0 <= i < |entries| && entries[i].key == key
    case Clear => true
    case Outside(_) => true
    case _ => false
  }

  /** What the operation adds to the counter under this key; an error adds nothing. */
  function Adds(s: State, op: Op, key: string): int {
    if op.Increment? && op.key == key && Incremented(s.store, key, op.amount).Some? then op.amount else 0
  }

  function Counted(s: State, ops: seq<Op>, key: string): int {
    if |ops| == 0 then 0
    else Counted(s, ops[..|ops| - 1], key) + Adds(Run(s, ops[..|ops| - 1]), ops[|ops| - 1], key)
  }

  predicate IsCounter(s: State, key: string) {
    key in s.store ==> s.store[key].Number?
  }

  function Counter(s: State, key: string): int
    requires IsCounter(s, key)
  {
    if key in s.store then s.store[key].n else 0
  }

  lemma UnwrittenStays(s: State, op: Op, key: string)
    requires !Writes(op, key) && !(op.Increment? && op.key == key)
    ensures Lookup(Apply(s, op).store, key) == Lookup(s.store, key)
  {
    if op.Mset? {
      UnwrittenLookup(s.store, op.entries, key);
    }
  }

  lemma {:induction false} UnwrittenLookup(store: map<string, Json>, entries: seq<Entry>, key: string)
    requires forall i :: 0 <= i < |entries| ==> entries[i].key != key
    ensures Lookup(Written(store, entries), key) == Lookup(store, key)
  {
    if |entries| > 0 { UnwrittenLookup(store, entries[..|entries| - 1], key); }
  }

  /** Counting loses nothing: over any run without another write to its key, a counter is its first value plus the
      amounts of the increments and decrements that succeeded, whatever happens to other keys, the cache or the poll. */
  lemma {:induction false} CountersAddUp(s: State, ops: seq<Op>, key: string)
    requires IsCounter(s, key) && forall i :: 0 <= i < |ops| ==> !Writes(ops[i], key)
    ensures IsCounter(Run(s, ops), key) && Counter(Run(s, ops), key) == Counter(s, key) + Counted(s, ops, key)
  {
    if |ops| > 0 {
      var p, op := ops[..|ops| - 1], ops[|ops| - 1];
      CountersAddUp(s, p, key);
      assert !Writes(op, key);
      if !(op.Increment? && op.key == key) {
        hide Apply, Writes;
        UnwrittenStays(Run(s, p), op, key);
      }
    }
  }
}
