/** A reconciliation run: batches, provider replies in any order, and the counters of the report. */
module ReconcileEngine {
  import opened Text
  import opened MismatchDetector

  /** How the check of one transaction ends: with the provider's data, or with an exception. */
  datatype Reply = Replied(data: ProviderData) | Threw

  /** The mismatches one reply adds. */
  function FoundBy(tx: Tx, r: Reply): seq<Mismatch> {
    match r
    case Replied(data) => Detected(tx, data)
    case Threw => []
  }

  // ----- batches -----

  /** `items` cut into pieces of `size`, the last one possibly shorter. */
  function Batches<T>(items: seq<T>, size: nat): (b: seq<seq<T>>)
    requires size > 0
    ensures items == [] <==> b == []
    decreases |items|
  {
    if |items| == 0 then []
    else if |items| <= size then [items]
    else [items[..size]] + Batches(items[size..], size)
  }

  /** `createBatches`. */
  method CreateBatches<T>(items: seq<T>, batchSize: nat) returns (batches: seq<seq<T>>)
    requires batchSize > 0
    ensures batches == Batches(items, batchSize)
  {
    batches := [];
    var i := 0;
    while i < |items|
      invariant 0 <= i
      invariant batches + Batches(if i < |items| then items[i..] else [], batchSize) == Batches(items, batchSize)
      decreases |items| - i
    {
      var end := if i + batchSize < |items| then i + batchSize else |items|;
      assert if |items[i..]| <= batchSize then items[i..end] == items[i..]
             else items[i..][..batchSize] == items[i..end] && items[i..][batchSize..] == items[end..];
      batches := batches + [items[i..end]];
      i := i + batchSize;
    }
  }

  function Concat<T>(parts: seq<seq<T>>): seq<T> {
    if |parts| == 0 then [] else parts[0] + Concat(parts[1..])
  }

  /** The batches are the items in order, none empty, all of the batch size but for the last, which may be smaller. */
  lemma {:induction false} BatchesPartition<T>(items: seq<T>, size: nat)
    requires size > 0
    ensures Concat(Batches(items, size)) == items
    ensures forall k :: 0 <= k < |Batches(items, size)| ==> 0 < |Batches(items, size)[k]| <= size
    ensures forall k :: 0 <= k < |Batches(items, size)| - 1 ==> |Batches(items, size)[k]| == size
    decreases |items|
  {
    if |items| > size {
      BatchesPartition(items[size..], size);
      assert items == items[..size] + items[size..];
    } else if |items| > 0 {
      assert Concat([items][1..]) == [];
    }
  }

  // ----- the state of a run -----

  /** The transactions under check: `next` of them are started, `inflight` have no reply yet, and `chunks` are the
      parts of the current batch that are still to be awaited. */
  datatype Run = Run(txs: seq<Tx>, batchSize: nat, maxConcurrency: nat, next: nat, inflight: set<nat>,
                     chunks: seq<seq<nat>>, checked: nat, mismatches: seq<Mismatch>, errors: seq<string>,
                     replies: map<nat, Reply>)

  datatype Step = StartBatch | Answer(i: nat, reply: Reply) | ChunkDone

  function Begun(txs: seq<Tx>, batchSize: nat, maxConcurrency: nat): Run {
    Run(txs, batchSize, maxConcurrency, 0, {}, [], 0, Duplicates(txs), [], map[])
  }

  function BatchEnd(r: Run): nat {
    if r.next + r.batchSize < |r.txs| then r.next + r.batchSize else |r.txs|
  }

  /** `await Promise.all(chunk)` is over: all its checks have ended, and none of them rejects. */
  predicate Settled(chunk: seq<nat>, inflight: set<nat>) {
    forall k :: 0 <= k < |chunk| ==> chunk[k] !in inflight
  }

  predicate Enabled(r: Run, step: Step) {
    match step
    case StartBatch => r.maxConcurrency > 0 && r.chunks == [] && r.next < |r.txs|
    case Answer(i, _) => i in r.inflight && i < |r.txs|
    case ChunkDone => r.chunks != [] && Settled(r.chunks[0], r.inflight)
  }

  /** The indices from `low` up to but not including `high`. */
  function Range(low: nat, high: nat): (r: set<nat>)
    ensures forall i :: i in r <==> low <= i < high
    decreases high
  {
    if low >= high then {} else Range(low, high - 1) + {high - 1}
  }

  /** The same as a list. */
  function Indices(low: nat, high: nat): (s: seq<nat>)
    requires low <= high
    ensures |s| == high - low && forall k :: 0 <= k < |s| ==> s[k] == low + k
  {
    seq(high - low, k => low + k)
  }

  /** All checks of a batch are started at once; the chunks of the started checks are awaited one after the other, and
      the next batch waits for the last of them. */
  function Next(r: Run, step: Step): Run
    requires Enabled(r, step)
  {
    match step
    case StartBatch =>
      var end := BatchEnd(r);
      if end < r.next then r
      else r.(next := end, inflight := r.inflight + Range(r.next, end), checked := r.checked + (end - r.next),
              chunks := Batches(Indices(r.next, end), r.maxConcurrency))
    case Answer(i, reply) =>
      r.(inflight := r.inflight - {i}, mismatches := r.mismatches + FoundBy(r.txs[i], reply),
         errors := r.errors + (if reply.Threw? then [r.txs[i].id] else []), replies := r.replies[i := reply])
    case ChunkDone => r.(chunks := r.chunks[1..])
  }

  predicate Complete(r: Run) {
    r.next == |r.txs| && r.chunks == []
  }

  /** The transactions the rules select, in order. */
  function Filtered(all: seq<Tx>, config: ReconcileConfig): seq<Tx> {
    if |all| == 0 then []
    else
      var before := Filtered(all[..|all| - 1], config);
      if ShouldReconcile(all[|all| - 1], config) then before + [all[|all| - 1]] else before
  }

  /** The rules select by status, age and payment id, one transaction at a time, and keep the order. */
  lemma {:induction false} FilteredIsFilter(a: seq<Tx>, b: seq<Tx>, tx: Tx, config: ReconcileConfig)
    ensures Filtered(a + b, config) == Filtered(a, config) + Filtered(b, config)
    ensures Filtered([tx], config)
            == if tx.status !in config.excludeStatuses && tx.createdAt >= config.cutoff && tx.paymentId != "" then [tx]
               else []
  {
    assert [tx][..0] == [];
    if |b| == 0 {
      assert a + b == a;
    } else {
      assert (a + b)[..|a + b| - 1] == a + b[..|b| - 1];
      FilteredIsFilter(a, b[..|b| - 1], tx, config);
    }
  }

  lemma {:induction false} SelectedIff(all: seq<Tx>, config: ReconcileConfig)
    ensures forall tx :: tx in Filtered(all, config)
              <==> tx in all && tx.status !in config.excludeStatuses && tx.createdAt >= config.cutoff
                   && tx.paymentId != ""
  {
    if |all| > 0 {
      SelectedIff(all[..|all| - 1], config);
      assert all == all[..|all| - 1] + [all[|all| - 1]];
    }
  }

  /** The run of one engine object, driven by the replies. */
  class Engine {
    var isRunning: bool
    var transactions: seq<Tx>
    var batchSize: nat
    var maxConcurrency: nat
    var batches: seq<seq<Tx>>
    var chunks: seq<seq<nat>>
    var started: nat
    var inflight: set<nat>
    var checkedTransactions: nat
    var mismatches: seq<Mismatch>
    var errors: seq<string>
    ghost var replies: map<nat, Reply>

    ghost function State(): Run
      reads this
    {
      Run(transactions, batchSize, maxConcurrency, started, inflight, chunks, checkedTransactions, mismatches, errors,
          replies)
    }

    /** The batches not yet started are those of the transactions not yet started. */
    ghost predicate Valid()
      reads this
    {
      && batchSize > 0 && maxConcurrency > 0
      && started <= |transactions| && batches == Batches(transactions[started..], batchSize)
    }

    constructor ()
      ensures !isRunning
    {
      isRunning := false;
    }

    /** `runReconciliation` up to the first batch; a second run while one is going throws. */
    method Begin(all: seq<Tx>, config: ReconcileConfig, batchSize: nat, maxConcurrency: nat) returns (ok: bool)
      requires batchSize > 0 && maxConcurrency > 0
      modifies this
      ensures ok == !old(isRunning) && isRunning
      ensures !ok ==> State() == old(State()) && batches == old(batches)
      ensures ok ==> Valid() && State() == Begun(Filtered(all, config), batchSize, maxConcurrency)
      ensures ok ==>
                && mismatches == Duplicates(transactions) && errors == [] && checkedTransactions == 0
                && started == 0 && inflight == {} && chunks == []
                && forall tx :: tx in transactions
                     <==> tx in all && tx.status !in config.excludeStatuses && tx.createdAt >= config.cutoff
                          && tx.paymentId != ""
    {
      hide Filtered, Begun, Batches;
      if isRunning {
        return false;
      }
      FillReport(all, config, batchSize, maxConcurrency);
      SelectedIff(all, config);
      isRunning := true;
      return true;
    }

    /** The selected transactions, their duplicates and their batches. */
    method FillReport(all: seq<Tx>, config: ReconcileConfig, batchSize: nat, maxConcurrency: nat)
      requires batchSize > 0 && maxConcurrency > 0
      modifies this
      ensures Valid() && State() == Begun(Filtered(all, config), batchSize, maxConcurrency)
      ensures mismatches == Duplicates(transactions) && errors == [] && checkedTransactions == 0
      ensures started == 0 && inflight == {} && chunks == [] && transactions == Filtered(all, config)
    {
      hide Filtered, Duplicates, Batches;
      transactions := FilterTransactions(all, config);
      this.batchSize, this.maxConcurrency := batchSize, maxConcurrency;
      mismatches := DetectDuplicatePayments(transactions);
      batches := CreateBatches(transactions, batchSize);
      assert transactions[0..] == transactions;
      started, inflight, chunks, checkedTransactions, errors, replies := 0, {}, [], 0, [], map[];
    }

    /** The synchronous part of `processBatch`: each check runs up to its `await`, then the started checks are cut into
        chunks. */
    method StartNextBatch()
      requires Valid() && Enabled(State(), StartBatch)
      modifies this
      ensures Valid() && State() == Next(old(State()), StartBatch)
      ensures started == if old(started) + batchSize < |transactions| then old(started) + batchSize
                         else |transactions|
      ensures checkedTransactions == old(checkedTransactions) + (started - old(started))
      ensures forall i: nat :: i in inflight <==> i in old(inflight) || old(started) <= i < started
      ensures old(started) <= started && chunks == Batches(Indices(old(started), started), maxConcurrency)
      ensures unchanged(this`isRunning, this`mismatches, this`errors, this`transactions)
    {
      var batch := batches[0];
      assert |batch| == BatchEnd(State()) - started;
      assert |transactions| - started > batchSize ==>
        transactions[started..][batchSize..] == transactions[started + batchSize..];
      hide Batches;
      var promises := Indices(started, started + |batch|);
      inflight := inflight + Range(started, started + |batch|);
      checkedTransactions := checkedTransactions + |batch|;
      started := started + |batch|;
      batches := batches[1..];
      chunks := CreateBatches(promises, maxConcurrency);
    }

    /** The loop over the chunks goes on when the first one has settled. */
    method AwaitChunk()
      requires Valid() && Enabled(State(), ChunkDone)
      modifies this`chunks
      ensures Valid() && State() == Next(old(State()), ChunkDone)
    {
      chunks := chunks[1..];
    }

    /** The rest of one check. */
    method OnReply(i: nat, reply: Reply)
      requires Valid() && Enabled(State(), Answer(i, reply))
      modifies this
      ensures Valid() && State() == Next(old(State()), Answer(i, reply))
      ensures reply.Replied? ==>
                mismatches == old(mismatches) + Detected(transactions[i], reply.data) && errors == old(errors)
      ensures reply.Threw? ==> mismatches == old(mismatches) && errors == old(errors) + [transactions[i].id]
      ensures inflight == old(inflight) - {i}
      ensures unchanged(this`isRunning, this`started, this`chunks, this`checkedTransactions, this`transactions)
    {
      match reply {
        case Replied(data) =>
          var found := DetectMismatches(transactions[i], data);
          if |found| > 0 {
            mismatches := mismatches + found;
          }
          assert errors + [] == errors;
        case Threw =>
          errors := errors + [transactions[i].id];
          assert mismatches + [] == mismatches;
      }
      inflight := inflight - {i};
      replies := replies[i := reply];
    }

    /** The end of the run: `matchedTransactions` is computed from the two other counters. */
    method Finish() returns (checked: nat, mismatchCount: nat, matchedTransactions: int)
      requires Complete(State())
      modifies this`isRunning
      ensures !isRunning && checked == checkedTransactions && mismatchCount == |mismatches|
      ensures matchedTransactions == checked - mismatchCount
    {
      isRunning := false;
      checked, mismatchCount := checkedTransactions, |mismatches|;
      matchedTransactions := checkedTransactions - mismatchCount;
    }

    method FilterTransactions(all: seq<Tx>, config: ReconcileConfig) returns (kept: seq<Tx>)
      ensures kept == Filtered(all, config)
    {
      kept := [];
      for i := 0 to |all|
        invariant kept == Filtered(all[..i], config)
      {
        assert all[..i + 1][..i] == all[..i];
        if ShouldReconcile(all[i], config) {
          kept := kept + [all[i]];
        }
      }
      assert all[..|all|] == all;
    }
  }

  // ----- whole runs -----

  function After(txs: seq<Tx>, batchSize: nat, maxConcurrency: nat, steps: seq<Step>): Run {
    if |steps| == 0 then Begun(txs, batchSize, maxConcurrency)
    else
      var before := After(txs, batchSize, maxConcurrency, steps[..|steps| - 1]);
      if Enabled(before, steps[|steps| - 1]) then Next(before, steps[|steps| - 1]) else before
  }

  /** What the reply to transaction `i` found, if there is one. */
  function FoundAt(txs: seq<Tx>, replies: map<nat, Reply>, i: nat): multiset<Mismatch>
    requires i < |txs|
  {
    if i in replies then multiset(FoundBy(txs[i], replies[i])) else multiset{}
  }

  /** What the replies to the first `n` transactions add up to. */
  function Collected(txs: seq<Tx>, replies: map<nat, Reply>, n: nat): multiset<Mismatch>
    requires n <= |txs|
  {
    if n == 0 then multiset{} else Collected(txs, replies, n - 1) + FoundAt(txs, replies, n - 1)
  }

  function ThrewCount(replies: map<nat, Reply>, n: nat): nat {
    if n == 0 then 0 else ThrewCount(replies, n - 1) + (if n - 1 in replies && replies[n - 1].Threw? then 1 else 0)
  }

  lemma FoundAfterReply(txs: seq<Tx>, replies: map<nat, Reply>, i: nat, reply: Reply, k: nat)
    requires i !in replies && i < |txs| && k < |txs|
    ensures FoundAt(txs, replies[i := reply], k)
            == if k == i then multiset(FoundBy(txs[i], reply)) else FoundAt(txs, replies, k)
    ensures k == i ==> FoundAt(txs, replies, k) == multiset{}
  {
  }

  lemma {:induction false} ReplyCollected(txs: seq<Tx>, replies: map<nat, Reply>, i: nat, reply: Reply, n: nat)
    requires i !in replies && n <= |txs| && i < |txs|
    ensures Collected(txs, replies[i := reply], n)
            == Collected(txs, replies, n) + (if i < n then multiset(FoundBy(txs[i], reply)) else multiset{})
    decreases n
  {
    hide FoundBy, FoundAt;
    if n > 0 {
      ReplyCollected(txs, replies, i, reply, n - 1);
      FoundAfterReply(txs, replies, i, reply, n - 1);
    }
  }

  lemma {:induction false} ReplyThrewCount(replies: map<nat, Reply>, i: nat, reply: Reply, n: nat)
    requires i !in replies
    ensures ThrewCount(replies[i := reply], n) == ThrewCount(replies, n) + (if i < n && reply.Threw? then 1 else 0)
    decreases n
  {
    if n > 0 { ReplyThrewCount(replies, i, reply, n - 1); }
  }

  /** Each started transaction is either in flight, and then in a chunk not yet awaited, or has its one reply; and the
      report holds the duplicates plus what the replies so far found. */
  ghost predicate Inv(r: Run) {
    && r.next <= |r.txs| && r.checked == r.next
    && r.inflight !! r.replies.Keys && r.inflight + r.replies.Keys == Range(0, r.next)
    && (forall i :: i in r.inflight ==> i in Concat(r.chunks))
    && multiset(r.mismatches) == multiset(Duplicates(r.txs)) + Collected(r.txs, r.replies, |r.txs|)
    && |r.errors| == ThrewCount(r.replies, |r.txs|)
  }

  lemma AnswerKeepsInv(r: Run, i: nat, reply: Reply)
    requires Inv(r) && Enabled(r, Answer(i, reply))
    ensures Inv(Next(r, Answer(i, reply)))
  {
    hide Duplicates, Collected, ThrewCount, FoundBy;
    var r' := Next(r, Answer(i, reply));
    ReplyCollected(r.txs, r.replies, i, reply, |r.txs|);
    ReplyThrewCount(r.replies, i, reply, |r.txs|);
    assert r'.replies.Keys == r.replies.Keys + {i};
    assert i in Range(0, r.next);
  }

  lemma {:induction false} NothingYet(txs: seq<Tx>, n: nat)
    requires n <= |txs|
    ensures Collected(txs, map[], n) == multiset{} && ThrewCount(map[], n) == 0
  {
    if n > 0 { NothingYet(txs, n - 1); }
  }

  lemma StartKeepsInv(r: Run)
    requires Inv(r) && Enabled(r, StartBatch) && r.batchSize > 0
    ensures Inv(Next(r, StartBatch))
    ensures r.inflight == {} && Next(r, StartBatch).inflight == Range(r.next, BatchEnd(r))
  {
    hide Duplicates, Collected, ThrewCount;
    assert Concat(r.chunks) == [];
    var end := BatchEnd(r);
    BatchesPartition(Indices(r.next, end), r.maxConcurrency);
    hide Batches, Concat;
    assert Range(0, r.next) + Range(r.next, end) == Range(0, end);
    forall i | i in Range(r.next, end) ensures i in Indices(r.next, end) {
      assert Indices(r.next, end)[i - r.next] == i;
    }
  }

  lemma ChunkKeepsInv(r: Run)
    requires Inv(r) && Enabled(r, ChunkDone)
    ensures Inv(Next(r, ChunkDone))
  {
    hide Duplicates, Collected, ThrewCount;
    assert Concat(r.chunks) == r.chunks[0] + Concat(r.chunks[1..]);
  }

  lemma StepKeepsInv(r: Run, step: Step)
    requires Inv(r) && Enabled(r, step) && r.batchSize > 0
    ensures Inv(Next(r, step))
  {
    match step {
      case StartBatch => StartKeepsInv(r);
      case Answer(i, reply) => AnswerKeepsInv(r, i, reply);
      case ChunkDone => ChunkKeepsInv(r);
    }
  }

  lemma {:induction false} RunKeepsInv(txs: seq<Tx>, batchSize: nat, maxConcurrency: nat, steps: seq<Step>)
    requires batchSize > 0
    ensures var r := After(txs, batchSize, maxConcurrency, steps);
            Inv(r) && r.txs == txs && r.batchSize == batchSize && r.maxConcurrency == maxConcurrency
  {
    if |steps| == 0 {
      NothingYet(txs, |txs|);
    } else {
      RunKeepsInv(txs, batchSize, maxConcurrency, steps[..|steps| - 1]);
      var before, step := After(txs, batchSize, maxConcurrency, steps[..|steps| - 1]), steps[|steps| - 1];
      hide Inv;
      if Enabled(before, step) { StepKeepsInv(before, step); }
    }
  }

  /** A complete run, whatever the batch size, the chunks and the order of the replies: every selected transaction is
      checked exactly once, and the mismatches are a permutation of the duplicates plus each transaction's own. */
  lemma CompleteRunReportsEverything(txs: seq<Tx>, batchSize: nat, maxConcurrency: nat, steps: seq<Step>)
    requires batchSize > 0 && Complete(After(txs, batchSize, maxConcurrency, steps))
    ensures var r := After(txs, batchSize, maxConcurrency, steps);
            && r.checked == |txs| && r.inflight == {}
            && r.replies.Keys == Range(0, |txs|)
            && multiset(r.mismatches) == multiset(Duplicates(txs)) + Collected(txs, r.replies, |txs|)
            && |r.errors| == ThrewCount(r.replies, |txs|)
  {
    RunKeepsInv(txs, batchSize, maxConcurrency, steps);
    assert Concat(After(txs, batchSize, maxConcurrency, steps).chunks) == [];
  }

  /** A transaction with a reply is never in flight again, so no check is repeated. */
  lemma NoSecondCheck(txs: seq<Tx>, batchSize: nat, maxConcurrency: nat, steps: seq<Step>, step: Step, i: nat)
    requires batchSize > 0 && i in After(txs, batchSize, maxConcurrency, steps).replies
    ensures var before := After(txs, batchSize, maxConcurrency, steps);
            var after := After(txs, batchSize, maxConcurrency, steps + [step]);
            i !in after.inflight && i in after.replies && after.replies[i] == before.replies[i]
  {
    RunKeepsInv(txs, batchSize, maxConcurrency, steps);
    RunKeepsInv(txs, batchSize, maxConcurrency, steps + [step]);
    assert (steps + [step])[..|steps|] == steps;
  }

  // ----- what the chunks do -----

  /** Awaits the chunks as far as they have settled. */
  function Awaited(r: Run): Run
    decreases |r.chunks|
  {
    if r.chunks != [] && Settled(r.chunks[0], r.inflight) then Awaited(r.(chunks := r.chunks[1..])) else r
  }

  lemma {:induction false} AwaitedIff(r: Run)
    requires forall i :: i in r.inflight ==> i in Concat(r.chunks)
    ensures Awaited(r).chunks == [] <==> r.inflight == {}
    decreases |r.chunks|
  {
    if r.chunks != [] {
      assert Concat(r.chunks) == r.chunks[0] + Concat(r.chunks[1..]);
      if Settled(r.chunks[0], r.inflight) {
        AwaitedIff(r.(chunks := r.chunks[1..]));
      } else {
        assert r.inflight != {};
      }
    } else {
      assert Concat(r.chunks) == [];
    }
  }

  /** On every run the chunk-wise wait for a batch can come to its end exactly when every reply of the batch is in:
      neither earlier, nor later than one wait for all. */
  lemma WaitEndsIff(txs: seq<Tx>, batchSize: nat, maxConcurrency: nat, steps: seq<Step>)
    requires batchSize > 0
    ensures var r := After(txs, batchSize, maxConcurrency, steps);
            Awaited(r).chunks == [] <==> r.inflight == {}
  {
    RunKeepsInv(txs, batchSize, maxConcurrency, steps);
    AwaitedIff(After(txs, batchSize, maxConcurrency, steps));
  }

  function Smaller(a: nat, b: nat): nat {
    if a < b then a else b
  }

  lemma {:induction false} RangeSize(low: nat, high: nat)
    requires low <= high
    ensures |Range(low, high)| == high - low
    decreases high
  {
    if low == high {
      assert Range(low, high) == {};
    } else {
      RangeSize(low, high - 1);
      assert Range(low, high) == Range(low, high - 1) + {high - 1};
    }
  }

  /** When a batch starts, as many checks are in flight as it has members: within `maxConcurrency` exactly when the
      batch is not larger. */
  lemma BatchWithinLimitIff(txs: seq<Tx>, batchSize: nat, maxConcurrency: nat, steps: seq<Step>)
    requires batchSize > 0 && Enabled(After(txs, batchSize, maxConcurrency, steps), StartBatch)
    ensures var r := After(txs, batchSize, maxConcurrency, steps);
            && |Next(r, StartBatch).inflight| == Smaller(batchSize, |r.txs| - r.next)
            && (|Next(r, StartBatch).inflight| <= maxConcurrency
                <==> Smaller(batchSize, |r.txs| - r.next) <= maxConcurrency)
  {
    hide After, Inv, Batches, Duplicates;
    RunKeepsInv(txs, batchSize, maxConcurrency, steps);
    var r := After(txs, batchSize, maxConcurrency, steps);
    StartKeepsInv(r);
    RangeSize(r.next, BatchEnd(r));
    BatchSize(r);
    hide Next, BatchEnd, Range;
  }

  lemma BatchSize(r: Run)
    requires r.next <= |r.txs|
    ensures r.next <= BatchEnd(r) && BatchEnd(r) - r.next == Smaller(r.batchSize, |r.txs| - r.next)
  {
  }

  lemma {:induction false} InFlightBound(txs: seq<Tx>, batchSize: nat, maxConcurrency: nat, steps: seq<Step>)
    requires batchSize > 0
    ensures |After(txs, batchSize, maxConcurrency, steps).inflight| <= Smaller(batchSize, |txs|)
  {
    if |steps| > 0 {
      var p, step := steps[..|steps| - 1], steps[|steps| - 1];
      InFlightBound(txs, batchSize, maxConcurrency, p);
      var before := After(txs, batchSize, maxConcurrency, p);
      RunKeepsInv(txs, batchSize, maxConcurrency, p);
      hide Inv, After;
      if Enabled(before, step) && step.StartBatch? {
        StartKeepsInv(before);
        RangeSize(before.next, BatchEnd(before));
      }
    }
  }

  ghost predicate NeverOverLimit(txs: seq<Tx>, batchSize: nat, maxConcurrency: nat) {
    forall steps :: |After(txs, batchSize, maxConcurrency, steps).inflight| <= maxConcurrency
  }

  /** Cutting the checks into chunks comes too late to limit them: over all runs the number in flight stays within
      `maxConcurrency` exactly when no batch is larger than that. */
  lemma ConcurrencyLimitedIff(txs: seq<Tx>, batchSize: nat, maxConcurrency: nat)
    requires batchSize > 0 && maxConcurrency > 0
    ensures NeverOverLimit(txs, batchSize, maxConcurrency) <==> Smaller(batchSize, |txs|) <= maxConcurrency
  {
    if Smaller(batchSize, |txs|) <= maxConcurrency {
      forall steps ensures |After(txs, batchSize, maxConcurrency, steps).inflight| <= maxConcurrency {
        InFlightBound(txs, batchSize, maxConcurrency, steps);
      }
    } else {
      var first := [StartBatch];
      assert first[..0] == [];
      assert After(txs, batchSize, maxConcurrency, []) == Begun(txs, batchSize, maxConcurrency);
      BatchWithinLimitIff(txs, batchSize, maxConcurrency, []);
      assert After(txs, batchSize, maxConcurrency, first)
          == Next(After(txs, batchSize, maxConcurrency, []), StartBatch);
    }
  }

  // ----- what matchedTransactions means -----

  /** How many mismatches of the report concern transaction `i`. */
  function Load(txs: seq<Tx>, replies: map<nat, Reply>, i: nat): nat
    requires i < |txs|
  {
    (if i in replies then |FoundBy(txs[i], replies[i])| else 0)
    + |PlainItem(txs[i], txs, set k | k in PaymentIds(txs))|
  }

  function TotalLoad(txs: seq<Tx>, replies: map<nat, Reply>, n: nat): nat
    requires n <= |txs|
  {
    if n == 0 then 0 else TotalLoad(txs, replies, n - 1) + Load(txs, replies, n - 1)
  }

  /** The transactions without a reported mismatch among the first `n`; a check that threw reports none. */
  function UnreportedCount(txs: seq<Tx>, replies: map<nat, Reply>, n: nat): nat
    requires n <= |txs|
  {
    if n == 0 then 0 else UnreportedCount(txs, replies, n - 1) + (if Load(txs, replies, n - 1) == 0 then 1 else 0)
  }

  /** The mismatches beyond the first of each transaction. */
  function ExtraLoad(txs: seq<Tx>, replies: map<nat, Reply>, n: nat): nat
    requires n <= |txs|
  {
    if n == 0 then 0
    else ExtraLoad(txs, replies, n - 1) + (if Load(txs, replies, n - 1) > 1 then Load(txs, replies, n - 1) - 1 else 0)
  }

  lemma {:induction false} LoadsBalance(txs: seq<Tx>, replies: map<nat, Reply>, n: nat)
    requires n <= |txs|
    ensures n - TotalLoad(txs, replies, n) == UnreportedCount(txs, replies, n) - ExtraLoad(txs, replies, n)
    ensures ExtraLoad(txs, replies, n) == 0 <==> forall i :: 0 <= i < n ==> Load(txs, replies, i) <= 1
  {
    hide Load;
    if n > 0 {
      LoadsBalance(txs, replies, n - 1);
    }
  }

  lemma {:induction false} LoadsAddUp(txs: seq<Tx>, replies: map<nat, Reply>, n: nat)
    requires n <= |txs|
    ensures TotalLoad(txs, replies, n)
            == |Collected(txs, replies, n)| + |PlainDuplicates(txs[..n], txs, set k | k in PaymentIds(txs))|
    decreases n
  {
    hide PlainItem, FoundBy, PaymentIds;
    if n > 0 {
      LoadsAddUp(txs, replies, n - 1);
      assert txs[..n][..n - 1] == txs[..n - 1];
      assert n - 1 in replies ==>
          |multiset(FoundBy(txs[n - 1], replies[n - 1]))| == |FoundBy(txs[n - 1], replies[n - 1])|;
    }
  }

  /** The provider answered, and neither its answer nor a duplicate gives a mismatch. */
  predicate Confirmed(txs: seq<Tx>, replies: map<nat, Reply>, i: nat)
    requires i < |txs|
  {
    i in replies && replies[i].Replied? && Load(txs, replies, i) == 0
  }

  /** The check threw, and there is no duplicate. */
  predicate Unchecked(txs: seq<Tx>, replies: map<nat, Reply>, i: nat)
    requires i < |txs|
  {
    i in replies && replies[i].Threw? && Load(txs, replies, i) == 0
  }

  function ConfirmedCount(txs: seq<Tx>, replies: map<nat, Reply>, n: nat): nat
    requires n <= |txs|
  {
    if n == 0 then 0 else ConfirmedCount(txs, replies, n - 1) + (if Confirmed(txs, replies, n - 1) then 1 else 0)
  }

  function UncheckedCount(txs: seq<Tx>, replies: map<nat, Reply>, n: nat): nat
    requires n <= |txs|
  {
    if n == 0 then 0 else UncheckedCount(txs, replies, n - 1) + (if Unchecked(txs, replies, n - 1) then 1 else 0)
  }

  lemma {:induction false} UnreportedSplits(txs: seq<Tx>, replies: map<nat, Reply>, n: nat)
    requires n <= |txs| && forall i :: 0 <= i < n ==> i in replies
    ensures UnreportedCount(txs, replies, n) == ConfirmedCount(txs, replies, n) + UncheckedCount(txs, replies, n)
  {
    hide Load;
    if n > 0 { UnreportedSplits(txs, replies, n - 1); }
  }

  /** What `matchedTransactions` is: the confirmed transactions, plus those that were never compared, minus the
      mismatches beyond each transaction's first.  It is the number of confirmed transactions exactly when the last
      two balance. */
  lemma MatchedIsConfirmedIff(txs: seq<Tx>, batchSize: nat, maxConcurrency: nat, steps: seq<Step>)
    requires batchSize > 0 && Complete(After(txs, batchSize, maxConcurrency, steps))
    ensures var r := After(txs, batchSize, maxConcurrency, steps);
            var matched := r.checked - |r.mismatches|;
            && matched == ConfirmedCount(txs, r.replies, |txs|) + UncheckedCount(txs, r.replies, |txs|)
                          - ExtraLoad(txs, r.replies, |txs|)
            && (matched == ConfirmedCount(txs, r.replies, |txs|)
                <==> ExtraLoad(txs, r.replies, |txs|) == UncheckedCount(txs, r.replies, |txs|))
  {
    CompleteRunReportsEverything(txs, batchSize, maxConcurrency, steps);
    var r := After(txs, batchSize, maxConcurrency, steps);
    LoadsBalance(txs, r.replies, |txs|);
    LoadsAddUp(txs, r.replies, |txs|);
    UnreportedSplits(txs, r.replies, |txs|);
    DuplicatesArePlain(txs);
    assert txs[..|txs|] == txs;
    hide After, Duplicates, PlainDuplicates, Collected, Load, TotalLoad, UnreportedCount, ExtraLoad;
    var plain := PlainDuplicates(txs, txs, set k | k in PaymentIds(txs));
    assert |multiset(r.mismatches)| == |r.mismatches|;
    assert |multiset(Duplicates(txs))| == |multiset(plain)| == |plain|;
  }

  /** So when no check threw, it is right exactly when no transaction has more than one mismatch. */
  lemma MatchedWithoutErrorsIff(txs: seq<Tx>, batchSize: nat, maxConcurrency: nat, steps: seq<Step>)
    requires batchSize > 0 && Complete(After(txs, batchSize, maxConcurrency, steps))
    requires After(txs, batchSize, maxConcurrency, steps).errors == []
    ensures var r := After(txs, batchSize, maxConcurrency, steps);
            r.checked - |r.mismatches| == ConfirmedCount(txs, r.replies, |txs|)
            <==> forall i :: 0 <= i < |txs| ==> Load(txs, r.replies, i) <= 1
  {
    MatchedIsConfirmedIff(txs, batchSize, maxConcurrency, steps);
    CompleteRunReportsEverything(txs, batchSize, maxConcurrency, steps);
    var r := After(txs, batchSize, maxConcurrency, steps);
    LoadsBalance(txs, r.replies, |txs|);
    UncheckedThrew(txs, r.replies, |txs|);
  }

  lemma {:induction false} UncheckedThrew(txs: seq<Tx>, replies: map<nat, Reply>, n: nat)
    requires n <= |txs|
    ensures UncheckedCount(txs, replies, n) <= ThrewCount(replies, n)
  {
    hide Load;
    if n > 0 { UncheckedThrew(txs, replies, n - 1); }
  }
}
