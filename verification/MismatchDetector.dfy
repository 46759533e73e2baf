/** Reconciliation rules and the detection of mismatches, amounts as exact numbers. */
module MismatchDetector {
  import opened Text

  datatype PaymentStatus = Pending | Processing | Paid | Failed | Expired | Cancelled | Refunded

  datatype Kind = StatusMismatch | AmountMismatch | MissingLocal | MissingProvider | DuplicatePayment | ProviderError

  datatype Severity = Low | Medium | High | Critical

  /** A local transaction; an absent `paymentId` is the empty string. */
  datatype Tx = Tx(id: string, status: PaymentStatus, amount: real, provider: string, paymentId: string, createdAt: int)

  /** What the provider returned: nothing, an object with an error, or a status, with an amount or without. */
  datatype ProviderData = Absent | Errored | Data(status: PaymentStatus, amount: Option<real>)

  /** A mismatch; `related` lists the duplicate ids.  The generated id, the dates and the advice text are left out. */
  datatype Mismatch = Mismatch(kind: Kind, transactionId: string, provider: string, localStatus: PaymentStatus,
                               providerStatus: Option<PaymentStatus>, localAmount: real, providerAmount: Option<real>,
                               severity: Severity, related: seq<string>)

  datatype ReconcileConfig = ReconcileConfig(excludeStatuses: seq<PaymentStatus>, cutoff: int)

  /** `shouldReconcileTransaction`; `cutoff` is the date `lookbackDays` ago. */
  predicate ShouldReconcile(tx: Tx, config: ReconcileConfig) {
    tx.status !in config.excludeStatuses && tx.createdAt >= config.cutoff && tx.paymentId != ""
  }

  function Abs(x: real): real {
    if x < 0.0 then -x else x
  }

  /** Whether (diff / localAmount) * 100 exceeds `limit`; a division by zero gives infinity, or NaN for 0 / 0. */
  predicate PercentageOver(diff: real, localAmount: real, limit: real) {
    if localAmount > 0.0 then diff * 100.0 > limit * localAmount
    else if localAmount < 0.0 then diff * 100.0 < limit * localAmount
    else diff > 0.0
  }

  /** The severity rules. */
  function GetSeverity(kind: Kind, localStatus: PaymentStatus, providerStatus: Option<PaymentStatus>,
                       localAmount: real, providerAmount: Option<real>): Severity {
    match kind
    case StatusMismatch =>
      if localStatus == Paid && (providerStatus == Some(Failed) || providerStatus == Some(Cancelled)) then Critical
      else if providerStatus == Some(Paid) && localStatus != Paid then High
      else if localStatus == Pending || localStatus == Processing then Medium
      else Low
    case AmountMismatch =>
      match providerAmount {
        case None => Low
        case Some(p) =>
          var diff := Abs(localAmount - p);
          if PercentageOver(diff, localAmount, 10.0) then Critical
          else if PercentageOver(diff, localAmount, 5.0) then High
          else if PercentageOver(diff, localAmount, 1.0) then Medium
          else Low
      }
    case MissingLocal => Critical
    case MissingProvider => High
    case DuplicatePayment => Critical
    case ProviderError => Medium
  }

  /** Which severity a status mismatch has, and those of the other kinds without amounts. */
  lemma StatusSeverityIff(localStatus: PaymentStatus, providerStatus: Option<PaymentStatus>, localAmount: real,
                          providerAmount: Option<real>)
    ensures var s := GetSeverity(StatusMismatch, localStatus, providerStatus, localAmount, providerAmount);
            && (s == Critical <==> localStatus == Paid && providerStatus in {Some(Failed), Some(Cancelled)})
            && (s == High <==> localStatus != Paid && providerStatus == Some(Paid))
            && (s == Medium <==> localStatus in {Pending, Processing} && providerStatus != Some(Paid))
    ensures forall kind :: kind != StatusMismatch && kind != AmountMismatch ==>
              GetSeverity(kind, localStatus, providerStatus, localAmount, providerAmount)
              == if kind == MissingLocal || kind == DuplicatePayment then Critical
                 else if kind == MissingProvider then High else Medium
  {
  }

  /** The provider's amount is below `low` or above `high` times the local one. */
  predicate Outside(localAmount: real, p: real, low: real, high: real) {
    p < low * localAmount || p > high * localAmount
  }

  /** The bands of an amount mismatch: 10, 5 and 1 percent of a positive local amount; any difference from zero is
      critical, and a negative local amount makes everything low. */
  lemma AmountSeverityBands(localStatus: PaymentStatus, providerStatus: Option<PaymentStatus>, localAmount: real,
                            p: real)
    ensures var s := GetSeverity(AmountMismatch, localStatus, providerStatus, localAmount, Some(p));
            && (s == Critical <==> localAmount >= 0.0 && Outside(localAmount, p, 0.9, 1.1))
            && (s == High
                <==> localAmount > 0.0 && Outside(localAmount, p, 0.95, 1.05) && !Outside(localAmount, p, 0.9, 1.1))
            && (s == Medium
                <==> localAmount > 0.0 && Outside(localAmount, p, 0.99, 1.01) && !Outside(localAmount, p, 0.95, 1.05))
  {
  }

  function Created(kind: Kind, tx: Tx, providerStatus: Option<PaymentStatus>, providerAmount: Option<real>,
                   related: seq<string>): Mismatch {
    Mismatch(kind, tx.id, tx.provider, tx.status, providerStatus, tx.amount, providerAmount,
             GetSeverity(kind, tx.status, providerStatus, tx.amount, providerAmount), related)
  }

  // ----- one transaction against its provider -----

  /** More than one percent of the local amount apart; without a provider amount the comparison is with NaN. */
  predicate AmountsDiffer(tx: Tx, providerAmount: Option<real>) {
    providerAmount.Some? && Abs(tx.amount - providerAmount.value) > tx.amount * 0.01
  }

  /** The size of the tolerance: one percent either way, none for a negative local amount. */
  lemma AmountsDifferIff(tx: Tx, p: real)
    ensures AmountsDiffer(tx, Some(p)) <==> tx.amount < 0.0 || Outside(tx.amount, p, 0.99, 1.01)
    ensures !AmountsDiffer(tx, None)
  {
  }

  function Detected(tx: Tx, data: ProviderData): seq<Mismatch> {
    match data
    case Data(status, amount) =>
      (if tx.status != status then [Created(StatusMismatch, tx, Some(status), amount, [])] else [])
      + (if AmountsDiffer(tx, amount) then [Created(AmountMismatch, tx, Some(status), amount, [])] else [])
    case _ => [Created(MissingProvider, tx, None, None, [])]
  }

  /** `detectMismatches`. */
  method DetectMismatches(tx: Tx, data: ProviderData) returns (mismatches: seq<Mismatch>)
    ensures mismatches == Detected(tx, data)
    ensures !data.Data? ==>
              mismatches == [Mismatch(MissingProvider, tx.id, tx.provider, tx.status, None, tx.amount, None, High, [])]
    ensures data.Data? ==>
              var differ := data.amount.Some?
                            && (tx.amount < 0.0 || Outside(tx.amount, data.amount.value, 0.99, 1.01));
              && |mismatches| == (if data.status != tx.status then 1 else 0) + (if differ then 1 else 0)
              && (data.status != tx.status ==> mismatches[0].kind == StatusMismatch)
              && (differ ==> mismatches[|mismatches| - 1].kind == AmountMismatch)
    ensures data.Data? ==>
              forall m :: m in mismatches ==>
                m == Mismatch(m.kind, tx.id, tx.provider, tx.status, Some(data.status), tx.amount, data.amount,
                              GetSeverity(m.kind, tx.status, Some(data.status), tx.amount, data.amount), [])
  {
    if data.Data? && data.amount.Some? { AmountsDifferIff(tx, data.amount.value); }
    hide GetSeverity;
    StatusSeverityIff(tx.status, None, tx.amount, None);
    mismatches := [];
    if data.Absent? || data.Errored? {
      mismatches := mismatches + [Created(MissingProvider, tx, None, None, [])];
      return;
    }
    if tx.status != data.status {
      mismatches := mismatches + [Created(StatusMismatch, tx, Some(data.status), data.amount, [])];
    }
    if data.amount.Some? {
      var amountDiff := Abs(tx.amount - data.amount.value);
      var tolerance := tx.amount * 0.01;
      if amountDiff > tolerance {
        mismatches := mismatches + [Created(AmountMismatch, tx, Some(data.status), data.amount, [])];
      }
    }
  }

  /** No mismatch is found exactly when the provider answered with the same status and, if it gave one, an amount
      within one percent. */
  lemma CleanIff(tx: Tx, data: ProviderData)
    ensures Detected(tx, data) == [] <==> data.Data? && data.status == tx.status && !AmountsDiffer(tx, data.amount)
    ensures |Detected(tx, data)| <= 2
  {
  }

  /** The one percent of the detector and the one percent of the severity rule meet: a reported amount mismatch has
      the lowest severity exactly when the local amount is negative, and then even equal amounts are reported. */
  lemma AmountSeverityIff(tx: Tx, data: ProviderData)
    requires data.Data? && AmountsDiffer(tx, data.amount)
    ensures Created(AmountMismatch, tx, Some(data.status), data.amount, []).severity == Low <==> tx.amount < 0.0
    ensures tx.amount < 0.0 ==> AmountsDiffer(tx, Some(tx.amount))
  {
  }

  // ----- duplicates -----

  /** The transactions with that payment id, in order. */
  function WithPaymentId(txs: seq<Tx>, paymentId: string): (r: seq<Tx>)
    ensures |r| <= |txs|
  {
    if |txs| == 0 then []
    else
      var last := txs[|txs| - 1];
      WithPaymentId(txs[..|txs| - 1], paymentId) + (if last.paymentId == paymentId then [last] else [])
  }

  /** The payment ids in the order of their first transactions: the key order of the grouping map. */
  function PaymentIds(txs: seq<Tx>): seq<string> {
    if |txs| == 0 then []
    else
      var before, id := PaymentIds(txs[..|txs| - 1]), txs[|txs| - 1].paymentId;
      if id == "" || id in before then before else before + [id]
  }

  function Ids(txs: seq<Tx>): seq<string> {
    if |txs| == 0 then [] else Ids(txs[..|txs| - 1]) + [txs[|txs| - 1].id]
  }

  function DuplicateOf(tx: Tx, group: seq<Tx>): Mismatch {
    Created(DuplicatePayment, tx, None, None, Ids(group))
  }

  /** A duplicate is critical, keeps the data of its transaction, and names all members of its group. */
  lemma {:induction false} DuplicateOfIs(tx: Tx, group: seq<Tx>)
    ensures DuplicateOf(tx, group)
            == Mismatch(DuplicatePayment, tx.id, tx.provider, tx.status, None, tx.amount, None, Critical, Ids(group))
    ensures |Ids(group)| == |group| && forall k :: 0 <= k < |group| ==> Ids(group)[k] == group[k].id
  {
    if |group| > 0 { DuplicateOfIs(tx, group[..|group| - 1]); }
  }

  /** A group keeps the members with the payment id, in order, and nothing else. */
  lemma {:induction false} GroupIsFilter(a: seq<Tx>, b: seq<Tx>, tx: Tx, paymentId: string)
    ensures WithPaymentId(a + b, paymentId) == WithPaymentId(a, paymentId) + WithPaymentId(b, paymentId)
    ensures WithPaymentId([tx], paymentId) == if tx.paymentId == paymentId then [tx] else []
  {
    assert [tx][..0] == [];
    if |b| == 0 {
      assert a + b == a;
    } else {
      assert (a + b)[..|a + b| - 1] == a + b[..|b| - 1];
      GroupIsFilter(a, b[..|b| - 1], tx, paymentId);
    }
  }

  /** One mismatch for each of the first `n` members of a group. */
  function GroupMismatches(group: seq<Tx>, n: nat): seq<Mismatch>
    requires n <= |group|
  {
    if n == 0 then [] else GroupMismatches(group, n - 1) + [DuplicateOf(group[n - 1], group)]
  }

  /** What the groups of the first `n` keys give. */
  function KeyMismatches(keys: seq<string>, txs: seq<Tx>, n: nat): seq<Mismatch>
    requires n <= |keys|
  {
    if n == 0 then []
    else
      var group := WithPaymentId(txs, keys[n - 1]);
      KeyMismatches(keys, txs, n - 1) + (if |group| > 1 then GroupMismatches(group, |group|) else [])
  }

  /** The duplicates as the source lists them, group after group. */
  function Duplicates(txs: seq<Tx>): seq<Mismatch> {
    KeyMismatches(PaymentIds(txs), txs, |PaymentIds(txs)|)
  }

  ghost predicate Grouped(m: map<string, seq<Tx>>, keys: seq<string>, txs: seq<Tx>) {
    && keys == PaymentIds(txs) && (forall k :: k in m <==> k in keys)
    && forall k :: k in m ==> m[k] == WithPaymentId(txs, k)
  }

  lemma GroupStep(m: map<string, seq<Tx>>, keys: seq<string>, txs: seq<Tx>, tx: Tx)
    requires Grouped(m, keys, txs)
    ensures tx.paymentId == "" ==> Grouped(m, keys, txs + [tx])
    ensures tx.paymentId != "" && tx.paymentId in m ==>
            Grouped(m[tx.paymentId := m[tx.paymentId] + [tx]], keys, txs + [tx])
    ensures tx.paymentId != "" && tx.paymentId !in m ==>
              Grouped(m[tx.paymentId := [] + [tx]], keys + [tx.paymentId], txs + [tx])
  {
    var more := txs + [tx];
    assert more[..|txs|] == txs;
    KeysAreIds(txs);
    if tx.paymentId != "" && tx.paymentId !in m {
      NoneWithId(txs, tx.paymentId);
    }
    forall k | k in m && k != tx.paymentId ensures WithPaymentId(more, k) == m[k] {
      assert WithPaymentId(txs, k) + [] == WithPaymentId(txs, k);
    }
  }

  lemma {:induction false} KeysAreIds(txs: seq<Tx>)
    ensures forall k :: k in PaymentIds(txs) ==> k != ""
    ensures forall i :: 0 <= i < |txs| && txs[i].paymentId != "" ==> txs[i].paymentId in PaymentIds(txs)
    ensures forall i, j :: 0 <= i < j < |PaymentIds(txs)| ==> PaymentIds(txs)[i] != PaymentIds(txs)[j]
  {
    if |txs| > 0 { KeysAreIds(txs[..|txs| - 1]); }
  }

  lemma {:induction false} NoneWithId(txs: seq<Tx>, id: string)
    requires forall i :: 0 <= i < |txs| ==> txs[i].paymentId != id
    ensures WithPaymentId(txs, id) == []
  {
    if |txs| > 0 { NoneWithId(txs[..|txs| - 1], id); }
  }

  lemma NothingGrouped()
    ensures Grouped(map[], [], [])
  {
  }

  lemma PutTwice(m: map<string, seq<Tx>>, key: string, a: seq<Tx>, b: seq<Tx>)
    ensures m[key := a][key := b] == m[key := b]
  {
  }

  /** The first half of `detectDuplicatePayments`. */
  method GroupByPaymentId(transactions: seq<Tx>) returns (paymentIdMap: map<string, seq<Tx>>, keys: seq<string>)
    ensures Grouped(paymentIdMap, keys, transactions)
  {
    hide Grouped, WithPaymentId, PaymentIds;
    NothingGrouped();
    paymentIdMap, keys := map[], [];
    for i := 0 to |transactions|
      invariant Grouped(paymentIdMap, keys, transactions[..i])
    {
      var tx := transactions[i];
      GroupStep(paymentIdMap, keys, transactions[..i], tx);
      assert transactions[..i + 1] == transactions[..i] + [tx];
      if tx.paymentId == "" {
        continue;
      }
      if tx.paymentId !in paymentIdMap {
        PutTwice(paymentIdMap, tx.paymentId, [], [] + [tx]);
        paymentIdMap := paymentIdMap[tx.paymentId := []];
        keys := keys + [tx.paymentId];
      }
      paymentIdMap := paymentIdMap[tx.paymentId := paymentIdMap[tx.paymentId] + [tx]];
    }
    assert transactions[..|transactions|] == transactions;
  }

  /** `detectDuplicatePayments`: groups by payment id, then lists every member of every group of two or more. */
  method DetectDuplicatePayments(transactions: seq<Tx>) returns (mismatches: seq<Mismatch>)
    ensures mismatches == Duplicates(transactions)
  {
    hide GroupMismatches, WithPaymentId, PaymentIds;
    var paymentIdMap, keys := GroupByPaymentId(transactions);
    mismatches := [];
    for n := 0 to |keys|
      invariant mismatches == KeyMismatches(keys, transactions, n)
    {
      assert keys[n] in keys;
      var txList := paymentIdMap[keys[n]];
      if |txList| > 1 {
        var found := ListGroup(txList);
        mismatches := mismatches + found;
      }
    }
  }

  /** The inner loop over one group. */
  method ListGroup(txList: seq<Tx>) returns (mismatches: seq<Mismatch>)
    ensures mismatches == GroupMismatches(txList, |txList|)
    ensures |mismatches| == |txList|
    ensures forall i :: 0 <= i < |txList| ==> mismatches[i] == DuplicateOf(txList[i], txList)
  {
    hide DuplicateOf;
    mismatches := [];
    for k := 0 to |txList|
      invariant mismatches == GroupMismatches(txList, k)
      invariant |mismatches| == k && forall i :: 0 <= i < k ==> mismatches[i] == DuplicateOf(txList[i], txList)
    {
      mismatches := mismatches + [DuplicateOf(txList[k], txList)];
    }
  }

  // ----- the same list, transaction by transaction -----

  /** How often a payment id occurs. */
  function Occurrences(txs: seq<Tx>, paymentId: string): nat {
    |WithPaymentId(txs, paymentId)|
  }

  /** The mismatch of one transaction, when its payment id is in `ids` and occurs again. */
  function PlainItem(tx: Tx, all: seq<Tx>, ids: set<string>): seq<Mismatch> {
    if tx.paymentId in ids && Occurrences(all, tx.paymentId) > 1
    then [DuplicateOf(tx, WithPaymentId(all, tx.paymentId))] else []
  }

  /** The simple form: in the order of the transactions, one mismatch for each whose payment id occurs again. */
  function PlainDuplicates(txs: seq<Tx>, all: seq<Tx>, ids: set<string>): seq<Mismatch> {
    if |txs| == 0 then []
    else PlainDuplicates(txs[..|txs| - 1], all, ids) + PlainItem(txs[|txs| - 1], all, ids)
  }

  /** A mismatch for each of `members`, who belong to `group`. */
  function MembersOf(members: seq<Tx>, group: seq<Tx>): seq<Mismatch> {
    if |members| == 0 then []
        else MembersOf(members[..|members| - 1], group) + [DuplicateOf(members[|members| - 1], group)]
  }

  /** The members of the group of `id` among `txs`, when the group of all is one of two or more. */
  function GroupItems(txs: seq<Tx>, all: seq<Tx>, id: string): seq<Mismatch> {
    if Occurrences(all, id) > 1 then MembersOf(WithPaymentId(txs, id), WithPaymentId(all, id)) else []
  }

  lemma GroupItemsStep(txs: seq<Tx>, tx: Tx, all: seq<Tx>, id: string)
    ensures GroupItems(txs + [tx], all, id)
            == GroupItems(txs, all, id) + (if tx.paymentId == id then PlainItem(tx, all, {id}) else [])
  {
    var more := txs + [tx];
    assert more[..|txs|] == txs;
    var group := WithPaymentId(txs, id);
    if tx.paymentId == id {
      assert WithPaymentId(more, id) == group + [tx];
      assert (group + [tx])[..|group|] == group;
    } else {
      assert WithPaymentId(more, id) == group + [] == group;
    }
  }

  lemma PlainItemSplits(tx: Tx, all: seq<Tx>, ids: set<string>, id: string)
    requires id !in ids
    ensures PlainItem(tx, all, ids + {id})
            == PlainItem(tx, all, ids) + (if tx.paymentId == id then PlainItem(tx, all, {id}) else [])
  {
  }

  lemma JoinMultisets<T>(ab: seq<T>, a: seq<T>, x: seq<T>, b: seq<T>, y: seq<T>)
    requires multiset(ab) == multiset(a) + multiset(b)
    ensures multiset(ab + (x + y)) == multiset(a + x) + multiset(b + y)
  {
  }

  lemma PlainStep(p: seq<Tx>, tx: Tx, all: seq<Tx>, ids: set<string>)
    ensures PlainDuplicates(p + [tx], all, ids) == PlainDuplicates(p, all, ids) + PlainItem(tx, all, ids)
  {
    hide PlainItem;
    assert (p + [tx])[..|p|] == p;
  }

  lemma NothingToList(txs: seq<Tx>, all: seq<Tx>, ids: set<string>, id: string)
    requires txs == []
    ensures PlainDuplicates(txs, all, ids) == [] && PlainDuplicates(txs, all, ids + {id}) == []
    ensures GroupItems(txs, all, id) == []
  {
    assert WithPaymentId(txs, id) == [];
  }

  lemma {:induction false} PlainAddId(txs: seq<Tx>, all: seq<Tx>, ids: set<string>, id: string)
    requires id !in ids
    ensures multiset(PlainDuplicates(txs, all, ids + {id}))
            == multiset(PlainDuplicates(txs, all, ids)) + multiset(GroupItems(txs, all, id))
  {
    hide GroupItems, PlainItem, PlainDuplicates, WithPaymentId, Occurrences, MembersOf;
    if |txs| == 0 {
      NothingToList(txs, all, ids, id);
    } else {
      var p, tx := txs[..|txs| - 1], txs[|txs| - 1];
      assert txs == p + [tx];
      GroupItemsStep(p, tx, all, id);
      PlainItemSplits(tx, all, ids, id);
      PlainAddId(p, all, ids, id);
      var j := if tx.paymentId == id then PlainItem(tx, all, {id}) else [];
      PlainStep(p, tx, all, ids + {id});
      PlainStep(p, tx, all, ids);
      JoinMultisets(PlainDuplicates(p, all, ids + {id}), PlainDuplicates(p, all, ids), PlainItem(tx, all, ids),
                    GroupItems(p, all, id), j);
    }
  }

  lemma {:induction false} GroupIsMembers(group: seq<Tx>, n: nat)
    requires n <= |group|
    ensures GroupMismatches(group, n) == MembersOf(group[..n], group)
    decreases n
  {
    if n > 0 {
      GroupIsMembers(group, n - 1);
      assert group[..n][..n - 1] == group[..n - 1];
    }
  }

  lemma {:induction false} KeysArePlain(keys: seq<string>, txs: seq<Tx>, n: nat)
    requires n <= |keys| && forall i, j :: 0 <= i < j < |keys| ==> keys[i] != keys[j]
    ensures multiset(KeyMismatches(keys, txs, n)) == multiset(PlainDuplicates(txs, txs, set i | 0 <= i < n :: keys[i]))
    decreases n
  {
    var ids := set i | 0 <= i < n :: keys[i];
    if n == 0 {
      PlainNone(txs, txs);
      assert ids == {};
    } else {
      hide KeyMismatches, PlainDuplicates, GroupItems;
      var fewer := set i | 0 <= i < n - 1 :: keys[i];
      KeysArePlain(keys, txs, n - 1);
      assert keys[n - 1] !in fewer;
      assert ids == fewer + {keys[n - 1]};
      PlainAddId(txs, txs, fewer, keys[n - 1]);
      KeyStep(keys, txs, n);
    }
  }

  lemma KeyStep(keys: seq<string>, txs: seq<Tx>, n: nat)
    requires 0 < n <= |keys|
    ensures KeyMismatches(keys, txs, n) == KeyMismatches(keys, txs, n - 1) + GroupItems(txs, txs, keys[n - 1])
  {
    var group := WithPaymentId(txs, keys[n - 1]);
    GroupIsMembers(group, |group|);
    assert group[..|group|] == group;
  }

  lemma {:induction false} PlainNone(txs: seq<Tx>, all: seq<Tx>)
    ensures PlainDuplicates(txs, all, {}) == []
  {
    if |txs| > 0 { PlainNone(txs[..|txs| - 1], all); }
  }

  /** Grouping reports exactly the transactions whose non-empty payment id occurs more than once, each once. */
  lemma DuplicatesArePlain(txs: seq<Tx>)
    ensures multiset(Duplicates(txs)) == multiset(PlainDuplicates(txs, txs, set k | k in PaymentIds(txs)))
  {
    var keys := PaymentIds(txs);
    KeysAreIds(txs);
    KeysArePlain(keys, txs, |keys|);
    assert (set i | 0 <= i < |keys| :: keys[i]) == (set k | k in keys);
  }

  /** Transaction `i` shares a payment id with another one. */
  predicate IsDuplicate(txs: seq<Tx>, i: nat)
    requires i < |txs|
  {
    txs[i].paymentId != "" && exists j: nat :: j < |txs| && j != i && txs[j].paymentId == txs[i].paymentId
  }

  /** Where the members of a group are. */
  ghost function PlacesOf(txs: seq<Tx>, id: string): set<nat> {
    set i: nat | i < |txs| && txs[i].paymentId == id
  }

  lemma {:induction false} OccurrencesArePlaces(txs: seq<Tx>, id: string)
    ensures Occurrences(txs, id) == |PlacesOf(txs, id)|
  {
    if |txs| > 0 {
      var n, p := |txs| - 1, txs[..|txs| - 1];
      OccurrencesArePlaces(p, id);
      assert PlacesOf(txs, id) == PlacesOf(p, id) + (if txs[n].paymentId == id then {n} else {});
      assert n !in PlacesOf(p, id);
    }
  }

  lemma OccursAgainIff(txs: seq<Tx>, i: nat)
    requires i < |txs|
    ensures Occurrences(txs, txs[i].paymentId) > 1
            <==> exists j: nat :: j < |txs| && j != i && txs[j].paymentId == txs[i].paymentId
  {
    var places := PlacesOf(txs, txs[i].paymentId);
    OccurrencesArePlaces(txs, txs[i].paymentId);
    assert i in places;
    assert |places - {i}| == |places| - 1;
    if |places| > 1 {
      assert places - {i} != {};
      var j :| j in places - {i};
    }
    if j: nat :| j < |txs| && j != i && txs[j].paymentId == txs[i].paymentId {
      assert j in places - {i};
    }
  }

  /** A mismatch exactly for a transaction that shares its payment id with another. */
  ghost function DuplicateItem(txs: seq<Tx>, i: nat): multiset<Mismatch>
    requires i < |txs|
  {
    if IsDuplicate(txs, i) then multiset{DuplicateOf(txs[i], WithPaymentId(txs, txs[i].paymentId))} else multiset{}
  }

  ghost function DuplicateItems(txs: seq<Tx>, n: nat): multiset<Mismatch>
    requires n <= |txs|
  {
    if n == 0 then multiset{} else DuplicateItems(txs, n - 1) + DuplicateItem(txs, n - 1)
  }

  lemma PlainItemIsDuplicateItem(txs: seq<Tx>, i: nat)
    requires i < |txs|
    ensures multiset(PlainItem(txs[i], txs, set k | k in PaymentIds(txs))) == DuplicateItem(txs, i)
  {
    KeysAreIds(txs);
    OccursAgainIff(txs, i);
    hide DuplicateOf, WithPaymentId, Occurrences, PaymentIds;
  }

  lemma {:induction false} PlainAreDuplicateItems(txs: seq<Tx>, n: nat)
    requires n <= |txs|
    ensures multiset(PlainDuplicates(txs[..n], txs, set k | k in PaymentIds(txs))) == DuplicateItems(txs, n)
  {
    hide PlainItem, DuplicateItem, PaymentIds;
    if n > 0 {
      PlainAreDuplicateItems(txs, n - 1);
      PlainItemIsDuplicateItem(txs, n - 1);
      assert txs[..n][..n - 1] == txs[..n - 1];
    }
  }

  /** What the grouping loops report, up to its order: one mismatch for each such transaction, and no other. */
  lemma DuplicatesAreExactly(txs: seq<Tx>)
    ensures multiset(Duplicates(txs)) == DuplicateItems(txs, |txs|)
  {
    hide Duplicates, PlainDuplicates, DuplicateItems, PaymentIds;
    DuplicatesArePlain(txs);
    PlainAreDuplicateItems(txs, |txs|);
    assert txs[..|txs|] == txs;
  }
}
