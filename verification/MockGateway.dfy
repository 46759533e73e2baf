/** The mock payment gateway: payments, their auto-confirm timers, and the notifications it triggers. */
module MockGateway {
  import opened Text

  datatype Status = Pending | Paid | Expired

  datatype Payment = Payment(id: string, orderId: string, amount: real, status: Status)

  /** A triggered notification; the payment it comes from is recorded with it. */
  datatype Notice = Notice(paymentId: string, orderId: string, completed: bool)

  /** The payments in the order of their creation, and the ids with a live timer. */
  datatype State = State(payments: seq<Payment>, timers: set<string>, notices: seq<Notice>)

  datatype Op =
    | Create(id: string, orderId: string, amount: real, autoConfirm: bool)
    | TimerFires(id: string)
    | ManualConfirm(orderId: string)
    | CancelPayment(orderId: string)
    | Cleanup

  datatype Outcome = Success | Refused | NotFound

  // ----- the operations as functions -----

  /** The first payment of an order. */
  function FindOrder(payments: seq<Payment>, orderId: string): (i: Option<nat>)
    ensures i.Some? ==> i.value < |payments| && payments[i.value].orderId == orderId
    ensures i.Some? ==> forall k :: 0 <= k < i.value ==> payments[k].orderId != orderId
    ensures i.None? ==> forall k :: 0 <= k < |payments| ==> payments[k].orderId != orderId
  {
    if |payments| == 0 then None
    else
      match FindOrder(payments[..|payments| - 1], orderId)
      case Some(i) => Some(i)
      case None => if payments[|payments| - 1].orderId == orderId then Some(|payments| - 1) else None
  }

  function FindId(payments: seq<Payment>, id: string): (i: Option<nat>)
    ensures i.Some? ==> i.value < |payments| && payments[i.value].id == id
    ensures i.None? ==> forall k :: 0 <= k < |payments| ==> payments[k].id != id
  {
    if |payments| == 0 then None
    else if payments[|payments| - 1].id == id then Some(|payments| - 1)
    else FindId(payments[..|payments| - 1], id)
  }

  function Settled(s: State, i: nat, status: Status): State
    requires i < |s.payments|
  {
    var p := s.payments[i];
    State(s.payments[i := p.(status := status)], s.timers - {p.id}, s.notices + [Notice(p.id, p.orderId, status.Paid?)])
  }

  /** Ids are fresh, and only live timers fire. */
  predicate Enabled(s: State, op: Op) {
    match op
    case Create(id, _, _, _) => FindId(s.payments, id).None? && id !in s.timers
    case TimerFires(id) => id in s.timers
    case _ => true
  }

  function Apply(s: State, op: Op): State {
    match op
    case Create(id, orderId, amount, autoConfirm) =>
      s.(payments := s.payments + [Payment(id, orderId, amount, Pending)],
         timers := if autoConfirm then s.timers + {id} else s.timers)
    case TimerFires(id) =>
      (match FindId(s.payments, id)
       case Some(i) => if s.payments[i].status.Pending? then Settled(s, i, Paid) else s.(timers := s.timers - {id})
       case None => s.(timers := s.timers - {id}))
    case ManualConfirm(orderId) =>
      (match FindOrder(s.payments, orderId)
       case Some(i) => if s.payments[i].status.Paid? then s else Settled(s, i, Paid)
       case None => s)
    case CancelPayment(orderId) =>
      (match FindOrder(s.payments, orderId)
       case Some(i) => if s.payments[i].status.Paid? then s else Settled(s, i, Expired)
       case None => s)
    case Cleanup => s.(timers := {})
  }

  // ----- the object -----

  class Gateway {
    var payments: seq<Payment>
    var autoConfirmTimers: set<string>
    var notices: seq<Notice>

    ghost function View(): State
      reads this
    {
      State(payments, autoConfirmTimers, notices)
    }

    constructor ()
      ensures View() == State([], {}, [])
    {
      payments, autoConfirmTimers, notices := [], {}, [];
    }

    method CreatePayment(paymentId: string, orderId: string, amount: real, enabled: bool, autoConfirmDelay: int)
      requires Enabled(View(), Create(paymentId, orderId, amount, enabled && autoConfirmDelay > 0))
      modifies this
      ensures View() == Apply(old(View()), Create(paymentId, orderId, amount, enabled && autoConfirmDelay > 0))
      ensures payments == old(payments) + [Payment(paymentId, orderId, amount, Pending)] && notices == old(notices)
      ensures autoConfirmTimers == if enabled && autoConfirmDelay > 0 then old(autoConfirmTimers) + {paymentId}
                                   else old(autoConfirmTimers)
    {
      payments := payments + [Payment(paymentId, orderId, amount, Pending)];
      if enabled && autoConfirmDelay > 0 {
        autoConfirmTimers := autoConfirmTimers + {paymentId};
      }
    }

    /** The callback of `scheduleAutoConfirm`. */
    method OnTimer(paymentId: string)
      requires Enabled(View(), TimerFires(paymentId))
      modifies this
      ensures View() == Apply(old(View()), TimerFires(paymentId))
      ensures autoConfirmTimers == old(autoConfirmTimers) - {paymentId}
      ensures var found := FindId(old(payments), paymentId);
              if found.Some? && old(payments)[found.value].status == Pending then
                var p := old(payments)[found.value];
                && payments == old(payments)[found.value := Payment(p.id, p.orderId, p.amount, Paid)]
                && notices == old(notices) + [Notice(p.id, p.orderId, true)]
              else payments == old(payments) && notices == old(notices)
    {
      match FindId(payments, paymentId) {
        case Some(i) =>
          if payments[i].status.Pending? {
            payments := payments[i := payments[i].(status := Paid)];
            notices := notices + [Notice(paymentId, payments[i].orderId, true)];
          }
        case None =>
      }
      autoConfirmTimers := autoConfirmTimers - {paymentId};
    }

    /** `ManualConfirm`: false for a payment already paid, an error for an unknown order. */
    method Confirm(orderId: string) returns (outcome: Outcome)
      modifies this
      ensures View() == Apply(old(View()), ManualConfirm(orderId))
      ensures match FindOrder(old(payments), orderId)
              case None => outcome == NotFound
              case Some(i) => outcome == if old(payments)[i].status == Paid then Refused else Success
      ensures outcome == Success ==>
                var i := FindOrder(old(payments), orderId).value;
                var p := old(payments)[i];
                && payments == old(payments)[i := Payment(p.id, orderId, p.amount, Paid)]
                && autoConfirmTimers == old(autoConfirmTimers) - {p.id}
                && notices == old(notices) + [Notice(p.id, orderId, true)]
      ensures outcome != Success ==>
                payments == old(payments) && autoConfirmTimers == old(autoConfirmTimers) && notices == old(notices)
    {
      var found := FindOrder(payments, orderId);
      if found.None? {
        return NotFound;
      }
      var i := found.value;
      if payments[i].status.Paid? {
        return Refused;
      }
      payments := payments[i := payments[i].(status := Paid)];
      autoConfirmTimers := autoConfirmTimers - {payments[i].id};
      notices := notices + [Notice(payments[i].id, orderId, true)];
      return Success;
    }

    method Cancel(orderId: string) returns (outcome: Outcome)
      modifies this
      ensures View() == Apply(old(View()), CancelPayment(orderId))
      ensures match FindOrder(old(payments), orderId)
              case None => outcome == NotFound
              case Some(i) => outcome == if old(payments)[i].status == Paid then Refused else Success
      ensures outcome == Success ==>
                var i := FindOrder(old(payments), orderId).value;
                var p := old(payments)[i];
                && payments == old(payments)[i := Payment(p.id, orderId, p.amount, Expired)]
                && autoConfirmTimers == old(autoConfirmTimers) - {p.id}
                && notices == old(notices) + [Notice(p.id, orderId, false)]
      ensures outcome != Success ==>
                payments == old(payments) && autoConfirmTimers == old(autoConfirmTimers) && notices == old(notices)
    {
      var found := FindOrder(payments, orderId);
      if found.None? {
        return NotFound;
      }
      var i := found.value;
      if payments[i].status.Paid? {
        return Refused;
      }
      payments := payments[i := payments[i].(status := Expired)];
      autoConfirmTimers := autoConfirmTimers - {payments[i].id};
      notices := notices + [Notice(payments[i].id, orderId, false)];
      return Success;
    }

    method CleanUp()
      modifies this
      ensures View() == Apply(old(View()), Cleanup)
      ensures payments == old(payments) && autoConfirmTimers == {} && notices == old(notices)
    {
      autoConfirmTimers := {};
    }
  }

  // ----- what the notifications of one payment look like -----

  /** The notifications of one payment in order: true for completed, false for cancelled. */
  function History(notices: seq<Notice>, id: string): seq<bool> {
    if |notices| == 0 then []
    else
      var last := notices[|notices| - 1];
      History(notices[..|notices| - 1], id) + (if last.paymentId == id then [last.completed] else [])
  }

  /** The status that a history leads to. */
  function StatusAfter(h: seq<bool>): Status {
    if |h| == 0 then Pending else if h[|h| - 1] then Paid else Expired
  }

  /** Any number of cancellations, then at most one completion. */
  ghost predicate WellFormed(h: seq<bool>) {
    forall k :: 0 <= k < |h| - 1 ==> !h[k]
  }

  ghost predicate PaymentInv(s: State, p: Payment) {
    WellFormed(History(s.notices, p.id)) && p.status == StatusAfter(History(s.notices, p.id))
  }

  predicate TimerInv(s: State, id: string) {
    FindId(s.payments, id).Some? && s.payments[FindId(s.payments, id).value].status.Pending?
  }

  /** Each payment's status is the one its notifications lead to, and a live timer belongs to a pending payment. */
  ghost predicate Inv(s: State) {
    && (forall i, j :: 0 <= i < j < |s.payments| ==> s.payments[i].id != s.payments[j].id)
    && (forall i :: 0 <= i < |s.payments| ==> PaymentInv(s, s.payments[i]))
    && (forall id :: id in s.timers ==> TimerInv(s, id))
    && (forall k :: 0 <= k < |s.notices| ==> FindId(s.payments, s.notices[k].paymentId).Some?)
  }

  lemma HistoryGrows(notices: seq<Notice>, n: Notice, id: string)
    ensures History(notices + [n], id) == History(notices, id) + (if n.paymentId == id then [n.completed] else [])
  {
    assert (notices + [n])[..|notices|] == notices;
  }

  lemma {:induction false} NoHistory(notices: seq<Notice>, id: string)
    requires forall k :: 0 <= k < |notices| ==> notices[k].paymentId != id
    ensures History(notices, id) == []
  {
    if |notices| > 0 { NoHistory(notices[..|notices| - 1], id); }
  }

  lemma FoundIsUnique(payments: seq<Payment>, i: nat)
    requires i < |payments| && forall i, j :: 0 <= i < j < |payments| ==> payments[i].id != payments[j].id
    ensures FindId(payments, payments[i].id) == Some(i)
  {
  }

  lemma SettledKeepsInv(s: State, i: nat, status: Status)
    requires Inv(s) && i < |s.payments| && !s.payments[i].status.Paid? && !status.Pending?
    ensures Inv(Settled(s, i, status))
  {
    hide FindId, History, WellFormed, StatusAfter;
    var t, p := Settled(s, i, status), s.payments[i];
    var n := Notice(p.id, p.orderId, status.Paid?);
    forall k | 0 <= k < |t.payments|
        ensures FindId(t.payments, t.payments[k].id) == FindId(s.payments, s.payments[k].id) == Some(k)
    {
      FoundIsUnique(s.payments, k);
      FoundIsUnique(t.payments, k);
    }
    forall k | 0 <= k < |t.payments| ensures PaymentInv(t, t.payments[k]) {
      HistoryGrows(s.notices, n, t.payments[k].id);
      assert PaymentInv(s, s.payments[k]);
      if k == i { HistorySettles(History(s.notices, p.id), status); }
      assert k != i ==> History(s.notices, s.payments[k].id) + [] == History(s.notices, s.payments[k].id);
    }
    forall id | id in t.timers ensures TimerInv(t, id) {
      assert TimerInv(s, id);
      SameIdFound(s.payments, t.payments, id);
    }
    forall k | 0 <= k < |t.notices| ensures FindId(t.payments, t.notices[k].paymentId).Some? {
      if k < |s.notices| { SameIdFound(s.payments, t.payments, s.notices[k].paymentId); }
    }
  }

  lemma HistorySettles(h: seq<bool>, status: Status)
    requires WellFormed(h) && !StatusAfter(h).Paid? && !status.Pending?
    ensures WellFormed(h + [status.Paid?]) && StatusAfter(h + [status.Paid?]) == status
  {
  }

  lemma {:induction false} SameIdFound(a: seq<Payment>, b: seq<Payment>, id: string)
    requires |a| == |b| && forall k :: 0 <= k < |a| ==> a[k].id == b[k].id
    ensures FindId(a, id) == FindId(b, id)
  {
    if |a| > 0 { SameIdFound(a[..|a| - 1], b[..|b| - 1], id); }
  }

  lemma CreateKeepsInv(s: State, op: Op)
    requires Inv(s) && op.Create? && Enabled(s, op)
    ensures Inv(Apply(s, op))
  {
    hide History, WellFormed, StatusAfter;
    var t := Apply(s, op);
    var p := Payment(op.id, op.orderId, op.amount, Pending);
    assert t.payments[..|s.payments|] == s.payments;
    assert FindId(t.payments, op.id) == Some(|s.payments|);
    assert forall id :: id != op.id ==> FindId(t.payments, id) == FindId(s.payments, id);
    NoHistory(s.notices, op.id);
    EmptyHistory();
    hide FindId;
    forall k | 0 <= k < |t.payments| ensures PaymentInv(t, t.payments[k]) {
      assert k < |s.payments| ==> PaymentInv(s, s.payments[k]);
    }
    forall id | id in t.timers ensures TimerInv(t, id) {
      assert id != op.id ==> TimerInv(s, id);
    }
  }

  lemma EmptyHistory()
    ensures WellFormed([]) && StatusAfter([]) == Pending
  {
  }

  lemma StepKeepsInv(s: State, op: Op)
    requires Inv(s) && Enabled(s, op)
    ensures Inv(Apply(s, op))
  {
    hide History, WellFormed, StatusAfter, FindId, FindOrder;
    match op {
      case Create(_, _, _, _) => CreateKeepsInv(s, op);
      case TimerFires(id) =>
        assert TimerInv(s, id);
        SettledKeepsInv(s, FindId(s.payments, id).value, Paid);
      case ManualConfirm(orderId) =>
        if FindOrder(s.payments, orderId).Some? && !s.payments[FindOrder(s.payments, orderId).value].status.Paid? {
          SettledKeepsInv(s, FindOrder(s.payments, orderId).value, Paid);
        }
      case CancelPayment(orderId) =>
        if FindOrder(s.payments, orderId).Some? && !s.payments[FindOrder(s.payments, orderId).value].status.Paid? {
          SettledKeepsInv(s, FindOrder(s.payments, orderId).value, Expired);
        }
      case Cleanup =>
    }
  }

  // ----- whole runs -----

  function Run(s: State, ops: seq<Op>): State {
    if |ops| == 0 then s
    else
      var before := Run(s, ops[..|ops| - 1]);
      if Enabled(before, ops[|ops| - 1]) then Apply(before, ops[|ops| - 1]) else before
  }

  lemma {:induction false} RunKeepsInv(ops: seq<Op>)
    ensures Inv(Run(State([], {}, []), ops))
  {
    if |ops| > 0 {
      RunKeepsInv(ops[..|ops| - 1]);
      var before := Run(State([], {}, []), ops[..|ops| - 1]);
      if Enabled(before, ops[|ops| - 1]) { StepKeepsInv(before, ops[|ops| - 1]); }
    }
  }

  function Completions(h: seq<bool>): nat {
    if |h| == 0 then 0 else Completions(h[..|h| - 1]) + (if h[|h| - 1] then 1 else 0)
  }

  lemma {:induction false} CompletionsOfWellFormed(h: seq<bool>)
    requires WellFormed(h)
    ensures Completions(h) == if StatusAfter(h).Paid? then 1 else 0
  {
    if |h| > 0 {
      CompletionsOfWellFormed(h[..|h| - 1]);
      assert |h| > 1 ==> !h[|h| - 2];
    }
  }

  /** On every run a payment's completed notification is triggered once if it is paid and never otherwise, nothing
      follows it, and every live timer belongs to a pending payment. */
  lemma CompletedOnceIffPaid(ops: seq<Op>, i: nat)
    requires i < |Run(State([], {}, []), ops).payments|
    ensures var s := Run(State([], {}, []), ops);
            var h := History(s.notices, s.payments[i].id);
            && Completions(h) == (if s.payments[i].status.Paid? then 1 else 0)
            && (forall k :: 0 <= k < |h| - 1 ==> !h[k])
            && (s.payments[i].id in s.timers ==> s.payments[i].status.Pending? && h == [])
  {
    RunKeepsInv(ops);
    var s := Run(State([], {}, []), ops);
    assert PaymentInv(s, s.payments[i]);
    CompletionsOfWellFormed(History(s.notices, s.payments[i].id));
    if s.payments[i].id in s.timers {
      assert TimerInv(s, s.payments[i].id);
      FoundIsUnique(s.payments, i);
    }
  }

  /** A live timer can fire, on every run, and then pays its payment, which was pending, and notifies. */
  lemma TimerPays(ops: seq<Op>, id: string) returns (i: nat)
    requires id in Run(State([], {}, []), ops).timers
    ensures var s := Run(State([], {}, []), ops);
            && i < |s.payments| && s.payments[i].id == id && s.payments[i].status == Pending
            && Run(State([], {}, []), ops + [TimerFires(id)])
               == State(s.payments[i := s.payments[i].(status := Paid)], s.timers - {id},
                        s.notices + [Notice(id, s.payments[i].orderId, true)])
  {
    hide FindId, FindOrder, History;
    RunKeepsInv(ops);
    var s := Run(State([], {}, []), ops);
    assert TimerInv(s, id);
    i := FindId(s.payments, id).value;
    assert (ops + [TimerFires(id)])[..|ops|] == ops;
  }

  /** So a payment created under automatic confirmation is paid once its timer fires, whatever happened before. */
  lemma AutoConfirmPays(ops: seq<Op>, id: string, orderId: string, amount: real)
    requires Enabled(Run(State([], {}, []), ops), Create(id, orderId, amount, true))
    ensures var s := Run(State([], {}, []), ops);
            var t := Run(State([], {}, []), ops + [Create(id, orderId, amount, true)] + [TimerFires(id)]);
            && t.payments == s.payments + [Payment(id, orderId, amount, Paid)]
            && t.timers == s.timers && t.notices == s.notices + [Notice(id, orderId, true)]
  {
    hide FindOrder, History, FindId;
    var created := ops + [Create(id, orderId, amount, true)];
    assert created[..|ops|] == ops;
    var s := Run(State([], {}, []), ops);
    var i := TimerPays(created, id);
    assert i == |s.payments|;
  }

  /** Cancelling expires the order's first payment, which a timer can then no longer pay. */
  lemma CancelEndsTimer(ops: seq<Op>, orderId: string) returns (i: nat)
    requires var s := Run(State([], {}, []), ops);
             FindOrder(s.payments, orderId).Some? && !s.payments[FindOrder(s.payments, orderId).value].status.Paid?
    ensures var s, t := Run(State([], {}, []), ops), Run(State([], {}, []), ops + [CancelPayment(orderId)]);
            && i < |s.payments| && s.payments[i].orderId == orderId
            && (forall k :: 0 <= k < i ==> s.payments[k].orderId != orderId)
            && t == State(s.payments[i := s.payments[i].(status := Expired)], s.timers - {s.payments[i].id},
                          s.notices + [Notice(s.payments[i].id, orderId, false)])
            && !Enabled(t, TimerFires(s.payments[i].id))
  {
    var s := Run(State([], {}, []), ops);
    i := FindOrder(s.payments, orderId).value;
    assert (ops + [CancelPayment(orderId)])[..|ops|] == ops;
  }

  /** Paid is absorbing: no operation changes a paid payment or triggers anything for it. */
  lemma PaidIsAbsorbing(s: State, op: Op, i: nat)
    requires Inv(s) && Enabled(s, op) && i < |s.payments| && s.payments[i].status.Paid?
    ensures i < |Apply(s, op).payments| && Apply(s, op).payments[i] == s.payments[i]
    ensures History(Apply(s, op).notices, s.payments[i].id) == History(s.notices, s.payments[i].id)
  {
    hide FindOrder, FindId;
    var t := Apply(s, op);
    if |t.notices| > |s.notices| {
      HistoryGrows(s.notices, t.notices[|s.notices|], s.payments[i].id);
      assert t.notices == s.notices + [t.notices[|s.notices|]];
    }
    if op.TimerFires? { assert TimerInv(s, op.id); }
  }

  /** So on every run a payment, once paid, stays as it is. */
  lemma {:induction false} PaidForEver(ops: seq<Op>, later: seq<Op>, i: nat)
    requires i < |Run(State([], {}, []), ops).payments| && Run(State([], {}, []), ops).payments[i].status.Paid?
    ensures var s, t := Run(State([], {}, []), ops), Run(State([], {}, []), ops + later);
            && i < |t.payments| && t.payments[i] == s.payments[i]
            && History(t.notices, s.payments[i].id) == History(s.notices, s.payments[i].id)
    decreases |later|
  {
    if |later| == 0 {
      assert ops + later == ops;
    } else {
      var p := later[..|later| - 1];
      PaidForEver(ops, p, i);
      RunKeepsInv(ops + p);
      assert (ops + later)[..|ops + later| - 1] == ops + p;
      var before := Run(State([], {}, []), ops + p);
      hide Run, Apply, History;
      if Enabled(before, later[|later| - 1]) { PaidIsAbsorbing(before, later[|later| - 1], i); }
    }
  }

  /** Expired is not: a manual confirmation pays a cancelled payment, and only that can. */
  lemma ExpiredIsPaidIff(s: State, op: Op, i: nat)
    requires Inv(s) && Enabled(s, op) && i < |s.payments| && s.payments[i].status.Expired?
    ensures Apply(s, op).payments[i].status.Paid?
            <==> op.ManualConfirm? && op.orderId == s.payments[i].orderId
                 && forall k :: 0 <= k < i ==> s.payments[k].orderId != op.orderId
    ensures Apply(s, op).payments[i].status.Paid? || Apply(s, op).payments[i].status.Expired?
  {
    hide FindId;
    if op.TimerFires? { assert TimerInv(s, op.id); }
  }
}
