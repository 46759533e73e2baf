/** The transaction engine over its stored transactions and the mock gateway: records as field maps, updates checked
    by a schema, and calls that are interleaved at each `await`. */
module TransactionEngine {
  import opened Text
  import MockGateway

  /** The value of a field; a missing field reads as undefined. */
  datatype Value = Undefined | Null | Text(s: string) | Number(n: real) | Time(t: int) | Object(json: string)

  type Fields = map<string, Value>

  datatype EventKind = Created | Updated | CompletedEvent | FailedEvent
  datatype Event = Event(kind: EventKind, transaction: Fields)

  datatype Error = InvalidInput | UnknownUser | UnknownProduct | AmountDiffers | UnknownOrder | AlreadyCompleted
                 | PaymentUnknown | PaymentPaid | PaymentFailed

  datatype Result<T> = Ok(value: T) | Err(error: Error)

  /** The currency may be absent; the metadata are those of the stored order, product name and type included. */
  datatype Input = Input(userId: string, productId: string, amount: real, currency: Option<string>, metadata: string)

  datatype PaymentResult = PaymentResult(paymentLink: string, transactionId: string, orderId: string)

  datatype MockConfig = MockConfig(enabled: bool, autoConfirmDelay: int)

  const STATUSES: set<string> := {"pending", "processing", "completed", "failed", "cancelled"}
  const UPDATE_KEYS: set<string> := {"status", "paymentMethod", "paymentLink", "metadata", "completedAt"}

  /** The fields that say which order a record is, besides its id. */
  const ORDER_KEYS: set<string> := {"orderId", "userId", "productId", "amount"}

  const COMPLETED: Value := Text("completed")
  const CANCELLED: Value := Text("cancelled")
  const CANCEL_UPDATE: Fields := map["status" := CANCELLED]

  // ----- one stored record -----

  function Field(t: Fields, key: string): Value {
    if key in t then t[key] else Undefined
  }

  predicate ValidField(key: string, value: Value) {
    || value == Undefined
    || (key == "status" && value.Text? && value.s in STATUSES)
    || ((key == "paymentMethod" || key == "paymentLink") && value.Text? && value.s != "")
    || (key == "metadata" && value.Object?)
    || (key == "completedAt" && value.Time?)
  }

  /** `updateTransactionSchema`: every key it does not list is refused, an optional one may be undefined. */
  predicate SchemaAccepts(u: Fields) {
    forall key :: key in u ==> key in UPDATE_KEYS && ValidField(key, u[key])
  }

  /** The same by key: five keys, each with its kind of value. */
  predicate IsAllowed(u: Fields) {
    && u.Keys <= {"status", "paymentMethod", "paymentLink", "metadata", "completedAt"}
    && Field(u, "status") in {Undefined, Text("pending"), Text("processing"), Text("completed"), Text("failed"),
                              Text("cancelled")}
    && (Field(u, "paymentMethod") == Undefined
        || (Field(u, "paymentMethod").Text? && Field(u, "paymentMethod") != Text("")))
    && (Field(u, "paymentLink") == Undefined || (Field(u, "paymentLink").Text? && Field(u, "paymentLink") != Text("")))
    && (Field(u, "metadata") == Undefined || Field(u, "metadata").Object?)
    && (Field(u, "completedAt") == Undefined || Field(u, "completedAt").Time?)
  }

  lemma SchemaMeans(u: Fields)
    ensures SchemaAccepts(u) <==> IsAllowed(u)
  {
    if IsAllowed(u) {
      forall key | key in u ensures key in UPDATE_KEYS && ValidField(key, u[key]) {
        assert key in {"status", "paymentMethod", "paymentLink", "metadata", "completedAt"};
      }
    }
  }

  /** `updateState` adds the time of completion unless it is given. */
  function Issued(u: Fields, now: int): Fields {
    if Field(u, "status") == COMPLETED && Field(u, "completedAt") == Undefined then u["completedAt" := Time(now)] else u
  }

  /** What the driver writes: `{ ...transaction, ...data, id, updatedAt }`. */
  function Merged(t: Fields, data: Fields, now: int): Fields {
    t + data + map["id" := Field(t, "id"), "updatedAt" := Time(now)]
  }

  function EventFor(t: Fields): Event {
    var status := Field(t, "status");
    Event(if status == COMPLETED then CompletedEvent else if status == Text("failed") then FailedEvent else Updated, t)
  }

  /** The first record of an order. */
  function FindOrder(ts: seq<Fields>, orderId: string): (i: Option<nat>)
    ensures i.Some? ==> i.value < |ts| && Field(ts[i.value], "orderId") == Text(orderId)
    ensures i.Some? ==> forall k :: 0 <= k < i.value ==> Field(ts[k], "orderId") != Text(orderId)
    ensures i.None? ==> forall k :: 0 <= k < |ts| ==> Field(ts[k], "orderId") != Text(orderId)
  {
    if |ts| == 0 then None
    else
      match FindOrder(ts[..|ts| - 1], orderId)
      case Some(i) => Some(i)
      case None => if Field(ts[|ts| - 1], "orderId") == Text(orderId) then Some(|ts| - 1) else None
  }

  /** `validateId` refuses a text that is empty after trimming. */
  predicate Blank(s: string) {
    forall k :: 0 <= k < |s| ==> IsSpace(s[k])
  }

  function CreateRefusal(input: Input, userExists: bool, price: Option<real>): Option<Error> {
    if input.userId == "" || input.productId == "" || input.amount < 0.0 || input.currency == Some("")
    then Some(InvalidInput)
    else if !userExists then Some(UnknownUser)
    else if price.None? then Some(UnknownProduct)
    else if input.amount != price.value then Some(AmountDiffers)
    else None
  }

  function Fresh(id: string, orderId: string, input: Input, now: int): Fields {
    map["id" := Text(id), "orderId" := Text(orderId), "userId" := Text(input.userId),
        "productId" := Text(input.productId), "amount" := Number(input.amount),
        "currency" := Text(if input.currency.Some? then input.currency.value else "IDR"),
        "status" := Text("pending"), "metadata" := Object(input.metadata), "createdAt" := Time(now),
        "updatedAt" := Time(now)]
  }

  function PaymentStarted(link: string): Fields {
    map["status" := Text("processing"), "paymentLink" := Text(link), "paymentMethod" := Text("mock_gateway")]
  }

  function PaymentBroken(metadata: string): Fields {
    map["status" := Text("failed"), "metadata" := Object(metadata)]
  }

  const FRESH_KEYS: set<string> :=
    {"id", "orderId", "userId", "productId", "amount", "currency", "status", "metadata", "createdAt", "updatedAt"}

  /** The stored order holds what the caller asked for, at the time `now`. */
  predicate IsOrderOf(t: Fields, input: Input, id: string, orderId: string, now: int) {
    && Field(t, "id") == Text(id) && Field(t, "orderId") == Text(orderId)
    && Field(t, "userId") == Text(input.userId) && Field(t, "productId") == Text(input.productId)
    && Field(t, "amount") == Number(input.amount)
    && Field(t, "currency") == Text(if input.currency == None then "IDR" else input.currency.value)
    && Field(t, "createdAt") == Field(t, "updatedAt") == Time(now) && Field(t, "completedAt") == Undefined
  }

  /** It is being paid through the link. */
  predicate IsStarted(t: Fields, input: Input, id: string, orderId: string, link: string, now: int) {
    && IsOrderOf(t, input, id, orderId, now)
    && Field(t, "status") == Text("processing") && Field(t, "metadata") == Object(input.metadata)
    && Field(t, "paymentLink") == Text(link) && Field(t, "paymentMethod") == Text("mock_gateway")
    && t.Keys == FRESH_KEYS + {"paymentLink", "paymentMethod"}
  }

  /** Its payment could not be created. */
  predicate IsBroken(t: Fields, input: Input, id: string, orderId: string, metadata: string, now: int) {
    && IsOrderOf(t, input, id, orderId, now)
    && Field(t, "status") == Text("failed") && Field(t, "metadata") == Object(metadata)
    && t.Keys == FRESH_KEYS
  }

  predicate IsPending(t: Fields, input: Input, id: string, orderId: string, now: int) {
    IsOrderOf(t, input, id, orderId, now) && Field(t, "status") == Text("pending")
  }

  /** What `createOrder` stores, field by field, and the events it emits. */
  lemma OrderStored(input: Input, id: string, orderId: string, link: string, metadata: string, now: int)
    ensures IsPending(Fresh(id, orderId, input, now), input, id, orderId, now)
    ensures var t := Merged(Fresh(id, orderId, input, now), PaymentStarted(link), now);
            IsStarted(t, input, id, orderId, link, now) && EventFor(t) == Event(Updated, t)
    ensures var t := Merged(Fresh(id, orderId, input, now), PaymentBroken(metadata), now);
            IsBroken(t, input, id, orderId, metadata, now) && EventFor(t) == Event(FailedEvent, t)
  {
    StartedStored(input, id, orderId, link, now);
    BrokenStored(input, id, orderId, metadata, now);
    hide Merged, PaymentStarted, PaymentBroken, IsOrderOf;
    hide Fresh;
  }

  lemma FreshStored(input: Input, id: string, orderId: string, now: int)
    ensures var t := Fresh(id, orderId, input, now);
            && IsPending(t, input, id, orderId, now) && Field(t, "metadata") == Object(input.metadata)
            && t.Keys == FRESH_KEYS
  {
  }

  /** Data that name no field of the order leave it the order asked for. */
  lemma MergedIsOrderOf(t: Fields, data: Fields, input: Input, id: string, orderId: string, now: int)
    requires IsOrderOf(t, input, id, orderId, now)
    requires data.Keys <= {"status", "paymentLink", "paymentMethod", "metadata"}
    ensures IsOrderOf(Merged(t, data, now), input, id, orderId, now)
  {
  }

  lemma StartedStored(input: Input, id: string, orderId: string, link: string, now: int)
    ensures IsPending(Fresh(id, orderId, input, now), input, id, orderId, now)
    ensures IsStarted(Merged(Fresh(id, orderId, input, now), PaymentStarted(link), now), input, id, orderId, link, now)
  {
    hide IsOrderOf, Fresh;
    FreshStored(input, id, orderId, now);
    MergedIsOrderOf(Fresh(id, orderId, input, now), PaymentStarted(link), input, id, orderId, now);
  }

  lemma BrokenStored(input: Input, id: string, orderId: string, metadata: string, now: int)
    ensures IsBroken(Merged(Fresh(id, orderId, input, now), PaymentBroken(metadata), now), input, id, orderId, metadata,
                     now)
  {
    hide IsOrderOf, Fresh;
    FreshStored(input, id, orderId, now);
    MergedIsOrderOf(Fresh(id, orderId, input, now), PaymentBroken(metadata), input, id, orderId, now);
  }

  function WebhookUpdate(status: Value, paymentMethod: Value, metadata: Option<Value>): Fields {
    var u := map["status" := status, "paymentMethod" := paymentMethod];
    if metadata.Some? then u["metadata" := metadata.value] else u
  }

  // ----- the steps -----

  /** Where a call of `createOrder` or `cancelTransaction` is suspended. */
  datatype Phase =
    | Inserted(i: nat, orderId: string, amount: real)
    | PaymentCreated(i: nat)
    | Checked(orderId: string)
    | PaymentCancelled(orderId: string)

  datatype Sys = Sys(store: seq<Fields>, gateway: MockGateway.State, calls: map<nat, Phase>)

  /** The parts of the calls between two `await`s, a whole `updateState` or webhook, and what the gateway does by
      itself. */
  datatype Step =
    | Insert(call: nat, input: Input, id: string, orderId: string, now: int)
    | Pay(call: nat, paymentId: string, autoConfirm: bool)
    | PayThrows(call: nat, metadata: string, now: int)
    | FinishCreate(call: nat, link: string, now: int)
    | UpdateOrder(orderId: string, update: Fields, now: int)
    | CancelCheck(call: nat, orderId: string)
    | CancelPay(call: nat)
    | CancelWrite(call: nat, now: int)
    | AtGateway(op: MockGateway.Op)

  /** Why `updateState` fails. */
  function UpdateRefusal(s: Sys, orderId: string, update: Fields): Option<Error> {
    if Blank(orderId) || !SchemaAccepts(update) then Some(InvalidInput)
    else if FindOrder(s.store, orderId).None? then Some(UnknownOrder)
    else None
  }

  /** Why `cancelTransaction` fails before it reaches the gateway. */
  function CheckRefusal(s: Sys, orderId: string): (e: Option<Error>)
    ensures e.None? ==> FindOrder(s.store, orderId).Some?
  {
    if Blank(orderId) then Some(InvalidInput)
    else
      match FindOrder(s.store, orderId)
      case None => Some(UnknownOrder)
      case Some(i) => if Field(s.store[i], "status") == COMPLETED then Some(AlreadyCompleted) else None
  }

  /** Why the gateway refuses to cancel. */
  function GatewayRefusal(g: MockGateway.State, orderId: string): Option<Error> {
    match MockGateway.FindOrder(g.payments, orderId)
    case None => Some(PaymentUnknown)
    case Some(k) => if g.payments[k].status.Paid? then Some(PaymentPaid) else None
  }

  function CreateOp(p: Phase, paymentId: string, autoConfirm: bool): MockGateway.Op
    requires p.Inserted?
  {
    MockGateway.Create(paymentId, p.orderId, p.amount, autoConfirm)
  }

  /** Order ids are fresh; only the engine creates payments. */
  predicate Enabled(s: Sys, step: Step) {
    match step
    case Insert(call, _, _, orderId, _) => call !in s.calls && FindOrder(s.store, orderId).None?
    case Pay(call, paymentId, autoConfirm) =>
      && call in s.calls && s.calls[call].Inserted?
      && MockGateway.Enabled(s.gateway, CreateOp(s.calls[call], paymentId, autoConfirm))
    case PayThrows(call, _, _) => call in s.calls && s.calls[call].Inserted? && s.calls[call].i < |s.store|
    case FinishCreate(call, _, _) => call in s.calls && s.calls[call].PaymentCreated? && s.calls[call].i < |s.store|
    case UpdateOrder(orderId, update, _) => UpdateRefusal(s, orderId, update).None?
    case CancelCheck(call, orderId) =>
      && call !in s.calls && CheckRefusal(s, orderId).None?
      && Field(s.store[FindOrder(s.store, orderId).value], "status") != CANCELLED
    case CancelPay(call) => call in s.calls && s.calls[call].Checked?
    case CancelWrite(call, _) =>
      && call in s.calls && s.calls[call].PaymentCancelled?
      && UpdateRefusal(s, s.calls[call].orderId, CANCEL_UPDATE).None?
    case AtGateway(op) => !op.Create? && MockGateway.Enabled(s.gateway, op)
  }

  /** One update that reaches the driver. */
  datatype Written = Written(i: nat, data: Fields, now: int)

  /** The driver update a step makes; the driver finds the record by its id, which is fresh, so it is the record found
      before. */
  function WriteOf(s: Sys, step: Step): (w: Option<Written>)
    requires Enabled(s, step)
    ensures w.Some? ==> w.value.i < |s.store|
  {
    match step
    case PayThrows(call, metadata, now) => Some(Written(s.calls[call].i, PaymentBroken(metadata), now))
    case FinishCreate(call, link, now) => Some(Written(s.calls[call].i, PaymentStarted(link), now))
    case UpdateOrder(orderId, update, now) => Some(Written(FindOrder(s.store, orderId).value, Issued(update, now), now))
    case CancelWrite(call, now) =>
      Some(Written(FindOrder(s.store, s.calls[call].orderId).value, Issued(CANCEL_UPDATE, now), now))
    case _ => None
  }

  function StoreAfter(s: Sys, step: Step): seq<Fields>
    requires Enabled(s, step)
  {
    if step.Insert? then s.store + [Fresh(step.id, step.orderId, step.input, step.now)]
    else
      match WriteOf(s, step)
      case None => s.store
      case Some(w) => s.store[w.i := Merged(s.store[w.i], w.data, w.now)]
  }

  function GatewayAfter(s: Sys, step: Step): MockGateway.State
    requires Enabled(s, step)
  {
    match step
    case Pay(call, paymentId, autoConfirm) => MockGateway.Apply(s.gateway,
        CreateOp(s.calls[call], paymentId, autoConfirm))
    case CancelPay(call) => MockGateway.Apply(s.gateway, MockGateway.CancelPayment(s.calls[call].orderId))
    case AtGateway(op) => MockGateway.Apply(s.gateway, op)
    case _ => s.gateway
  }

  function CallsAfter(s: Sys, step: Step): map<nat, Phase>
    requires Enabled(s, step)
  {
    match step
    case Insert(call, input, _, orderId, _) => s.calls[call := Inserted(|s.store|, orderId, input.amount)]
    case Pay(call, _, _) => s.calls[call := PaymentCreated(s.calls[call].i)]
    case PayThrows(call, _, _) => s.calls - {call}
    case FinishCreate(call, _, _) => s.calls - {call}
    case CancelCheck(call, orderId) => s.calls[call := Checked(orderId)]
    case CancelPay(call) =>
      if GatewayRefusal(s.gateway, s.calls[call].orderId).Some? then s.calls - {call}
      else s.calls[call := PaymentCancelled(s.calls[call].orderId)]
    case CancelWrite(call, _) => s.calls - {call}
    case _ => s.calls
  }

  function Next(s: Sys, step: Step): Sys
    requires Enabled(s, step)
  {
    Sys(StoreAfter(s, step), GatewayAfter(s, step), CallsAfter(s, step))
  }

  function StepOrSkip(s: Sys, step: Step): Sys {
    if Enabled(s, step) then Next(s, step) else s
  }

  function Run(s: Sys, steps: seq<Step>): Sys {
    if |steps| == 0 then s else StepOrSkip(Run(s, steps[..|steps| - 1]), steps[|steps| - 1])
  }

  lemma RunAppend(s: Sys, steps: seq<Step>, step: Step)
    ensures Run(s, steps + [step]) == StepOrSkip(Run(s, steps), step)
  {
    assert (steps + [step])[..|steps|] == steps;
  }

  /** `createOrder` without interruption when the gateway throws. */
  lemma BrokenWhole(s: Sys, input: Input, id: string, orderId: string, metadata: string, now: int)
    requires s.calls == map[] && FindOrder(s.store, orderId).None?
    ensures Run(s, [Insert(0, input, id, orderId, now), PayThrows(0, metadata, now)])
            == s.(store := s.store + [Merged(Fresh(id, orderId, input, now), PaymentBroken(metadata), now)])
  {
    hide Fresh, Merged, PaymentBroken, FindOrder;
    var insert := Insert(0, input, id, orderId, now);
    RunAppend(s, [], insert);
    RunAppend(s, [insert], PayThrows(0, metadata, now));
    hide Run;
    assert [] + [insert] == [insert];
    assert [insert] + [PayThrows(0, metadata, now)] == [insert, PayThrows(0, metadata, now)];
    assert Next(s, insert).calls - {0} == map[];
  }

  /** And when it does not. */
  lemma StartedWhole(s: Sys, input: Input, id: string, orderId: string, paymentId: string, autoConfirm: bool,
                     link: string, now: int)
    requires s.calls == map[] && FindOrder(s.store, orderId).None?
    requires MockGateway.Enabled(s.gateway, MockGateway.Create(paymentId, orderId, input.amount, autoConfirm))
    ensures Run(s, [Insert(0, input, id, orderId, now), Pay(0, paymentId, autoConfirm), FinishCreate(0, link, now)])
            == Sys(s.store + [Merged(Fresh(id, orderId, input, now), PaymentStarted(link), now)],
                   MockGateway.Apply(s.gateway, MockGateway.Create(paymentId, orderId, input.amount, autoConfirm)),
                   map[])
  {
    hide Fresh, Merged, PaymentStarted, FindOrder, MockGateway.Apply, MockGateway.Enabled;
    var insert, pay, finish := Insert(0, input, id, orderId, now), Pay(0, paymentId, autoConfirm),
                               FinishCreate(0, link, now);
    RunAppend(s, [], insert);
    RunAppend(s, [insert], pay);
    RunAppend(s, [insert, pay], finish);
    hide Run;
    assert [] + [insert] == [insert] && [insert] + [pay] == [insert, pay];
    assert [insert, pay] + [finish] == [insert, pay, finish];
    assert Next(Next(s, insert), pay).calls - {0} == map[];
  }

  /** The order is cancelled and otherwise as it was. */
  ghost predicate IsCancelled(t: Fields, was: Fields, now: int) {
    && Field(t, "status") == Text("cancelled") && Field(t, "updatedAt") == Time(now)
    && forall key :: key != "status" && key != "updatedAt" ==> Field(t, key) == Field(was, key)
  }

  /** The first payment of the order is expired, and no other is changed. */
  ghost predicate PaymentExpired(payments: seq<MockGateway.Payment>, after: seq<MockGateway.Payment>, orderId: string) {
    exists k :: 0 <= k < |payments| && payments[k].orderId == orderId
      && (forall j :: 0 <= j < k ==> payments[j].orderId != orderId)
      && after == payments[k := payments[k].(status := MockGateway.Expired)]
  }

  // ----- the objects -----

  class Dal {
    var transactions: seq<Fields>

    constructor ()
      ensures transactions == []
    {
      transactions := [];
    }

    /** The driver's update of the record at an index. */
    method Update(i: nat, data: Fields, now: int)
      requires i < |transactions|
      modifies this
      ensures transactions == old(transactions)[i := Merged(old(transactions)[i], data, now)]
    {
      transactions := transactions[i := Merged(transactions[i], data, now)];
    }
  }

  /** Why a cancellation without interruption fails. */
  function CancelRefusal(s: Sys, orderId: string): (e: Option<Error>)
    ensures e.None? ==> FindOrder(s.store, orderId).Some?
  {
    match CheckRefusal(s, orderId)
    case Some(e) => Some(e)
    case None =>
      if Field(s.store[FindOrder(s.store, orderId).value], "status") == CANCELLED then None
      else GatewayRefusal(s.gateway, orderId)
  }

  class Engine {
    const dal: Dal
    const gateway: MockGateway.Gateway
    var events: seq<Event>

    /** What is stored, with no other call suspended. */
    ghost function View(): Sys
      reads this, dal, gateway
    {
      Sys(dal.transactions, gateway.View(), map[])
    }

    constructor (dal: Dal, gateway: MockGateway.Gateway)
      ensures this.dal == dal && this.gateway == gateway && events == []
    {
      this.dal, this.gateway, events := dal, gateway, [];
    }

    /** `createOrder` with the ids it generates, up to the call of the gateway. */
    method InsertOrder(input: Input, id: string, orderId: string, now: int) returns (n: nat)
      requires FindOrder(dal.transactions, orderId).None?
      modifies this`events, dal
      ensures n == |old(dal.transactions)|
              && dal.transactions == old(dal.transactions) + [Fresh(id, orderId, input, now)]
      ensures events == old(events) + [Event(Created, dal.transactions[n])]
    {
      n := |dal.transactions|;
      dal.transactions := dal.transactions + [Fresh(id, orderId, input, now)];
      events := events + [Event(Created, dal.transactions[n])];
    }

    /** `createOrder`; `configThrows` makes the gateway fail before it creates a payment. */
    method CreateOrder(input: Input, userExists: bool, price: Option<real>, id: string, orderId: string,
                       paymentId: string, mock: MockConfig, configThrows: bool, error: string, now: int)
        returns (r: Result<PaymentResult>)
      requires FindOrder(dal.transactions, orderId).None?
      requires MockGateway.FindId(gateway.payments, paymentId).None? && paymentId !in gateway.autoConfirmTimers
      modifies this, dal, gateway
      ensures var valid := input.userId != "" && input.productId != "" && input.amount >= 0.0
                           && input.currency != Some("");
              && (r == Err(InvalidInput) <==> !valid)
              && (r == Err(UnknownUser) <==> valid && !userExists)
              && (r == Err(UnknownProduct) <==> valid && userExists && price == None)
              && (r == Err(AmountDiffers) <==> valid && userExists && price.Some? && price.value != input.amount)
              && (r == Err(PaymentFailed)
                  <==> valid && userExists && price == Some(input.amount) && configThrows)
              && (r == Ok(PaymentResult("https://mock-payment.gateway/pay/" + paymentId, id, orderId))
                  <==> valid && userExists && price == Some(input.amount) && !configThrows)
      ensures r.Err? && r.error != PaymentFailed ==> View() == old(View()) && events == old(events)
      ensures r == Err(PaymentFailed) ==>
                && (exists c, t :: IsPending(c, input, id, orderId, now) && IsBroken(t, input, id, orderId, error, now)
                      && dal.transactions == old(dal.transactions) + [t]
                      && events == old(events) + [Event(Created, c), Event(FailedEvent, t)])
                && gateway.View() == old(gateway.View())
                && View() == Run(old(View()), [Insert(0, input, id, orderId, now), PayThrows(0, error, now)])
      ensures r.Ok? ==>
                && (exists c, t :: IsPending(c, input, id, orderId, now)
                      && IsStarted(t, input, id, orderId, r.value.paymentLink, now)
                      && dal.transactions == old(dal.transactions) + [t]
                      && events == old(events) + [Event(Created, c), Event(Updated, t)])
                && gateway.payments == old(gateway.payments)
                     + [MockGateway.Payment(paymentId, orderId, input.amount, MockGateway.Pending)]
                && gateway.autoConfirmTimers == old(gateway.autoConfirmTimers)
                     + (if mock.enabled && mock.autoConfirmDelay > 0 then {paymentId} else {})
                && View() == Run(old(View()), [Insert(0, input, id, orderId, now),
                                               Pay(0, paymentId, mock.enabled && mock.autoConfirmDelay > 0),
                                               FinishCreate(0, r.value.paymentLink, now)])
    {
      hide IsPending, IsStarted, IsBroken, Fresh, PaymentStarted, PaymentBroken, Merged, EventFor, FindOrder, Run;
      hide MockGateway.Apply, MockGateway.FindId, MockGateway.FindOrder;
      var refusal := CreateRefusal(input, userExists, price);
      if refusal.Some? {
        return Err(refusal.value);
      }
      ghost var start, created := View(), Fresh(id, orderId, input, now);
      var link := "https://mock-payment.gateway/pay/" + paymentId;
      OrderStored(input, id, orderId, link, error, now);
      var n := InsertOrder(input, id, orderId, now);
      if configThrows {
        BrokenWhole(start, input, id, orderId, error, now);
        dal.Update(n, PaymentBroken(error), now);
        events := events + [EventFor(dal.transactions[n])];
        assert dal.transactions == old(dal.transactions) + [Merged(created, PaymentBroken(error), now)];
        return Err(PaymentFailed);
      }
      StartedWhole(start, input, id, orderId, paymentId, mock.enabled && mock.autoConfirmDelay > 0, link, now);
      gateway.CreatePayment(paymentId, orderId, input.amount, mock.enabled, mock.autoConfirmDelay);
      dal.Update(n, PaymentStarted(link), now);
      events := events + [EventFor(dal.transactions[n])];
      assert dal.transactions == old(dal.transactions) + [Merged(created, PaymentStarted(link), now)];
      return Ok(PaymentResult(link, id, orderId));
    }

    /** `updateState`: the schema's refusals, then one write whatever the old status, and one event of the new one. */
    method UpdateState(orderId: string, update: Fields, now: int) returns (r: Result<Fields>)
      modifies this`events, dal
      ensures UpdateRefusal(old(View()), orderId, update).Some? ==>
                r == Err(UpdateRefusal(old(View()), orderId, update).value) && View() == old(View())
                    && events == old(events)
      ensures UpdateRefusal(old(View()), orderId, update).None? ==>
                var i := FindOrder(old(dal.transactions), orderId).value;
                && View() == Next(old(View()), UpdateOrder(orderId, update, now))
                && r == Ok(dal.transactions[i])
      ensures r == Err(InvalidInput) <==> Blank(orderId) || !IsAllowed(update)
      ensures r == Err(UnknownOrder)
              <==> !Blank(orderId) && IsAllowed(update) && FindOrder(old(dal.transactions), orderId).None?
      ensures r.Ok? <==> !Blank(orderId) && IsAllowed(update) && FindOrder(old(dal.transactions), orderId).Some?
      ensures r.Ok? ==>
                events == old(events)
                  + [Event(if Field(r.value, "status") == Text("completed") then CompletedEvent
                           else if Field(r.value, "status") == Text("failed") then FailedEvent else Updated, r.value)]
    {
      SchemaMeans(update);
      hide Merged, SchemaAccepts, IsAllowed, FindOrder;
      if Blank(orderId) || !SchemaAccepts(update) {
        return Err(InvalidInput);
      }
      var found := FindOrder(dal.transactions, orderId);
      if found.None? {
        return Err(UnknownOrder);
      }
      var updateData := update;
      if Field(update, "status") == COMPLETED && Field(update, "completedAt") == Undefined {
        updateData := update["completedAt" := Time(now)];
      }
      dal.Update(found.value, updateData, now);
      events := events + [EventFor(dal.transactions[found.value])];
      return Ok(dal.transactions[found.value]);
    }

    /** `handleWebhook`: an absent payment method is passed on as undefined, and so erases the stored one. */
    method HandleWebhook(orderId: string, status: Value, paymentMethod: Value, metadata: Option<Value>, now: int)
        returns (r: Result<Fields>)
      modifies this`events, dal
      ensures var update := WebhookUpdate(status, paymentMethod, metadata);
              && (UpdateRefusal(old(View()), orderId, update).Some? ==>
                    r.Err? && View() == old(View()) && events == old(events))
              && (UpdateRefusal(old(View()), orderId, update).None? ==>
                    && View() == Next(old(View()), UpdateOrder(orderId, update, now))
                    && r == Ok(dal.transactions[FindOrder(old(dal.transactions), orderId).value])
                    && Field(r.value, "status") == status && Field(r.value, "paymentMethod") == paymentMethod
                    && (metadata.Some? ==> Field(r.value, "metadata") == metadata.value)
                    && (status == COMPLETED ==> Field(r.value, "completedAt") == Time(now)))
    {
      WebhookStored(View(), orderId, status, paymentMethod, metadata, now);
      hide Next, UpdateRefusal, WebhookUpdate, FindOrder, EventFor;
      r := UpdateState(orderId, WebhookUpdate(status, paymentMethod, metadata), now);
    }

    /** `cancelTransaction` when no other call comes between its parts: the payment is cancelled first. */
    method CancelTransaction(orderId: string, now: int) returns (r: Result<Fields>)
      modifies this, dal, gateway
      ensures match CancelRefusal(old(View()), orderId)
              case Some(e) => r == Err(e) && View() == old(View()) && events == old(events)
              case None =>
                var i := FindOrder(old(dal.transactions), orderId).value;
                && r.Ok? && dal.transactions == old(dal.transactions)[i := r.value]
                && (if Field(old(dal.transactions)[i], "status") == CANCELLED
                    then View() == old(View()) && events == old(events)
                    else && View() == Run(old(View()), [CancelCheck(0, orderId), CancelPay(0), CancelWrite(0, now)])
                         && events == old(events) + [Event(Updated, r.value)]
                         && IsCancelled(r.value, old(dal.transactions)[i], now)
                         && PaymentExpired(old(gateway.payments), gateway.payments, orderId))
      ensures var found, pay := FindOrder(old(dal.transactions), orderId),
                                MockGateway.FindOrder(old(gateway.payments), orderId);
              var status := if found.Some? then Field(old(dal.transactions)[found.value], "status") else Undefined;
              var asks := !Blank(orderId) && found.Some? && status != Text("completed") && status != Text("cancelled");
              && (r == Err(InvalidInput) <==> Blank(orderId))
              && (r == Err(UnknownOrder) <==> !Blank(orderId) && found.None?)
              && (r == Err(AlreadyCompleted) <==> !Blank(orderId) && found.Some? && status == Text("completed"))
              && (r == Err(PaymentUnknown) <==> asks && pay.None?)
              && (r == Err(PaymentPaid)
                  <==> asks && pay.Some? && old(gateway.payments)[pay.value].status == MockGateway.Paid)
    {
      hide MockGateway.Apply, MockGateway.FindId, MockGateway.FindOrder;
      hide SchemaAccepts, FindOrder, Next, Run, IsCancelled, PaymentExpired;
      CancelIsAccepted();
      RefusedUnchanged(gateway.View(), orderId);
      if Blank(orderId) {
        return Err(InvalidInput);
      }
      var found := FindOrder(dal.transactions, orderId);
      if found.None? {
        return Err(UnknownOrder);
      }
      var t := dal.transactions[found.value];
      if Field(t, "status") == COMPLETED {
        return Err(AlreadyCompleted);
      }
      if Field(t, "status") == CANCELLED {
        return Ok(t);
      }
      if CancelRefusal(View(), orderId).None? { CancelWhole(View(), orderId, now); }
      var outcome := gateway.Cancel(orderId);
      if outcome.NotFound? {
        return Err(PaymentUnknown);
      }
      if outcome.Refused? {
        return Err(PaymentPaid);
      }
      ghost var paid := Sys(old(dal.transactions), MockGateway.Apply(old(gateway.View()),
                                                                     MockGateway.CancelPayment(orderId)), map[]);
      assert View() == paid;
      r := UpdateState(orderId, CANCEL_UPDATE, now);
      assert dal.transactions == Next(paid, UpdateOrder(orderId, CANCEL_UPDATE, now)).store;
    }
  }

  /** A refusal of the gateway changes nothing there. */
  lemma RefusedUnchanged(g: MockGateway.State, orderId: string)
    ensures GatewayRefusal(g, orderId).Some? ==> MockGateway.Apply(g, MockGateway.CancelPayment(orderId)) == g
  {
  }

  lemma WebhookWrites(t: Fields, status: Value, paymentMethod: Value, metadata: Option<Value>, now: int)
    ensures var after := Merged(t, Issued(WebhookUpdate(status, paymentMethod, metadata), now), now);
            && Field(after, "status") == status && Field(after, "paymentMethod") == paymentMethod
            && Field(after, "metadata") == (if metadata.Some? then metadata.value else Field(t, "metadata"))
            && Field(after, "completedAt") == (if status == COMPLETED then Time(now) else Field(t, "completedAt"))
            && Field(after, "paymentLink") == Field(t, "paymentLink") && Field(after, "updatedAt") == Time(now)
  {
    hide Merged, Issued;
    var update := WebhookUpdate(status, paymentMethod, metadata);
    MergedFields(t, update, now, "status");
    MergedFields(t, update, now, "paymentMethod");
    MergedFields(t, update, now, "metadata");
    MergedFields(t, update, now, "completedAt");
    MergedFields(t, update, now, "paymentLink");
    MergedFields(t, update, now, "updatedAt");
  }

  lemma WebhookStored(s: Sys, orderId: string, status: Value, paymentMethod: Value, metadata: Option<Value>, now: int)
    ensures var update := WebhookUpdate(status, paymentMethod, metadata);
            UpdateRefusal(s, orderId, update).None? ==>
              var i, t := FindOrder(s.store, orderId).value, Next(s, UpdateOrder(orderId, update, now));
              && |t.store| == |s.store| && Field(t.store[i], "status") == status
              && Field(t.store[i], "paymentMethod") == paymentMethod
              && (metadata.Some? ==> Field(t.store[i], "metadata") == metadata.value)
              && (status == COMPLETED ==> Field(t.store[i], "completedAt") == Time(now))
  {
    var found := FindOrder(s.store, orderId);
    if found.Some? { WebhookWrites(s.store[found.value], status, paymentMethod, metadata, now); }
    hide Merged, Issued, WebhookUpdate, FindOrder, SchemaAccepts, Field;
  }

  /** The three parts of a cancellation, one after the other, are the gateway's cancellation and one `updateState`. */
  lemma CancelWhole(s: Sys, orderId: string, now: int)
    requires s.calls == map[] && CancelRefusal(s, orderId).None?
    requires Field(s.store[FindOrder(s.store, orderId).value], "status") != CANCELLED
    ensures var paid := Sys(s.store, MockGateway.Apply(s.gateway, MockGateway.CancelPayment(orderId)), map[]);
            && Enabled(paid, UpdateOrder(orderId, CANCEL_UPDATE, now))
            && Run(s, [CancelCheck(0, orderId), CancelPay(0), CancelWrite(0, now)])
               == Next(paid, UpdateOrder(orderId, CANCEL_UPDATE, now))
    ensures var i := FindOrder(s.store, orderId).value;
            var t := Next(Sys(s.store, MockGateway.Apply(s.gateway, MockGateway.CancelPayment(orderId)), map[]),
                          UpdateOrder(orderId, CANCEL_UPDATE, now));
            && |t.store| == |s.store| && t.store == s.store[i := t.store[i]] && IsCancelled(t.store[i], s.store[i], now)
            && Field(t.store[i], "status") == CANCELLED
            && PaymentExpired(s.gateway.payments, t.gateway.payments, orderId)
  {
    CancelIsAccepted();
    CancelSteps(s, orderId, now);
    CancelExpires(s.gateway, orderId);
    var paid := Sys(s.store, MockGateway.Apply(s.gateway, MockGateway.CancelPayment(orderId)), map[]);
    forall key: string
      ensures var u := Next(paid, UpdateOrder(orderId, CANCEL_UPDATE, now)).store[FindOrder(s.store, orderId).value];
              Field(u, key) == if key == "updatedAt" then Time(now) else if key == "status" then Text("cancelled")
                               else Field(s.store[FindOrder(s.store, orderId).value], key)
    {
      UpdateWritesExactly(paid, orderId, CANCEL_UPDATE, now, key);
    }
    hide SchemaAccepts, Merged, Issued, MockGateway.Apply, MockGateway.FindOrder, FindOrder, PaymentExpired, Run;
  }

  lemma CancelExpires(g: MockGateway.State, orderId: string)
    requires GatewayRefusal(g, orderId).None?
    ensures PaymentExpired(g.payments, MockGateway.Apply(g, MockGateway.CancelPayment(orderId)).payments, orderId)
  {
    hide MockGateway.FindOrder;
    var k := MockGateway.FindOrder(g.payments, orderId).value;
    assert g.payments[k].orderId == orderId;
  }

  lemma CancelSteps(s: Sys, orderId: string, now: int)
    requires s.calls == map[] && CancelRefusal(s, orderId).None?
    requires Field(s.store[FindOrder(s.store, orderId).value], "status") != CANCELLED
    ensures var paid := Sys(s.store, MockGateway.Apply(s.gateway, MockGateway.CancelPayment(orderId)), map[]);
            && Enabled(paid, UpdateOrder(orderId, CANCEL_UPDATE, now))
            && Run(s, [CancelCheck(0, orderId), CancelPay(0), CancelWrite(0, now)])
               == Next(paid, UpdateOrder(orderId, CANCEL_UPDATE, now))
  {
    CancelIsAccepted();
    hide SchemaAccepts, Merged, Issued, MockGateway.Apply, MockGateway.FindOrder, FindOrder;
    var check, pay, write := CancelCheck(0, orderId), CancelPay(0), CancelWrite(0, now);
    RunAppend(s, [], check);
    RunAppend(s, [check], pay);
    RunAppend(s, [check, pay], write);
    hide Run;
    assert [] + [check] == [check] && [check] + [pay] == [check, pay] && [check, pay] + [write] == [check, pay, write];
    var two := Next(Next(s, check), pay);
    assert two.calls - {0} == map[] && two.calls[0] == PaymentCancelled(orderId);
  }

  lemma CancelIsAccepted()
    ensures SchemaAccepts(CANCEL_UPDATE)
  {
  }

  // ----- runs: the parts of concurrent calls and the gateway in any order -----

  const EMPTY: Sys := Sys([], MockGateway.State([], {}, []), map[])

  /** Suspended calls know records that exist. */
  ghost predicate CallsValid(s: Sys) {
    forall call :: call in s.calls ==>
      match s.calls[call]
      case Inserted(i, orderId, amount) =>
        i < |s.store| && Field(s.store[i], "orderId") == Text(orderId) && Field(s.store[i], "amount") == Number(amount)
      case PaymentCreated(i) => i < |s.store|
      case Checked(orderId) => !Blank(orderId)
      case PaymentCancelled(orderId) => !Blank(orderId)
  }

  // ----- what no update can change -----

  predicate SameOrder(t: Fields, u: Fields) {
    Field(t, "id") == Field(u, "id") && forall key :: key in ORDER_KEYS ==> Field(t, key) == Field(u, key)
  }

  /** The driver itself protects only the id: it keeps the rest of the identity exactly for data that repeats it. */
  lemma DriverKeepsOrderIff(t: Fields, data: Fields, now: int)
    ensures Field(Merged(t, data, now), "id") == Field(t, "id")
    ensures SameOrder(Merged(t, data, now), t)
            <==> forall key :: key in ORDER_KEYS && key in data ==> data[key] == Field(t, key)
  {
    var m := Merged(t, data, now);
    forall key | key in ORDER_KEYS ensures Field(m, key) == if key in data then data[key] else Field(t, key) {
    }
  }

  /** The fields an update may name, and the time the driver sets. */
  predicate MayChange(key: string) {
    key in UPDATE_KEYS || key == "updatedAt"
  }

  /** Data without a foreign key changes no other field. */
  lemma MergeKeeps(t: Fields, data: Fields, now: int, key: string)
    requires !MayChange(key) && key !in data
    ensures Field(Merged(t, data, now), key) == Field(t, key)
  {
  }

  lemma IssuedKeys(u: Fields, now: int, key: string)
    requires SchemaAccepts(u) && key !in UPDATE_KEYS
    ensures key !in Issued(u, now)
  {
  }

  /** What reaches the driver names no other field: the engine's own updates by what they are, the callers' by the
      schema. */
  lemma WritesNameOnly(s: Sys, step: Step, key: string)
    requires Enabled(s, step) && !MayChange(key) && WriteOf(s, step).Some?
    ensures key !in WriteOf(s, step).value.data
  {
    match step {
      case UpdateOrder(_, update, now) => IssuedKeys(update, now, key);
      case CancelWrite(_, now) =>
        CancelIsAccepted();
        IssuedKeys(CANCEL_UPDATE, now, key);
      case _ =>
    }
  }

  lemma StepKeepsField(s: Sys, step: Step, i: nat, key: string)
    requires i < |s.store| && !MayChange(key)
    ensures i < |StepOrSkip(s, step).store| && Field(StepOrSkip(s, step).store[i], key) == Field(s.store[i], key)
  {
    if Enabled(s, step) && WriteOf(s, step).Some? {
      WritesNameOnly(s, step, key);
      var w := WriteOf(s, step).value;
      MergeKeeps(s.store[w.i], w.data, w.now, key);
      hide Merged, WriteOf;
    }
  }

  lemma {:induction false} FieldIsKept(s: Sys, steps: seq<Step>, i: nat, key: string)
    requires i < |s.store| && !MayChange(key)
    ensures i < |Run(s, steps).store| && Field(Run(s, steps).store[i], key) == Field(s.store[i], key)
  {
    if |steps| > 0 {
      FieldIsKept(s, steps[..|steps| - 1], i, key);
      StepKeepsField(Run(s, steps[..|steps| - 1]), steps[|steps| - 1], i, key);
    }
  }

  /** In every interleaving a stored order keeps its id, order id, user, product and amount, whatever updates and
      webhooks carry: an update that names one of them is refused. */
  lemma IdentityIsKept(s: Sys, steps: seq<Step>, i: nat)
    requires i < |s.store|
    ensures i < |Run(s, steps).store| && SameOrder(Run(s, steps).store[i], s.store[i])
  {
    FieldIsKept(s, steps, i, "id");
    forall key | key in ORDER_KEYS ensures Field(Run(s, steps).store[i], key) == Field(s.store[i], key) {
      FieldIsKept(s, steps, i, key);
    }
  }

  /** What an accepted update of a stored order comes to, field by field: the fields it names, the time of the update,
      the time of completion when it completes without giving one, and nothing else, there or elsewhere. */
  lemma UpdateWritesExactly(s: Sys, orderId: string, update: Fields, now: int, key: string)
    requires Enabled(s, UpdateOrder(orderId, update, now))
    ensures var i, t := FindOrder(s.store, orderId).value, Next(s, UpdateOrder(orderId, update, now));
            && t.gateway == s.gateway && t.calls == s.calls && |t.store| == |s.store|
            && (forall k :: 0 <= k < |s.store| && k != i ==> t.store[k] == s.store[k])
            && Field(t.store[i], key)
               == if key == "updatedAt" then Time(now)
                  else if key == "completedAt" && Field(update, "status") == COMPLETED
                      && Field(update, key) == Undefined
                    then Time(now)
                  else if key in update then update[key]
                  else Field(s.store[i], key)
  {
    hide FindOrder;
    assert "id" !in update && "updatedAt" !in update;
    MergedFields(s.store[FindOrder(s.store, orderId).value], update, now, key);
    hide Merged, Issued, SchemaAccepts;
  }

  lemma MergedFields(t: Fields, update: Fields, now: int, key: string)
    requires "id" !in update && "updatedAt" !in update
    ensures Field(Merged(t, Issued(update, now), now), key)
            == if key == "updatedAt" then Time(now)
               else if key == "completedAt" && Field(update, "status") == COMPLETED && Field(update, key) == Undefined
                 then Time(now)
               else if key in update then update[key]
               else Field(t, key)
  {
  }

  // ----- the status over a run -----

  /** The status a step gives to record `i`, if it gives one. */
  function Given(s: Sys, step: Step, i: nat): Option<Value> {
    if !Enabled(s, step) then None
    else
      match WriteOf(s, step)
      case Some(w) => if w.i == i && "status" in w.data then Some(w.data["status"]) else None
      case None => None
  }

  /** The last status that the steps give to record `i`. */
  function LastGiven(s: Sys, steps: seq<Step>, i: nat): Option<Value> {
    if |steps| == 0 then None
    else
      match Given(Run(s, steps[..|steps| - 1]), steps[|steps| - 1], i)
      case Some(v) => Some(v)
      case None => LastGiven(s, steps[..|steps| - 1], i)
  }

  function StatusOf(s: Sys, i: nat): Value {
    if i < |s.store| then Field(s.store[i], "status") else Undefined
  }

  lemma StatusStep(s: Sys, step: Step, i: nat)
    requires i < |s.store|
    ensures i < |StepOrSkip(s, step).store|
    ensures StatusOf(StepOrSkip(s, step), i)
            == match Given(s, step, i) case Some(v) => v case None => StatusOf(s, i)
  {
    hide Fresh, PaymentStarted, PaymentBroken, Issued;
  }

  /** A record's status is the last one given to it: no other step, and nothing the gateway notifies, changes it. */
  lemma {:induction false} StatusIsLastGiven(s: Sys, steps: seq<Step>, i: nat)
    requires i < |s.store|
    ensures i < |Run(s, steps).store|
    ensures StatusOf(Run(s, steps), i) == match LastGiven(s, steps, i) case Some(v) => v case None => StatusOf(s, i)
  {
    if |steps| > 0 {
      StatusIsLastGiven(s, steps[..|steps| - 1], i);
      StatusStep(Run(s, steps[..|steps| - 1]), steps[|steps| - 1], i);
      hide StepOrSkip, Given, StatusOf;
    }
  }

  predicate CompletedThroughout(s: Sys, steps: seq<Step>, i: nat) {
    && StatusOf(Run(s, steps), i) == COMPLETED
    && (|steps| > 0 ==> CompletedThroughout(s, steps[..|steps| - 1], i))
  }

  /** Every status given to the record is completed again. */
  predicate GivesOnlyCompleted(s: Sys, steps: seq<Step>, i: nat) {
    |steps| > 0 ==>
      && GivesOnlyCompleted(s, steps[..|steps| - 1], i)
      && (match Given(Run(s, steps[..|steps| - 1]), steps[|steps| - 1], i)
          case Some(v) => v == COMPLETED
          case None => true)
  }

  /** A completed order stays completed over a run exactly when every later write to it gives no status, or
      completed. */
  lemma {:induction false} CompletedStaysIff(s: Sys, steps: seq<Step>, i: nat)
    requires i < |s.store| && StatusOf(s, i) == COMPLETED
    ensures CompletedThroughout(s, steps, i) <==> GivesOnlyCompleted(s, steps, i)
  {
    hide StepOrSkip, Given, StatusOf;
    if |steps| > 0 {
      var p := steps[..|steps| - 1];
      CompletedStaysIff(s, p, i);
      StatusIsLastGiven(s, p, i);
      StatusStep(Run(s, p), steps[|steps| - 1], i);
    }
  }

  /** A webhook is such a write: one with another status takes a completed order back, and no check is in its way. */
  lemma WebhookTakesBack(s: Sys, i: nat, orderId: string, status: string, now: int)
    requires FindOrder(s.store, orderId) == Some(i) && !Blank(orderId) && StatusOf(s, i) == COMPLETED
    requires status in STATUSES && status != "completed"
    ensures var step := UpdateOrder(orderId, WebhookUpdate(Text(status), Undefined, None), now);
            Enabled(s, step) && StatusOf(Next(s, step), i) == Text(status)
  {
    WebhookWrites(s.store[i], Text(status), Undefined, None, now);
    hide Issued, Merged;
  }

  // ----- cancellations -----

  lemma {:induction false} FoundStays(a: seq<Fields>, b: seq<Fields>, orderId: string)
    requires |a| <= |b| && forall k :: 0 <= k < |a| ==> Field(a[k], "orderId") == Field(b[k], "orderId")
    requires FindOrder(a, orderId).Some?
    ensures FindOrder(b, orderId) == FindOrder(a, orderId)
  {
    var i := FindOrder(a, orderId).value;
    assert Field(b[i], "orderId") == Text(orderId);
    var j := FindOrder(b, orderId).value;
    assert j < |a| ==> Field(a[j], "orderId") == Text(orderId);
  }

  lemma FoundOverRun(s: Sys, steps: seq<Step>, orderId: string)
    requires FindOrder(s.store, orderId).Some?
    ensures FindOrder(Run(s, steps).store, orderId) == FindOrder(s.store, orderId)
  {
    var t := Run(s, steps);
    FieldIsKept(s, steps, FindOrder(s.store, orderId).value, "orderId");
    forall k | 0 <= k < |s.store|
        ensures k < |t.store| && Field(s.store[k], "orderId") == Field(t.store[k], "orderId") {
      FieldIsKept(s, steps, k, "orderId");
    }
    assert |s.store| <= |t.store| by { if |s.store| > 0 { FieldIsKept(s, steps, |s.store| - 1, "orderId"); } }
    FoundStays(s.store, t.store, orderId);
  }

  /** `cancelTransaction` over every run between its check and its write: the write turns a completed order into a
      cancelled one exactly when the last status given to the order in between is completed. */
  lemma CancelOverwritesIff(s: Sys, call: nat, orderId: string, between: seq<Step>, now: int)
    requires Enabled(s, CancelCheck(call, orderId))
    requires var t := Run(Next(s, CancelCheck(call, orderId)), between);
             Enabled(t, CancelWrite(call, now)) && t.calls[call] == PaymentCancelled(orderId)
    ensures var i := FindOrder(s.store, orderId).value;
            var t := Run(Next(s, CancelCheck(call, orderId)), between);
            var end := Next(t, CancelWrite(call, now));
            && StatusOf(end, i) == CANCELLED
            && (StatusOf(t, i) == COMPLETED
                <==> LastGiven(Next(s, CancelCheck(call, orderId)), between, i) == Some(COMPLETED))
            && Field(end.store[i], "completedAt") == Field(t.store[i], "completedAt")
  {
    var i := FindOrder(s.store, orderId).value;
    var checked := Next(s, CancelCheck(call, orderId));
    var t := Run(checked, between);
    assert checked.store == s.store;
    FoundOverRun(checked, between, orderId);
    StatusIsLastGiven(checked, between, i);
    assert StatusOf(checked, i) != COMPLETED;
    assert WriteOf(t, CancelWrite(call, now)) == Some(Written(i, CANCEL_UPDATE, now));
    CancelMerged(t.store[i], now);
    hide Run, FindOrder, Merged, Enabled, WriteOf, Field;
  }

  lemma CancelMerged(t: Fields, now: int)
    ensures Issued(CANCEL_UPDATE, now) == CANCEL_UPDATE
    ensures Field(Merged(t, CANCEL_UPDATE, now), "status") == CANCELLED
    ensures Field(Merged(t, CANCEL_UPDATE, now), "completedAt") == Field(t, "completedAt")
  {
  }

  // ----- the time of completion -----

  /** A completed order has its time of completion. */
  predicate Dated(t: Fields) {
    Field(t, "status") == COMPLETED ==> Field(t, "completedAt") != Undefined
  }

  /** Data that give no status and an undefined time. */
  predicate Erases(data: Fields) {
    "status" !in data && "completedAt" in data && data["completedAt"] == Undefined
  }

  /** A write loses the time of completion exactly when it erases the time of a completed order. */
  lemma WriteKeepsDateIff(t: Fields, u: Fields, now: int)
    requires Dated(t)
    ensures Dated(Merged(t, Issued(u, now), now)) <==> !(Field(t, "status") == COMPLETED && Erases(u))
  {
    var data := Issued(u, now);
    var m := Merged(t, data, now);
    assert Field(m, "status") == if "status" in data then data["status"] else Field(t, "status");
    assert Field(m, "completedAt") == if "completedAt" in data then data["completedAt"] else Field(t, "completedAt");
    hide Merged;
  }

  ghost predicate AllDated(s: Sys) {
    forall i :: 0 <= i < |s.store| ==> Dated(s.store[i])
  }

  /** A caller's update that erases the time of a completed order. */
  predicate LosesDate(s: Sys, step: Step) {
    step.UpdateOrder? && Enabled(s, step) && Erases(step.update)
    && Field(s.store[FindOrder(s.store, step.orderId).value], "status") == COMPLETED
  }

  lemma DateOfWriteIff(store: seq<Fields>, i: nat, u: Fields, now: int)
    requires i < |store| && forall k :: 0 <= k < |store| ==> Dated(store[k])
    ensures var after := store[i := Merged(store[i], Issued(u, now), now)];
            (forall k :: 0 <= k < |after| ==> Dated(after[k]))
                <==> !(Field(store[i], "status") == COMPLETED && Erases(u))
  {
    WriteKeepsDateIff(store[i], u, now);
    hide Dated, Merged, Issued, Erases, Field;
    var after := store[i := Merged(store[i], Issued(u, now), now)];
    assert after[i] == Merged(store[i], Issued(u, now), now);
  }

  lemma EngineWritesNeverErase(metadata: string, link: string, now: int)
    ensures !Erases(PaymentBroken(metadata)) && Issued(PaymentBroken(metadata), now) == PaymentBroken(metadata)
    ensures !Erases(PaymentStarted(link)) && Issued(PaymentStarted(link), now) == PaymentStarted(link)
    ensures !Erases(CANCEL_UPDATE)
  {
  }

  lemma StepKeepsDatesIff(s: Sys, step: Step)
    requires AllDated(s)
    ensures AllDated(StepOrSkip(s, step)) <==> !LosesDate(s, step)
  {
    if Enabled(s, step) {
      match step {
        case Insert(_, input, id, orderId, now) => assert Dated(Fresh(id, orderId, input, now));
        case PayThrows(call, metadata, now) =>
          EngineWritesNeverErase(metadata, "", now);
          DateOfWriteIff(s.store, s.calls[call].i, PaymentBroken(metadata), now);
        case FinishCreate(call, link, now) =>
          EngineWritesNeverErase("", link, now);
          DateOfWriteIff(s.store, s.calls[call].i, PaymentStarted(link), now);
        case UpdateOrder(orderId, update, now) =>
          DateOfWriteIff(s.store, FindOrder(s.store, orderId).value, update, now);
        case CancelWrite(call, now) =>
          EngineWritesNeverErase("", "", now);
          DateOfWriteIff(s.store, FindOrder(s.store, s.calls[call].orderId).value, CANCEL_UPDATE, now);
        case _ =>
      }
      hide Merged, Issued, Erases, PaymentBroken, PaymentStarted, FindOrder, Field;
    }
  }

  predicate LosesSomeDate(s: Sys, steps: seq<Step>) {
    |steps| > 0
    && (LosesSomeDate(s, steps[..|steps| - 1]) || LosesDate(Run(s, steps[..|steps| - 1]), steps[|steps| - 1]))
  }

  ghost predicate DatedThroughout(s: Sys, steps: seq<Step>) {
    AllDated(Run(s, steps)) && (|steps| > 0 ==> DatedThroughout(s, steps[..|steps| - 1]))
  }

  /** Completed implies a time of completion all along a run exactly when no update erases that time. */
  lemma {:induction false} CompletedIsDatedIff(s: Sys, steps: seq<Step>)
    requires AllDated(s)
    ensures DatedThroughout(s, steps) <==> !LosesSomeDate(s, steps)
  {
    hide AllDated, StepOrSkip, LosesDate;
    if |steps| > 0 {
      var p := steps[..|steps| - 1];
      CompletedIsDatedIff(s, p);
      if DatedThroughout(s, p) { StepKeepsDatesIff(Run(s, p), steps[|steps| - 1]); }
    }
  }

  ghost predicate IsWebhook(u: Fields) {
    exists status, paymentMethod, metadata :: u == WebhookUpdate(status, paymentMethod, metadata)
  }

  /** Webhooks never do: over every run whose updates are all webhooks, completed orders are dated all along. */
  lemma {:induction false} WebhookRunsAreDated(s: Sys, steps: seq<Step>)
    requires AllDated(s) && forall k :: 0 <= k < |steps| && steps[k].UpdateOrder? ==> IsWebhook(steps[k].update)
    ensures DatedThroughout(s, steps)
  {
    NoDateLost(s, steps);
    CompletedIsDatedIff(s, steps);
  }

  lemma {:induction false} NoDateLost(s: Sys, steps: seq<Step>)
    requires forall k :: 0 <= k < |steps| && steps[k].UpdateOrder? ==> IsWebhook(steps[k].update)
    ensures !LosesSomeDate(s, steps)
  {
    if |steps| > 0 {
      NoDateLost(s, steps[..|steps| - 1]);
    }
  }

  // ----- engine and gateway together -----

  predicate Ordered(store: seq<Fields>, orderId: string, amount: real) {
    var i := FindOrder(store, orderId);
    i.Some? && Field(store[i.value], "amount") == Number(amount)
  }

  /** No two payments are for one order, nor is one for an order whose payment is still to be created. */
  ghost predicate OnePaymentEach(s: Sys) {
    && (forall k, l :: 0 <= k < l < |s.gateway.payments| ==>
        s.gateway.payments[k].orderId != s.gateway.payments[l].orderId)
    && (forall call, k :: call in s.calls && s.calls[call].Inserted? && 0 <= k < |s.gateway.payments| ==>
          s.gateway.payments[k].orderId != s.calls[call].orderId)
    && (forall c, d :: c in s.calls && d in s.calls && c != d && s.calls[c].Inserted? && s.calls[d].Inserted? ==>
          s.calls[c].orderId != s.calls[d].orderId)
  }

  /** The payments of the gateway carry the order and the amount of a stored record, whose order id is unique, and
      there is at most one for each order. */
  ghost predicate Consistent(s: Sys) {
    && (forall i, j :: 0 <= i < j < |s.store| ==> Field(s.store[i], "orderId") != Field(s.store[j], "orderId"))
    && CallsValid(s) && OnePaymentEach(s)
    && forall k :: 0 <= k < |s.gateway.payments| ==>
         Ordered(s.store, s.gateway.payments[k].orderId, s.gateway.payments[k].amount)
  }

  lemma OrderedStays(s: Sys, step: Step, orderId: string, amount: real)
    requires Ordered(s.store, orderId, amount)
    ensures Ordered(StepOrSkip(s, step).store, orderId, amount)
  {
    var t := StepOrSkip(s, step);
    assert Run(s, []) == s && [step][..0] == [];
    assert Run(s, [step]) == t;
    FoundOverRun(s, [step], orderId);
    StepKeepsField(s, step, FindOrder(s.store, orderId).value, "amount");
  }

  lemma GatewayKeepsOrders(g: MockGateway.State, op: MockGateway.Op)
    requires !op.Create?
    ensures var h := MockGateway.Apply(g, op);
            && |h.payments| == |g.payments|
            && forall k :: 0 <= k < |g.payments| ==> h.payments[k].orderId == g.payments[k].orderId
                                                     && h.payments[k].amount == g.payments[k].amount
  {
    hide MockGateway.FindOrder, MockGateway.FindId;
  }

  lemma StepKeepsUnique(s: Sys, step: Step)
    requires forall i, j :: 0 <= i < j < |s.store| ==> Field(s.store[i], "orderId") != Field(s.store[j], "orderId")
    ensures var t := StepOrSkip(s, step);
            forall i, j :: 0 <= i < j < |t.store| ==> Field(t.store[i], "orderId") != Field(t.store[j], "orderId")
  {
    var t := StepOrSkip(s, step);
    forall i | 0 <= i < |s.store|
        ensures i < |t.store| && Field(t.store[i], "orderId") == Field(s.store[i], "orderId") {
      StepKeepsField(s, step, i, "orderId");
    }
    if Enabled(s, step) && step.Insert? {
      assert Field(t.store[|s.store|], "orderId") == Text(step.orderId);
    }
    hide Merged, Fresh, Field;
  }

  lemma StepKeepsCalls(s: Sys, step: Step)
    requires CallsValid(s)
    ensures CallsValid(StepOrSkip(s, step))
  {
    var t := StepOrSkip(s, step);
    forall i | 0 <= i < |s.store|
      ensures i < |t.store| && Field(t.store[i], "orderId") == Field(s.store[i], "orderId")
      ensures Field(t.store[i], "amount") == Field(s.store[i], "amount")
    {
      StepKeepsField(s, step, i, "orderId");
      StepKeepsField(s, step, i, "amount");
    }
    assert |s.store| <= |t.store|;
    if Enabled(s, step) && step.Insert? {
      assert Field(t.store[|s.store|], "orderId") == Text(step.orderId);
      assert Field(t.store[|s.store|], "amount") == Number(step.input.amount);
    }
    hide Merged, Fresh, Field, WriteOf, FindOrder;
  }

  lemma InsertKeepsOnePayment(s: Sys, step: Step)
    requires Consistent(s) && Enabled(s, step) && step.Insert?
    ensures OnePaymentEach(Next(s, step))
  {
    forall k | 0 <= k < |s.gateway.payments| ensures s.gateway.payments[k].orderId != step.orderId {
      assert Ordered(s.store, s.gateway.payments[k].orderId, s.gateway.payments[k].amount);
    }
    forall c | c in s.calls && s.calls[c].Inserted? ensures s.calls[c].orderId != step.orderId {
      assert Field(s.store[s.calls[c].i], "orderId") == Text(s.calls[c].orderId);
    }
    hide StoreAfter, FindOrder, Ordered, Field;
  }

  lemma PayKeepsOnePayment(s: Sys, step: Step)
    requires OnePaymentEach(s) && Enabled(s, step) && step.Pay?
    ensures OnePaymentEach(Next(s, step))
  {
    hide StoreAfter, MockGateway.FindOrder, MockGateway.FindId;
    var p := s.calls[step.call];
    assert Next(s, step).gateway.payments
           == s.gateway.payments + [MockGateway.Payment(step.paymentId, p.orderId, p.amount, MockGateway.Pending)];
    hide MockGateway.Apply;
  }

  /** The other steps create no payment and insert nothing. */
  lemma OthersKeepOnePayment(s: Sys, step: Step)
    requires OnePaymentEach(s) && Enabled(s, step) && !step.Insert? && !step.Pay?
    ensures OnePaymentEach(Next(s, step))
  {
    hide StoreAfter, FindOrder, GatewayRefusal, MockGateway.Apply;
    match step {
      case CancelPay(call) => GatewayKeepsOrders(s.gateway, MockGateway.CancelPayment(s.calls[call].orderId));
      case AtGateway(op) => GatewayKeepsOrders(s.gateway, op);
      case _ =>
    }
    var t := Next(s, step);
    assert forall call :: call in t.calls && t.calls[call].Inserted? ==>
        call in s.calls && s.calls[call] == t.calls[call];
    assert |t.gateway.payments| == |s.gateway.payments|;
  }

  lemma StepKeepsOnePayment(s: Sys, step: Step)
    requires Consistent(s)
    ensures OnePaymentEach(StepOrSkip(s, step))
  {
    hide OnePaymentEach;
    if Enabled(s, step) {
      match step {
        case Insert(_, _, _, _, _) => InsertKeepsOnePayment(s, step);
        case Pay(_, _, _) => PayKeepsOnePayment(s, step);
        case _ => OthersKeepOnePayment(s, step);
      }
      hide Next, Enabled;
    }
  }

  lemma StepKeepsConsistent(s: Sys, step: Step)
    requires Consistent(s)
    ensures Consistent(StepOrSkip(s, step))
  {
    StepKeepsOnePayment(s, step);
    hide OnePaymentEach;
    StepKeepsUnique(s, step);
    StepKeepsCalls(s, step);
    if Enabled(s, step) {
      var t := Next(s, step);
      forall k | 0 <= k < |s.gateway.payments|
        ensures Ordered(t.store, s.gateway.payments[k].orderId, s.gateway.payments[k].amount)
      {
        OrderedStays(s, step, s.gateway.payments[k].orderId, s.gateway.payments[k].amount);
      }
      match step {
        case Pay(call, paymentId, autoConfirm) =>
          var p := s.calls[call];
          assert FindOrder(s.store, p.orderId) == Some(p.i);
          assert Ordered(s.store, p.orderId, p.amount);
          assert t.store == s.store;
        case CancelPay(call) => GatewayKeepsOrders(s.gateway, MockGateway.CancelPayment(s.calls[call].orderId));
        case AtGateway(op) => GatewayKeepsOrders(s.gateway, op);
        case _ =>
      }
      hide Ordered, StoreAfter, MockGateway.Apply;
    }
  }

  /** On every run, each payment of the gateway is for the order and the exact amount of one stored order. */
  lemma {:induction false} EveryPaymentHasItsOrder(steps: seq<Step>)
    ensures Consistent(Run(EMPTY, steps))
  {
    if |steps| > 0 {
      EveryPaymentHasItsOrder(steps[..|steps| - 1]);
      StepKeepsConsistent(Run(EMPTY, steps[..|steps| - 1]), steps[|steps| - 1]);
    }
  }

  // ----- which completed orders are safe -----

  /** A suspended call that can still give the order another status: a `createOrder` before its second write, or a
      `cancelTransaction` that has cancelled the payment, or that will because the gateway does not refuse. */
  predicate Threatens(g: MockGateway.State, p: Phase, i: nat, orderId: string) {
    match p
    case Inserted(j, _, _) => j == i
    case PaymentCreated(j) => j == i
    case PaymentCancelled(o) => o == orderId
    case Checked(o) => o == orderId && GatewayRefusal(g, o).None?
  }

  predicate Threatened(s: Sys, i: nat, orderId: string) {
    exists call :: call in s.calls && Threatens(s.gateway, s.calls[call], i, orderId)
  }

  /** The updates and webhooks for the order give no status, or completed. */
  predicate Behaves(step: Step, orderId: string) {
    step.UpdateOrder? && step.orderId == orderId && "status" in step.update ==> step.update["status"] == COMPLETED
  }

  ghost predicate IsSafe(s: Sys, i: nat, orderId: string) {
    forall steps :: (forall k :: 0 <= k < |steps| ==> Behaves(steps[k], orderId)) ==>
        StatusOf(Run(s, steps), i) == COMPLETED
  }

  /** A gateway that refuses to cancel an order's payment, as unknown or as paid, goes on refusing. */
  lemma RefusalStays(g: MockGateway.State, op: MockGateway.Op, orderId: string)
    requires GatewayRefusal(g, orderId).Some? && (op.Create? ==> op.orderId != orderId)
    ensures GatewayRefusal(MockGateway.Apply(g, op), orderId).Some?
  {
    var h := MockGateway.Apply(g, op);
    if op.Create? {
      assert h.payments[..|g.payments|] == g.payments;
    } else {
      GatewayKeepsOrders(g, op);
      SamePayments(g.payments, h.payments, orderId);
      var found := MockGateway.FindOrder(g.payments, orderId);
      if found.Some? { PaidStays(g, op, found.value); }
      hide MockGateway.Apply;
    }
  }

  lemma PaidStays(g: MockGateway.State, op: MockGateway.Op, k: nat)
    requires k < |g.payments| && g.payments[k].status.Paid? && !op.Create?
    ensures k < |MockGateway.Apply(g, op).payments| && MockGateway.Apply(g, op).payments[k] == g.payments[k]
  {
    hide MockGateway.FindOrder, MockGateway.FindId;
  }

  lemma {:induction false} SamePayments(a: seq<MockGateway.Payment>, b: seq<MockGateway.Payment>, orderId: string)
    requires |a| == |b| && forall k :: 0 <= k < |a| ==> a[k].orderId == b[k].orderId
    ensures MockGateway.FindOrder(a, orderId) == MockGateway.FindOrder(b, orderId)
  {
    if |a| > 0 { SamePayments(a[..|a| - 1], b[..|b| - 1], orderId); }
  }

  /** The order is stored, completed, and no call threatens it. */
  ghost predicate Secure(s: Sys, i: nat, orderId: string) {
    && Consistent(s) && FindOrder(s.store, orderId) == Some(i) && StatusOf(s, i) == COMPLETED
    && !Threatened(s, i, orderId)
  }

  lemma OtherOrder(s: Sys, i: nat, orderId: string, j: nat, other: string)
    requires Consistent(s) && FindOrder(s.store, orderId) == Some(i) && j < |s.store|
    requires Field(s.store[j], "orderId") == Text(other)
    ensures other == orderId <==> i == j
  {
  }

  lemma SecureStatus(s: Sys, step: Step, i: nat, orderId: string)
    requires Secure(s, i, orderId) && Enabled(s, step) && Behaves(step, orderId)
    ensures StatusOf(Next(s, step), i) == COMPLETED
  {
    StatusStep(s, step, i);
    assert forall call :: call in s.calls ==> !Threatens(s.gateway, s.calls[call], i, orderId);
    match step {
      case UpdateOrder(o, _, _) => OtherOrder(s, i, orderId, FindOrder(s.store, o).value, o);
      case CancelWrite(call, _) =>
        OtherOrder(s, i, orderId, FindOrder(s.store, s.calls[call].orderId).value, s.calls[call].orderId);
      case _ =>
    }
    hide StatusOf, FindOrder, PaymentBroken, PaymentStarted;
  }

  lemma SecureCalls(s: Sys, step: Step, i: nat, orderId: string)
    requires Secure(s, i, orderId) && Enabled(s, step)
    ensures !Threatened(Next(s, step), i, orderId)
  {
    var t := Next(s, step);
    forall call | call in t.calls ensures !Threatens(t.gateway, t.calls[call], i, orderId) {
      if call in s.calls {
        assert !Threatens(s.gateway, s.calls[call], i, orderId);
      }
      GatewayStepRefuses(s, step, i, orderId);
    }
  }

  lemma GatewayStepRefuses(s: Sys, step: Step, i: nat, orderId: string)
    requires Secure(s, i, orderId) && Enabled(s, step)
    ensures GatewayRefusal(s.gateway, orderId).Some? ==> GatewayRefusal(Next(s, step).gateway, orderId).Some?
  {
    if GatewayRefusal(s.gateway, orderId).Some? {
      match step {
        case Pay(call, paymentId, autoConfirm) =>
          var p := s.calls[call];
          assert !Threatens(s.gateway, p, i, orderId);
          OtherOrder(s, i, orderId, p.i, p.orderId);
          RefusalStays(s.gateway, CreateOp(p, paymentId, autoConfirm), orderId);
        case CancelPay(call) => RefusalStays(s.gateway, MockGateway.CancelPayment(s.calls[call].orderId), orderId);
        case AtGateway(op) => RefusalStays(s.gateway, op, orderId);
        case _ =>
      }
    }
    hide GatewayRefusal, MockGateway.Apply, StoreAfter, FindOrder;
  }

  lemma StepKeepsSecure(s: Sys, step: Step, i: nat, orderId: string)
    requires Secure(s, i, orderId) && Behaves(step, orderId)
    ensures Secure(StepOrSkip(s, step), i, orderId)
  {
    StepKeepsConsistent(s, step);
    FoundOverRun(s, [step], orderId);
    assert [step][..0] == [] && Run(s, []) == s;
    assert Run(s, [step]) == StepOrSkip(s, step);
    if Enabled(s, step) {
      SecureStatus(s, step, i, orderId);
      SecureCalls(s, step, i, orderId);
    }
    hide Consistent, FindOrder, StatusOf, Threatened, Next;
  }

  lemma {:induction false} RunKeepsSecure(s: Sys, steps: seq<Step>, i: nat, orderId: string)
    requires Secure(s, i, orderId) && forall k :: 0 <= k < |steps| ==> Behaves(steps[k], orderId)
    ensures Secure(Run(s, steps), i, orderId)
  {
    hide Secure, Behaves, StepOrSkip;
    if |steps| > 0 {
      RunKeepsSecure(s, steps[..|steps| - 1], i, orderId);
      StepKeepsSecure(Run(s, steps[..|steps| - 1]), steps[|steps| - 1], i, orderId);
    }
  }

  lemma CheckedCarriedOut(s: Sys, call: nat, i: nat, orderId: string)
    requires Consistent(s) && FindOrder(s.store, orderId) == Some(i)
    requires call in s.calls && s.calls[call].Checked? && Threatens(s.gateway, s.calls[call], i, orderId)
    ensures StatusOf(Run(s, [CancelPay(call), CancelWrite(call, 0)]), i) != COMPLETED
  {
    hide Run, FindOrder, SchemaAccepts, MockGateway.Apply, StatusOf;
    CancelIsAccepted();
    var t := Next(s, CancelPay(call));
    assert t.store == s.store && t.calls[call] == PaymentCancelled(orderId);
    CancelledNow(t, call, i, orderId);
    TwoSteps(s, CancelPay(call), CancelWrite(call, 0));
  }

  /** What each of these calls does next. */
  lemma ThreatCarriedOut(s: Sys, call: nat, i: nat, orderId: string) returns (steps: seq<Step>)
    requires Consistent(s) && FindOrder(s.store, orderId) == Some(i)
    requires call in s.calls && Threatens(s.gateway, s.calls[call], i, orderId)
    ensures forall k :: 0 <= k < |steps| ==> !steps[k].UpdateOrder?
    ensures StatusOf(Run(s, steps), i) != COMPLETED
  {
    var step := match s.calls[call]
      case Inserted(_, _, _) => PayThrows(call, "", 0)
      case PaymentCreated(_) => FinishCreate(call, "", 0)
      case Checked(_) => CancelPay(call)
      case PaymentCancelled(_) => CancelWrite(call, 0);
    CancelIsAccepted();
    assert Enabled(s, step);
    steps := [step];
    assert [step][..0] == [] && Run(s, []) == s;
    assert Run(s, [step]) == Next(s, step);
    hide Run, FindOrder, SchemaAccepts, MockGateway.Apply;
    if s.calls[call].Checked? {
      CheckedCarriedOut(s, call, i, orderId);
      steps := [step, CancelWrite(call, 0)];
    } else if s.calls[call].PaymentCancelled? {
      CancelledNow(s, call, i, orderId);
    }
  }

  lemma TwoSteps(s: Sys, a: Step, b: Step)
    ensures Run(s, [a, b]) == StepOrSkip(StepOrSkip(s, a), b)
  {
    assert [a, b][..1] == [a] && [a][..0] == [] && Run(s, []) == s;
    assert Run(s, [a]) == StepOrSkip(s, a);
  }

  lemma CancelledNow(s: Sys, call: nat, i: nat, orderId: string)
    requires Enabled(s, CancelWrite(call, 0)) && s.calls[call] == PaymentCancelled(orderId)
    requires FindOrder(s.store, orderId) == Some(i)
    ensures StatusOf(Next(s, CancelWrite(call, 0)), i) == CANCELLED
  {
    CancelMerged(s.store[i], 0);
    hide FindOrder, Merged, Issued;
  }

  /** A completed order stays completed over every run whose updates and webhooks for it give no status, or completed,
      exactly when no suspended call threatens it. */
  lemma CompletedIsSafeIff(s: Sys, i: nat, orderId: string)
    requires Consistent(s) && FindOrder(s.store, orderId) == Some(i) && StatusOf(s, i) == COMPLETED
    ensures IsSafe(s, i, orderId) <==> !Threatened(s, i, orderId)
  {
    hide Consistent, FindOrder, StatusOf;
    if Threatened(s, i, orderId) {
      var call :| call in s.calls && Threatens(s.gateway, s.calls[call], i, orderId);
      var steps := ThreatCarriedOut(s, call, i, orderId);
      assert forall k :: 0 <= k < |steps| ==> Behaves(steps[k], orderId);
    } else {
      forall steps | forall k :: 0 <= k < |steps| ==> Behaves(steps[k], orderId)
        ensures StatusOf(Run(s, steps), i) == COMPLETED
      {
        RunKeepsSecure(s, steps, i, orderId);
      }
    }
  }
}
