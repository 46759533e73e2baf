/** Overlapping calls of one state manager: the commands of a call, Redis' replies in the order of the commands, and the
    code that runs after each reply. */
module StateCalls {
  import opened Text
  import opened StateManager

  /** What a call does when its reply is there. */
  datatype Reply =
    | GetReply(key: string, read: Option<Json>)
    | SetReply(key: string, value: Json, oldValue: Json)
    | DeleteReply(key: string, oldValue: Json)
    | StoredReply(key: string, value: Json)
    | ClearReply
    | WatchReply(key: string, read: Option<Json>)
    | PollReply(key: string, read: Option<Json>)

  /** What `watch` and the poll do once their `get` has returned: one turn later, so that another reply can come
      first. */
  datatype Late = WatchEnd(key: string, value: Json) | PollEnd(key: string, value: Json)

  /** `clears` are the keys that each running `clear` was given by its KEYS. */
  datatype Calls = Calls(state: State, replies: seq<Reply>, late: seq<Late>, clears: seq<set<string>>)

  datatype Step =
    | Send(op: Op)
    | WatchSend(key: string)
    | PollSend(key: string)
    | ClearKeys
    | ClearDel(n: nat)
    | Unwatching(key: string)
    | Answer
    | Continue(n: nat)
    | Elsewhere(op: Op)

  function AtRest(s: State): Calls {
    Calls(s, [], [], [])
  }

  /** The operations of one command. */
  predicate IsOneCommand(op: Op) {
    op.Get? || op.Set? || op.Delete? || op.Increment? || op.CompareAndSet?
  }

  predicate Enabled(c: Calls, step: Step) {
    match step
    case Send(op) => IsOneCommand(op)
    case WatchSend(key) => key !in c.state.watched
    case PollSend(key) => key in c.state.watched
    case ClearDel(n) => n < |c.clears|
    case Answer => c.replies != []
    case Continue(n) => n < |c.late|
    case Elsewhere(op) => op.Mset? || op.Outside?
    case _ => true
  }

  // ----- commands -----

  /** What the command leaves in Redis. */
  function StoreAfter(s: State, op: Op): map<string, Json> {
    Apply(s, op).store
  }

  /** The old value that a call looks up before it sends its command. */
  function OldValueNow(s: State, key: string): Json {
    if key in s.watched then OldValue(s.cache, key) else Null
  }

  /** The reply the call then waits for; one that changes nothing is left out. */
  function ReplyOf(s: State, op: Op): seq<Reply>
    requires IsOneCommand(op)
  {
    match op
    case Get(key) => [GetReply(key, Lookup(s.store, key))]
    case Set(key, value) => [SetReply(key, value, OldValueNow(s, key))]
    case Delete(key) => [DeleteReply(key, OldValueNow(s, key))]
    case Increment(key, amount) =>
      (match Incremented(s.store, key, amount) case None => [] case Some(n) => [StoredReply(key, Number(n))])
    case CompareAndSet(key, expected, newValue) =>
      if Lookup(s.store, key) == Some(expected) then [StoredReply(key, newValue)] else []
  }

  // ----- replies -----

  /** The end of `get`. */
  function Refreshed(s: State, key: string, value: Option<Json>): State {
    match value
    case None => s
    case Some(v) => Cached(s, key, v)
  }

  function Dropped(s: State, key: string): State {
    s.(cache := if key in s.watched then s.cache - {key} else s.cache)
  }

  /** The code right after a reply. */
  function Answered(s: State, r: Reply): State {
    match r
    case GetReply(key, value) => Refreshed(s, key, value)
    case SetReply(key, value, oldValue) => Emitted(Cached(s, key, value), key, oldValue, value)
    case DeleteReply(key, oldValue) => Emitted(Dropped(s, key), key, oldValue, Null)
    case StoredReply(key, value) => Cached(s, key, value)
    case ClearReply => s.(cache := map[])
    case WatchReply(key, value) => Refreshed(s, key, value)
    case PollReply(key, value) => Refreshed(s, key, value)
  }

  function OrNull(value: Option<Json>): Json {
    match value
    case None => Null
    case Some(v) => v
  }

  function LateOf(r: Reply): seq<Late> {
    match r
    case WatchReply(key, value) => [WatchEnd(key, OrNull(value))]
    case PollReply(key, value) => [PollEnd(key, OrNull(value))]
    case _ => []
  }

  /** The rest of `watch`, and the comparison of the poll. */
  function Continued(s: State, l: Late): State {
    match l
    case WatchEnd(key, value) =>
      s.(cache := s.cache[key := value], watched := if key in s.watched then s.watched else s.watched + [key],
         polling := true)
    case PollEnd(key, value) =>
      if Differs(s.cache, key, value)
      then s.(cache := s.cache[key := value], events := s.events + [Change(key, OldValue(s.cache, key), value)])
      else s
  }

  function Next(c: Calls, step: Step): Calls
    requires Enabled(c, step)
  {
    var s := c.state;
    match step
    case Send(op) => c.(state := s.(store := StoreAfter(s, op)), replies := c.replies + ReplyOf(s, op))
    case WatchSend(key) => c.(replies := c.replies + [WatchReply(key, Lookup(s.store, key))])
    case PollSend(key) => c.(replies := c.replies + [PollReply(key, Lookup(s.store, key))])
    case ClearKeys => if s.store == map[] then c else c.(clears := c.clears + [s.store.Keys])
    case ClearDel(n) =>
      c.(state := s.(store := s.store - c.clears[n]), clears := c.clears[..n] + c.clears[n + 1..],
         replies := c.replies + [ClearReply])
    case Unwatching(key) => c.(state := Apply(s, Unwatch(key)))
    case Answer =>
      c.(state := Answered(s, c.replies[0]), replies := c.replies[1..], late := c.late + LateOf(c.replies[0]))
    case Continue(n) => c.(state := Continued(s, c.late[n]), late := c.late[..n] + c.late[n + 1..])
    case Elsewhere(op) => c.(state := Apply(s, op))
  }

  // ----- runs -----

  /** A step that is not enabled is skipped. */
  function StepOrSkip(c: Calls, step: Step): Calls {
    if Enabled(c, step) then Next(c, step) else c
  }

  function Run(c: Calls, steps: seq<Step>): Calls {
    if |steps| == 0 then c else StepOrSkip(Run(c, steps[..|steps| - 1]), steps[|steps| - 1])
  }

  lemma RunStep(c: Calls, steps: seq<Step>, step: Step)
    ensures Run(c, steps + [step]) == StepOrSkip(Run(c, steps), step)
  {
    assert (steps + [step])[..|steps|] == steps;
  }

  lemma RunOfFour(c: Calls, w: Step, x: Step, y: Step, z: Step)
    ensures Run(c, [w, x, y, z]) == StepOrSkip(StepOrSkip(StepOrSkip(StepOrSkip(c, w), x), y), z)
  {
    hide StepOrSkip;
    assert [w, x, y, z] == [w, x, y] + [z] && [w, x, y] == [w, x] + [y] && [w, x] == [w] + [x] && [w] == [] + [w];
    RunStep(c, [w, x, y], z);
    RunStep(c, [w, x], y);
    RunStep(c, [w], x);
    RunStep(c, [], w);
  }

  lemma RunOfFive(c: Calls, v: Step, w: Step, x: Step, y: Step, z: Step)
    ensures Run(c, [v, w, x, y, z]) == StepOrSkip(StepOrSkip(StepOrSkip(StepOrSkip(StepOrSkip(c, v), w), x), y), z)
  {
    hide StepOrSkip;
    assert [v, w, x, y, z] == [v, w, x, y] + [z];
    RunStep(c, [v, w, x, y], z);
    RunOfFour(c, v, w, x, y);
  }

  // ----- whole operations -----

  /** A call of one command without interruption is the operation as a whole. */
  lemma OneCommandIsWhole(s: State, op: Op)
    requires IsOneCommand(op)
    ensures var sent := Next(AtRest(s), Send(op));
            if sent.replies == [] then sent == AtRest(Apply(s, op)) else Next(sent, Answer) == AtRest(Apply(s, op))
  {
    var sent := Next(AtRest(s), Send(op));
    if sent.replies != [] {
      assert sent.replies[1..] == [] && sent.late + LateOf(sent.replies[0]) == [];
    }
  }

  lemma WatchIsWhole(s: State, key: string)
    requires key !in s.watched
    ensures Next(Next(Next(AtRest(s), WatchSend(key)), Answer), Continue(0)) == AtRest(Apply(s, Watch(key)))
  {
    var sent := Next(AtRest(s), WatchSend(key));
    assert sent.replies == [WatchReply(key, Lookup(s.store, key))] && sent.replies[1..] == [];
    var answered := Next(sent, Answer);
    assert answered.late == [WatchEnd(key, Read(s.store, key))];
    assert answered.late[..0] + answered.late[1..] == [];
  }

  lemma ClearIsWhole(s: State)
    requires s.store != map[]
    ensures Next(Next(Next(AtRest(s), ClearKeys), ClearDel(0)), Answer) == AtRest(Apply(s, Clear))
  {
    var deleted := Next(Next(AtRest(s), ClearKeys), ClearDel(0));
    assert deleted.clears == [] && deleted.state.store == map[];
    assert deleted.replies == [ClearReply] && deleted.replies[1..] == [];
    assert deleted.late + LateOf(ClearReply) == [];
  }

  // ----- what the calls under way lead to -----

  /** The waiting turns taken in their order. */
  function AllContinued(s: State, late: seq<Late>): State {
    if |late| == 0 then s else Continued(AllContinued(s, late[..|late| - 1]), late[|late| - 1])
  }

  /** The code after a reply with what follows it one turn later. */
  function Handled(s: State, r: Reply): State {
    AllContinued(Answered(s, r), LateOf(r))
  }

  /** All replies handled in their order. */
  function AllHandled(s: State, replies: seq<Reply>): State {
    if |replies| == 0 then s else Handled(AllHandled(s, replies[..|replies| - 1]), replies[|replies| - 1])
  }

  /** What the calls under way will leave, when nothing else is sent and no reply comes between two turns. */
  function Outcome(c: Calls): State {
    AllHandled(AllContinued(c.state, c.late), c.replies)
  }

  // ----- one key -----

  /** Whether a key is watched, and what is cached for it. */
  datatype KeyView = KeyView(watched: bool, cached: Option<Json>)

  function ViewOf(s: State, key: string): KeyView {
    KeyView(key in s.watched, Lookup(s.cache, key))
  }

  function CachedView(v: KeyView, value: Option<Json>): KeyView {
    if v.watched then v.(cached := value) else v
  }

  /** What a reply does to the cache of a watched key; `None` if it leaves it alone. */
  function Effect(r: Reply, key: string): Option<Option<Json>> {
    match r
    case ClearReply => Some(None)
    case DeleteReply(k, _) => if k == key then Some(None) else None
    case SetReply(k, value, _) => if k == key then Some(Some(value)) else None
    case StoredReply(k, value) => if k == key then Some(Some(value)) else None
    case GetReply(k, value) => if k == key && value.Some? then Some(value) else None
    case WatchReply(k, value) => if k == key && value.Some? then Some(value) else None
    case PollReply(k, value) => if k == key && value.Some? then Some(value) else None
  }

  function AnsweredView(v: KeyView, r: Reply, key: string): KeyView {
    match Effect(r, key)
    case None => v
    case Some(value) => if r.ClearReply? then v.(cached := None) else CachedView(v, value)
  }

  function ContinuedView(v: KeyView, l: Late, key: string): KeyView {
    if l.key == key then KeyView(v.watched || l.WatchEnd?, Some(l.value)) else v
  }

  /** The value of the last turn for a key that waits. */
  function LastLate(late: seq<Late>, key: string): Option<Json> {
    if |late| == 0 then None
    else if late[|late| - 1].key == key then Some(late[|late| - 1].value)
    else LastLate(late[..|late| - 1], key)
  }

  /** A turn waits that will watch the key. */
  predicate WillWatch(late: seq<Late>, key: string) {
    |late| > 0
    && ((late[|late| - 1].key == key && late[|late| - 1].WatchEnd?) || WillWatch(late[..|late| - 1], key))
  }

  function LatesView(v: KeyView, late: seq<Late>, key: string): KeyView {
    KeyView(v.watched || WillWatch(late, key), if LastLate(late, key).Some? then LastLate(late, key) else v.cached)
  }

  function HandledView(v: KeyView, r: Reply, key: string): KeyView {
    LatesView(AnsweredView(v, r, key), LateOf(r), key)
  }

  function RepliesView(v: KeyView, replies: seq<Reply>, key: string): KeyView {
    if |replies| == 0 then v
    else HandledView(RepliesView(v, replies[..|replies| - 1], key), replies[|replies| - 1], key)
  }

  function OutcomeView(c: Calls, key: string): KeyView {
    RepliesView(LatesView(ViewOf(c.state, key), c.late, key), c.replies, key)
  }

  lemma AnsweredViewOf(s: State, r: Reply, key: string)
    ensures ViewOf(Answered(s, r), key) == AnsweredView(ViewOf(s, key), r, key)
    ensures Answered(s, r).store == s.store
  {
  }

  lemma ContinuedViewOf(s: State, l: Late, key: string)
    ensures ViewOf(Continued(s, l), key) == ContinuedView(ViewOf(s, key), l, key)
    ensures Continued(s, l).store == s.store
  {
  }

  lemma {:induction false} LatesViewOf(s: State, late: seq<Late>, key: string)
    ensures ViewOf(AllContinued(s, late), key) == LatesView(ViewOf(s, key), late, key)
    ensures AllContinued(s, late).store == s.store
  {
    if |late| > 0 {
      var p, l := late[..|late| - 1], late[|late| - 1];
      LatesViewOf(s, p, key);
      ContinuedViewOf(AllContinued(s, p), l, key);
      hide Continued, ViewOf;
    }
  }

  lemma HandledViewOf(s: State, r: Reply, key: string)
    ensures ViewOf(Handled(s, r), key) == HandledView(ViewOf(s, key), r, key)
    ensures Handled(s, r).store == s.store
  {
    AnsweredViewOf(s, r, key);
    LatesViewOf(Answered(s, r), LateOf(r), key);
    hide Answered, AllContinued, ViewOf, AnsweredView, LatesView, LateOf;
  }

  lemma {:induction false} RepliesViewOf(s: State, replies: seq<Reply>, key: string)
    ensures ViewOf(AllHandled(s, replies), key) == RepliesView(ViewOf(s, key), replies, key)
    ensures AllHandled(s, replies).store == s.store
  {
    hide Handled, ViewOf, HandledView;
    if |replies| > 0 {
      RepliesViewOf(s, replies[..|replies| - 1], key);
      HandledViewOf(AllHandled(s, replies[..|replies| - 1]), replies[|replies| - 1], key);
    }
  }

  lemma OutcomeViewOf(c: Calls, key: string)
    ensures ViewOf(Outcome(c), key) == OutcomeView(c, key) && Outcome(c).store == c.state.store
  {
    LatesViewOf(c.state, c.late, key);
    RepliesViewOf(AllContinued(c.state, c.late), c.replies, key);
  }

  /** The key will agree with Redis when the calls under way have ended. */
  predicate CoherentAt(c: Calls, key: string) {
    OutcomeView(c, key).watched ==> OrNull(OutcomeView(c, key).cached) == Read(c.state.store, key)
  }

  lemma CoherentIff(c: Calls)
    ensures Coherent(Outcome(c)) <==> forall key :: CoherentAt(c, key)
  {
    forall key ensures CoherentAt(c, key)
        <==> (key in Outcome(c).watched ==> Read(Outcome(c).cache, key) == Read(Outcome(c).store, key)) {
      OutcomeViewOf(c, key);
      hide Outcome, OutcomeView;
    }
    hide Outcome, CoherentAt;
  }

  // ----- when later replies decide -----

  /** After this reply the cache of a watched key does not depend on what it was before. */
  predicate Settles(r: Reply, key: string) {
    || Effect(r, key).Some?
    || ((r.WatchReply? || r.PollReply?) && r.key == key)
  }

  predicate SomeSettles(replies: seq<Reply>, key: string) {
    |replies| > 0 && (Settles(replies[|replies| - 1], key) || SomeSettles(replies[..|replies| - 1], key))
  }

  lemma LateView(r: Reply, key: string, v: KeyView)
    ensures LatesView(v, LateOf(r), key)
            == if (r.WatchReply? || r.PollReply?) && r.key == key
               then KeyView(v.watched || r.WatchReply?, Some(OrNull(r.read))) else v
  {
    var late := LateOf(r);
    if late != [] {
      assert |late| == 1 && late[..|late| - 1] == [];
      assert LastLate([], key) == None && !WillWatch([], key);
    }
  }

  /** Two views of a watched key: settled, they become the same; otherwise each stays as it is. */
  lemma {:induction false} SettledView(v: KeyView, w: KeyView, replies: seq<Reply>, key: string)
    requires v.watched && w.watched
    ensures RepliesView(v, replies, key).watched && RepliesView(w, replies, key).watched
    ensures SomeSettles(replies, key) ==> RepliesView(v, replies, key) == RepliesView(w, replies, key)
    ensures !SomeSettles(replies, key) ==>
              RepliesView(v, replies, key).cached == v.cached && RepliesView(w, replies, key).cached == w.cached
  {
    if |replies| > 0 {
      var p, r := replies[..|replies| - 1], replies[|replies| - 1];
      SettledView(v, w, p, key);
      var x, y := RepliesView(v, p, key), RepliesView(w, p, key);
      LateView(r, key, AnsweredView(x, r, key));
      LateView(r, key, AnsweredView(y, r, key));
      hide LatesView, LateOf;
    }
  }

  /** What is cached for a key matters only while it is watched. */
  predicate AlikeIfWatched(v: KeyView, w: KeyView) {
    v.watched == w.watched && (v.watched ==> v.cached == w.cached)
  }

  /** `w` is not watched, or the same as `v`. */
  predicate NoMoreThan(v: KeyView, w: KeyView) {
    w.watched ==> v == w
  }

  lemma {:induction false} RepliesKeepRelations(v: KeyView, w: KeyView, replies: seq<Reply>, key: string)
    ensures AlikeIfWatched(v, w) ==> AlikeIfWatched(RepliesView(v, replies, key), RepliesView(w, replies, key))
    ensures NoMoreThan(v, w) ==> NoMoreThan(RepliesView(v, replies, key), RepliesView(w, replies, key))
  {
    if |replies| > 0 {
      var p, r := replies[..|replies| - 1], replies[|replies| - 1];
      RepliesKeepRelations(v, w, p, key);
      LateView(r, key, AnsweredView(RepliesView(v, p, key), r, key));
      LateView(r, key, AnsweredView(RepliesView(w, p, key), r, key));
      hide LatesView, LateOf;
    }
  }

  // ----- which steps do no harm -----

  predicate WatchAnswered(replies: seq<Reply>, key: string) {
    |replies| > 0
    && ((replies[|replies| - 1].WatchReply? && replies[|replies| - 1].key == key)
        || WatchAnswered(replies[..|replies| - 1], key))
  }

  /** Whether the key will be watched when the calls under way have ended. */
  predicate WillBeWatched(c: Calls, key: string) {
    key in c.state.watched || WillWatch(c.late, key) || WatchAnswered(c.replies, key)
  }

  lemma {:induction false} WatchedView(v: KeyView, replies: seq<Reply>, key: string)
    ensures RepliesView(v, replies, key).watched <==> v.watched || WatchAnswered(replies, key)
  {
    if |replies| > 0 {
      var p, r := replies[..|replies| - 1], replies[|replies| - 1];
      WatchedView(v, p, key);
      LateView(r, key, AnsweredView(RepliesView(v, p, key), r, key));
      hide LatesView, LateOf;
    }
  }

  /** The waiting turns without one of them. */
  function Removed<T>(s: seq<T>, n: nat): seq<T>
    requires n < |s|
  {
    s[..n] + s[n + 1..]
  }

  /** A step that leaves the key right: a reply before a waiting turn of the key must write the value that the turn
      has, unless a later reply decides; the same for a turn taken before an earlier one; a DEL must leave no value;
      and a write that does not belong to a call of this manager must not change what the key reads as. */
  predicate HarmlessAt(c: Calls, step: Step, key: string)
    requires Enabled(c, step)
  {
    match step
    case Answer =>
      var value, effect := LastLate(c.late, key), Effect(c.replies[0], key);
      value.Some? && effect.Some? && !c.replies[0].PollReply? && !c.replies[0].WatchReply?
      && (key in c.state.watched || WillWatch(c.late, key)) && OrNull(effect.value) != value.value
      ==> SomeSettles(c.replies[1..], key)
    case Continue(n) =>
      var last, other := LastLate(c.late, key), LastLate(Removed(c.late, n), key);
      c.late[n].key == key && other.Some? && (key in c.state.watched || WillWatch(c.late, key)) && other != last
      ==> SomeSettles(c.replies, key)
    case ClearDel(n) => WillBeWatched(c, key) && key !in c.clears[n] ==> Read(c.state.store, key) == Null
    case Elsewhere(op) => WillBeWatched(c, key) ==> Read(Apply(c.state, op).store, key) == Read(c.state.store, key)
    case _ => true
  }

  /** It leaves every key right. */
  ghost predicate Harmless(c: Calls, step: Step)
    requires Enabled(c, step)
  {
    forall key :: HarmlessAt(c, step, key)
  }

  lemma LateAppend(v: KeyView, late: seq<Late>, more: seq<Late>, key: string)
    requires |more| <= 1
    ensures LatesView(v, late + more, key) == LatesView(LatesView(v, late, key), more, key)
  {
    if |more| == 1 {
      assert (late + more)[..|late|] == late && more[..|more| - 1] == [];
      assert LastLate([], key) == None && !WillWatch([], key);
    } else {
      assert late + more == late;
    }
  }

  lemma {:induction false} FirstReplyView(v: KeyView, replies: seq<Reply>, key: string)
    requires |replies| > 0
    ensures RepliesView(v, replies, key) == RepliesView(HandledView(v, replies[0], key), replies[1..], key)
  {
    hide HandledView;
    var p := replies[..|replies| - 1];
    if |p| > 0 {
      FirstReplyView(v, p, key);
      assert replies[1..][..|replies| - 2] == p[1..];
    } else {
      assert replies[1..] == [] && RepliesView(v, p, key) == v;
    }
  }

  /** The reply before the waiting turns, as promised, and after them. */
  function AnsweredLast(v: KeyView, late: seq<Late>, r: Reply, key: string): KeyView {
    HandledView(LatesView(v, late, key), r, key)
  }

  function AnsweredFirst(v: KeyView, late: seq<Late>, r: Reply, key: string): KeyView {
    LatesView(LatesView(AnsweredView(v, r, key), late, key), LateOf(r), key)
  }

  lemma AnswerViews(c: Calls, key: string)
    requires Enabled(c, Answer)
    ensures var v, r, rest := ViewOf(c.state, key), c.replies[0], c.replies[1..];
            && OutcomeView(c, key) == RepliesView(AnsweredLast(v, c.late, r, key), rest, key)
            && OutcomeView(Next(c, Answer), key) == RepliesView(AnsweredFirst(v, c.late, r, key), rest, key)
            && Next(c, Answer).state.store == c.state.store
  {
    hide LatesView, RepliesView, Answered, AnsweredView, ViewOf;
    AnsweredViewOf(c.state, c.replies[0], key);
    FirstReplyView(LatesView(ViewOf(c.state, key), c.late, key), c.replies, key);
    LateAppend(AnsweredView(ViewOf(c.state, key), c.replies[0], key), c.late, LateOf(c.replies[0]), key);
  }

  /** The turns of the key decide over a reply that only writes it; otherwise the order does not matter. */
  lemma TwoOrders(v: KeyView, late: seq<Late>, r: Reply, key: string)
    ensures var a, b := AnsweredLast(v, late, r, key), AnsweredFirst(v, late, r, key);
            var value, effect := LastLate(late, key), Effect(r, key);
            && (a.watched <==> v.watched || WillWatch(late, key) || (r.WatchReply? && r.key == key))
            && (if value.Some? && effect.Some? && !r.PollReply? && !r.WatchReply? && a.watched
                then b.watched && OrNull(a.cached) == OrNull(effect.value) && b.cached == value
                else AlikeIfWatched(a, b))
  {
    if WillWatch(late, key) { WatchingValue(late, key); }
    LateView(r, key, AnsweredView(LatesView(v, late, key), r, key));
    LateView(r, key, LatesView(AnsweredView(v, r, key), late, key));
    hide LateOf, LastLate, WillWatch;
  }

  lemma AnswerAt(c: Calls, key: string)
    requires Enabled(c, Answer) && CoherentAt(c, key)
    ensures CoherentAt(Next(c, Answer), key) <==> HarmlessAt(c, Answer, key)
  {
    hide RepliesView, Next, SomeSettles, AnsweredLast, AnsweredFirst, OutcomeView, Effect, LastLate, WillWatch;
    var v, r, rest := ViewOf(c.state, key), c.replies[0], c.replies[1..];
    AnswerViews(c, key);
    TwoOrders(v, c.late, r, key);
    var a, b := AnsweredLast(v, c.late, r, key), AnsweredFirst(v, c.late, r, key);
    RepliesKeepRelations(a, b, rest, key);
    if a.watched && b.watched { SettledView(a, b, rest, key); }
  }

  lemma {:induction false} RemovedLates(late: seq<Late>, n: nat, key: string)
    requires n < |late|
    ensures WillWatch(late, key) <==> WillWatch(Removed(late, n), key) || (late[n].WatchEnd? && late[n].key == key)
    ensures late[n].key != key ==> LastLate(Removed(late, n), key) == LastLate(late, key)
    ensures late[n].key == key && LastLate(Removed(late, n), key) == None ==> LastLate(late, key) == Some(late[n].value)
    ensures late[n].key == key ==> LastLate(late, key).Some?
  {
    var p := late[..|late| - 1];
    if n < |p| {
      RemovedLates(p, n, key);
      assert Removed(late, n)[..|late| - 2] == Removed(p, n);
    } else {
      assert Removed(late, n) == p;
    }
  }

  lemma ContinueAt(c: Calls, n: nat, key: string)
    requires Enabled(c, Continue(n)) && CoherentAt(c, key)
    ensures CoherentAt(Next(c, Continue(n)), key) <==> HarmlessAt(c, Continue(n), key)
  {
    var t, v := Next(c, Continue(n)), ViewOf(c.state, key);
    ContinuedViewOf(c.state, c.late[n], key);
    RemovedLates(c.late, n, key);
    var a := LatesView(v, c.late, key);
    var b := LatesView(ContinuedView(v, c.late[n], key), Removed(c.late, n), key);
    assert OutcomeView(c, key) == RepliesView(a, c.replies, key)
        && OutcomeView(t, key) == RepliesView(b, c.replies, key);
    RepliesKeepRelations(a, b, c.replies, key);
    if a.watched && b.watched { SettledView(a, b, c.replies, key); }
    hide RepliesView, Continued, ViewOf, SomeSettles, LastLate, WillWatch;
  }

  /** A new command with its reply at the end of the queue. */
  lemma AppendedView(c: Calls, store: map<string, Json>, r: Reply, key: string)
    ensures OutcomeView(c.(state := c.state.(store := store), replies := c.replies + [r]), key)
            == HandledView(OutcomeView(c, key), r, key)
  {
    hide HandledView;
    assert (c.replies + [r])[..|c.replies|] == c.replies;
  }

  /** What a command did to Redis, by the reply it gets. */
  ghost predicate Left(store: map<string, Json>, r: Reply, after: map<string, Json>) {
    match r
    case GetReply(key, value) => after == store && value == Lookup(store, key)
    case SetReply(key, value, _) => after == store[key := value]
    case DeleteReply(key, _) => after == store - {key}
    case StoredReply(key, value) => after == store[key := value]
    case ClearReply => true
    case WatchReply(key, value) => after == store && value == Lookup(store, key)
    case PollReply(key, value) => after == store && value == Lookup(store, key)
  }

  lemma SentLeft(s: State, op: Op)
    requires IsOneCommand(op)
    ensures if ReplyOf(s, op) == [] then StoreAfter(s, op) == s.store
            else |ReplyOf(s, op)| == 1 && Left(s.store, ReplyOf(s, op)[0], StoreAfter(s, op))
                 && !ReplyOf(s, op)[0].ClearReply?
  {
  }

  /** Handling the reply of a command makes its key agree with what the command left behind, and keeps the others. */
  lemma HandledAgrees(v: KeyView, r: Reply, store: map<string, Json>, after: map<string, Json>, key: string)
    requires v.watched ==> OrNull(v.cached) == Read(store, key)
    requires Left(store, r, after) && !r.ClearReply?
    ensures var w := HandledView(v, r, key); w.watched ==> OrNull(w.cached) == Read(after, key)
  {
    LateView(r, key, AnsweredView(v, r, key));
    hide LatesView, LateOf;
  }

  lemma SendAt(c: Calls, op: Op, key: string)
    requires Enabled(c, Send(op)) && CoherentAt(c, key)
    ensures CoherentAt(Next(c, Send(op)), key)
  {
    var s, store, reply := c.state, StoreAfter(c.state, op), ReplyOf(c.state, op);
    SentLeft(s, op);
    hide ReplyOf, StoreAfter, HandledView, Left;
    if reply == [] {
      assert c.replies + [] == c.replies;
      assert Next(c, Send(op)) == c;
    } else {
      assert reply == [reply[0]];
      AppendedView(c, store, reply[0], key);
      hide OutcomeView;
      HandledAgrees(OutcomeView(c, key), reply[0], s.store, store, key);
    }
  }

  lemma ReadSendAt(c: Calls, step: Step, key: string)
    requires Enabled(c, step) && CoherentAt(c, key) && (step.WatchSend? || step.PollSend?)
    ensures CoherentAt(Next(c, step), key)
  {
    var s := c.state;
    var r := if step.WatchSend? then WatchReply(step.key, Lookup(s.store, step.key))
             else PollReply(step.key, Lookup(s.store, step.key));
    AppendedView(c, s.store, r, key);
    HandledAgrees(OutcomeView(c, key), r, s.store, s.store, key);
    hide OutcomeView, HandledView, Lookup;
  }

  lemma ClearDelAt(c: Calls, n: nat, key: string)
    requires Enabled(c, ClearDel(n))
    ensures CoherentAt(Next(c, ClearDel(n)), key) <==> HarmlessAt(c, ClearDel(n), key)
  {
    var t := Next(c, ClearDel(n));
    AppendedView(c, t.state.store, ClearReply, key);
    assert OutcomeView(t, key) == HandledView(OutcomeView(c, key), ClearReply, key);
    LateView(ClearReply, key, AnsweredView(OutcomeView(c, key), ClearReply, key));
    WatchedView(LatesView(ViewOf(c.state, key), c.late, key), c.replies, key);
    assert Read(t.state.store, key) == if key in c.clears[n] then Null else Read(c.state.store, key);
    hide HandledView, LateOf;
  }

  lemma UnwatchAt(c: Calls, k: string, key: string)
    requires CoherentAt(c, key)
    ensures CoherentAt(Next(c, Unwatching(k)), key)
  {
    WithoutMembers(c.state.watched, k);
    var a, b := ViewOf(c.state, key), ViewOf(Apply(c.state, Unwatch(k)), key);
    assert b == if k == key then KeyView(false, None) else a;
    RepliesKeepRelations(LatesView(a, c.late, key), LatesView(b, c.late, key), c.replies, key);
    if LatesView(b, c.late, key).watched && k == key { WatchingValue(c.late, key); }
    hide RepliesView, ViewOf;
  }

  lemma {:induction false} WatchingValue(late: seq<Late>, key: string)
    requires WillWatch(late, key)
    ensures LastLate(late, key).Some?
  {
    if late[|late| - 1].key != key { WatchingValue(late[..|late| - 1], key); }
  }

  lemma ElsewhereAt(c: Calls, op: Op, key: string)
    requires Enabled(c, Elsewhere(op)) && CoherentAt(c, key)
    ensures CoherentAt(Next(c, Elsewhere(op)), key) <==> HarmlessAt(c, Elsewhere(op), key)
  {
    WatchedView(LatesView(ViewOf(c.state, key), c.late, key), c.replies, key);
    var t := Next(c, Elsewhere(op));
    assert ViewOf(t.state, key) == ViewOf(c.state, key);
    assert OutcomeView(t, key) == OutcomeView(c, key);
  }

  lemma StepAt(c: Calls, step: Step, key: string)
    requires Enabled(c, step) && CoherentAt(c, key)
    ensures CoherentAt(Next(c, step), key) <==> HarmlessAt(c, step, key)
  {
    match step {
      case Send(op) => SendAt(c, op, key);
      case WatchSend(_) => ReadSendAt(c, step, key);
      case PollSend(_) => ReadSendAt(c, step, key);
      case ClearKeys =>
      case ClearDel(n) => ClearDelAt(c, n, key);
      case Unwatching(k) => UnwatchAt(c, k, key);
      case Answer => AnswerAt(c, key);
      case Continue(n) => ContinueAt(c, n, key);
      case Elsewhere(op) => ElsewhereAt(c, op, key);
    }
    hide CoherentAt, HarmlessAt;
  }

  /** One step, with any calls under way: what they will leave stays coherent exactly when the step is harmless. */
  lemma StepCoherentIff(c: Calls, step: Step)
    requires Enabled(c, step) && Coherent(Outcome(c))
    ensures Coherent(Outcome(Next(c, step))) <==> Harmless(c, step)
  {
    hide Next, Outcome, Coherent, CoherentAt, HarmlessAt;
    CoherentIff(c);
    CoherentIff(Next(c, step));
    forall key ensures CoherentAt(Next(c, step), key) <==> HarmlessAt(c, step, key) {
      assert CoherentAt(c, key);
      StepAt(c, step, key);
    }
  }

  lemma OutcomeAtRest(c: Calls)
    ensures c.replies == [] && c.late == [] ==> Outcome(c) == c.state
  {
  }

  ghost predicate CoherentThroughout(s: State, steps: seq<Step>) {
    && Coherent(Outcome(Run(AtRest(s), steps)))
    && (|steps| > 0 ==> CoherentThroughout(s, steps[..|steps| - 1]))
  }

  ghost predicate AllHarmless(s: State, steps: seq<Step>) {
    |steps| > 0 ==>
      && AllHarmless(s, steps[..|steps| - 1])
      && var before := Run(AtRest(s), steps[..|steps| - 1]);
         Enabled(before, steps[|steps| - 1]) ==> Harmless(before, steps[|steps| - 1])
  }

  /** Over every run of overlapping calls, unwatchings and writes from elsewhere: the outcome is coherent all along
      exactly when every step was harmless. */
  lemma {:induction false} OverlappingCallsCoherentIff(s: State, steps: seq<Step>)
    requires Coherent(s)
    ensures CoherentThroughout(s, steps) <==> AllHarmless(s, steps)
  {
    hide Coherent, Outcome, Harmless, Next;
    if |steps| == 0 {
      OutcomeAtRest(AtRest(s));
    } else {
      var p, step := steps[..|steps| - 1], steps[|steps| - 1];
      OverlappingCallsCoherentIff(s, p);
      var before := Run(AtRest(s), p);
      if Enabled(before, step) && CoherentThroughout(s, p) {
        StepCoherentIff(before, step);
      }
    }
  }

  /** So after harmless steps the cache agrees with Redis whenever no call is under way. */
  lemma OverlappingCallsStayCoherent(s: State, steps: seq<Step>)
    requires Coherent(s) && AllHarmless(s, steps)
    ensures var c := Run(AtRest(s), steps); c.replies == [] && c.late == [] ==> Coherent(c.state)
  {
    OverlappingCallsCoherentIff(s, steps);
    var c := Run(AtRest(s), steps);
    assert Coherent(Outcome(c));
  }

  /** The last part of a watch or a poll, with nothing else under way, leaves the cache right exactly when the key still
      has the value that was read. */
  lemma ContinueCoherentIff(s: State, l: Late)
    requires Coherent(s) && (l.PollEnd? ==> l.key in s.watched)
    ensures Coherent(Continued(s, l)) <==> l.value == Read(s.store, l.key)
  {
    var t := Continued(s, l);
    assert l.key in t.watched && Read(t.cache, l.key) == l.value;
  }

  /** The DEL of a `clear` with its reply leaves the cache right exactly when it leaves no value under a watched key:
      none was written there since the KEYS. */
  lemma ClearCoherentIff(s: State, keys: set<string>)
    ensures var c := Calls(s, [], [], [keys]);
            Coherent(Next(Next(c, ClearDel(0)), Answer).state)
            <==> forall key :: key in s.watched && key !in keys ==> Read(s.store, key) == Null
  {
    var t := Next(Next(Calls(s, [], [], [keys]), ClearDel(0)), Answer).state;
    assert t.cache == map[] && t.store == s.store - keys && t.watched == s.watched;
    forall key | key in s.watched ensures Read(t.store, key) == if key in keys then Null else Read(s.store, key) {
    }
  }

  // ----- a whole poll -----

  /** The sends of a poll, all in one turn. */
  function PollSteps(s: State, n: nat): seq<Step>
    requires n <= |s.watched|
  {
    if n == 0 then [] else PollSteps(s, n - 1) + [PollSend(s.watched[n - 1])]
  }

  function PollReplies(s: State, n: nat): seq<Reply>
    requires n <= |s.watched|
  {
    if n == 0 then [] else PollReplies(s, n - 1) + [PollReply(s.watched[n - 1], Lookup(s.store, s.watched[n - 1]))]
  }

  lemma {:induction false} PollIsSent(s: State, n: nat)
    requires n <= |s.watched|
    ensures Run(AtRest(s), PollSteps(s, n)) == Calls(s, PollReplies(s, n), [], [])
    decreases n
  {
    if n > 0 {
      PollIsSent(s, n - 1);
      RunStep(AtRest(s), PollSteps(s, n - 1), PollSend(s.watched[n - 1]));
      assert s.watched[n - 1] in s.watched;
    }
  }

  lemma HandledPollReply(s: State, t: State, key: string)
    requires t.store == s.store && key in t.watched
    ensures Handled(t, PollReply(key, Lookup(s.store, key))) == PollKey(t, key)
  {
    var r := PollReply(key, Lookup(s.store, key));
    assert LateOf(r) == [PollEnd(key, Read(s.store, key))] && LateOf(r)[..0] == [];
    assert AllContinued(Answered(t, r), []) == Answered(t, r);
  }

  lemma NoneHandled(s: State)
    ensures AllHandled(s, []) == s
  {
  }

  lemma HandledAppend(s: State, replies: seq<Reply>, r: Reply)
    ensures AllHandled(s, replies + [r]) == Handled(AllHandled(s, replies), r)
  {
    assert (replies + [r])[..|replies|] == replies;
  }

  /** Handled one after the other, the replies are the poll as a whole. */
  lemma {:induction false} PollOutcome(s: State, n: nat)
    requires n <= |s.watched|
    ensures AllHandled(s, PollReplies(s, n)) == PollFirst(s, n)
    decreases n
  {
    hide Handled, PollKey, Lookup, AllHandled;
    NoneHandled(s);
    if n > 0 {
      PollOutcome(s, n - 1);
      HandledAppend(s, PollReplies(s, n - 1), PollReply(s.watched[n - 1], Lookup(s.store, s.watched[n - 1])));
      assert s.watched[n - 1] in s.watched;
      HandledPollReply(s, PollFirst(s, n - 1), s.watched[n - 1]);
    }
  }

  /** The same up to the order of the events. */
  ghost predicate Similar(a: State, b: State) {
    a.(events := []) == b.(events := []) && multiset(a.events) == multiset(b.events)
  }

  lemma ContinuedSimilar(a: State, b: State, l: Late)
    requires Similar(a, b)
    ensures Similar(Continued(a, l), Continued(b, l))
  {
  }

  lemma AnsweredSimilar(a: State, b: State, r: Reply)
    requires Similar(a, b)
    ensures Similar(Answered(a, r), Answered(b, r))
  {
  }

  lemma {:induction false} AllContinuedSimilar(a: State, b: State, late: seq<Late>)
    requires Similar(a, b)
    ensures Similar(AllContinued(a, late), AllContinued(b, late))
  {
    hide Similar, Continued;
    if |late| > 0 {
      var p, l := late[..|late| - 1], late[|late| - 1];
      AllContinuedSimilar(a, b, p);
      ContinuedSimilar(AllContinued(a, p), AllContinued(b, p), l);
    }
  }

  lemma {:induction false} AllHandledSimilar(a: State, b: State, replies: seq<Reply>)
    requires Similar(a, b)
    ensures Similar(AllHandled(a, replies), AllHandled(b, replies))
  {
    hide Similar, Answered, AllContinued;
    if |replies| > 0 {
      var p, r := replies[..|replies| - 1], replies[|replies| - 1];
      AllHandledSimilar(a, b, p);
      AnsweredSimilar(AllHandled(a, p), AllHandled(b, p), r);
      AllContinuedSimilar(Answered(AllHandled(a, p), r), Answered(AllHandled(b, p), r), LateOf(r));
    }
  }

  /** What the comparison of a poll announces. */
  function TurnEvents(cache: map<string, Json>, key: string, value: Json): seq<Change> {
    if Differs(cache, key, value) then [Change(key, OldValue(cache, key), value)] else []
  }

  lemma TurnEffect(s: State, l: Late)
    requires l.PollEnd?
    ensures Continued(s, l)
            == s.(cache := s.cache[l.key := l.value], events := s.events + TurnEvents(s.cache, l.key, l.value))
  {
    if !Differs(s.cache, l.key, l.value) {
      assert s.cache[l.key := l.value] == s.cache && s.events + [] == s.events;
    }
  }

  lemma OtherTurn(cache: map<string, Json>, key: string, value: Json, other: string, otherValue: Json)
    requires key != other
    ensures TurnEvents(cache[other := otherValue], key, value) == TurnEvents(cache, key, value)
  {
  }

  lemma SwappedEvents(events: seq<Change>, a: seq<Change>, b: seq<Change>)
    ensures multiset(events + a + b) == multiset(events + b + a)
  {
  }

  lemma TwoTurns(s: State, l: Late, m: Late)
    requires l.PollEnd? && m.PollEnd? && l.key != m.key
    ensures Continued(Continued(s, l), m)
            == s.(cache := s.cache[l.key := l.value][m.key := m.value],
                  events := s.events + TurnEvents(s.cache, l.key, l.value) + TurnEvents(s.cache, m.key, m.value))
  {
    TurnEffect(s, l);
    TurnEffect(Continued(s, l), m);
    OtherTurn(s.cache, m.key, m.value, l.key, l.value);
    hide Continued, TurnEvents;
  }

  lemma SwapTurns(s: State, l: Late, m: Late)
    requires l.PollEnd? && m.PollEnd? && l.key != m.key
    ensures Similar(Continued(Continued(s, l), m), Continued(Continued(s, m), l))
  {
    hide Continued, TurnEvents;
    TwoTurns(s, l, m);
    TwoTurns(s, m, l);
    SwappedEvents(s.events, TurnEvents(s.cache, l.key, l.value), TurnEvents(s.cache, m.key, m.value));
    assert s.cache[l.key := l.value][m.key := m.value] == s.cache[m.key := m.value][l.key := l.value];
  }

  /** The keys of the waiting turns and of the replies to come are distinct, and all belong to a poll. */
  ghost predicate OnlyPolls(late: seq<Late>, replies: seq<Reply>) {
    && (forall i :: 0 <= i < |late| ==> late[i].PollEnd?)
    && (forall i :: 0 <= i < |replies| ==> replies[i].PollReply?)
    && (forall i, j :: 0 <= i < j < |late| ==> late[i].key != late[j].key)
    && (forall i, j :: 0 <= i < |late| && 0 <= j < |replies| ==> late[i].key != replies[j].key)
    && (forall i, j :: 0 <= i < j < |replies| ==> replies[i].key != replies[j].key)
  }

  /** A turn may be taken before the turns of other keys. */
  lemma {:induction false} TurnFirst(s: State, late: seq<Late>, l: Late)
    requires l.PollEnd? && forall i :: 0 <= i < |late| ==> late[i].PollEnd? && late[i].key != l.key
    ensures Similar(AllContinued(Continued(s, l), late), Continued(AllContinued(s, late), l))
  {
    if |late| > 0 {
      var p, m := late[..|late| - 1], late[|late| - 1];
      TurnFirst(s, p, l);
      ContinuedSimilar(AllContinued(Continued(s, l), p), Continued(AllContinued(s, p), l), m);
      SwapTurns(AllContinued(s, p), l, m);
      hide Continued;
    }
  }

  lemma {:induction false} AnyTurnFirst(s: State, late: seq<Late>, n: nat)
    requires n < |late| && OnlyPolls(late, [])
    ensures Similar(AllContinued(Continued(s, late[n]), Removed(late, n)), AllContinued(s, late))
  {
    hide Continued, Similar;
    var p, m := late[..|late| - 1], late[|late| - 1];
    if n < |p| {
      AnyTurnFirst(s, p, n);
      var r := Removed(late, n);
      assert r[..|r| - 1] == Removed(p, n) && r[|r| - 1] == m;
      ContinuedSimilar(AllContinued(Continued(s, p[n]), Removed(p, n)), AllContinued(s, p), m);
    } else {
      assert Removed(late, n) == p;
      TurnFirst(s, p, m);
    }
  }

  /** A reply of the poll may come before the waiting turns of other keys. */
  lemma {:induction false} ReplyFirst(s: State, late: seq<Late>, r: Reply)
    requires r.PollReply? && forall i :: 0 <= i < |late| ==> late[i].PollEnd? && late[i].key != r.key
    ensures AllContinued(Answered(s, r), late) == Answered(AllContinued(s, late), r)
  {
    if |late| > 0 {
      var p, l := late[..|late| - 1], late[|late| - 1];
      ReplyFirst(s, p, r);
      ReplyBeforeTurn(AllContinued(s, p), l, r);
      hide Continued, Answered;
    }
  }

  lemma ReplyBeforeTurn(s: State, l: Late, r: Reply)
    requires r.PollReply? && l.PollEnd? && l.key != r.key
    ensures Continued(Answered(s, r), l) == Answered(Continued(s, l), r)
  {
    if r.read.Some? {
      assert s.cache[l.key := l.value][r.key := r.read.value] == s.cache[r.key := r.read.value][l.key := l.value];
    }
  }

  lemma {:induction false} FirstHandled(s: State, replies: seq<Reply>)
    requires |replies| > 0
    ensures AllHandled(s, replies) == AllHandled(Handled(s, replies[0]), replies[1..])
  {
    hide Handled;
    var p, last := replies[..|replies| - 1], replies[|replies| - 1];
    if |p| > 0 {
      FirstHandled(s, p);
      assert replies[1..][..|replies| - 2] == p[1..];
    } else {
      assert replies[1..] == [] && AllHandled(s, p) == s;
    }
  }

  lemma PollStepKeepsKeys(c: Calls, step: Step)
    requires Enabled(c, step) && (step.Answer? || step.Continue?) && OnlyPolls(c.late, c.replies)
    ensures OnlyPolls(Next(c, step).late, Next(c, step).replies)
  {
    hide Answered, Continued;
    var t := Next(c, step);
    if step.Answer? {
      assert LateOf(c.replies[0]) == [LateOf(c.replies[0])[0]];
      assert forall i :: 0 <= i < |t.replies| ==> t.replies[i] == c.replies[i + 1];
      assert forall i :: 0 <= i < |t.late| ==>
          t.late[i].key == (if i < |c.late| then c.late[i] else LateOf(c.replies[0])[0]).key;
    } else {
      assert forall i :: 0 <= i < |t.late| ==> t.late[i] == c.late[if i < step.n then i else i + 1];
    }
  }

  lemma PollAnswerKeepsOutcome(c: Calls)
    requires c.replies != [] && OnlyPolls(c.late, c.replies)
    ensures Outcome(Next(c, Answer)) == Outcome(c)
  {
    var s, r := c.state, c.replies[0];
    var l := LateOf(r)[0];
    assert LateOf(r) == [l];
    ReplyFirst(s, c.late, r);
    FirstHandled(AllContinued(s, c.late), c.replies);
    assert (c.late + [l])[..|c.late|] == c.late && [l][..0] == [];
    hide Answered, Continued, AllHandled, OnlyPolls;
    assert AllContinued(Answered(AllContinued(s, c.late), r), []) == Answered(AllContinued(s, c.late), r);
  }

  lemma PollTurnKeepsOutcome(c: Calls, n: nat)
    requires n < |c.late| && OnlyPolls(c.late, c.replies)
    ensures Similar(Outcome(Next(c, Continue(n))), Outcome(c))
  {
    AnyTurnFirst(c.state, c.late, n);
    hide AllHandled, AllContinued, Continued, Similar, OnlyPolls;
    var t := Next(c, Continue(n));
    AllHandledSimilar(AllContinued(t.state, t.late), AllContinued(c.state, c.late), c.replies);
  }

  lemma PollStepKeepsOutcome(c: Calls, step: Step)
    requires Enabled(c, step) && (step.Answer? || step.Continue?) && OnlyPolls(c.late, c.replies)
    ensures OnlyPolls(Next(c, step).late, Next(c, step).replies) && Similar(Outcome(Next(c, step)), Outcome(c))
  {
    hide Outcome, Similar, OnlyPolls, Next;
    PollStepKeepsKeys(c, step);
    SimilarTransitive(Outcome(c), Outcome(c), Outcome(c));
    if step.Answer? { PollAnswerKeepsOutcome(c); } else { PollTurnKeepsOutcome(c, step.n); }
  }

  ghost predicate AnswersAndTurns(steps: seq<Step>) {
    forall i :: 0 <= i < |steps| ==> steps[i].Answer? || steps[i].Continue?
  }

  lemma {:induction false} PollReplyKeys(s: State, n: nat)
    requires n <= |s.watched|
    ensures |PollReplies(s, n)| == n
    ensures forall i :: 0 <= i < n ==> PollReplies(s, n)[i].PollReply? && PollReplies(s, n)[i].key == s.watched[i]
    decreases n
  {
    if n > 0 { PollReplyKeys(s, n - 1); }
  }

  lemma {:induction false} PollRunKeepsOutcome(c: Calls, steps: seq<Step>)
    requires OnlyPolls(c.late, c.replies) && AnswersAndTurns(steps)
    ensures var t := Run(c, steps);
            OnlyPolls(t.late, t.replies) && Similar(Outcome(t), Outcome(c)) && t.clears == c.clears
  {
    hide OnlyPolls, Similar, Outcome, Answered, Continued;
    if |steps| > 0 {
      var p, step := steps[..|steps| - 1], steps[|steps| - 1];
      PollRunKeepsOutcome(c, p);
      if Enabled(Run(c, p), step) { PollStepKeepsOutcome(Run(c, p), step); }
      SimilarTransitive(Outcome(Run(c, steps)), Outcome(Run(c, p)), Outcome(c));
    } else {
      SimilarTransitive(Outcome(c), Outcome(c), Outcome(c));
    }
  }

  lemma SimilarTransitive(a: State, b: State, c: State)
    ensures Similar(a, a)
    ensures Similar(a, b) && Similar(b, c) ==> Similar(a, c)
  {
  }

  /** A poll as the source runs it: all reads are sent in one turn, and whatever the order in which the replies are
      handled and the comparisons come after them, it ends as the poll as a whole, up to the order of the events. */
  lemma PollInAnyOrder(s: State, steps: seq<Step>)
    requires Distinct(s.watched) && AnswersAndTurns(steps)
    ensures var c := Run(Run(AtRest(s), PollSteps(s, |s.watched|)), steps);
            && Similar(Outcome(c), Apply(s, Poll))
            && (c.replies == [] && c.late == [] ==> c == AtRest(c.state) && Similar(c.state, Apply(s, Poll)))
  {
    var n := |s.watched|;
    PollIsSent(s, n);
    PollOutcome(s, n);
    var sent := Calls(s, PollReplies(s, n), [], []);
    assert AllContinued(s, []) == s;
    assert Outcome(sent) == Apply(s, Poll);
    SentIsOnlyPolls(s);
    hide AllHandled, AllContinued, Similar, OnlyPolls, PollReplies, PollSteps, Apply;
    PollRunKeepsOutcome(sent, steps);
    OutcomeAtRest(Run(sent, steps));
    hide Run, Outcome;
  }

  lemma SentIsOnlyPolls(s: State)
    requires Distinct(s.watched)
    ensures OnlyPolls([], PollReplies(s, |s.watched|))
  {
    PollReplyKeys(s, |s.watched|);
  }

  // ----- unwatching during a poll -----

  /** The comparison of a poll for a key that is not watched any more. */
  predicate Stray(c: Calls, step: Step) {
    step.Continue? && step.n < |c.late| && c.late[step.n].PollEnd? && c.late[step.n].key !in c.state.watched
  }

  /** The last turn of a poll leaves only watched keys cached exactly when its key is still watched. */
  lemma PollEndTidyIff(s: State, key: string, value: Json)
    requires Tidy(s)
    ensures Tidy(Continued(s, PollEnd(key, value))) <==> key in s.watched
  {
    if key !in s.watched {
      assert key in Continued(s, PollEnd(key, value)).cache;
    }
  }

  lemma StepTidyIff(c: Calls, step: Step)
    requires Tidy(c.state)
    ensures Tidy(StepOrSkip(c, step).state) <==> !Stray(c, step)
  {
    if Enabled(c, step) {
      match step {
        case Continue(n) =>
          if c.late[n].PollEnd? {
            PollEndTidyIff(c.state, c.late[n].key, c.late[n].value);
          } else {
            WatchEndTidy(c.state, c.late[n]);
          }
        case Answer => AnsweredTidy(c.state, c.replies[0]);
        case Unwatching(key) => UnwatchKeepsTidy(c.state, key);
        case _ =>
      }
      hide Continued, Answered, Apply, StoreAfter;
    }
  }

  lemma WatchEndTidy(s: State, l: Late)
    requires Tidy(s) && l.WatchEnd?
    ensures Tidy(Continued(s, l))
  {
  }

  lemma AnsweredTidy(s: State, r: Reply)
    requires Tidy(s)
    ensures Tidy(Answered(s, r))
  {
  }

  /** The events a step adds are about keys that are watched at that time. */
  ghost predicate AnnouncesWatched(c: Calls, step: Step) {
    var t := StepOrSkip(c, step);
    && |t.state.events| >= |c.state.events|
    && forall i :: |c.state.events| <= i < |t.state.events| ==> t.state.events[i].key in c.state.watched
  }

  /** The comparison for an unwatched key finds nothing cached, so it always announces a change. */
  lemma StepAnnouncesIff(c: Calls, step: Step)
    requires Tidy(c.state)
    ensures AnnouncesWatched(c, step) <==> !Stray(c, step)
  {
    var t := StepOrSkip(c, step);
    if Stray(c, step) {
      assert t.state.events[|c.state.events|].key == c.late[step.n].key;
    }
  }

  ghost predicate TidyThroughout(s: State, steps: seq<Step>) {
    Tidy(Run(AtRest(s), steps).state) && (|steps| > 0 ==> TidyThroughout(s, steps[..|steps| - 1]))
  }

  ghost predicate AnnouncesWatchedOnly(s: State, steps: seq<Step>) {
    |steps| > 0 ==>
      && AnnouncesWatchedOnly(s, steps[..|steps| - 1])
      && AnnouncesWatched(Run(AtRest(s), steps[..|steps| - 1]), steps[|steps| - 1])
  }

  predicate NoStray(s: State, steps: seq<Step>) {
    |steps| > 0 ==>
      && NoStray(s, steps[..|steps| - 1])
      && !Stray(Run(AtRest(s), steps[..|steps| - 1]), steps[|steps| - 1])
  }

  /** Over every run of overlapping calls: watched keys are distinct, only they are cached, and the timer runs exactly
      while there are any, all along exactly when no poll compares a key that was unwatched after its read was sent;
      and exactly then every announcement is about a watched key. */
  lemma {:induction false} TidyThroughoutIff(s: State, steps: seq<Step>)
    requires Tidy(s)
    ensures TidyThroughout(s, steps) <==> NoStray(s, steps)
    ensures AnnouncesWatchedOnly(s, steps) <==> NoStray(s, steps)
  {
    hide Tidy, StepOrSkip, Stray, AnnouncesWatched;
    if |steps| > 0 {
      var p, step := steps[..|steps| - 1], steps[|steps| - 1];
      TidyThroughoutIff(s, p);
      if NoStray(s, p) {
        StepTidyIff(Run(AtRest(s), p), step);
        StepAnnouncesIff(Run(AtRest(s), p), step);
      }
    }
  }

  /** An `unwatch` between a poll's read and its comparison: the key is cached again and announced, though nobody
      watches it; no step here is harmful to coherence. */
  lemma UnwatchDuringPoll(s: State, key: string)
    requires Tidy(s) && key in s.watched
    ensures var end := Run(AtRest(s), [PollSend(key), Unwatching(key), Answer, Continue(0)]);
            && end == AtRest(end.state) && key !in end.state.watched && key in end.state.cache
            && end.state.events == s.events + [Change(key, Null, Read(s.store, key))]
  {
    RunOfFour(AtRest(s), PollSend(key), Unwatching(key), Answer, Continue(0));
    WithoutMembers(s.watched, key);
    var r, l := PollReply(key, Lookup(s.store, key)), PollEnd(key, Read(s.store, key));
    var gone := Apply(s, Unwatch(key));
    assert StepOrSkip(AtRest(s), PollSend(key)) == Calls(s, [r], [], []);
    assert StepOrSkip(Calls(s, [r], [], []), Unwatching(key)) == Calls(gone, [r], [], []);
    assert [r][1..] == [] && [] + LateOf(r) == [l] && [l][..0] + [l][1..] == [];
    assert key !in gone.watched && key !in gone.cache;
    assert StepOrSkip(Calls(gone, [r], [], []), Answer) == Calls(gone, [], [l], []);
    StrayTurn(gone, key, Read(s.store, key));
    hide StepOrSkip, Run, Apply;
  }

  lemma StrayTurn(s: State, key: string, value: Json)
    requires key !in s.cache
    ensures StepOrSkip(Calls(s, [], [PollEnd(key, value)], []), Continue(0))
            == AtRest(s.(cache := s.cache[key := value], events := s.events + [Change(key, Null, value)]))
  {
    assert [PollEnd(key, value)][..0] + [PollEnd(key, value)][1..] == [];
  }

  // ----- one schedule for each way to lose coherence -----

  lemma SetSent(c: Calls, key: string, value: Json)
    ensures StepOrSkip(c, Send(Set(key, value)))
            == c.(state := c.state.(store := c.state.store[key := value]),
                  replies := c.replies + [SetReply(key, value, OldValueNow(c.state, key))])
  {
  }

  lemma AnswerOne(s: State, r: Reply, rest: seq<Reply>, clears: seq<set<string>>)
    ensures StepOrSkip(Calls(s, [r] + rest, [], clears), Answer) == Calls(Answered(s, r), rest, LateOf(r), clears)
  {
    hide Answered, LateOf;
    assert ([r] + rest)[1..] == rest && [] + LateOf(r) == LateOf(r);
  }

  lemma DelAndAnswer(s: State, keys: set<string>)
    ensures StepOrSkip(StepOrSkip(Calls(s, [], [], [keys]), ClearDel(0)), Answer)
            == AtRest(s.(store := s.store - keys, cache := map[]))
  {
    assert [keys][..0] + [keys][1..] == [] && [] + [ClearReply] == [ClearReply] + [];
    AnswerOne(s.(store := s.store - keys), ClearReply, [], []);
  }

  lemma SetAndAnswer(s: State, key: string, value: Json, clears: seq<set<string>>)
    ensures StepOrSkip(StepOrSkip(Calls(s, [], [], clears), Send(Set(key, value))), Answer)
            == Calls(Answered(s.(store := s.store[key := value]), SetReply(key, value, OldValueNow(s, key))), [], [],
                clears)
  {
    var r := SetReply(key, value, OldValueNow(s, key));
    SetSent(Calls(s, [], [], clears), key, value);
    AnswerOne(s.(store := s.store[key := value]), r, [], clears);
    hide StepOrSkip, Answered;
    assert [] + [r] == [r] + [] && LateOf(r) == [];
  }

  lemma AnsweredSet(s: State, key: string, value: Json, oldValue: Json)
    ensures Answered(s, SetReply(key, value, oldValue)).store == s.store
    ensures Answered(s, SetReply(key, value, oldValue)).watched == s.watched
  {
  }

  /** A `set` between the KEYS and the DEL of a `clear`: Redis keeps the new value, the cache loses it. */
  lemma ClearDisturbed(s: State, key: string, value: Json)
    requires s.store != map[] && key !in s.store && key in s.watched && value != Null
    ensures var end := Run(AtRest(s), [ClearKeys, Send(Set(key, value)), Answer, ClearDel(0), Answer]);
            end == AtRest(end.state) && !Coherent(end.state)
            && end.state.store == map[key := value] && end.state.cache == map[]
  {
    RunOfFive(AtRest(s), ClearKeys, Send(Set(key, value)), Answer, ClearDel(0), Answer);
    assert StepOrSkip(AtRest(s), ClearKeys) == Calls(s, [], [], [s.store.Keys]);
    hide StepOrSkip, Run, OldValueNow;
    SetAndAnswer(s, key, value, [s.store.Keys]);
    var written := s.(store := s.store[key := value]);
    var t := Answered(written, SetReply(key, value, OldValueNow(s, key)));
    AnsweredSet(written, key, value, OldValueNow(s, key));
    hide Answered;
    DelAndAnswer(t, s.store.Keys);
    assert s.store[key := value] - s.store.Keys == map[key := value];
    assert key in t.watched;
  }

  /** With the reply `one` of a watch or a poll to come, a `set` is sent, both replies are handled, and then the
      rest. */
  lemma LateSetSchedule(s: State, one: Reply, key: string, value: Json)
    requires LateOf(one) != []
    ensures var two := SetReply(key, value, OldValueNow(s, key));
            var sent := StepOrSkip(Calls(s, [one], [], []), Send(Set(key, value)));
            StepOrSkip(StepOrSkip(StepOrSkip(sent, Answer), Answer), Continue(0))
            == AtRest(Continued(Answered(Answered(s.(store := s.store[key := value]), one), two), LateOf(one)[0]))
  {
    var two := SetReply(key, value, OldValueNow(s, key));
    var written := s.(store := s.store[key := value]);
    SetSent(Calls(s, [one], [], []), key, value);
    AnswerOne(written, one, [two], []);
    var t := Answered(written, one);
    assert StepOrSkip(Calls(t, [two], LateOf(one), []), Answer) == Calls(Answered(t, two), [], LateOf(one), []) by {
      assert [two][1..] == [] && LateOf(one) + LateOf(two) == LateOf(one);
      hide Answered;
    }
    var u := Answered(t, two);
    hide Answered, Continued, OldValueNow;
    assert [one] + [two] == [one, two];
    assert StepOrSkip(Calls(u, [], LateOf(one), []), Continue(0)) == AtRest(Continued(u, LateOf(one)[0])) by {
      assert LateOf(one)[..0] + LateOf(one)[1..] == [];
    }
    hide StepOrSkip, LateOf;
  }

  /** A `set` whose reply comes between the two turns of a poll: the poll puts the old value back and announces it. */
  lemma PollDisturbed(s: State, key: string, value: Json)
    requires key in s.watched && key in s.store && s.store[key] != value
    ensures var end := Run(AtRest(s), [PollSend(key), Send(Set(key, value)), Answer, Answer, Continue(0)]);
            && end == AtRest(end.state) && !Coherent(end.state)
            && Read(end.state.store, key) == value && Read(end.state.cache, key) == s.store[key]
            && |end.state.events| > 0
            && end.state.events[|end.state.events| - 1] == Change(key, OldValue(map[key := value], key), s.store[key])
  {
    RunOfFive(AtRest(s), PollSend(key), Send(Set(key, value)), Answer, Answer, Continue(0));
    var one := PollReply(key, Some(s.store[key]));
    assert StepOrSkip(AtRest(s), PollSend(key)) == Calls(s, [one], [], []);
    LateSetSchedule(s, one, key, value);
    hide StepOrSkip, Run;
    var two := SetReply(key, value, OldValueNow(s, key));
    var end := Continued(Answered(Answered(s.(store := s.store[key := value]), one), two), LateOf(one)[0]);
    assert key in end.watched;
  }

  /** The same for a watch: it starts with the old value. */
  lemma WatchDisturbed(s: State, key: string, value: Json)
    requires key !in s.watched && key in s.store && s.store[key] != value
    ensures var end := Run(AtRest(s), [WatchSend(key), Send(Set(key, value)), Answer, Answer, Continue(0)]);
            && end == AtRest(end.state) && !Coherent(end.state)
            && Read(end.state.store, key) == value && Read(end.state.cache, key) == s.store[key]
  {
    RunOfFive(AtRest(s), WatchSend(key), Send(Set(key, value)), Answer, Answer, Continue(0));
    var one := WatchReply(key, Some(s.store[key]));
    assert StepOrSkip(AtRest(s), WatchSend(key)) == Calls(s, [one], [], []);
    LateSetSchedule(s, one, key, value);
    hide StepOrSkip, Run;
    var two := SetReply(key, value, OldValueNow(s, key));
    var end := Continued(Answered(Answered(s.(store := s.store[key := value]), one), two), LateOf(one)[0]);
    assert key in end.watched;
  }
}
