/** The auto scaler: votes of the rules, bounded instance counts, cooldowns and the bounded history. */
module AutoScaler {
  import opened Text

  /** A rule, its metric given by name; metrics and thresholds are exact numbers. */
  datatype Rule = Rule(metric: string, scaleUpThreshold: real, scaleDownThreshold: real, scaleUpIncrement: int,
                       scaleDownIncrement: int, cooldownPeriod: int)

  datatype Config = Config(minInstances: int, maxInstances: int, rules: seq<Rule>, scalingCooldown: int)

  datatype Action = ScaleUp | ScaleDown | NoAction

  datatype Decision = Decision(timestamp: int, action: Action, currentInstances: int, targetInstances: int)

  type Metrics = string -> real

  const HISTORY: nat := 100

  // ----- votes -----

  datatype Tally = Tally(up: nat, down: nat, cooldowns: map<string, int>)

  function LastVote(cooldowns: map<string, int>, metric: string): int {
    if metric in cooldowns then cooldowns[metric] else 0
  }

  predicate Cooling(cooldowns: map<string, int>, rule: Rule, now: int) {
    now - LastVote(cooldowns, rule.metric) < rule.cooldownPeriod
  }

  /** One rule's vote; rules of the same metric share one cooldown. */
  function VoteOf(t: Tally, rule: Rule, metrics: Metrics, now: int): Tally {
    if Cooling(t.cooldowns, rule, now) then t
    else if metrics(rule.metric) >= rule.scaleUpThreshold then Tally(t.up + 1, t.down, t.cooldowns[rule.metric := now])
    else if metrics(rule.metric) <= rule.scaleDownThreshold
        then Tally(t.up, t.down + 1, t.cooldowns[rule.metric := now])
    else t
  }

  function Votes(rules: seq<Rule>, cooldowns: map<string, int>, metrics: Metrics, now: int): Tally {
    if |rules| == 0 then Tally(0, 0, cooldowns)
    else VoteOf(Votes(rules[..|rules| - 1], cooldowns, metrics, now), rules[|rules| - 1], metrics, now)
  }

  function MaxIncrement(rules: seq<Rule>): (m: int)
    requires |rules| > 0
    ensures forall i :: 0 <= i < |rules| ==> rules[i].scaleUpIncrement <= m
    ensures exists i :: 0 <= i < |rules| && rules[i].scaleUpIncrement == m
  {
    var last := rules[|rules| - 1].scaleUpIncrement;
    if |rules| == 1 then last
    else
      var m := MaxIncrement(rules[..|rules| - 1]);
      if last >= m then last else m
  }

  function MinDecrement(rules: seq<Rule>): (m: int)
    requires |rules| > 0
    ensures forall i :: 0 <= i < |rules| ==> rules[i].scaleDownIncrement >= m
    ensures exists i :: 0 <= i < |rules| && rules[i].scaleDownIncrement == m
  {
    var last := rules[|rules| - 1].scaleDownIncrement;
    if |rules| == 1 then last
    else
      var m := MinDecrement(rules[..|rules| - 1]);
      if last <= m then last else m
  }

  function Min(a: int, b: int): (m: int)
    ensures m <= a && m <= b && (m == a || m == b)
  {
    if a < b then a else b
  }

  function Max(a: int, b: int): (m: int)
    ensures m >= a && m >= b && (m == a || m == b)
  {
    if a > b then a else b
  }

  // ----- the steps -----

  /** `pending` evaluations have passed the cooldown check and wait for the metrics; `decided` are all decisions so
      far. */
  datatype State = State(current: int, last: Option<int>, cooldowns: map<string, int>, history: seq<Decision>,
                         pending: nat, decided: seq<Decision>, clock: int)

  datatype Step = Check(now: int) | Decide(now: int, metrics: Metrics) | SetCount(count: int)

  predicate InCooldown(last: Option<int>, cooldown: int, now: int) {
    last.Some? && now - last.value < cooldown
  }

  predicate Enabled(s: State, step: Step) {
    match step
    case Check(now) => now >= s.clock
    case Decide(now, _) => now >= s.clock && s.pending > 0
    case SetCount(_) => true
  }

  /** The action the votes lead to, and its target. */
  function Decided(c: Config, current: int, t: Tally, now: int): Decision
    requires t.up != t.down ==> |c.rules| > 0
  {
    var target := if t.up > t.down then Min(current + MaxIncrement(c.rules), c.maxInstances)
                  else if t.down > t.up then Max(current - MinDecrement(c.rules), c.minInstances)
                  else current;
    Decision(now, if target == current then NoAction else if t.up > t.down then ScaleUp else ScaleDown, current, target)
  }

  function LastOf<T>(s: seq<T>, n: nat): (r: seq<T>)
    ensures |r| == Min(|s|, n) && s == s[..|s| - |r|] + r
  {
    if |s| <= n then s else s[|s| - n..]
  }

  function Next(c: Config, s: State, step: Step): State
    requires Enabled(s, step)
  {
    match step
    case Check(now) =>
      if InCooldown(s.last, c.scalingCooldown, now) then s.(clock := now)
          else s.(pending := s.pending + 1, clock := now)
    case Decide(now, metrics) =>
      var t := Votes(c.rules, s.cooldowns, metrics, now);
      var d := Decided(c, s.current, t, now);
      State(d.targetInstances, if d.action.NoAction? then s.last else Some(now), t.cooldowns,
            LastOf(s.history + [d], HISTORY), s.pending - 1, s.decided + [d], now)
    case SetCount(count) => if c.minInstances <= count <= c.maxInstances then s.(current := count) else s
  }

  /** The target is the current count changed by the largest increment, or by the smallest decrement, of the rules, or
      the bound when that is past it; what is reported is the change. */
  ghost predicate IsDecision(c: Config, current: int, up: nat, down: nat, now: int, d: Decision) {
    && d.timestamp == now && d.currentInstances == current
    && (up == down ==> d.targetInstances == current)
    && (up > down ==>
          exists i :: 0 <= i < |c.rules|
            && (forall j :: 0 <= j < |c.rules| ==> c.rules[j].scaleUpIncrement <= c.rules[i].scaleUpIncrement)
            && d.targetInstances == (if current + c.rules[i].scaleUpIncrement > c.maxInstances then c.maxInstances
                                     else current + c.rules[i].scaleUpIncrement))
    && (down > up ==>
          exists i :: 0 <= i < |c.rules|
            && (forall j :: 0 <= j < |c.rules| ==> c.rules[j].scaleDownIncrement >= c.rules[i].scaleDownIncrement)
            && d.targetInstances == (if current - c.rules[i].scaleDownIncrement < c.minInstances then c.minInstances
                                     else current - c.rules[i].scaleDownIncrement))
    && (d.action == NoAction <==> d.targetInstances == current)
    && (d.action == ScaleUp ==> up > down) && (d.action == ScaleDown ==> down > up)
  }

  lemma DecidedIsDecision(c: Config, current: int, t: Tally, now: int)
    requires t.up != t.down ==> |c.rules| > 0
    ensures IsDecision(c, current, t.up, t.down, now, Decided(c, current, t, now))
  {
    if t.up > t.down {
      var i :| 0 <= i < |c.rules| && c.rules[i].scaleUpIncrement == MaxIncrement(c.rules);
    } else if t.down > t.up {
      var i :| 0 <= i < |c.rules| && c.rules[i].scaleDownIncrement == MinDecrement(c.rules);
    }
  }

  // ----- the object -----

  class Scaler {
    const config: Config
    var currentInstances: int
    var lastScalingAction: Option<int>
    var scalingHistory: seq<Decision>
    var ruleCooldowns: map<string, int>
    ghost var pending: nat
    ghost var decided: seq<Decision>
    ghost var clock: int

    ghost function View(): State
      reads this
    {
      State(currentInstances, lastScalingAction, ruleCooldowns, scalingHistory, pending, decided, clock)
    }

    constructor (config: Config, initialInstances: int, now: int)
      ensures this.config == config && View() == State(initialInstances, None, map[], [], 0, [], now)
    {
      this.config, currentInstances, lastScalingAction := config, initialInstances, None;
      scalingHistory, ruleCooldowns, pending, decided, clock := [], map[], 0, [], now;
    }

    /** `evaluateScaling` up to the collection of the metrics. */
    method BeginEvaluation(now: int) returns (goesOn: bool)
      requires Enabled(View(), Check(now))
      modifies this
      ensures View() == Next(config, old(View()), Check(now))
      ensures goesOn <==> old(lastScalingAction) == None
                           || now >= old(lastScalingAction).value + config.scalingCooldown
      ensures unchanged(this`currentInstances, this`lastScalingAction, this`scalingHistory, this`ruleCooldowns)
    {
      clock := now;
      if lastScalingAction.Some? && now - lastScalingAction.value < config.scalingCooldown {
        return false;
      }
      pending := pending + 1;
      return true;
    }

    /** The rest of `evaluateScaling`. */
    method EndEvaluation(now: int, metrics: Metrics) returns (decision: Decision)
      requires Enabled(View(), Decide(now, metrics))
      modifies this
      ensures View() == Next(config, old(View()), Decide(now, metrics))
      ensures decided == old(decided) + [decision]
      ensures var t := Votes(config.rules, old(ruleCooldowns), metrics, now);
              IsDecision(config, old(currentInstances), t.up, t.down, now, decision) && ruleCooldowns == t.cooldowns
      ensures currentInstances == decision.targetInstances
      ensures lastScalingAction == if decision.action == NoAction then old(lastScalingAction) else Some(now)
      ensures scalingHistory == LastOf(old(scalingHistory) + [decision], 100)
    {
      hide MaxIncrement, MinDecrement, IsDecision, Votes, LastOf;
      VotesNeedRules(config, ruleCooldowns, metrics, now);
      DecidedIsDecision(config, currentInstances, Votes(config.rules, ruleCooldowns, metrics, now), now);
      var scaleUpVotes, scaleDownVotes := CountVotes(now, metrics);
      if scaleUpVotes > scaleDownVotes {
        decision := ScaleTo(now, ScaleUp, Min(currentInstances + MaxIncrement(config.rules), config.maxInstances));
      } else if scaleDownVotes > scaleUpVotes {
        decision := ScaleTo(now, ScaleDown, Max(currentInstances - MinDecrement(config.rules), config.minInstances));
      } else {
        decision := Decision(now, NoAction, currentInstances, currentInstances);
      }
      RecordScalingDecision(decision);
      pending, clock := pending - 1, now;
    }

    /** The loop over the rules. */
    method CountVotes(now: int, metrics: Metrics) returns (up: nat, down: nat)
      modifies this`ruleCooldowns
      ensures Tally(up, down, ruleCooldowns) == Votes(config.rules, old(ruleCooldowns), metrics, now)
      ensures up + down > 0 ==> |config.rules| > 0
    {
      up, down := 0, 0;
      for i := 0 to |config.rules|
        invariant Tally(up, down, ruleCooldowns) == Votes(config.rules[..i], old(ruleCooldowns), metrics, now)
        invariant up + down > 0 ==> i > 0
      {
        var rule := config.rules[i];
        assert config.rules[..i + 1][..i] == config.rules[..i];
        if Cooling(ruleCooldowns, rule, now) {
          continue;
        }
        var metricValue := metrics(rule.metric);
        if metricValue >= rule.scaleUpThreshold {
          up := up + 1;
          ruleCooldowns := ruleCooldowns[rule.metric := now];
        } else if metricValue <= rule.scaleDownThreshold {
          down := down + 1;
          ruleCooldowns := ruleCooldowns[rule.metric := now];
        }
      }
      assert config.rules[..|config.rules|] == config.rules;
    }

    /** `scaleUp` and `scaleDown` once the target is known. */
    method ScaleTo(now: int, action: Action, targetInstances: int) returns (decision: Decision)
      modifies this`currentInstances, this`lastScalingAction
      ensures decision == Decision(now, if targetInstances == old(currentInstances) then NoAction else action,
                                   old(currentInstances), targetInstances)
      ensures currentInstances == targetInstances
      ensures lastScalingAction == if targetInstances == old(currentInstances) then old(lastScalingAction)
              else Some(now)
    {
      if targetInstances == currentInstances {
        return Decision(now, NoAction, currentInstances, currentInstances);
      }
      decision := Decision(now, action, currentInstances, targetInstances);
      currentInstances := targetInstances;
      lastScalingAction := Some(now);
    }

    method RecordScalingDecision(decision: Decision)
      modifies this`scalingHistory, this`decided
      ensures scalingHistory == LastOf(old(scalingHistory) + [decision], HISTORY)
      ensures decided == old(decided) + [decision]
    {
      scalingHistory := scalingHistory + [decision];
      decided := decided + [decision];
      if |scalingHistory| > HISTORY {
        scalingHistory := scalingHistory[|scalingHistory| - HISTORY..];
      }
    }

    /** `setInstanceCount`: false stands for the error. */
    method SetInstanceCount(count: int) returns (ok: bool)
      modifies this`currentInstances
      ensures View() == Next(config, old(View()), SetCount(count))
      ensures currentInstances == if ok then count else old(currentInstances)
      ensures ok == (config.minInstances <= count <= config.maxInstances)
    {
      if count < config.minInstances || count > config.maxInstances {
        return false;
      }
      currentInstances := count;
      return true;
    }
  }

  // ----- what a decision means -----

  /** The rule's metric has not voted, or its last vote is at least the rule's own cooldown ago; a metric that never
      voted counts as voting at time 0. */
  predicate Rested(cooldowns: map<string, int>, rule: Rule, now: int) {
    if rule.metric in cooldowns then cooldowns[rule.metric] + rule.cooldownPeriod <= now else rule.cooldownPeriod <= now
  }

  /** The rules that would vote up, or down, judged by the cooldowns from before the evaluation. */
  predicate VotesUp(rule: Rule, cooldowns: map<string, int>, metrics: Metrics, now: int) {
    Rested(cooldowns, rule, now) && metrics(rule.metric) >= rule.scaleUpThreshold
  }

  predicate VotesDown(rule: Rule, cooldowns: map<string, int>, metrics: Metrics, now: int) {
    Rested(cooldowns, rule, now) && metrics(rule.metric) < rule.scaleUpThreshold
    && metrics(rule.metric) <= rule.scaleDownThreshold
  }

  function CountWhere(rules: seq<Rule>, p: Rule -> bool): nat {
    if |rules| == 0 then 0 else CountWhere(rules[..|rules| - 1], p) + (if p(rules[|rules| - 1]) then 1 else 0)
  }

  /** A metric without a rule starts no cooldown. */
  lemma {:induction false} OtherMetricsWait(rules: seq<Rule>, cooldowns: map<string, int>, metrics: Metrics, now: int,
                                            metric: string)
    requires forall i :: 0 <= i < |rules| ==> rules[i].metric != metric
    ensures LastVote(Votes(rules, cooldowns, metrics, now).cooldowns, metric) == LastVote(cooldowns, metric)
  {
    if |rules| > 0 {
      OtherMetricsWait(rules[..|rules| - 1], cooldowns, metrics, now, metric);
      var last := rules[|rules| - 1];
      assert last.metric != metric;
    }
  }

  predicate OneRulePerMetric(rules: seq<Rule>) {
    forall i, j :: 0 <= i < j < |rules| ==> rules[i].metric != rules[j].metric
  }

  /** The last of the rules finds its cooldown as it was before the evaluation. */
  lemma LastRuleVotes(rules: seq<Rule>, cooldowns: map<string, int>, metrics: Metrics, now: int)
    requires |rules| > 0 && OneRulePerMetric(rules)
    ensures var p, last := rules[..|rules| - 1], rules[|rules| - 1];
            && Votes(rules, cooldowns, metrics, now) == VoteOf(Votes(p, cooldowns, metrics, now), last, metrics, now)
            && LastVote(Votes(p, cooldowns, metrics, now).cooldowns, last.metric) == LastVote(cooldowns, last.metric)
  {
    OtherMetricsWait(rules[..|rules| - 1], cooldowns, metrics, now, rules[|rules| - 1].metric);
  }

  /** With one rule for each metric, the votes are plain counts over the rules, whatever their order. */
  lemma {:induction false} VotesAreCounts(rules: seq<Rule>, cooldowns: map<string, int>, metrics: Metrics, now: int)
    requires OneRulePerMetric(rules)
    ensures Votes(rules, cooldowns, metrics, now).up == CountWhere(rules, r => VotesUp(r, cooldowns, metrics, now))
    ensures Votes(rules, cooldowns, metrics, now).down == CountWhere(rules, r => VotesDown(r, cooldowns, metrics, now))
  {
    if |rules| > 0 {
      VotesAreCounts(rules[..|rules| - 1], cooldowns, metrics, now);
      LastRuleVotes(rules, cooldowns, metrics, now);
      hide LastVote, Votes;
      assert Cooling(Votes(rules[..|rules| - 1], cooldowns, metrics, now).cooldowns, rules[|rules| - 1], now)
             == Cooling(cooldowns, rules[|rules| - 1], now);
    }
  }

  /** And exactly the metrics that voted start their cooldown. */
  lemma {:induction false} VotersCoolDown(rules: seq<Rule>, cooldowns: map<string, int>, metrics: Metrics, now: int,
      i: nat)
    requires OneRulePerMetric(rules) && i < |rules|
    ensures LastVote(Votes(rules, cooldowns, metrics, now).cooldowns, rules[i].metric)
            == if VotesUp(rules[i], cooldowns, metrics, now) || VotesDown(rules[i], cooldowns, metrics, now) then now
               else LastVote(cooldowns, rules[i].metric)
  {
    LastRuleVotes(rules, cooldowns, metrics, now);
    if i < |rules| - 1 {
      VotersCoolDown(rules[..|rules| - 1], cooldowns, metrics, now, i);
      assert rules[i].metric != rules[|rules| - 1].metric;
    }
    hide Votes;
  }

  predicate NonNegative(c: Config) {
    forall i :: 0 <= i < |c.rules| ==> c.rules[i].scaleUpIncrement >= 0 && c.rules[i].scaleDownIncrement >= 0
  }

  /** Within the range, the count goes up exactly when more rules vote up and there is room and an increment, down
      likewise, and otherwise it stays. */
  lemma ActionIff(c: Config, current: int, t: Tally, now: int)
    requires |c.rules| > 0 && NonNegative(c) && c.minInstances <= current <= c.maxInstances
    ensures var d := Decided(c, current, t, now);
            && (d.action.ScaleUp? <==> t.up > t.down && MaxIncrement(c.rules) > 0 && current < c.maxInstances)
            && (d.action.ScaleDown? <==> t.down > t.up && MinDecrement(c.rules) > 0 && current > c.minInstances)
            && (d.action.ScaleUp? <==> d.targetInstances > current)
            && (d.action.ScaleDown? <==> d.targetInstances < current)
  {
    var i :| 0 <= i < |c.rules| && c.rules[i].scaleUpIncrement == MaxIncrement(c.rules);
    var j :| 0 <= j < |c.rules| && c.rules[j].scaleDownIncrement == MinDecrement(c.rules);
  }

  // ----- whole runs -----

  function Run(c: Config, s: State, steps: seq<Step>): State {
    if |steps| == 0 then s
    else
      var before := Run(c, s, steps[..|steps| - 1]);
      if Enabled(before, steps[|steps| - 1]) then Next(c, before, steps[|steps| - 1]) else before
  }

  /** No evaluation starts while another waits for its metrics. */
  predicate Serial(c: Config, s: State, steps: seq<Step>) {
    |steps| == 0
    || (Serial(c, s, steps[..|steps| - 1])
        && (steps[|steps| - 1].Check? ==> Run(c, s, steps[..|steps| - 1]).pending == 0))
  }

  /** The times of the decisions that changed the count. */
  function ActionTimes(decided: seq<Decision>): seq<int> {
    if |decided| == 0 then []
    else
      var d := decided[|decided| - 1];
      ActionTimes(decided[..|decided| - 1]) + (if d.action.NoAction? then [] else [d.timestamp])
  }

  lemma DecidedInBounds(c: Config, current: int, t: Tally, now: int)
    requires NonNegative(c) && c.minInstances <= current <= c.maxInstances && (t.up != t.down ==> |c.rules| > 0)
    ensures c.minInstances <= Decided(c, current, t, now).targetInstances <= c.maxInstances
  {
  }

  lemma VotesNeedRules(c: Config, cooldowns: map<string, int>, metrics: Metrics, now: int)
    ensures |c.rules| == 0 ==>
            Votes(c.rules, cooldowns, metrics, now).up == Votes(c.rules, cooldowns, metrics, now).down
  {
  }

  /** The instance count never leaves the configured range, in any interleaving. */
  lemma {:induction false} CountStaysInRange(c: Config, s: State, steps: seq<Step>)
    requires NonNegative(c) && c.minInstances <= s.current <= c.maxInstances
    ensures c.minInstances <= Run(c, s, steps).current <= c.maxInstances
  {
    if |steps| > 0 {
      CountStaysInRange(c, s, steps[..|steps| - 1]);
      var before, step := Run(c, s, steps[..|steps| - 1]), steps[|steps| - 1];
      hide Votes, Decided;
      if step.Decide? {
        DecidedInBounds(c, before.current, Votes(c.rules, before.cooldowns, step.metrics, step.now), step.now);
      }
    }
  }

  lemma LastOfStep<T>(s: seq<T>, x: T, n: nat)
    requires n > 0
    ensures LastOf(LastOf(s, n) + [x], n) == LastOf(s + [x], n)
  {
  }

  /** The history is exactly the last hundred decisions. */
  lemma {:induction false} HistoryIsLastHundred(c: Config, s: State, steps: seq<Step>)
    requires s.history == LastOf(s.decided, 100)
    ensures Run(c, s, steps).history == LastOf(Run(c, s, steps).decided, 100)
  {
    if |steps| > 0 {
      HistoryIsLastHundred(c, s, steps[..|steps| - 1]);
      var before, step := Run(c, s, steps[..|steps| - 1]), steps[|steps| - 1];
      hide Votes, Decided, LastOf;
      if Enabled(before, step) && step.Decide? {
        var d := Decided(c, before.current, Votes(c.rules, before.cooldowns, step.metrics, step.now), step.now);
        LastOfStep(before.decided, d, HISTORY);
      }
    }
  }

  // ----- the global cooldown -----

  predicate Spaced(times: seq<int>, gap: int) {
    forall i :: 0 < i < |times| ==> times[i] - times[i - 1] >= gap
  }

  /** A waiting evaluation found the last action at least one cooldown ago. */
  predicate Cooled(c: Config, s: State) {
    var times := ActionTimes(s.decided);
    && Spaced(times, c.scalingCooldown) && s.pending <= 1
    && s.last == (if |times| == 0 then None else Some(times[|times| - 1]))
    && (s.pending == 1 ==> !InCooldown(s.last, c.scalingCooldown, s.clock))
  }

  lemma DecideKeepsCooled(c: Config, s: State, step: Step)
    requires Cooled(c, s) && step.Decide? && Enabled(s, step)
    ensures Cooled(c, Next(c, s, step))
  {
    VotesNeedRules(c, s.cooldowns, step.metrics, step.now);
    hide Votes, Decided, LastOf;
    var d := Decided(c, s.current, Votes(c.rules, s.cooldowns, step.metrics, step.now), step.now);
    OneMoreTime(s.decided, d);
    assert d.timestamp == step.now by {
      DecidedNow(c, s.current, Votes(c.rules, s.cooldowns, step.metrics, step.now), step.now);
    }
    hide ActionTimes;
  }

  lemma DecidedNow(c: Config, current: int, t: Tally, now: int)
    requires t.up != t.down ==> |c.rules| > 0
    ensures Decided(c, current, t, now).timestamp == now
  {
  }

  lemma {:induction false} SerialRunIsCooled(c: Config, s: State, steps: seq<Step>)
    requires Cooled(c, s) && Serial(c, s, steps)
    ensures Cooled(c, Run(c, s, steps))
  {
    if |steps| > 0 {
      SerialRunIsCooled(c, s, steps[..|steps| - 1]);
      var before, step := Run(c, s, steps[..|steps| - 1]), steps[|steps| - 1];
      hide Votes, Decided, LastOf, ActionTimes;
      if Enabled(before, step) && step.Decide? { DecideKeepsCooled(c, before, step); }
    }
  }

  lemma {:induction false} SpacedApart(times: seq<int>, gap: int, i: nat, j: nat)
    requires Spaced(times, gap) && i <= j < |times|
    ensures times[j] - times[i] >= (j - i) * gap
    decreases j
  {
    if i < j { SpacedApart(times, gap, i, j - 1); }
  }

  /** On a serial run of a new scaler, actions are at least one cooldown apart; so `n` actions within a time `length`
      have (n - 1) cooldowns between them. */
  lemma ActionsAreSpaced(c: Config, initial: int, start: int, steps: seq<Step>, i: nat, j: nat, length: int)
    requires var s := State(initial, None, map[], [], 0, [], start);
             && Serial(c, s, steps) && i <= j < |ActionTimes(Run(c, s, steps).decided)|
             && ActionTimes(Run(c, s, steps).decided)[j] - ActionTimes(Run(c, s, steps).decided)[i] <= length
    ensures Spaced(ActionTimes(Run(c, State(initial, None, map[], [], 0, [], start), steps).decided), c.scalingCooldown)
    ensures (j - i) * c.scalingCooldown <= length
  {
    var s := State(initial, None, map[], [], 0, [], start);
    assert ActionTimes([]) == [];
    SerialRunIsCooled(c, s, steps);
    SpacedApart(ActionTimes(Run(c, s, steps).decided), c.scalingCooldown, i, j);
  }

  // ----- when overlapping evaluations break it -----

  /** The new decision of an evaluation that ends. */
  function DecisionOf(c: Config, s: State, step: Step): Decision
    requires step.Decide?
  {
    Decided(c, s.current, Votes(c.rules, s.cooldowns, step.metrics, step.now), step.now)
  }

  /** An evaluation that ends keeps to the cooldown: it finds the last action long enough ago, or it does not act. */
  predicate KeepsCooldown(c: Config, s: State, step: Step) {
    step.Decide? && Enabled(s, step) && !DecisionOf(c, s, step).action.NoAction?
    ==> !InCooldown(s.last, c.scalingCooldown, step.now)
  }

  /** `lastScalingAction` is the time of the last action. */
  predicate LastIsLatest(s: State) {
    var times := ActionTimes(s.decided);
    s.last == if |times| == 0 then None else Some(times[|times| - 1])
  }

  function StepOrSkip(c: Config, s: State, step: Step): State {
    if Enabled(s, step) then Next(c, s, step) else s
  }

  /** One step keeps the actions spaced exactly when it keeps to the cooldown; the check before the metrics were
      collected decides nothing by itself. */
  lemma StepKeepsSpacedIff(c: Config, s: State, step: Step)
    requires LastIsLatest(s) && Spaced(ActionTimes(s.decided), c.scalingCooldown)
    ensures LastIsLatest(StepOrSkip(c, s, step))
    ensures Spaced(ActionTimes(StepOrSkip(c, s, step).decided), c.scalingCooldown) <==> KeepsCooldown(c, s, step)
  {
    if step.Decide? && Enabled(s, step) {
      VotesNeedRules(c, s.cooldowns, step.metrics, step.now);
      DecidedNow(c, s.current, Votes(c.rules, s.cooldowns, step.metrics, step.now), step.now);
      hide Votes, Decided, LastOf;
      var d := DecisionOf(c, s, step);
      OneMoreTime(s.decided, d);
      hide ActionTimes;
      var times := ActionTimes(s.decided);
      if !d.action.NoAction? && |times| > 0 {
        var more := times + [d.timestamp];
        assert forall i :: 0 < i < |times| ==> more[i] - more[i - 1] == times[i] - times[i - 1];
        assert more[|times|] - more[|times| - 1] == step.now - s.last.value;
      }
    }
  }

  predicate AllKeepCooldown(c: Config, s: State, steps: seq<Step>) {
    |steps| > 0 ==>
      && AllKeepCooldown(c, s, steps[..|steps| - 1])
      && KeepsCooldown(c, Run(c, s, steps[..|steps| - 1]), steps[|steps| - 1])
  }

  lemma SpacedPrefix(decided: seq<Decision>, d: Decision, gap: int)
    requires Spaced(ActionTimes(decided + [d]), gap)
    ensures Spaced(ActionTimes(decided), gap)
  {
    OneMoreTime(decided, d);
    hide ActionTimes;
    var times, more := ActionTimes(decided), ActionTimes(decided + [d]);
    assert forall i :: 0 <= i < |times| ==> more[i] == times[i];
  }

  lemma SpacedBefore(c: Config, s: State, step: Step)
    requires Spaced(ActionTimes(StepOrSkip(c, s, step).decided), c.scalingCooldown)
    ensures Spaced(ActionTimes(s.decided), c.scalingCooldown)
  {
    hide Votes, LastOf, ActionTimes, Spaced;
    if step.Decide? && Enabled(s, step) {
      SpacedPrefix(s.decided, DecisionOf(c, s, step), c.scalingCooldown);
    }
  }

  lemma {:induction false} SpacedIff(c: Config, s: State, steps: seq<Step>)
    requires LastIsLatest(s) && Spaced(ActionTimes(s.decided), c.scalingCooldown)
    ensures Spaced(ActionTimes(Run(c, s, steps).decided), c.scalingCooldown) <==> AllKeepCooldown(c, s, steps)
    ensures AllKeepCooldown(c, s, steps) ==> LastIsLatest(Run(c, s, steps))
  {
    if |steps| > 0 {
      var p, step := steps[..|steps| - 1], steps[|steps| - 1];
      SpacedIff(c, s, p);
      hide Votes, LastOf, ActionTimes, Spaced, KeepsCooldown, LastIsLatest, Next;
      var before := Run(c, s, p);
      assert Run(c, s, steps) == StepOrSkip(c, before, step);
      if Spaced(ActionTimes(StepOrSkip(c, before, step).decided), c.scalingCooldown) {
        SpacedBefore(c, before, step);
      }
      if AllKeepCooldown(c, s, p) {
        StepKeepsSpacedIff(c, before, step);
      }
    }
  }

  /** On every run of a new scaler, overlapping or not: the actions are one cooldown apart exactly when every evaluation
      that acted still found the last action that long ago at its end. */
  lemma ActionsSpacedIff(c: Config, initial: int, start: int, steps: seq<Step>)
    ensures var s := State(initial, None, map[], [], 0, [], start);
            Spaced(ActionTimes(Run(c, s, steps).decided), c.scalingCooldown) <==> AllKeepCooldown(c, s, steps)
  {
    assert ActionTimes([]) == [];
    SpacedIff(c, State(initial, None, map[], [], 0, [], start), steps);
  }

  const ONE_RULE := Rule("cpu", 80.0, 20.0, 1, 1, 0)
  const EXAMPLE := Config(1, 10, [ONE_RULE], 60000)

  /** When collecting the metrics takes longer than the check interval, two evaluations overlap: both have passed the
      cooldown check, and the second scales up one millisecond after the first. */
  lemma OverlapIgnoresCooldown(start: int, metrics: Metrics)
    requires metrics("cpu") == 100.0 && start > 0
    ensures var s := State(1, None, map[], [], 0, [], start);
            var waiting := Next(EXAMPLE, Next(EXAMPLE, s, Check(start)), Check(start));
            var end := Next(EXAMPLE, Next(EXAMPLE, waiting, Decide(start, metrics)), Decide(start + 1, metrics));
            && end.decided == [Decision(start, ScaleUp, 1, 2), Decision(start + 1, ScaleUp, 2, 3)]
            && !Spaced(ActionTimes(end.decided), EXAMPLE.scalingCooldown)
  {
    hide LastOf;
    var s := State(1, None, map[], [], 0, [], start);
    var waiting := Next(EXAMPLE, Next(EXAMPLE, s, Check(start)), Check(start));
    OneVote(map[], metrics, start);
    var one := Next(EXAMPLE, waiting, Decide(start, metrics));
    OneVote(one.cooldowns, metrics, start + 1);
    hide Votes;
    var end := Next(EXAMPLE, one, Decide(start + 1, metrics));
    assert one.decided == [] + [Decision(start, ScaleUp, 1, 2)];
    assert end.decided == one.decided + [Decision(start + 1, ScaleUp, 2, 3)];
    OneMoreTime([], Decision(start, ScaleUp, 1, 2));
    OneMoreTime(one.decided, Decision(start + 1, ScaleUp, 2, 3));
    hide ActionTimes;
    assert ActionTimes(end.decided)[1] - ActionTimes(end.decided)[0] == 1;
  }

  lemma OneMoreTime(ds: seq<Decision>, d: Decision)
    ensures ActionTimes(ds + [d]) == ActionTimes(ds) + (if d.action.NoAction? then [] else [d.timestamp])
    ensures ActionTimes([]) == []
  {
    assert (ds + [d])[..|ds|] == ds;
  }

  lemma OneVote(cooldowns: map<string, int>, metrics: Metrics, now: int)
    requires metrics("cpu") == 100.0 && (if "cpu" in cooldowns then cooldowns["cpu"] <= now else now > 0)
    ensures Votes([ONE_RULE], cooldowns, metrics, now) == Tally(1, 0, cooldowns["cpu" := now])
  {
    assert [ONE_RULE][..0] == [];
    assert Votes([ONE_RULE][..0], cooldowns, metrics, now) == Tally(0, 0, cooldowns);
    assert !Cooling(cooldowns, ONE_RULE, now);
  }

  // ----- which configurations overlapping evaluations can break -----

  /** A value at which every rule votes up. */
  function HighValue(rules: seq<Rule>): (v: real)
    ensures forall i :: 0 <= i < |rules| ==> v >= rules[i].scaleUpThreshold
  {
    if |rules| == 0 then 0.0
    else
      var v, last := HighValue(rules[..|rules| - 1]), rules[|rules| - 1].scaleUpThreshold;
      if v >= last then v else last
  }

  /** A value at which every rule votes down. */
  function LowValue(rules: seq<Rule>): (v: real)
    ensures forall i :: 0 <= i < |rules| ==> v < rules[i].scaleUpThreshold && v <= rules[i].scaleDownThreshold
  {
    if |rules| == 0 then 0.0
    else
      var v, last := LowValue(rules[..|rules| - 1]), rules[|rules| - 1];
      var low := if last.scaleDownThreshold < last.scaleUpThreshold then last.scaleDownThreshold
                 else last.scaleUpThreshold - 1.0;
      if v <= low then v else low
  }

  /** At such values all votes go one way; there is one as soon as a rule is not cooling; and a metric's cooldown
      starts now or stays as it was. */
  lemma {:induction false} OneSidedVotes(rules: seq<Rule>, cooldowns: map<string, int>, value: real, up: bool, now: int)
    requires forall i :: 0 <= i < |rules| ==>
               if up then value >= rules[i].scaleUpThreshold
               else value < rules[i].scaleUpThreshold && value <= rules[i].scaleDownThreshold
    ensures var t := Votes(rules, cooldowns, _ => value, now);
            && (if up then t.down == 0 else t.up == 0)
            && (t.up + t.down == 0 ==> t.cooldowns == cooldowns)
            && ((exists i :: 0 <= i < |rules| && !Cooling(cooldowns, rules[i], now)) ==> t.up + t.down > 0)
            && forall m :: LastVote(t.cooldowns, m) == now || LastVote(t.cooldowns, m) == LastVote(cooldowns, m)
  {
    if |rules| > 0 {
      var p := rules[..|rules| - 1];
      OneSidedVotes(p, cooldowns, value, up, now);
      var before := Votes(p, cooldowns, _ => value, now);
      assert Votes(rules, cooldowns, _ => value, now) == VoteOf(before, rules[|p|], _ => value, now);
      if before.up + before.down == 0 {
        forall i | 0 <= i < |p| ensures Cooling(cooldowns, rules[i], now) {
          assert p[i] == rules[i];
        }
      }
      hide Votes;
    }
  }

  /** The scaler can act in that direction, and a rule cools down more quickly than the scaler. */
  ghost predicate HasQuickRule(c: Config, i: nat, up: bool) {
    && c.minInstances < c.maxInstances && i < |c.rules| && c.rules[i].cooldownPeriod < c.scalingCooldown
    && c.scalingCooldown > 0 && (if up then MaxIncrement(c.rules) > 0 else MinDecrement(c.rules) > 0)
  }

  function OneSided(c: Config, up: bool): real {
    if up then HighValue(c.rules) else LowValue(c.rules)
  }

  /** At such values a rule that is not cooling makes the scaler act, from the far end of the range. */
  lemma ActsFromEnd(c: Config, s: State, i: nat, up: bool, now: int)
    requires HasQuickRule(c, i, up) && s.current == (if up then c.minInstances else c.maxInstances)
    requires Enabled(s, Decide(now, _ => OneSided(c, up))) && !Cooling(s.cooldowns, c.rules[i], now)
    ensures var t := Next(c, s, Decide(now, _ => OneSided(c, up)));
            && t.last == Some(now) && t.pending == s.pending - 1 && t.clock == now
            && ActionTimes(t.decided) == ActionTimes(s.decided) + [now]
            && forall m :: LastVote(t.cooldowns, m) == now || LastVote(t.cooldowns, m) == LastVote(s.cooldowns, m)
  {
    OneSidedVotes(c.rules, s.cooldowns, OneSided(c, up), up, now);
    hide Votes, MaxIncrement, MinDecrement, HighValue, LowValue, LastOf, OneSided;
    var d := Decided(c, s.current, Votes(c.rules, s.cooldowns, _ => OneSided(c, up), now), now);
    OneMoreTime(s.decided, d);
    hide ActionTimes;
  }

  lemma RunMore(c: Config, s: State, steps: seq<Step>, step: Step)
    ensures Run(c, s, steps + [step]) == StepOrSkip(c, Run(c, s, steps), step)
  {
    assert (steps + [step])[..|steps|] == steps;
  }

  lemma RunOfFour(c: Config, s: State, before: seq<Step>, w: Step, x: Step, y: Step, z: Step)
    ensures Run(c, s, before + [w, x, y, z])
            == StepOrSkip(c, StepOrSkip(c, StepOrSkip(c, StepOrSkip(c, Run(c, s, before), w), x), y), z)
  {
    hide StepOrSkip, Run;
    assert before + [w, x, y, z] == before + [w] + [x] + [y] + [z];
    RunMore(c, s, before + [w] + [x] + [y], z);
    RunMore(c, s, before + [w] + [x], y);
    RunMore(c, s, before + [w], x);
    RunMore(c, s, before, w);
  }

  /** After the two checks: both evaluations act. */
  lemma BothAct(c: Config, s: State, i: nat, up: bool, first: int, second: int)
    requires HasQuickRule(c, i, up) && s.pending == 2 && s.clock == first <= second && s.cooldowns == map[]
    requires first >= c.rules[i].cooldownPeriod && second >= c.rules[i].cooldownPeriod
    requires second - first >= c.rules[i].cooldownPeriod
    ensures var count := if up then c.minInstances else c.maxInstances;
            var metrics := _ => OneSided(c, up);
            var t := StepOrSkip(c, StepOrSkip(c, s, SetCount(count)), Decide(first, metrics));
            ActionTimes(StepOrSkip(c, StepOrSkip(c, t, SetCount(count)), Decide(second, metrics)).decided)
            == ActionTimes(s.decided) + [first] + [second]
  {
    var count := if up then c.minInstances else c.maxInstances;
    var metrics := _ => OneSided(c, up);
    var s3 := s.(current := count);
    assert StepOrSkip(c, s, SetCount(count)) == s3;
    ActsFromEnd(c, s3, i, up, first);
    var s4 := Next(c, s3, Decide(first, metrics));
    hide OneSided, Votes, MaxIncrement, MinDecrement, ActionTimes, Decided, LastOf;
    var s5 := s4.(current := count);
    assert StepOrSkip(c, s4, SetCount(count)) == s5;
    assert LastVote(s5.cooldowns, c.rules[i].metric) == first || LastVote(s5.cooldowns, c.rules[i].metric) == 0;
    ActsFromEnd(c, s5, i, up, second);
  }

  /** With such a rule, whatever the other rules: some run has two actions less than one cooldown apart. */
  lemma QuickRuleBreaks(c: Config, i: nat, up: bool, initial: int, start: int) returns (steps: seq<Step>)
    requires HasQuickRule(c, i, up)
    ensures var s := State(initial, None, map[], [], 0, [], start);
            !Spaced(ActionTimes(Run(c, s, steps).decided), c.scalingCooldown)
  {
    var period := if c.rules[i].cooldownPeriod > 0 then c.rules[i].cooldownPeriod else 0;
    var first := if start > period then start else period;
    var second := first + period;
    var count := if up then c.minInstances else c.maxInstances;
    var metrics := _ => OneSided(c, up);
    var s := State(initial, None, map[], [], 0, [], start);
    var checks := [Check(first), Check(first)];
    steps := checks + [SetCount(count), Decide(first, metrics), SetCount(count), Decide(second, metrics)];
    TwoChecks(c, s, first);
    RunOfFour(c, s, checks, SetCount(count), Decide(first, metrics), SetCount(count), Decide(second, metrics));
    BothAct(c, State(initial, None, map[], [], 2, [], first), i, up, first, second);
    NoActions();
    hide Run, StepOrSkip, ActionTimes, OneSided;
    var times := ActionTimes(Run(c, s, steps).decided);
    assert times == [] + [first] + [second];
    assert times[1] - times[0] == period;
  }

  lemma NoActions()
    ensures ActionTimes([]) == []
  {
  }

  lemma TwoChecks(c: Config, s: State, first: int)
    requires s.last == None && s.clock <= first
    ensures Run(c, s, [Check(first), Check(first)]) == s.(pending := s.pending + 2, clock := first)
  {
    assert [Check(first), Check(first)] == [] + [Check(first)] + [Check(first)];
    RunMore(c, s, [], Check(first));
    RunMore(c, s, [] + [Check(first)], Check(first));
    assert Run(c, s, []) == s;
  }

  // ----- and which they cannot -----

  predicate OneMetric(c: Config, metric: string) {
    forall i :: 0 <= i < |c.rules| ==> c.rules[i].metric == metric
  }

  /** With one metric, a vote means that some rule waited its period since the last vote. */
  lemma {:induction false} VotesOfOneMetric(rules: seq<Rule>, cooldowns: map<string, int>, metrics: Metrics, now: int,
                                            metric: string)
    requires forall i :: 0 <= i < |rules| ==> rules[i].metric == metric
    ensures var t := Votes(rules, cooldowns, metrics, now);
            if t.up + t.down == 0 then t.cooldowns == cooldowns
            else LastVote(t.cooldowns, metric) == now
                 && exists i :: 0 <= i < |rules| && !Cooling(cooldowns, rules[i], now)
  {
    if |rules| > 0 {
      var p := rules[..|rules| - 1];
      VotesOfOneMetric(p, cooldowns, metrics, now, metric);
      var before := Votes(p, cooldowns, metrics, now);
      assert Votes(rules, cooldowns, metrics, now) == VoteOf(before, rules[|p|], metrics, now);
      if before.up + before.down > 0 {
        var i :| 0 <= i < |p| && !Cooling(cooldowns, p[i], now);
        assert !Cooling(cooldowns, rules[i], now);
      }
      hide Votes;
    }
  }

  /** The last action is no later than the clock, nor than the last vote. */
  predicate VotedSince(s: State, metric: string) {
    s.last.Some? ==> s.last.value <= s.clock && s.last.value <= LastVote(s.cooldowns, metric)
  }

  /** Nothing can be done, or every rule cools down at least as long as the scaler. */
  predicate CannotBreak(c: Config) {
    || c.scalingCooldown <= 0 || c.minInstances == c.maxInstances || |c.rules| == 0
    || (MaxIncrement(c.rules) == 0 && MinDecrement(c.rules) == 0)
    || forall i :: 0 <= i < |c.rules| ==> c.rules[i].cooldownPeriod >= c.scalingCooldown
  }

  lemma StepKeepsVoted(c: Config, s: State, step: Step, metric: string)
    requires OneMetric(c, metric) && VotedSince(s, metric)
    ensures VotedSince(StepOrSkip(c, s, step), metric)
  {
    if Enabled(s, step) && step.Decide? {
      VotesOfOneMetric(c.rules, s.cooldowns, step.metrics, step.now, metric);
      hide Votes, LastOf, MaxIncrement, MinDecrement;
    }
  }

  lemma StepCannotBreak(c: Config, s: State, step: Step, metric: string)
    requires OneMetric(c, metric) && VotedSince(s, metric) && CannotBreak(c) && NonNegative(c)
    requires c.minInstances <= s.current <= c.maxInstances
    ensures KeepsCooldown(c, s, step)
  {
    if Enabled(s, step) && step.Decide? {
      VotesOfOneMetric(c.rules, s.cooldowns, step.metrics, step.now, metric);
      hide Votes, LastOf;
      if |c.rules| > 0 {
        ActionIff(c, s.current, Votes(c.rules, s.cooldowns, step.metrics, step.now), step.now);
      }
    }
  }

  lemma {:induction false} RunCannotBreak(c: Config, s: State, steps: seq<Step>, metric: string)
    requires OneMetric(c, metric) && VotedSince(s, metric) && CannotBreak(c) && NonNegative(c)
    requires c.minInstances <= s.current <= c.maxInstances
    ensures AllKeepCooldown(c, s, steps) && VotedSince(Run(c, s, steps), metric)
  {
    hide VotedSince, CannotBreak, KeepsCooldown, OneMetric, NonNegative;
    if |steps| > 0 {
      var p, step := steps[..|steps| - 1], steps[|steps| - 1];
      RunCannotBreak(c, s, p, metric);
      CountStaysInRange(c, s, p);
      StepKeepsVoted(c, Run(c, s, p), step, metric);
      StepCannotBreak(c, Run(c, s, p), step, metric);
    }
  }

  ghost predicate SomeRunBreaks(c: Config, initial: int, start: int) {
    exists steps ::
      !Spaced(ActionTimes(Run(c, State(initial, None, map[], [], 0, [], start), steps).decided), c.scalingCooldown)
  }

  /** For rules of one metric: some run has actions less than one cooldown apart exactly when the scaler can act at
      all and a rule cools down more quickly than the scaler. */
  lemma SomeRunBreaksIff(c: Config, metric: string, initial: int, start: int)
    requires OneMetric(c, metric) && NonNegative(c) && c.minInstances <= initial <= c.maxInstances
    ensures SomeRunBreaks(c, initial, start) <==> !CannotBreak(c)
  {
    var s := State(initial, None, map[], [], 0, [], start);
    if CannotBreak(c) {
      forall steps ensures Spaced(ActionTimes(Run(c, s, steps).decided), c.scalingCooldown) {
        RunCannotBreak(c, s, steps, metric);
        ActionsSpacedIff(c, initial, start, steps);
      }
    } else {
      var i: nat :| i < |c.rules| && c.rules[i].cooldownPeriod < c.scalingCooldown;
      var steps := QuickRuleBreaks(c, i, MaxIncrement(c.rules) > 0, initial, start);
    }
  }
}
