/** Restart counting of the failover manager, composed with the health checker over all interleavings. */
module FailoverManager {
  import opened HealthChecker

  datatype FailoverConfig = FailoverConfig(autoRestart: bool, maxRestartAttempts: int)

  /** What the first, synchronous part of an event handler starts. */
  datatype Reaction = Ignored | MaxExceeded | RestartBegun | NotifyOnly

  /** `attempts || 0` for a service. */
  function Attempts(restartAttempts: map<string, nat>, service: string): nat {
    if service in restartAttempts then restartAttempts[service] else 0
  }

  /** The reaction to `serviceUnhealthy` while failover is enabled, by the attempts counted so far. */
  function FailureReaction(attempts: nat, config: FailoverConfig): Reaction {
    if attempts >= config.maxRestartAttempts then MaxExceeded
    else if config.autoRestart then RestartBegun
    else NotifyOnly
  }

  class Manager {
    const config: FailoverConfig
    var enabled: bool
    var isShuttingDown: bool
    var restartAttempts: map<string, nat>

    constructor (config: FailoverConfig, enabled: bool)
      ensures this.config == config && this.enabled == enabled && !isShuttingDown && restartAttempts == map[]
    {
      this.config, this.enabled, isShuttingDown, restartAttempts := config, enabled, false, map[];
    }

    /** The `serviceUnhealthy` handler with `handleServiceFailure`, up to the first `await`. */
    method OnServiceUnhealthy(service: string) returns (reaction: Reaction)
      modifies this`restartAttempts
      ensures reaction == if !enabled || isShuttingDown then Ignored
                          else FailureReaction(Attempts(old(restartAttempts), service), config)
      ensures var attempts := if service in old(restartAttempts) then old(restartAttempts)[service] else 0;
              var acts := enabled && !isShuttingDown;
              && (reaction == RestartBegun <==> acts && attempts < config.maxRestartAttempts && config.autoRestart)
              && (reaction == MaxExceeded <==> acts && attempts >= config.maxRestartAttempts)
              && (reaction == NotifyOnly <==> acts && attempts < config.maxRestartAttempts && !config.autoRestart)
              && restartAttempts == if reaction == RestartBegun then old(restartAttempts)[service := attempts + 1]
                                    else old(restartAttempts)
    {
      if !enabled || isShuttingDown {
        return Ignored;
      }
      var attempts := if service in restartAttempts then restartAttempts[service] else 0;
      if attempts >= config.maxRestartAttempts {
        return MaxExceeded;
      }
      if config.autoRestart {
        BeginRestart(service);
        return RestartBegun;
      }
      return NotifyOnly;
    }

    /** `handleCriticalFailure` once its alert is sent: it looks at no flag but `autoRestart`, and at no maximum. */
    method AfterCriticalAlert(service: string) returns (begun: bool)
      modifies this`restartAttempts
      ensures begun == config.autoRestart
      ensures var attempts := if service in old(restartAttempts) then old(restartAttempts)[service] else 0;
              restartAttempts == if begun then old(restartAttempts)[service := attempts + 1] else old(restartAttempts)
    {
      begun := config.autoRestart;
      if begun {
        BeginRestart(service);
      }
    }

    /** `attemptServiceRestart` up to its first `await`. */
    method BeginRestart(service: string)
      modifies this`restartAttempts
      ensures var attempts := if service in old(restartAttempts) then old(restartAttempts)[service] else 0;
              restartAttempts == old(restartAttempts)[service := attempts + 1]
    {
      var attempts := (if service in restartAttempts then restartAttempts[service] else 0) + 1;
      restartAttempts := restartAttempts[service := attempts];
    }

    /** The `serviceHealthy` handler, and the end of a restart whose check succeeded. */
    method ForgetAttempts(service: string)
      modifies this`restartAttempts
      ensures restartAttempts == old(restartAttempts) - {service}
      ensures Attempts(restartAttempts, service) == 0
    {
      restartAttempts := restartAttempts - {service};
    }

    method Shutdown()
      modifies this`enabled, this`isShuttingDown
      ensures isShuttingDown && !enabled
    {
      isShuttingDown := true;
      enabled := false;
    }
  }

  /** `restartService` throws for the two services that need manual intervention. */
  predicate RestartIsAutomated(service: string) {
    service != "database" && service != "redis"
  }

  // ----- one service in the composed system -----

  datatype Registration = Unregistered | Registered(s: Status)

  datatype Probe = NoProbe | ManualProbe | RestartProbe

  /** `attempts` and `fromCritical` count restarts.  The last five fields count the asynchronous tasks
      suspended at each `await`: critical alerts being sent, restarts in their delay, restarts waiting for the
      service, and restarts whose check succeeded; `checking` tells who runs the one running check. */
  datatype Sys = Sys(
    status: Registration, attempts: nat, fromCritical: nat, enabled: bool, shuttingDown: bool,
    alerts: nat, delayed: nat, waiting: nat, succeeded: nat, checking: Probe)

  datatype Step =
    | Register | Unregister | Enable | Disable | Shutdown
    | PeriodicCheck(ok: bool)
    | AlertSent
    | DelayOver
    | WaitOver
    | ManualCheck
    | ProbeDone(ok: bool)
    | ProbeThrew
    | RestartRecorded

  datatype Setup = Setup(service: string, health: HealthCheckConfig, failover: FailoverConfig)

  const START: Sys := Sys(Unregistered, 0, 0, true, false, 0, 0, 0, 0, NoProbe)

  /** The handlers of the manager run inside `emit`. */
  function Handled(s: Sys, e: HealthEvent, c: Setup): Sys {
    match e
    case ServiceHealthy => s.(attempts := 0, fromCritical := 0)
    case ServiceUnhealthy =>
      if s.enabled && !s.shuttingDown && FailureReaction(s.attempts, c.failover).RestartBegun?
      then s.(attempts := s.attempts + 1, delayed := s.delayed + 1) else s
    case CriticalFailure =>
      if s.enabled && !s.shuttingDown then s.(alerts := s.alerts + 1) else s
  }

  function HandledAll(s: Sys, events: seq<HealthEvent>, c: Setup): Sys {
    if |events| == 0 then s
    else Handled(HandledAll(s, events[..|events| - 1], c), events[|events| - 1], c)
  }

  /** `updateServiceHealth` with all the handlers it triggers. */
  function HealthUpdated(s: Sys, ok: bool, c: Setup): Sys {
    match s.status
    case Unregistered => s
    case Registered(status) =>
      var (next, events) := Updated(status, ok, c.health, IsCritical(c.service));
      HandledAll(s.(status := Registered(next)), events, c)
  }

  predicate Enabled(s: Sys, step: Step) {
    match step
    case AlertSent => s.alerts > 0
    case DelayOver => s.delayed > 0
    case WaitOver => s.waiting > 0
    case ProbeDone(_) => s.checking != NoProbe
    case ProbeThrew => s.checking != NoProbe
    case RestartRecorded => s.succeeded > 0
    case _ => true
  }

  function Next(s: Sys, step: Step, c: Setup): Sys
    requires Enabled(s, step)
  {
    match step
    case Register => if s.status.Unregistered? then s.(status := Registered(REGISTERED)) else s
    case Unregister => s.(status := Unregistered)
    case Enable => s.(enabled := true)
    case Disable => s.(enabled := false)
    case Shutdown => s.(shuttingDown := true, enabled := false)
    case PeriodicCheck(ok) => HealthUpdated(s, ok, c)
    case AlertSent =>
      if c.failover.autoRestart
      then s.(alerts := s.alerts - 1, attempts := s.attempts + 1, fromCritical := s.fromCritical + 1,
              delayed := s.delayed + 1)
      else s.(alerts := s.alerts - 1)
    case DelayOver =>
      if RestartIsAutomated(c.service) then s.(delayed := s.delayed - 1, waiting := s.waiting + 1)
      else s.(delayed := s.delayed - 1)
    case WaitOver =>
      if s.checking == NoProbe then s.(waiting := s.waiting - 1, checking := RestartProbe)
      else s.(waiting := s.waiting - 1)
    case ManualCheck => if s.checking == NoProbe then s.(checking := ManualProbe) else s
    case ProbeDone(ok) =>
      var after := HealthUpdated(s, ok, c);
      if s.checking == RestartProbe && ok then after.(checking := NoProbe, succeeded := after.succeeded + 1)
      else after.(checking := NoProbe)
    case ProbeThrew => s.(checking := NoProbe)
    case RestartRecorded => s.(succeeded := s.succeeded - 1, attempts := 0, fromCritical := 0)
  }

  /** The state after the steps; a step that is not enabled is skipped, which no run has. */
  function After(steps: seq<Step>, c: Setup): Sys {
    if |steps| == 0 then START
    else
      var before := After(steps[..|steps| - 1], c);
      if Enabled(before, steps[|steps| - 1]) then Next(before, steps[|steps| - 1], c) else before
  }

  ghost predicate IsRun(steps: seq<Step>, c: Setup) {
    |steps| > 0 ==>
      && IsRun(steps[..|steps| - 1], c)
      && Enabled(After(steps[..|steps| - 1], c), steps[|steps| - 1])
  }

  /** The maximum, which counts as 0 when it is negative. */
  function Cap(c: Setup): nat {
    if c.failover.maxRestartAttempts > 0 then c.failover.maxRestartAttempts else 0
  }

  // ----- what every step keeps -----

  /** Restarts begun by the ordinary path never exceed the maximum, and only critical services have the other path. */
  ghost predicate CapInv(s: Sys, c: Setup) {
    && s.fromCritical <= s.attempts
    && s.attempts - s.fromCritical <= Cap(c)
    && (!IsCritical(c.service) ==> s.alerts == 0 && s.fromCritical == 0)
  }

  /** The effect of one check result on the counters, handlers included. */
  lemma HealthUpdateEffect(s: Sys, ok: bool, c: Setup)
    requires s.status.Registered?
    ensures var (next, events) := Updated(s.status.s, ok, c.health, IsCritical(c.service));
            var s' := HealthUpdated(s, ok, c);
            && s' == if events == [] then s.(status := Registered(next))
                     else if events == [ServiceHealthy]
                         then s.(status := Registered(next), attempts := 0, fromCritical := 0)
                     else if events == [ServiceUnhealthy]
                       then Handled(s.(status := Registered(next)), ServiceUnhealthy, c)
                     else Handled(Handled(s.(status := Registered(next)), ServiceUnhealthy, c), CriticalFailure, c)
  {
    var (next, events) := Updated(s.status.s, ok, c.health, IsCritical(c.service));
    var base := s.(status := Registered(next));
    assert HandledAll(base, [], c) == base;
    if |events| == 1 {
      assert events[..0] == [];
    } else if |events| == 2 {
      assert events[..1] == [ServiceUnhealthy] && [ServiceUnhealthy][..0] == [];
      assert HandledAll(base, [ServiceUnhealthy], c) == Handled(base, ServiceUnhealthy, c);
    }
  }

  lemma StepKeepsCap(s: Sys, step: Step, c: Setup)
    requires CapInv(s, c) && Enabled(s, step)
    ensures CapInv(Next(s, step, c), c)
  {
    if (step.PeriodicCheck? || step.ProbeDone?) && s.status.Registered? {
      HealthUpdateEffect(s, step.ok, c);
    }
  }

  lemma {:induction false} RunKeepsCap(steps: seq<Step>, c: Setup)
    requires IsRun(steps, c)
    ensures CapInv(After(steps, c), c)
  {
    if |steps| > 0 {
      RunKeepsCap(steps[..|steps| - 1], c);
      StepKeepsCap(After(steps[..|steps| - 1], c), steps[|steps| - 1], c);
    }
  }

  /** Outside the critical list the attempts never exceed the maximum, over all interleavings. */
  lemma AttemptsWithinMaximum(steps: seq<Step>, c: Setup)
    requires IsRun(steps, c) && !IsCritical(c.service)
    ensures After(steps, c).attempts <= Cap(c)
  {
    RunKeepsCap(steps, c);
  }

  /** For every service, the attempts beyond the maximum are restarts begun by the critical path since the last
      reset. */
  lemma ExcessIsCritical(steps: seq<Step>, c: Setup)
    requires IsRun(steps, c)
    ensures After(steps, c).attempts <= Cap(c) + After(steps, c).fromCritical
  {
    RunKeepsCap(steps, c);
  }

  /** For a service outside the critical list and never unregistered: no attempts while healthy, at most one
      otherwise. */
  ghost predicate OutageInv(s: Sys) {
    match s.status
    case Unregistered => s.attempts == 0
    case Registered(status) => s.attempts <= (if status.healthy then 0 else 1)
  }

  lemma StepKeepsOutage(s: Sys, step: Step, c: Setup)
    requires OutageInv(s) && Enabled(s, step) && !step.Unregister? && !IsCritical(c.service) && s.alerts == 0
    ensures OutageInv(Next(s, step, c)) && Next(s, step, c).alerts == 0
  {
    if (step.PeriodicCheck? || step.ProbeDone?) && s.status.Registered? {
      HealthUpdateEffect(s, step.ok, c);
    }
  }

  lemma {:induction false} OneAttemptPerOutage(steps: seq<Step>, c: Setup)
    requires IsRun(steps, c) && !IsCritical(c.service) && Unregister !in steps
    ensures OutageInv(After(steps, c)) && After(steps, c).alerts == 0
  {
    if |steps| > 0 {
      var before := steps[..|steps| - 1];
      assert Unregister !in before;
      OneAttemptPerOutage(before, c);
      StepKeepsOutage(After(before, c), steps[|steps| - 1], c);
    }
  }

  // ----- what failover does about an outage -----

  predicate IsUp(s: Sys) {
    s.status.Registered? && s.status.s.healthy
  }

  predicate IsDown(s: Sys) {
    s.status.Registered? && !s.status.s.healthy
  }

  /** The step that makes a service unhealthy adds one attempt and one delayed restart exactly if failover is on, not
      shutting down and restarts automatically, and the attempts are below the maximum; and one critical alert exactly
      for a critical service while failover is on. */
  lemma OutageEffect(s: Sys, step: Step, c: Setup)
    requires Enabled(s, step) && IsUp(s) && IsDown(Next(s, step, c))
    ensures var t := Next(s, step, c);
            var acts := s.enabled && !s.shuttingDown;
            var restarts := acts && c.failover.autoRestart && s.attempts < c.failover.maxRestartAttempts;
            && t.attempts == (if restarts then s.attempts + 1 else s.attempts)
            && t.delayed == (if restarts then s.delayed + 1 else s.delayed)
            && t.alerts == (if acts && IsCritical(c.service) then s.alerts + 1 else s.alerts)
  {
    HealthUpdateEffect(s, step.ok, c);
  }

  /** On every run, each outage of a service outside the critical list and never unregistered is answered by exactly one
      restart, its first attempt, exactly if failover is on, restarts automatically and has a positive maximum. */
  lemma OutageIsAnswered(steps: seq<Step>, step: Step, c: Setup)
    requires IsRun(steps, c) && !IsCritical(c.service) && Unregister !in steps
    requires Enabled(After(steps, c), step) && IsUp(After(steps, c)) && IsDown(Next(After(steps, c), step, c))
    ensures var s, t := After(steps, c), Next(After(steps, c), step, c);
            var answers := s.enabled && !s.shuttingDown && c.failover.autoRestart && c.failover.maxRestartAttempts > 0;
            && s.attempts == 0
            && t.attempts == (if answers then 1 else 0)
            && t.delayed == (if answers then s.delayed + 1 else s.delayed)
  {
    OneAttemptPerOutage(steps, c);
    OutageEffect(After(steps, c), step, c);
  }

  // ----- what the critical path breaks -----

  lemma RunExtends(steps: seq<Step>, step: Step, c: Setup)
    requires IsRun(steps, c) && Enabled(After(steps, c), step)
    ensures IsRun(steps + [step], c) && After(steps + [step], c) == Next(After(steps, c), step, c)
  {
    assert (steps + [step])[..|steps|] == steps;
  }

  /** A delayed restart that nothing disturbs: after its delay, its wait and its check the attempts are forgotten if the
      check succeeded; otherwise they stay, and the restart has come to its end either way. */
  lemma RestartComesToItsEnd(steps: seq<Step>, ok: bool, c: Setup) returns (more: seq<Step>)
    requires IsRun(steps, c) && c.service != "database" && c.service != "redis"
    requires After(steps, c).delayed > 0 && After(steps, c).checking == NoProbe && IsDown(After(steps, c))
    ensures IsRun(more, c) && steps <= more
    ensures var s, t := After(steps, c), After(more, c);
            && t.attempts == (if ok then 0 else s.attempts)
            && t.delayed == s.delayed - 1 && t.waiting == s.waiting && t.succeeded == s.succeeded
            && t.checking == NoProbe
  {
    hide IsRun, After, HealthUpdated;
    var s := After(steps, c);
    RunExtends(steps, DelayOver, c);
    RunExtends(steps + [DelayOver], WaitOver, c);
    var probing := steps + [DelayOver] + [WaitOver];
    RunExtends(probing, ProbeDone(ok), c);
    HealthUpdateEffect(After(probing, c), ok, c);
    more := probing + [ProbeDone(ok)];
    if ok {
      RunExtends(more, RestartRecorded, c);
      more := more + [RestartRecorded];
    }
  }

  /** Nothing but the health of the service has to be known to go on. */
  predicate Listening(s: Sys) {
    s.status.Registered? && s.enabled && !s.shuttingDown
  }

  /** Failing checks until the service is unhealthy: a critical service then has one more alert being sent. */
  lemma {:induction false} GoDown(steps: seq<Step>, c: Setup) returns (more: seq<Step>)
    requires IsRun(steps, c) && Listening(After(steps, c)) && After(steps, c).status.s.healthy && IsCritical(c.service)
    ensures IsRun(more, c) && Listening(After(more, c)) && !After(more, c).status.s.healthy
    ensures After(more, c).alerts == After(steps, c).alerts + 1
    decreases c.health.unhealthyThreshold - After(steps, c).status.s.consecutiveFailures
  {
    var s := After(steps, c);
    HealthUpdateEffect(s, false, c);
    RunExtends(steps, PeriodicCheck(false), c);
    hide IsRun, After, HealthUpdated;
    more := steps + [PeriodicCheck(false)];
    if s.status.s.consecutiveFailures + 1 < c.health.unhealthyThreshold {
      more := GoDown(more, c);
    }
  }

  /** Good checks until it is healthy again: the attempts are forgotten, the alerts are not. */
  lemma {:induction false} ComeBack(steps: seq<Step>, c: Setup) returns (more: seq<Step>)
    requires IsRun(steps, c) && Listening(After(steps, c)) && !After(steps, c).status.s.healthy
    ensures IsRun(more, c) && Listening(After(more, c)) && After(more, c).status.s.healthy
    ensures After(more, c).alerts == After(steps, c).alerts
    decreases c.health.healthyThreshold - After(steps, c).status.s.consecutiveSuccesses
  {
    var s := After(steps, c);
    HealthUpdateEffect(s, true, c);
    RunExtends(steps, PeriodicCheck(true), c);
    hide IsRun, After, HealthUpdated;
    more := steps + [PeriodicCheck(true)];
    if s.status.s.consecutiveSuccesses + 1 < c.health.healthyThreshold {
      more := ComeBack(more, c);
    }
  }

  /** A flapping critical service piles up any number of alerts being sent. */
  lemma {:induction false} PileUpAlerts(c: Setup, n: nat) returns (steps: seq<Step>)
    requires IsCritical(c.service)
    ensures IsRun(steps, c) && Listening(After(steps, c)) && After(steps, c).status.s.healthy
            && After(steps, c).alerts == n
  {
    if n == 0 {
      assert IsRun([], c) && After([], c) == START;
      RunExtends([], Register, c);
      steps := [] + [Register];
    } else {
      steps := PileUpAlerts(c, n - 1);
      steps := GoDown(steps, c);
      steps := ComeBack(steps, c);
    }
  }

  /** Each alert that is sent begins a restart, whatever the maximum. */
  lemma {:induction false} SendAlerts(steps: seq<Step>, c: Setup, n: nat) returns (more: seq<Step>)
    requires IsRun(steps, c) && After(steps, c).alerts >= n && c.failover.autoRestart
    ensures IsRun(more, c) && After(more, c).attempts == After(steps, c).attempts + n
    decreases n
  {
    if n == 0 {
      more := steps;
    } else {
      RunExtends(steps, AlertSent, c);
      hide IsRun, After;
      more := SendAlerts(steps + [AlertSent], c, n - 1);
    }
  }

  /** The attempts of a critical service under automatic restart have no bound at all. */
  lemma AttemptsUnbounded(c: Setup, n: nat) returns (steps: seq<Step>)
    requires IsCritical(c.service) && c.failover.autoRestart
    ensures IsRun(steps, c) && After(steps, c).attempts >= n
  {
    steps := PileUpAlerts(c, n);
    hide IsRun, After;
    steps := SendAlerts(steps, c, n);
  }

  /** Without automatic restart nothing is counted. */
  lemma {:induction false} NoRestartNoAttempts(steps: seq<Step>, c: Setup)
    requires IsRun(steps, c) && !c.failover.autoRestart
    ensures After(steps, c).attempts == 0
  {
    if |steps| > 0 {
      var s, step := After(steps[..|steps| - 1], c), steps[|steps| - 1];
      NoRestartNoAttempts(steps[..|steps| - 1], c);
      if (step.PeriodicCheck? || step.ProbeDone?) && s.status.Registered? {
        HealthUpdateEffect(s, step.ok, c);
      }
    }
  }

  ghost predicate StaysWithinMaximum(c: Setup) {
    forall steps :: IsRun(steps, c) ==> After(steps, c).attempts <= Cap(c)
  }

  /** Exactly which setups keep the attempts within the maximum on every run: all but a critical service with automatic
      restart, whatever the thresholds and the maximum. */
  lemma WithinMaximumIff(c: Setup)
    ensures StaysWithinMaximum(c) <==> !IsCritical(c.service) || !c.failover.autoRestart
  {
    if IsCritical(c.service) && c.failover.autoRestart {
      var steps := AttemptsUnbounded(c, Cap(c) + 1);
    } else {
      forall steps | IsRun(steps, c) ensures After(steps, c).attempts <= Cap(c) {
        if IsCritical(c.service) { NoRestartNoAttempts(steps, c); } else { AttemptsWithinMaximum(steps, c); }
      }
    }
  }

  /** The step begins a restart of a service that is healthy afterwards. */
  predicate BeginsWhileHealthy(s: Sys, step: Step, c: Setup) {
    && Enabled(s, step)
    && Next(s, step, c).delayed > s.delayed
    && Next(s, step, c).status.Registered? && Next(s, step, c).status.s.healthy
  }

  /** Exactly one kind of step can do that: an alert sent after the service came back, under automatic restart. */
  lemma BeginsWhileHealthyIff(s: Sys, step: Step, c: Setup)
    requires Enabled(s, step)
    ensures BeginsWhileHealthy(s, step, c)
            <==> step.AlertSent? && c.failover.autoRestart && s.status.Registered? && s.status.s.healthy
  {
    if (step.PeriodicCheck? || step.ProbeDone?) && s.status.Registered? {
      HealthUpdateEffect(s, step.ok, c);
    }
  }

  ghost predicate CanRestartWhileHealthy(c: Setup) {
    exists steps, step :: IsRun(steps, c) && BeginsWhileHealthy(After(steps, c), step, c)
  }

  /** And it can happen exactly under the setups whose attempts have no maximum. */
  lemma RestartsWhileHealthyIff(c: Setup)
    ensures CanRestartWhileHealthy(c) <==> IsCritical(c.service) && c.failover.autoRestart
  {
    if IsCritical(c.service) && c.failover.autoRestart {
      var steps := PileUpAlerts(c, 1);
      BeginsWhileHealthyIff(After(steps, c), AlertSent, c);
    } else {
      forall steps, step | IsRun(steps, c) ensures !BeginsWhileHealthy(After(steps, c), step, c) {
        RunKeepsCap(steps, c);
        if Enabled(After(steps, c), step) { BeginsWhileHealthyIff(After(steps, c), step, c); }
      }
    }
  }
}
