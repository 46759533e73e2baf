/** Health checks with hysteresis: streak counters, flags and the events of a transition. */
module HealthChecker {

  datatype HealthCheckConfig = HealthCheckConfig(unhealthyThreshold: int, healthyThreshold: int)

  /** A service's status; the dates of the last checks are not kept. */
  datatype Status = Status(healthy: bool, consecutiveFailures: nat, consecutiveSuccesses: nat)

  datatype HealthEvent = ServiceHealthy | ServiceUnhealthy | CriticalFailure

  const REGISTERED: Status := Status(true, 0, 0)

  /** The services whose failure is critical. */
  predicate IsCritical(service: string) {
    service == "bot" || service == "database" || service == "redis"
  }

  /** The new status and the events, in order, after one check result. */
  function Updated(s: Status, ok: bool, config: HealthCheckConfig, critical: bool): (Status, seq<HealthEvent>) {
    if ok then
      var successes := s.consecutiveSuccesses + 1;
      if !s.healthy && successes >= config.healthyThreshold
      then (Status(true, 0, successes), [ServiceHealthy])
      else (Status(s.healthy, 0, successes), [])
    else
      var failures := s.consecutiveFailures + 1;
      if s.healthy && failures >= config.unhealthyThreshold
      then (Status(false, failures, 0), if critical then [ServiceUnhealthy, CriticalFailure] else [ServiceUnhealthy])
      else (Status(s.healthy, failures, 0), [])
  }

  class Checker {
    const config: HealthCheckConfig
    var serviceStatus: map<string, Status>
    var runningChecks: set<string>

    constructor (config: HealthCheckConfig)
      ensures this.config == config && serviceStatus == map[] && runningChecks == {}
    {
      this.config, serviceStatus, runningChecks := config, map[], {};
    }

    method RegisterService(service: string)
      modifies this`serviceStatus
      ensures serviceStatus == if service in old(serviceStatus) then old(serviceStatus)
                               else old(serviceStatus)[service := REGISTERED]
    {
      if service in serviceStatus {
        return;
      }
      serviceStatus := serviceStatus[service := Status(true, 0, 0)];
    }

    method UnregisterService(service: string)
      modifies this`serviceStatus
      ensures serviceStatus == old(serviceStatus) - {service}
    {
      serviceStatus := serviceStatus - {service};
    }

    /** `updateServiceHealth`; the emitted events are returned in order. */
    method UpdateServiceHealth(service: string, isHealthy: bool) returns (events: seq<HealthEvent>)
      modifies this`serviceStatus
      ensures service !in old(serviceStatus) ==> events == [] && serviceStatus == old(serviceStatus)
      ensures service in old(serviceStatus) ==>
                var (status, expected) := Updated(old(serviceStatus)[service], isHealthy, config, IsCritical(service));
                events == expected && serviceStatus == old(serviceStatus)[service := status]
      ensures CriticalFailure in events <==>
                ServiceUnhealthy in events && (service == "bot" || service == "database" || service == "redis")
    {
      events := [];
      if service !in serviceStatus {
        return;
      }
      var status := serviceStatus[service];
      if isHealthy {
        status := status.(consecutiveSuccesses := status.consecutiveSuccesses + 1, consecutiveFailures := 0);
        if !status.healthy && status.consecutiveSuccesses >= config.healthyThreshold {
          status := status.(healthy := true);
          events := events + [ServiceHealthy];
        }
      } else {
        status := status.(consecutiveFailures := status.consecutiveFailures + 1, consecutiveSuccesses := 0);
        if status.healthy && status.consecutiveFailures >= config.unhealthyThreshold {
          status := status.(healthy := false);
          events := events + [ServiceUnhealthy];
          if IsCritical(service) {
            events := events + [CriticalFailure];
          }
        }
      }
      serviceStatus := serviceStatus[service := status];
    }

    /** `checkServiceHealth` up to its `await`: a check that is already running answers false at once. */
    method BeginCheck(service: string) returns (started: bool)
      modifies this`runningChecks
      ensures started == (service !in old(runningChecks)) && runningChecks == old(runningChecks) + {service}
    {
      started := service !in runningChecks;
      runningChecks := runningChecks + {service};
    }

    /** The rest of `checkServiceHealth`, with the result of the probe. */
    method FinishCheck(service: string, isHealthy: bool) returns (events: seq<HealthEvent>)
      modifies this
      ensures runningChecks == old(runningChecks) - {service}
      ensures service !in old(serviceStatus) ==> events == [] && serviceStatus == old(serviceStatus)
      ensures service in old(serviceStatus) ==>
                var (status, expected) := Updated(old(serviceStatus)[service], isHealthy, config, IsCritical(service));
                events == expected && serviceStatus == old(serviceStatus)[service := status]
      ensures CriticalFailure in events <==>
                ServiceUnhealthy in events && (service == "bot" || service == "database" || service == "redis")
    {
      events := UpdateServiceHealth(service, isHealthy);
      runningChecks := runningChecks - {service};
    }
  }

  // ----- runs of one registered service -----

  function AfterResults(results: seq<bool>, config: HealthCheckConfig, critical: bool): Status {
    if |results| == 0 then REGISTERED
    else Updated(AfterResults(results[..|results| - 1], config, critical), results[|results| - 1], config, critical).0
  }

  function Emitted(results: seq<bool>, config: HealthCheckConfig, critical: bool): seq<HealthEvent> {
    if |results| == 0 then []
    else
      var before := results[..|results| - 1];
      Emitted(before, config, critical)
      + Updated(AfterResults(before, config, critical), results[|results| - 1], config, critical).1
  }

  /** The length of the run of `value` that ends the results. */
  function TrailingRun(results: seq<bool>, value: bool): nat {
    if |results| > 0 && results[|results| - 1] == value then 1 + TrailingRun(results[..|results| - 1], value) else 0
  }

  /** Hysteresis without counters: the verdict is the last value whose run was long enough when it was seen. */
  function HysteresisVerdict(results: seq<bool>, config: HealthCheckConfig): bool {
    if |results| == 0 then true
    else
      var value := results[|results| - 1];
      if TrailingRun(results, value) >= (if value then config.healthyThreshold else config.unhealthyThreshold)
          then value
      else HysteresisVerdict(results[..|results| - 1], config)
  }

  /** The counters are the two trailing runs, so one of them is always 0, and the flag is the hysteresis verdict. */
  lemma {:induction false} StatusIsHysteresis(results: seq<bool>, config: HealthCheckConfig, critical: bool)
    ensures AfterResults(results, config, critical)
            == Status(HysteresisVerdict(results, config), TrailingRun(results, false), TrailingRun(results, true))
    ensures TrailingRun(results, false) == 0 || TrailingRun(results, true) == 0
  {
    if |results| > 0 {
      StatusIsHysteresis(results[..|results| - 1], config, critical);
    }
  }

  /** The transitions alone, without the critical alerts. */
  function Transitions(events: seq<HealthEvent>): seq<HealthEvent> {
    if |events| == 0 then []
    else
      var e := events[|events| - 1];
      Transitions(events[..|events| - 1]) + (if e == CriticalFailure then [] else [e])
  }

  lemma {:induction false} TransitionsAppend(a: seq<HealthEvent>, b: seq<HealthEvent>)
    ensures Transitions(a + b) == Transitions(a) + Transitions(b)
  {
    if |b| == 0 {
      assert a + b == a;
    } else {
      assert (a + b)[..|a + b| - 1] == a + b[..|b| - 1];
      TransitionsAppend(a, b[..|b| - 1]);
    }
  }

  ghost predicate Alternates(events: seq<HealthEvent>) {
    forall i :: 0 <= i < |events| ==> events[i] == if i % 2 == 0 then ServiceUnhealthy else ServiceHealthy
  }

  lemma TransitionsOfStep(s: Status, ok: bool, config: HealthCheckConfig, critical: bool)
    ensures var (next, events) := Updated(s, ok, config, critical);
            Transitions(events) == if next.healthy == s.healthy then []
                                   else [if s.healthy then ServiceUnhealthy else ServiceHealthy]
  {
    assert Transitions([]) == [];
    assert [ServiceHealthy][..0] == [] && [ServiceUnhealthy][..0] == [];
    assert [ServiceUnhealthy, CriticalFailure][..1] == [ServiceUnhealthy];
  }

  lemma AlternatesExtend(events: seq<HealthEvent>, healthy: bool)
    requires Alternates(events) && (healthy <==> |events| % 2 == 0)
    ensures events + [] == events
    ensures var longer := events + [if healthy then ServiceUnhealthy else ServiceHealthy];
            Alternates(longer) && (!healthy <==> |longer| % 2 == 0)
  {
  }

  /** `serviceUnhealthy` and `serviceHealthy` strictly alternate, starting with unhealthy, and their number tells
      the flag. */
  lemma {:induction false} EventsAlternate(results: seq<bool>, config: HealthCheckConfig, critical: bool)
    ensures Alternates(Transitions(Emitted(results, config, critical)))
    ensures AfterResults(results, config, critical).healthy
            <==> |Transitions(Emitted(results, config, critical))| % 2 == 0
  {
    if |results| > 0 {
      var before := results[..|results| - 1];
      var s, ok := AfterResults(before, config, critical), results[|results| - 1];
      assert Emitted(results, config, critical)
          == Emitted(before, config, critical) + Updated(s, ok, config, critical).1;
      EventsAlternate(before, config, critical);
      AlternatesExtend(Transitions(Emitted(before, config, critical)), s.healthy);
      hide Emitted, Transitions, Updated, Alternates;
      TransitionsAppend(Emitted(before, config, critical), Updated(s, ok, config, critical).1);
      TransitionsOfStep(s, ok, config, critical);
    }
  }

  /** A critical alert is emitted right after every unhealthy event of a critical service, and nowhere else. */
  lemma {:induction false} CriticalFollowsUnhealthy(results: seq<bool>, config: HealthCheckConfig, critical: bool,
      i: nat)
    requires i < |Emitted(results, config, critical)|
    ensures var events := Emitted(results, config, critical);
            && (events[i] == CriticalFailure ==> critical && i > 0 && events[i - 1] == ServiceUnhealthy)
            && (critical && events[i] == ServiceUnhealthy ==> i + 1 < |events| && events[i + 1] == CriticalFailure)
  {
    if |results| > 0 {
      var before := results[..|results| - 1];
      if i < |Emitted(before, config, critical)| {
        CriticalFollowsUnhealthy(before, config, critical, i);
      }
    }
  }
}
