/**
 * `ToolRegistry.call`: authorization, the circuit breaker and the call counters of one tool.
 *
 * A call awaits its handler, so other calls run between its admission and its completion. Both halves
 * are given as steps on the shared runtime; a history lists the steps of all calls in order.
 */
module Breaker {
  import opened Domain

  datatype Spec = Spec(name: string, allowedAgents: set<string>, failureThreshold: int, cooldown: real)

  datatype Runtime = Runtime(
    calls: int, successes: int, failures: int, consecutiveFailures: int, totalLatency: real, openUntil: real)

  const FRESH := Runtime(0, 0, 0, 0, 0.0, 0.0)

  /** `wait_for` returned, raised an `Exception` (a timeout included), or was cancelled. */
  datatype Outcome = Success | Failure | Cancellation

  datatype Refusal = UnknownTool | Forbidden | BadInput | CircuitOpen

  function Admitted(rt: Runtime): Runtime {
    rt.(calls := rt.calls + 1)
  }

  function Completed(spec: Spec, rt: Runtime, outcome: Outcome, now: real, elapsed: real): Runtime {
    var settled := match outcome
      case Success => rt.(successes := rt.successes + 1, consecutiveFailures := 0, openUntil := 0.0)
      case Failure =>
        var run := rt.consecutiveFailures + 1;
        rt.(failures := rt.failures + 1, consecutiveFailures := run,
            openUntil := if run >= spec.failureThreshold then now + spec.cooldown else rt.openUntil)
      case Cancellation => rt;
    settled.(totalLatency := settled.totalLatency + elapsed)
  }

  class ToolRuntime {
    var calls: int
    var successes: int
    var failures: int
    var consecutiveFailures: int
    var totalLatency: real
    var openUntil: real

    function Value(): Runtime
      reads this
    {
      Runtime(calls, successes, failures, consecutiveFailures, totalLatency, openUntil)
    }

    constructor ()
      ensures Value() == FRESH
    {
      calls, successes, failures, consecutiveFailures, totalLatency, openUntil := 0, 0, 0, 0, 0.0, 0.0;
    }
  }

  class ToolRegistry {
    var tools: map<string, Spec>
    var runtime: map<string, ToolRuntime>

    ghost predicate Valid()
      reads this
    {
      && tools.Keys == runtime.Keys
      && forall m, n :: m in runtime && n in runtime && runtime[m] == runtime[n] ==> m == n
    }

    constructor ()
      ensures Valid() && tools == map[]
    {
      tools, runtime := map[], map[];
    }

    method Register(spec: Spec) returns (registered: bool)
      requires Valid()
      modifies this
      ensures Valid() && registered == (spec.name !in old(tools))
      ensures !registered ==> tools == old(tools) && runtime == old(runtime)
      ensures registered ==> tools == old(tools)[spec.name := spec]
      ensures registered ==> spec.name in runtime && runtime == old(runtime)[spec.name := runtime[spec.name]]
      ensures registered ==> fresh(runtime[spec.name]) && runtime[spec.name].Value() == FRESH
    {
      if spec.name in tools { return false; }
      tools := tools[spec.name := spec];
      var rt := new ToolRuntime();
      runtime := runtime[spec.name := rt];
      return true;
    }

    method Authorize(name: string, agent: string) returns (r: Result<Spec, Refusal>)
      ensures name !in tools ==> r == Err(UnknownTool)
      ensures name in tools ==> r == if agent in tools[name].allowedAgents then Ok(tools[name]) else Err(Forbidden)
    {
      if name !in tools { return Err(UnknownTool); }
      if agent !in tools[name].allowedAgents { return Err(Forbidden); }
      return Ok(tools[name]);
    }

    /** The first half of `call`. A refused call of any kind leaves every counter as it was. */
    method Admit(name: string, agent: string, binds: bool, now: real) returns (r: Result<Spec, Refusal>)
      requires Valid()
      modifies runtime.Values
      ensures Valid() && tools == old(tools) && runtime == old(runtime)
      ensures r.Ok? <==>
        name in tools && agent in tools[name].allowedAgents && binds && old(runtime[name].openUntil) <= now
      ensures r.Err? ==> forall n :: n in runtime ==> runtime[n].Value() == old(runtime[n].Value())
      ensures r.Ok? ==> r.value == tools[name] && runtime[name].Value() == Admitted(old(runtime[name].Value()))
      ensures r.Ok? ==> forall n :: n in runtime && n != name ==> runtime[n].Value() == old(runtime[n].Value())
      ensures r == Err(CircuitOpen) <==>
        name in tools && agent in tools[name].allowedAgents && binds && old(runtime[name].openUntil) > now
    {
      r := Authorize(name, agent);
      if r.Err? { return; }
      if !binds { return Err(BadInput); }
      var rt := runtime[name];
      if rt.openUntil > now { return Err(CircuitOpen); }
      rt.calls := rt.calls + 1;
    }

    /** The second half of `call`, when the handler of an admitted call is done. */
    method Complete(name: string, outcome: Outcome, now: real, elapsed: real)
      requires Valid() && name in tools
      modifies runtime[name]
      ensures Valid() && tools == old(tools) && runtime == old(runtime)
      ensures runtime[name].Value() == Completed(tools[name], old(runtime[name].Value()), outcome, now, elapsed)
    {
      var spec, rt := tools[name], runtime[name];
      match outcome {
        case Success =>
          rt.successes := rt.successes + 1;
          rt.consecutiveFailures := 0;
          rt.openUntil := 0.0;
        case Failure =>
          rt.failures := rt.failures + 1;
          rt.consecutiveFailures := rt.consecutiveFailures + 1;
          if rt.consecutiveFailures >= spec.failureThreshold {
            rt.openUntil := now + spec.cooldown;
          }
        case Cancellation =>
      }
      rt.totalLatency := rt.totalLatency + elapsed;
    }
  }

  // ---- histories ----

  /** `Refused` is an attempt on an open circuit, `Rejected` one that is unauthorized or ill-formed. */
  datatype Event =
    | Admission(call: nat, at: real)
    | Completion(call: nat, outcome: Outcome, at: real, elapsed: real)
    | Refused(at: real)
    | Rejected(at: real)

  function Apply(spec: Spec, rt: Runtime, e: Event): Runtime {
    match e
    case Admission(_, _) => Admitted(rt)
    case Completion(_, outcome, at, elapsed) => Completed(spec, rt, outcome, at, elapsed)
    case _ => rt
  }

  /** The runtime after a history. */
  function Replay(spec: Spec, h: seq<Event>): Runtime {
    if h == [] then FRESH else Apply(spec, Replay(spec, h[..|h| - 1]), h[|h| - 1])
  }

  function InFlight(h: seq<Event>): set<nat> {
    if h == [] then {}
    else
      var before := InFlight(h[..|h| - 1]);
      match h[|h| - 1]
      case Admission(call, _) => before + {call}
      case Completion(call, _, _, _) => before - {call}
      case _ => before
  }

  /** The calls ever admitted: each call is admitted at most once. */
  function Calls(h: seq<Event>): set<nat> {
    if h == [] then {}
    else Calls(h[..|h| - 1]) + (if h[|h| - 1].Admission? then {h[|h| - 1].call} else {})
  }

  function Outcomes(h: seq<Event>, outcome: Outcome): nat {
    if h == [] then 0
    else
      var e := h[|h| - 1];
      Outcomes(h[..|h| - 1], outcome) + (if e.Completion? && e.outcome == outcome then 1 else 0)
  }

  /** The failures since the last success. */
  function TrailingFailures(h: seq<Event>): nat {
    if h == [] then 0
    else
      var e := h[|h| - 1];
      if e.Completion? && e.outcome == Success then 0
      else TrailingFailures(h[..|h| - 1]) + (if e.Completion? && e.outcome == Failure then 1 else 0)
  }

  function FailureTimes(h: seq<Event>): (r: seq<real>)
    ensures |r| == Outcomes(h, Failure)
  {
    if h == [] then []
    else
      var e := h[|h| - 1];
      FailureTimes(h[..|h| - 1]) + (if e.Completion? && e.outcome == Failure then [e.at] else [])
  }

  /**
   * What the registry allows: an admission on a closed circuit, a completion of a call in flight, and a
   * clock that never runs back.
   */
  ghost predicate Consistent(spec: Spec, h: seq<Event>) {
    h == [] ||
    (var before, e := h[..|h| - 1], h[|h| - 1];
     && Consistent(spec, before)
     && (before != [] ==> before[|before| - 1].at <= e.at)
     && match e
        case Admission(call, at) => call !in Calls(before) && Replay(spec, before).openUntil <= at
        case Completion(call, _, _, _) => call in InFlight(before)
        case Refused(at) => Replay(spec, before).openUntil > at
        case Rejected(_) => true)
  }

  /** The run of failures has reached the threshold. At least one failure is needed, whatever the threshold. */
  predicate Tripped(spec: Spec, h: seq<Event>) {
    TrailingFailures(h) >= 1 && TrailingFailures(h) >= spec.failureThreshold
  }

  lemma {:induction false} TrailingAreFailures(h: seq<Event>)
    ensures TrailingFailures(h) <= Outcomes(h, Failure)
  {
    if h != [] {
      TrailingAreFailures(h[..|h| - 1]);
    }
  }

  /** The runtime is a function of the history, however the calls overlap and whatever the threshold. */
  lemma {:induction false} StateOfHistory(spec: Spec, h: seq<Event>)
    requires Consistent(spec, h)
    ensures var rt := Replay(spec, h);
      && rt.consecutiveFailures == TrailingFailures(h)
      && TrailingFailures(h) <= |FailureTimes(h)|
      && rt.openUntil == (if Tripped(spec, h) then FailureTimes(h)[|FailureTimes(h)| - 1] + spec.cooldown else 0.0)
      && rt.successes == Outcomes(h, Success) && rt.failures == Outcomes(h, Failure)
  {
    TrailingAreFailures(h);
    if h != [] {
      StateOfHistory(spec, h[..|h| - 1]);
      TrailingAreFailures(h[..|h| - 1]);
    }
  }

  /** Every admitted call is counted, and is a success, a failure, cancelled or still in flight. */
  lemma {:induction false} CallsAreAccountedFor(spec: Spec, h: seq<Event>)
    requires Consistent(spec, h)
    ensures InFlight(h) <= Calls(h)
    ensures Replay(spec, h).calls == |Calls(h)|
    ensures |Calls(h)| == Outcomes(h, Success) + Outcomes(h, Failure) + Outcomes(h, Cancellation) + |InFlight(h)|
  {
    if h != [] {
      var before, e := h[..|h| - 1], h[|h| - 1];
      EventCounts(spec, h);
      hide *;
      CallsAreAccountedFor(spec, before);
      if e.Admission? {
        WithOneMore(Calls(before), e.call);
        WithOneMore(InFlight(before), e.call);
      } else if e.Completion? {
        WithOneMore(InFlight(before) - {e.call}, e.call);
        assert InFlight(before) == (InFlight(before) - {e.call}) + {e.call};
      }
    }
  }

  /** The time spent in completed calls, whatever came of them. */
  function TimeSpent(h: seq<Event>): real {
    if h == [] then 0.0 else (if h[0].Completion? then h[0].elapsed else 0.0) + TimeSpent(h[1..])
  }

  lemma {:induction false} TimeAppend(h: seq<Event>, e: Event)
    ensures TimeSpent(h + [e]) == TimeSpent(h) + if e.Completion? then e.elapsed else 0.0
  {
    if h == [] {
      assert h + [e] == [e] && [e][1..] == [];
    } else {
      assert (h + [e])[1..] == h[1..] + [e];
      TimeAppend(h[1..], e);
    }
  }

  /** The latency of a tool is the time of all its completed calls, cancelled ones included. */
  lemma {:induction false} LatencyIsTimeSpent(spec: Spec, h: seq<Event>)
    ensures Replay(spec, h).totalLatency == TimeSpent(h)
  {
    if h != [] {
      LatencyIsTimeSpent(spec, h[..|h| - 1]);
      TimeAppend(h[..|h| - 1], h[|h| - 1]);
      assert h == h[..|h| - 1] + [h[|h| - 1]];
    }
  }

  lemma WithOneMore(s: set<nat>, x: nat)
    requires x !in s
    ensures |s + {x}| == |s| + 1
  {
  }

  /** What one event does to the counts. */
  lemma EventCounts(spec: Spec, h: seq<Event>)
    requires Consistent(spec, h) && h != []
    ensures var before, e := h[..|h| - 1], h[|h| - 1];
      && Consistent(spec, before)
      && Replay(spec, h).calls == Replay(spec, before).calls + (if e.Admission? then 1 else 0)
      && Calls(h) == Calls(before) + (if e.Admission? then {e.call} else {})
      && InFlight(h) == (if e.Admission? then InFlight(before) + {e.call}
                         else if e.Completion? then InFlight(before) - {e.call} else InFlight(before))
      && (e.Admission? ==> e.call !in Calls(before))
      && (e.Completion? ==> e.call in InFlight(before))
      && Outcomes(h, Success) + Outcomes(h, Failure) + Outcomes(h, Cancellation)
         == Outcomes(before, Success) + Outcomes(before, Failure) + Outcomes(before, Cancellation)
            + (if e.Completion? then 1 else 0)
  {
  }

  /** An attempt is refused exactly while the last failure of a tripping run is less than a cooldown ago. */
  lemma AdmitsIff(spec: Spec, h: seq<Event>, now: real)
    requires Consistent(spec, h) && now >= 0.0
    ensures TrailingFailures(h) <= |FailureTimes(h)|
    ensures Replay(spec, h).openUntil <= now <==>
      !Tripped(spec, h) || FailureTimes(h)[|FailureTimes(h)| - 1] + spec.cooldown <= now
  {
    StateOfHistory(spec, h);
  }

  // ---- an outage ----

  /**
   * From event `n` on no call succeeds and calls do not overlap. At that point nothing is in flight and
   * nothing failed since the last success, whatever happened before.
   */
  ghost predicate OutageFrom(h: seq<Event>, n: nat) {
    n <= |h| &&
    if n == |h| then InFlight(h) == {} && TrailingFailures(h) == 0
    else
      var before, e := h[..|h| - 1], h[|h| - 1];
      && OutageFrom(before, n)
      && (e.Admission? ==> InFlight(before) == {})
      && (e.Completion? ==> e.outcome != Success)
  }

  lemma {:induction false} ConsistentPrefix(spec: Spec, h: seq<Event>, n: nat)
    requires Consistent(spec, h) && n <= |h|
    ensures Consistent(spec, h[..n])
    decreases |h|
  {
    if n < |h| {
      ConsistentPrefix(spec, h[..|h| - 1], n);
      assert h[..|h| - 1][..n] == h[..n];
    } else {
      assert h[..n] == h;
    }
  }

  /** The failures of an outage are one run, on top of the failures before it. */
  lemma {:induction false} OutageIsOneRun(h: seq<Event>, n: nat)
    requires OutageFrom(h, n)
    ensures FailureTimes(h[..n]) <= FailureTimes(h)
    ensures TrailingFailures(h) == |FailureTimes(h)| - |FailureTimes(h[..n])|
    ensures |InFlight(h)| <= 1
    ensures Outcomes(h, Success) == Outcomes(h[..n], Success)
    decreases |h|
  {
    if n < |h| {
      var before, e := h[..|h| - 1], h[|h| - 1];
      OutageIsOneRun(before, n);
      assert before[..n] == h[..n];
      if e.Completion? && e.call in InFlight(before) {
        OnlyMember(InFlight(before), e.call);
      }
    } else {
      assert h[..n] == h;
    }
  }

  lemma OnlyMember(s: set<nat>, x: nat)
    requires x in s && |s| <= 1
    ensures s - {x} == {}
  {
    assert s == (s - {x}) + {x};
  }

  /** While a call of an outage is in flight the circuit is closed: it was admitted, and nothing failed since. */
  lemma {:induction false} InFlightMeansClosed(spec: Spec, h: seq<Event>, n: nat)
    requires Consistent(spec, h) && OutageFrom(h, n) && h != [] && InFlight(h) != {}
    ensures Replay(spec, h).openUntil <= h[|h| - 1].at
    decreases |h|
  {
    var before, e := h[..|h| - 1], h[|h| - 1];
    if n < |h| {
      OutageIsOneRun(before, n);
      if e.Completion? {
        OnlyMember(InFlight(before), e.call);
      } else if !e.Admission? {
        InFlightMeansClosed(spec, before, n);
      }
    }
  }

  /** A failure that follows a tripping run comes a cooldown after the failure before it. */
  lemma NextFailure(spec: Spec, h: seq<Event>, n: nat)
    requires Consistent(spec, h) && OutageFrom(h, n) && n < |h| && h[|h| - 1].Completion?
    requires Tripped(spec, h[..|h| - 1])
    ensures var before := FailureTimes(h[..|h| - 1]);
      before != [] && h[|h| - 1].at >= before[|before| - 1] + spec.cooldown
  {
    var before := h[..|h| - 1];
    StateOfHistory(spec, before);
    InFlightMeansClosed(spec, before, n);
  }

  /** From the tripping failure of an outage on, failures are at least one cooldown apart. */
  lemma {:induction false} FailureSpacing(spec: Spec, h: seq<Event>, n: nat, k: nat)
    requires Consistent(spec, h) && OutageFrom(h, n) && k >= 1 && k >= spec.failureThreshold
    requires |FailureTimes(h[..n])| + k < |FailureTimes(h)|
    ensures var start := |FailureTimes(h[..n])|;
      FailureTimes(h)[start + k] >= FailureTimes(h)[start + k - 1] + spec.cooldown
    decreases |h|
  {
    WholePrefix(h);
    if n < |h| {
      var before, e := h[..|h| - 1], h[|h| - 1];
      PrefixGoesOn(spec, h, n);
      assert FailureTimes(h) == FailureTimes(before) + (if e.Completion? && e.outcome == Failure then [e.at] else []);
      assert TrailingFailures(before) >= spec.failureThreshold && TrailingFailures(before) >= 1 ==>
          Tripped(spec, before);
      hide *;
      OutageIsOneRun(before, n);
      if |FailureTimes(h[..n])| + k < |FailureTimes(before)| {
        FailureSpacing(spec, before, n, k);
      } else {
        NextFailure(spec, h, n);
      }
    }
  }

  lemma WholePrefix(h: seq<Event>)
    ensures h[..|h|] == h
  {
  }

  lemma PrefixGoesOn(spec: Spec, h: seq<Event>, n: nat)
    requires Consistent(spec, h) && OutageFrom(h, n) && n < |h|
    ensures Consistent(spec, h[..|h| - 1]) && OutageFrom(h[..|h| - 1], n)
    ensures h[..|h| - 1][..n] == h[..n]
  {
  }

  /** Failure number threshold + j of an outage comes no earlier than j cooldowns after its tripping failure. */
  lemma {:induction false} FailuresAreSpaced(spec: Spec, h: seq<Event>, n: nat, j: nat)
    requires Consistent(spec, h) && OutageFrom(h, n) && spec.failureThreshold >= 1
    requires |FailureTimes(h[..n])| + spec.failureThreshold + j <= |FailureTimes(h)|
    ensures var tripping := |FailureTimes(h[..n])| + spec.failureThreshold - 1;
      FailureTimes(h)[tripping + j] >= FailureTimes(h)[tripping] + j as real * spec.cooldown
  {
    hide *;
    StartIsIdle(h, n);
    var tripping := |FailureTimes(h[..n])| + spec.failureThreshold - 1;
    if j == 0 {
      assert 0 as real * spec.cooldown == 0.0;
    } else {
      FailuresAreSpaced(spec, h, n, j - 1);
      FailureSpacing(spec, h, n, spec.failureThreshold - 1 + j);
      OneMoreCooldown(FailureTimes(h)[tripping], FailureTimes(h)[tripping + j - 1], FailureTimes(h)[tripping + j], j,
          spec.cooldown);
    }
  }

  lemma OneMoreCooldown(a: real, b: real, c: real, j: nat, cooldown: real)
    requires j > 0 && b >= a + (j - 1) as real * cooldown && c >= b + cooldown
    ensures c >= a + j as real * cooldown
  {
    assert (j - 1) as real * cooldown + cooldown == j as real * cooldown;
  }

  /** The calls of an outage are its failures, the cancelled ones, and at most one in flight. */
  lemma OutageCalls(spec: Spec, h: seq<Event>, n: nat)
    requires Consistent(spec, h) && OutageFrom(h, n)
    ensures Replay(spec, h).calls - Replay(spec, h[..n]).calls
      <= |FailureTimes(h)| - |FailureTimes(h[..n])| + Outcomes(h, Cancellation) - Outcomes(h[..n], Cancellation) + 1
  {
    ConsistentPrefix(spec, h, n);
    StartIsIdle(h, n);
    CallsAreAccountedFor(spec, h);
    CallsAreAccountedFor(spec, h[..n]);
    OutageIsOneRun(h, n);
  }

  lemma {:induction false} StartIsIdle(h: seq<Event>, n: nat)
    requires OutageFrom(h, n)
    ensures n <= |h| && InFlight(h[..n]) == {}
    decreases |h|
  {
    if n < |h| {
      StartIsIdle(h[..|h| - 1], n);
      assert h[..|h| - 1][..n] == h[..n];
    } else {
      assert h[..n] == h;
    }
  }

  /**
   * So an outage that reaches the threshold costs at most the threshold, one call in flight, the cancelled
   * calls, and one call per cooldown elapsed since it tripped the circuit.
   */
  lemma OutageCost(spec: Spec, h: seq<Event>, n: nat)
    requires Consistent(spec, h) && OutageFrom(h, n) && spec.failureThreshold >= 1 && spec.cooldown > 0.0
    requires |FailureTimes(h)| - |FailureTimes(h[..n])| >= spec.failureThreshold
    ensures var tripping := |FailureTimes(h[..n])| + spec.failureThreshold - 1;
      var elapsed := FailureTimes(h)[|FailureTimes(h)| - 1] - FailureTimes(h)[tripping];
      var cancelled := Outcomes(h, Cancellation) - Outcomes(h[..n], Cancellation);
      var calls := Replay(spec, h).calls - Replay(spec, h[..n]).calls;
      calls <= spec.failureThreshold + 1 + cancelled + CooldownsIn(elapsed, spec.cooldown)
  {
    hide *;
    StartIsIdle(h, n);
    var tripping := |FailureTimes(h[..n])| + spec.failureThreshold - 1;
    var j := |FailureTimes(h)| - 1 - tripping;
    OutageCalls(spec, h, n);
    FailuresAreSpaced(spec, h, n, j);
    ManyCooldowns(j, FailureTimes(h)[|FailureTimes(h)| - 1] - FailureTimes(h)[tripping], spec.cooldown);
  }

  /** How many whole cooldowns fit into a time. */
  function CooldownsIn(elapsed: real, cooldown: real): int
    requires cooldown > 0.0
  {
    (elapsed / cooldown).Floor
  }

  lemma ManyCooldowns(j: nat, elapsed: real, cooldown: real)
    requires cooldown > 0.0 && elapsed >= j as real * cooldown
    ensures CooldownsIn(elapsed, cooldown) >= j
  {
    var q := elapsed / cooldown;
    assert q * cooldown == elapsed;
    if j as real > q { Stretch(j as real, q, cooldown); }
  }

  lemma Stretch(a: real, b: real, c: real)
    requires a > b && c > 0.0
    ensures a * c > b * c
  {
  }
}
