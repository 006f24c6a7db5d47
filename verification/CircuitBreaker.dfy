/**
 * The model circuit breaker and the clients that share it
 * (app/services/model_circuit_breaker.py, app/services/agent_execution_service.py).
 */
module CircuitBreaker {
  import opened Prelude

  datatype State = Closed | Open | HalfOpen

  datatype Circuit = Circuit(
    state: State,
    failureCount: nat,
    openedAt: real,
    nextProbeAt: real,
    lastError: string,
    lastSuccessAt: real,
    halfOpenInFlight: bool)

  datatype Answer = Answer(allowed: bool, probe: bool)

  /** The environment's threshold and cooldown, after their lower bounds were applied. */
  datatype Settings = Settings(threshold: int, cooldown: real) {
    predicate Valid() {
      1 <= threshold && 1.0 <= cooldown
    }
  }

  const NEW_CIRCUIT := Circuit(Closed, 0, 0.0, 0.0, "", 0.0, false)

  function Multiplier(failures: int, threshold: int): int {
    var over := failures - threshold + 1;
    var atLeastOne := if over < 1 then 1 else over;
    if atLeastOne < 8 then atLeastOne else 8
  }

  function Wait(failures: nat, s: Settings): real {
    s.cooldown * Multiplier(failures, s.threshold) as real
  }

  // ---------------------------------------------------------------- one call on one circuit

  function Allowed(c: Circuit, now: real): (Circuit, Answer) {
    var c := if c.state == Open && c.nextProbeAt <= now
             then c.(state := HalfOpen, halfOpenInFlight := false) else c;
    if c.state == HalfOpen then
      if c.halfOpenInFlight then (c, Answer(false, false))
      else (c.(halfOpenInFlight := true), Answer(true, true))
    else (c, Answer(c.state == Closed, false))
  }

  function Succeeded(c: Circuit, now: real): Circuit {
    c.(state := Closed, failureCount := 0, lastError := "", lastSuccessAt := now,
       halfOpenInFlight := false, nextProbeAt := 0.0)
  }

  function Failed(c: Circuit, error: string, transient: bool, s: Settings, now: real): Circuit {
    var c := c.(halfOpenInFlight := false, lastError := if |error| <= 500 then error else error[..500]);
    if !transient then c
    else
      var c := c.(failureCount := c.failureCount + 1);
      if c.state == HalfOpen || s.threshold <= c.failureCount then
        c.(state := Open, openedAt := now,
           nextProbeAt := now + Wait(c.failureCount, s))
      else c
  }

  class ModelCircuitBreaker {
    var circuits: map<string, Circuit>
    const settings: Settings

    constructor (settings: Settings)
      ensures circuits == map[] && this.settings == settings
    {
      circuits, this.settings := map[], settings;
    }

    /** `setdefault`. */
    function Get(key: string): Circuit
      reads this
    {
      if key in circuits then circuits[key] else NEW_CIRCUIT
    }

    method Allow(key: string, now: real) returns (a: Answer)
      modifies this
      ensures (circuits, a) == (old(circuits)[key := Allowed(old(Get(key)), now).0], Allowed(old(Get(key)), now).1)
    {
      var circuit := Get(key);
      if circuit.state == Open && circuit.nextProbeAt <= now {
        circuit := circuit.(state := HalfOpen);
        circuit := circuit.(halfOpenInFlight := false);
      }
      if circuit.state == HalfOpen {
        a := Answer(!circuit.halfOpenInFlight, !circuit.halfOpenInFlight);
        circuit := circuit.(halfOpenInFlight := true);
      } else {
        a := Answer(circuit.state == Closed, false);
      }
      circuits := circuits[key := circuit];
    }

    method RecordSuccess(key: string, now: real)
      modifies this
      ensures circuits == old(circuits)[key := Succeeded(old(Get(key)), now)]
    {
      var circuit := Get(key);
      circuit := circuit.(state := Closed, failureCount := 0, lastError := "", lastSuccessAt := now);
      circuit := circuit.(halfOpenInFlight := false, nextProbeAt := 0.0);
      circuits := circuits[key := circuit];
    }

    method RecordFailure(key: string, error: string, transient: bool, now: real)
      modifies this
      ensures circuits == old(circuits)[key := Failed(old(Get(key)), error, transient, settings, now)]
    {
      var circuit := Get(key);
      ghost var was := circuit;
      circuit := circuit.(halfOpenInFlight := false, lastError := if |error| <= 500 then error else error[..500]);
      if transient {
        circuit := circuit.(failureCount := circuit.failureCount + 1);
        if circuit.state == HalfOpen || circuit.failureCount >= settings.threshold {
          circuit := circuit.(state := Open, openedAt := now);
          var multiplier := Multiplier(circuit.failureCount, settings.threshold);
          assert settings.cooldown * multiplier as real == Wait(circuit.failureCount, settings);
          circuit := circuit.(nextProbeAt := now + settings.cooldown * multiplier as real);
        }
      }
      assert circuit == Failed(was, error, transient, settings, now);
      circuits := circuits[key := circuit];
    }

    method Reset()
      modifies this
      ensures circuits == map[]
    {
      circuits := map[];
    }
  }

  // ---------------------------------------------------------------- N clients on one circuit

  /** Where a client's `execute` stands between two of its calls on the breaker. */
  datatype Phase =
    | Idle
    | Running(probe: bool)
    /** An empty output: its success is recorded, its failure not yet. */
    | EmptyOutput(probe: bool)

  datatype Event =
    | Asked(client: nat, answer: Answer)
    | RecordedSuccess(client: nat)
    | RecordedFailure(client: nat, transient: bool)
    | WasReset

  type Elapsed = r: real | 0.0 <= r

  /** One step of one client, or a reset; a step its client is not ready for does nothing. */
  datatype Action =
    | Ask(client: nat)
    | Finish(client: nat, emptyOutput: bool)
    | Raise(client: nat, error: string, transient: bool)
    | ResetAll

  datatype Tick = Tick(elapsed: Elapsed, action: Action)

  datatype System = System(circuit: Circuit, phases: map<nat, Phase>, log: seq<Event>, now: real)

  function Start(clients: set<nat>): System {
    System(NEW_CIRCUIT, map c | c in clients :: Idle, [], 0.0)
  }

  function Step(y: System, tick: Tick, s: Settings): System {
    var y := y.(now := y.now + tick.elapsed);
    match tick.action
    case Ask(c) =>
      if c in y.phases && y.phases[c] == Idle then
        var (circuit, answer) := Allowed(y.circuit, y.now);
        System(circuit, if answer.allowed then y.phases[c := Running(answer.probe)] else y.phases,
               y.log + [Asked(c, answer)], y.now)
      else y
    case Finish(c, emptyOutput) =>
      if c in y.phases && y.phases[c].Running? then
        System(Succeeded(y.circuit, y.now),
               y.phases[c := if emptyOutput then EmptyOutput(y.phases[c].probe) else Idle],
               y.log + [RecordedSuccess(c)], y.now)
      else y
    case Raise(c, error, transient) =>
      if c in y.phases && y.phases[c] != Idle then
        System(Failed(y.circuit, error, transient, s, y.now), y.phases[c := Idle],
               y.log + [RecordedFailure(c, transient)], y.now)
      else y
    case ResetAll => System(NEW_CIRCUIT, y.phases, y.log + [WasReset], y.now)
  }

  function Run(y: System, ticks: seq<Tick>, s: Settings): System {
    if ticks == [] then y else Step(Run(y, ticks[..|ticks| - 1], s), ticks[|ticks| - 1], s)
  }

  // ---------------------------------------------------------------- what the log says

  predicate IsProbe(e: Event) {
    e.Asked? && e.answer.probe
  }

  /** A recorded outcome, or a reset. */
  predicate Settles(e: Event) {
    !e.Asked?
  }

  predicate ByClient(e: Event, c: nat) {
    !e.WasReset? && e.client == c
  }

  function TransientFailuresSinceSuccess(log: seq<Event>): nat {
    if log == [] then 0
    else
      var rest, e := log[..|log| - 1], log[|log| - 1];
      match e
      case Asked(_, _) => TransientFailuresSinceSuccess(rest)
      case RecordedFailure(_, transient) => TransientFailuresSinceSuccess(rest) + if transient then 1 else 0
      case _ => 0
  }

  /** The position of the last probe grant, if nothing was recorded or reset since. */
  function UnsettledProbe(log: seq<Event>): (g: Option<nat>)
    ensures g.Some? ==> g.value < |log| && IsProbe(log[g.value]) && forall k :: g.value < k < |log| ==> !Settles(log[k])
    ensures g.None? ==> forall i :: 0 <= i < |log| && IsProbe(log[i]) ==> exists k :: i < k < |log| && Settles(log[k])
  {
    if log == [] || Settles(log[|log| - 1]) then None
    else if IsProbe(log[|log| - 1]) then Some(|log| - 1)
    else UnsettledProbe(log[..|log| - 1])
  }

  /** A probe this client holds: granted at `g`, with nothing of its own since. */
  ghost predicate HoldsProbe(y: System, c: nat, g: nat) {
    && g < |y.log| && IsProbe(y.log[g]) && y.log[g].client == c
    && c in y.phases && y.phases[c] == Running(true)
    && forall k :: g < k < |y.log| ==> !ByClient(y.log[k], c)
  }

  ghost predicate Phased(c: Circuit, s: Settings) {
    && (c.state == Closed <==> c.failureCount < s.threshold)
    && (c.halfOpenInFlight ==> c.state == HalfOpen)
  }

  ghost predicate Timed(c: Circuit, s: Settings, now: real) {
    c.state != Closed ==> c.openedAt <= now && c.nextProbeAt == c.openedAt + Wait(c.failureCount, s)
  }

  ghost predicate ProbesSeparated(log: seq<Event>) {
    forall i, j :: 0 <= i < j < |log| && IsProbe(log[i]) && IsProbe(log[j]) ==>
      exists k :: i < k < j && Settles(log[k])
  }

  /** The circuit is a function of the log. */
  ghost predicate CircuitInv(c: Circuit, log: seq<Event>, s: Settings) {
    && Phased(c, s)
    && c.failureCount == TransientFailuresSinceSuccess(log)
    && c.halfOpenInFlight == UnsettledProbe(log).Some?
  }

  /** Every unfinished probe, and the unsettled one above all, is held by its client. */
  ghost predicate HoldingInv(y: System) {
    && (forall c :: c in y.phases && y.phases[c] == Running(true) ==> exists g :: HoldsProbe(y, c, g))
    && (UnsettledProbe(y.log).Some? ==>
          HoldsProbe(y, y.log[UnsettledProbe(y.log).value].client, UnsettledProbe(y.log).value))
  }

  ghost predicate Inv(y: System, s: Settings) {
    CircuitInv(y.circuit, y.log, s) && Timed(y.circuit, s, y.now) && HoldingInv(y) && ProbesSeparated(y.log)
  }

  lemma StartInv(clients: set<nat>, s: Settings)
    requires s.Valid()
    ensures Inv(Start(clients), s)
  {
  }

  lemma LogGrows(y: System, tick: Tick, s: Settings)
    ensures var y' := Step(y, tick, s); y'.log == y.log || (|y'.log| == |y.log| + 1 && y'.log[..|y.log|] == y.log)
  {
  }

  /** What a client holds, it holds until it is heard of again. */
  lemma HoldingPersists(y: System, y': System, c: nat, g: nat)
    requires HoldsProbe(y, c, g) && |y'.log| == |y.log| + 1 && y'.log[..|y.log|] == y.log
    requires !ByClient(y'.log[|y.log|], c) && c in y'.phases && y'.phases[c] == y.phases[c]
    ensures HoldsProbe(y', c, g)
  {
  }

  lemma SeparationGrows(log: seq<Event>, e: Event)
    requires ProbesSeparated(log)
    requires IsProbe(e) ==> UnsettledProbe(log) == None
    ensures ProbesSeparated(log + [e])
  {
    var log' := log + [e];
    forall i, j | 0 <= i < j < |log'| && IsProbe(log'[i]) && IsProbe(log'[j])
      ensures exists k :: i < k < j && Settles(log'[k])
    {
      assert log'[i] == log[i] && IsProbe(log[i]);
      var k: nat;
      if j < |log| {
        assert log'[j] == log[j];
        k :| i < k < j && Settles(log[k]);
      } else {
        k :| i < k < |log| && Settles(log[k]);
      }
      assert log'[k] == log[k] && i < k < j;
    }
  }

  lemma StepKeepsTimed(y: System, tick: Tick, s: Settings)
    requires s.Valid() && Phased(y.circuit, s) && Timed(y.circuit, s, y.now)
    ensures Timed(Step(y, tick, s).circuit, s, Step(y, tick, s).now)
  {
  }

  /** The log functions, one event further. */
  lemma LogStep(log: seq<Event>, e: Event)
    ensures TransientFailuresSinceSuccess(log + [e]) ==
            match e
            case Asked(_, _) => TransientFailuresSinceSuccess(log)
            case RecordedFailure(_, transient) => TransientFailuresSinceSuccess(log) + (if transient then 1 else 0)
            case _ => 0
    ensures UnsettledProbe(log + [e]) ==
            if Settles(e) then None else if IsProbe(e) then Some(|log|) else UnsettledProbe(log)
  {
  }

  lemma AskKeepsCircuitInv(c: Circuit, log: seq<Event>, s: Settings, client: nat, now: real)
    requires s.Valid() && CircuitInv(c, log, s)
    ensures CircuitInv(Allowed(c, now).0, log + [Asked(client, Allowed(c, now).1)], s)
  {
    LogStep(log, Asked(client, Allowed(c, now).1));
  }

  lemma SuccessKeepsCircuitInv(c: Circuit, log: seq<Event>, s: Settings, client: nat, now: real)
    requires s.Valid() && CircuitInv(c, log, s)
    ensures CircuitInv(Succeeded(c, now), log + [RecordedSuccess(client)], s)
  {
    LogStep(log, RecordedSuccess(client));
  }

  lemma FailureKeepsCircuitInv(c: Circuit, log: seq<Event>, s: Settings, client: nat, now: real, error: string,
                               transient: bool)
    requires s.Valid() && CircuitInv(c, log, s)
    ensures CircuitInv(Failed(c, error, transient, s, now), log + [RecordedFailure(client, transient)], s)
  {
    LogStep(log, RecordedFailure(client, transient));
  }

  lemma ResetKeepsCircuitInv(log: seq<Event>, s: Settings)
    requires s.Valid()
    ensures CircuitInv(NEW_CIRCUIT, log + [WasReset], s)
  {
    LogStep(log, WasReset);
  }

  /** What a step does to the circuit and the log: one call, or nothing at all. */
  lemma StepIsCall(y: System, tick: Tick, s: Settings)
    ensures var y', now := Step(y, tick, s), y.now + tick.elapsed;
            || (y'.circuit == y.circuit && y'.log == y.log)
            || match tick.action
               case Ask(c) => y'.circuit == Allowed(y.circuit, now).0
                              && y'.log == y.log + [Asked(c, Allowed(y.circuit, now).1)]
               case Finish(c, _) => y'.circuit == Succeeded(y.circuit, now) && y'.log == y.log + [RecordedSuccess(c)]
               case Raise(c, error, transient) => y'.circuit == Failed(y.circuit, error, transient, s, now)
                                                  && y'.log == y.log + [RecordedFailure(c, transient)]
               case ResetAll => y'.circuit == NEW_CIRCUIT && y'.log == y.log + [WasReset]
  {
  }

  lemma StepKeepsCircuitInv(y: System, tick: Tick, s: Settings)
    requires s.Valid() && CircuitInv(y.circuit, y.log, s)
    ensures CircuitInv(Step(y, tick, s).circuit, Step(y, tick, s).log, s)
  {
    var y', now := Step(y, tick, s), y.now + tick.elapsed;
    StepIsCall(y, tick, s);
    if y'.circuit != y.circuit || y'.log != y.log {
      match tick.action
      case Ask(c) => AskKeepsCircuitInv(y.circuit, y.log, s, c, now);
      case Finish(c, _) => SuccessKeepsCircuitInv(y.circuit, y.log, s, c, now);
      case Raise(c, error, transient) => FailureKeepsCircuitInv(y.circuit, y.log, s, c, now, error, transient);
      case ResetAll => ResetKeepsCircuitInv(y.log, s);
    }
  }

  lemma StepKeepsHoldingInv(y: System, tick: Tick, s: Settings)
    requires HoldingInv(y)
    ensures HoldingInv(Step(y, tick, s))
  {
    var y' := Step(y, tick, s);
    if y'.log == y.log {
      assert forall c, g :: HoldsProbe(y, c, g) ==> HoldsProbe(y', c, g);
    } else {
      forall c | c in y'.phases && y'.phases[c] == Running(true)
        ensures exists g :: HoldsProbe(y', c, g)
      {
        HoldingStep(y, tick, s, c);
      }
      UnsettledStep(y, tick, s);
    }
  }

  lemma UnsettledStep(y: System, tick: Tick, s: Settings)
    requires HoldingInv(y) && Step(y, tick, s).log != y.log
    ensures var y' := Step(y, tick, s);
            UnsettledProbe(y'.log).Some? ==>
              HoldsProbe(y', y'.log[UnsettledProbe(y'.log).value].client, UnsettledProbe(y'.log).value)
  {
    var y' := Step(y, tick, s);
    LogGrows(y, tick, s);
    var e := y'.log[|y.log|];
    assert y'.log == y.log + [e];
    LogStep(y.log, e);
    var g := UnsettledProbe(y.log);
    if !Settles(e) && !IsProbe(e) && g.Some? {
      HoldingPersists(y, y', y.log[g.value].client, g.value);
    }
  }

  lemma HoldingStep(y: System, tick: Tick, s: Settings, c: nat)
    requires HoldingInv(y) && Step(y, tick, s).log != y.log
    requires c in Step(y, tick, s).phases && Step(y, tick, s).phases[c] == Running(true)
    ensures exists g :: HoldsProbe(Step(y, tick, s), c, g)
  {
    var y' := Step(y, tick, s);
    LogGrows(y, tick, s);
    if ByClient(y'.log[|y.log|], c) {
      assert HoldsProbe(y', c, |y.log|);
    } else {
      var g :| HoldsProbe(y, c, g);
      HoldingPersists(y, y', c, g);
    }
  }

  /** Every step of every client keeps the invariant. */
  lemma StepKeepsInv(y: System, tick: Tick, s: Settings)
    requires s.Valid() && Inv(y, s)
    ensures Inv(Step(y, tick, s), s)
  {
    var y' := Step(y, tick, s);
    StepKeepsCircuitInv(y, tick, s);
    StepKeepsTimed(y, tick, s);
    StepKeepsHoldingInv(y, tick, s);
    LogGrows(y, tick, s);
    if y'.log != y.log {
      assert y'.log == y.log + [y'.log[|y.log|]];
      SeparationGrows(y.log, y'.log[|y.log|]);
    }
  }

  lemma {:induction false} RunKeepsInv(y: System, ticks: seq<Tick>, s: Settings)
    requires s.Valid() && Inv(y, s)
    ensures Inv(Run(y, ticks, s), s)
  {
    if ticks != [] {
      RunKeepsInv(y, ticks[..|ticks| - 1], s);
      StepKeepsInv(Run(y, ticks[..|ticks| - 1], s), ticks[|ticks| - 1], s);
    }
  }

  // ---------------------------------------------------------------- theorems

  /**
   * Every reachable state, whatever the clients, the schedule and the times: the failure
   * counter is the transient failures since the last success, it alone decides whether the
   * circuit is closed, a probe is marked in flight exactly while a granted probe is
   * unsettled, and any two probe grants have a recorded outcome or a reset between them.
   */
  lemma EveryReachableState(clients: set<nat>, ticks: seq<Tick>, s: Settings)
    requires s.Valid()
    ensures var y := Run(Start(clients), ticks, s);
            && y.circuit.failureCount == TransientFailuresSinceSuccess(y.log)
            && (y.circuit.state == Closed <==> TransientFailuresSinceSuccess(y.log) < s.threshold)
            && (y.circuit.halfOpenInFlight <==> UnsettledProbe(y.log).Some?)
            && ProbesSeparated(y.log)
            && Inv(y, s)
  {
    StartInv(clients, s);
    RunKeepsInv(Start(clients), ticks, s);
  }

  /** One cooldown at the threshold, one more for each further failure, and eight from the seventh on. */
  ghost predicate WaitsFor(c: Circuit, failures: nat, s: Settings) {
    && failures >= s.threshold
    && (failures <= s.threshold + 7 ==>
          c.nextProbeAt - c.openedAt == s.cooldown * (failures - s.threshold + 1) as real)
    && (failures >= s.threshold + 7 ==> c.nextProbeAt - c.openedAt == s.cooldown * 8.0)
  }

  lemma WaitsForFailures(c: Circuit, s: Settings, now: real)
    requires s.Valid() && Phased(c, s) && Timed(c, s, now) && c.state != Closed
    ensures WaitsFor(c, c.failureCount, s)
  {
  }

  /** How long a circuit that is not closed waits, by the transient failures since the last success. */
  lemma BackoffIs(clients: set<nat>, ticks: seq<Tick>, s: Settings)
    requires s.Valid()
    ensures var y := Run(Start(clients), ticks, s);
            y.circuit.state != Closed ==> WaitsFor(y.circuit, TransientFailuresSinceSuccess(y.log), s)
  {
    var y := Run(Start(clients), ticks, s);
    EveryReachableState(clients, ticks, s);
    if y.circuit.state != Closed {
      WaitsForFailures(y.circuit, s, y.now);
    }
  }

  /** A transient failure that reaches the threshold opens the circuit at once, and counts the wait from then on. */
  lemma FailureOpensNow(y: System, s: Settings, c: nat, dt: Elapsed, error: string)
    requires s.Valid() && Inv(y, s) && c in y.phases && y.phases[c] != Idle
    requires TransientFailuresSinceSuccess(y.log) + 1 >= s.threshold
    ensures var y' := Step(y, Tick(dt, Raise(c, error, true)), s);
            && y'.circuit.state == Open && y'.circuit.openedAt == y.now + dt
            && TransientFailuresSinceSuccess(y'.log) == TransientFailuresSinceSuccess(y.log) + 1
            && |y'.circuit.lastError| <= 500 && y'.circuit.lastError <= error
            && (|error| <= 500 ==> y'.circuit.lastError == error)
  {
    LogStep(y.log, RecordedFailure(c, true));
  }

  /** Below the threshold everybody who asks is admitted, and not as a probe. */
  lemma ClosedAdmits(y: System, s: Settings, c: nat, dt: Elapsed)
    requires s.Valid() && Inv(y, s) && c in y.phases && y.phases[c] == Idle
    requires TransientFailuresSinceSuccess(y.log) < s.threshold
    ensures var y' := Step(y, Tick(dt, Ask(c)), s);
            y'.phases[c] == Running(false) && y'.circuit == y.circuit
  {
  }

  /** A success closes the circuit whatever it was, and forgets the failures. */
  lemma SuccessCloses(y: System, s: Settings, c: nat, dt: Elapsed, emptyOutput: bool)
    requires c in y.phases && y.phases[c].Running?
    ensures var y' := Step(y, Tick(dt, Finish(c, emptyOutput)), s);
            && y'.circuit.state == Closed && y'.circuit.failureCount == 0 && !y'.circuit.halfOpenInFlight
            && y'.circuit.lastError == "" && y'.circuit.lastSuccessAt == y.now + dt
            && y'.circuit.nextProbeAt == 0.0
            // After an output without text the client is not done: it raises for the missing text.
            && (y'.phases[c] == Idle <==> !emptyOutput)
  {
  }

  /** A probe marked in flight is in a client's hands, and that client's next record frees it. */
  lemma NoLostProbe(y: System, s: Settings) returns (c: nat)
    requires Inv(y, s) && y.circuit.halfOpenInFlight
    ensures c in y.phases && y.phases[c] == Running(true)
    ensures forall dt: Elapsed, emptyOutput ::
              !Step(y, Tick(dt, Finish(c, emptyOutput)), s).circuit.halfOpenInFlight
    ensures forall dt: Elapsed, error, transient ::
              !Step(y, Tick(dt, Raise(c, error, transient)), s).circuit.halfOpenInFlight
  {
    c := y.log[UnsettledProbe(y.log).value].client;
  }

  /** Once nobody is running, an idle client that asks late enough is admitted. */
  lemma NeverStuck(y: System, s: Settings, c: nat, dt: Elapsed)
    requires Inv(y, s) && c in y.phases && y.phases[c] == Idle
    requires forall d :: d in y.phases ==> !y.phases[d].Running?
    requires y.circuit.nextProbeAt <= y.now + dt
    ensures Step(y, Tick(dt, Ask(c)), s).phases[c].Running?
  {
  }

  /**
   * Two probes run side by side only after the flag was cleared behind the first one's
   * back: between the two grants lies a reset, or a record by somebody who does not hold
   * the first probe.
   */
  lemma OverlapNeedsStraggler(y: System, s: Settings, c: nat, g: nat, d: nat, h: nat) returns (k: nat)
    requires Inv(y, s) && HoldsProbe(y, c, g) && HoldsProbe(y, d, h) && g < h
    ensures g < k < h && Settles(y.log[k]) && !ByClient(y.log[k], c)
  {
    k :| g < k < h && Settles(y.log[k]);
  }

  lemma RunSnoc(y: System, ticks: seq<Tick>, last: Tick, s: Settings)
    ensures Run(y, ticks + [last], s) == Step(Run(y, ticks, s), last, s)
  {
  }

  /** The ticks leave client `c` alone and reset nothing. */
  predicate Spares(ticks: seq<Tick>, c: nat) {
    forall t :: t in ticks ==> !t.action.ResetAll? && t.action.client != c
  }

  /** While `c` holds its probe, the ticks lead to a second one beside it. */
  ghost predicate Overlaps(y: System, ticks: seq<Tick>, s: Settings, c: nat) {
    && Spares(ticks, c)
    && exists d :: d != c && d in Run(y, ticks, s).phases && Run(y, ticks, s).phases[d] == Running(true)
  }

  predicate Straggler(y: System, c: nat, d: nat) {
    d != c && d in y.phases && y.phases[d] != Idle
  }

  ghost predicate OthersIdle(y: System, c: nat) {
    forall d :: d in y.phases && d != c ==> y.phases[d] == Idle
  }

  lemma MarkHoldsOnce(y: System, tick: Tick, s: Settings, c: nat)
    requires y.circuit.halfOpenInFlight && y.circuit.state == HalfOpen && OthersIdle(y, c)
    requires !tick.action.ResetAll? && tick.action.client != c
    ensures Step(y, tick, s).circuit == y.circuit && Step(y, tick, s).phases == y.phases
  {
  }

  /** Without stragglers nobody gets past the mark. */
  lemma {:induction false} MarkHolds(y: System, ticks: seq<Tick>, s: Settings, c: nat)
    requires y.circuit.halfOpenInFlight && y.circuit.state == HalfOpen && OthersIdle(y, c) && Spares(ticks, c)
    ensures Run(y, ticks, s).circuit == y.circuit && Run(y, ticks, s).phases == y.phases
  {
    if ticks != [] {
      var n := |ticks| - 1;
      MarkHolds(y, ticks[..n], s, c);
      assert ticks[n] in ticks;
      MarkHoldsOnce(Run(y, ticks[..n], s), ticks[n], s, c);
    }
  }

  /** A straggler's failure clears the mark, and its next call is the second probe. */
  lemma StragglerOverlaps(y: System, s: Settings, c: nat, d: nat) returns (ticks: seq<Tick>)
    requires y.circuit.state == HalfOpen && Straggler(y, c, d)
    ensures Spares(ticks, c) && d in Run(y, ticks, s).phases && Run(y, ticks, s).phases[d] == Running(true)
    ensures c in y.phases ==> c in Run(y, ticks, s).phases && Run(y, ticks, s).phases[c] == y.phases[c]
  {
    var failing, asking := Tick(0.0, Raise(d, "", false)), Tick(0.0, Ask(d));
    RunSnoc(y, [], failing, s);
    RunSnoc(y, [failing], asking, s);
    assert [] + [failing] == [failing];
    ticks := [failing] + [asking];
  }

  /**
   * One probe at a time, exactly: while `c` holds the marked probe, and until it acts or the breaker is reset,
   * a second probe can come to run beside it if and only if some other client has a call under way.
   */
  lemma OneProbeExactly(y: System, s: Settings, c: nat)
    requires Inv(y, s) && y.circuit.halfOpenInFlight && c in y.phases && y.phases[c] == Running(true)
    ensures (exists ticks :: Overlaps(y, ticks, s, c)) <==> exists d :: Straggler(y, c, d)
  {
    if d :| Straggler(y, c, d) {
      var ticks := StragglerOverlaps(y, s, c, d);
      assert Overlaps(y, ticks, s, c);
    } else {
      forall d | d in y.phases && d != c
        ensures y.phases[d] == Idle
      {
        assert !Straggler(y, c, d);
      }
      forall ticks | Spares(ticks, c)
        ensures !Overlaps(y, ticks, s, c)
      {
        MarkHolds(y, ticks, s, c);
      }
    }
  }

  /** `d` is running since before, and `c` has failed `n` times: the circuit opens at the threshold. */
  ghost predicate FailedBeside(y: System, c: nat, d: nat, s: Settings, n: nat) {
    && c in y.phases && y.phases[c] == Idle && d in y.phases && y.phases[d] == Running(false)
    && y.circuit.failureCount == n && y.circuit.state == if n < s.threshold then Closed else Open
  }

  lemma FailsOnce(y: System, c: nat, d: nat, s: Settings, n: nat)
    requires c != d && n < s.threshold && FailedBeside(y, c, d, s, n)
    ensures FailedBeside(Step(Step(y, Tick(0.0, Ask(c)), s), Tick(0.0, Raise(c, "", true)), s), c, d, s, n + 1)
  {
    var y' := Step(y, Tick(0.0, Ask(c)), s);
    assert y'.circuit == y.circuit && y'.phases == y.phases[c := Running(false)];
  }

  lemma {:induction false} FailsWhileOtherRuns(clients: set<nat>, c: nat, d: nat, s: Settings, n: nat)
    returns (ticks: seq<Tick>, y: System)
    requires s.Valid() && c in clients && d in clients && c != d && n <= s.threshold
    ensures y == Run(Start(clients), ticks, s) && FailedBeside(y, c, d, s, n)
  {
    if n == 0 {
      ticks, y := Extend(clients, [], Tick(0.0, Ask(d)), Start(clients), s);
    } else {
      ticks, y := FailsWhileOtherRuns(clients, c, d, s, n - 1);
      FailsOnce(y, c, d, s, n - 1);
      ticks, y := Extend(clients, ticks, Tick(0.0, Ask(c)), y, s);
      ticks, y := Extend(clients, ticks, Tick(0.0, Raise(c, "", true)), y, s);
    }
  }

  /** Any two clients can get there, under any settings: one is slow, the other fails and then probes. */
  lemma OverlapHappens(clients: set<nat>, c: nat, d: nat, s: Settings) returns (ticks: seq<Tick>)
    requires s.Valid() && c in clients && d in clients && c != d
    ensures var y := Run(Start(clients), ticks, s);
            c in y.phases && d in y.phases && y.phases[c] == y.phases[d] == Running(true)
  {
    var y;
    ticks, y := FailsWhileOtherRuns(clients, c, d, s, s.threshold);
    var wait := if y.circuit.nextProbeAt <= y.now then 0.0 else y.circuit.nextProbeAt - y.now;
    ticks, y := Extend(clients, ticks, Tick(wait, Ask(c)), y, s);
    assert y.circuit.state == HalfOpen && y.phases[c] == Running(true);
    var more := StragglerOverlaps(y, s, c, d);
    RunConcat(Start(clients), ticks, more, s);
    ticks := ticks + more;
  }

  lemma {:induction false} RunConcat(y: System, a: seq<Tick>, b: seq<Tick>, s: Settings)
    ensures Run(y, a + b, s) == Run(Run(y, a, s), b, s)
    decreases |b|
  {
    if b == [] {
      assert a + b == a;
    } else {
      RunConcat(y, a, b[..|b| - 1], s);
      assert (a + b)[..|a + b| - 1] == a + b[..|b| - 1];
    }
  }

  lemma Extend(clients: set<nat>, ticks: seq<Tick>, last: Tick, y: System, s: Settings)
    returns (ticks': seq<Tick>, y': System)
    requires y == Run(Start(clients), ticks, s)
    ensures ticks' == ticks + [last] && y' == Step(y, last, s) == Run(Start(clients), ticks', s)
  {
    RunSnoc(Start(clients), ticks, last, s);
    ticks', y' := ticks + [last], Step(y, last, s);
  }

  lemma WaitsOrdered(s: Settings, m: nat, n: nat)
    requires s.Valid() && m <= n
    ensures s.cooldown <= Wait(m, s) <= Wait(n, s) <= 8.0 * s.cooldown
  {
    var a, b := Multiplier(m, s.threshold), Multiplier(n, s.threshold);
    assert 1 <= a <= b <= 8;
    assert (a - 1) as real * s.cooldown >= 0.0;
    assert (b - a) as real * s.cooldown >= 0.0;
    assert (8 - b) as real * s.cooldown >= 0.0;
  }

  predicate NoRelief(ticks: seq<Tick>) {
    forall t :: t in ticks ==> t.action.Ask? || t.action.Raise?
  }

  lemma WaitsGrow(y: System, tick: Tick, s: Settings)
    requires s.Valid() && Inv(y, s) && y.circuit.state != Closed && (tick.action.Ask? || tick.action.Raise?)
    ensures var y' := Step(y, tick, s);
            && y'.circuit.state != Closed && y.now <= y'.now
            && y.circuit.nextProbeAt - y.circuit.openedAt
               <= y'.circuit.nextProbeAt - y'.circuit.openedAt <= 8.0 * s.cooldown
            && y.circuit.nextProbeAt <= y'.circuit.nextProbeAt
  {
    var c := y.circuit;
    WaitsOrdered(s, c.failureCount, c.failureCount + 1);
    StepIsCall(y, tick, s);
    assert c.nextProbeAt == c.openedAt + Wait(c.failureCount, s) && c.openedAt <= y.now;
  }

  /**
   * As long as nobody succeeds and nobody resets, waits only grow: each lies between one
   * and eight cooldowns, a circuit that left the closed state stays out of it, and the time
   * of the next probe never moves back.
   */
  lemma {:induction false} WaitsNeverShrink(y: System, ticks: seq<Tick>, s: Settings)
    requires s.Valid() && Inv(y, s) && y.circuit.state != Closed && NoRelief(ticks)
    ensures var y' := Run(y, ticks, s);
            && y'.circuit.state != Closed && y.now <= y'.now
            && s.cooldown <= y.circuit.nextProbeAt - y.circuit.openedAt
                         <= y'.circuit.nextProbeAt - y'.circuit.openedAt <= 8.0 * s.cooldown
            && y.circuit.nextProbeAt <= y'.circuit.nextProbeAt
  {
    WaitsOrdered(s, y.circuit.failureCount, y.circuit.failureCount);
    if ticks != [] {
      var rest, last := ticks[..|ticks| - 1], ticks[|ticks| - 1];
      var mid := Run(y, rest, s);
      assert last in ticks;
      WaitsNeverShrink(y, rest, s);
      RunKeepsInv(y, rest, s);
      WaitsGrow(mid, last, s);
    }
  }

  /** An open circuit admits nobody before its probe time. */
  lemma {:induction false} QuietUntilProbeTime(y: System, ticks: seq<Tick>, s: Settings)
    requires s.Valid() && Inv(y, s) && y.circuit.state == Open && NoRelief(ticks)
    requires Run(y, ticks, s).now < y.circuit.nextProbeAt
    ensures var y' := Run(y, ticks, s);
            && y'.circuit.state == Open
            && |y.log| <= |y'.log|
            && forall k :: |y.log| <= k < |y'.log| && y'.log[k].Asked? ==> !y'.log[k].answer.allowed
  {
    if ticks != [] {
      var rest, last := ticks[..|ticks| - 1], ticks[|ticks| - 1];
      var mid := Run(y, rest, s);
      assert last in ticks;
      QuietUntilProbeTime(y, rest, s);
      WaitsNeverShrink(y, rest, s);
      StepIsCall(mid, last, s);
      LogGrows(mid, last, s);
    }
  }
}
