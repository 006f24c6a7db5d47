/**
 * The retry, backoff and session loop around one agent call
 * (app/services/agent_execution_service.py).
 */
module RetryLoop {
  import opened Prelude

  datatype Policy = Policy(
    maxTransientRetries: int,
    baseBackoff: real,
    maxBackoff: real,
    retryEmptyOutput: bool,
    freshSessionOnTimeout: bool)

  /** How the agent's classifier reads an exception. */
  datatype Failure = Failure(code: string, recoverable: bool, strategy: string)

  /** What one attempt does: return a (possibly blank) output, or raise. */
  datatype Attempt =
    | Returned(blank: bool, asFailure: Failure)
    | Raised(failure: Failure)

  /** The world around the loop, per attempt: its outcome, earlier circuit denials, connectivity. */
  datatype World = World(attempt: nat -> Attempt, denials: nat -> nat, online: nat -> bool)

  datatype Request =
    Request(session: Option<string>, unattended: bool, recoveryAttempt: nat, recoveredFrom: Option<string>)

  datatype Recovery =
    Recovery(attempt: nat, code: string, strategy: string, freshSession: bool, backoff: real, slept: real)

  datatype Outcome = Outcome(request: Request, attempts: nat, recoveries: seq<Recovery>)

  function Min(a: real, b: real): real { if a <= b then a else b }

  function Positive(a: real): (r: real)
    ensures r >= 0.0 && r >= a && r in {0.0, a}
  {
    if a < 0.0 then 0.0 else a
  }

  function Pow2(n: nat): int { if n == 0 then 1 else 2 * Pow2(n - 1) }

  /** `base * 2 ** n`, by doubling. */
  function Doubled(base: real, n: nat): real { if n == 0 then base else 2.0 * Doubled(base, n - 1) }

  /** `n * cap`, by adding up. */
  function Repeated(cap: real, n: nat): real { if n == 0 then 0.0 else Repeated(cap, n - 1) + cap }

  lemma {:induction false} RepeatedIsProduct(cap: real, n: nat)
    ensures Repeated(cap, n) == n as real * cap
  {
    if n > 0 {
      RepeatedIsProduct(cap, n - 1);
    }
  }

  lemma {:induction false} DoubledIsPower(base: real, n: nat)
    ensures Doubled(base, n) == base * Pow2(n) as real
  {
    if n > 0 {
      DoubledIsPower(base, n - 1);
      assert Pow2(n) as real == 2.0 * Pow2(n - 1) as real;
    }
  }

  /** The failure this attempt ends in, if it does not end the loop with a result. */
  function FailureOf(p: Policy, a: Attempt): Option<Failure> {
    match a
    case Returned(blank, asFailure) => if blank && p.retryEmptyOutput then Some(asFailure) else None
    case Raised(failure) => Some(failure)
  }

  /** The attempt is followed by another one, when `done` recoveries precede it. */
  predicate Recovers(p: Policy, a: Attempt, done: nat) {
    FailureOf(p, a).Some? && FailureOf(p, a).value.recoverable && done < p.maxTransientRetries
  }

  predicate WantsFreshSession(p: Policy, f: Failure) {
    f.strategy in {"create", "handoff_fresh_session", "fresh_session"}
    && (f.code == "AGENT_TIMEOUT" ==> p.freshSessionOnTimeout)
  }

  function Slept(recoveries: seq<Recovery>): real {
    if recoveries == [] then 0.0
    else Slept(recoveries[..|recoveries| - 1]) + recoveries[|recoveries| - 1].slept
  }

  /** Recovery `k` (from 0) is number `k + 1`, with the exponential delay of its number, slept or skipped. */
  ghost predicate Numbered(p: Policy, recoveries: seq<Recovery>) {
    forall k :: 0 <= k < |recoveries| ==>
      && recoveries[k].attempt == k + 1
      && recoveries[k].backoff == Backoff(p, recoveries[k].freshSession, k)
      && (recoveries[k].slept == 0.0 || recoveries[k].slept == Positive(recoveries[k].backoff))
  }

  function Backoff(p: Policy, freshSession: bool, k: nat): real {
    if freshSession then 0.0 else Min(p.maxBackoff, Doubled(p.baseBackoff, k))
  }

  /** The recovery answers the failure of its attempt. */
  ghost predicate Answers(p: Policy, recovery: Recovery, failure: Option<Failure>, skipsSleep: bool) {
    && failure.Some?
    && recovery.code == failure.value.code && recovery.strategy == failure.value.strategy
    && recovery.freshSession == WantsFreshSession(p, failure.value)
    && recovery.slept == if recovery.code == "TRANSIENT_API_FAILURE" && skipsSleep
                          then 0.0 else Positive(recovery.backoff)
  }

  /** The session of each attempt; a fresh one replaces it where the recovery says so. */
  ghost predicate Sessions(sessions: seq<Option<string>>, recoveries: seq<Recovery>) {
    && |sessions| == |recoveries| + 1
    && forall k :: 0 <= k < |recoveries| ==>
         sessions[k + 1] == if recoveries[k].freshSession then None else sessions[k]
  }

  /** Every recovery follows an attempt that asks for one, is numbered, and answers that attempt's failure. */
  ghost predicate Tried(p: Policy, request: Request, world: World, recoveries: seq<Recovery>) {
    && Numbered(p, recoveries)
    && forall k :: 0 <= k < |recoveries| ==>
         && Recovers(p, world.attempt(k), k)
         && Answers(p, recoveries[k], FailureOf(p, world.attempt(k)), request.unattended && world.online(k + 1))
  }

  lemma TriedOneMore(p: Policy, request: Request, world: World, recoveries: seq<Recovery>, r: Recovery)
    requires Tried(p, request, world, recoveries)
    requires var n := |recoveries|;
             && Recovers(p, world.attempt(n), n)
             && r.attempt == n + 1 && r.backoff == Backoff(p, r.freshSession, n)
             && Answers(p, r, FailureOf(p, world.attempt(n)), request.unattended && world.online(n + 1))
    ensures Tried(p, request, world, recoveries + [r])
  {
  }

  /** The denials by an open circuit that precede the first `n` attempts. */
  function Denials(world: World, n: nat): nat {
    if n == 0 then 0 else Denials(world, n - 1) + world.denials(n - 1)
  }

  /**
   * `AgentExecutionService.execute`.  `sessions` lists the session id every attempt was
   * made with, and `waits` the number of polls while the circuit was open.
   */
  method Execute(p: Policy, request: Request, world: World)
    returns (r: Result<Outcome, Failure>, attempts: nat, recoveries: seq<Recovery>, sessions: seq<Option<string>>,
             waits: nat)
    ensures attempts == |recoveries| + 1 && (|recoveries| == 0 || |recoveries| <= p.maxTransientRetries)
    ensures forall k :: 0 <= k < |recoveries| ==> Recovers(p, world.attempt(k), k)
    ensures !Recovers(p, world.attempt(attempts - 1), attempts - 1)
    ensures Numbered(p, recoveries)
    ensures forall k :: 0 <= k < |recoveries| ==>
              Answers(p, recoveries[k], FailureOf(p, world.attempt(k)), request.unattended && world.online(k + 1))
    ensures Sessions(sessions, recoveries) && sessions[0] == request.session
    ensures waits == Denials(world, attempts)
    ensures match r
            case Ok(o) => FailureOf(p, world.attempt(attempts - 1)) == None
                          && o.attempts == attempts && o.recoveries == recoveries
                          && o.request.session == sessions[attempts - 1]
            case Err(failure) => FailureOf(p, world.attempt(attempts - 1)) == Some(failure)
  {
    var current := request;
    recoveries, attempts, waits := [], 0, 0;
    sessions := [];
    while true
      invariant attempts == |recoveries| && (attempts == 0 || attempts <= p.maxTransientRetries)
      invariant Tried(p, request, world, recoveries) && current.unattended == request.unattended
      invariant waits == Denials(world, attempts)
      invariant |sessions| == attempts && Sessions(sessions + [current.session], recoveries)
      invariant (sessions + [current.session])[0] == request.session
      decreases p.maxTransientRetries - attempts
    {
      var denied := world.denials(attempts);
      while denied > 0
        invariant waits + denied == Denials(world, attempts) + world.denials(attempts)
      {
        denied, waits := denied - 1, waits + 1;
      }
      var attempt := world.attempt(attempts);
      attempts := attempts + 1;
      sessions := sessions + [current.session];
      if attempt.Returned? && (!attempt.blank || !p.retryEmptyOutput) {
        r := Ok(Outcome(current, attempts, recoveries));
        return;
      }
      var failure := if attempt.Returned? then attempt.asFailure else attempt.failure;
      var retryIndex := |recoveries| + 1;
      if !failure.recoverable || retryIndex > p.maxTransientRetries {
        r := Err(failure);
        return;
      }
      var recovery;
      current, recovery := Recover(p, current, failure, retryIndex, world.online(attempts));
      TriedOneMore(p, request, world, recoveries, recovery);
      recoveries := recoveries + [recovery];
    }
  }

  /** The rest of the loop body: the next request, and the recovery that leads to it. */
  method Recover(p: Policy, current: Request, failure: Failure, retryIndex: nat, online: bool)
    returns (next: Request, recovery: Recovery)
    requires retryIndex >= 1
    ensures recovery.attempt == retryIndex && recovery.backoff == Backoff(p, recovery.freshSession, retryIndex - 1)
    ensures Answers(p, recovery, Some(failure), current.unattended && online)
    ensures next.session == (if recovery.freshSession then None else current.session)
            && next.recoveryAttempt == retryIndex && next.recoveredFrom == current.session
            && next.unattended == current.unattended
  {
    var freshSession := failure.strategy in {"create", "handoff_fresh_session", "fresh_session"};
    if failure.code == "AGENT_TIMEOUT" && !p.freshSessionOnTimeout {
      freshSession := false;
    }
    next := Request(if freshSession then None else current.session, current.unattended, retryIndex, current.session);
    var delay := if freshSession then 0.0 else Min(p.maxBackoff, Doubled(p.baseBackoff, retryIndex - 1));
    var backoff := delay;
    if failure.code == "TRANSIENT_API_FAILURE" && current.unattended && online {
      delay := 0.0;
    }
    recovery := Recovery(retryIndex, failure.code, failure.strategy, freshSession, backoff, Positive(delay));
  }

  /** Once a request's session is fresh, it stays fresh. */
  lemma {:induction false} FreshStaysFresh(sessions: seq<Option<string>>, recoveries: seq<Recovery>, i: nat, j: nat)
    requires Sessions(sessions, recoveries) && i <= j < |sessions| && sessions[i] == None
    ensures sessions[j] == None
  {
    if i < j {
      FreshStaysFresh(sessions, recoveries, i, j - 1);
    }
  }

  /** The backoff doubles with every recovery until it reaches the cap; it is slept in full or not at all. */
  lemma BackoffIs(p: Policy, recoveries: seq<Recovery>, k: nat)
    requires Numbered(p, recoveries) && k < |recoveries|
    ensures var r, doubled := recoveries[k], p.baseBackoff * Pow2(k) as real;
            && r.backoff == (if r.freshSession then 0.0 else if doubled <= p.maxBackoff then doubled else p.maxBackoff)
            && r.slept >= 0.0 && (r.slept == 0.0 || r.slept == r.backoff)
  {
    DoubledIsPower(p.baseBackoff, k);
  }

  /** The retry backoff of a whole call: at most `n * max`, and at most `base * 2 ** n - base`. */
  lemma TotalBackoff(p: Policy, recoveries: seq<Recovery>)
    requires Numbered(p, recoveries)
    ensures 0.0 <= Slept(recoveries)
    ensures p.maxBackoff >= 0.0 ==> Slept(recoveries) <= Repeated(p.maxBackoff, |recoveries|)
    ensures p.baseBackoff >= 0.0 ==> Slept(recoveries) <= Doubled(p.baseBackoff, |recoveries|) - p.baseBackoff
  {
    SleptIsBounded(p, recoveries);
  }

  /** And it is all of that if every recovery sleeps the doubled base, none being capped, skipped or started afresh. */
  lemma {:induction false} TotalIsReached(base: real, recoveries: seq<Recovery>)
    requires forall k :: 0 <= k < |recoveries| ==> recoveries[k].slept == Doubled(base, k)
    ensures Slept(recoveries) == Doubled(base, |recoveries|) - base
    decreases |recoveries|
  {
    if recoveries != [] {
      TotalIsReached(base, recoveries[..|recoveries| - 1]);
    }
  }

  lemma {:induction false} SleptIsBounded(p: Policy, recoveries: seq<Recovery>)
    requires Numbered(p, recoveries)
    ensures 0.0 <= Slept(recoveries) <= Repeated(Positive(p.maxBackoff), |recoveries|)
    ensures Slept(recoveries) <= Doubled(Positive(p.baseBackoff), |recoveries|) - Positive(p.baseBackoff)
    decreases |recoveries|
  {
    if recoveries != [] {
      var n := |recoveries| - 1;
      SleptIsBounded(p, recoveries[..n]);
      DoubledMonotone(p.baseBackoff, Positive(p.baseBackoff), n);
    }
  }

  lemma {:induction false} DoubledMonotone(a: real, b: real, n: nat)
    requires a <= b && 0.0 <= b
    ensures Doubled(a, n) <= Doubled(b, n) && 0.0 <= Doubled(b, n)
  {
    if n > 0 {
      DoubledMonotone(a, b, n - 1);
    }
  }
}
