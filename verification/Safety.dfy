/**
 The safety guard: a circuit breaker around the optimizer.  A call runs two or three separate
 locked sections with the optimizer's work between them, so calls overlap; each section is
 one atomic step here.
 */
module Safety {
  datatype CircuitState = Healthy | Degraded | Bypassed

  datatype FailMode = FailOpen | FailClosed

  /** The fields the lock protects. */
  datatype Guard = Guard(state: CircuitState, consecutive: nat, totalErrors: nat, totalIn: nat, bypassCount: nat)

  const FRESH_GUARD := Guard(Healthy, 0, 0, 0, 0)

  // ----- The locked sections -----

  function Entered(g: Guard): Guard {
    g.(totalIn := g.totalIn + 1)
  }

  function Succeeded(g: Guard): Guard {
    g.(consecutive := 0, state := if g.state.Degraded? then Healthy else g.state)
  }

  function Failed(g: Guard, threshold: int): Guard {
    g.(totalErrors := g.totalErrors + 1,
       consecutive := g.consecutive + 1,
       state := if threshold > 0 && g.consecutive + 1 >= threshold then Bypassed else Degraded)
  }

  function BypassCounted(g: Guard): Guard {
    g.(bypassCount := g.bypassCount + 1)
  }

  function WasReset(g: Guard): Guard {
    g.(state := Healthy, totalErrors := 0, consecutive := 0, bypassCount := 0)
  }

  /** What the wrapped optimizer does with a packet: a result, or an exception. */
  datatype Outcome<+R> = Returned(result: R) | Raised

  /** What a caller of the guard gets; it never raises. */
  datatype Reply<+R> = Optimized(result: R) | Forwarded | DroppedOnError

  class SafetyGuard {
    const threshold: int
    var failMode: FailMode
    var state: CircuitState
    var consecutiveErrors: nat
    var totalErrors: nat
    var totalIn: nat
    var bypassCount: nat

    ghost function State(): Guard
      reads this
    {
      Guard(state, consecutiveErrors, totalErrors, totalIn, bypassCount)
    }

    constructor (failMode: FailMode, threshold: int)
      ensures State() == FRESH_GUARD && this.threshold == threshold && this.failMode == failMode
    {
      this.failMode, this.threshold := failMode, threshold;
      state, consecutiveErrors, totalErrors, totalIn, bypassCount := Healthy, 0, 0, 0, 0;
    }

    method EnterSection() returns (bypassed: bool)
      modifies `totalIn
      ensures State() == Entered(old(State())) && bypassed == state.Bypassed?
    {
      totalIn := totalIn + 1;
      bypassed := state == Bypassed;
    }

    method SuccessSection()
      modifies `consecutiveErrors, `state
      ensures State() == Succeeded(old(State()))
    {
      consecutiveErrors := 0;
      if state == Degraded {
        state := Healthy;
      }
    }

    method ErrorSection() returns (mode: FailMode)
      modifies `totalErrors, `consecutiveErrors, `state
      ensures State() == Failed(old(State()), threshold) && mode == failMode
    {
      totalErrors := totalErrors + 1;
      consecutiveErrors := consecutiveErrors + 1;
      if threshold > 0 && consecutiveErrors >= threshold {
        state := Bypassed;
      } else {
        state := Degraded;
      }
      mode := failMode;
    }

    method BypassSection()
      modifies `bypassCount
      ensures State() == BypassCounted(old(State()))
    {
      bypassCount := bypassCount + 1;
    }

    /** One call with no other overlapping it; `outcome` is what the optimizer would do. */
    method Process<R>(outcome: Outcome<R>) returns (reply: Reply<R>)
      modifies this
      ensures failMode == old(failMode)
      ensures State() == SequentialCall(old(State()), outcome.Raised?, threshold)
      ensures reply == if old(state).Bypassed? then Forwarded
                       else if outcome.Returned? then Optimized(outcome.result)
                       else if failMode.FailClosed? then DroppedOnError
                       else Forwarded
    {
      var bypassed := EnterSection();
      if bypassed {
        BypassSection();
        return Forwarded;
      }
      match outcome {
        case Returned(result) =>
          SuccessSection();
          return Optimized(result);
        case Raised =>
          var mode := ErrorSection();
          BypassSection();
          return if mode == FailClosed then DroppedOnError else Forwarded;
      }
    }

    method Reset()
      modifies `state, `totalErrors, `consecutiveErrors, `bypassCount
      ensures State() == WasReset(old(State()))
      ensures state == Healthy && consecutiveErrors == totalErrors == bypassCount == 0 && totalIn == old(totalIn)
    {
      state, totalErrors, consecutiveErrors, bypassCount := Healthy, 0, 0, 0;
    }
  }

  function SequentialCall(g: Guard, raised: bool, threshold: int): Guard {
    var g' := Entered(g);
    if g'.state.Bypassed? then BypassCounted(g')
    else if raised then BypassCounted(Failed(g', threshold))
    else Succeeded(g')
  }

  // ----- Overlapping calls -----

  /**
   The guard and the calls in flight: `calling` of them are inside the optimizer and
   `leaving` have still to count their bypass.  `successes` and `skipped` count the calls
   that returned a result and those that found the circuit open.
   */
  datatype System = System(guard: Guard, calling: nat, leaving: nat, successes: nat, skipped: nat)

  datatype Action = Enter | Succeed | Fail | CountBypass | Reset

  const START := System(FRESH_GUARD, 0, 0, 0, 0)

  predicate Enabled(s: System, a: Action, k: nat) {
    match a
    case Enter => s.calling + s.leaving < k
    case Succeed => s.calling > 0
    case Fail => s.calling > 0
    case CountBypass => s.leaving > 0
    case Reset => true
  }

  function Step(s: System, a: Action, threshold: int): System
    requires (a.Succeed? || a.Fail? ==> s.calling > 0) && (a.CountBypass? ==> s.leaving > 0)
  {
    match a
    case Enter =>
      if s.guard.state.Bypassed?
      then s.(guard := Entered(s.guard), leaving := s.leaving + 1, skipped := s.skipped + 1)
      else s.(guard := Entered(s.guard), calling := s.calling + 1)
    case Succeed => s.(guard := Succeeded(s.guard), calling := s.calling - 1, successes := s.successes + 1)
    case Fail => s.(guard := Failed(s.guard, threshold), calling := s.calling - 1, leaving := s.leaving + 1)
    case CountBypass => s.(guard := BypassCounted(s.guard), leaving := s.leaving - 1)
    case Reset => s.(guard := WasReset(s.guard))
  }

  /** s' is reached from s by some interleaving of `acts`, with never more than k calls in flight. */
  ghost predicate Reaches(s: System, acts: seq<Action>, s': System, k: nat, threshold: int)
    decreases |acts|
  {
    if acts == [] then s' == s
    else Enabled(s, acts[0], k) && Reaches(Step(s, acts[0], threshold), acts[1..], s', k, threshold)
  }

  /** What every reachable state satisfies when the breaker can trip. */
  ghost predicate Invariant(s: System, k: nat, threshold: int) {
    var g := s.guard;
    && s.calling + s.leaving <= k
    && (g.state.Healthy? ==> g.consecutive == 0)
    && (g.state.Degraded? ==> 1 <= g.consecutive < threshold)
    && (g.state.Bypassed? ==>
          && (g.consecutive == 0 || g.consecutive >= threshold)
          && (g.consecutive == 0 ==> s.calling + 2 <= k)
          && (g.consecutive >= threshold ==> g.consecutive + s.calling <= threshold + k - 1))
  }

  lemma StepKeepsInvariant(s: System, a: Action, k: nat, threshold: int)
    requires threshold > 0 && Invariant(s, k, threshold) && Enabled(s, a, k)
    ensures Invariant(Step(s, a, threshold), k, threshold)
  {
  }

  lemma {:induction false} InvariantHolds(s: System, acts: seq<Action>, s': System, k: nat, threshold: int)
    requires threshold > 0 && Invariant(s, k, threshold) && Reaches(s, acts, s', k, threshold)
    ensures Invariant(s', k, threshold)
    decreases |acts|
  {
    if acts != [] {
      StepKeepsInvariant(s, acts[0], k, threshold);
      InvariantHolds(Step(s, acts[0], threshold), acts[1..], s', k, threshold);
    }
  }

  /**
   In every interleaving of at most k overlapping calls with a threshold T > 0: Healthy has
   no consecutive errors, Degraded 1 to T - 1, Bypassed none or at least T, and consecutive
   errors never exceed T + k - 1.
   */
  lemma CircuitBreaker(acts: seq<Action>, s: System, k: nat, threshold: int)
    requires threshold > 0 && Reaches(START, acts, s, k, threshold)
    ensures s.guard.state.Healthy? ==> s.guard.consecutive == 0
    ensures s.guard.state.Degraded? ==> 1 <= s.guard.consecutive < threshold
    ensures s.guard.state.Bypassed? ==> s.guard.consecutive == 0 || s.guard.consecutive >= threshold
    ensures k > 0 ==> s.guard.consecutive <= threshold + k - 1
  {
    InvariantHolds(START, acts, s, k, threshold);
  }

  /** A threshold of zero or less never trips: the breaker only tells Healthy from Degraded. */
  lemma {:induction false} NeverTrips(s: System, acts: seq<Action>, s': System, k: nat, threshold: int)
    requires threshold <= 0 && Reaches(s, acts, s', k, threshold)
    requires !s.guard.state.Bypassed? && (s.guard.state.Healthy? <==> s.guard.consecutive == 0)
    ensures !s'.guard.state.Bypassed? && (s'.guard.state.Healthy? <==> s'.guard.consecutive == 0)
    decreases |acts|
  {
    if acts != [] { NeverTrips(Step(s, acts[0], threshold), acts[1..], s', k, threshold); }
  }

  /** Without a reset, every call is in flight, has returned a result, or has counted a bypass. */
  ghost predicate Accounted(s: System) {
    && s.guard.totalIn == s.calling + s.leaving + s.successes + s.guard.bypassCount
    && s.guard.totalErrors + s.skipped == s.leaving + s.guard.bypassCount
  }

  lemma {:induction false} CallsAreAccounted(s: System, acts: seq<Action>, s': System, k: nat, threshold: int)
    requires Accounted(s) && Reaches(s, acts, s', k, threshold) && Reset !in acts
    ensures Accounted(s')
    decreases |acts|
  {
    if acts != [] {
      assert acts[0] in acts;
      CallsAreAccounted(Step(s, acts[0], threshold), acts[1..], s', k, threshold);
    }
  }

  // ----- When can an open circuit close by itself? -----

  /** The run `acts` leads to s, where the circuit is open and the step a, not a reset, closes it. */
  ghost predicate ClosedBy(acts: seq<Action>, s: System, a: Action, k: nat, threshold: int) {
    && Reaches(START, acts, s, k, threshold) && s.guard.state.Bypassed?
    && a != Reset && Enabled(s, a, k) && !Step(s, a, threshold).guard.state.Bypassed?
  }

  /** Some step other than a reset leaves Bypassed in some reachable state. */
  ghost predicate ClosesByItself(k: nat, threshold: int) {
    exists acts: seq<Action>, s: System, a: Action :: ClosedBy(acts, s, a, k, threshold)
  }

  lemma StaysOpen(acts: seq<Action>, s: System, a: Action, k: nat, threshold: int)
    requires threshold > 0 && (k <= 2 || threshold == 1)
    requires Reaches(START, acts, s, k, threshold) && s.guard.state.Bypassed? && a != Reset && Enabled(s, a, k)
    ensures Step(s, a, threshold).guard.state.Bypassed?
  {
    InvariantHolds(START, acts, s, k, threshold);
  }

  lemma {:induction false} ReachesConcat(
    s: System, acts: seq<Action>, t: System, more: seq<Action>, u: System, k: nat, threshold: int)
    requires Reaches(s, acts, t, k, threshold) && Reaches(t, more, u, k, threshold)
    ensures Reaches(s, acts + more, u, k, threshold)
    decreases |acts|
  {
    if acts == [] {
      assert acts + more == more;
    } else {
      ReachesConcat(Step(s, acts[0], threshold), acts[1..], t, more, u, k, threshold);
      assert (acts + more)[1..] == acts[1..] + more;
    }
  }

  /** n calls one after another that all fail, n below the threshold. */
  lemma {:induction false} FailOneByOne(n: nat, k: nat, threshold: int) returns (acts: seq<Action>, s: System)
    requires n < threshold && k > 0
    ensures Reaches(START, acts, s, k, threshold)
    ensures s.guard.consecutive == n && s.calling == 0 && s.leaving == 0
    ensures s.guard.state == if n == 0 then Healthy else Degraded
  {
    if n == 0 {
      acts, s := [], START;
    } else {
      var before, t := FailOneByOne(n - 1, k, threshold);
      s := Step(Step(Step(t, Enter, threshold), Fail, threshold), CountBypass, threshold);
      ThreeSteps(t, Enter, Fail, CountBypass, k, threshold);
      ReachesConcat(START, before, t, [Enter, Fail, CountBypass], s, k, threshold);
      acts := before + [Enter, Fail, CountBypass];
    }
  }

  lemma ThreeSteps(s: System, a: Action, b: Action, c: Action, k: nat, threshold: int)
    requires Enabled(s, a, k) && Enabled(Step(s, a, threshold), b, k)
    requires Enabled(Step(Step(s, a, threshold), b, threshold), c, k)
    ensures Reaches(s, [a, b, c], Step(Step(Step(s, a, threshold), b, threshold), c, threshold), k, threshold)
  {
    var s1 := Step(s, a, threshold);
    var s2 := Step(s1, b, threshold);
    var s3 := Step(s2, c, threshold);
    hide Step, Enabled;
    assert Reaches(s3, [], s3, k, threshold);
    assert [c][1..] == [] && Reaches(s2, [c], s3, k, threshold);
    assert [b, c][1..] == [c] && Reaches(s1, [b, c], s3, k, threshold);
    assert [a, b, c][1..] == [b, c];
  }

  /**
   With three calls in flight at a threshold of two or more: one trips the breaker, one
   then succeeds and clears the errors, and the failure of the third counts as a first one.
   */
  lemma TripClearFail(k: nat, threshold: int)
    requires k >= 3 && threshold >= 2
    ensures ClosesByItself(k, threshold)
  {
    var acts, s := FailOneByOne(threshold - 1, k, threshold);
    var t := Step(Step(Step(s, Enter, threshold), Enter, threshold), Enter, threshold);
    ThreeSteps(s, Enter, Enter, Enter, k, threshold);
    ReachesConcat(START, acts, s, [Enter, Enter, Enter], t, k, threshold);
    var u := Step(Step(Step(t, Fail, threshold), CountBypass, threshold), Succeed, threshold);
    ThreeSteps(t, Fail, CountBypass, Succeed, k, threshold);
    ReachesConcat(START, acts + [Enter, Enter, Enter], t, [Fail, CountBypass, Succeed], u, k, threshold);
    assert u.guard.state.Bypassed? && u.guard.consecutive == 0 && u.calling == 1;
    assert ClosedBy(acts + [Enter, Enter, Enter] + [Fail, CountBypass, Succeed], u, Fail, k, threshold);
  }

  /**
   An open circuit can close without a reset exactly when at least three calls may overlap
   and the threshold is at least two.
   */
  lemma OpenCircuitNeedsReset(k: nat, threshold: int)
    requires threshold > 0
    ensures ClosesByItself(k, threshold) <==> k >= 3 && threshold >= 2
  {
    if k >= 3 && threshold >= 2 {
      TripClearFail(k, threshold);
    } else if ClosesByItself(k, threshold) {
      var acts, s, a :| ClosedBy(acts, s, a, k, threshold);
      StaysOpen(acts, s, a, k, threshold);
    }
  }

  // ----- What a reset does -----

  /**
   From every state a reset leads to Healthy with no consecutive errors, no errors and no
   bypasses; the count of calls and the calls in flight stay, and the next call that enters
   reaches the optimizer.
   */
  lemma ResetHeals(s: System, k: nat, threshold: int)
    ensures Enabled(s, Reset, k)
    ensures var s' := Step(s, Reset, threshold);
            && s'.guard == Guard(Healthy, 0, 0, s.guard.totalIn, 0)
            && s'.calling == s.calling && s'.leaving == s.leaving && s'.skipped == s.skipped && s'.successes == s.successes
            && (Enabled(s', Enter, k) ==>
                  var t := Step(s', Enter, threshold);
                  t.calling == s.calling + 1 && t.leaving == s.leaving && t.skipped == s.skipped
                  && t.guard.totalIn == s.guard.totalIn + 1 && t.guard.state == Healthy)
  {
  }

  /** After a reset, calls that nothing overlaps and that succeed leave the guard healthy and without errors. */
  lemma {:induction false} HealthyAfterReset(g: Guard, n: nat, threshold: int)
    ensures var after := Succeeding(WasReset(g), n, threshold);
            after == Guard(Healthy, 0, 0, g.totalIn + n, 0)
  {
    if n > 0 { HealthyAfterReset(g, n - 1, threshold); }
  }

  /** The guard after n successful calls one after another. */
  function Succeeding(g: Guard, n: nat, threshold: int): Guard {
    if n == 0 then g else SequentialCall(Succeeding(g, n - 1, threshold), false, threshold)
  }

  /** With at most two calls overlapping, or a threshold of one, a step leaves Bypassed exactly when it is a reset. */
  lemma OnlyResetCloses(acts: seq<Action>, s: System, a: Action, k: nat, threshold: int)
    requires threshold > 0 && (k <= 2 || threshold == 1)
    requires Reaches(START, acts, s, k, threshold) && s.guard.state.Bypassed? && Enabled(s, a, k)
    ensures !Step(s, a, threshold).guard.state.Bypassed? <==> a == Reset
  {
    if a != Reset { StaysOpen(acts, s, a, k, threshold); }
  }

  /** Failing calls one after another trip the breaker at the threshold, and then every call is skipped. */
  lemma {:induction false} TripsAtThreshold(n: nat, threshold: int)
    requires threshold > 0
    ensures var g := Failing(n, threshold);
            && g.totalIn == n
            && (g.state.Bypassed? <==> n >= threshold)
            && g.totalErrors == g.consecutive == (if n <= threshold then n else threshold)
            && g.bypassCount == n
  {
    if n > 0 { TripsAtThreshold(n - 1, threshold); }
  }

  /** A new guard after n calls one after another for which the optimizer would raise. */
  function Failing(n: nat, threshold: int): Guard {
    if n == 0 then FRESH_GUARD else SequentialCall(Failing(n - 1, threshold), true, threshold)
  }
}
