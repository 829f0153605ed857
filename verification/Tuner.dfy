/**
 The coefficient tuner: a feedback loop that raises a rule's coefficient while its service
 level is missed and lets it decay to its static value once delivery is perfect.
 */
module Tuning {
  import opened BoundedQueue
  import opened Traffic
  import opened Reals
  import opened ValuePolicy

  datatype Settings = Settings(boost: real, decay: real, max: real, perfection: real, violation: real)

  function Clamp(x: real, high: real): (c: real)
    ensures high >= 0.0 ==> 0.0 <= c <= high
    ensures 0.0 <= x <= high ==> c == x
    ensures x < 0.0 <= high ==> c == 0.0
    ensures x > high >= 0.0 ==> c == high
  {
    Min(high, Max(0.0, x))
  }

  ghost predicate Sane(s: Settings) {
    && s.boost >= 1.0 && 0.0 <= s.decay <= 1.0 && s.max >= 0.0
    && 0.0 <= s.perfection <= 100.0 && 0.0 <= s.violation <= 100.0
  }

  datatype RuleState = RuleState(base: real, current: real, boosts: nat, decays: nat)

  /** The tuner's states and the overrides it writes into its policy. */
  datatype Loop = Loop(rules: seq<Rule>, states: map<string, RuleState>, overrides: map<string, real>)

  /** The service delivered, in percent of the contracted rate. */
  function ServicePct(delivered: real, contracted: real): real {
    if contracted > 0.0 then 100.0 * delivered / contracted else 100.0
  }

  /** The coefficient after one observation of the given service. */
  function Adjusted(s: Settings, base: real, current: real, service: real): real {
    if service < s.violation then Min(Times(current, s.boost), s.max)
    else if service >= s.perfection then Max(Times(current, s.decay), base)
    else current
  }

  /** A rule's state, or the one it starts with; an earlier override of 0 counts as none. */
  function StateOf(l: Loop, name: string): RuleState {
    if name in l.states then l.states[name]
    else
      var base := BaseFrom(l.rules, name, 0);
      RuleState(base, if name in l.overrides && l.overrides[name] != 0.0 then l.overrides[name] else base, 0, 0)
  }

  function Observed(l: Loop, s: Settings, name: string, delivered: real, contracted: real): Loop {
    var st := StateOf(l, name);
    var service := ServicePct(delivered, contracted);
    var c := Adjusted(s, st.base, st.current, service);
    var boosted, decayed := service < s.violation, service >= s.violation && service >= s.perfection;
    var st' := RuleState(st.base, c, st.boosts + (if boosted then 1 else 0), st.decays + (if decayed then 1 else 0));
    l.(states := l.states[name := st'], overrides := l.overrides[name := Max(0.0, c)])
  }

  function Rested(st: RuleState): RuleState {
    RuleState(st.base, st.base, 0, 0)
  }

  function WasReset(l: Loop, name: string): Loop {
    if name in l.states
    then l.(states := l.states[name := Rested(l.states[name])], overrides := l.overrides - {name})
    else l
  }

  function AllReset(l: Loop): Loop {
    l.(states := map n | n in l.states :: Rested(l.states[n]), overrides := l.overrides - l.states.Keys)
  }

  class ValueCoefficientTuner {
    const policy: FlowValuePolicy
    const settings: Settings
    var states: map<string, RuleState>

    ghost function State(): Loop
      reads this, policy
    {
      Loop(policy.rules, states, policy.overrides)
    }

    constructor (policy: FlowValuePolicy, boost: real, decay: real, max: real, perfection: real, violation: real)
      ensures Sane(settings) && this.policy == policy && states == map[]
      ensures settings == Settings(Max(1.0, boost), Clamp(decay, 1.0), Max(0.0, max),
                                   Clamp(perfection, 100.0), Clamp(violation, 100.0))
    {
      this.policy := policy;
      settings := Settings(Max(1.0, boost), Clamp(decay, 1.0), Max(0.0, max),
                           Clamp(perfection, 100.0), Clamp(violation, 100.0));
      states := map[];
    }

    method GetOrCreateState(name: string)
      modifies `states
      ensures states == old(states)[name := StateOf(old(State()), name)]
    {
      if name !in states {
        var base := policy.BaseOf(name);
        var override := policy.GetOverride(name);
        var current := if override.Some? && override.value != 0.0 then override.value else base;
        states := states[name := RuleState(base, current, 0, 0)];
      }
    }

    method Observe(name: string, delivered: real, contracted: real) returns (c: real)
      modifies this, policy`overrides
      ensures State() == Observed(old(State()), settings, name, delivered, contracted)
      ensures c == states[name].current
    {
      GetOrCreateState(name);
      var st := states[name];
      var service := ServicePct(delivered, contracted);
      if service < settings.violation {
        c := Min(Times(st.current, settings.boost), settings.max);
        st := st.(boosts := st.boosts + 1);
      } else if service >= settings.perfection {
        c := Max(Times(st.current, settings.decay), st.base);
        st := st.(decays := st.decays + 1);
      } else {
        c := st.current;
      }
      states := states[name := st.(current := c)];
      policy.SetOverride(name, c);
    }

    method Reset(name: string)
      modifies `states, policy`overrides
      ensures State() == WasReset(old(State()), name)
    {
      if name in states {
        states := states[name := Rested(states[name])];
        policy.ClearOverride(name);
      }
    }

    method ResetAll()
      modifies `states, policy`overrides
      ensures State() == AllReset(old(State()))
    {
      var names := states.Keys;
      while names != {}
        invariant names <= states.Keys == old(states).Keys
        invariant forall n | n in states :: states[n] == if n in names then old(states)[n] else Rested(old(states)[n])
        invariant policy.overrides == old(policy.overrides) - (states.Keys - names)
        decreases names
      {
        var n :| n in names;
        states := states[n := Rested(states[n])];
        policy.ClearOverride(n);
        names := names - {n};
      }
    }
  }

  // ----- The tuner and its policy stay in step -----

  datatype Op = Observe(name: string, delivered: real, contracted: real) | Reset(name: string) | ResetAll

  function Apply(l: Loop, s: Settings, op: Op): Loop {
    match op
    case Observe(name, delivered, contracted) => Observed(l, s, name, delivered, contracted)
    case Reset(name) => WasReset(l, name)
    case ResetAll => AllReset(l)
  }

  function Run(rules: seq<Rule>, s: Settings, ops: seq<Op>): (l: Loop)
    ensures l.rules == rules
  {
    if ops == [] then Loop(rules, map[], map[]) else Apply(Run(rules, s, ops[..|ops| - 1]), s, ops[|ops| - 1])
  }

  /** Rules that are observed start inside the tuner's range. */
  ghost predicate InRange(rules: seq<Rule>, s: Settings, ops: seq<Op>) {
    forall op | op in ops && op.Observe? :: 0.0 <= BaseFrom(rules, op.name, 0) <= s.max
  }

  /** Every tuned rule is within its range and the overrides are exactly the raised coefficients. */
  ghost predicate InStep(l: Loop, s: Settings) {
    && (forall n | n in l.states ::
          && l.states[n].base == BaseFrom(l.rules, n, 0)
          && 0.0 <= l.states[n].base <= l.states[n].current <= s.max)
    && (forall n | n in l.overrides :: n in l.states && l.overrides[n] == l.states[n].current)
    && (forall n | n in l.states && n !in l.overrides :: l.states[n].current == l.states[n].base)
  }

  lemma AdjustedStaysInRange(s: Settings, base: real, current: real, service: real)
    requires Sane(s) && 0.0 <= base <= current <= s.max
    ensures base <= Adjusted(s, base, current, service) <= s.max
  {
    hide Times;
    TimesOne(current);
    TimesMono(current, 1.0, s.boost);
    TimesMono(current, s.decay, 1.0);
  }

  lemma {:induction false} RunStaysInStep(rules: seq<Rule>, s: Settings, ops: seq<Op>)
    requires Sane(s) && InRange(rules, s, ops)
    ensures InStep(Run(rules, s, ops), s)
  {
    if ops != [] {
      var l, op := Run(rules, s, ops[..|ops| - 1]), ops[|ops| - 1];
      assert op in ops;
      RunStaysInStep(rules, s, ops[..|ops| - 1]);
      if op.Observe? {
        var st := StateOf(l, op.name);
        AdjustedStaysInRange(s, st.base, st.current, ServicePct(op.delivered, op.contracted));
      }
    }
  }

  ghost predicate UniqueNames(rules: seq<Rule>) {
    forall i, j | 0 <= i < j < |rules| :: rules[i].name != rules[j].name
  }

  lemma {:induction false} BaseOfRule(rules: seq<Rule>, i: nat, j: nat)
    requires UniqueNames(rules) && i <= j < |rules|
    ensures BaseFrom(rules, rules[j].name, i) == rules[j].coefficient
    decreases j - i
  {
    if i < j { BaseOfRule(rules, i + 1, j); }
  }

  /**
   After any run, a packet whose first match is a tuned rule is looked up at the tuner's
   current coefficient exactly when the rule is overridden or its own coefficient is the one
   the tuner took for its name.
   */
  lemma LookupAgreesExactly(rules: seq<Rule>, default: real, s: Settings, ops: seq<Op>, h: Header)
    requires Sane(s) && InRange(rules, s, ops)
    requires FirstMatch(rules, h, 0) < |rules|
    requires rules[FirstMatch(rules, h, 0)].name in Run(rules, s, ops).states
    ensures var l, rule := Run(rules, s, ops), rules[FirstMatch(rules, h, 0)];
            Lookup(Policy(rules, default, l.overrides), h) == l.states[rule.name].current
            <==> rule.name in l.overrides || rule.coefficient == BaseFrom(rules, rule.name, 0)
  {
    RunStaysInStep(rules, s, ops);
  }

  /**
   After any run of the tuner on a policy with unique rule names that nobody else writes,
   each tuned rule has base <= current <= max, and a packet whose first match is that rule
   gets exactly the tuner's current coefficient.
   */
  lemma TunerAndPolicyAgree(rules: seq<Rule>, default: real, s: Settings, ops: seq<Op>, name: string, h: Header)
    requires Sane(s) && InRange(rules, s, ops) && UniqueNames(rules)
    requires name in Run(rules, s, ops).states
    ensures var l := Run(rules, s, ops);
            && l.states[name].base == BaseFrom(rules, name, 0)
            && l.states[name].base <= l.states[name].current <= s.max
            && var n := FirstMatch(rules, h, 0);
               (n < |rules| && rules[n].name == name ==>
                  Lookup(Policy(rules, default, l.overrides), h) == l.states[name].current)
  {
    RunStaysInStep(rules, s, ops);
    var n := FirstMatch(rules, h, 0);
    if n < |rules| && rules[n].name == name {
      BaseOfRule(rules, 0, n);
      LookupAgreesExactly(rules, default, s, ops, h);
    }
  }

  // ----- One observation, in rates and coefficients -----

  lemma ServiceExactly(delivered: real, contracted: real, share: real)
    requires contracted > 0.0
    ensures ServicePct(delivered, contracted) < share <==> 100.0 * delivered < share * contracted
  {
    var service := ServicePct(delivered, contracted);
    assert service * contracted == 100.0 * delivered;
    if service < share { assert (share - service) * contracted > 0.0; } else { assert (service - share) * contracted >= 0.0; }
  }

  /** Below the violation share of the contracted rate: boosted, up to the ceiling. */
  ghost predicate Boosted(s: Settings, before: RuleState, after: RuleState) {
    && after.current == (if before.current * s.boost <= s.max then before.current * s.boost else s.max)
    && after.base == before.base && after.boosts == before.boosts + 1 && after.decays == before.decays
  }

  /** From the perfection share on: decayed, down to the base. */
  ghost predicate Decayed(s: Settings, before: RuleState, after: RuleState) {
    && after.current == (if before.current * s.decay >= before.base then before.current * s.decay else before.base)
    && after.base == before.base && after.boosts == before.boosts && after.decays == before.decays + 1
  }

  /**
   What an observation does to its rule: a boost below the violation share of the contracted
   rate, a decay from the perfection share on, and nothing at all in between.  A contract for
   no rate at all counts as fully served.
   */
  lemma ObservationByRates(l: Loop, s: Settings, name: string, delivered: real, contracted: real)
    requires Sane(s)
    ensures var before, after := StateOf(l, name), Observed(l, s, name, delivered, contracted).states[name];
            if contracted <= 0.0 then Decayed(s, before, after)
            else if 100.0 * delivered < s.violation * contracted then Boosted(s, before, after)
            else if 100.0 * delivered >= s.perfection * contracted then Decayed(s, before, after)
            else after == before
  {
    hide ServicePct, StateOf;
    if contracted > 0.0 {
      ServiceExactly(delivered, contracted, s.violation);
      ServiceExactly(delivered, contracted, s.perfection);
    } else {
      NoContract(delivered, contracted);
    }
    AdjustedByProducts(s, StateOf(l, name), ServicePct(delivered, contracted));
  }

  lemma NoContract(delivered: real, contracted: real)
    requires contracted <= 0.0
    ensures ServicePct(delivered, contracted) == 100.0
  {
  }

  lemma AdjustedByProducts(s: Settings, st: RuleState, service: real)
    ensures var c := Adjusted(s, st.base, st.current, service);
            c == if service < s.violation then (if st.current * s.boost <= s.max then st.current * s.boost else s.max)
                 else if service >= s.perfection then (if st.current * s.decay >= st.base then st.current * s.decay else st.base)
                 else st.current
  {
  }

  /** An observation tells the policy the rule's new coefficient and touches no other rule. */
  lemma ObservationIsLocal(l: Loop, s: Settings, name: string, delivered: real, contracted: real)
    ensures var l' := Observed(l, s, name, delivered, contracted);
            && l'.rules == l.rules && l'.states.Keys == l.states.Keys + {name} && l'.overrides.Keys == l.overrides.Keys + {name}
            && (l'.states[name].current >= 0.0 ==> l'.overrides[name] == l'.states[name].current)
            && (l'.states[name].current < 0.0 ==> l'.overrides[name] == 0.0)
            && (forall n | n in l.states && n != name :: l'.states[n] == l.states[n])
            && (forall n | n in l.overrides && n != name :: l'.overrides[n] == l.overrides[n])
  {
    hide Adjusted, StateOf, ServicePct;
  }

  /** Any series of observations in the acceptable zone leaves the rule as it was. */
  lemma {:induction false} AcceptableChangesNothing(l: Loop, s: Settings, name: string, rates: seq<(real, real)>)
    requires Sane(s)
    requires forall r | r in rates :: r.1 > 0.0 && s.violation * r.1 <= 100.0 * r.0 < s.perfection * r.1
    ensures StateOf(ObservedAll(l, s, name, rates), name) == StateOf(l, name)
  {
    hide Observed, StateOf;
    if rates != [] {
      var n := |rates| - 1;
      assert rates[n] in rates && forall r | r in rates[..n] :: r in rates;
      AcceptableChangesNothing(l, s, name, rates[..n]);
      AcceptableOnce(ObservedAll(l, s, name, rates[..n]), s, name, rates[n].0, rates[n].1);
    }
  }

  lemma AcceptableOnce(l: Loop, s: Settings, name: string, delivered: real, contracted: real)
    requires Sane(s) && contracted > 0.0
    requires s.violation * contracted <= 100.0 * delivered < s.perfection * contracted
    ensures StateOf(Observed(l, s, name, delivered, contracted), name) == StateOf(l, name)
  {
    ObservationByRates(l, s, name, delivered, contracted);
  }

  /** A rule seen for the first time starts from its earlier override, if that is not 0, or from its own coefficient. */
  lemma FirstObservation(l: Loop, name: string, i: nat)
    requires name !in l.states && i <= |l.rules| && (forall j | 0 <= j < i :: l.rules[j].name != name)
    requires i < |l.rules| ==> l.rules[i].name == name
    ensures var st := StateOf(l, name);
            && st.base == (if i < |l.rules| then l.rules[i].coefficient else 1.0)
            && st.current == (if name in l.overrides && l.overrides[name] != 0.0 then l.overrides[name] else st.base)
            && st.boosts == st.decays == 0
  {
    BaseFound(l.rules, name, 0, i);
  }

  lemma {:induction false} BaseFound(rules: seq<Rule>, name: string, from: nat, i: nat)
    requires from <= i <= |rules| && (forall j | from <= j < i :: rules[j].name != name)
    requires i < |rules| ==> rules[i].name == name
    ensures BaseFrom(rules, name, from) == if i < |rules| then rules[i].coefficient else 1.0
    decreases i - from
  {
    if from < i { BaseFound(rules, name, from + 1, i); }
  }

  // ----- Resets -----

  /** A reset puts a tuned rule back to its base and takes its override away; other rules stay as they are. */
  lemma ResetRests(l: Loop, name: string)
    ensures var l' := WasReset(l, name);
            && l'.rules == l.rules && l'.states.Keys == l.states.Keys
            && (name in l.states ==>
                  && l'.states[name].current == l'.states[name].base == l.states[name].base
                  && l'.states[name].boosts == l'.states[name].decays == 0 && name !in l'.overrides)
            && (name !in l.states ==> l' == l)
            && (forall n | n in l.states && n != name :: l'.states[n] == l.states[n])
            && (forall n | n != name :: n in l'.overrides <==> n in l.overrides)
            && (forall n | n in l.overrides && n != name :: l'.overrides[n] == l.overrides[n])
  {
  }

  /** Resetting everything does that to every tuned rule and to no other override. */
  lemma ResetAllRests(l: Loop)
    ensures var l' := AllReset(l);
            && l'.rules == l.rules && l'.states.Keys == l.states.Keys
            && (forall n | n in l.states ::
                  && l'.states[n].current == l'.states[n].base == l.states[n].base
                  && l'.states[n].boosts == l'.states[n].decays == 0 && n !in l'.overrides)
            && (forall n | n !in l.states :: n in l'.overrides <==> n in l.overrides)
            && (forall n | n in l.overrides && n !in l.states :: l'.overrides[n] == l.overrides[n])
  {
  }

  /** After any run that ends in resetting everything, the policy answers as if it had never been tuned. */
  lemma ResetAllRestoresPolicy(rules: seq<Rule>, default: real, s: Settings, ops: seq<Op>, h: Header)
    requires Sane(s) && InRange(rules, s, ops)
    ensures Lookup(Policy(rules, default, Run(rules, s, ops + [ResetAll]).overrides), h)
         == Lookup(Policy(rules, default, map[]), h)
  {
    assert (ops + [ResetAll])[..|ops|] == ops;
    RunStaysInStep(rules, s, ops);
    ResetAllRests(Run(rules, s, ops));
    assert Run(rules, s, ops + [ResetAll]).overrides == map[];
  }

  /**
   An observation boosts exactly when the delivered rate is below the violation share
   of the contracted rate, 90% unless configured otherwise; missing the contract by less
   changes nothing.
   */
  lemma BoostsBelowViolationShare(l: Loop, s: Settings, name: string, delivered: real, contracted: real)
    requires contracted > 0.0
    ensures Observed(l, s, name, delivered, contracted).states[name].boosts == StateOf(l, name).boosts + 1
       <==> 100.0 * delivered < Times(s.violation, contracted)
  {
    hide Times;
    Quotient(100.0 * delivered, contracted);
    TimesSwap(contracted, ServicePct(delivered, contracted));
    TimesSwap(contracted, s.violation);
    if ServicePct(delivered, contracted) >= s.violation {
      TimesMono(contracted, s.violation, ServicePct(delivered, contracted));
    } else {
      StrictlyLess(contracted, ServicePct(delivered, contracted), s.violation);
    }
  }

  lemma StrictlyLess(a: real, x: real, y: real)
    requires a > 0.0 && x < y
    ensures Times(a, x) < Times(a, y)
  {
    assert a * (y - x) > 0.0;
  }

  // ----- Convergence -----

  function Pow(x: real, n: nat): real {
    if n == 0 then 1.0 else Times(x, Pow(x, n - 1))
  }

  /** The coefficient after a series of observations. */
  function Series(s: Settings, base: real, c: real, services: seq<real>): real {
    if services == [] then c
    else Adjusted(s, base, Series(s, base, c, services[..|services| - 1]), services[|services| - 1])
  }

  /** A run of observations of one rule moves its coefficient as the series does. */
  lemma {:induction false} ObservationsFollowSeries(l: Loop, s: Settings, name: string, rates: seq<(real, real)>)
    ensures var l' := ObservedAll(l, s, name, rates);
            && StateOf(l', name).base == StateOf(l, name).base
            && StateOf(l', name).current == Series(s, StateOf(l, name).base, StateOf(l, name).current, Services(rates))
  {
    if rates != [] {
      ObservationsFollowSeries(l, s, name, rates[..|rates| - 1]);
      assert Services(rates)[..|rates| - 1] == Services(rates[..|rates| - 1]);
    }
  }

  function Services(rates: seq<(real, real)>): (r: seq<real>)
    ensures |r| == |rates| && forall i | 0 <= i < |r| :: r[i] == ServicePct(rates[i].0, rates[i].1)
  {
    seq(|rates|, i requires 0 <= i < |rates| => ServicePct(rates[i].0, rates[i].1))
  }

  function ObservedAll(l: Loop, s: Settings, name: string, rates: seq<(real, real)>): Loop {
    if rates == [] then l
    else
      var last := rates[|rates| - 1];
      Observed(ObservedAll(l, s, name, rates[..|rates| - 1]), s, name, last.0, last.1)
  }

  ghost predicate AllPerfect(s: Settings, services: seq<real>) {
    forall x | x in services :: x >= s.perfection && x >= s.violation
  }

  ghost predicate AllViolated(s: Settings, services: seq<real>) {
    forall x | x in services :: x < s.violation
  }

  /** a * (b * p) == (a * p) * b */
  lemma Regroup(a: real, b: real, p: real)
    ensures Times(a, Times(b, p)) == Times(Times(a, p), b)
  {
    hide Times;
    TimesSwap(b, p);
    TimesAssociates(a, p, b);
  }

  lemma PerfectOnce(c: real, p: real, decay: real, base: real)
    requires 0.0 <= decay <= 1.0 && base >= 0.0
    ensures Max(Times(Max(Times(c, p), base), decay), base) == Max(Times(c, Times(decay, p)), base)
  {
    hide Times;
    Regroup(c, decay, p);
    TimesOne(base);
    TimesMono(base, decay, 1.0);
    if Times(c, p) < base {
      TimesSwap(Times(c, p), decay);
      TimesSwap(base, decay);
      TimesMono(decay, Times(c, p), base);
    }
  }

  lemma ViolatedOnce(c: real, p: real, boost: real, max: real)
    requires boost >= 1.0 && max >= 0.0
    ensures Min(Times(Min(Times(c, p), max), boost), max) == Min(Times(c, Times(boost, p)), max)
  {
    hide Times;
    Regroup(c, boost, p);
    TimesOne(max);
    TimesMono(max, 1.0, boost);
    if Times(c, p) > max {
      TimesSwap(Times(c, p), boost);
      TimesSwap(max, boost);
      TimesMono(boost, max, Times(c, p));
    }
  }

  /** n perfect observations from c >= base leave exactly max(c * decay^n, base). */
  lemma {:induction false} PerfectSeries(s: Settings, base: real, c: real, services: seq<real>)
    requires Sane(s) && 0.0 <= base <= c && AllPerfect(s, services)
    ensures Series(s, base, c, services) == Max(Times(c, Pow(s.decay, |services|)), base)
  {
    hide Times;
    var n := |services|;
    if n == 0 {
      TimesOne(c);
    } else {
      var before := services[..n - 1];
      assert forall x | x in before :: x in services;
      PerfectSeries(s, base, c, before);
      assert services[n - 1] in services;
      PerfectOnce(c, Pow(s.decay, n - 1), s.decay, base);
    }
  }

  /** n violations from 0 <= c <= max leave exactly min(c * boost^n, max). */
  lemma {:induction false} ViolationSeries(s: Settings, base: real, c: real, services: seq<real>)
    requires Sane(s) && 0.0 <= c <= s.max && AllViolated(s, services)
    ensures Series(s, base, c, services) == Min(Times(c, Pow(s.boost, |services|)), s.max)
  {
    hide Times;
    var n := |services|;
    if n == 0 {
      TimesOne(c);
    } else {
      var before := services[..n - 1];
      assert forall x | x in before :: x in services;
      ViolationSeries(s, base, c, before);
      assert services[n - 1] in services;
      ViolatedOnce(c, Pow(s.boost, n - 1), s.boost, s.max);
    }
  }

  /** Bernoulli's inequality, with the growth rate written 1 + x. */
  lemma {:induction false} PowGrows(x: real, n: nat)
    requires x >= 0.0
    ensures Pow(1.0 + x, n) >= 1.0 + Times(n as real, x)
  {
    hide Times;
    if n == 0 {
      TimesOne(x);
    } else {
      PowGrows(x, n - 1);
      BernoulliStep(x, (n - 1) as real, Pow(1.0 + x, n - 1));
    }
  }

  lemma BernoulliStep(x: real, m: real, p: real)
    requires x >= 0.0 && m >= 0.0 && p >= 1.0 + Times(m, x)
    ensures Times(1.0 + x, p) >= 1.0 + Times(m + 1.0, x)
  {
    assert (1.0 + x) * p >= (1.0 + x) * (1.0 + m * x) by { TimesMono(1.0 + x, 1.0 + m * x, p); }
    assert (1.0 + x) * (1.0 + m * x) == 1.0 + (m + 1.0) * x + m * x * x;
    assert m * x * x >= 0.0 by { TimesMono(m, 0.0, x); TimesMono(m * x, 0.0, x); }
  }

  lemma {:induction false} PowInverse(x: real, y: real, n: nat)
    requires Times(x, y) == 1.0
    ensures Times(Pow(x, n), Pow(y, n)) == 1.0
  {
    if n > 0 {
      PowInverse(x, y, n - 1);
      PairUp(x, Pow(x, n - 1), y, Pow(y, n - 1));
    }
  }

  lemma PairUp(x: real, p: real, y: real, q: real)
    ensures Times(Times(x, p), Times(y, q)) == Times(Times(x, y), Times(p, q))
  {
  }

  lemma {:induction false} PowIsPositive(x: real, n: nat)
    requires x > 0.0
    ensures Pow(x, n) > 0.0
  {
    hide Times;
    if n > 0 {
      PowIsPositive(x, n - 1);
      TimesPositive(x, Pow(x, n - 1));
    }
  }

  /** How often growth by a factor of 1 + x takes a positive c to a goal that is no less. */
  function StepsUp(c: real, goal: real, x: real): (n: int)
    requires c > 0.0 && x > 0.0
  {
    TimesPositive(c, x);
    ((goal - c) / Times(c, x)).Floor + 1
  }

  lemma StepsSuffice(c: real, goal: real, x: real)
    requires 0.0 < c <= goal && x > 0.0
    ensures StepsUp(c, goal, x) > 0
    ensures c + Times(StepsUp(c, goal, x) as real, Times(c, x)) >= goal
  {
    hide Times;
    TimesPositive(c, x);
    var r := (goal - c) / Times(c, x);
    Quotient(goal - c, Times(c, x));
    TimesMono(Times(c, x), r, StepsUp(c, goal, x) as real);
    TimesSwap(Times(c, x), StepsUp(c, goal, x) as real);
  }

  lemma GrowthReaches(c: real, goal: real, x: real, factor: real)
    requires 0.0 < c <= goal && x > 0.0 && factor == 1.0 + x
    ensures StepsUp(c, goal, x) > 0
    ensures Times(c, Pow(factor, StepsUp(c, goal, x))) >= goal
  {
    hide StepsUp, Times;
    StepsSuffice(c, goal, x);
    var n := StepsUp(c, goal, x);
    PowGrows(x, n);
    TimesMono(c, 1.0 + Times(n as real, x), Pow(factor, n));
    TimesAdds(c, 1.0, Times(n as real, x));
    TimesOne(c);
    Regroup(c, n as real, x);
    TimesSwap(Times(c, x), n as real);
  }

  /** With boost > 1 and c > 0, an explicit number of violations reaches the ceiling. */
  lemma ViolationsReachCeiling(s: Settings, base: real, c: real, services: seq<real>)
    requires Sane(s) && s.boost > 1.0 && 0.0 < c <= s.max && AllViolated(s, services)
    requires |services| == StepsUp(c, s.max, s.boost - 1.0)
    ensures Series(s, base, c, services) == s.max
  {
    hide StepsUp, Pow, Series, Times;
    ViolationSeries(s, base, c, services);
    GrowthReaches(c, s.max, s.boost - 1.0, s.boost);
  }

  /** Growing by a factor of 1 + x undoes one decay. */
  function Undoing(decay: real): (x: real)
    requires 0.0 < decay < 1.0
    ensures x > 0.0 && Times(decay, 1.0 + x) == 1.0
  {
    Quotient(1.0 - decay, decay);
    TimesAdds(decay, 1.0, (1.0 - decay) / decay);
    (1.0 - decay) / decay
  }

  /** With 0 < decay < 1 and base > 0, an explicit number of perfect observations reaches base. */
  lemma PerfectionReachesBase(s: Settings, base: real, c: real, services: seq<real>)
    requires Sane(s) && 0.0 < s.decay < 1.0 && 0.0 < base <= c && AllPerfect(s, services)
    requires |services| == StepsUp(base, c, Undoing(s.decay))
    ensures Series(s, base, c, services) == base
  {
    hide StepsUp, Pow, Series, Times, Undoing;
    PerfectSeries(s, base, c, services);
    GrowthReaches(base, c, Undoing(s.decay), 1.0 + Undoing(s.decay));
    ShrinkBelow(base, c, s.decay, 1.0 + Undoing(s.decay), |services|);
  }

  lemma ShrinkBelow(base: real, c: real, decay: real, up: real, n: nat)
    requires decay > 0.0 && Times(decay, up) == 1.0 && Times(base, Pow(up, n)) >= c
    ensures Times(c, Pow(decay, n)) <= base
  {
    hide Times;
    var d, u := Pow(decay, n), Pow(up, n);
    PowInverse(decay, up, n);
    PowIsPositive(decay, n);
    TimesMono(d, c, Times(base, u));
    TimesSwap(d, c);
    TimesSwap(d, u);
    TimesSwap(d, Times(base, u));
    TimesAssociates(base, u, d);
    TimesOne(base);
  }
}
