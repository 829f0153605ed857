/**
 The value policy: an ordered rule table whose first match decides a packet's coefficient,
 with overrides by rule name that the tuner sets at run time.
 */
module ValuePolicy {
  import opened BoundedQueue
  import opened Traffic
  import opened Text

  datatype Rule = Rule(name: string, ports: seq<int>, protocols: seq<string>, coefficient: real)

  /** The parts of a packet that rules look at. */
  datatype Header = Header(srcPort: int, dstPort: int, protocol: string)

  predicate Matches(rule: Rule, h: Header) {
    && (rule.ports != [] ==> h.srcPort in rule.ports || h.dstPort in rule.ports)
    && (rule.protocols != [] ==> Lower(h.protocol) in rule.protocols)
  }

  datatype Policy = Policy(rules: seq<Rule>, default: real, overrides: map<string, real>)

  /** The position of the first matching rule at i or later, or the number of rules. */
  function FirstMatch(rules: seq<Rule>, h: Header, i: nat): (n: nat)
    requires i <= |rules|
    ensures i <= n <= |rules| && (n < |rules| ==> Matches(rules[n], h))
    ensures forall j | i <= j < n :: !Matches(rules[j], h)
    decreases |rules| - i
  {
    if i == |rules| || Matches(rules[i], h) then i else FirstMatch(rules, h, i + 1)
  }

  function Lookup(p: Policy, h: Header): real {
    var n := FirstMatch(p.rules, h, 0);
    if n == |p.rules| then p.default
    else if p.rules[n].name in p.overrides then p.overrides[p.rules[n].name]
    else p.rules[n].coefficient
  }

  /**
   A lookup in terms of the rules: the first rule whose ports are empty or hold either port of
   the packet, and whose protocols are empty or hold the packet's in lower case, gives its
   override or its own coefficient; without such a rule the default is given.
   */
  lemma LookupExactly(p: Policy, h: Header, i: nat)
    requires i <= |p.rules|
    requires forall j | 0 <= j < i ::
               || (p.rules[j].ports != [] && h.srcPort !in p.rules[j].ports && h.dstPort !in p.rules[j].ports)
               || (p.rules[j].protocols != [] && Lower(h.protocol) !in p.rules[j].protocols)
    requires i < |p.rules| ==>
               && (p.rules[i].ports == [] || h.srcPort in p.rules[i].ports || h.dstPort in p.rules[i].ports)
               && (p.rules[i].protocols == [] || Lower(h.protocol) in p.rules[i].protocols)
    ensures Lookup(p, h) ==
            if i == |p.rules| then p.default
            else if p.rules[i].name in p.overrides then p.overrides[p.rules[i].name]
            else p.rules[i].coefficient
  {
    var n := FirstMatch(p.rules, h, 0);
    assert n < i ==> Matches(p.rules[n], h);
    assert i < n ==> !Matches(p.rules[i], h);
  }

  lemma {:induction false} SameMatches(rules: seq<Rule>, h: Header, g: Header, i: nat)
    requires i <= |rules| && forall rule | rule in rules :: Matches(rule, h) == Matches(rule, g)
    ensures FirstMatch(rules, h, i) == FirstMatch(rules, g, i)
    decreases |rules| - i
  {
    if i < |rules| && !Matches(rules[i], h) { SameMatches(rules, h, g, i + 1); }
  }

  /** The direction of a packet and the letter case of its protocol do not matter. */
  lemma LookupIgnoresDirectionAndCase(p: Policy, h: Header, protocol: string)
    requires Lower(protocol) == Lower(h.protocol)
    ensures Lookup(p, h) == Lookup(p, Header(h.dstPort, h.srcPort, protocol))
  {
    SameMatches(p.rules, h, Header(h.dstPort, h.srcPort, protocol), 0);
  }

  /** The coefficient of the first rule of that name, or 1 when there is none. */
  function BaseFrom(rules: seq<Rule>, name: string, i: nat): real
    requires i <= |rules|
    decreases |rules| - i
  {
    if i == |rules| then 1.0
    else if rules[i].name == name then rules[i].coefficient
    else BaseFrom(rules, name, i + 1)
  }

  class FlowValuePolicy {
    const rules: seq<Rule>
    const default: real
    var overrides: map<string, real>

    ghost function State(): Policy
      reads this
    {
      Policy(rules, default, overrides)
    }

    constructor (rules: seq<Rule>, defaultCoefficient: real)
      ensures State() == Policy(rules, Max(0.0, defaultCoefficient), map[])
    {
      this.rules, default, overrides := rules, Max(0.0, defaultCoefficient), map[];
    }

    method GetCoefficient(h: Header) returns (c: real)
      ensures c == Lookup(State(), h)
    {
      for i := 0 to |rules|
        invariant FirstMatch(rules, h, i) == FirstMatch(rules, h, 0)
      {
        if Matches(rules[i], h) {
          return if rules[i].name in overrides then overrides[rules[i].name] else rules[i].coefficient;
        }
      }
      return default;
    }

    method Assign(packet: Packet) returns (c: real)
      modifies packet`coefficient
      ensures c == Lookup(State(), Header(packet.srcPort, packet.dstPort, packet.protocol))
      ensures packet.coefficient == c
    {
      c := GetCoefficient(Header(packet.srcPort, packet.dstPort, packet.protocol));
      packet.coefficient := c;
    }

    /** The static coefficient of a rule by name, as the tuner looks it up. */
    method BaseOf(name: string) returns (base: real)
      ensures base == BaseFrom(rules, name, 0)
    {
      for i := 0 to |rules|
        invariant BaseFrom(rules, name, i) == BaseFrom(rules, name, 0)
      {
        if rules[i].name == name {
          return rules[i].coefficient;
        }
      }
      return 1.0;
    }

    method SetOverride(name: string, coefficient: real)
      modifies `overrides
      ensures State() == old(State()).(overrides := old(overrides)[name := Max(0.0, coefficient)])
    {
      overrides := overrides[name := Max(0.0, coefficient)];
    }

    function GetOverride(name: string): Option<real>
      reads this
    {
      if name in overrides then Some(overrides[name]) else None
    }

    method ClearOverride(name: string)
      modifies `overrides
      ensures State() == old(State()).(overrides := old(overrides) - {name})
    {
      overrides := overrides - {name};
    }
  }
}
