/**
 The token bucket.  Tokens are bytes; they refill with elapsed time up to a capacity, and a
 request is granted exactly when it finds enough of them.
 */
module TokenBucketModel {
  import opened BoundedQueue
  import opened Traffic

  datatype Bucket = Bucket(rate: real, capacity: real, tokens: real, last: real)

  /** The tokens a bucket earns over a time, before the cap. */
  function Earned(rate: real, elapsed: real): real {
    elapsed * rate
  }

  function Refilled(b: Bucket, now: real): Bucket {
    b.(tokens := Min(b.capacity, b.tokens + Earned(b.rate, now - b.last)), last := now)
  }

  /** A request for n bytes: the bucket afterwards, and whether it was granted. */
  function Consume(b: Bucket, n: int, now: real): (Bucket, bool) {
    var full := Refilled(b, now);
    if n as real <= full.tokens then (full.(tokens := full.tokens - n as real), true) else (full, false)
  }

  ghost predicate Good(b: Bucket) {
    b.rate > 0.0 && b.capacity > 0.0 && b.tokens <= b.capacity
  }

  class TokenBucket {
    const rate: real
    const capacity: real
    var tokens: real
    var last: real

    ghost function State(): Bucket
      reads this
    {
      Bucket(rate, capacity, tokens, last)
    }

    constructor Start(rate: real, capacity: real, now: real)
      ensures State() == Bucket(rate, capacity, capacity, now)
    {
      this.rate, this.capacity, tokens, last := rate, capacity, capacity, now;
    }

    /** A full bucket, or nothing where the original raises an error. */
    static method Create(rate: real, capacity: real, now: real) returns (bucket: Option<TokenBucket>)
      ensures bucket.Some? <==> rate > 0.0 && capacity > 0.0
      ensures bucket.Some? ==> fresh(bucket.value) && bucket.value.State() == Bucket(rate, capacity, capacity, now)
      ensures bucket.Some? ==> Good(bucket.value.State())
    {
      if rate <= 0.0 || capacity <= 0.0 {
        return None;
      }
      var b := new TokenBucket.Start(rate, capacity, now);
      return Some(b);
    }

    method Refill(now: real)
      modifies this
      ensures State() == Refilled(old(State()), now)
    {
      var elapsed := now - last;
      tokens := Min(capacity, tokens + Earned(rate, elapsed));
      last := now;
    }

    method TryConsume(nbytes: int, now: real) returns (granted: bool)
      modifies this
      ensures (State(), granted) == Consume(old(State()), nbytes, now)
    {
      Refill(now);
      if nbytes as real <= tokens {
        tokens := tokens - nbytes as real;
        return true;
      }
      return false;
    }

    method Available(now: real) returns (left: real)
      modifies this
      ensures State() == Refilled(old(State()), now) && left == tokens
    {
      Refill(now);
      return tokens;
    }
  }

  // ----- Runs of one bucket -----

  /** A call on a bucket.  A granted request whose packet is dropped later is not `kept`. */
  datatype Call = Request(at: real, bytes: int, kept: bool) | Probe(at: real)

  function After(b: Bucket, call: Call): Bucket {
    match call
    case Request(at, bytes, _) => Consume(b, bytes, at).0
    case Probe(at) => Refilled(b, at)
  }

  predicate Granted(b: Bucket, call: Call) {
    call.Request? && Consume(b, call.bytes, call.at).1
  }

  function Final(b: Bucket, calls: seq<Call>): Bucket
    decreases |calls|
  {
    if calls == [] then b else Final(After(b, calls[0]), calls[1..])
  }

  function Decisions(b: Bucket, calls: seq<Call>): (r: seq<bool>)
    ensures |r| == |calls|
    decreases |calls|
  {
    if calls == [] then [] else [Granted(b, calls[0])] + Decisions(After(b, calls[0]), calls[1..])
  }

  /** The clock never goes back, from the bucket's last refill on. */
  ghost predicate Ordered(from: real, calls: seq<Call>)
    decreases |calls|
  {
    calls == [] || (from <= calls[0].at && Ordered(calls[0].at, calls[1..]))
  }

  ghost predicate NonNegative(calls: seq<Call>) {
    forall call | call in calls && call.Request? :: call.bytes >= 0
  }

  /** Bytes that were granted and kept at times in [s, t]. */
  function PassedIn(b: Bucket, calls: seq<Call>, s: real, t: real): int
    decreases |calls|
  {
    if calls == [] then 0
    else
      (if Granted(b, calls[0]) && calls[0].kept && s <= calls[0].at <= t then calls[0].bytes else 0)
      + PassedIn(After(b, calls[0]), calls[1..], s, t)
  }

  // ----- Refills compose -----

  lemma EarnedAdds(rate: real, x: real, y: real)
    ensures Earned(rate, x) + Earned(rate, y) == Earned(rate, x + y)
  {
  }

  lemma EarnedIsNonNegative(rate: real, x: real)
    requires rate >= 0.0 && x >= 0.0
    ensures Earned(rate, x) >= 0.0
  {
  }

  lemma RefillCompose(b: Bucket, u: real, v: real)
    requires b.rate >= 0.0 && b.last <= u <= v
    ensures Refilled(Refilled(b, u), v) == Refilled(b, v)
  {
    hide Earned;
    EarnedAdds(b.rate, u - b.last, v - u);
    EarnedIsNonNegative(b.rate, v - u);
  }

  lemma AfterIgnoresRefill(b: Bucket, call: Call, u: real)
    requires b.rate >= 0.0 && b.last <= u <= call.at
    ensures After(Refilled(b, u), call) == After(b, call) && Granted(Refilled(b, u), call) == Granted(b, call)
  {
    RefillCompose(b, u, call.at);
  }

  // ----- The rate bound -----

  /** What one call leaves: what it grants is paid for by tokens at hand and tokens earned. */
  lemma AfterStaysGood(b: Bucket, call: Call)
    requires Good(b) && b.tokens >= 0.0 && b.last <= call.at && (call.Request? ==> call.bytes >= 0)
    ensures var b' := After(b, call);
            && Good(b') && b'.rate == b.rate && b'.capacity == b.capacity && b'.last == call.at && b'.tokens >= 0.0
            && b'.tokens + (if Granted(b, call) then call.bytes as real else 0.0)
               <= b.tokens + Earned(b.rate, call.at - b.last)
            && b'.tokens + (if Granted(b, call) then call.bytes as real else 0.0) <= b.capacity
  {
    EarnedIsNonNegative(b.rate, call.at - b.last);
  }

  lemma {:induction false} NothingAfterward(b: Bucket, calls: seq<Call>, s: real, t: real)
    requires Ordered(b.last, calls) && b.last > t
    ensures PassedIn(b, calls, s, t) == 0
    decreases |calls|
  {
    if calls != [] { NothingAfterward(After(b, calls[0]), calls[1..], s, t); }
  }

  /** From a state inside the interval, only the tokens at hand and the refills can be passed. */
  lemma {:induction false} BoundFromInside(b: Bucket, calls: seq<Call>, s: real, t: real)
    requires Good(b) && b.tokens >= 0.0 && Ordered(b.last, calls) && NonNegative(calls) && s <= b.last <= t
    ensures PassedIn(b, calls, s, t) as real <= b.tokens + Earned(b.rate, t - b.last)
    decreases |calls|
  {
    hide Earned, After, Consume;
    EarnedIsNonNegative(b.rate, t - b.last);
    if calls != [] {
      var b', call := After(b, calls[0]), calls[0];
      assert call in calls;
      AfterStaysGood(b, call);
      if call.at > t {
        NothingAfterward(b', calls[1..], s, t);
      } else {
        BoundFromInside(b', calls[1..], s, t);
        EarnedAdds(b.rate, call.at - b.last, t - call.at);
        assert (call.at - b.last) + (t - call.at) == t - b.last;
      }
    }
  }

  /**
   Over every interval [s, t] of every run, the bytes passed are at most the capacity plus
   the rate times the length of the interval.
   */
  lemma {:induction false} RateBound(b: Bucket, calls: seq<Call>, s: real, t: real)
    requires Good(b) && b.tokens >= 0.0 && Ordered(b.last, calls) && NonNegative(calls) && s <= t
    ensures PassedIn(b, calls, s, t) as real <= b.capacity + Earned(b.rate, t - s)
    decreases |calls|
  {
    hide Earned, After, Consume;
    EarnedIsNonNegative(b.rate, t - s);
    if calls != [] {
      var b', call := After(b, calls[0]), calls[0];
      assert call in calls;
      AfterStaysGood(b, call);
      if call.at < s {
        RateBound(b', calls[1..], s, t);
      } else if call.at > t {
        NothingAfterward(b', calls[1..], s, t);
      } else {
        BoundFromInside(b', calls[1..], s, t);
        EarnedAdds(b.rate, call.at - s, t - call.at);
        EarnedIsNonNegative(b.rate, call.at - s);
      }
    }
  }

  // ----- Which requests are granted -----

  /** The bytes that a run's granted requests take. */
  function Taken(calls: seq<Call>, granted: seq<bool>): int
    requires |calls| == |granted|
  {
    if calls == [] then 0
    else (if granted[0] && calls[0].Request? then calls[0].bytes else 0) + Taken(calls[1..], granted[1..])
  }

  /** x more bytes fit at time t on top of those granted, with `level` tokens at `from` and a rate since. */
  ghost predicate Fits(level: real, from: real, rate: real, calls: seq<Call>, granted: seq<bool>, x: real, t: real)
    requires |calls| == |granted|
  {
    x + Taken(calls, granted) as real <= level + rate * (t - from)
  }

  /**
   x more bytes at time t, after the calls, stay within what the bucket held at t0 and has
   earned since, and on no interval from a call to t exceed a full bucket and its earnings.
   */
  ghost predicate Affordable(
    tokens: real, t0: real, rate: real, capacity: real, calls: seq<Call>, granted: seq<bool>, x: real, t: real)
    requires |calls| == |granted|
  {
    && Fits(tokens, t0, rate, calls, granted, x, t)
    && (forall i | 0 <= i < |calls| :: Fits(capacity, calls[i].at, rate, calls[i..], granted[i..], x, t))
    && x <= capacity
  }

  /** The last two parts, from the front of the run. */
  ghost predicate FitsFromEach(rate: real, capacity: real, calls: seq<Call>, granted: seq<bool>, x: real, t: real)
    requires |calls| == |granted|
    decreases |calls|
  {
    if calls == [] then x <= capacity
    else Fits(capacity, calls[0].at, rate, calls, granted, x, t) && FitsFromEach(rate, capacity, calls[1..], granted[1..], x, t)
  }

  lemma {:induction false} FitsFromEachExactly(
    rate: real, capacity: real, calls: seq<Call>, granted: seq<bool>, x: real, t: real)
    requires |calls| == |granted|
    ensures FitsFromEach(rate, capacity, calls, granted, x, t)
       <==> (forall i | 0 <= i < |calls| :: Fits(capacity, calls[i].at, rate, calls[i..], granted[i..], x, t)) && x <= capacity
    decreases |calls|
  {
    hide Fits;
    if calls != [] {
      var rest, later := calls[1..], granted[1..];
      FitsFromEachExactly(rate, capacity, rest, later, x, t);
      assert calls[0..] == calls && granted[0..] == granted;
      assert forall i | 0 <= i < |rest| :: rest[i..] == calls[i + 1..] && later[i..] == granted[i + 1..];
      if forall i | 0 <= i < |rest| :: Fits(capacity, rest[i].at, rate, rest[i..], later[i..], x, t) {
        forall i | 0 < i < |calls| ensures Fits(capacity, calls[i].at, rate, calls[i..], granted[i..], x, t) {
          assert Fits(capacity, rest[i - 1].at, rate, rest[i - 1..], later[i - 1..], x, t);
        }
      }
      if forall i | 0 <= i < |calls| :: Fits(capacity, calls[i].at, rate, calls[i..], granted[i..], x, t) {
        forall i | 0 <= i < |rest| ensures Fits(capacity, rest[i].at, rate, rest[i..], later[i..], x, t) {
          assert Fits(capacity, calls[i + 1].at, rate, calls[i + 1..], granted[i + 1..], x, t);
        }
      }
    }
  }

  lemma FitsByEarned(level: real, from: real, rate: real, calls: seq<Call>, granted: seq<bool>, x: real, t: real)
    requires |calls| == |granted|
    ensures Fits(level, from, rate, calls, granted, x, t)
       <==> x + Taken(calls, granted) as real <= level + Earned(rate, t - from)
  {
    hide Taken;
    assert Earned(rate, t - from) == rate * (t - from);
  }

  /** The tokens found at any time after any run, from the history of grants alone. */
  lemma {:induction false} TokensExactly(b: Bucket, calls: seq<Call>, x: real, t: real)
    ensures x <= Refilled(Final(b, calls), t).tokens
       <==> Fits(b.tokens, b.last, b.rate, calls, Decisions(b, calls), x, t)
            && FitsFromEach(b.rate, b.capacity, calls, Decisions(b, calls), x, t)
    decreases |calls|
  {
    hide Earned, Fits;
    var granted := Decisions(b, calls);
    FitsByEarned(b.tokens, b.last, b.rate, calls, granted, x, t);
    if calls != [] {
      var b' := After(b, calls[0]);
      TokensExactly(b', calls[1..], x, t);
      assert granted[1..] == Decisions(b', calls[1..]);
      EarnedAdds(b.rate, calls[0].at - b.last, t - calls[0].at);
      FitsByEarned(b.capacity, calls[0].at, b.rate, calls, granted, x, t);
      FitsByEarned(b'.tokens, calls[0].at, b.rate, calls[1..], granted[1..], x, t);
    }
  }

  lemma {:induction false} DecisionAt(b: Bucket, calls: seq<Call>, k: nat)
    requires k < |calls|
    ensures Decisions(b, calls)[k] == Granted(Final(b, calls[..k]), calls[k])
    ensures Decisions(b, calls)[..k] == Decisions(b, calls[..k])
    decreases k
  {
    if k > 0 {
      DecisionAt(After(b, calls[0]), calls[1..], k - 1);
      assert calls[..k][1..] == calls[1..][..k - 1];
    }
  }

  /** Whether the next request after a run is granted. */
  lemma NextGrantedExactly(b: Bucket, calls: seq<Call>, request: Call)
    requires request.Request?
    ensures Granted(Final(b, calls), request)
       <==> Affordable(b.tokens, b.last, b.rate, b.capacity, calls, Decisions(b, calls), request.bytes as real, request.at)
  {
    hide Fits, FitsFromEach, Refilled, Final, Decisions;
    var x, t := request.bytes as real, request.at;
    TokensExactly(b, calls, x, t);
    FitsFromEachExactly(b.rate, b.capacity, calls, Decisions(b, calls), x, t);
  }

  /**
   In every run a request is granted exactly when it breaks none of the bounds: it and all
   bytes granted before fit into the tokens the bucket started with and has earned since, and
   it and the bytes granted from any earlier call on fit into a full bucket and the earnings
   since that call.
   */
  lemma AdmissionExactly(b: Bucket, calls: seq<Call>, k: nat)
    requires k < |calls| && calls[k].Request?
    ensures var granted := Decisions(b, calls);
            granted[k] <==> Affordable(b.tokens, b.last, b.rate, b.capacity, calls[..k], granted[..k],
                                       calls[k].bytes as real, calls[k].at)
  {
    hide Affordable, Final, Decisions, Granted;
    DecisionAt(b, calls, k);
    NextGrantedExactly(b, calls[..k], calls[k]);
  }

  // ----- Calls that take no tokens leave no trace -----

  /** A call that takes no tokens: a probe, or a request that is refused. */
  predicate Inert(b: Bucket, call: Call) {
    call.Probe? || !Granted(b, call)
  }

  /** The elements whose flag is not set. */
  function Keep<T>(xs: seq<T>, extra: seq<bool>): seq<T>
    requires |xs| == |extra|
  {
    if xs == [] then []
    else if extra[0] then Keep(xs[1..], extra[1..])
    else [xs[0]] + Keep(xs[1..], extra[1..])
  }

  /** Every flagged call of the run is inert where it stands. */
  ghost predicate ExtrasInert(b: Bucket, calls: seq<Call>, extra: seq<bool>)
    requires |calls| == |extra|
    decreases |calls|
  {
    calls == [] || ((extra[0] ==> Inert(b, calls[0])) && ExtrasInert(After(b, calls[0]), calls[1..], extra[1..]))
  }

  function LastTime(b: Bucket, calls: seq<Call>): real {
    if calls == [] then b.last else calls[|calls| - 1].at
  }

  /** `late` is b, or b after a refill. */
  ghost predicate Ahead(b: Bucket, late: Bucket) {
    late == b || (b.last <= late.last && late == Refilled(b, late.last))
  }

  lemma AheadStep(b: Bucket, late: Bucket, call: Call)
    requires b.rate >= 0.0 && Ahead(b, late) && late.last <= call.at
    ensures After(late, call) == After(b, call) && Granted(late, call) == Granted(b, call)
    ensures Inert(late, call) ==> After(late, call) == Refilled(b, call.at)
    ensures After(late, call).last == call.at && After(b, call).rate == b.rate
  {
    if late != b { AfterIgnoresRefill(b, call, late.last); }
  }

  lemma AheadRefill(b: Bucket, late: Bucket, t: real)
    requires b.rate >= 0.0 && Ahead(b, late) && late.last <= t
    ensures Refilled(b, t) == Refilled(late, t)
  {
    if late != b { RefillCompose(b, late.last, t); }
  }

  /**
   Removing any inert calls from a run changes no other decision and no later token count.
   Here `late` is the bucket of the full run and `b` that of the run without the extras,
   which may lag behind by a refill.
   */
  lemma {:induction false} InertCallsLeaveNoTrace(
    b: Bucket, late: Bucket, calls: seq<Call>, extra: seq<bool>, t: real)
    requires |calls| == |extra| && b.rate >= 0.0 && Ahead(b, late)
    requires Ordered(late.last, calls) && ExtrasInert(late, calls, extra) && LastTime(late, calls) <= t
    ensures Decisions(b, Keep(calls, extra)) == Keep(Decisions(late, calls), extra)
    ensures Refilled(Final(b, Keep(calls, extra)), t) == Refilled(Final(late, calls), t)
    decreases |calls|
  {
    hide After, Consume, Refilled, Inert;
    if calls == [] {
      AheadRefill(b, late, t);
    } else {
      var call, rest := calls[0], calls[1..];
      var late' := After(late, call);
      AheadStep(b, late, call);
      assert LastTime(late', rest) == LastTime(late, calls);
      assert Decisions(late, calls)[1..] == Decisions(late', rest);
      var b' := if extra[0] then b else After(b, call);
      InertCallsLeaveNoTrace(b', late', rest, extra[1..], t);
      if !extra[0] {
        assert Keep(calls, extra)[1..] == Keep(rest, extra[1..]);
      }
    }
  }

  /** The same, for two runs from one bucket. */
  lemma RefillSplitting(b: Bucket, calls: seq<Call>, extra: seq<bool>, t: real)
    requires |calls| == |extra| && Good(b)
    requires Ordered(b.last, calls) && ExtrasInert(b, calls, extra) && LastTime(b, calls) <= t
    ensures Decisions(b, Keep(calls, extra)) == Keep(Decisions(b, calls), extra)
    ensures Refilled(Final(b, Keep(calls, extra)), t) == Refilled(Final(b, calls), t)
  {
    InertCallsLeaveNoTrace(b, b, calls, extra, t);
  }
}
