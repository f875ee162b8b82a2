/** Per-tenant token buckets.  Tokens, costs and clock readings are exact reals. */
module TokenBucket {
  import opened Basics

  datatype Policy = Policy(capacity: nat, rate: real)

  ghost predicate ValidPolicy(p: Policy) {
    1 <= p.capacity <= 1_000_000 && 0.0 < p.rate <= 100_000.0
  }

  datatype Bucket = Bucket(tokens: real, lastRefill: real)

  datatype Outcome =
    | Accepted(limit: nat, remaining: int, resetAfter: real)
    | Exceeded(limit: nat, remaining: int, retryAfter: real)
    | UnknownTenant
    | BadCost

  const SLACK := 0.000_000_000_001

  function AtLeastZero(n: int): int { if n < 0 then 0 else n }

  /** Tokens that flow in over `seconds`. */
  function Gain(seconds: real, rate: real): real { seconds * rate }

  /** Seconds until `tokens` have flowed in. */
  function WaitFor(tokens: real, rate: real): real
    requires rate > 0.0
  {
    tokens / rate
  }

  /** The bucket when the clock reads `now`; a clock that went back refills nothing. */
  function Refilled(p: Policy, b: Option<Bucket>, now: real): Bucket {
    match b
    case None => Bucket(p.capacity as real, now)
    case Some(b) =>
      Bucket(Min(p.capacity as real, b.tokens + Gain(Max(0.0, now - b.lastRefill), p.rate)), Max(b.lastRefill, now))
  }

  predicate Affordable(b: Bucket, cost: real) { cost <= b.tokens + SLACK }

  /** One call for a configured tenant with an admissible cost. */
  function Charge(p: Policy, b: Option<Bucket>, now: real, cost: real): (Bucket, Outcome)
    requires p.rate > 0.0
  {
    var full := Refilled(p, b, now);
    if !Affordable(full, cost) then
      (full, Exceeded(p.capacity, AtLeastZero(full.tokens.Floor), WaitFor(cost - full.tokens, p.rate)))
    else
      var left := Max(0.0, full.tokens - cost);
      (Bucket(left, full.lastRefill),
       Accepted(p.capacity, AtLeastZero((left + SLACK).Floor), WaitFor(p.capacity as real - left, p.rate)))
  }

  class TokenBucketLimiter {
    const policies: map<string, Policy>
    var buckets: map<string, Bucket>

    ghost predicate Valid()
      reads this
    {
      forall t :: t in policies ==> ValidPolicy(policies[t])
    }

    constructor (policies: map<string, Policy>)
      requires policies != map[] && forall t :: t in policies ==> ValidPolicy(policies[t])
      ensures Valid() && this.policies == policies && buckets == map[]
    {
      this.policies := policies;
      buckets := map[];
    }

    ghost function BucketOf(tenant: string): Option<Bucket>
      reads this
    {
      if tenant in buckets then Some(buckets[tenant]) else None
    }

    /** Charge one tenant; nothing is charged, and no bucket changes, on an inadmissible call. */
    method Consume(tenant: string, cost: real, now: real) returns (o: Outcome)
      requires Valid()
      modifies this
      ensures Valid()
      ensures tenant !in policies ==> o == UnknownTenant && buckets == old(buckets)
      ensures tenant in policies && !(0.0 < cost <= policies[tenant].capacity as real) ==> o == BadCost && buckets == old(buckets)
      ensures tenant in policies && 0.0 < cost <= policies[tenant].capacity as real ==>
                var (b, answer) := Charge(policies[tenant], old(BucketOf(tenant)), now, cost);
                o == answer && buckets == old(buckets)[tenant := b]
    {
      hide Gain, WaitFor;
      if tenant !in policies {
        return UnknownTenant;
      }
      var policy := policies[tenant];
      if !(0.0 < cost <= policy.capacity as real) {
        return BadCost;
      }
      if tenant !in buckets {
        buckets := buckets[tenant := Bucket(policy.capacity as real, now)];
      } else {
        var bucket := buckets[tenant];
        var elapsed := Max(0.0, now - bucket.lastRefill);
        buckets := buckets[tenant := Bucket(Min(policy.capacity as real, bucket.tokens + Gain(elapsed, policy.rate)),
                                            Max(bucket.lastRefill, now))];
      }
      var tokens := buckets[tenant].tokens;
      if tokens + SLACK < cost {
        return Exceeded(policy.capacity, AtLeastZero(tokens.Floor), WaitFor(cost - tokens, policy.rate));
      }
      var left := Max(0.0, tokens - cost);
      buckets := buckets[tenant := Bucket(left, buckets[tenant].lastRefill)];
      return Accepted(policy.capacity, AtLeastZero((left + SLACK).Floor), WaitFor(policy.capacity as real - left, policy.rate));
    }
  }

  // ------------------------------------------------------------------ whole runs

  datatype Call = Call(now: real, cost: real)

  ghost predicate ValidCall(p: Policy, call: Call) { 0.0 < call.cost <= p.capacity as real }

  /** The tenant's bucket after the calls, other tenants' calls leaving it alone. */
  function After(p: Policy, calls: seq<Call>): Option<Bucket>
    requires p.rate > 0.0
  {
    if calls == [] then None
    else
      var last := calls[|calls| - 1];
      Some(Charge(p, After(p, calls[..|calls| - 1]), last.now, last.cost).0)
  }

  function Granted(p: Policy, calls: seq<Call>): real
    requires p.rate > 0.0
  {
    if calls == [] then 0.0
    else
      var front, last := calls[..|calls| - 1], calls[|calls| - 1];
      Granted(p, front) + if Charge(p, After(p, front), last.now, last.cost).1.Accepted? then last.cost else 0.0
  }

  function AcceptedCalls(p: Policy, calls: seq<Call>): nat
    requires p.rate > 0.0
  {
    if calls == [] then 0
    else
      var front, last := calls[..|calls| - 1], calls[|calls| - 1];
      AcceptedCalls(p, front) + if Charge(p, After(p, front), last.now, last.cost).1.Accepted? then 1 else 0
  }

  /** The largest clock reading of the run. */
  function Latest(calls: seq<Call>): real
    requires calls != []
  {
    if |calls| == 1 then calls[0].now else Max(Latest(calls[..|calls| - 1]), calls[|calls| - 1].now)
  }

  lemma GainAdds(a: real, b: real, rate: real)
    ensures Gain(a + b, rate) == Gain(a, rate) + Gain(b, rate)
  {
  }

  lemma GainGrows(a: real, b: real, rate: real)
    requires rate > 0.0
    ensures Gain(a, rate) >= Gain(b, rate) <==> a >= b
    ensures Gain(0.0, rate) == 0.0
  {
  }

  lemma GainOfWait(tokens: real, rate: real)
    requires rate > 0.0
    ensures Gain(WaitFor(tokens, rate), rate) == tokens
    ensures tokens > 0.0 ==> WaitFor(tokens, rate) > 0.0
  {
  }

  lemma SlackOf(n: nat)
    ensures (n + 1) as real * SLACK == n as real * SLACK + SLACK
  {
  }

  /** Tokens left, plus everything granted, never exceed the initial fill and what the clock's
      progress refilled, up to the comparison slack of each grant. */
  lemma {:induction false} Conservation(p: Policy, calls: seq<Call>)
    requires ValidPolicy(p) && calls != [] && forall call :: call in calls ==> ValidCall(p, call)
    ensures After(p, calls).Some? && After(p, calls).value.lastRefill == Latest(calls)
    ensures 0.0 <= After(p, calls).value.tokens <= p.capacity as real
    ensures Granted(p, calls) + After(p, calls).value.tokens
         <= p.capacity as real + Gain(Latest(calls) - calls[0].now, p.rate) + AcceptedCalls(p, calls) as real * SLACK
  {
    hide Gain, WaitFor;
    var front, last := calls[..|calls| - 1], calls[|calls| - 1];
    assert last in calls;
    SlackOf(AcceptedCalls(p, front));
    GainGrows(0.0, 0.0, p.rate);
    if |calls| == 1 {
      assert front == [];
    } else {
      assert forall call :: call in front ==> call in calls;
      Conservation(p, front);
      var gained := Max(0.0, last.now - After(p, front).value.lastRefill);
      GainAdds(Latest(front) - calls[0].now, gained, p.rate);
      GainGrows(gained, 0.0, p.rate);
      assert Latest(calls) - calls[0].now == (Latest(front) - calls[0].now) + gained;
    }
  }

  /** Over every run, with any clock, even one that goes back: what a tenant was granted is at
      most the capacity plus the refill over the span from the first reading to the largest. */
  lemma GrantedBound(p: Policy, calls: seq<Call>)
    requires ValidPolicy(p) && calls != [] && forall call :: call in calls ==> ValidCall(p, call)
    ensures Granted(p, calls) <= p.capacity as real + Gain(Latest(calls) - calls[0].now, p.rate)
                                 + AcceptedCalls(p, calls) as real * SLACK
  {
    hide Gain, Granted, After, AcceptedCalls, Latest;
    Conservation(p, calls);
  }

  /** The advice given with a refusal is sound and tight: if nothing else is consumed, the same
      call made at `at` is accepted exactly from `lastRefill + retryAfter` on, up to the time
      in which the comparison slack flows in. */
  lemma RetryAfterIsExact(p: Policy, calls: seq<Call>, refused: Call, at: real)
    requires ValidPolicy(p) && ValidCall(p, refused)
    requires Charge(p, After(p, calls), refused.now, refused.cost).1.Exceeded?
    ensures var (b, o) := Charge(p, After(p, calls), refused.now, refused.cost);
            && o.retryAfter > 0.0
            && (at >= b.lastRefill ==>
                  (Charge(p, Some(b), at, refused.cost).1.Accepted?
                   <==> at >= b.lastRefill + o.retryAfter - WaitFor(SLACK, p.rate)))
  {
    hide Gain, WaitFor, After;
    var (b, o) := Charge(p, After(p, calls), refused.now, refused.cost);
    var missing := refused.cost - b.tokens;
    GainOfWait(missing, p.rate);
    GainOfWait(SLACK, p.rate);
    var enough := WaitFor(missing, p.rate) - WaitFor(SLACK, p.rate);
    GainAdds(enough, WaitFor(SLACK, p.rate), p.rate);
    GainGrows(at - b.lastRefill, enough, p.rate);
  }

  // ------------------------------------------------------------------ what a tenant is entitled to

  /** Cost granted from the `k`-th call of the run on. */
  function GrantedSince(p: Policy, calls: seq<Call>, k: nat): real
    requires p.rate > 0.0 && k <= |calls|
  {
    Granted(p, calls) - Granted(p, calls[..k])
  }

  /** Tokens that flowed in after the `k`-th call of the run, up to the reading `now`. */
  function RefilledSince(p: Policy, calls: seq<Call>, k: nat, now: real): real
    requires k < |calls|
  {
    Gain(Max(Latest(calls), now) - Latest(calls[..k + 1]), p.rate)
  }

  /** What the last call of a run does to the tokens and to what was granted. */
  lemma LastCall(p: Policy, calls: seq<Call>)
    requires ValidPolicy(p) && calls != [] && forall call :: call in calls ==> ValidCall(p, call)
    ensures After(p, calls).Some? && After(p, calls).value.lastRefill == Latest(calls)
    ensures var front, last := calls[..|calls| - 1], calls[|calls| - 1];
            var granted := Granted(p, calls) - Granted(p, front);
            if front == [] then After(p, calls).value.tokens >= p.capacity as real - granted && Latest(calls) == last.now
            else
              && After(p, front).Some? && Latest(calls) == Max(Latest(front), last.now)
              && var flown := After(p, front).value.tokens + Gain(Latest(calls) - Latest(front), p.rate);
                 After(p, calls).value.tokens >= Min(p.capacity as real, flown) - granted
  {
    hide Gain, WaitFor;
    var front, last := calls[..|calls| - 1], calls[|calls| - 1];
    assert last in calls;
    Conservation(p, calls);
    if front != [] {
      assert forall call :: call in front ==> call in calls;
      Conservation(p, front);
    }
  }

  /** No token is lost: since some call of the run, at which the bucket was full, the tokens left
      are at least the capacity and what flowed in, less what was granted. */
  lemma {:induction false} NothingIsLost(p: Policy, calls: seq<Call>) returns (k: nat)
    requires ValidPolicy(p) && calls != [] && forall call :: call in calls ==> ValidCall(p, call)
    ensures k < |calls| && After(p, calls).Some?
    ensures After(p, calls).value.tokens
         >= p.capacity as real + RefilledSince(p, calls, k, Latest(calls)) - GrantedSince(p, calls, k)
  {
    hide Gain, After, Granted, Latest;
    var n := |calls| - 1;
    var front := calls[..n];
    GainGrows(0.0, 0.0, p.rate);
    LastCall(p, calls);
    k := n;
    assert calls[..n + 1] == calls;
    if n > 0 {
      var gained := Latest(calls) - Latest(front);
      if After(p, front).value.tokens + Gain(gained, p.rate) < p.capacity as real {
        assert forall call :: call in front ==> call in calls;
        k := NothingIsLost(p, front);
        assert front[..k] == calls[..k] && front[..k + 1] == calls[..k + 1];
        GainAdds(Latest(front) - Latest(calls[..k + 1]), gained, p.rate);
        assert Latest(calls) - Latest(calls[..k + 1]) == (Latest(front) - Latest(calls[..k + 1])) + gained;
      }
    }
  }

  /** A refusal is earned: since some call, the tenant was granted so much that this cost on top
      exceeds the capacity and everything that flowed in. */
  lemma RefusalIsEarned(p: Policy, calls: seq<Call>, refused: Call) returns (k: nat)
    requires ValidPolicy(p) && ValidCall(p, refused) && forall call :: call in calls ==> ValidCall(p, call)
    requires Charge(p, After(p, calls), refused.now, refused.cost).1.Exceeded?
    ensures k < |calls|
    ensures GrantedSince(p, calls, k) + refused.cost > p.capacity as real + RefilledSince(p, calls, k, refused.now) + SLACK
  {
    hide Gain, WaitFor, Granted, Latest;
    assert calls != [];
    Conservation(p, calls);
    k := NothingIsLost(p, calls);
    var gained := Max(0.0, refused.now - Latest(calls));
    GainAdds(Latest(calls) - Latest(calls[..k + 1]), gained, p.rate);
    assert Max(Latest(calls), refused.now) - Latest(calls[..k + 1]) == (Latest(calls) - Latest(calls[..k + 1])) + gained;
  }

  /** The same from above: a grant leaves no more than the tokens it found, up to the slack. */
  lemma LastCallAtMost(p: Policy, calls: seq<Call>)
    requires ValidPolicy(p) && calls != [] && forall call :: call in calls ==> ValidCall(p, call)
    ensures After(p, calls).Some?
    ensures var front := calls[..|calls| - 1];
            var granted := Granted(p, calls) - Granted(p, front) - (AcceptedCalls(p, calls) - AcceptedCalls(p, front)) as real * SLACK;
            && After(p, calls).value.tokens <= p.capacity as real - granted
            && (front != [] ==>
                  && After(p, front).Some?
                  && After(p, calls).value.tokens
                       <= After(p, front).value.tokens + Gain(Latest(calls) - Latest(front), p.rate) - granted)
  {
    hide Gain, WaitFor;
    var front, last := calls[..|calls| - 1], calls[|calls| - 1];
    assert last in calls;
    Conservation(p, calls);
    if front != [] {
      assert forall call :: call in front ==> call in calls;
      Conservation(p, front);
    }
  }

  lemma SlackAdds(a: int, b: int)
    ensures (a + b) as real * SLACK == a as real * SLACK + b as real * SLACK
  {
  }

  /** And nothing is given away: since no call was more granted than capacity and refill allow. */
  lemma {:induction false} NothingIsGained(p: Policy, calls: seq<Call>, k: nat)
    requires ValidPolicy(p) && k < |calls| && forall call :: call in calls ==> ValidCall(p, call)
    ensures After(p, calls).Some?
    ensures GrantedSince(p, calls, k) + After(p, calls).value.tokens
         <= p.capacity as real + RefilledSince(p, calls, k, Latest(calls))
            + (AcceptedCalls(p, calls) - AcceptedCalls(p, calls[..k])) as real * SLACK
  {
    hide Gain, After, Granted, Latest, AcceptedCalls;
    var n := |calls| - 1;
    var front := calls[..n];
    GainGrows(0.0, 0.0, p.rate);
    LastCallAtMost(p, calls);
    if k == n {
      assert calls[..n + 1] == calls;
    } else {
      assert forall call :: call in front ==> call in calls;
      NothingIsGained(p, front, k);
      assert front[..k] == calls[..k] && front[..k + 1] == calls[..k + 1];
      var gained, since := Latest(calls) - Latest(front), Latest(front) - Latest(calls[..k + 1]);
      GainAdds(since, gained, p.rate);
      assert Latest(calls) - Latest(calls[..k + 1]) == since + gained;
      var here, before := AcceptedCalls(p, calls) - AcceptedCalls(p, front), AcceptedCalls(p, front) - AcceptedCalls(p, calls[..k]);
      SlackAdds(here, before);
      assert AcceptedCalls(p, calls) - AcceptedCalls(p, calls[..k]) == here + before;
    }
  }

  // ------------------------------------------------------------------ what a receipt promises

  /** The `remaining` of a receipt: a whole cost is accepted next, before the clock moves on,
      exactly if it is at most that. */
  lemma RemainingIsExact(p: Policy, calls: seq<Call>, accepted: Call, cost: nat, at: real)
    requires ValidPolicy(p) && ValidCall(p, accepted) && forall call :: call in calls ==> ValidCall(p, call)
    requires Charge(p, After(p, calls), accepted.now, accepted.cost).1.Accepted?
    requires 1 <= cost <= p.capacity && at <= Charge(p, After(p, calls), accepted.now, accepted.cost).0.lastRefill
    ensures var (b, o) := Charge(p, After(p, calls), accepted.now, accepted.cost);
            Charge(p, Some(b), at, cost as real).1.Accepted? <==> cost <= o.remaining
  {
    hide Gain, WaitFor;
    GainGrows(0.0, 0.0, p.rate);
    if calls != [] {
      Conservation(p, calls);
      GainGrows(Max(0.0, accepted.now - After(p, calls).value.lastRefill), 0.0, p.rate);
    }
  }

  /** The `remaining` of a refusal is rounded without the slack: any whole cost up to it is accepted
      next, and so is one more exactly if the tokens are within the slack of it. */
  lemma RemainingAfterRefusal(p: Policy, calls: seq<Call>, refused: Call, cost: nat, at: real)
    requires ValidPolicy(p) && ValidCall(p, refused) && forall call :: call in calls ==> ValidCall(p, call)
    requires Charge(p, After(p, calls), refused.now, refused.cost).1.Exceeded?
    requires 1 <= cost <= p.capacity && at <= Charge(p, After(p, calls), refused.now, refused.cost).0.lastRefill
    ensures var (b, o) := Charge(p, After(p, calls), refused.now, refused.cost);
            Charge(p, Some(b), at, cost as real).1.Accepted? <==>
              cost <= o.remaining || (cost == o.remaining + 1 && b.tokens >= cost as real - 0.000_000_000_001)
  {
    hide Gain, WaitFor;
    GainGrows(0.0, 0.0, p.rate);
    if calls != [] {
      Conservation(p, calls);
      GainGrows(Max(0.0, refused.now - After(p, calls).value.lastRefill), 0.0, p.rate);
    }
  }

  /** The `resetAfter` of a receipt: with nothing else consumed, the whole capacity is available
      exactly from then on, up to the time in which the comparison slack flows in. */
  lemma ResetAfterIsExact(p: Policy, calls: seq<Call>, accepted: Call, at: real)
    requires ValidPolicy(p) && ValidCall(p, accepted) && forall call :: call in calls ==> ValidCall(p, call)
    requires Charge(p, After(p, calls), accepted.now, accepted.cost).1.Accepted?
    ensures var (b, o) := Charge(p, After(p, calls), accepted.now, accepted.cost);
            at >= b.lastRefill ==>
              (Charge(p, Some(b), at, p.capacity as real).1.Accepted?
               <==> at >= b.lastRefill + o.resetAfter - WaitFor(SLACK, p.rate))
  {
    hide Gain, WaitFor, After;
    var (b, o) := Charge(p, After(p, calls), accepted.now, accepted.cost);
    var missing := p.capacity as real - b.tokens;
    GainOfWait(missing, p.rate);
    GainOfWait(SLACK, p.rate);
    var enough := WaitFor(missing, p.rate) - WaitFor(SLACK, p.rate);
    GainAdds(enough, WaitFor(SLACK, p.rate), p.rate);
    GainGrows(at - b.lastRefill, enough, p.rate);
  }

  /** What one accepted call leaves: exactly the tokens that were there, with those that flowed in
      up to the capacity, less its cost; and a first call is always accepted. */
  lemma AcceptedLeaves(p: Policy, calls: seq<Call>, accepted: Call)
    requires ValidPolicy(p) && ValidCall(p, accepted) && forall call :: call in calls ==> ValidCall(p, call)
    ensures var (b, o) := Charge(p, After(p, calls), accepted.now, accepted.cost);
            if calls == [] then o.Accepted? && b == Bucket(p.capacity as real - accepted.cost, accepted.now)
            else
              var before := After(p, calls).value;
              var there := Min(p.capacity as real, before.tokens + Gain(Max(0.0, accepted.now - before.lastRefill), p.rate));
              && (o.Accepted? <==> there >= accepted.cost - 0.000_000_000_001)
              && (there >= accepted.cost ==> b.tokens == there - accepted.cost)
              && (o.Accepted? && there < accepted.cost ==> b.tokens == 0.0)
              && (o.Exceeded? ==> b.tokens == there)
  {
    hide Gain, WaitFor;
    if calls != [] { Conservation(p, calls); }
  }
}
