/** The in-process token bucket. Tokens are reals, the clock counts milliseconds and does not go back. */
module RateLimit {
  import opened Base

  /** The rate of a call that is limited at all. */
  type Rate = r: real | r > 0.0 witness 1.0

  /** A capacity: at least one token. */
  type Room = c: real | c >= 1.0 witness 1.0

  datatype Bucket = Bucket(tokens: real, updatedAt: int, capacity: real)

  /** `remaining` is None for infinity. */
  datatype Taken = Taken(ok: bool, remaining: Option<int>, resetMs: int)

  function MinReal(a: real, b: real): real {
    if a < b then a else b
  }

  function CeilOf(x: real): int {
    -(-x).Floor
  }

  function Capacity(perSecond: real, burst: Option<real>): Room {
    var wanted := burst.GetOr(perSecond);
    if wanted < 1.0 then 1.0 else wanted
  }

  function Gain(rate: real, from: int, now: int): real {
    (now - from) as real / 1000.0 * rate
  }

  /** The tokens available at a time; a bucket not seen before is full. */
  function Refilled(b: Option<Bucket>, rate: real, capacity: real, now: int): real {
    if b.None? then capacity
    else MinReal(capacity, b.value.tokens + Gain(rate, b.value.updatedAt, now))
  }

  function WaitMs(refilled: real, rate: Rate): int {
    CeilOf((1.0 - refilled) / rate * 1000.0)
  }

  function Take(b: Option<Bucket>, rate: Rate, capacity: Room, now: int): (Taken, Bucket) {
    var refilled := Refilled(b, rate, capacity, now);
    if refilled < 1.0 then (Taken(false, Some(0), WaitMs(refilled, rate)), Bucket(refilled, now, capacity))
    else (Taken(true, Some((refilled - 1.0).Floor), 0), Bucket(refilled - 1.0, now, capacity))
  }

  lemma NoGain(rate: real, at: int)
    ensures Gain(rate, at, at) == 0.0
  {
  }

  class RateLimiter {
    var buckets: map<string, Bucket>

    constructor ()
      ensures buckets == map[]
    {
      buckets := map[];
    }

    method TakeToken(key: string, perSecond: real, burst: Option<real>, now: int) returns (taken: Taken)
      modifies this
      ensures perSecond <= 0.0 ==> taken == Taken(true, None, 0) && buckets == old(buckets)
      ensures perSecond > 0.0 ==>
                var (t, b) := Take(Get(old(buckets), key), perSecond, Capacity(perSecond, burst), now);
                taken == t && buckets == old(buckets)[key := b]
    {
      if perSecond <= 0.0 { return Taken(true, None, 0); }
      var capacity := Capacity(perSecond, burst);
      var existing := if key in buckets then buckets[key] else Bucket(capacity, now, capacity);
      NoGain(perSecond, now);
      var refilled := MinReal(capacity, existing.tokens + Gain(perSecond, existing.updatedAt, now));
      if refilled < 1.0 {
        buckets := buckets[key := Bucket(refilled, now, capacity)];
        return Taken(false, Some(0), WaitMs(refilled, perSecond));
      }
      var next := refilled - 1.0;
      buckets := buckets[key := Bucket(next, now, capacity)];
      return Taken(true, Some(next.Floor), 0);
    }
  }

  // ----- Runs on one key -----

  /** A call with the rate and capacity its route resolves to; routes may share a key. */
  datatype Call = Call(now: int, rate: Rate, capacity: Room)

  predicate Legal(c: Call, maxRate: real, maxCapacity: real) {
    c.rate <= maxRate && c.capacity <= maxCapacity
  }

  ghost predicate InOrder(calls: seq<Call>) {
    forall i, j :: 0 <= i < j < |calls| ==> calls[i].now <= calls[j].now
  }

  ghost predicate AllLegal(calls: seq<Call>, maxRate: real, maxCapacity: real) {
    forall i :: 0 <= i < |calls| ==> Legal(calls[i], maxRate, maxCapacity)
  }

  /** The bucket after a run of calls. */
  function Run(b: Option<Bucket>, calls: seq<Call>): Option<Bucket> {
    if |calls| == 0 then b
    else
      var c := calls[|calls| - 1];
      Some(Take(Run(b, calls[..|calls| - 1]), c.rate, c.capacity, c.now).1)
  }

  function Ok(b: Option<Bucket>, c: Call): bool {
    Take(b, c.rate, c.capacity, c.now).0.ok
  }

  /** How many calls of the run are admitted. */
  function Admitted(b: Option<Bucket>, calls: seq<Call>): nat {
    if |calls| == 0 then 0
    else
      var front := calls[..|calls| - 1];
      Admitted(b, front) + if Ok(Run(b, front), calls[|calls| - 1]) then 1 else 0
  }

  predicate Sound(b: Option<Bucket>, maxCapacity: real, now: int) {
    b.Some? ==> 0.0 <= b.value.tokens <= maxCapacity && b.value.updatedAt <= now
  }

  lemma GainAdds(rate: real, a: int, b: int, c: int)
    ensures Gain(rate, a, b) + Gain(rate, b, c) == Gain(rate, a, c)
  {
  }

  lemma GainBounded(rate: real, maxRate: real, a: int, b: int)
    requires 0.0 < rate <= maxRate && a <= b
    ensures 0.0 <= Gain(rate, a, b) <= Gain(maxRate, a, b)
  {
    var t := (b - a) as real / 1000.0;
    assert t * rate <= t * maxRate;
  }

  /** What was admitted plus what is left is never more than the capacity and what has been refilled since. */
  lemma {:induction false} AdmittedPlusLeft(b: Option<Bucket>, calls: seq<Call>, maxRate: real, maxCapacity: real)
    requires |calls| > 0 && InOrder(calls) && AllLegal(calls, maxRate, maxCapacity)
    requires Sound(b, maxCapacity, calls[0].now)
    ensures var after := Run(b, calls);
            && after.Some? && after.value.updatedAt == calls[|calls| - 1].now && after.value.tokens >= 0.0
            && after.value.tokens <= maxCapacity
            && Admitted(b, calls) as real + after.value.tokens <=
               maxCapacity + Gain(maxRate, calls[0].now, calls[|calls| - 1].now)
  {
    var n := |calls| - 1;
    var c := calls[n];
    assert Legal(c, maxRate, maxCapacity);
    if n == 0 {
      assert calls[..0] == [];
      if b.Some? { GainBounded(c.rate, maxRate, b.value.updatedAt, c.now); }
    } else {
      var front := calls[..n];
      AdmittedPlusLeft(b, front, maxRate, maxCapacity);
      GainBounded(c.rate, maxRate, front[n - 1].now, c.now);
      GainAdds(maxRate, calls[0].now, front[n - 1].now, c.now);
    }
  }

  /** In any window of any run at most the capacity plus the window's refill is admitted. */
  lemma WindowBound(b: Option<Bucket>, calls: seq<Call>, lo: nat, hi: nat, maxRate: real, maxCapacity: real)
    requires lo < hi <= |calls| && InOrder(calls) && AllLegal(calls, maxRate, maxCapacity)
    requires Sound(b, maxCapacity, calls[0].now)
    ensures Admitted(Run(b, calls[..lo]), calls[lo..hi]) as real <=
            maxCapacity + Gain(maxRate, calls[lo].now, calls[hi - 1].now)
  {
    if lo > 0 { AdmittedPlusLeft(b, calls[..lo], maxRate, maxCapacity); }
    AdmittedPlusLeft(Run(b, calls[..lo]), calls[lo..hi], maxRate, maxCapacity);
  }

  // ----- Exactly which calls are admitted -----

  /** What is refilled from call number `j` to the last one, each stretch at the rate of the call that ends it. */
  function RefilledSince(calls: seq<Call>, j: nat): real
    requires j < |calls|
  {
    var n := |calls| - 1;
    if j == n then 0.0
    else RefilledSince(calls[..n], j) + Gain(calls[n].rate, calls[n - 1].now, calls[n].now)
  }

  /** What the capacity of call number `j` and the refill since then leave for the last call of the run. */
  function Allowance(calls: seq<Call>, j: nat): real
    requires j < |calls|
  {
    var front := calls[..|calls| - 1];
    calls[j].capacity + RefilledSince(calls, j) - (Admitted(None, front) - Admitted(None, calls[..j])) as real
  }

  /** What the tokens gain from the last call but one to the last, unless capped. */
  function Change(calls: seq<Call>): real
    requires |calls| > 1
  {
    var c, last, front := calls[|calls| - 1], calls[|calls| - 2], calls[..|calls| - 1];
    Gain(c.rate, last.now, c.now) - if Ok(Run(None, front[..|front| - 1]), last) then 1.0 else 0.0
  }

  lemma AllowanceStep(calls: seq<Call>, j: nat)
    requires j < |calls| - 1
    ensures Allowance(calls, j) == Allowance(calls[..|calls| - 1], j) + Change(calls)
  {
    var front := calls[..|calls| - 1];
    assert calls[..j] == front[..j];
  }

  /** The tokens that the last call of a run finds. */
  function Found(calls: seq<Call>): real
    requires |calls| > 0
  {
    var n := |calls| - 1;
    Refilled(Run(None, calls[..n]), calls[n].rate, calls[n].capacity, calls[n].now)
  }

  lemma TokensStep(calls: seq<Call>)
    requires |calls| > 1
    ensures Found(calls) == MinReal(calls[|calls| - 1].capacity, Found(calls[..|calls| - 1]) + Change(calls))
  {
  }

  /** They are its least allowance. */
  lemma {:induction false} TokensAreTheLeastAllowance(calls: seq<Call>) returns (least: nat)
    requires |calls| > 0
    ensures least < |calls| && Found(calls) == Allowance(calls, least)
    ensures forall j :: 0 <= j < |calls| ==> Found(calls) <= Allowance(calls, j)
  {
    var n := |calls| - 1;
    least := n;
    assert Allowance(calls, n) == calls[n].capacity;
    if n > 0 {
      var before := TokensAreTheLeastAllowance(calls[..n]);
      forall j | 0 <= j < n ensures Allowance(calls, j) == Allowance(calls[..n], j) + Change(calls) {
        AllowanceStep(calls, j);
      }
      TokensStep(calls);
      if Allowance(calls, before) < calls[n].capacity { least := before; }
    }
  }

  /** A call to a key is admitted exactly if no stretch of the run that ends in it would admit more than it may. */
  lemma AdmittedIff(calls: seq<Call>)
    requires |calls| > 0
    ensures Ok(Run(None, calls[..|calls| - 1]), calls[|calls| - 1]) <==>
            forall j :: 0 <= j < |calls| ==> Allowance(calls, j) >= 1.0
  {
    var least := TokensAreTheLeastAllowance(calls);
  }

  /** Between two calls at least one token is refilled. */
  ghost predicate Steady(calls: seq<Call>) {
    forall i :: 0 < i < |calls| ==> Gain(calls[i].rate, calls[i - 1].now, calls[i].now) >= 1.0
  }

  lemma {:induction false} SteadyRefill(calls: seq<Call>, j: nat)
    requires j < |calls| && Steady(calls)
    ensures RefilledSince(calls, j) >= (|calls| - 1 - j) as real
  {
    var n := |calls| - 1;
    if j < n {
      assert forall i :: 0 <= i < n ==> calls[..n][i] == calls[i];
      SteadyRefill(calls[..n], j);
    }
  }

  /** A steady stream of calls to a new key is admitted whole, however long it is and however small the capacities. */
  lemma {:induction false} SteadyIsAdmitted(calls: seq<Call>)
    requires Steady(calls)
    ensures Admitted(None, calls) == |calls|
    decreases |calls|
  {
    if |calls| > 0 {
      var front := calls[..|calls| - 1];
      assert forall i :: 0 <= i < |front| ==> front[i] == calls[i];
      SteadyIsAdmitted(front);
      forall j | 0 <= j < |calls| ensures Allowance(calls, j) >= 1.0 {
        SteadyRefill(calls, j);
        assert forall i :: 0 <= i < j ==> calls[..j][i] == calls[i];
        if j < |calls| - 1 { SteadyIsAdmitted(calls[..j]); } else { assert calls[..j] == front; }
      }
      AdmittedIff(calls);
    }
  }

  /** All of one instant, and none caps the bucket. */
  ghost predicate OneInstant(calls: seq<Call>, now: int, tokens: real) {
    forall i :: 0 <= i < |calls| ==> calls[i].now == now && calls[i].capacity >= tokens
  }

  lemma {:induction false} InstantAdmits(b: Bucket, calls: seq<Call>)
    requires OneInstant(calls, b.updatedAt, b.tokens) && b.tokens >= 0.0
    ensures Admitted(Some(b), calls) == Min(|calls|, b.tokens.Floor)
    ensures var after := Run(Some(b), calls);
            && after.Some? && after.value.updatedAt == b.updatedAt
            && after.value.tokens == b.tokens - Admitted(Some(b), calls) as real
  {
    if |calls| > 0 {
      InstantAdmits(b, calls[..|calls| - 1]);
      NoGain(calls[|calls| - 1].rate, b.updatedAt);
    }
  }

  lemma {:induction false} NewBucketIsFull(calls: seq<Call>, now: int, capacity: real)
    requires |calls| > 0 && calls[0].now == now && calls[0].capacity == capacity
    ensures var full := Some(Bucket(capacity, now, capacity));
            Run(None, calls) == Run(full, calls) && Admitted(None, calls) == Admitted(full, calls)
  {
    var front := calls[..|calls| - 1];
    if |front| > 0 {
      NewBucketIsFull(front, now, capacity);
    } else {
      NoGain(calls[0].rate, now);
    }
  }

  /** Of calls of one instant a new key admits exactly the burst, or the rate if there is none, but at least one. */
  lemma BurstIsExact(perSecond: Rate, burst: Option<real>, now: int, calls: seq<Call>)
    requires forall i :: 0 <= i < |calls| ==> calls[i] == Call(now, perSecond, Capacity(perSecond, burst))
    ensures Admitted(None, calls) == Min(|calls|, Max(1, burst.GetOr(perSecond).Floor))
  {
    if |calls| > 0 {
      var capacity := Capacity(perSecond, burst);
      NewBucketIsFull(calls, now, capacity);
      InstantAdmits(Bucket(capacity, now, capacity), calls);
    }
  }

  /** The answer's `remaining` is exactly how many more calls of that instant are admitted. */
  lemma RemainingIsExact(b: Option<Bucket>, c: Call, calls: seq<Call>)
    requires Ok(b, c) && OneInstant(calls, c.now, c.capacity)
    ensures var (taken, after) := Take(b, c.rate, c.capacity, c.now);
            && taken.remaining.Some?
            && Admitted(Some(after), calls) == Min(|calls|, taken.remaining.value)
  {
    InstantAdmits(Take(b, c.rate, c.capacity, c.now).1, calls);
  }

  // ----- The advertised wait -----

  lemma CeilIff(x: real, n: int)
    ensures n >= CeilOf(x) <==> n as real >= x
  {
  }

  lemma WaitEnoughIff(need: real, rate: Rate, ms: int)
    ensures ms >= CeilOf(need / rate * 1000.0) <==> ms as real / 1000.0 * rate >= need
  {
    CeilIff(need / rate * 1000.0, ms);
    var s := ms as real / 1000.0;
    assert need / rate * rate == need;
    if s >= need / rate {
      assert s * rate >= need / rate * rate;
    } else {
      assert s * rate < need / rate * rate;
    }
  }

  /**
   After a rejection the next call, of any capacity, is admitted exactly if it waits as long as its own rate calls for;
   for a call of the rejected one's rate that is the advertised time.
   */
  lemma WaitIsExact(b: Option<Bucket>, c: Call, rate: Rate, capacity: Room, waited: nat)
    requires !Ok(b, c)
    ensures var (taken, after) := Take(b, c.rate, c.capacity, c.now);
            && (Ok(Some(after), Call(c.now + waited, rate, capacity)) <==> waited >= WaitMs(after.tokens, rate))
            && taken.resetMs == WaitMs(after.tokens, c.rate)
  {
    WaitEnoughIff(1.0 - Refilled(b, c.rate, c.capacity, c.now), rate, waited);
  }

  // ----- Rejected calls leave no trace -----

  ghost predicate OneRate(calls: seq<Call>, rate: Rate) {
    forall i :: 0 <= i < |calls| ==> calls[i].rate == rate
  }

  /** The run without its rejected calls. */
  function Kept(b: Option<Bucket>, calls: seq<Call>): seq<Call> {
    if |calls| == 0 then []
    else
      var front, c := calls[..|calls| - 1], calls[|calls| - 1];
      Kept(b, front) + if Ok(Run(b, front), c) then [c] else []
  }

  /** From `from` on the two buckets hold the same tokens for every call of this rate, whatever its capacity. */
  ghost predicate Alike(a: Option<Bucket>, b: Option<Bucket>, rate: Rate, from: int) {
    forall t, capacity: Room :: t >= from ==>
      Refilled(a, rate, capacity, t) == Refilled(b, rate, capacity, t)
  }

  /** A rejection goes unnoticed by later calls of a rate exactly if it had that rate, or came at the bucket's time. */
  lemma RejectionUnnoticedIff(b: Bucket, c: Call, rate: Rate)
    requires b.updatedAt <= c.now && !Ok(Some(b), c)
    ensures Alike(Some(Take(Some(b), c.rate, c.capacity, c.now).1), Some(b), rate, c.now) <==>
            rate == c.rate || c.now == b.updatedAt
  {
    var after := Take(Some(b), c.rate, c.capacity, c.now).1;
    if rate == c.rate || c.now == b.updatedAt {
      forall t, capacity: Room | t >= c.now
        ensures Refilled(Some(after), rate, capacity, t) == Refilled(Some(b), rate, capacity, t)
      {
        NoGain(rate, c.now);
        NoGain(c.rate, c.now);
        GainAdds(rate, b.updatedAt, c.now, t);
      }
    } else {
      NoGain(rate, c.now);
      GainsDiffer(rate, c.rate, b.updatedAt, c.now);
      assert Refilled(Some(after), rate, 1.0, c.now) != Refilled(Some(b), rate, 1.0, c.now);
    }
  }

  lemma GainsDiffer(a: real, b: real, from: int, now: int)
    requires a != b && from < now
    ensures Gain(a, from, now) != Gain(b, from, now)
  {
    var t := (now - from) as real / 1000.0;
    assert t > 0.0;
    if a < b { assert t * a < t * b; } else { assert t * b < t * a; }
  }

  /** Alike buckets answer a call alike, and a rejected one may be left out on either side. */
  lemma AlikeStep(a: Option<Bucket>, b: Option<Bucket>, c: Call)
    requires Alike(a, b, c.rate, c.now)
    ensures Take(a, c.rate, c.capacity, c.now) == Take(b, c.rate, c.capacity, c.now)
    ensures !Ok(a, c) ==> Alike(Some(Take(a, c.rate, c.capacity, c.now).1), b, c.rate, c.now)
  {
    assert Refilled(a, c.rate, c.capacity, c.now) == Refilled(b, c.rate, c.capacity, c.now);
    if !Ok(a, c) {
      var after := Take(a, c.rate, c.capacity, c.now).1;
      forall t, capacity: Room | t >= c.now
        ensures Refilled(Some(after), c.rate, capacity, t) == Refilled(b, c.rate, capacity, t)
      {
        GainAdds(c.rate, a.value.updatedAt, c.now, t);
        assert Refilled(a, c.rate, capacity, t) == Refilled(b, c.rate, capacity, t);
      }
    }
  }

  /**
   In a run of one rate, whatever the capacities, running only the admitted calls admits every one of them, and ends in
   a bucket just like the full run's.
   */
  lemma {:induction false} RejectedCallsLeaveNoTrace(b: Option<Bucket>, calls: seq<Call>, rate: Rate)
    requires OneRate(calls, rate) && InOrder(calls)
    ensures Kept(b, Kept(b, calls)) == Kept(b, calls)
    ensures |calls| > 0 ==> Alike(Run(b, calls), Run(b, Kept(b, calls)), rate, calls[|calls| - 1].now)
  {
    if |calls| > 0 {
      var front, c := calls[..|calls| - 1], calls[|calls| - 1];
      RejectedCallsLeaveNoTrace(b, front, rate);
      var keptFront := Kept(b, front);
      assert |front| > 0 ==> front[|front| - 1].now <= c.now;
      assert Alike(Run(b, front), Run(b, keptFront), rate, c.now);
      AlikeStep(Run(b, front), Run(b, keptFront), c);
      if Ok(Run(b, front), c) {
        assert (keptFront + [c])[..|keptFront|] == keptFront;
      } else {
        assert keptFront + [] == keptFront;
      }
    }
  }

  /**
   With two rates on one key a rejected call of the slower can cost a call of the faster its admission: from some bucket
   the two come in one millisecond, and the second would be admitted without the first.
   */
  lemma TwoRatesLeaveATrace(slow: Call, fast: Call) returns (b: Bucket)
    requires slow.rate < fast.rate && slow.rate < 1000.0 && slow.now == fast.now
    ensures 0.0 <= b.tokens < 1.0 && b.updatedAt < slow.now
    ensures !Ok(Some(b), slow)
    ensures Ok(Some(b), fast) && !Ok(Run(Some(b), [slow]), fast)
  {
    var tokens := if fast.rate < 1000.0 then 1.0 - fast.rate / 1000.0 else 0.0;
    b := Bucket(tokens, slow.now - 1, slow.capacity);
    NoGain(fast.rate, slow.now);
    assert [slow][..0] == [];
  }

  /** The faucet shares the key of the create routes, at a rate between 1 and 5. */
  function FaucetRate(createPerSecond: real): real {
    if createPerSecond < 1.0 then 1.0 else if createPerSecond > 5.0 then 5.0 else createPerSecond
  }

  /** The first call is rejected, and costs the second one, not before it, its admission. */
  predicate Costs(b: Bucket, first: Call, second: Call) {
    && b.updatedAt <= first.now <= second.now && !Ok(Some(b), first) && Ok(Some(b), second)
    && !Ok(Some(Take(Some(b), first.rate, first.capacity, first.now).1), second)
  }

  /** Some rejected call of the one route can cost a call of the other its admission. */
  ghost predicate Interfere(rate: Rate, capacity: Room, rate': Rate, capacity': Room) {
    exists b, now, later :: Costs(b, Call(now, rate, capacity), Call(later, rate', capacity'))
  }

  lemma OneRateDoesNotInterfere(rate: Rate, capacity: Room, capacity': Room)
    ensures !Interfere(rate, capacity, rate, capacity')
  {
    forall b, now, later ensures !Costs(b, Call(now, rate, capacity), Call(later, rate, capacity')) {
      if b.updatedAt <= now <= later && !Ok(Some(b), Call(now, rate, capacity)) {
        RejectionUnnoticedIff(b, Call(now, rate, capacity), rate);
        assert Refilled(Some(Take(Some(b), rate, capacity, now).1), rate, capacity', later) ==
               Refilled(Some(b), rate, capacity', later);
      }
    }
  }

  /** The faucet and the create routes can cost each other calls exactly if the create rate is below 1 or above 5. */
  lemma FaucetInterferesIff(createPerSecond: real)
    requires createPerSecond > 0.0
    ensures var (rate, faucet) := (createPerSecond, FaucetRate(createPerSecond));
            var capacity := Capacity(rate, Some(if rate < 1.0 then 1.0 else rate));
            Interfere(rate, capacity, faucet, faucet) || Interfere(faucet, faucet, rate, capacity) <==>
            rate < 1.0 || rate > 5.0
  {
    var rate, faucet := createPerSecond, FaucetRate(createPerSecond);
    var capacity := Capacity(rate, Some(if rate < 1.0 then 1.0 else rate));
    var create, drip := Call(1, rate, capacity), Call(1, faucet, faucet);
    if rate < 1.0 {
      var b := TwoRatesLeaveATrace(create, drip);
      assert [create][..0] == [] && Costs(b, create, drip);
    } else if rate > 5.0 {
      var b := TwoRatesLeaveATrace(drip, create);
      assert [drip][..0] == [] && Costs(b, drip, create);
    } else {
      OneRateDoesNotInterfere(rate, capacity, faucet);
      OneRateDoesNotInterfere(rate, faucet, capacity);
    }
  }

  // ----- Many keys -----

  datatype KeyedCall = KeyedCall(key: string, call: Call)

  function TableAfter(buckets: map<string, Bucket>, calls: seq<KeyedCall>): map<string, Bucket> {
    if |calls| == 0 then buckets
    else
      var before, c := TableAfter(buckets, calls[..|calls| - 1]), calls[|calls| - 1];
      before[c.key := Take(Get(before, c.key), c.call.rate, c.call.capacity, c.call.now).1]
  }

  function OfKey(calls: seq<KeyedCall>, key: string): seq<Call> {
    if |calls| == 0 then []
    else OfKey(calls[..|calls| - 1], key) + if calls[|calls| - 1].key == key then [calls[|calls| - 1].call] else []
  }

  /** Each key's bucket is what its own calls alone make of it, so the laws above hold for every key of the table. */
  lemma {:induction false} KeysAreIndependent(buckets: map<string, Bucket>, calls: seq<KeyedCall>, key: string)
    ensures Get(TableAfter(buckets, calls), key) == Run(Get(buckets, key), OfKey(calls, key))
  {
    if |calls| > 0 {
      KeysAreIndependent(buckets, calls[..|calls| - 1], key);
      var before := OfKey(calls[..|calls| - 1], key);
      assert calls[|calls| - 1].key == key ==> OfKey(calls, key)[..|before|] == before;
      assert before + [] == before;
    }
  }
}
