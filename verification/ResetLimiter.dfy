/**
  The token bucket that limits Stateless Resets (`StatelessResetLimiter` in
  tokio-ngtcp2/src/server.rs, section 10.3.3 of RFC 9000).
 */
module ResetLimiter {
  import opened Octets

  const BURST: nat := 100
  const RATE: nat := 33
  const NANOS_PER_SEC: nat := 1_000_000_000

  /** Rust's `u64::saturating_mul`. */
  function SaturatingMul(a: nat, b: nat): nat {
    Min(a * b, U64_MAX)
  }

  function SaturatingSub(a: nat, b: nat): nat {
    Max(a - b, 0)
  }

  datatype Bucket = Bucket(tokens: nat, last: nat)

  const FULL: Bucket := Bucket(BURST, 0)

  /** The tokens `refill` credits at clock `ts`, before the cap. */
  function Credit(b: Bucket, ts: nat): nat {
    SaturatingMul(SaturatingSub(ts, b.last), RATE) / NANOS_PER_SEC
  }

  function Refilled(b: Bucket, ts: nat): Bucket {
    var credit := Credit(b, ts);
    if credit == 0 then b
    else Bucket(Min(SaturatingAdd(b.tokens, credit), BURST),
                SaturatingAdd(b.last, SaturatingMul(credit, NANOS_PER_SEC) / RATE))
  }

  /** `try_acquire`: the new bucket and whether a Stateless Reset may be sent. */
  function Acquired(b: Bucket, ts: nat): (Bucket, bool) {
    var r := Refilled(b, ts);
    if r.tokens == 0 then (r, false) else (r.(tokens := r.tokens - 1), true)
  }

  class StatelessResetLimiter {
    var bucket: nat
    var lastRefillTs: nat

    ghost function View(): Bucket
      reads this
    {
      Bucket(bucket, lastRefillTs)
    }

    constructor ()
      ensures View() == FULL
    {
      bucket, lastRefillTs := BURST, 0;
    }

    method TryAcquire(ts: nat) returns (granted: bool)
      modifies this
      ensures (View(), granted) == Acquired(old(View()), ts)
    {
      Refill(ts);
      if bucket == 0 {
        return false;
      }
      bucket := bucket - 1;
      granted := true;
    }

    method Refill(ts: nat)
      modifies this
      ensures View() == Refilled(old(View()), ts)
    {
      var elapsed := SaturatingSub(ts, lastRefillTs);
      var refill := SaturatingMul(elapsed, RATE) / NANOS_PER_SEC;
      if refill == 0 {
        return;
      }
      bucket := Min(SaturatingAdd(bucket, refill), BURST);
      var consumed := SaturatingMul(refill, NANOS_PER_SEC) / RATE;
      lastRefillTs := SaturatingAdd(lastRefillTs, consumed);
    }
  }

  // ---------------------------------------------------------------- one refill

  /**
    A refill advances the clock by what its credit is worth, rounded down by less than one
    nanosecond, and never beyond the present; apart from `elapsed * RATE` nothing saturates.
   */
  lemma RefillAccounts(b: Bucket, ts: nat)
    requires b.tokens <= BURST && b.last <= U64_MAX && ts <= U64_MAX
    ensures var r, credit := Refilled(b, ts), Credit(b, ts);
            && b.last <= r.last <= Max(b.last, ts)
            && credit * NANOS_PER_SEC - 32 <= RATE * (r.last - b.last) <= credit * NANOS_PER_SEC
            && r.tokens == Min(b.tokens + credit, BURST)
            && (credit > 0 ==> b.last < ts)
            && credit * NANOS_PER_SEC <= U64_MAX && b.tokens + credit <= U64_MAX
  {
    var elapsed := SaturatingSub(ts, b.last);
    var credit := Credit(b, ts);
    assert credit * NANOS_PER_SEC <= SaturatingMul(elapsed, RATE) <= elapsed * RATE;
  }

  /** What a refill leaves uncredited is worth at most one token and 31 rounding units. */
  lemma RefillLag(b: Bucket, ts: nat)
    requires b.tokens <= BURST && b.last <= U64_MAX && ts <= U64_MAX
    requires SaturatingSub(ts, b.last) * RATE <= U64_MAX
    ensures RATE * (ts - Refilled(b, ts).last) <= NANOS_PER_SEC + 31
  {
    RefillAccounts(b, ts);
  }

  /** A reset is refused exactly if the bucket is empty and less than a thirty-third of a second has passed. */
  lemma RefusedExactly(b: Bucket, ts: nat)
    requires b.tokens <= BURST
    ensures !Acquired(b, ts).1 <==> b.tokens == 0 && (ts <= b.last || 33 * (ts - b.last) < 1_000_000_000)
  {
  }

  /** What is left: the tokens there were and one for each thirty-third of a second, at most 100, less the one taken. */
  lemma LeftExactly(b: Bucket, ts: nat)
    requires b.tokens <= BURST && b.last <= ts
    ensures var all := b.tokens + 33 * (ts - b.last) / 1_000_000_000;
            Acquired(b, ts).0.tokens == if all == 0 then 0 else Min(all, 100) - 1
  {
    var elapsed := ts - b.last;
    if elapsed * RATE > U64_MAX {
      assert U64_MAX / NANOS_PER_SEC > 100;
      assert elapsed * RATE / NANOS_PER_SEC >= U64_MAX / NANOS_PER_SEC;
    }
  }

  // ---------------------------------------------------------------- whole runs

  /** The bucket and the grants after calls at the given times, in any order of times. */
  function Run(b: Bucket, calls: seq<nat>): (Bucket, nat) {
    if calls == [] then (b, 0)
    else
      var (c, grants) := Run(b, calls[..|calls| - 1]);
      var (d, granted) := Acquired(c, calls[|calls| - 1]);
      (d, if granted then grants + 1 else grants)
  }

  /** The tokens credited in a run, whether or not the cap let them in. */
  function Credited(b: Bucket, calls: seq<nat>): nat {
    if calls == [] then 0
    else
      Credited(b, calls[..|calls| - 1]) + Credit(Run(b, calls[..|calls| - 1]).0, calls[|calls| - 1])
  }

  predicate Within(calls: seq<nat>, clock: nat) {
    forall i :: 0 <= i < |calls| ==> calls[i] <= clock
  }

  lemma {:induction false} RunInvariant(calls: seq<nat>, clock: nat)
    requires Within(calls, clock) && clock <= U64_MAX
    ensures var (b, grants) := Run(FULL, calls);
            && b.tokens <= BURST
            && b.last <= clock
            && grants + b.tokens <= BURST + Credited(FULL, calls)
            && Credited(FULL, calls) * (NANOS_PER_SEC - 32) <= RATE * b.last <= Credited(FULL, calls) * NANOS_PER_SEC
  {
    if calls != [] {
      var n := |calls| - 1;
      RunInvariant(calls[..n], clock);
      RefillAccounts(Run(FULL, calls[..n]).0, calls[n]);
    }
  }

  /**
    The rate limit over every run: grants may exceed the burst by at most 33 tokens a second, with
    a second taken as 999 999 968 ns.
   */
  lemma GrantBound(calls: seq<nat>, clock: nat)
    requires Within(calls, clock) && clock <= U64_MAX
    ensures Run(FULL, calls).1 * (NANOS_PER_SEC - 32) <= BURST * (NANOS_PER_SEC - 32) + RATE * clock
    ensures Run(FULL, calls).0.last <= clock
  {
    RunInvariant(calls, clock);
  }

  /** No elapsed time is lost to rounding: after a call at `ts` all but about one token is credited. */
  lemma CreditBound(calls: seq<nat>, ts: nat, clock: nat)
    requires Within(calls, clock) && ts <= clock <= U64_MAX
    requires SaturatingSub(ts, Run(FULL, calls).0.last) * RATE <= U64_MAX
    ensures RATE * ts <= (Credited(FULL, calls + [ts]) + 1) * NANOS_PER_SEC + 31
  {
    var all := calls + [ts];
    assert all[..|calls|] == calls;
    RunInvariant(calls, clock);
    RunInvariant(all, clock);
    RefillLag(Run(FULL, calls).0, ts);
  }

  /** No call is refused as long as there are tokens, whatever the clock does. */
  lemma {:induction false} BurstIsGranted(b: Bucket, calls: seq<nat>)
    requires |calls| <= b.tokens <= BURST
    ensures Run(b, calls).1 == |calls| && Run(b, calls).0.tokens >= b.tokens - |calls| && Run(b, calls).0.tokens <= BURST
  {
    if calls != [] {
      BurstIsGranted(b, calls[..|calls| - 1]);
    }
  }

  // ---------------------------------------------------------------- the exact rate is exceeded

  function Repeat(ts: nat, n: nat): seq<nat> {
    seq(n, _ => ts)
  }

  lemma {:induction false} DrainAtStart(n: nat)
    requires n <= BURST
    ensures Run(FULL, Repeat(0, n)) == (Bucket(BURST - n, 0), n)
  {
    if n > 0 {
      DrainAtStart(n - 1);
      assert Repeat(0, n)[..n - 1] == Repeat(0, n - 1);
    }
  }

  /**
    The bound without the 32 ns does not hold: 121 212 121 ns at 33 tokens a second are worth less
    than 4 tokens, and 4 are granted beyond the burst.
   */
  lemma ExactRateExceeded()
    ensures var calls := Repeat(0, BURST) + Repeat(121212121, 4);
            && Within(calls, 121212121)
            && Run(FULL, calls).1 * NANOS_PER_SEC > BURST * NANOS_PER_SEC + RATE * 121212121
  {
    var ts := 121212121;
    var c0 := Repeat(0, BURST);
    DrainAtStart(BURST);
    var c1, c2, c3, c4 := c0 + [ts], c0 + [ts, ts], c0 + [ts, ts, ts], c0 + [ts, ts, ts, ts];
    assert c1[..|c0|] == c0 && c2[..|c1|] == c1 && c3[..|c2|] == c2 && c4[..|c3|] == c3;
    assert Run(FULL, c1) == (Bucket(2, 90909090), 101);
    assert Run(FULL, c2) == (Bucket(2, 121212120), 102);
    assert Run(FULL, c3) == (Bucket(1, 121212120), 103);
    assert Run(FULL, c4) == (Bucket(0, 121212120), 104);
    assert c4 == Repeat(0, BURST) + Repeat(ts, 4);
  }

  /** At most 33 tokens a second beyond the burst, up to `t`. */
  predicate ExactRate(calls: seq<nat>, t: nat) {
    Run(FULL, calls).1 * NANOS_PER_SEC <= BURST * NANOS_PER_SEC + RATE * t
  }

  lemma EarlyRefill(b: Bucket, c: nat, ts: nat)
    requires c <= 3 && b.last == 30303030 * c && ts < 121212121
    ensures var all := c + Credit(b, ts);
            && all <= 3 && Refilled(b, ts).last == 30303030 * all
            && (Credit(b, ts) > 0 ==> all * NANOS_PER_SEC <= RATE * ts)
  {
    assert SaturatingMul(SaturatingSub(ts, b.last), RATE) == SaturatingSub(ts, b.last) * RATE;
  }

  /** So early, rounding has not yet moved the clock back by the worth of a whole nanosecond. */
  lemma {:induction false} EarlyRun(calls: seq<nat>, t: nat)
    requires Within(calls, t) && t < 121212121
    ensures var c := Credited(FULL, calls);
            c <= 3 && Run(FULL, calls).0.last == 30303030 * c && c * NANOS_PER_SEC <= RATE * t
  {
    if calls != [] {
      var n := |calls| - 1;
      EarlyRun(calls[..n], t);
      EarlyRefill(Run(FULL, calls[..n]).0, Credited(FULL, calls[..n]), calls[n]);
    }
  }

  /** The exact rate is kept by every run exactly as long as the clock is below 121 212 121 ns. */
  lemma ExactRateWindow(clock: nat)
    ensures (forall calls: seq<nat>, t: nat :: t <= clock && Within(calls, t) ==> ExactRate(calls, t)) <==> clock < 121212121
  {
    if clock < 121212121 {
      forall calls: seq<nat>, t: nat | t <= clock && Within(calls, t) ensures ExactRate(calls, t) {
        EarlyRun(calls, t);
        RunInvariant(calls, t);
      }
    } else {
      ExactRateExceeded();
      assert !ExactRate(Repeat(0, BURST) + Repeat(121212121, 4), 121212121);
    }
  }
}
