/** One token bucket used by one thread at a time: the storage with its compare-exchange loop,
  the all-or-nothing, draining and borrowing operations, and reconfiguration. */
module TokenBucket {
  import opened TokenBucketMath
  import opened Wrappers

  /** What one uncontended all-or-nothing consume of `c > 0` tokens does to a zero time. */
  function AtomicConsume(z: real, rate: real, burst: real, now: real, c: real): (bool, real)
    requires rate > 0.0
  {
    if c <= Balance(z, rate, burst, now)
    then (true, ZeroTimeAfter(z, rate, burst, now, c))
    else (false, z)
  }

  /** The admission adapter: a non-positive cost always succeeds and debits nothing. */
  function TryConsume(z: real, rate: real, burst: real, now: real, cost: real): (bool, real)
    requires rate > 0.0
  {
    if cost <= 0.0 then (true, z) else AtomicConsume(z, rate, burst, now, cost)
  }

  /** What borrowing `c` tokens does to a zero time: virtual scheduling. */
  function Borrowed(z: real, rate: real, burst: real, now: real, c: real): real
    requires rate > 0.0
  {
    Anchor(z, rate, burst, now) + c / rate
  }

  /** Where the admission adapter puts the zero time so that a bucket starts full at `now`; without
    a refill no such moment exists. */
  function FullStartZeroTime(capacity: real, refillRate: real, now: real): real {
    if refillRate <= 0.0 then now else now - capacity / refillRate
  }

  /** With a refill the start is full. Without one the bucket is empty for good: no positive cost is
    ever affordable. */
  lemma FullStart(capacity: real, refillRate: real, now: real, later: real)
    requires now <= later
    ensures var z := FullStartZeroTime(capacity, refillRate, now);
      if refillRate > 0.0 then Balance(z, refillRate, capacity, later) == capacity
      else Balance(z, refillRate, capacity, later) <= 0.0
  {
    if refillRate > 0.0 {
      DivMul(capacity, refillRate);
      assert 0.0 <= (later - now) * refillRate;
    }
  }

  /** The folly bucket. `TokenBucketStorage` and the dynamic wrapper are held by value in the
    source, so their state is the one field `zeroTime`. */
  class BasicTokenBucket {
    var zeroTime: real
    var rate: real
    var burst: real

    ghost predicate Valid()
      reads this
    {
      rate > 0.0 && burst > 0.0
    }

    constructor (genRate: real, burstSize: real, z: real)
      requires genRate > 0.0 && burstSize > 0.0
      ensures Valid() && rate == genRate && burst == burstSize && zeroTime == z
    {
      zeroTime, rate, burst := z, genRate, burstSize;
    }

    /** Starts full at `now`, as the admission adapter does, if there is a refill at all. */
    constructor Full(capacity: real, refillRate: real, now: real)
      ensures rate == refillRate && burst == capacity && (refillRate > 0.0 && capacity > 0.0 ==> Valid())
      ensures refillRate > 0.0 ==> zeroTime == now - capacity / refillRate
      ensures refillRate > 0.0 ==>
        forall later: real :: now <= later ==> Balance(zeroTime, rate, burst, later) == capacity
      ensures refillRate <= 0.0 ==>
        forall later: real :: now <= later ==> Balance(zeroTime, rate, burst, later) <= 0.0
    {
      zeroTime, rate, burst := FullStartZeroTime(capacity, refillRate, now), refillRate, capacity;
      new;
      forall later: real | now <= later
        ensures if refillRate > 0.0 then Balance(zeroTime, rate, burst, later) == capacity
                else Balance(zeroTime, rate, burst, later) <= 0.0
      {
        FullStart(capacity, refillRate, now, later);
      }
    }

    /** The balance is what the rate refills from the anchor on: it is negative exactly before the
      zero time and never exceeds the burst. */
    method BalanceAt(now: real) returns (tokens: real)
      requires Valid()
      ensures tokens == Balance(zeroTime, rate, burst, now)
      ensures tokens / rate == now - Anchor(zeroTime, rate, burst, now)
      ensures tokens <= burst && (tokens < 0.0 <==> now < zeroTime)
    {
      BalanceInSeconds(zeroTime, rate, burst, now);
      DivLe(0.0, (now - zeroTime) * rate, rate);
      DivMul(now - zeroTime, rate);
      tokens := Min((now - zeroTime) * rate, burst);
    }

    method Available(now: real) returns (tokens: real)
      requires Valid()
      ensures 0.0 <= tokens <= burst
      ensures tokens == Max(0.0, Balance(zeroTime, rate, burst, now))
    {
      var balance := BalanceAt(now);
      tokens := Max(0.0, balance);
    }

    /** A weak compare-exchange: it may fail although the expected value is there. */
    method CompareExchangeWeak(expected: real, desired: real, spurious: bool) returns (ok: bool)
      modifies this`zeroTime
      ensures ok <==> old(zeroTime) == expected && !spurious
      ensures zeroTime == if ok then desired else old(zeroTime)
    {
      ok := zeroTime == expected && !spurious;
      if ok {
        zeroTime := desired;
      }
    }

    /** The storage's compare-exchange loop. `failures` is how many times the weak exchange
      fails before it succeeds; the outcome does not depend on it. */
    method ConsumeStorage(now: real, callback: real -> real, failures: nat)
      returns (consumed: real)
      requires Valid()
      modifies this`zeroTime
      ensures consumed == callback(Balance(old(zeroTime), rate, burst, now))
      ensures zeroTime == if consumed == 0.0 then old(zeroTime)
                          else ZeroTimeAfter(old(zeroTime), rate, burst, now, consumed)
    {
      var left, stored := failures, false;
      consumed := 0.0;
      ghost var balance := Balance(zeroTime, rate, burst, now);
      while !stored
        invariant !stored ==> zeroTime == old(zeroTime)
        invariant stored ==>
          && consumed == callback(balance)
          && consumed != 0.0
          && zeroTime == ZeroTimeAfter(old(zeroTime), rate, burst, now, consumed)
        decreases if stored then 0 else 1, left
      {
        var zeroTimeOld := zeroTime;
        var tokens := Min((now - zeroTimeOld) * rate, burst);
        assert tokens == balance;
        consumed := callback(tokens);
        var tokensNew := tokens - consumed;
        if consumed == 0.0 {
          return;
        }
        stored := CompareExchangeWeak(zeroTimeOld, now - tokensNew / rate, left > 0);
        if !stored {
          left := left - 1;
        }
      }
    }

    /** All or nothing. */
    method Consume(toConsume: real, now: real, failures: nat) returns (granted: bool)
      requires Valid()
      modifies this`zeroTime
      ensures granted <==>
        && 0.0 <= Balance(old(zeroTime), rate, burst, now)
        && toConsume <= Balance(old(zeroTime), rate, burst, now)
      ensures zeroTime == if granted && toConsume != 0.0
                          then Anchor(old(zeroTime), rate, burst, now) + toConsume / rate
                          else old(zeroTime)
      ensures toConsume > 0.0 ==>
        (granted, zeroTime) == AtomicConsume(old(zeroTime), rate, burst, now, toConsume)
    {
      TakeMovesAnchor(zeroTime, rate, burst, now, toConsume);
      var balance := BalanceAt(now);
      if balance < 0.0 {
        return false;
      }
      var consumed := ConsumeStorage(now, available => if available < toConsume then 0.0 else toConsume, failures);
      granted := consumed == toConsume;
    }

    method TryConsumeNow(cost: real, now: real, failures: nat) returns (granted: bool)
      requires Valid()
      modifies this`zeroTime
      ensures (granted, zeroTime) == TryConsume(old(zeroTime), rate, burst, now, cost)
    {
      if cost <= 0.0 {
        return true;
      }
      granted := Consume(cost, now, failures);
    }

    /** As much as there is, up to `toConsume` (of which a negative amount is given back). */
    method ConsumeOrDrain(toConsume: real, now: real, failures: nat) returns (consumed: real)
      requires Valid()
      modifies this`zeroTime
      ensures consumed == if Balance(old(zeroTime), rate, burst, now) <= 0.0 then 0.0
                          else Min(Balance(old(zeroTime), rate, burst, now), toConsume)
      ensures zeroTime == if consumed == 0.0 then old(zeroTime)
                          else Anchor(old(zeroTime), rate, burst, now) + consumed / rate
      ensures 0.0 < consumed < toConsume ==> zeroTime == now
      ensures old(zeroTime) >= now ==> consumed == 0.0
    {
      NothingYet(zeroTime, rate, burst, now);
      var balance := BalanceAt(now);
      if balance <= 0.0 {
        return 0.0;
      }
      consumed := ConsumeStorage(now, available => Min(available, toConsume), failures);
      TakeMovesAnchor(old(zeroTime), rate, burst, now, consumed);
    }

    /** Gives tokens back, or takes them when negative, whatever the balance. */
    method ReturnTokens(tokenCount: real, failures: nat)
      requires Valid()
      modifies this`zeroTime
      ensures zeroTime == old(zeroTime) - tokenCount / rate
    {
      var zeroTimeOld := zeroTime;
      var left, stored := failures, false;
      while !stored
        invariant zeroTimeOld == old(zeroTime)
        invariant zeroTime == if stored then old(zeroTime) - tokenCount / rate else old(zeroTime)
        decreases if stored then 0 else 1, left
      {
        stored := CompareExchangeWeak(zeroTimeOld, zeroTimeOld - tokenCount / rate, left > 0);
        if !stored {
          left := left - 1;
        }
      }
    }

    /** The moment from which the bucket, left alone, holds at least `target` tokens, and at which it
      holds exactly that many; a target above the burst is never reached. */
    method TimeWhenBucket(target: real) returns (time: real)
      requires Valid()
      ensures time == zeroTime + target / rate
      ensures target <= burst ==> Balance(zeroTime, rate, burst, time) == target
      ensures forall at: real :: target <= Balance(zeroTime, rate, burst, at) <==> target <= burst && time <= at
    {
      time := zeroTime + target / rate;
      DivMul(target, rate);
      forall at: real
        ensures target <= Balance(zeroTime, rate, burst, at) <==> target <= burst && time <= at
      {
        HoldsFrom(zeroTime, rate, burst, target, at);
      }
    }

    /** The borrowing branch: pushes the zero time forward by what `left` tokens take to refill
      and reports when the debt will be paid. */
    method BorrowRest(left: real, failures: nat) returns (debtPaid: real)
      requires Valid()
      modifies this`zeroTime
      ensures debtPaid == zeroTime == old(zeroTime) + left / rate
    {
      ReturnTokens(-left, failures);
      NegatedQuotient(left, rate);
      debtPaid := TimeWhenBucket(0.0);
    }

    /** Always satisfies a request of at most `burst` tokens, borrowing from the future when it
      must, and says how long the caller has to wait. `rounds` counts loop iterations. */
    method ConsumeWithBorrowNonBlocking(toConsume: real, now: real, failures: nat)
      returns (nap: Option<real>, ghost rounds: nat)
      requires Valid()
      modifies this`zeroTime
      ensures nap.None? <==> burst < toConsume
      ensures nap.None? || toConsume <= 0.0 ==> zeroTime == old(zeroTime)
      ensures toConsume <= 0.0 && nap.Some? ==> nap.value == 0.0
      ensures 0.0 < toConsume <= burst ==>
        && zeroTime == Borrowed(old(zeroTime), rate, burst, now, toConsume)
        && nap.value == Max(0.0, zeroTime - now)
      ensures rounds <= 2
    {
      rounds := 0;
      if burst < toConsume {
        return None, rounds;
      }
      ghost var target := Borrowed(zeroTime, rate, burst, now, toConsume);
      var left := toConsume;
      while left > 0.0
        invariant rounds <= 1 && (rounds == 1 ==> 0.0 < toConsume)
        invariant rounds == 0 ==> left == toConsume && zeroTime == old(zeroTime)
        invariant rounds == 1 && left <= 0.0 ==> left == 0.0 && zeroTime == target <= now
        invariant rounds == 1 && left > 0.0 ==> zeroTime == now && now + left / rate == target
        decreases 2 - rounds
      {
        ghost var before, wanted := zeroTime, left;
        var consumed := ConsumeOrDrain(left, now, failures);
        rounds := rounds + 1;
        if consumed > 0.0 {
          assert rounds == 1;
          left := left - consumed;
          DrainedThenBorrowed(before, rate, burst, now, wanted, consumed);
        } else {
          if rounds == 1 {
            ExhaustedAnchor(before, rate, burst, now, left);
          }
          var debtPaid := BorrowRest(left, failures);
          return Some(Max(0.0, debtPaid - now)), rounds;
        }
      }
      nap := Some(0.0);
    }

    /** Changes rate and burst, carrying over the tokens available at `now` (a debt is
      forgiven, and what exceeds the new burst is lost). */
    method Reset(genRate: real, burstSize: real, now: real)
      requires Valid() && genRate > 0.0 && burstSize > 0.0
      modifies this
      ensures Valid() && rate == genRate && burst == burstSize
      ensures Balance(zeroTime, rate, burst, now)
           == Min(Max(0.0, Balance(old(zeroTime), old(rate), old(burst), now)), burstSize)
    {
      var tokens := Available(now);
      rate, burst := genRate, burstSize;
      SetCapacity(tokens, now);
    }

    /** Makes the bucket hold `tokens` at `now`, up to the burst. */
    method SetCapacity(tokens: real, now: real)
      requires Valid()
      modifies this`zeroTime
      ensures Balance(zeroTime, rate, burst, now) == Min(tokens, burst)
    {
      zeroTime := now - tokens / rate;
      DivMul(tokens, rate);
    }
  }

  /** The first round of borrowing: taking `consumed <= c` of the available tokens. */
  lemma DrainedThenBorrowed(z: real, rate: real, burst: real, now: real, c: real, consumed: real)
    requires rate > 0.0 && 0.0 < consumed == Min(Balance(z, rate, burst, now), c)
    requires c <= burst
    ensures Anchor(z, rate, burst, now) + consumed / rate + (c - consumed) / rate
         == Borrowed(z, rate, burst, now, c)
    ensures consumed < c ==> Anchor(z, rate, burst, now) + consumed / rate == now
    ensures consumed <= c && Anchor(z, rate, burst, now) + consumed / rate <= now
  {
    DivSum(c, consumed, rate);
    BalanceInSeconds(z, rate, burst, now);
    DivLe(consumed, Balance(z, rate, burst, now), rate);
  }

  /** A bucket whose zero time has not passed has nothing to give. */
  lemma NothingYet(z: real, rate: real, burst: real, now: real)
    requires rate > 0.0
    ensures z >= now ==> Balance(z, rate, burst, now) <= 0.0
  {
    BalanceInSeconds(z, rate, burst, now);
    DivLe(Balance(z, rate, burst, now), 0.0, rate);
  }

  /** A bucket holds `target` tokens from the time they take to refill on, if it can hold them. */
  lemma HoldsFrom(z: real, rate: real, burst: real, target: real, at: real)
    requires rate > 0.0
    ensures target <= Balance(z, rate, burst, at) <==> target <= burst && z + target / rate <= at
  {
    DivLe(target, (at - z) * rate, rate);
    assert (at - z) * rate / rate == at - z;
  }

  lemma NegatedQuotient(a: real, b: real)
    requires b > 0.0
    ensures (-a) / b == -(a / b) && 0.0 / b == 0.0
  {
  }

  /** With nothing available the anchor is the zero time itself. */
  lemma ExhaustedAnchor(z: real, rate: real, burst: real, now: real, c: real)
    requires rate > 0.0 && Balance(z, rate, burst, now) <= 0.0 && 0.0 < c <= burst
    ensures Anchor(z, rate, burst, now) == z && z + c / rate == Borrowed(z, rate, burst, now, c)
  {
    BalanceInSeconds(z, rate, burst, now);
    DivLe(Balance(z, rate, burst, now), 0.0, rate);
    DivLe(0.0, burst, rate);
  }
}
