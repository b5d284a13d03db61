/** The arithmetic shared by every token-bucket operation.

  A bucket stores one number, its zero time `z`. Tokens, seconds and time points are exact
  reals. Dividing by the rate turns every statement about tokens into a linear one about
  seconds: a balance at `now` is `rate` times the distance from `Anchor` to `now`. */
module TokenBucketMath {

  function Max(a: real, b: real): real { if a < b then b else a }

  function Min(a: real, b: real): real { if b < a then b else a }

  /** The token balance at `now`; negative while the bucket is in debt. */
  function Balance(z: real, rate: real, burst: real, now: real): real {
    Min((now - z) * rate, burst)
  }

  /** The zero time stored by an operation that takes `c` tokens at `now`. */
  function ZeroTimeAfter(z: real, rate: real, burst: real, now: real, c: real): real
    requires rate > 0.0
  {
    now - (Balance(z, rate, burst, now) - c) / rate
  }

  /** The virtual-scheduling reading: the moment from which the balance at `now` is counted. */
  function Anchor(z: real, rate: real, burst: real, now: real): real
    requires rate > 0.0
  {
    Max(z, now - burst / rate)
  }

  lemma DivMul(a: real, b: real)
    requires b > 0.0
    ensures a / b * b == a
  {
  }

  lemma DivLe(a: real, b: real, rate: real)
    requires rate > 0.0
    ensures a <= b <==> a / rate <= b / rate
    ensures a < b <==> a / rate < b / rate
  {
    DivMul(a, rate);
    DivMul(b, rate);
  }

  lemma DivSum(a: real, b: real, rate: real)
    requires rate > 0.0
    ensures (a + b) / rate == a / rate + b / rate
    ensures (a - b) / rate == a / rate - b / rate
  {
  }

  /** A balance, measured in seconds of refill, is the distance from the anchor to `now`. */
  lemma BalanceInSeconds(z: real, rate: real, burst: real, now: real)
    requires rate > 0.0
    ensures Balance(z, rate, burst, now) / rate == now - Anchor(z, rate, burst, now)
  {
    DivLe((now - z) * rate, burst, rate);
    assert (now - z) * rate / rate == now - z;
  }

  /** Taking `c` tokens moves the zero time to the anchor plus the time `c` tokens take to
    refill, and `c` is affordable exactly when that time is not after `now`. */
  lemma TakeMovesAnchor(z: real, rate: real, burst: real, now: real, c: real)
    requires rate > 0.0
    ensures ZeroTimeAfter(z, rate, burst, now, c) == Anchor(z, rate, burst, now) + c / rate
    ensures c <= Balance(z, rate, burst, now) <==> ZeroTimeAfter(z, rate, burst, now, c) <= now
    ensures c >= 0.0 ==> ZeroTimeAfter(z, rate, burst, now, c) >= z
    ensures c > 0.0 ==> ZeroTimeAfter(z, rate, burst, now, c) > z
  {
    BalanceInSeconds(z, rate, burst, now);
    DivSum(Balance(z, rate, burst, now), c, rate);
    DivLe(c, Balance(z, rate, burst, now), rate);
    DivLe(0.0, c, rate);
  }
}
