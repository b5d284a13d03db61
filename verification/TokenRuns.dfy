/** Sequences of token takes on one bucket, however they were scheduled, and the bounds every
  such sequence obeys. */
module TokenRuns {
  import opened TokenBucketMath
  import opened TokenBucket

  /** Tokens taken at a time point. */
  datatype Take = Take(tokens: real, now: real)

  datatype Config = Config(rate: real, burst: real)

  ghost predicate ValidConfig(cfg: Config) {
    cfg.rate > 0.0 && cfg.burst > 0.0
  }

  /** The zero time after the takes, oldest first. */
  function After(z: real, cfg: Config, takes: seq<Take>): real
    requires cfg.rate > 0.0
  {
    if takes == [] then z
    else
      var last := takes[|takes| - 1];
      Borrowed(After(z, cfg, takes[..|takes| - 1]), cfg.rate, cfg.burst, last.now, last.tokens)
  }

  function Total(takes: seq<Take>): real {
    if takes == [] then 0.0 else Total(takes[..|takes| - 1]) + takes[|takes| - 1].tokens
  }

  /** From the anchor of take `i` on, the zero time has moved by at least the refill time of
    everything taken since. */
  lemma {:induction false} TakenTimeIsStored(z: real, cfg: Config, takes: seq<Take>, i: nat)
    requires ValidConfig(cfg) && i < |takes|
    requires forall k :: 0 <= k < |takes| ==> takes[k].tokens >= 0.0
    ensures Anchor(After(z, cfg, takes[..i]), cfg.rate, cfg.burst, takes[i].now)
         + Total(takes[i..]) / cfg.rate <= After(z, cfg, takes)
  {
    var n := |takes| - 1;
    var last := takes[n];
    if i == n {
      assert takes[i..] == [last];
      assert Total([last]) == Total([last][..0]) + last.tokens == last.tokens;
    } else {
      TakenTimeIsStored(z, cfg, takes[..n], i);
      assert takes[..n][..i] == takes[..i];
      assert takes[i..][..|takes[i..]| - 1] == takes[..n][i..];
      DivSum(Total(takes[..n][i..]), last.tokens, cfg.rate);
    }
  }

  lemma ScaleBound(total: real, seconds: real, cfg: Config)
    requires ValidConfig(cfg)
    requires total / cfg.rate <= cfg.burst / cfg.rate + seconds
    ensures total <= cfg.burst + cfg.rate * seconds
  {
    DivMul(total, cfg.rate);
    DivMul(cfg.burst, cfg.rate);
    var slack := cfg.burst / cfg.rate + seconds - total / cfg.rate;
    assert slack * cfg.rate >= 0.0;
    assert slack * cfg.rate == cfg.burst + seconds * cfg.rate - total;
  }

  // ------------------------------------------------------------------ all-or-nothing grants

  /** Every take was affordable at its own time, that is, no take went into debt. */
  ghost predicate AllGranted(z: real, cfg: Config, takes: seq<Take>)
    requires cfg.rate > 0.0
  {
    forall k :: 0 <= k < |takes| ==>
      takes[k].tokens > 0.0 && After(z, cfg, takes[..k + 1]) <= takes[k].now
  }

  lemma GrantSeconds(z: real, cfg: Config, takes: seq<Take>, i: nat, j: nat)
    requires ValidConfig(cfg) && AllGranted(z, cfg, takes) && i <= j < |takes|
    ensures Total(takes[i..j + 1]) / cfg.rate
         <= cfg.burst / cfg.rate + (takes[j].now - takes[i].now)
  {
    var upTo := takes[..j + 1];
    TakenTimeIsStored(z, cfg, upTo, i);
    assert upTo[i..] == takes[i..j + 1];
  }

  /** The window bound for grants, whatever the order of their time points. */
  lemma GrantWindow(z: real, cfg: Config, takes: seq<Take>, i: nat, j: nat)
    requires ValidConfig(cfg) && AllGranted(z, cfg, takes) && i <= j < |takes|
    ensures Total(takes[i..j + 1]) <= cfg.burst + cfg.rate * (takes[j].now - takes[i].now)
  {
    GrantSeconds(z, cfg, takes, i, j);
    ScaleBound(Total(takes[i..j + 1]), takes[j].now - takes[i].now, cfg);
  }

  // ------------------------------------------------------------------ borrowing

  /** A run of borrowing calls, each within the burst. */
  ghost predicate BorrowRun(cfg: Config, takes: seq<Take>) {
    forall k :: 0 <= k < |takes| ==> 0.0 < takes[k].tokens <= cfg.burst
  }

  ghost predicate ClockAdvances(takes: seq<Take>) {
    forall i, j :: 0 <= i <= j < |takes| ==> takes[i].now <= takes[j].now
  }

  /** When call `k` may proceed: its time plus the nap the call returned. */
  function StartTime(z: real, cfg: Config, takes: seq<Take>, k: nat): real
    requires cfg.rate > 0.0 && k < |takes|
  {
    takes[k].now + Max(0.0, After(z, cfg, takes[..k + 1]) - takes[k].now)
  }

  lemma {:induction false} ZeroTimeGrows(z: real, cfg: Config, takes: seq<Take>, i: nat, j: nat)
    requires ValidConfig(cfg) && BorrowRun(cfg, takes) && i <= j <= |takes|
    ensures After(z, cfg, takes[..i]) <= After(z, cfg, takes[..j])
    decreases j
  {
    if i < j {
      ZeroTimeGrows(z, cfg, takes, i, j - 1);
      assert takes[..j][..j - 1] == takes[..j - 1];
      DivLe(0.0, takes[j - 1].tokens, cfg.rate);
    }
  }

  /** With a clock that never goes back, borrowers start in the order in which they called. */
  lemma BorrowingIsFifo(z: real, cfg: Config, takes: seq<Take>, i: nat, j: nat)
    requires ValidConfig(cfg) && BorrowRun(cfg, takes) && ClockAdvances(takes) && i <= j < |takes|
    ensures StartTime(z, cfg, takes, i) <= StartTime(z, cfg, takes, j)
  {
    ZeroTimeGrows(z, cfg, takes, i + 1, j + 1);
  }

  lemma BorrowSeconds(z: real, cfg: Config, takes: seq<Take>, i: nat, j: nat)
    requires ValidConfig(cfg) && BorrowRun(cfg, takes) && i <= j < |takes|
    ensures Total(takes[i..j + 1]) / cfg.rate
         <= cfg.burst / cfg.rate + (StartTime(z, cfg, takes, j) - StartTime(z, cfg, takes, i))
  {
    var upTo := takes[..j + 1];
    TakenTimeIsStored(z, cfg, upTo, i);
    assert upTo[i..] == takes[i..j + 1] && upTo[..i] == takes[..i];
    assert takes[..i + 1][..i] == takes[..i];
    DivLe(takes[i].tokens, cfg.burst, cfg.rate);
  }

  /** Between two start times no more than the burst plus the refill is handed out, whatever the
    order of the calls' time points. */
  lemma BorrowWindow(z: real, cfg: Config, takes: seq<Take>, i: nat, j: nat)
    requires ValidConfig(cfg) && BorrowRun(cfg, takes) && i <= j < |takes|
    ensures Total(takes[i..j + 1])
         <= cfg.burst + cfg.rate * (StartTime(z, cfg, takes, j) - StartTime(z, cfg, takes, i))
  {
    hide StartTime, Total;
    BorrowSeconds(z, cfg, takes, i, j);
    ScaleBound(Total(takes[i..j + 1]),
               StartTime(z, cfg, takes, j) - StartTime(z, cfg, takes, i), cfg);
  }
}
