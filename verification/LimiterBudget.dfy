/** What one connection can be debited over any window of any run, whatever happens to its entry
  in between: eviction, sweeps, disconnects and the traffic of other connections. */
module LimiterBudget {
  import opened TokenBucketMath
  import opened TokenBucket
  import opened TokenRuns
  import opened AdmissionTypes
  import opened ConnectionLimiter
  import opened LimiterRuns

  /** Tokens this call takes from the bucket of `conn`. */
  function Debit(cfg: Config, b: Buckets, op: Op, conn: ConnId): real
    requires ValidConfig(cfg)
  {
    if op.Uses(conn) && op.Decision().tokenCost > 0.0
       && TryConsume(ZeroTimeAt(cfg, b, conn, op.now), cfg.rate, cfg.burst, op.now,
                     op.Decision().tokenCost).0
    then op.Decision().tokenCost else 0.0
  }

  /** Whether this call creates the bucket of `conn`, and so hands it a full burst. */
  predicate Creates(b: Buckets, op: Op, conn: ConnId) {
    op.Uses(conn) && conn !in b
  }

  function Debited(cfg: Config, max: nat, b: Buckets, ops: seq<Op>, conn: ConnId): real
    requires ValidConfig(cfg)
  {
    if ops == [] then 0.0
    else
      var init := ops[..|ops| - 1];
      Debited(cfg, max, b, init, conn) + Debit(cfg, Exec(cfg, max, b, init).0, ops[|ops| - 1], conn)
  }

  /** How many buckets `conn` draws on: the one it starts with, if any, and each one created. */
  function Residencies(cfg: Config, max: nat, b: Buckets, ops: seq<Op>, conn: ConnId): nat
    requires ValidConfig(cfg)
  {
    if ops == [] then if conn in b then 1 else 0
    else
      var init := ops[..|ops| - 1];
      Residencies(cfg, max, b, init, conn)
      + if Creates(Exec(cfg, max, b, init).0, ops[|ops| - 1], conn) then 1 else 0
  }

  function Refill(cfg: Config): real
    requires ValidConfig(cfg)
  {
    cfg.burst / cfg.rate
  }

  /** The budget, in seconds of refill: a tracked bucket remembers in its zero time how much has
    been taken; an untracked one leaves at most the elapsed time. */
  ghost predicate Within(cfg: Config, b: Buckets, conn: ConnId, debited: real, buckets: nat, from: real,
                         to: real)
    requires ValidConfig(cfg)
  {
    debited / cfg.rate <= buckets as real * Refill(cfg)
      + if conn in b then Max(b[conn].zeroTime, from - Refill(cfg)) - from else to - from
  }

  lemma Start(cfg: Config, b: Buckets, conn: ConnId, from: real, to: real)
    requires ValidConfig(cfg) && from <= to
    ensures Within(cfg, b, conn, 0.0, if conn in b then 1 else 0, from, to)
  {
    DivLe(0.0, 0.0, cfg.rate);
  }

  lemma Later(cfg: Config, b: Buckets, conn: ConnId, debited: real, buckets: nat, from: real, to: real,
              later: real)
    requires ValidConfig(cfg) && Within(cfg, b, conn, debited, buckets, from, to) && to <= later
    ensures Within(cfg, b, conn, debited, buckets, from, later)
  {
  }

  /** Losing the entry, or keeping it as it is, stays within the budget. */
  lemma Forgotten(cfg: Config, b: Buckets, b': Buckets, conn: ConnId, debited: real, buckets: nat,
                  from: real, now: real)
    requires ValidConfig(cfg) && Within(cfg, b, conn, debited, buckets, from, now)
    requires Settled(b, now) && from <= now
    requires conn in b' ==> conn in b && b'[conn] == b[conn]
    ensures Within(cfg, b', conn, debited, buckets, from, now)
  {
    DivLe(0.0, cfg.burst, cfg.rate);
  }

  lemma NextBucket(cfg: Config, buckets: nat)
    requires ValidConfig(cfg)
    ensures (buckets + 1) as real * Refill(cfg) == buckets as real * Refill(cfg) + Refill(cfg)
  {
  }

  /** Using the bucket, new or tracked, stays within the budget. */
  lemma Used(cfg: Config, b: Buckets, b': Buckets, conn: ConnId, cost: real, debited: real, buckets: nat,
             from: real, now: real)
    requires ValidConfig(cfg) && Within(cfg, b, conn, debited, buckets, from, now) && from <= now
    requires conn in b'
    requires b'[conn].zeroTime
      == TryConsume(ZeroTimeAt(cfg, b, conn, now), cfg.rate, cfg.burst, now, cost).1
    ensures var granted := TryConsume(ZeroTimeAt(cfg, b, conn, now), cfg.rate, cfg.burst, now, cost).0;
      Within(cfg, b', conn, debited + if cost > 0.0 && granted then cost else 0.0,
             buckets + if conn in b then 0 else 1, from, now)
  {
    Touched(cfg, b, conn, debited, buckets, from, now);
    Took(cfg, ZeroTimeAt(cfg, b, conn, now), from, now, cost);
    hide TryConsume, ZeroTimeAt, Max, Refill;
    DivSum(debited, cost, cfg.rate);
  }

  /** Before anything is taken the bucket, new or tracked, is within the budget. */
  lemma Touched(cfg: Config, b: Buckets, conn: ConnId, debited: real, buckets: nat, from: real, now: real)
    requires ValidConfig(cfg) && Within(cfg, b, conn, debited, buckets, from, now) && from <= now
    ensures debited / cfg.rate <= (buckets + if conn in b then 0 else 1) as real * Refill(cfg)
      + Max(ZeroTimeAt(cfg, b, conn, now), from - Refill(cfg)) - from
  {
    NextBucket(cfg, buckets);
    DivLe(0.0, cfg.burst, cfg.rate);
  }

  /** A take moves the zero time, measured from the window's start on, by at least its refill time. */
  lemma Took(cfg: Config, z: real, from: real, now: real, cost: real)
    requires ValidConfig(cfg) && from <= now
    ensures var (granted, z') := TryConsume(z, cfg.rate, cfg.burst, now, cost);
      Max(z, from - Refill(cfg)) + (if cost > 0.0 && granted then cost / cfg.rate else 0.0)
      <= Max(z', from - Refill(cfg))
  {
    TakeMovesAnchor(z, cfg.rate, cfg.burst, now, cost);
    hide Balance, ZeroTimeAfter;
  }

  lemma StepWithin(cfg: Config, max: nat, b: Buckets, op: Op, conn: ConnId, debited: real, buckets: nat,
                   from: real, now: real)
    requires ValidConfig(cfg) && Within(cfg, b, conn, debited, buckets, from, now)
    requires Settled(b, now) && from <= now && (op.Timed() ==> now == op.now)
    ensures Within(cfg, Apply(cfg, max, b, op).0, conn, debited + Debit(cfg, b, op, conn),
                   buckets + if Creates(b, op, conn) then 1 else 0, from, now)
  {
    hide Within, Settled, TryConsume;
    var b' := Apply(cfg, max, b, op).0;
    if op.Uses(conn) {
      Used(cfg, b, b', conn, op.Decision().tokenCost, debited, buckets, from, now);
    } else {
      Forgotten(cfg, b, b', conn, debited, buckets, from, now);
    }
  }

  lemma {:induction false} RunWithin(cfg: Config, max: nat, b: Buckets, ops: seq<Op>, conn: ConnId,
                                     from: real, to: real)
    requires ValidConfig(cfg) && Settled(b, from) && Clocked(ops, from, to)
    ensures from <= to && Settled(Exec(cfg, max, b, ops).0, to)
    ensures Within(cfg, Exec(cfg, max, b, ops).0, conn, Debited(cfg, max, b, ops, conn),
                   Residencies(cfg, max, b, ops, conn), from, to)
  {
    hide Within, Settled, Apply, Debit, Creates;
    if ops == [] {
      Start(cfg, b, conn, from, to);
      SettledLater(b, from, to);
    } else {
      var init, op := ops[..|ops| - 1], ops[|ops| - 1];
      var at := if op.Timed() then op.now else to;
      RunWithin(cfg, max, b, init, conn, from, at);
      var mid := Exec(cfg, max, b, init).0;
      var debited, buckets := Debited(cfg, max, b, init, conn), Residencies(cfg, max, b, init, conn);
      StepWithin(cfg, max, mid, op, conn, debited, buckets, from, at);
      ApplyKeepsSettled(cfg, max, mid, op, at);
      var end := Exec(cfg, max, b, ops).0;
      SettledLater(end, at, to);
      Later(cfg, end, conn, Debited(cfg, max, b, ops, conn), Residencies(cfg, max, b, ops, conn),
            from, at, to);
    }
  }

  /** Conservation: over any window of any run, what a connection is debited totals at most one
    burst for every bucket it had, plus what the rate refills in the window. */
  lemma DebitsAreBounded(cfg: Config, max: nat, b: Buckets, ops: seq<Op>, conn: ConnId, from: real, to: real)
    requires ValidConfig(cfg) && Settled(b, from) && Clocked(ops, from, to)
    ensures Debited(cfg, max, b, ops, conn)
         <= Residencies(cfg, max, b, ops, conn) as real * cfg.burst + cfg.rate * (to - from)
  {
    hide Within, Settled, Exec, Clocked, Debited, Residencies;
    RunWithin(cfg, max, b, ops, conn, from, to);
    BudgetInTokens(cfg, Exec(cfg, max, b, ops).0, conn, Debited(cfg, max, b, ops, conn),
                   Residencies(cfg, max, b, ops, conn), from, to);
  }

  lemma BudgetInTokens(cfg: Config, b: Buckets, conn: ConnId, debited: real, buckets: nat, from: real,
                       to: real)
    requires ValidConfig(cfg) && from <= to && Settled(b, to)
    requires Within(cfg, b, conn, debited, buckets, from, to)
    ensures debited <= buckets as real * cfg.burst + cfg.rate * (to - from)
  {
    var seconds := buckets as real * Refill(cfg) + (to - from);
    DivLe(0.0, cfg.burst, cfg.rate);
    assert debited / cfg.rate <= seconds;
    DivMul(debited, cfg.rate);
    DivMul(cfg.burst, cfg.rate);
    Scale(debited / cfg.rate, seconds, cfg.rate);
    Distribute(buckets as real, Refill(cfg), to - from, cfg.rate);
  }

  lemma Scale(a: real, b: real, rate: real)
    requires rate > 0.0 && a <= b
    ensures a * rate <= b * rate
  {
  }

  lemma Distribute(n: real, x: real, y: real, rate: real)
    ensures (n * x + y) * rate == n * (x * rate) + rate * y
  {
  }

  // ------------------------------------------------------------------ payload sizes

  /** How many payloads of at least `size` bytes under `policy` were admitted for `conn`. */
  function AdmittedPayloads(cfg: Config, max: nat, b: Buckets, ops: seq<Op>, conn: ConnId,
                            policy: Policy, size: nat): nat
    requires ValidConfig(cfg)
  {
    if ops == [] then 0
    else
      var init, op := ops[..|ops| - 1], ops[|ops| - 1];
      AdmittedPayloads(cfg, max, b, init, conn, policy, size)
      + if op.Pre? && op.conn == conn && op.policy == policy && op.size >= size
           && Apply(cfg, max, Exec(cfg, max, b, init).0, op).1[0].Admit? then 1 else 0
  }

  lemma AdmittedPays(cfg: Config, max: nat, b: Buckets, op: Op, size: nat)
    requires ValidConfig(cfg) && op.Pre? && op.size >= size && NonDecreasing(op.policy.ramp)
    requires Apply(cfg, max, b, op).1[0].Admit?
    ensures Debit(cfg, b, op, op.conn) >= CostFor(op.policy.ramp, size)
  {
    CostForIsMonotone(op.policy.ramp, size, op.size);
    hide CostFor, NonDecreasing, AtomicConsume;
  }

  lemma {:induction false} AdmittedPayloadsPay(cfg: Config, max: nat, b: Buckets, ops: seq<Op>,
                                               conn: ConnId, policy: Policy, size: nat)
    requires ValidConfig(cfg) && NonDecreasing(policy.ramp)
    ensures AdmittedPayloads(cfg, max, b, ops, conn, policy, size) as real * CostFor(policy.ramp, size)
         <= Debited(cfg, max, b, ops, conn)
  {
    hide Apply, Debit, CostFor, NonDecreasing;
    if ops != [] {
      var init, op := ops[..|ops| - 1], ops[|ops| - 1];
      var mid := Exec(cfg, max, b, init).0;
      AdmittedPayloadsPay(cfg, max, b, init, conn, policy, size);
      var count := AdmittedPayloads(cfg, max, b, init, conn, policy, size);
      DebitNotNegative(cfg, mid, op, conn);
      if AdmittedPayloads(cfg, max, b, ops, conn, policy, size) == count + 1 {
        AdmittedPays(cfg, max, mid, op, size);
        OneMore(count, CostFor(policy.ramp, size));
      }
    }
  }

  lemma OneMore(count: nat, cost: real)
    ensures (count + 1) as real * cost == count as real * cost + cost
  {
  }

  lemma DebitNotNegative(cfg: Config, b: Buckets, op: Op, conn: ConnId)
    requires ValidConfig(cfg)
    ensures Debit(cfg, b, op, conn) >= 0.0
  {
  }

  /** The number of admitted payloads of at least `size` bytes, times what such a payload costs,
    is bounded by one burst per residency plus the refill of the window. */
  lemma PayloadsAreBounded(cfg: Config, max: nat, b: Buckets, ops: seq<Op>, conn: ConnId,
                           policy: Policy, size: nat, from: real, to: real)
    requires ValidConfig(cfg) && Settled(b, from) && Clocked(ops, from, to)
    requires NonDecreasing(policy.ramp)
    ensures AdmittedPayloads(cfg, max, b, ops, conn, policy, size) as real * CostFor(policy.ramp, size)
         <= Residencies(cfg, max, b, ops, conn) as real * cfg.burst + cfg.rate * (to - from)
  {
    hide Settled, Exec, Clocked, Debited, AdmittedPayloads, NonDecreasing, CostFor;
    AdmittedPayloadsPay(cfg, max, b, ops, conn, policy, size);
    DebitsAreBounded(cfg, max, b, ops, conn, from, to);
  }
}
