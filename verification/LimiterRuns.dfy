/** Whole runs of a connection limiter, and when forgetting idle connections is unobservable. */
module LimiterRuns {
  import opened TokenBucketMath
  import opened TokenBucket
  import opened TokenRuns
  import opened AdmissionTypes
  import opened ConnectionLimiter

  /** One call on the limiter. `victim` resolves which of the oldest entries makes room. */
  datatype Op =
    | Pre(conn: ConnId, policy: Policy, size: nat, now: real, victim: ConnId)
    | Stream(conn: ConnId, visited: AdmissionDecision, now: real, victim: ConnId)
    | Disconnect(conn: ConnId)
    | Sweep(now: real, idleFor: real)
  {
    predicate Stage() { Pre? || Stream? }

    predicate Timed() { !Disconnect? }

    /** What the stage decided before the bucket was asked. */
    function Decision(): AdmissionDecision
      requires Stage()
    {
      if Pre? then PreAdmit(policy, size) else visited
    }

    /** Whether this call looks at the bucket of `c`. */
    predicate Uses(c: ConnId) {
      Stage() && conn == c && Touches(Decision())
    }
  }

  function Apply(cfg: Config, max: nat, b: Buckets, op: Op): (Buckets, seq<AdmissionDecision>)
    requires ValidConfig(cfg)
  {
    match op
    case Disconnect(conn) => (b - {conn}, [])
    case Sweep(now, idleFor) => (Swept(b, now, idleFor), [])
    case _ =>
      var (b', decision) := Settle(cfg, max, b, op.conn, op.Decision(), op.now, op.victim);
      (b', [decision])
  }

  /** The table after the calls, oldest first, and the decisions the stages returned. */
  function Exec(cfg: Config, max: nat, b: Buckets, ops: seq<Op>): (Buckets, seq<AdmissionDecision>)
    requires ValidConfig(cfg)
  {
    if ops == [] then (b, [])
    else
      var (mid, decisions) := Exec(cfg, max, b, ops[..|ops| - 1]);
      var (end, more) := Apply(cfg, max, mid, ops[|ops| - 1]);
      (end, decisions + more)
  }

  /** The clock never goes back, and every time point lies between `from` and `to`. */
  ghost predicate Clocked(ops: seq<Op>, from: real, to: real) {
    if ops == [] then from <= to
    else
      var init, last := ops[..|ops| - 1], ops[|ops| - 1];
      if last.Timed() then Clocked(init, from, last.now) && last.now <= to
      else Clocked(init, from, to)
  }

  /** No entry was seen after `now`, and none is in debt at the time it was last seen. */
  ghost predicate Settled(b: Buckets, now: real) {
    forall k :: k in b ==> b[k].zeroTime <= b[k].lastSeen <= now
  }

  lemma ConsumeKeepsPast(cfg: Config, z: real, now: real, cost: real)
    requires ValidConfig(cfg) && z <= now
    ensures z <= TryConsume(z, cfg.rate, cfg.burst, now, cost).1 <= now
  {
    TakeMovesAnchor(z, cfg.rate, cfg.burst, now, cost);
  }

  lemma SettleKeepsSettled(cfg: Config, max: nat, b: Buckets, conn: ConnId, d: AdmissionDecision,
                           now: real, victim: ConnId)
    requires ValidConfig(cfg) && Settled(b, now)
    ensures Settled(Settle(cfg, max, b, conn, d, now, victim).0, now)
  {
    DivLe(0.0, cfg.burst, cfg.rate);
    assert ZeroTimeAt(cfg, b, conn, now) <= now;
    ConsumeKeepsPast(cfg, ZeroTimeAt(cfg, b, conn, now), now, d.tokenCost);
    hide TryConsume, ZeroTimeAt;
  }

  lemma ApplyKeepsSettled(cfg: Config, max: nat, b: Buckets, op: Op, now: real)
    requires ValidConfig(cfg) && Settled(b, now)
    requires op.Timed() ==> now == op.now
    ensures Settled(Apply(cfg, max, b, op).0, now)
  {
    hide Settle;
    if op.Stage() {
      SettleKeepsSettled(cfg, max, b, op.conn, op.Decision(), op.now, op.victim);
    }
  }

  lemma SettledLater(b: Buckets, now: real, later: real)
    requires Settled(b, now) && now <= later
    ensures Settled(b, later)
  {
  }

  // ------------------------------------------------------------------ what the stages answer

  /** How many of the calls are stages: each answers with one decision. */
  function Stages(ops: seq<Op>): nat {
    if ops == [] then 0 else Stages(ops[..|ops| - 1]) + if ops[|ops| - 1].Stage() then 1 else 0
  }

  lemma {:induction false} AnswersCounted(cfg: Config, max: nat, b: Buckets, ops: seq<Op>)
    requires ValidConfig(cfg)
    ensures |Exec(cfg, max, b, ops).1| == Stages(ops)
  {
    hide Settle, Swept;
    if ops != [] {
      AnswersCounted(cfg, max, b, ops[..|ops| - 1]);
    }
  }

  /** A stage's answer is the one it gets from the table as it then is; later calls do not change it. */
  lemma {:induction false} AnswerAt(cfg: Config, max: nat, b: Buckets, ops: seq<Op>, i: nat)
    requires ValidConfig(cfg) && i < |ops| && ops[i].Stage()
    ensures Stages(ops[..i]) < |Exec(cfg, max, b, ops).1|
    ensures Exec(cfg, max, b, ops).1[Stages(ops[..i])]
         == Settle(cfg, max, Exec(cfg, max, b, ops[..i]).0, ops[i].conn, ops[i].Decision(), ops[i].now,
                   ops[i].victim).1
  {
    hide Settle, Swept;
    var init := ops[..|ops| - 1];
    AnswersCounted(cfg, max, b, init);
    if i < |init| {
      AnswerAt(cfg, max, b, init, i);
      assert init[..i] == ops[..i] && init[i] == ops[i];
    } else {
      assert init == ops[..i];
    }
  }

  /** Over every run: a payload above the byte cap gets the oversize drop with its size cost, and any
    other is admitted at its size cost exactly when its connection's bucket then has that much. So no
    admitted payload is above the cap. */
  lemma PayloadsAnswered(cfg: Config, max: nat, b: Buckets, ops: seq<Op>, i: nat)
    requires ValidConfig(cfg) && i < |ops| && ops[i].Pre?
    ensures Stages(ops[..i]) < |Exec(cfg, max, b, ops).1|
    ensures var Pre(conn, policy, size, now, _) := ops[i];
      var answer := Exec(cfg, max, b, ops).1[Stages(ops[..i])];
      var cost := CostFor(policy.ramp, size);
      && (size > policy.maxPayloadBytes ==> answer == Drop("payload exceeds max bytes for this type", cost))
      && (size <= policy.maxPayloadBytes ==>
            answer == if Affords(cfg, Exec(cfg, max, b, ops[..i]).0, conn, now, cost) then Admit(cost)
                      else Drop("connection rate limit exceeded", 0.0))
  {
    AnswerAt(cfg, max, b, ops, i);
    SettleAnswers(cfg, max, Exec(cfg, max, b, ops[..i]).0, ops[i].conn, ops[i].Decision(), ops[i].now, ops[i].victim);
    hide Settle, Exec, Affords, Stages;
  }

  /** Over every run: what a visitor dropped stays dropped as it was, and what it admitted stands exactly
    when the connection's bucket then has its cost. */
  lemma VisitsAnswered(cfg: Config, max: nat, b: Buckets, ops: seq<Op>, i: nat)
    requires ValidConfig(cfg) && i < |ops| && ops[i].Stream?
    ensures Stages(ops[..i]) < |Exec(cfg, max, b, ops).1|
    ensures var Stream(conn, visited, now, _) := ops[i];
      Exec(cfg, max, b, ops).1[Stages(ops[..i])]
      == if visited.Drop? || Affords(cfg, Exec(cfg, max, b, ops[..i]).0, conn, now, visited.tokenCost) then visited
         else Drop("connection rate limit exceeded", 0.0)
  {
    AnswerAt(cfg, max, b, ops, i);
    SettleAnswers(cfg, max, Exec(cfg, max, b, ops[..i]).0, ops[i].conn, ops[i].Decision(), ops[i].now, ops[i].victim);
    hide Settle, Exec, Affords, Stages;
  }

  // ------------------------------------------------------------------ the hard cap

  /** A stage that makes room names one of the oldest entries. */
  ghost predicate Enabled(max: nat, b: Buckets, op: Op) {
    op.Stage() && Touches(op.Decision()) && op.conn !in b && |b| >= max && b != map[] ==>
      Oldest(b, op.victim)
  }

  ghost predicate AllEnabled(cfg: Config, max: nat, b: Buckets, ops: seq<Op>)
    requires ValidConfig(cfg)
  {
    ops == [] ||
    var init := ops[..|ops| - 1];
    AllEnabled(cfg, max, b, init) && Enabled(max, Exec(cfg, max, b, init).0, ops[|ops| - 1])
  }

  lemma RemoveOne(b: Buckets, k: ConnId)
    ensures |b - {k}| == |b| - if k in b then 1 else 0
  {
    assert (b - {k}).Keys == b.Keys - {k};
    if k in b {
      assert b.Keys == (b.Keys - {k}) + {k};
    } else {
      assert b.Keys - {k} == b.Keys;
    }
  }

  lemma SubmapSize(small: Buckets, large: Buckets)
    requires small.Keys <= large.Keys
    ensures |small| <= |large|
  {
    assert large.Keys == small.Keys + (large.Keys - small.Keys);
  }

  /** A stage's table: the room it found, plus its own connection. */
  lemma SettleKeys(cfg: Config, max: nat, b: Buckets, conn: ConnId, d: AdmissionDecision, now: real,
                   victim: ConnId)
    requires ValidConfig(cfg)
    ensures Settle(cfg, max, b, conn, d, now, victim).0.Keys
         == if Touches(d) then Room(max, b, conn, victim).Keys + {conn} else b.Keys
  {
    hide TryConsume, ZeroTimeAt;
  }

  lemma ApplyKeepsCap(cfg: Config, max: nat, b: Buckets, op: Op)
    requires ValidConfig(cfg) && Enabled(max, b, op)
    requires |b| <= if max == 0 then 1 else max
    ensures |Apply(cfg, max, b, op).0| <= if max == 0 then 1 else max
  {
    hide Settle;
    var b' := Apply(cfg, max, b, op).0;
    if !op.Stage() {
      SubmapSize(b', b);
    } else {
      SettleKeys(cfg, max, b, op.conn, op.Decision(), op.now, op.victim);
      RemoveOne(b, op.victim);
      KeysSize(b', Room(max, b, op.conn, op.victim), op.conn);
      SameKeysSize(b', b);
    }
  }

  lemma KeysSize(b': Buckets, b: Buckets, k: ConnId)
    ensures b'.Keys == b.Keys + {k} ==> |b'| == |b| + if k in b then 0 else 1
  {
    if k in b {
      assert b.Keys + {k} == b.Keys;
    }
  }

  lemma SameKeysSize(b': Buckets, b: Buckets)
    ensures b'.Keys == b.Keys ==> |b'| == |b|
  {
  }

  /** The table never outgrows the cap (one entry always fits), whatever the run. */
  lemma {:induction false} CapHolds(cfg: Config, max: nat, ops: seq<Op>)
    requires ValidConfig(cfg) && AllEnabled(cfg, max, map[], ops)
    ensures |Exec(cfg, max, map[], ops).0| <= if max == 0 then 1 else max
  {
    hide Apply, Enabled;
    if ops != [] {
      var init, op := ops[..|ops| - 1], ops[|ops| - 1];
      CapHolds(cfg, max, init);
      ApplyKeepsCap(cfg, max, Exec(cfg, max, map[], init).0, op);
    }
  }

  // ------------------------------------------------------------------ sweeping is unobservable

  /** The run without its sweeps. */
  function Unswept(ops: seq<Op>): seq<Op> {
    if ops == [] then []
    else Unswept(ops[..|ops| - 1]) + if ops[|ops| - 1].Sweep? then [] else [ops[|ops| - 1]]
  }

  /** No stage ever finds the table full when it has to add its connection. */
  ghost predicate NeverFull(cfg: Config, max: nat, ops: seq<Op>)
    requires ValidConfig(cfg)
  {
    ops == [] ||
    var init, op := ops[..|ops| - 1], ops[|ops| - 1];
    var b := Exec(cfg, max, map[], init).0;
    && NeverFull(cfg, max, init)
    && (op.Stage() && op.Uses(op.conn) && op.conn !in b ==> |b| < max)
  }

  ghost predicate SweepsWait(ops: seq<Op>, idleFor: real) {
    forall k :: 0 <= k < |ops| && ops[k].Sweep? ==> ops[k].idleFor >= idleFor
  }

  /** At `now` and later nobody can tell the two zero times apart. */
  ghost predicate Same(cfg: Config, z1: real, z2: real, now: real)
    requires ValidConfig(cfg)
  {
    Anchor(z1, cfg.rate, cfg.burst, now) == Anchor(z2, cfg.rate, cfg.burst, now)
  }

  /** The swept table tracks no more connections, and no bucket differs detectably: what only
    the unswept one tracks is full again. */
  ghost predicate Simulates(cfg: Config, swept: Buckets, full: Buckets, now: real)
    requires ValidConfig(cfg)
  {
    && swept.Keys <= full.Keys
    && Settled(swept, now)
    && forall k :: k in full ==>
      Same(cfg, ZeroTimeAt(cfg, swept, k, now), ZeroTimeAt(cfg, full, k, now), now)
  }

  lemma SimulatesLater(cfg: Config, swept: Buckets, full: Buckets, now: real, later: real)
    requires ValidConfig(cfg) && Simulates(cfg, swept, full, now) && now <= later
    ensures Simulates(cfg, swept, full, later)
  {
  }

  /** Indistinguishable buckets answer alike and stay indistinguishable. */
  lemma SameAnswer(cfg: Config, z1: real, z2: real, now: real, cost: real)
    requires ValidConfig(cfg) && Same(cfg, z1, z2, now)
    ensures var (g1, y1) := TryConsume(z1, cfg.rate, cfg.burst, now, cost);
      var (g2, y2) := TryConsume(z2, cfg.rate, cfg.burst, now, cost);
      g1 == g2 && Same(cfg, y1, y2, now)
  {
    TakeMovesAnchor(z1, cfg.rate, cfg.burst, now, cost);
    TakeMovesAnchor(z2, cfg.rate, cfg.burst, now, cost);
  }

  lemma StrictSubmapSize(small: Buckets, large: Buckets, k: ConnId)
    requires small.Keys <= large.Keys && k in large && k !in small
    ensures |small| < |large|
  {
    RemoveOne(large, k);
    SubmapSize(small, large - {k});
  }

  lemma SettleSimulates(cfg: Config, max: nat, swept: Buckets, full: Buckets, conn: ConnId,
                        d: AdmissionDecision, now: real, victim: ConnId)
    requires ValidConfig(cfg) && Simulates(cfg, swept, full, now) && |full| <= max
    requires Touches(d) && conn !in full ==> |full| < max
    ensures var (swept', answer) := Settle(cfg, max, swept, conn, d, now, victim);
      var (full', expected) := Settle(cfg, max, full, conn, d, now, victim);
      answer == expected && Simulates(cfg, swept', full', now)
  {
    SettleKeepsSettled(cfg, max, swept, conn, d, now, victim);
    if Touches(d) {
      SubmapSize(swept, full);
      if conn in full && conn !in swept {
        StrictSubmapSize(swept, full, conn);
      }
      var z1, z2 := ZeroTimeAt(cfg, swept, conn, now), ZeroTimeAt(cfg, full, conn, now);
      assert Same(cfg, z1, z2, now);
      SameAnswer(cfg, z1, z2, now, d.tokenCost);
      hide TryConsume, Same, Settled;
    }
  }

  lemma SweepSimulates(cfg: Config, swept: Buckets, full: Buckets, now: real, idleFor: real)
    requires ValidConfig(cfg) && Simulates(cfg, swept, full, now) && idleFor >= cfg.burst / cfg.rate
    ensures Simulates(cfg, Swept(swept, now, idleFor), full, now)
  {
  }

  lemma DisconnectSimulates(cfg: Config, swept: Buckets, full: Buckets, conn: ConnId, now: real)
    requires ValidConfig(cfg) && Simulates(cfg, swept, full, now)
    ensures Simulates(cfg, swept - {conn}, full - {conn}, now)
  {
  }

  lemma FullStaysWithinCap(cfg: Config, max: nat, b: Buckets, op: Op)
    requires ValidConfig(cfg) && |b| <= max && !op.Sweep?
    requires op.Stage() && op.Uses(op.conn) && op.conn !in b ==> |b| < max
    ensures |Apply(cfg, max, b, op).0| <= max
  {
    hide Settle;
    var b' := Apply(cfg, max, b, op).0;
    if op.Disconnect? {
      SubmapSize(b', b);
    } else {
      SettleKeys(cfg, max, b, op.conn, op.Decision(), op.now, op.victim);
      KeysSize(b', Room(max, b, op.conn, op.victim), op.conn);
      SameKeysSize(b', b);
    }
  }

  /** Waiting at least one full refill, sweeps anywhere in a run change no decision. */
  lemma {:induction false} SweepingIsUnobservable(cfg: Config, max: nat, ops: seq<Op>, from: real, to: real)
    requires ValidConfig(cfg) && Clocked(ops, from, to)
    requires SweepsWait(ops, cfg.burst / cfg.rate)
    requires NeverFull(cfg, max, Unswept(ops))
    ensures Exec(cfg, max, map[], ops).1 == Exec(cfg, max, map[], Unswept(ops)).1
    ensures Simulates(cfg, Exec(cfg, max, map[], ops).0, Exec(cfg, max, map[], Unswept(ops)).0, to)
    ensures |Exec(cfg, max, map[], Unswept(ops)).0| <= max
  {
    hide Settle, Simulates;
    if ops == [] {
      assert Simulates(cfg, map[], map[], to) by { NothingSimulatesNothing(cfg, to); }
    } else {
      var init, op := ops[..|ops| - 1], ops[|ops| - 1];
      var at := if op.Timed() then op.now else to;
      var kept := Unswept(init);
      assert op.Sweep? ==> Unswept(ops) == kept;
      assert !op.Sweep? ==> Unswept(ops) == kept + [op] && Unswept(ops)[..|kept|] == kept;
      SweepingIsUnobservable(cfg, max, init, from, at);
      var swept, full := Exec(cfg, max, map[], init).0, Exec(cfg, max, map[], kept).0;
      match op {
        case Sweep(now, idleFor) => SweepSimulates(cfg, swept, full, now, idleFor);
        case Disconnect(conn) =>
          DisconnectSimulates(cfg, swept, full, conn, at);
          FullStaysWithinCap(cfg, max, full, op);
        case _ =>
          SettleSimulates(cfg, max, swept, full, op.conn, op.Decision(), op.now, op.victim);
          FullStaysWithinCap(cfg, max, full, op);
      }
      SimulatesLater(cfg, Exec(cfg, max, map[], ops).0, Exec(cfg, max, map[], Unswept(ops)).0, at, to);
    }
  }

  lemma NothingSimulatesNothing(cfg: Config, now: real)
    requires ValidConfig(cfg)
    ensures Simulates(cfg, map[], map[], now)
  {
  }

  /** On every clocked run that never runs out of room, sweeps that wait `idleFor` change
    nothing a caller can see. */
  ghost predicate Unobservable(cfg: Config, max: nat, idleFor: real)
    requires ValidConfig(cfg)
  {
    forall ops: seq<Op>, from: real, to: real ::
      Clocked(ops, from, to) && SweepsWait(ops, idleFor) && NeverFull(cfg, max, Unswept(ops)) ==>
        Exec(cfg, max, map[], ops).1 == Exec(cfg, max, map[], Unswept(ops)).1
  }

  /** A drained bucket that is swept before it has refilled comes back full too early. */
  function EarlySweep(cfg: Config, conn: ConnId, at: real, idleFor: real): seq<Op> {
    [Stream(conn, Admit(cfg.burst), 0.0, conn), Sweep(at, idleFor), Stream(conn, Admit(cfg.burst), at, conn)]
  }

  lemma EarlySweepShape(cfg: Config, conn: ConnId, at: real, idleFor: real)
    requires ValidConfig(cfg) && at >= 0.0
    ensures var ops := EarlySweep(cfg, conn, at, idleFor);
      && Clocked(ops, 0.0, at)
      && SweepsWait(ops, idleFor)
      && Unswept(ops) == [ops[0], ops[2]]
  {
    var ops := EarlySweep(cfg, conn, at, idleFor);
    var one, two := ops[..1], ops[..2];
    assert ops[..|ops| - 1] == two && two[..|two| - 1] == one && one[..|one| - 1] == [];
    assert Clocked([], 0.0, 0.0) && Clocked(one, 0.0, at);
    assert Clocked(two, 0.0, at);
    assert Unswept([]) == [] && Unswept(one) == one;
    assert Unswept(two) == one;
  }

  lemma EarlySweepIsSeen(cfg: Config, max: nat, conn: ConnId, idleFor: real)
    requires ValidConfig(cfg) && max >= 1 && idleFor < cfg.burst / cfg.rate
    ensures !Unobservable(cfg, max, idleFor)
  {
    var at := Max(0.0, idleFor);
    DivLe(0.0, cfg.burst, cfg.rate);
    var ops := EarlySweep(cfg, conn, at, idleFor);
    var kept := [ops[0], ops[2]];
    EarlySweepShape(cfg, conn, at, idleFor);
    var one, two := ops[..1], ops[..2];
    var b := Drained(conn);
    FullBucketAdmits(cfg, max, conn, 0.0);
    FullBucketAdmits(cfg, max, conn, at);
    DrainedBucketDrops(cfg, max, conn, at);
    assert Swept(b, at, idleFor) == map[];
    hide Settle, Swept, Clocked, Exec, Unswept, SweepsWait;
    ExecEmpty(cfg, max);
    ExecSnoc(cfg, max, map[], [], ops[0]);
    ExecSnoc(cfg, max, map[], one, ops[1]);
    ExecSnoc(cfg, max, map[], two, ops[2]);
    ExecSnoc(cfg, max, map[], one, ops[2]);
    assert [] + [ops[0]] == one && one + [ops[1]] == two && two + [ops[2]] == ops && one + [ops[2]] == kept;
    assert Exec(cfg, max, map[], one).0 == b;
    assert Exec(cfg, max, map[], one).1 == [Admit(cfg.burst)];
    assert Exec(cfg, max, map[], two).0 == map[];
    assert Exec(cfg, max, map[], two).1 == [Admit(cfg.burst)];
    assert Exec(cfg, max, map[], ops).1 == [Admit(cfg.burst), Admit(cfg.burst)];
    assert Exec(cfg, max, map[], kept).1 == [Admit(cfg.burst), Drop("connection rate limit exceeded", 0.0)];
    assert one[..0] == [] && kept[..1] == one;
    assert NeverFull(cfg, max, []) && NeverFull(cfg, max, one) && NeverFull(cfg, max, kept);
  }

  lemma ExecEmpty(cfg: Config, max: nat)
    requires ValidConfig(cfg)
    ensures Exec(cfg, max, map[], []) == (map[], [])
  {
  }

  lemma ExecSnoc(cfg: Config, max: nat, b: Buckets, init: seq<Op>, op: Op)
    requires ValidConfig(cfg)
    ensures var (mid, decisions) := Exec(cfg, max, b, init);
      var (end, more) := Apply(cfg, max, mid, op);
      Exec(cfg, max, b, init + [op]) == (end, decisions + more)
  {
    assert (init + [op])[..|init|] == init;
  }

  /** The table after a connection's first call took the whole burst at time zero. */
  function Drained(conn: ConnId): Buckets { map[conn := BucketEntry(0.0, 0.0)] }

  lemma FullBucketAdmits(cfg: Config, max: nat, conn: ConnId, now: real)
    requires ValidConfig(cfg) && max >= 1
    ensures Settle(cfg, max, map[], conn, Admit(cfg.burst), now, conn)
         == (map[conn := BucketEntry(now, now)], Admit(cfg.burst))
  {
    FullGrants(cfg, now);
    hide TryConsume;
  }

  lemma DrainedBucketDrops(cfg: Config, max: nat, conn: ConnId, now: real)
    requires ValidConfig(cfg) && 0.0 <= now < cfg.burst / cfg.rate
    ensures Settle(cfg, max, Drained(conn), conn, Admit(cfg.burst), now, conn).1
         == Drop("connection rate limit exceeded", 0.0)
  {
    DrainedRefuses(cfg, now);
    hide TryConsume;
  }

  lemma FullGrants(cfg: Config, now: real)
    requires ValidConfig(cfg)
    ensures TryConsume(now - cfg.burst / cfg.rate, cfg.rate, cfg.burst, now, cfg.burst) == (true, now)
  {
    TakeMovesAnchor(now - cfg.burst / cfg.rate, cfg.rate, cfg.burst, now, cfg.burst);
  }

  lemma DrainedRefuses(cfg: Config, now: real)
    requires ValidConfig(cfg) && 0.0 <= now < cfg.burst / cfg.rate
    ensures !TryConsume(0.0, cfg.rate, cfg.burst, now, cfg.burst).0
  {
    TakeMovesAnchor(0.0, cfg.rate, cfg.burst, now, cfg.burst);
  }

  /** The exact condition: sweeping is unobservable if and only if it waits for a full refill. */
  lemma UnobservableIffFullRefill(cfg: Config, max: nat, conn: ConnId, idleFor: real)
    requires ValidConfig(cfg) && max >= 1
    ensures Unobservable(cfg, max, idleFor) <==> idleFor >= cfg.burst / cfg.rate
  {
    if idleFor >= cfg.burst / cfg.rate {
      forall ops: seq<Op>, from: real, to: real
        | Clocked(ops, from, to) && SweepsWait(ops, idleFor) && NeverFull(cfg, max, Unswept(ops))
        ensures Exec(cfg, max, map[], ops).1 == Exec(cfg, max, map[], Unswept(ops)).1
      {
        SweepingIsUnobservable(cfg, max, ops, from, to);
      }
    } else {
      EarlySweepIsSeen(cfg, max, conn, idleFor);
    }
  }
}
