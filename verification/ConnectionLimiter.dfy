/** One token bucket per connection behind a mutex, with a hard cap on tracked connections. */
module ConnectionLimiter {
  import opened TokenBucketMath
  import opened TokenBucket
  import opened TokenRuns
  import opened AdmissionTypes

  type ConnId(==, !new)

  datatype BucketEntry = BucketEntry(zeroTime: real, lastSeen: real)

  type Buckets = map<ConnId, BucketEntry>

  /** The zero time of a connection's bucket at `now`: a new connection starts full. */
  function ZeroTimeAt(cfg: Config, b: Buckets, conn: ConnId, now: real): real
    requires ValidConfig(cfg)
  {
    if conn in b then b[conn].zeroTime else now - cfg.burst / cfg.rate
  }

  ghost predicate Oldest(b: Buckets, victim: ConnId) {
    victim in b && forall k :: k in b ==> b[victim].lastSeen <= b[k].lastSeen
  }

  /** The table once there is room for the connection. Which of several equally old entries
    makes room is up to the hash table, so the victim is a parameter. */
  function Room(max: nat, b: Buckets, conn: ConnId, victim: ConnId): Buckets {
    if conn in b || |b| < max then b else b - {victim}
  }

  /** Whether a stage with this decision looks at the connection's bucket at all. */
  predicate Touches(decision: AdmissionDecision) {
    decision.Admit? || decision.tokenCost > 0.0
  }

  /** Charging an admitted stage or penalising a dropped one. */
  function Settle(cfg: Config, max: nat, b: Buckets, conn: ConnId, decision: AdmissionDecision,
                  now: real, victim: ConnId): (Buckets, AdmissionDecision)
    requires ValidConfig(cfg)
  {
    if !Touches(decision) then (b, decision)
    else
      var (granted, z) := TryConsume(ZeroTimeAt(cfg, b, conn, now), cfg.rate, cfg.burst, now,
                                     decision.tokenCost);
      (Room(max, b, conn, victim)[conn := BucketEntry(z, now)],
       if decision.Drop? || granted then decision
       else Drop("connection rate limit exceeded", 0.0))
  }

  /** Whether the connection's bucket has the cost available. */
  predicate Affords(cfg: Config, b: Buckets, conn: ConnId, now: real, cost: real)
    requires ValidConfig(cfg)
  {
    cost <= Max(0.0, Balance(ZeroTimeAt(cfg, b, conn, now), cfg.rate, cfg.burst, now))
  }

  /** A drop stays what it is; an admission stands exactly when the bucket affords its cost. */
  lemma SettleAnswers(cfg: Config, max: nat, b: Buckets, conn: ConnId, decision: AdmissionDecision, now: real,
                      victim: ConnId)
    requires ValidConfig(cfg)
    ensures var answer := Settle(cfg, max, b, conn, decision, now, victim).1;
      && (decision.Drop? || Affords(cfg, b, conn, now, decision.tokenCost) ==> answer == decision)
      && (decision.Admit? && !Affords(cfg, b, conn, now, decision.tokenCost) ==>
            answer == Drop("connection rate limit exceeded", 0.0))
  {
  }

  function Swept(b: Buckets, now: real, idleFor: real): Buckets {
    map k | k in b && !(now - b[k].lastSeen >= idleFor) :: b[k]
  }

  class ConnectionLimiter {
    const cfg: Config
    const maxConnections: nat
    var buckets: Buckets

    constructor (settings: Config, maxConnections: nat)
      ensures cfg == settings && this.maxConnections == maxConnections && buckets == map[]
    {
      cfg, this.maxConnections, buckets := settings, maxConnections, map[];
    }

    /** Whether making room now would evict `victim`. */
    ghost predicate Evicts(conn: ConnId, victim: ConnId)
      reads this
    {
      conn !in buckets && |buckets| >= maxConnections && buckets != map[] ==> Oldest(buckets, victim)
    }

    /** Pre-deserialisation admission of a payload of `payloadSize` bytes. */
    method AdmitPre(conn: ConnId, policy: Policy, payloadSize: nat, now: real)
      returns (result: AdmissionDecision, ghost victim: ConnId)
      requires ValidConfig(cfg)
      modifies this`buckets
      ensures Touches(PreAdmit(policy, payloadSize)) ==> old(Evicts(conn, victim))
      ensures (buckets, result)
           == Settle(cfg, maxConnections, old(buckets), conn, PreAdmit(policy, payloadSize), now, victim)
      ensures payloadSize > policy.maxPayloadBytes ==>
        result == Drop("payload exceeds max bytes for this type", CostFor(policy.ramp, payloadSize))
      ensures payloadSize <= policy.maxPayloadBytes ==>
        var cost := CostFor(policy.ramp, payloadSize);
        result == if Affords(cfg, old(buckets), conn, now, cost) then Admit(cost)
                  else Drop("connection rate limit exceeded", 0.0)
    {
      var decision := PreAdmit(policy, payloadSize);
      result, victim := Admitted(conn, decision, now);
    }

    /** Streaming admission: `decision` is what the caller's visitor returned. */
    method Admitted(conn: ConnId, decision: AdmissionDecision, now: real)
      returns (result: AdmissionDecision, ghost victim: ConnId)
      requires ValidConfig(cfg)
      modifies this`buckets
      ensures Touches(decision) ==> old(Evicts(conn, victim))
      ensures (buckets, result)
           == Settle(cfg, maxConnections, old(buckets), conn, decision, now, victim)
      ensures decision.Drop? || Affords(cfg, old(buckets), conn, now, decision.tokenCost) ==> result == decision
      ensures decision.Admit? && !Affords(cfg, old(buckets), conn, now, decision.tokenCost) ==>
        result == Drop("connection rate limit exceeded", 0.0)
    {
      SettleAnswers(cfg, maxConnections, buckets, conn, decision, now, conn);
      if decision.Drop? {
        result, victim := Penalize(conn, decision, now);
      } else {
        result, victim := Charge(conn, decision, now);
      }
    }

    method Charge(conn: ConnId, decision: AdmissionDecision, now: real)
      returns (result: AdmissionDecision, ghost victim: ConnId)
      requires ValidConfig(cfg) && decision.Admit?
      modifies this`buckets
      ensures old(Evicts(conn, victim))
      ensures (buckets, result)
           == Settle(cfg, maxConnections, old(buckets), conn, decision, now, victim)
    {
      victim := TouchBucket(conn, now);
      var granted := Debit(conn, decision.tokenCost, now);
      assert buckets == Settle(cfg, maxConnections, old(buckets), conn, decision, now, victim).0;
      if !granted {
        return Drop("connection rate limit exceeded", 0.0), victim;
      }
      result := Admit(decision.tokenCost);
    }

    /** A drop stays a drop; its penalty is debited when the bucket can afford it. */
    method Penalize(conn: ConnId, decision: AdmissionDecision, now: real)
      returns (result: AdmissionDecision, ghost victim: ConnId)
      requires ValidConfig(cfg) && decision.Drop?
      modifies this`buckets
      ensures Touches(decision) ==> old(Evicts(conn, victim))
      ensures (buckets, result)
           == Settle(cfg, maxConnections, old(buckets), conn, decision, now, victim)
    {
      victim := conn;
      if decision.tokenCost > 0.0 {
        victim := TouchBucket(conn, now);
        var _ := Debit(conn, decision.tokenCost, now);
        assert buckets == Settle(cfg, maxConnections, old(buckets), conn, decision, now, victim).0;
      }
      result := decision;
    }

    /** Runs the entry's bucket in place: it is a value inside the map's node. */
    method Debit(conn: ConnId, cost: real, now: real) returns (granted: bool)
      requires ValidConfig(cfg) && conn in buckets
      modifies this`buckets
      ensures var e := old(buckets)[conn];
        && granted == TryConsume(e.zeroTime, cfg.rate, cfg.burst, now, cost).0
        && buckets == old(buckets)[conn :=
             e.(zeroTime := TryConsume(e.zeroTime, cfg.rate, cfg.burst, now, cost).1)]
    {
      var bucket := new BasicTokenBucket(cfg.rate, cfg.burst, buckets[conn].zeroTime);
      granted := bucket.TryConsumeNow(cost, now, 0);
      buckets := buckets[conn := buckets[conn].(zeroTime := bucket.zeroTime)];
    }

    method TouchBucket(conn: ConnId, now: real) returns (ghost victim: ConnId)
      requires ValidConfig(cfg)
      modifies this`buckets
      ensures old(Evicts(conn, victim))
      ensures buckets == Room(maxConnections, old(buckets), conn, victim)
                           [conn := BucketEntry(ZeroTimeAt(cfg, old(buckets), conn, now), now)]
      ensures forall k :: k != conn && k in buckets ==> k in old(buckets) && buckets[k] == old(buckets)[k]
    {
      victim := conn;
      if conn !in buckets {
        if |buckets| >= maxConnections {
          victim := EvictOldest(conn);
        }
        var bucket := new BasicTokenBucket.Full(cfg.burst, cfg.rate, now);
        buckets := buckets[conn := BucketEntry(bucket.zeroTime, now)];
      }
      buckets := buckets[conn := buckets[conn].(lastSeen := now)];
    }

    /** Scans the table in its own order, keeping the first entry older than all before it. An
      empty table loses nothing; `fallback` then stands for the victim. */
    method EvictOldest(ghost fallback: ConnId) returns (ghost victim: ConnId)
      modifies this`buckets
      ensures old(buckets) != map[] ==> Oldest(old(buckets), victim)
      ensures old(buckets) == map[] ==> victim == fallback
      ensures buckets == old(buckets) - {victim}
    {
      victim := fallback;
      var rest := buckets.Keys;
      if rest != {} {
        var oldest :| oldest in rest;
        while rest != {}
          invariant rest <= buckets.Keys && oldest in buckets && buckets == old(buckets)
          invariant forall k :: k in buckets && k !in rest ==> buckets[oldest].lastSeen <= buckets[k].lastSeen
          decreases |rest|
        {
          var it :| it in rest;
          if buckets[it].lastSeen < buckets[oldest].lastSeen {
            oldest := it;
          }
          rest := rest - {it};
        }
        buckets := buckets - {oldest};
        victim := oldest;
      }
    }

    method OnDisconnect(conn: ConnId)
      modifies this`buckets
      ensures buckets == old(buckets) - {conn}
    {
      buckets := buckets - {conn};
    }

    method SweepIdle(now: real, idleFor: real)
      modifies this`buckets
      ensures buckets == Swept(old(buckets), now, idleFor)
      ensures forall k :: k in buckets <==> k in old(buckets) && now - old(buckets)[k].lastSeen < idleFor
      ensures forall k :: k in buckets ==> buckets[k] == old(buckets)[k]
    {
      buckets := Swept(buckets, now, idleFor);
    }

    method Size() returns (size: nat)
      ensures size == |buckets|
    {
      size := |buckets|;
    }
  }
}
