/** With strictly increasing time points the table is an LRU cache: it tracks exactly the
  `maxConnections` most recently touched connections. */
module LimiterLru {
  import opened TokenBucket
  import opened TokenRuns
  import opened AdmissionTypes
  import opened ConnectionLimiter
  import opened LimiterRuns

  // ------------------------------------------------------------------ the reference

  function Without(s: seq<ConnId>, x: ConnId): seq<ConnId> {
    if s == [] then []
    else if s[0] == x then Without(s[1..], x)
    else [s[0]] + Without(s[1..], x)
  }

  /** The connections touched, each once, the most recently touched first. */
  function Recency(touches: seq<ConnId>): seq<ConnId> {
    if touches == [] then []
    else
      var last := touches[|touches| - 1];
      [last] + Without(Recency(touches[..|touches| - 1]), last)
  }

  function Top(s: seq<ConnId>, n: nat): seq<ConnId> {
    if |s| <= n then s else s[..n]
  }

  ghost predicate Distinct(s: seq<ConnId>) {
    forall i, j :: 0 <= i < j < |s| ==> s[i] != s[j]
  }

  lemma {:induction false} WithoutElements(s: seq<ConnId>, x: ConnId)
    ensures |Without(s, x)| <= |s|
    ensures forall k :: k in Without(s, x) <==> k in s && k != x
  {
    if s != [] {
      WithoutElements(s[1..], x);
    }
  }

  lemma {:induction false} WithoutDistinct(s: seq<ConnId>, x: ConnId)
    requires Distinct(s)
    ensures Distinct(Without(s, x))
  {
    if s != [] {
      WithoutDistinct(s[1..], x);
      WithoutElements(s[1..], x);
      var rest := Without(s[1..], x);
      assert forall i :: 0 <= i < |rest| ==> rest[i] in rest;
    }
  }

  /** The reference lists exactly the touched connections, once each. */
  lemma {:induction false} RecencyElements(touches: seq<ConnId>)
    ensures Distinct(Recency(touches))
    ensures forall k :: k in Recency(touches) <==> k in touches
  {
    if touches != [] {
      var init, last := touches[..|touches| - 1], touches[|touches| - 1];
      RecencyElements(init);
      WithoutDistinct(Recency(init), last);
      WithoutElements(Recency(init), last);
      var rest := Without(Recency(init), last);
      assert forall i :: 0 <= i < |rest| ==> rest[i] in rest;
      assert touches == init + [last];
    }
  }

  /** `k` was touched after the last touch of `j`. */
  ghost predicate MoreRecent(touches: seq<ConnId>, k: ConnId, j: ConnId) {
    exists i :: 0 <= i < |touches| && touches[i] == k && j !in touches[i..]
  }

  /** `s` is in the order of the last touches, most recent first. */
  ghost predicate ByLastTouch(touches: seq<ConnId>, s: seq<ConnId>) {
    forall i, j :: 0 <= i < j < |s| ==> MoreRecent(touches, s[i], s[j])
  }

  lemma MoreRecentStill(touches: seq<ConnId>, last: ConnId, k: ConnId, j: ConnId)
    requires MoreRecent(touches, k, j) && j != last
    ensures MoreRecent(touches + [last], k, j)
  {
    var i :| 0 <= i < |touches| && touches[i] == k && j !in touches[i..];
    assert (touches + [last])[i..] == touches[i..] + [last];
  }

  lemma {:induction false} WithoutByLastTouch(touches: seq<ConnId>, s: seq<ConnId>, last: ConnId)
    requires ByLastTouch(touches, s)
    ensures ByLastTouch(touches + [last], Without(s, last))
  {
    if s != [] {
      WithoutByLastTouch(touches, s[1..], last);
      var rest := Without(s[1..], last);
      WithoutElements(s[1..], last);
      if s[0] != last {
        forall j | 0 <= j < |rest| ensures MoreRecent(touches + [last], s[0], rest[j]) {
          assert rest[j] in rest;
          var q :| 0 <= q < |s[1..]| && s[1..][q] == rest[j];
          assert s[q + 1] == rest[j];
          MoreRecentStill(touches, last, s[0], s[q + 1]);
        }
      }
    }
  }

  /** The reference means what it says: it lists by recency of the last touch. */
  lemma {:induction false} RecencyIsByLastTouch(touches: seq<ConnId>)
    ensures ByLastTouch(touches, Recency(touches))
  {
    if touches != [] {
      var init, last := touches[..|touches| - 1], touches[|touches| - 1];
      RecencyIsByLastTouch(init);
      WithoutByLastTouch(init, Recency(init), last);
      WithoutElements(Recency(init), last);
      assert touches == init + [last];
      var rest := Without(Recency(init), last);
      forall j | 0 <= j < |rest| ensures MoreRecent(touches, last, rest[j]) {
        assert rest[j] in rest;
        assert touches[|init|..] == [last];
      }
    }
  }

  // ------------------------------------------------------------------ the refinement

  /** Only stages, each later than the one before. */
  ghost predicate StrictlyClocked(ops: seq<Op>) {
    && (forall k :: 0 <= k < |ops| ==> ops[k].Stage())
    && (forall i, j :: 0 <= i < j < |ops| ==> ops[i].now < ops[j].now)
  }

  /** The connections the stages touched, in order. */
  function Touched(ops: seq<Op>): seq<ConnId>
    requires forall k :: 0 <= k < |ops| ==> ops[k].Stage()
  {
    if ops == [] then []
    else
      var op := ops[|ops| - 1];
      Touched(ops[..|ops| - 1]) + if Touches(op.Decision()) then [op.conn] else []
  }

  /** The table holds the listed connections and no others, the later seen the earlier listed. */
  ghost predicate Lists(b: Buckets, top: seq<ConnId>) {
    && |b| == |top|
    && (forall i :: 0 <= i < |top| ==> top[i] in b)
    && (forall i, j :: 0 <= i < j < |top| ==> b[top[j]].lastSeen < b[top[i]].lastSeen)
  }

  lemma {:induction false} ListedExactly(b: Buckets, top: seq<ConnId>, k: ConnId)
    requires Lists(b, top)
    ensures k in b <==> k in top
  {
    if top != [] && top[0] != k {
      RemoveOne(b, top[0]);
      ListedExactly(b - {top[0]}, top[1..], k);
    } else if top == [] {
      assert b == map[];
    }
  }

  /** Touching a listed connection moves it to the front. */
  lemma ListedToFront(b: Buckets, top: seq<ConnId>, p: nat, e: BucketEntry)
    requires Lists(b, top) && p < |top| && forall k :: k in b ==> b[k].lastSeen < e.lastSeen
    ensures Lists(b[top[p] := e], [top[p]] + (top[..p] + top[p + 1..]))
  {
    var rest := top[..p] + top[p + 1..];
    assert b[top[p] := e].Keys == b.Keys;
    SameKeysSize(b[top[p] := e], b);
    forall i | 0 <= i < |rest|
      ensures rest[i] in b && rest[i] != top[p]
    {
      assert rest[i] == top[if i < p then i else i + 1];
    }
    forall i, j | 0 <= i < j < |rest|
      ensures b[rest[j]].lastSeen < b[rest[i]].lastSeen
    {
      assert rest[i] == top[if i < p then i else i + 1];
      assert rest[j] == top[if j < p then j else j + 1];
    }
  }

  lemma NewToFront(b: Buckets, top: seq<ConnId>, conn: ConnId, e: BucketEntry)
    requires Lists(b, top) && conn !in b && forall k :: k in b ==> b[k].lastSeen < e.lastSeen
    ensures Lists(b[conn := e], [conn] + top)
  {
    KeysSize(b[conn := e], b, conn);
    assert b[conn := e].Keys == b.Keys + {conn};
  }

  /** The oldest entry is the one listed last. */
  lemma OldestIsLast(b: Buckets, top: seq<ConnId>, victim: ConnId)
    requires Lists(b, top) && Oldest(b, victim)
    ensures top != [] && victim == top[|top| - 1] && Lists(b - {victim}, top[..|top| - 1])
  {
    ListedExactly(b, top, victim);
    RemoveOne(b, victim);
    var v :| 0 <= v < |top| && top[v] == victim;
    assert top[|top| - 1] in b;
  }

  lemma {:induction false} WithoutAt(s: seq<ConnId>, p: nat)
    requires Distinct(s) && p < |s|
    ensures Without(s, s[p]) == s[..p] + s[p + 1..]
  {
    if p == 0 {
      WithoutAbsent(s[1..], s[0]);
    } else {
      assert s[0] != s[p];
      WithoutAt(s[1..], p - 1);
      assert s[..p] + s[p + 1..] == [s[0]] + (s[1..][..p - 1] + s[1..][p..]);
    }
  }

  lemma {:induction false} WithoutAbsent(s: seq<ConnId>, x: ConnId)
    requires x !in s
    ensures Without(s, x) == s
  {
    if s != [] {
      WithoutAbsent(s[1..], x);
    }
  }

  lemma FrontOfTracked(s: seq<ConnId>, max: nat, p: nat)
    requires Distinct(s) && p < |Top(s, max)|
    ensures Top([s[p]] + Without(s, s[p]), max) == [s[p]] + (Top(s, max)[..p] + Top(s, max)[p + 1..])
  {
    WithoutAt(s, p);
    if |s| > max {
      var t, u := s[..max], s[max..];
      assert s == t + u && t[p] == s[p];
      DropOne(t, u, p);
      FrontPrefix(s[p], t[..p] + t[p + 1..], u);
    }
  }

  lemma DropOne(t: seq<ConnId>, u: seq<ConnId>, p: nat)
    requires p < |t|
    ensures (t + u)[..p] + (t + u)[p + 1..] == (t[..p] + t[p + 1..]) + u
  {
    assert (t + u)[..p] == t[..p];
    assert (t + u)[p + 1..] == t[p + 1..] + u;
  }

  lemma FrontPrefix(x: ConnId, f: seq<ConnId>, u: seq<ConnId>)
    ensures ([x] + (f + u))[..|f| + 1] == [x] + f
  {
    assert [x] + (f + u) == ([x] + f) + u;
  }

  lemma InTop(s: seq<ConnId>, max: nat, p: nat)
    requires p < |s|
    ensures p < max ==> s[p] in Top(s, max)
  {
    if p < max {
      assert Top(s, max)[p] == s[p];
    }
  }

  lemma FrontOfUntracked(s: seq<ConnId>, max: nat, x: ConnId)
    requires Distinct(s) && x !in Top(s, max) && max >= 1
    ensures Top([x] + Without(s, x), max) == [x] + Top(s, max - 1)
  {
    if x in s {
      var p :| 0 <= p < |s| && s[p] == x;
      InTop(s, max, p);
      WithoutAt(s, p);
      assert ([x] + (s[..p] + s[p + 1..]))[..max] == [x] + s[..max - 1];
    } else {
      WithoutAbsent(s, x);
    }
  }

  lemma TouchMovesToFront(cfg: Config, max: nat, b: Buckets, recency: seq<ConnId>, conn: ConnId,
                          d: AdmissionDecision, now: real, victim: ConnId)
    requires ValidConfig(cfg) && Distinct(recency) && Lists(b, Top(recency, max)) && max >= 1
    requires forall k :: k in b ==> b[k].lastSeen < now
    requires Touches(d)
    requires conn !in b && |b| >= max ==> Oldest(b, victim)
    ensures Lists(Settle(cfg, max, b, conn, d, now, victim).0,
                  Top([conn] + Without(recency, conn), max))
  {
    var top := Top(recency, max);
    var e := Settle(cfg, max, b, conn, d, now, victim).0[conn];
    ListedExactly(b, top, conn);
    hide TryConsume, Lists, Without, Touches;
    if conn in b {
      var p :| 0 <= p < |top| && top[p] == conn;
      FrontOfTracked(recency, max, p);
      ListedToFront(b, top, p, e);
    } else {
      FrontOfUntracked(recency, max, conn);
      if |b| >= max {
        OldestIsLast(b, top, victim);
        SizeListed(b, top);
        assert Top(recency, max - 1) == top[..|top| - 1];
        NewToFront(b - {victim}, top[..|top| - 1], conn, e);
      } else {
        SizeListed(b, top);
        assert Top(recency, max - 1) == top;
        NewToFront(b, top, conn, e);
      }
    }
  }

  lemma SizeListed(b: Buckets, top: seq<ConnId>)
    requires Lists(b, top)
    ensures |b| == |top|
  {
  }

  lemma SeenBy(cfg: Config, max: nat, b: Buckets, op: Op, before: real)
    requires ValidConfig(cfg) && op.Stage() && before < op.now
    requires forall k :: k in b ==> b[k].lastSeen <= before
    ensures forall k :: k in Apply(cfg, max, b, op).0 ==> Apply(cfg, max, b, op).0[k].lastSeen <= op.now
  {
    hide TryConsume;
  }

  lemma {:induction false} TracksInOrder(cfg: Config, max: nat, ops: seq<Op>, before: real)
    requires ValidConfig(cfg) && max >= 1 && StrictlyClocked(ops)
    requires AllEnabled(cfg, max, map[], ops)
    requires ops == [] || before == ops[|ops| - 1].now
    ensures Lists(Exec(cfg, max, map[], ops).0, Top(Recency(Touched(ops)), max))
    ensures forall k :: k in Exec(cfg, max, map[], ops).0 ==>
      Exec(cfg, max, map[], ops).0[k].lastSeen <= before
  {
    if ops != [] {
      var init, op := ops[..|ops| - 1], ops[|ops| - 1];
      var earlier := if init == [] then op.now - 1.0 else init[|init| - 1].now;
      TracksInOrder(cfg, max, init, earlier);
      var b := Exec(cfg, max, map[], init).0;
      SeenBy(cfg, max, b, op, earlier);
      hide Settle, Lists, StrictlyClocked;
      if Touches(op.Decision()) {
        var all := Touched(ops);
        assert all[..|all| - 1] == Touched(init) && all[|all| - 1] == op.conn;
        RecencyElements(Touched(init));
        TouchMovesToFront(cfg, max, b, Recency(Touched(init)), op.conn, op.Decision(), op.now, op.victim);
      } else {
        assert Touched(ops) == Touched(init);
        UntouchedTable(cfg, max, b, op);
      }
    }
  }

  lemma UntouchedTable(cfg: Config, max: nat, b: Buckets, op: Op)
    requires ValidConfig(cfg) && op.Stage() && !Touches(op.Decision())
    ensures Apply(cfg, max, b, op).0 == b
  {
  }

  /** The tracked connections are exactly the `max` most recently touched distinct ones. */
  lemma TracksMostRecent(cfg: Config, max: nat, ops: seq<Op>, k: ConnId)
    requires ValidConfig(cfg) && max >= 1 && StrictlyClocked(ops)
    requires AllEnabled(cfg, max, map[], ops)
    ensures k in Exec(cfg, max, map[], ops).0 <==> k in Top(Recency(Touched(ops)), max)
  {
    TracksInOrder(cfg, max, ops, if ops == [] then 0.0 else ops[|ops| - 1].now);
    ListedExactly(Exec(cfg, max, map[], ops).0, Top(Recency(Touched(ops)), max), k);
  }
}
