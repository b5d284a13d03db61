/** Any number of threads calling `consume` on one shared bucket. A thread's call is cut at every
  access to the atomic zero time: the balance pre-check, the load of the loop and the weak
  compare-exchange. Every schedule, stale load, spurious failure and choice of per-call time
  points is a sequence of steps below. */
module ConcurrentConsume {
  import opened TokenBucketMath
  import opened TokenBucket
  import opened TokenRuns

  datatype Call = Call(tokens: real, now: real)

  /** Where a thread stands in its current call. */
  datatype Thread =
    | Idle
    | Checking(call: Call)
    | Looping(call: Call)
    | Exchanging(call: Call, expected: real, desired: real)
    | Returning(call: Call, granted: bool)

  type ThreadId = nat

  datatype System = System(zeroTime: real, threads: map<ThreadId, Thread>) {
    function At(t: ThreadId): Thread {
      if t in threads then threads[t] else Idle
    }

    function Move(t: ThreadId, at: Thread): System {
      this.(threads := threads[t := at])
    }
  }

  /** A scheduler choice: let thread `t` do the named thing if that is what it does next. */
  datatype Step =
    | Invoke(t: ThreadId, call: Call)
    | CheckBalance(t: ThreadId)
    | Load(t: ThreadId)
    | Exchange(t: ThreadId, spurious: bool)
    | Return(t: ThreadId)

  /** What an observer of the run sees. `Decided` marks the moment a call takes effect. */
  datatype Event =
    | Invoked(t: ThreadId, call: Call)
    | Decided(t: ThreadId, call: Call, granted: bool)
    | Returned(t: ThreadId, call: Call, granted: bool)

  function Next(cfg: Config, s: System, step: Step): (System, seq<Event>)
    requires ValidConfig(cfg)
  {
    var t := step.t;
    match (step, s.At(t))
    case (Invoke(_, call), Idle) =>
      if call.tokens > 0.0 then (s.Move(t, Checking(call)), [Invoked(t, call)]) else (s, [])
    case (CheckBalance(_), Checking(call)) =>
      if Balance(s.zeroTime, cfg.rate, cfg.burst, call.now) < 0.0
      then (s.Move(t, Returning(call, false)), [Decided(t, call, false)])
      else (s.Move(t, Looping(call)), [])
    case (Load(_), Looping(call)) =>
      if Balance(s.zeroTime, cfg.rate, cfg.burst, call.now) < call.tokens
      then (s.Move(t, Returning(call, false)), [Decided(t, call, false)])
      else
        var desired := ZeroTimeAfter(s.zeroTime, cfg.rate, cfg.burst, call.now, call.tokens);
        (s.Move(t, Exchanging(call, s.zeroTime, desired)), [])
    case (Exchange(_, spurious), Exchanging(call, expected, desired)) =>
      if s.zeroTime == expected && !spurious
      then (s.Move(t, Returning(call, true)).(zeroTime := desired), [Decided(t, call, true)])
      else (s.Move(t, Looping(call)), [])
    case (Return(_), Returning(call, granted)) =>
      (s.Move(t, Idle), [Returned(t, call, granted)])
    case _ => (s, [])
  }

  function Run(cfg: Config, s: System, steps: seq<Step>): (System, seq<Event>)
    requires ValidConfig(cfg)
  {
    if steps == [] then (s, [])
    else
      var (mid, events) := Run(cfg, s, steps[..|steps| - 1]);
      var (end, more) := Next(cfg, mid, steps[|steps| - 1]);
      (end, events + more)
  }

  function Start(z: real): System { System(z, map[]) }

  /** Every pending exchange was computed from its expected value, and was affordable then. */
  ghost predicate Coherent(cfg: Config, s: System)
    requires ValidConfig(cfg)
  {
    forall t: ThreadId :: match s.At(t)
      case Idle => true
      case Checking(call) => call.tokens > 0.0
      case Looping(call) => call.tokens > 0.0
      case Exchanging(call, expected, desired) =>
        && call.tokens > 0.0
        && AtomicConsume(expected, cfg.rate, cfg.burst, call.now, call.tokens) == (true, desired)
      case Returning(call, _) => call.tokens > 0.0
  }

  lemma CoherentStep(cfg: Config, s: System, step: Step)
    requires ValidConfig(cfg) && Coherent(cfg, s)
    ensures Coherent(cfg, Next(cfg, s, step).0)
  {
    var s' := Next(cfg, s, step).0;
    assert forall t: ThreadId :: t != step.t ==> s'.At(t) == s.At(t);
    assert s.At(step.t) == s.At(step.t);
  }

  // ------------------------------------------------------------------ linearisability

  /** The calls in the order in which they took effect. */
  function Decisions(events: seq<Event>): seq<Event>
    ensures forall k :: 0 <= k < |Decisions(events)| ==> Decisions(events)[k].Decided?
  {
    if events == [] then []
    else
      var last := events[|events| - 1];
      Decisions(events[..|events| - 1]) + if last.Decided? then [last] else []
  }

  lemma {:induction false} DecisionsConcat(a: seq<Event>, b: seq<Event>)
    ensures Decisions(a + b) == Decisions(a) + Decisions(b)
  {
    if b == [] {
      assert a + b == a;
    } else {
      assert (a + b)[..|a + b| - 1] == a + b[..|b| - 1];
      DecisionsConcat(a, b[..|b| - 1]);
    }
  }

  /** The zero time of a bucket that runs the same calls one after another, atomically. */
  function Sequential(cfg: Config, z: real, ops: seq<Event>): real
    requires ValidConfig(cfg)
    requires forall k :: 0 <= k < |ops| ==> ops[k].Decided?
  {
    if ops == [] then z
    else
      var op := ops[|ops| - 1];
      AtomicConsume(Sequential(cfg, z, ops[..|ops| - 1]), cfg.rate, cfg.burst, op.call.now,
                    op.call.tokens).1
  }

  /** The sequential run returns to every call what the concurrent one returned. */
  ghost predicate SameReturns(cfg: Config, z: real, ops: seq<Event>)
    requires ValidConfig(cfg)
    requires forall k :: 0 <= k < |ops| ==> ops[k].Decided?
  {
    ops == [] ||
    var init, op := ops[..|ops| - 1], ops[|ops| - 1];
    && SameReturns(cfg, z, init)
    && op.granted == AtomicConsume(Sequential(cfg, z, init), cfg.rate, cfg.burst, op.call.now,
                                   op.call.tokens).0
  }

  /** One step either leaves the zero time alone or acts as the one atomic call it decides. */
  lemma StepIsAtomic(cfg: Config, s: System, step: Step)
    requires ValidConfig(cfg) && Coherent(cfg, s)
    ensures var (s', ev) := Next(cfg, s, step);
      if Decisions(ev) == [] then s'.zeroTime == s.zeroTime
      else
        && |ev| == 1 && ev[0].Decided? && Decisions(ev) == ev && ev[0].call.tokens > 0.0
        && (ev[0].granted, s'.zeroTime)
        == AtomicConsume(s.zeroTime, cfg.rate, cfg.burst, ev[0].call.now, ev[0].call.tokens)
  {
    var (s', ev) := Next(cfg, s, step);
    assert s.At(step.t) == s.At(step.t);
    if |ev| == 1 {
      assert Decisions(ev) == Decisions(ev[..0]) + if ev[0].Decided? then [ev[0]] else [];
      assert Decisions(ev[..0]) == [];
    }
  }

  /** Running the decided calls one after another, atomically, gives the same return values and
    leaves the same zero time. */
  ghost predicate LinearisedBy(cfg: Config, z: real, s: System, ops: seq<Event>)
    requires ValidConfig(cfg)
  {
    && (forall k :: 0 <= k < |ops| ==> ops[k].Decided? && ops[k].call.tokens > 0.0)
    && SameReturns(cfg, z, ops)
    && Sequential(cfg, z, ops) == s.zeroTime
  }

  lemma InitiallyLinearised(cfg: Config, z: real)
    requires ValidConfig(cfg)
    ensures Coherent(cfg, Start(z)) && LinearisedBy(cfg, z, Start(z), [])
  {
  }

  lemma LineariseStep(cfg: Config, z: real, s: System, ops: seq<Event>, step: Step)
    requires ValidConfig(cfg) && Coherent(cfg, s) && LinearisedBy(cfg, z, s, ops)
    ensures var (s', more) := Next(cfg, s, step);
      LinearisedBy(cfg, z, s', ops + Decisions(more))
  {
    StepIsAtomic(cfg, s, step);
    hide AtomicConsume, Next, Coherent;
    var (s', more) := Next(cfg, s, step);
    var all := ops + Decisions(more);
    if Decisions(more) == [] {
      assert all == ops;
    } else {
      assert all[..|all| - 1] == ops;
    }
  }

  /** Every concurrent run has a sequential run of atomic consumes, in the order of the
    decisions, with the same return values and the same final zero time. */
  lemma {:induction false} Linearisable(cfg: Config, z: real, steps: seq<Step>)
    requires ValidConfig(cfg)
    ensures var (s, events) := Run(cfg, Start(z), steps);
      Coherent(cfg, s) && LinearisedBy(cfg, z, s, Decisions(events))
  {
    hide Next, Coherent, LinearisedBy;
    if steps == [] {
      InitiallyLinearised(cfg, z);
    } else {
      var init, step := steps[..|steps| - 1], steps[|steps| - 1];
      Linearisable(cfg, z, init);
      var (mid, events) := Run(cfg, Start(z), init);
      CoherentStep(cfg, mid, step);
      LineariseStep(cfg, z, mid, Decisions(events), step);
      DecisionsConcat(events, Next(cfg, mid, step).1);
    }
  }

  /** Thread `t` has, as its latest events, an invocation of `call` at `i` and nothing later
    except possibly the event at `except`. */
  ghost predicate Pending(events: seq<Event>, t: ThreadId, call: Call, i: nat, except: int) {
    && i < |events| && events[i] == Invoked(t, call)
    && forall k :: i < k < |events| && k != except ==> events[k].t != t
  }

  ghost predicate Tracks(events: seq<Event>, t: ThreadId, at: Thread) {
    match at
    case Idle => true
    case Returning(call, granted) =>
      exists i: nat, d: nat :: i < d && Pending(events, t, call, i, d) && d < |events|
                            && events[d] == Decided(t, call, granted)
    case _ => exists i: nat :: Pending(events, t, at.call, i, -1)
  }

  /** The return at position `r` answers an invocation at `i` with the outcome decided at `d`,
    in that order, and the thread does nothing else in between. */
  ghost predicate Answers(events: seq<Event>, i: nat, d: nat, r: nat)
    requires r < |events|
  {
    && i < d < r
    && events[r].Returned?
    && events[i] == Invoked(events[r].t, events[r].call)
    && events[d] == Decided(events[r].t, events[r].call, events[r].granted)
    && forall k :: i < k < r && k != d ==> events[k].t != events[r].t
  }

  ghost predicate AllAnswered(events: seq<Event>) {
    forall r: nat :: r < |events| && events[r].Returned? ==> exists i: nat, d: nat :: Answers(events, i, d, r)
  }

  /** The decisions respect real time: each falls between its call's invocation and return, so a
    call that returned before another was invoked is also decided before it. */
  lemma {:induction false} DecisionsRespectRealTime(cfg: Config, z: real, steps: seq<Step>)
    requires ValidConfig(cfg)
    ensures AllAnswered(Run(cfg, Start(z), steps).1)
    ensures forall t: ThreadId ::
      Tracks(Run(cfg, Start(z), steps).1, t, Run(cfg, Start(z), steps).0.At(t))
  {
    if steps != [] {
      var init, step := steps[..|steps| - 1], steps[|steps| - 1];
      DecisionsRespectRealTime(cfg, z, init);
      var (mid, events) := Run(cfg, Start(z), init);
      var (end, more) := Next(cfg, mid, step);
      forall t: ThreadId
        ensures Tracks(events + more, t, end.At(t))
      {
        TracksStep(cfg, mid, step, events, t);
      }
      AnsweredStep(cfg, mid, step, events);
    } else {
      assert Run(cfg, Start(z), steps) == (Start(z), []);
    }
  }

  lemma TracksStep(cfg: Config, s: System, step: Step, events: seq<Event>, t: ThreadId)
    requires ValidConfig(cfg)
    requires Tracks(events, t, s.At(t))
    ensures var (s', more) := Next(cfg, s, step); Tracks(events + more, t, s'.At(t))
  {
    hide TokenBucketMath.Balance, ZeroTimeAfter;
    var (s', more) := Next(cfg, s, step);
    var all := events + more;
    var n := |events|;
    var at := s.At(t);
    assert t != step.t ==> s'.At(t) == at;
    match at
    case Idle =>
      if t == step.t && s'.At(t) != Idle {
        assert Pending(all, t, step.call, n, -1);
      }
    case Returning(call, granted) =>
      var i: nat, d: nat :| i < d && Pending(events, t, call, i, d) && d < |events|
                            && events[d] == Decided(t, call, granted);
      if s'.At(t) == at {
        assert Pending(all, t, call, i, d);
      }
    case _ =>
      var i: nat :| Pending(events, t, at.call, i, -1);
      if s'.At(t).Returning? {
        assert Pending(all, t, at.call, i, n) && all[n] == Decided(t, at.call, s'.At(t).granted);
      } else {
        assert Pending(all, t, at.call, i, -1);
      }
  }

  lemma AnsweredStep(cfg: Config, s: System, step: Step, events: seq<Event>)
    requires ValidConfig(cfg)
    requires AllAnswered(events)
    requires forall t: ThreadId :: Tracks(events, t, s.At(t))
    ensures AllAnswered(events + Next(cfg, s, step).1)
  {
    hide TokenBucketMath.Balance, ZeroTimeAfter;
    var (s', more) := Next(cfg, s, step);
    var all := events + more;
    forall r: nat | r < |all| && all[r].Returned?
      ensures exists i: nat, d: nat :: Answers(all, i, d, r)
    {
      if r < |events| {
        assert all[r] == events[r];
        var i: nat, d: nat :| Answers(events, i, d, r);
        assert Answers(all, i, d, r);
      } else {
        var t := step.t;
        assert Tracks(events, t, s.At(t));
        var call, granted := s.At(t).call, s.At(t).granted;
        var i: nat, d: nat :| i < d && Pending(events, t, call, i, d) && d < |events|
                              && events[d] == Decided(t, call, granted);
        assert Answers(all, i, d, r);
      }
    }
  }

  // ------------------------------------------------------------------ the window bound

  /** The granted calls, in compare-exchange order. */
  function Grants(ops: seq<Event>): seq<Take>
    requires forall k :: 0 <= k < |ops| ==> ops[k].Decided?
  {
    if ops == [] then []
    else
      var last := ops[|ops| - 1];
      Grants(ops[..|ops| - 1]) + if last.granted then [Take(last.call.tokens, last.call.now)] else []
  }

  lemma AppendGrant(cfg: Config, z: real, takes: seq<Take>, take: Take)
    requires ValidConfig(cfg) && AllGranted(z, cfg, takes) && take.tokens > 0.0
    requires AtomicConsume(After(z, cfg, takes), cfg.rate, cfg.burst, take.now, take.tokens).0
    ensures AllGranted(z, cfg, takes + [take])
    ensures After(z, cfg, takes + [take])
      == AtomicConsume(After(z, cfg, takes), cfg.rate, cfg.burst, take.now, take.tokens).1
  {
    var all, n := takes + [take], |takes|;
    assert all[..n] == takes && all[..n + 1] == all;
    TakeMovesAnchor(After(z, cfg, takes), cfg.rate, cfg.burst, take.now, take.tokens);
    hide After, AtomicConsume;
    forall k | 0 <= k < n + 1
      ensures all[k].tokens > 0.0 && After(z, cfg, all[..k + 1]) <= all[k].now
    {
      assert k < n ==> all[..k + 1] == takes[..k + 1] && all[k] == takes[k];
    }
  }

  lemma EmptyRun(cfg: Config, z: real)
    requires ValidConfig(cfg)
    ensures AllGranted(z, cfg, []) && After(z, cfg, []) == z
  {
  }

  lemma {:induction false} GrantsAreTakes(cfg: Config, z: real, ops: seq<Event>)
    requires ValidConfig(cfg)
    requires forall k :: 0 <= k < |ops| ==> ops[k].Decided? && ops[k].call.tokens > 0.0
    requires SameReturns(cfg, z, ops)
    ensures AllGranted(z, cfg, Grants(ops))
    ensures After(z, cfg, Grants(ops)) == Sequential(cfg, z, ops)
  {
    hide TokenBucketMath.Balance, ZeroTimeAfter, After, AllGranted;
    if ops == [] {
      EmptyRun(cfg, z);
    } else {
      var n := |ops| - 1;
      var init, op := ops[..n], ops[n];
      GrantsAreTakes(cfg, z, init);
      if op.granted {
        AppendGrant(cfg, z, Grants(init), Take(op.call.tokens, op.call.now));
      } else {
        assert Grants(ops) == Grants(init);
      }
    }
  }

  /** For every interleaving, from grant `i` to grant `j` in compare-exchange order the tokens
    granted total at most the burst plus what the rate refills between their two times. */
  lemma ConcurrentWindow(cfg: Config, z: real, steps: seq<Step>, i: nat, j: nat)
    requires ValidConfig(cfg)
    requires i <= j < |Grants(Decisions(Run(cfg, Start(z), steps).1))|
    ensures var grants := Grants(Decisions(Run(cfg, Start(z), steps).1));
      Total(grants[i..j + 1]) <= cfg.burst + cfg.rate * (grants[j].now - grants[i].now)
  {
    hide Run, AllGranted, SameReturns, Coherent, Total, Sequential, After, Decisions, Grants;
    Linearisable(cfg, z, steps);
    var ops := Decisions(Run(cfg, Start(z), steps).1);
    GrantsAreTakes(cfg, z, ops);
    GrantWindow(z, cfg, Grants(ops), i, j);
  }

  // ------------------------------------------------------------------ progress

  ghost predicate SomeGrant(events: seq<Event>) {
    exists k :: 0 <= k < |events| && events[k].Decided? && events[k].granted
  }

  lemma {:induction false} ZeroTimeMovesOnlyByGrants(cfg: Config, s: System, steps: seq<Step>)
    requires ValidConfig(cfg) && Coherent(cfg, s)
    ensures var (s', events) := Run(cfg, s, steps);
      && Coherent(cfg, s')
      && s.zeroTime <= s'.zeroTime
      && (s.zeroTime < s'.zeroTime <==> SomeGrant(events))
  {
    if steps != [] {
      var init, step := steps[..|steps| - 1], steps[|steps| - 1];
      ZeroTimeMovesOnlyByGrants(cfg, s, init);
      var (mid, events) := Run(cfg, s, init);
      var (end, more) := Next(cfg, mid, step);
      CoherentStep(cfg, mid, step);
      StepIsAtomic(cfg, mid, step);
      assert forall k :: 0 <= k < |events| ==> (events + more)[k] == events[k];
      if Decisions(more) == [] {
        assert more == [] || (|more| == 1 && more[..0] == [] && !more[0].Decided?);
      } else {
        TakeMovesAnchor(mid.zeroTime, cfg.rate, cfg.burst, more[0].call.now, more[0].call.tokens);
        assert (events + more)[|events|] == more[0];
      }
    }
  }

  ghost predicate Quiet(steps: seq<Step>, t: ThreadId) {
    forall k :: 0 <= k < |steps| ==> steps[k].t != t
  }

  lemma {:induction false} QuietThreadStays(cfg: Config, s: System, steps: seq<Step>, t: ThreadId)
    requires ValidConfig(cfg) && Quiet(steps, t)
    ensures Run(cfg, s, steps).0.At(t) == s.At(t)
  {
    if steps != [] {
      QuietThreadStays(cfg, s, steps[..|steps| - 1], t);
    }
  }

  /** Lock freedom, and no ABA: between a thread's load and its exchange, whatever the others
    do, a non-spurious exchange fails exactly when another thread was granted its tokens. */
  lemma ExchangeFailsIffOvertaken(cfg: Config, s: System, steps: seq<Step>, t: ThreadId)
    requires ValidConfig(cfg) && Coherent(cfg, s)
    requires s.At(t).Exchanging? && s.At(t).expected == s.zeroTime
    requires Quiet(steps, t)
    ensures var (s', events) := Run(cfg, s, steps);
      Next(cfg, s', Exchange(t, false)).0.At(t).Looping? <==> SomeGrant(events)
  {
    QuietThreadStays(cfg, s, steps, t);
    ZeroTimeMovesOnlyByGrants(cfg, s, steps);
  }
}
