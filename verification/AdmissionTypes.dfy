/** Decisions, events and the size-to-cost ramp shared by the admission stages. */
module AdmissionTypes {

  datatype AdmissionDecision =
    | Admit(tokenCost: real)
    | Drop(reason: string, tokenCost: real)

  datatype EventKind =
    | ObjectBegin | ObjectEnd | ArrayBegin | ArrayEnd
    | KeyPart | Key | StringPart | String | NumberPart
    | Int64 | Uint64 | Double | Bool | Null | Bytes

  type byte = x: int | 0 <= x < 256

  const TWO_TO_64: nat := 0x1_0000_0000_0000_0000

  /** The field number of every JSON event. */
  const NO_FIELD: nat := TWO_TO_64 - 1

  datatype Value =
    | NoValue
    | BoolValue(b: bool)
    | IntValue(i: int)
    | UintValue(u: nat)
    | DoubleValue(d: real)
    | TextValue(text: string)
    | BytesValue(bytes: seq<byte>)

  /** One node of a payload as a visitor reports it. */
  datatype VisitEvent = VisitEvent(
    kind: EventKind,
    key: string := "",
    size: nat := 0,
    depth: nat := 0,
    fieldNumber: nat := NO_FIELD,
    value: Value := NoValue)

  // ------------------------------------------------------------------ per-message checks

  /** A stateful per-message check: what it decides about the next event, and its next state. */
  type Check<!S> = (S, VisitEvent) -> (AdmissionDecision, S)

  /** The events a check actually sees: all up to and including the first it drops. */
  function Delivered<S>(check: Check<S>, s: S, events: seq<VisitEvent>): seq<VisitEvent> {
    if events == [] then []
    else
      var (decision, s') := check(s, events[0]);
      [events[0]] + if decision.Drop? then [] else Delivered(check, s', events[1..])
  }

  /** The decision of a whole visit: the first drop, or else `end`. */
  function Outcome<S>(check: Check<S>, s: S, events: seq<VisitEvent>, end: AdmissionDecision)
    : (AdmissionDecision, S)
  {
    if events == [] then (end, s)
    else
      var (decision, s') := check(s, events[0]);
      if decision.Drop? then (decision, s') else Outcome(check, s', events[1..], end)
  }

  lemma {:induction false} OutcomeAppend<S>(check: Check<S>, s: S, a: seq<VisitEvent>,
                                            b: seq<VisitEvent>, end: AdmissionDecision)
    ensures var (d, s') := Outcome(check, s, a, Admit(0.0));
      Outcome(check, s, a + b, end)
      == if d.Drop? then (d, s') else Outcome(check, s', b, end)
  {
    if a == [] {
      assert a + b == b;
    } else {
      assert (a + b)[1..] == a[1..] + b;
      OutcomeAppend(check, check(s, a[0]).1, a[1..], b, end);
    }
  }

  /** The outcome depends on no more than what the check sees. */
  lemma {:induction false} OutcomeOfDelivered<S>(check: Check<S>, s: S, events: seq<VisitEvent>,
                                                 end: AdmissionDecision)
    ensures Outcome(check, s, events, end) == Outcome(check, s, Delivered(check, s, events), end)
  {
    if events != [] {
      var (decision, s') := check(s, events[0]);
      OutcomeOfDelivered(check, s', events[1..], end);
      assert Delivered(check, s, events)[1..] == if decision.Drop? then [] else Delivered(check, s', events[1..]);
    }
  }

  /** The check sees the events in order, all of them unless it drops one, and that one last. */
  lemma {:induction false} DeliveredUpToDrop<S>(check: Check<S>, s: S, events: seq<VisitEvent>)
    ensures var seen := Delivered(check, s, events);
      && seen <= events
      && (seen != [] ==> Outcome(check, s, seen[..|seen| - 1], Admit(0.0)).0.Admit?)
      && (|seen| < |events| ==> seen != [] && Outcome(check, s, seen, Admit(0.0)).0.Drop?)
  {
    if events != [] {
      var (decision, s') := check(s, events[0]);
      var seen := Delivered(check, s, events);
      if decision.Admit? {
        DeliveredUpToDrop(check, s', events[1..]);
        var rest := Delivered(check, s', events[1..]);
        assert seen[1..] == rest;
        if rest != [] {
          assert seen[..|seen| - 1][1..] == rest[..|rest| - 1];
        }
      } else {
        assert seen == [events[0]] && seen[..0] == [] && seen[1..] == [];
      }
    }
  }

  // ------------------------------------------------------------------ the pre-parse stage

  datatype SizeTier = SizeTier(upToBytes: nat, cost: real)

  /** The resolved tunables the pre-parse stage reads. */
  datatype Policy = Policy(ramp: seq<SizeTier>, maxPayloadBytes: nat)

  /** The cost of the first tier that holds `bytes`, or of the last tier. */
  function CostFor(ramp: seq<SizeTier>, bytes: nat): real {
    if ramp == [] then 0.0
    else if bytes <= ramp[0].upToBytes || |ramp| == 1 then ramp[0].cost
    else CostFor(ramp[1..], bytes)
  }

  /** The cost is that of the first tier wide enough, and of the last tier when none is. */
  lemma {:induction false} CostForIsFirstFit(ramp: seq<SizeTier>, bytes: nat, i: nat)
    requires i < |ramp| && forall j :: 0 <= j < i ==> ramp[j].upToBytes < bytes
    requires bytes <= ramp[i].upToBytes || i == |ramp| - 1
    ensures CostFor(ramp, bytes) == ramp[i].cost
  {
    if i > 0 {
      assert ramp[0].upToBytes < bytes;
      CostForIsFirstFit(ramp[1..], bytes, i - 1);
    }
  }

  ghost predicate NonDecreasing(ramp: seq<SizeTier>) {
    forall i, j :: 0 <= i <= j < |ramp| ==> ramp[i].cost <= ramp[j].cost
  }

  /** With a ramp of non-decreasing costs a bigger payload never costs less, in whatever order
    the tiers' sizes are listed. */
  lemma {:induction false} CostForIsMonotone(ramp: seq<SizeTier>, small: nat, large: nat)
    requires NonDecreasing(ramp) && small <= large
    ensures CostFor(ramp, small) <= CostFor(ramp, large)
    ensures ramp != [] ==> ramp[0].cost <= CostFor(ramp, large)
  {
    if |ramp| > 1 {
      CostForIsMonotone(ramp[1..], small, large);
    }
  }

  /** The hard byte cap, and the size cost either way. */
  function PreAdmit(policy: Policy, payloadSize: nat): AdmissionDecision {
    var cost := CostFor(policy.ramp, payloadSize);
    if payloadSize > policy.maxPayloadBytes
    then Drop("payload exceeds max bytes for this type", cost)
    else Admit(cost)
  }
}
