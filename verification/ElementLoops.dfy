/** The loops that validators and converters run over the elements of an array. */
module ElementLoops {
  import opened JsonDocument
  import opened SpecItems
  import opened Wrappers

  /** The first failure among the elements' results. */
  function FirstFailure(es: seq<Json>, verify: Json -> Result): (r: Result)
    ensures r.Ok? <==> forall e <- es :: verify(e).Ok?
  {
    if es == [] then Ok
    else
      assert forall e :: e in es <==> e == es[0] || e in es[1..];
      if verify(es[0]).Fail? then verify(es[0]) else FirstFailure(es[1..], verify)
  }

  /** Every element converted; None when one of the conversions faults. */
  function ConvertAll<T>(es: seq<Json>, convert: Json -> Option<T>): (r: Option<seq<T>>)
    ensures r.Some? <==> forall i :: 0 <= i < |es| ==> convert(es[i]).Some?
    ensures r.Some? ==> |r.value| == |es| && forall i :: 0 <= i < |es| ==> convert(es[i]) == Some(r.value[i])
  {
    if es == [] then Some([])
    else
      assert forall i :: 1 <= i < |es| ==> es[i] == es[1..][i - 1];
      var first, rest := convert(es[0]), ConvertAll(es[1..], convert);
      assert rest.Some? <==> forall i :: 1 <= i < |es| ==> convert(es[i]).Some?;
      if first.None? || rest.None? then None else Some([first.value] + rest.value)
  }

  /** A validator's loop: it returns at the first bad element. */
  method CheckEach(es: seq<Json>, verify: Json -> Result) returns (r: Result)
    ensures r == FirstFailure(es, verify)
  {
    for i := 0 to |es|
      invariant FirstFailure(es, verify) == FirstFailure(es[i..], verify)
    {
      r := verify(es[i]);
      if r.Fail? {
        return;
      }
      assert es[i..][1..] == es[i + 1..];
    }
    r := Ok;
  }

  /** A converter's loop: it grows its result and is abandoned by the first fault. */
  method ConvertEach<T>(es: seq<Json>, convert: Json -> Option<T>) returns (r: Option<seq<T>>)
    ensures r == ConvertAll(es, convert)
  {
    var result: seq<T> := [];
    for i := 0 to |es|
      invariant |result| == i
      invariant forall k :: 0 <= k < i ==> convert(es[k]) == Some(result[k])
    {
      var item := convert(es[i]);
      if item.None? {
        return None;
      }
      result := result + [item.value];
    }
    r := Some(result);
    assert ConvertAll(es, convert).Some?;
    assert ConvertAll(es, convert).value == result;
  }
}
