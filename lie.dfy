/** Eager functional utilities on slices. */
module Lie {

  /**
   * `Map`: a fresh slice of the same length as `source`, holding `fun`
   * applied to each element, in order; `source` itself is a value and stays
   * as it was.
   */
  method Map<From, To(0)>(fun: From -> To, source: seq<From>) returns (res: seq<To>)
    ensures |res| == |source|
    ensures forall i :: 0 <= i < |source| ==> res[i] == fun(source[i])
  {
    var buffer := new To[|source|];
    for i := 0 to |source|
      invariant forall j :: 0 <= j < i ==> buffer[j] == fun(source[j])
    {
      buffer[i] := fun(source[i]);
    }
    res := buffer[..];
  }
}
