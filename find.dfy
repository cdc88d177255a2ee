/** The array search that the cart reducer relies on: JavaScript's
    `Array.prototype.findIndex`, which scans from the front and returns the
    index of the first element satisfying a predicate, or -1 when none does. */
module Find {

  /** The specification of `findIndex`: the first index whose element
      satisfies `p`, or -1. */
  function FirstIndex<T>(s: seq<T>, p: T -> bool): (r: int)
    ensures -1 <= r < |s|
    ensures r >= 0 ==> p(s[r]) && forall j :: 0 <= j < r ==> !p(s[j])
    ensures r == -1 <==> forall j :: 0 <= j < |s| ==> !p(s[j])
  {
    if |s| == 0 then -1
    else if p(s[0]) then 0
    else
      var k := FirstIndex(s[1..], p);
      if k < 0 then -1 else k + 1
  }

  /** `findIndex` as the engine runs it: a left-to-right scan. */
  method FindIndex<T>(s: seq<T>, p: T -> bool) returns (r: int)
    ensures r == FirstIndex(s, p)
  {
    var i := 0;
    while i < |s|
      invariant 0 <= i <= |s|
      invariant forall j :: 0 <= j < i ==> !p(s[j])
    {
      if p(s[i]) {
        return i;
      }
      i := i + 1;
    }
    return -1;
  }
}
