/** Values shared by every stage of the analyzer: optional numbers and the
    guarded arithmetic the JavaScript expresses with `null`, `NaN` and
    `x || Infinity`. */
module Common {

  /** A JavaScript value that may be `null`, `undefined` or not a finite
      number (`None`), or a finite number (`Some`). */
  datatype Option<+T> = None | Some(value: T) {
    function GetOr(default: T): T {
      match this
      case Some(v) => v
      case None => default
    }
  }

  /** `xs.map(f)`. */
  function Map<A, B>(f: A -> B, xs: seq<A>): (r: seq<B>)
    ensures |r| == |xs|
    ensures forall k :: 0 <= k < |xs| ==> r[k] == f(xs[k])
  {
    seq(|xs|, k requires 0 <= k < |xs| => f(xs[k]))
  }

  /** Mapping a sequence one element longer adds that element's image. */
  lemma MapSnoc<A, B>(f: A -> B, xs: seq<A>, x: A)
    ensures Map(f, xs + [x]) == Map(f, xs) + [f(x)]
  {
    assert forall k :: 0 <= k < |xs| ==> (xs + [x])[k] == xs[k];
  }

  /** `Math.max(0, x)`. */
  function Max0(x: real): (r: real)
    ensures r >= 0.0 && r >= x
    ensures r == x || r == 0.0
  {
    if x > 0.0 then x else 0.0
  }

  /** `Math.max(a, b)` for finite values. */
  function Max(a: real, b: real): (r: real)
    ensures r >= a && r >= b
    ensures r == a || r == b
  {
    if a >= b then a else b
  }

  /** `Math.max(acc ?? x, x)` guarded by `Number.isFinite(x)`: the running
      maximum of the finite readings seen so far, `None` while there are none. */
  function MaxOpt(acc: Option<real>, x: Option<real>): (r: Option<real>)
    ensures r.Some? <==> acc.Some? || x.Some?
    ensures acc.Some? ==> r.Some? && r.value >= acc.value
    ensures x.Some? ==> r.Some? && r.value >= x.value
    ensures r.Some? ==> r == acc || r == x
  {
    match x
    case None => acc
    case Some(v) =>
      match acc
      case None => Some(v)
      case Some(m) => Some(Max(m, v))
  }

  /** `n / (d || Infinity)`: a zero denominator gives 0 instead of a crash
      (the JavaScript divides by `Infinity`). */
  function GuardedDiv(n: real, d: real): (r: real)
    ensures d != 0.0 ==> r * d == n
    ensures d == 0.0 ==> r == 0.0
  {
    if d == 0.0 then 0.0 else n / d
  }

  /** `Math.round(x)`: the nearest integer, halves rounded up. */
  function Round(x: real): (r: int)
    ensures x - 0.5 < r as real <= x + 0.5
  {
    (x + 0.5).Floor
  }

  /** Rounding keeps the order of its arguments. */
  lemma RoundMonotone(x: real, y: real)
    requires x <= y
    ensures Round(x) <= Round(y)
  {
    var rx, ry := Round(x), Round(y);
    assert rx as real <= x + 0.5 < ry as real + 1.0;
  }
}
