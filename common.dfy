/** Values shared by every part of the model. */
module Common {

  /** The conventional optional value: `undefined`/`null` is `None`. */
  datatype Option<+T> = None | Some(value: T)

  /** A JavaScript number as the application uses it: every number it handles
      is integral, except the `NaN` that `parseInt` returns for text without
      leading digits. */
  datatype Number = NaN | Int(value: int)
  {
    /** `n || d` on a number: `NaN` and `0` are falsy. */
    function OrElse(default: int): (r: int)
      ensures Int? && value != 0 ==> r == value
      ensures (NaN? || value == 0) ==> r == default
    {
      if Int? && value != 0 then value else default
    }
  }

  /** `s || d` on an optional string: a missing or empty string is falsy
      and gives the default. */
  function StringOrElse(s: Option<string>, d: string): (r: string)
    ensures s.Some? && s.value != "" ==> r == s.value
    ensures s.None? || s.value == "" ==> r == d
  {
    if s.Some? && s.value != "" then s.value else d
  }

  /** `Math.min` on two integers. */
  function Min(a: int, b: int): (r: int)
    ensures r <= a && r <= b && (r == a || r == b)
  {
    if a <= b then a else b
  }

  /** `Math.max` on two integers. */
  function Max(a: int, b: int): (r: int)
    ensures r >= a && r >= b && (r == a || r == b)
  {
    if a >= b then a else b
  }

  /** `Array.prototype.slice(0, n)` for a non-negative `n`: the first `n`
      elements, or all of them when there are fewer. */
  function Take<T>(s: seq<T>, n: nat): (r: seq<T>)
    ensures |r| == Min(n, |s|)
    ensures r == s[..|r|]
  {
    if n < |s| then s[..n] else s
  }

  /** No element occurs twice. */
  predicate Distinct<T(==)>(s: seq<T>)
  {
    forall i, j | 0 <= i < j < |s| :: s[i] != s[j]
  }

  /** `xs.indexOf(x)`: the first position of `x`, or -1. */
  function IndexOf<T(==)>(xs: seq<T>, x: T): (i: int)
    ensures -1 <= i < |xs|
    ensures i == -1 <==> x !in xs
    ensures 0 <= i ==> xs[i] == x && x !in xs[..i]
  {
    if xs == [] then -1
    else if xs[0] == x then 0
    else
      var j := IndexOf(xs[1..], x);
      assert 0 <= j ==> xs[..j + 1] == [xs[0]] + xs[1..][..j];
      if j == -1 then -1 else j + 1
  }
}
