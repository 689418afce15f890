/**
 * The few pieces of Python 2 and numpy semantics the sensum code relies on:
 * exceptions as a Result, int() truncation, Python 2 round(), negative list
 * indexing, and numpy's sum, mean and (population) variance over reals.
 */
module PyCore {

  datatype Option<T> = None | Some(value: T)

  /** The exceptions the modelled code can raise, named as Python names them. */
  datatype PyError =
    | ZeroDivisionError   // float division by zero
    | IndexError          // list or array index out of range
    | AttributeError      // a method called on None (e.g. a missing GDAL band)
    | TypeError           // None passed where GDAL expects a data type
    | SystemExit          // the code calls sys.exit(1)

  datatype Result<T> = Success(value: T) | Failure(error: PyError)

  /** Python's int() applied to a float: truncation toward zero. */
  function Trunc(x: real): (n: int)
    ensures 0.0 <= x ==> 0 <= n && n as real <= x < n as real + 1.0
    ensures x < 0.0 ==> n <= 0 && n as real - 1.0 < x <= n as real
  {
    if x >= 0.0 then x.Floor else -((-x).Floor)
  }

  /** Python 2's round(): to the nearest integer, halves away from zero. */
  function RoundHalfAway(x: real): (n: int)
    ensures 0.0 <= x ==> x - 0.5 < n as real <= x + 0.5
    ensures x < 0.0 ==> x - 0.5 <= n as real < x + 0.5
  {
    if x >= 0.0 then (x + 0.5).Floor else -((-x + 0.5).Floor)
  }

  lemma RoundOfInteger(k: int)
    ensures RoundHalfAway(k as real) == k
    ensures Trunc(k as real) == k
  {
  }

  /** Python's lst[i], with negative indices counting from the end. */
  function PyIndex<T>(s: seq<T>, i: int): Option<T>
  {
    if 0 <= i < |s| then Some(s[i])
    else if -|s| <= i < 0 then Some(s[|s| + i])
    else None
  }

  /** A negative index names the same element as the non-negative index len
      positions above it, and every element found belongs to the list. */
  lemma NegativeIndexWraps<T>(s: seq<T>, i: int)
    ensures 0 <= i < |s| ==> PyIndex(s, i - |s|) == PyIndex(s, i)
    ensures PyIndex(s, i).Some? ==> PyIndex(s, i).value in s
  {
  }

  function Sum(xs: seq<real>): real
  {
    if |xs| == 0 then 0.0 else Sum(xs[..|xs| - 1]) + xs[|xs| - 1]
  }

  /** numpy's mean; the mean of an empty array is NaN, which callers model separately. */
  function Mean(xs: seq<real>): real
    requires |xs| > 0
  {
    Sum(xs) / |xs| as real
  }

  /** Sum of the squared deviations of xs from m. */
  function SquaredDeviations(xs: seq<real>, m: real): (r: real)
    ensures r >= 0.0
  {
    if |xs| == 0 then 0.0
    else SquaredDeviations(xs[..|xs| - 1], m) + Square(xs[|xs| - 1] - m)
  }

  function Square(d: real): (s: real)
    ensures s >= 0.0
  {
    d * d
  }

  /** numpy's var with its default ddof = 0: the population variance. */
  function Variance(xs: seq<real>): (v: real)
    requires |xs| > 0
    ensures v >= 0.0
  {
    SquaredDeviations(xs, Mean(xs)) / |xs| as real
  }

  lemma {:induction false} SumOfConstant(xs: seq<real>, c: real)
    requires forall i :: 0 <= i < |xs| ==> xs[i] == c
    ensures Sum(xs) == |xs| as real * c
  {
    if |xs| > 0 {
      SumOfConstant(xs[..|xs| - 1], c);
    }
  }

  /** The mean of an array whose entries are all c is c. */
  lemma MeanOfConstant(xs: seq<real>, c: real)
    requires |xs| > 0
    requires forall i :: 0 <= i < |xs| ==> xs[i] == c
    ensures Mean(xs) == c
  {
    SumOfConstant(xs, c);
  }

  lemma {:induction false} SquaredDeviationsOfConstant(xs: seq<real>, c: real)
    requires forall i :: 0 <= i < |xs| ==> xs[i] == c
    ensures SquaredDeviations(xs, c) == 0.0
  {
    if |xs| > 0 {
      SquaredDeviationsOfConstant(xs[..|xs| - 1], c);
    }
  }

  /** An array of identical values has variance zero. */
  lemma VarianceOfConstant(xs: seq<real>, c: real)
    requires |xs| > 0
    requires forall i :: 0 <= i < |xs| ==> xs[i] == c
    ensures Variance(xs) == 0.0
  {
    MeanOfConstant(xs, c);
    SquaredDeviationsOfConstant(xs, c);
  }
}
