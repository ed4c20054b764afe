/** Small vocabulary shared by every component of the model. */
module Prelude {

  datatype Option<+T> = None | Some(value: T)

  /** The outcome of code that may raise: a value, or the error it raised. */
  datatype Result<+T, +E> = Ok(value: T) | Err(error: E)

  function Min(x: real, y: real): real { if x <= y then x else y }

  function Max(x: real, y: real): real { if x >= y then x else y }

  /** `max(lo, min(hi, x))`, the clamp the agents and the score use. */
  function Clamp(lo: real, hi: real, x: real): real { Max(lo, Min(hi, x)) }

  function Sum(xs: seq<real>): real {
    if xs == [] then 0.0 else xs[0] + Sum(xs[1..])
  }

  function NatSum(xs: seq<nat>): nat {
    if xs == [] then 0 else xs[0] + NatSum(xs[1..])
  }

  function Count<T>(xs: seq<T>, p: T -> bool): nat {
    if xs == [] then 0 else (if p(xs[0]) then 1 else 0) + Count(xs[1..], p)
  }

  lemma {:induction false} CountAppend<T>(xs: seq<T>, ys: seq<T>, p: T -> bool)
    ensures Count(xs + ys, p) == Count(xs, p) + Count(ys, p)
  {
    if xs == [] {
      assert xs + ys == ys;
    } else {
      assert (xs + ys)[1..] == xs[1..] + ys;
      CountAppend(xs[1..], ys, p);
    }
  }

  /** One more element of a prefix counts exactly itself. */
  lemma CountSnoc<T>(xs: seq<T>, i: nat, p: T -> bool)
    requires i < |xs|
    ensures Count(xs[..i + 1], p) == Count(xs[..i], p) + (if p(xs[i]) then 1 else 0)
  {
    assert xs[..i + 1] == xs[..i] + [xs[i]];
    CountAppend(xs[..i], [xs[i]], p);
  }

  /** The places where `p` holds. */
  ghost function Places<T>(xs: seq<T>, p: T -> bool): set<nat> { set i: nat | i < |xs| && p(xs[i]) }

  /** Counting one by one counts the places. */
  lemma {:induction false} CountIsPlaces<T>(xs: seq<T>, p: T -> bool)
    ensures Count(xs, p) == |Places(xs, p)|
  {
    if xs == [] {
      assert Places(xs, p) == {};
    } else {
      var n := |xs| - 1;
      CountIsPlaces(xs[..n], p);
      CountSnoc(xs, n, p);
      assert xs[..n + 1] == xs;
      assert Places(xs, p) == Places(xs[..n], p) + (if p(xs[n]) then {n} else {});
    }
  }

  /** One more element occurs once more, and nothing else does. */
  lemma OccursSnoc<T>(xs: seq<T>, x: T, v: T)
    ensures multiset(xs + [x])[v] == multiset(xs)[v] + (if x == v then 1 else 0)
  {
    assert multiset(xs + [x]) == multiset(xs) + multiset{x};
  }

  /** Comparing a share with a threshold is comparing products. */
  lemma ShareCompared(part: real, whole: real, threshold: real)
    requires whole > 0.0
    ensures part / whole >= threshold <==> part >= threshold * whole
    ensures part / whole > threshold <==> part > threshold * whole
  {
    var share := part / whole;
    assert share * whole == part;
    assert (share - threshold) * whole == part - threshold * whole;
    SameSign(share - threshold, whole);
  }

  lemma SameSign(x: real, n: real)
    requires n > 0.0
    ensures (x >= 0.0 <==> x * n >= 0.0) && (x > 0.0 <==> x * n > 0.0)
  {
  }
}
