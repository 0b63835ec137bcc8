/** Numeric helpers shared by every variant: clamps, Python's `int()` cast,
    the reach test and a count of set flags. */
module Geometry {

  datatype Option<T> = None | Some(value: T)

  /** A direction (cos a, sin a) of an angle a. The game computes it with
      math.cos/math.sin of math.radians(angle); the model takes it as an input
      and keeps only the Pythagorean identity. */
  datatype Dir = Dir(c: real, s: real)
  type Heading = d: Dir | d.c * d.c + d.s * d.s == 1.0 witness Dir(1.0, 0.0)

  /** Colours a target can be drawn in; only the switch between them matters. */
  datatype Color = Crimson | Grey | Blue | Red

  function Abs(x: real): real { if x < 0.0 then -x else x }
  function Min(a: real, b: real): real { if a <= b then a else b }
  function Max(a: real, b: real): real { if a >= b then a else b }
  function MinInt(a: int, b: int): int { if a <= b then a else b }

  /** Python's `int(x)` on a float: truncation toward zero. */
  function Trunc(x: real): (r: int)
    ensures Abs(x - r as real) < 1.0
    ensures x >= 0.0 ==> 0 <= r && r as real <= x
    ensures x < 0.0 ==> r <= 0 && x <= r as real
  {
    if x >= 0.0 then x.Floor else -((-x).Floor)
  }

  lemma TruncMonotone(x: real, y: real)
    requires x <= y
    ensures Trunc(x) <= Trunc(y)
  {
    if x >= 0.0 {
      assert x.Floor as real <= x <= y;
    } else if y < 0.0 {
      assert (-y).Floor as real <= -y <= -x;
    }
  }

  /** Both components of a unit direction lie in [-1, 1]. */
  lemma HeadingBounds(h: Heading)
    ensures -1.0 <= h.c <= 1.0 && -1.0 <= h.s <= 1.0
  {
    assert h.c * h.c <= 1.0 && h.s * h.s <= 1.0;
    SquareBound(h.c);
    SquareBound(h.s);
  }

  lemma SquareBound(x: real)
    requires x * x <= 1.0
    ensures -1.0 <= x <= 1.0
  {
    var a := Abs(x);
    assert a * a == x * x;
    assert (a - 1.0) * (a + 1.0) == a * a - 1.0 <= 0.0;
  }

  /** Scaling a unit direction by k gives a vector of magnitude |k|. */
  lemma ScaledHeadingLength(h: Heading, k: real)
    ensures (h.c * k) * (h.c * k) + (-h.s * k) * (-h.s * k) == k * k
  {
    calc {
      (h.c * k) * (h.c * k) + (-h.s * k) * (-h.s * k);
      (h.c * h.c + h.s * h.s) * (k * k);
      k * k;
    }
  }

  /** `math.sqrt(dx**2 + dy**2) <= reach`, stated without the square root:
      a non-negative root is at most `reach` exactly when `reach` is
      non-negative and the squared distance is at most its square. */
  predicate WithinReach(dx: real, dy: real, reach: real)
  {
    reach >= 0.0 && dx * dx + dy * dy <= reach * reach
  }

  /** Within reach, each axis distance is at most the reach. */
  lemma ReachBoundsAxes(dx: real, dy: real, reach: real)
    ensures WithinReach(dx, dy, reach) ==> Abs(dx) <= reach && Abs(dy) <= reach
  {
    if WithinReach(dx, dy, reach) {
      assert dx * dx >= 0.0 && dy * dy >= 0.0;
      SquareAtMost(dx, reach);
      SquareAtMost(dy, reach);
    }
  }

  lemma SquareAtMost(x: real, bound: real)
    requires bound >= 0.0 && x * x <= bound * bound
    ensures Abs(x) <= bound
  {
    var a := Abs(x);
    assert a * a == x * x;
    if a > bound {
      ProductGrows(a, bound);
      assert false;
    }
  }

  /** Squaring is strictly increasing on the non-negative reals. */
  lemma ProductGrows(a: real, b: real)
    ensures a > b >= 0.0 ==> a * a > b * b
  {
    if a > b >= 0.0 {
      assert (a - b) * a > 0.0;
      assert (a - b) * b >= 0.0;
    }
  }

  /** No element occurs twice. */
  predicate Distinct<T(==)>(s: seq<T>)
  {
    forall i, j :: 0 <= i < j < |s| ==> s[i] != s[j]
  }

  /** Number of true entries. */
  function CountTrue(flags: seq<bool>): (n: nat)
    ensures n <= |flags|
  {
    if flags == [] then 0 else CountTrue(flags[..|flags| - 1]) + (if flags[|flags| - 1] then 1 else 0)
  }

  /** Setting one false flag to true raises the count by exactly one;
      rewriting a flag with its own value leaves the count alone. */
  lemma {:induction false} CountTrueSet(flags: seq<bool>, k: nat, b: bool)
    requires k < |flags|
    ensures CountTrue(flags[k := b]) ==
      CountTrue(flags) + (if b && !flags[k] then 1 else 0) - (if !b && flags[k] then 1 else 0)
  {
    var n := |flags| - 1;
    if k < n {
      assert flags[k := b][..n] == flags[..n][k := b];
      CountTrueSet(flags[..n], k, b);
    } else {
      assert flags[k := b][..n] == flags[..n];
    }
  }

  lemma {:induction false} CountTrueNone(flags: seq<bool>)
    requires forall k :: 0 <= k < |flags| ==> !flags[k]
    ensures CountTrue(flags) == 0
  {
    if flags != [] {
      CountTrueNone(flags[..|flags| - 1]);
    }
  }

  /** All flags true exactly when the count is the length. */
  lemma {:induction false} CountTrueAll(flags: seq<bool>)
    ensures CountTrue(flags) == |flags| <==> forall k :: 0 <= k < |flags| ==> flags[k]
  {
    if flags != [] {
      var n := |flags| - 1;
      CountTrueAll(flags[..n]);
      assert forall k :: 0 <= k < n ==> flags[..n][k] == flags[k];
    }
  }
}
