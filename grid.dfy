// Two-dimensional images stored in a flat sequence: row-major positions,
// the arithmetic that keeps them in bounds, and the nested fill loop that
// writes one value per (s, t) coordinate through a position function.
module Grid {
  import opened Bits

  lemma MulMono(a: int, b: int, c: int)
    requires 0 <= c && a <= b
    ensures a * c <= b * c
  {
  }

  lemma RowMajorBound(u: nat, v: nat, uSize: nat, vSize: nat)
    requires u < uSize && v < vSize
    ensures v * uSize + u < uSize * vSize && u * vSize + v < uSize * vSize
  {
    MulMono(v + 1, vSize, uSize);
    MulMono(u + 1, uSize, vSize);
  }

  /** The row of a position inside an image of `ub` rows of width `b`. */
  lemma DivBelow(u: nat, b: nat, ub: nat)
    requires b >= 1 && u < ub * b
    ensures u / b < ub
  {
    if u / b >= ub {
      MulMono(ub, u / b, b);
    }
  }

  /** The position `v * u_size + u` of (u, v) in a row-major image. */
  function RowMajor(uSize: nat): (nat, nat) -> nat {
    (u: nat, v: nat) => v * uSize + u
  }

  /** `f` maps every in-range coordinate below `n`. */
  ghost predicate MapsBelow(f: (nat, nat) -> nat, uSize: nat, vSize: nat, n: int) {
    forall u: nat, v: nat :: u < uSize && v < vSize ==> f(u, v) < n
  }

  /** `f` sends distinct in-range coordinates to distinct numbers. */
  ghost predicate Injective(f: (nat, nat) -> nat, uSize: nat, vSize: nat) {
    forall u1: nat, v1: nat, u2: nat, v2: nat ::
      u1 < uSize && v1 < vSize && u2 < uSize && v2 < vSize && f(u1, v1) == f(u2, v2) ==> u1 == u2 && v1 == v2
  }

  /** The row-major position `v * u_size + u` stays inside an image of `u_size * v_size` entries. */
  lemma RowMajorLayout(uSize: nat, vSize: nat)
    ensures MapsBelow(RowMajor(uSize), uSize, vSize, uSize * vSize)
  {
    var pos := RowMajor(uSize);
    forall u: nat, v: nat | u < uSize && v < vSize
      ensures pos(u, v) < uSize * vSize
    {
      RowMajorBound(u, v, uSize, vSize);
    }
  }

  /** Row-major positions of distinct in-range coordinates differ. */
  lemma RowMajorInjective(uSize: nat, vSize: nat)
    ensures Injective(RowMajor(uSize), uSize, vSize)
  {
    var pos := RowMajor(uSize);
    forall u1: nat, v1: nat, u2: nat, v2: nat |
      u1 < uSize && v1 < vSize && u2 < uSize && v2 < vSize && pos(u1, v1) == pos(u2, v2)
      ensures u1 == u2 && v1 == v2
    {
      ModUnique(pos(u1, v1), uSize, v1, u1);
      ModUnique(pos(u2, v2), uSize, v2, u2);
    }
  }

  /** Coordinates (s', t') written before (s, t) by a loop over t, then s. */
  ghost predicate Before(s': nat, t': nat, s: nat, t: nat) {
    t' < t || (t' == t && s' < s)
  }

  /** Every coordinate written so far holds its value. */
  ghost predicate Written<T>(c: seq<T>, pos: (nat, nat) -> nat, f: (nat, nat) -> T, w: nat, h: nat, s: nat, t: nat) {
    forall s': nat, t': nat :: s' < w && t' < h && Before(s', t', s, t) ==> pos(s', t') < |c| && c[pos(s', t')] == f(s', t')
  }

  /**
   * A buffer of n cells holding `dflt`, then `buf[pos(s, t)] = f(s, t)` for
   * t in 0..h (outer) and s in 0..w (inner).
   */
  method Fill<T>(n: nat, dflt: T, pos: (nat, nat) -> nat, f: (nat, nat) -> T, w: nat, h: nat) returns (c: seq<T>)
    requires MapsBelow(pos, w, h, n) && Injective(pos, w, h)
    ensures |c| == n
    ensures forall s: nat, t: nat :: s < w && t < h ==> pos(s, t) < |c| && c[pos(s, t)] == f(s, t)
  {
    c := seq(n, _ => dflt);
    var t := 0;
    while t < h
      invariant t <= h && |c| == n
      invariant Written(c, pos, f, w, h, 0, t)
    {
      var s := 0;
      while s < w
        invariant s <= w && |c| == n
        invariant Written(c, pos, f, w, h, s, t)
      {
        c := c[pos(s, t) := f(s, t)];
        s := s + 1;
      }
      t := t + 1;
    }
  }
}
