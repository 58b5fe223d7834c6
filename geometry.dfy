/**
 * Two-dimensional vector arithmetic used by the physics engine (the `Vec2d`
 * struct of main.cpp).
 *
 * The source stores `double` pairs; here the components are exact reals, so
 * the identities proved below (unit normals, conservation laws) hold exactly
 * rather than up to rounding.  The square root that the source computes with
 * `std::sqrt` is never computed here: callers pass a length in, together with
 * the fact that it squares to the squared length (`IsLengthOf`).
 *
 * The nonlinear facts are proved in two layers: a scalar lemma over plain
 * reals, stated without repeated factors, and a vector lemma that applies it
 * to the components.
 */
module Geometry {

  datatype Vec2d = Vec2d(x: real, y: real)

  const Zero: Vec2d := Vec2d(0.0, 0.0)

  function Plus(u: Vec2d, w: Vec2d): Vec2d { Vec2d(u.x + w.x, u.y + w.y) }

  function Minus(u: Vec2d, w: Vec2d): Vec2d { Vec2d(u.x - w.x, u.y - w.y) }

  function Times(u: Vec2d, k: real): Vec2d { Vec2d(u.x * k, u.y * k) }

  function Over(u: Vec2d, d: real): Vec2d
    requires d != 0.0
  {
    Vec2d(u.x / d, u.y / d)
  }

  function Dot(u: Vec2d, w: Vec2d): real { u.x * w.x + u.y * w.y }

  function SquaredLength(u: Vec2d): real { Dot(u, u) }

  /** `u` turned a quarter turn: the direction across `u`. */
  function Perp(u: Vec2d): Vec2d { Vec2d(-u.y, u.x) }

  /** `d` is the Euclidean length of `u`: what `std::sqrt(u.squaredLength())` returns. */
  predicate IsLengthOf(d: real, u: Vec2d)
  {
    d >= 0.0 && d * d == SquaredLength(u)
  }

  /**
   * `u.norm()`: `u` divided by its own (non-zero) length.  The result is a unit
   * vector pointing the same way as `u`.
   */
  function Norm(u: Vec2d, length: real): (n: Vec2d)
    requires length > 0.0 && IsLengthOf(length, u)
    ensures SquaredLength(n) == 1.0
    ensures Times(n, length) == u
  {
    UnitLength(u, length);
    OverTimes(u, length);
    Over(u, length)
  }

  // ---------------------------------------------------------------------
  // Linear identities

  /** Moving one point back by `w` and another forward by `w` keeps their sum. */
  lemma OppositeShiftsKeepSum(p: Vec2d, q: Vec2d, w: Vec2d)
    ensures Plus(Minus(p, w), Plus(q, w)) == Plus(p, q)
  {
  }

  /** Moving two points apart by `w` each widens their difference by `2w`. */
  lemma OppositeShiftsWiden(p: Vec2d, q: Vec2d, w: Vec2d)
    ensures Minus(Plus(q, w), Minus(p, w)) == Plus(Minus(q, p), Times(w, 2.0))
  {
  }

  lemma OverTimes(u: Vec2d, d: real)
    requires d != 0.0
    ensures Times(Over(u, d), d) == u
  {
  }

  // ---------------------------------------------------------------------
  // Unit length of a normalised vector

  lemma UnitScalar(ux: real, vx: real, uy: real, vy: real, l: real, m: real)
    requires l != 0.0 && m != 0.0 && l * m == ux * vx + uy * vy
    ensures (ux / l) * (vx / m) + (uy / l) * (vy / m) == 1.0
  {
  }

  /** Dividing a vector by its length gives a vector of length one. */
  lemma UnitLength(u: Vec2d, length: real)
    requires length > 0.0 && IsLengthOf(length, u)
    ensures SquaredLength(Over(u, length)) == 1.0
  {
    UnitScalar(u.x, u.x, u.y, u.y, length, length);
  }

  // ---------------------------------------------------------------------
  // Scaling along a unit vector

  lemma SquaredLengthNonNegative(u: Vec2d)
    ensures SquaredLength(u) >= 0.0
  {
  }

  lemma SquaredLengthTimes(u: Vec2d, k: real)
    ensures SquaredLength(Times(u, k)) == k * k * SquaredLength(u)
  {
  }

  lemma ScaledUnit(n: Vec2d, k: real)
    requires SquaredLength(n) == 1.0
    ensures SquaredLength(Times(n, k)) == k * k
  {
  }

  /** `n*d + n*(k - d) == n*k`. */
  lemma TimesDistributes(n: Vec2d, d: real, k: real)
    ensures Plus(Times(n, d), Times(n, k - d)) == Times(n, k)
  {
  }

  /** Half of `w*k`, taken twice, is `w*k`. */
  lemma HalfTwice(w: Vec2d, k: real)
    ensures Times(Times(Times(w, k), 0.5), 2.0) == Times(w, k)
  {
  }

  lemma TimesCommute(u: Vec2d, k: real, m: real)
    ensures Times(Times(u, k), m) == Times(Times(u, m), k)
  {
  }

  // ---------------------------------------------------------------------
  // The equal-mass exchange along a unit normal `n`: `a.v -= w; b.v += w`
  // with `w = n * dot(a.v - b.v, n)`.

  /** The part of the relative velocity `a - b` that lies along `n`. */
  function Exchange(a: Vec2d, b: Vec2d, n: Vec2d): Vec2d
  {
    Times(n, Dot(Minus(a, b), n))
  }

  lemma EnergyScalar(ax: real, ay: real, bx: real, bw: real, nx: real, ny: real)
    requires nx * nx + ny * ny == 1.0
    ensures (ax - nx * ((ax - bx) * nx + (ay - bw) * ny)) * (ax - nx * ((ax - bx) * nx + (ay - bw) * ny))
          + (ay - ny * ((ax - bx) * nx + (ay - bw) * ny)) * (ay - ny * ((ax - bx) * nx + (ay - bw) * ny))
          + (bx + nx * ((ax - bx) * nx + (ay - bw) * ny)) * (bx + nx * ((ax - bx) * nx + (ay - bw) * ny))
          + (bw + ny * ((ax - bx) * nx + (ay - bw) * ny)) * (bw + ny * ((ax - bx) * nx + (ay - bw) * ny))
          == ax * ax + ay * ay + bx * bx + bw * bw
  {
  }

  /** The exchange keeps the sum of the squared speeds (kinetic energy, equal masses). */
  lemma ExchangeKeepsEnergy(a: Vec2d, b: Vec2d, n: Vec2d)
    requires SquaredLength(n) == 1.0
    ensures SquaredLength(Minus(a, Exchange(a, b, n))) + SquaredLength(Plus(b, Exchange(a, b, n)))
         == SquaredLength(a) + SquaredLength(b)
  {
    EnergyScalar(a.x, a.y, b.x, b.y, n.x, n.y);
  }

  /** The exchange reverses the relative velocity's component along `n * d`. */
  lemma ExchangeReverses(a: Vec2d, b: Vec2d, n: Vec2d, d: real)
    requires SquaredLength(n) == 1.0
    ensures Dot(Minus(Minus(a, Exchange(a, b, n)), Plus(b, Exchange(a, b, n))), Times(n, d))
         == -Dot(Minus(a, b), Times(n, d))
  {
  }

  /** What the exchange takes from `a` is parallel to `n * d`: nothing changes across it. */
  lemma ExchangeAlongNormal(a: Vec2d, b: Vec2d, n: Vec2d, d: real)
    ensures Dot(Minus(Minus(a, Exchange(a, b, n)), a), Perp(Times(n, d))) == 0.0
    ensures Dot(Minus(Plus(b, Exchange(a, b, n)), b), Perp(Times(n, d))) == 0.0
  {
  }
}
