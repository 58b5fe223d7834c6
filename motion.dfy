/**
 * The per-ball physics of one tick: `updateBall` (an Euler step, friction and
 * a bounce off the cushions) and `handleCollision` (separating two overlapping
 * balls and exchanging the velocity component along the line of centres).
 *
 * The source updates a `Ball&` field by field; here each operation takes the
 * ball records in and gives the updated records back, with the same
 * step-by-step assignments.
 */
module Motion {
  import opened Geometry
  import opened Balls

  /** Centre distance at which two balls touch: `BALL_RADIUS * 2`. */
  const Contact: real := BallRadius * 2.0

  /** Smallest and largest centre coordinates `updateBall` clamps to. */
  const MinX: real := TableMargin + BallRadius
  const MaxX: real := ScreenWidth - TableMargin - BallRadius
  const MinY: real := TableMargin + BallRadius
  const MaxY: real := ScreenHeight - TableMargin - BallRadius

  /** `std::clamp(x, lo, hi)`: the point of `[lo, hi]` nearest to `x`. */
  function Clamp(x: real, lo: real, hi: real): (r: real)
    requires lo <= hi
    ensures lo <= r <= hi
    ensures lo <= x <= hi ==> r == x
    ensures x < lo ==> r == lo
    ensures hi < x ==> r == hi
  {
    if x < lo then lo else if hi < x then hi else x
  }

  function Abs(x: real): real { if x < 0.0 then -x else x }

  /** No point of `[lo, hi]` is closer to `x` than `Clamp(x, lo, hi)`. */
  lemma ClampIsNearest(x: real, lo: real, hi: real, y: real)
    requires lo <= y <= hi
    ensures Abs(Clamp(x, lo, hi) - x) <= Abs(y - x)
  {
  }

  /**
   * One axis of a step, as a relation between the old coordinate `p` and
   * speed `s` and the new ones: the ball moves by `s`; if that takes it past
   * `lo` or `hi` it is put back onto that bound and its speed on this axis is
   * reversed, and in every case friction scales the speed.
   */
  predicate AxisStep(p: real, s: real, p': real, s': real, lo: real, hi: real)
  {
    if p + s < lo then p' == lo && s' == -(s * Friction)
    else if p + s > hi then p' == hi && s' == -(s * Friction)
    else p' == p + s && s' == s * Friction
  }

  /** Kinetic energy of a ball, up to the constant factor `m / 2` (all balls weigh the same). */
  function KineticEnergy(b: Ball): real
  {
    SquaredLength(b.v)
  }

  /** The fields no physics step touches. */
  predicate SameIdentity(b: Ball, b': Ball)
  {
    b'.name == b.name && b'.color == b.color && b'.points == b.points && b'.potted == b.potted
  }

  /**
   * What `updateBall` does to a ball, as a relation between the ball before
   * and after: a ball that does not move is left alone, and a moving one
   * steps on each axis as `AxisStep` says.
   */
  predicate StepOf(ball: Ball, b: Ball)
  {
    SameIdentity(ball, b) &&
    if Moves(ball) then
      AxisStep(ball.pos.x, ball.v.x, b.pos.x, b.v.x, MinX, MaxX) &&
      AxisStep(ball.pos.y, ball.v.y, b.pos.y, b.v.y, MinY, MaxY)
    else
      b == ball
  }

  lemma FlipsKeepSpeed(v: Vec2d, w: Vec2d, k: real)
    requires w.x == v.x * k || w.x == -(v.x * k)
    requires w.y == v.y * k || w.y == -(v.y * k)
    ensures SquaredLength(w) == k * k * SquaredLength(v)
  {
  }

  /**
   * After a step a moving ball is inside the cushions, and its speed is the
   * old speed times `Friction`: a bounce turns the velocity but does not
   * change its length.
   */
  lemma StepStaysInside(ball: Ball, b: Ball)
    requires Moves(ball) && StepOf(ball, b)
    ensures InsideCushions(b.pos)
    ensures SquaredLength(b.v) == Friction * Friction * SquaredLength(ball.v)
  {
    FlipsKeepSpeed(ball.v, b.v, Friction);
  }

  /**
   * The ball after `updateBall`: a moving ball is moved by its velocity and
   * slowed by friction, then clamped into the cushions, with its speed
   * reversed on each axis where it had to be clamped.
   */
  function Step(ball: Ball): (b: Ball)
    ensures StepOf(ball, b)
  {
    if !Moves(ball) then ball
    else
      var p := Plus(ball.pos, ball.v);
      var v := Times(ball.v, Friction);
      var vx := if p.x < MinX || MaxX < p.x then -v.x else v.x;
      var vy := if p.y < MinY || MaxY < p.y then -v.y else v.y;
      ball.(pos := Vec2d(Clamp(p.x, MinX, MaxX), Clamp(p.y, MinY, MaxY)), v := Vec2d(vx, vy))
  }

  /**
   * `updateBall`: a potted or resting ball is left alone and reported as not
   * moving.  Any other ball moves by its velocity, loses speed to friction
   * and bounces off the cushion it crossed, ending inside the cushions.
   */
  method UpdateBall(ball: Ball) returns (b: Ball, moved: bool)
    ensures moved <==> Moves(ball)
    ensures b == Step(ball)
    ensures StepOf(ball, b)
    ensures moved ==> InsideCushions(b.pos)
  {
    if ball.potted || !IsMoving(ball) {
      return ball, false;
    }
    b := ball;
    b := b.(pos := Plus(b.pos, b.v));
    b := b.(v := Times(b.v, Friction));
    if b.pos.x - BallRadius < TableMargin || b.pos.x + BallRadius > ScreenWidth - TableMargin {
      b := b.(v := b.v.(x := -b.v.x));
      b := b.(pos := b.pos.(x := Clamp(b.pos.x, TableMargin + BallRadius, ScreenWidth - TableMargin - BallRadius)));
    }
    if b.pos.y - BallRadius < TableMargin || b.pos.y + BallRadius > ScreenHeight - TableMargin {
      b := b.(v := b.v.(y := -b.v.y));
      b := b.(pos := b.pos.(y := Clamp(b.pos.y, TableMargin + BallRadius, ScreenHeight - TableMargin - BallRadius)));
    }
    moved := true;
  }

  /**
   * The two balls collide: both on the table, at least one moving, and their
   * centres closer than `Contact` but not on top of each other.
   */
  predicate Colliding(a: Ball, b: Ball, distance: real)
  {
    !a.potted && !b.potted && (IsMoving(a) || IsMoving(b)) && 0.0 < distance < Contact
  }

  /** The guard of `handleCollision` as written: it does not exclude `distance == 0`. */
  predicate CollisionGuardAsWritten(a: Ball, b: Ball, distance: real)
  {
    !a.potted && !b.potted && (IsMoving(a) || IsMoving(b)) && distance < Contact
  }

  /**
   * Two balls whose centres coincide, one of them moving, pass the guard as
   * written with `distance == 0`; `norm()` then divides the zero vector by
   * zero.  The corrected guard `Colliding` turns them away.
   */
  lemma CoincidentBallsPassGuard(a: Ball, b: Ball)
    requires a.pos == b.pos && !a.potted && !b.potted && IsMoving(a)
    ensures IsLengthOf(0.0, Minus(b.pos, a.pos)) && Minus(b.pos, a.pos) == Zero
    ensures CollisionGuardAsWritten(a, b, 0.0) && !Colliding(a, b, 0.0)
  {
  }

  /**
   * What `handleCollision` makes of two balls, given their centre distance
   * `distance`: colliding balls are pushed apart along the unit normal `n`
   * by half the overlap each, and `a` hands `b` the component of the
   * relative velocity along `n`; any other pair is left as it is.
   */
  function Collide(a: Ball, b: Ball, distance: real): (Ball, Ball)
  {
    if !Colliding(a, b, distance) then (a, b)
    else
      var n := Over(Minus(b.pos, a.pos), distance);
      var shift := Times(Times(n, Contact - distance), 0.5);
      var w := Exchange(a.v, b.v, n);
      (a.(pos := Minus(a.pos, shift), v := Minus(a.v, w)), b.(pos := Plus(b.pos, shift), v := Plus(b.v, w)))
  }

  /**
   * The laws an equal-mass elastic collision of `a` and `b` into `a'` and
   * `b'` obeys: names, colours, points and potting are kept; a pair that
   * does not collide is untouched; momentum, the midpoint and the kinetic
   * energy are kept; and a colliding pair ends exactly `Contact` apart on
   * the same line of centres, with the relative velocity along that line
   * reversed and nothing changed across it.
   */
  predicate CollisionLaws(a: Ball, b: Ball, distance: real, a': Ball, b': Ball)
  {
    SameIdentity(a, a') && SameIdentity(b, b') &&
    (!Colliding(a, b, distance) ==> a' == a && b' == b) &&
    Plus(a'.v, b'.v) == Plus(a.v, b.v) &&
    Plus(a'.pos, b'.pos) == Plus(a.pos, b.pos) &&
    KineticEnergy(a') + KineticEnergy(b') == KineticEnergy(a) + KineticEnergy(b) &&
    (Colliding(a, b, distance) ==>
      SquaredLength(Minus(b'.pos, a'.pos)) == Contact * Contact &&
      Times(Minus(b'.pos, a'.pos), distance) == Times(Minus(b.pos, a.pos), Contact) &&
      Dot(Minus(a'.v, b'.v), Minus(b.pos, a.pos)) == -Dot(Minus(a.v, b.v), Minus(b.pos, a.pos)) &&
      Dot(Minus(a'.v, a.v), Perp(Minus(b.pos, a.pos))) == 0.0 &&
      Dot(Minus(b'.v, b.v), Perp(Minus(b.pos, a.pos))) == 0.0)
  }

  /** When `distance` is the true centre distance, `Collide` obeys the collision laws. */
  lemma CollideObeysLaws(a: Ball, b: Ball, distance: real)
    requires IsLengthOf(distance, Minus(b.pos, a.pos))
    ensures CollisionLaws(a, b, distance, Collide(a, b, distance).0, Collide(a, b, distance).1)
  {
    if Colliding(a, b, distance) {
      var overlap := Contact - distance;
      var n := Norm(Minus(b.pos, a.pos), distance);
      var shift := Times(Times(n, overlap), 0.5);
      var w := Exchange(a.v, b.v, n);
      OppositeShiftsKeepSum(a.v, b.v, w);
      OppositeShiftsKeepSum(a.pos, b.pos, shift);
      OppositeShiftsWiden(a.pos, b.pos, shift);
      HalfTwice(n, overlap);
      TimesDistributes(n, distance, Contact);
      ScaledUnit(n, Contact);
      TimesCommute(n, Contact, distance);
      ExchangeKeepsEnergy(a.v, b.v, n);
      ExchangeReverses(a.v, b.v, n, distance);
      ExchangeAlongNormal(a.v, b.v, n, distance);
    }
  }

  /**
   * `handleCollision`, with the centre distance `distance` (the square root
   * the source computes) given by the caller.  The balls become their
   * `Collide` outcome, which obeys the collision laws.
   */
  method HandleCollision(a: Ball, b: Ball, distance: real) returns (a': Ball, b': Ball)
    requires IsLengthOf(distance, Minus(b.pos, a.pos))
    ensures (a', b') == Collide(a, b, distance)
    ensures CollisionLaws(a, b, distance, a', b')
  {
    a', b' := a, b;
    CollideObeysLaws(a, b, distance);
    if a.potted || b.potted {
      return;
    }
    if !IsMoving(a) && !IsMoving(b) {
      return;
    }
    var ab := Minus(b.pos, a.pos);
    if distance < Contact && distance != 0.0 {
      var overlap := Contact - distance;
      var n := Norm(ab, distance);
      a' := a'.(pos := Minus(a'.pos, Times(Times(n, overlap), 0.5)));
      b' := b'.(pos := Plus(b'.pos, Times(Times(n, overlap), 0.5)));
      var w := Exchange(a.v, b.v, n);
      a' := a'.(v := Minus(a'.v, w));
      b' := b'.(v := Plus(b'.v, w));
    }
  }
}
