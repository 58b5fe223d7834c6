/**
 * The records of the snooker game: table constants, balls and pockets, the
 * canonical spawn table `createBall`, the pocket table `createPockets`, the
 * two geometric tests `isMoving` and `isBallInPocket`, and the opening layout
 * that `main` builds before its loop.
 */
module Balls {
  import opened Geometry

  // Table geometry (main.cpp:8-16).  The source keeps some of these as `int`
  // and mixes them into `double` expressions; every value is exact here.
  const ScreenWidth: real := 800.0
  const ScreenHeight: real := 400.0
  const BallRadius: real := 10.0
  const Friction: real := 0.9995
  const TableMargin: real := 60.0
  const PocketRadius: real := 20.0
  const TriangleStartX: real := ScreenWidth * 0.75
  const TriangleStartY: real := ScreenHeight / 2.0
  const Spacing: real := BallRadius * 2.0 + 2.0

  /** Below this squared speed a ball counts as at rest (main.cpp:152). */
  const RestThreshold: real := 0.0001

  /** Number of red balls in the opening triangle: rows of 1, 2, 3, 4 and 5. */
  const RedCount: nat := 15

  newtype Uint8 = x: int | 0 <= x < 256

  datatype Color = Color(r: Uint8, g: Uint8, b: Uint8)

  /** The eight name strings the program uses. */
  datatype Name = CueBall | RedBall | YellowBall | GreenBall | BrownBall | BlueBall | PinkBall | BlackBall

  datatype Ball = Ball(pos: Vec2d, v: Vec2d, color: Color, points: int, potted: bool, name: Name)

  datatype Pocket = Pocket(pos: Vec2d)

  datatype Option<T> = None | Some(value: T)

  /** Inside the cushions: the rectangle the pockets sit on the border of. */
  predicate OnCloth(p: Vec2d)
  {
    TableMargin <= p.x <= ScreenWidth - TableMargin && TableMargin <= p.y <= ScreenHeight - TableMargin
  }

  /** On the border of the cloth. */
  predicate OnCushion(p: Vec2d)
  {
    OnCloth(p) &&
    (p.x == TableMargin || p.x == ScreenWidth - TableMargin || p.y == TableMargin || p.y == ScreenHeight - TableMargin)
  }

  /** The rectangle `updateBall` clamps a moving ball's centre into. */
  predicate InsideCushions(p: Vec2d)
  {
    TableMargin + BallRadius <= p.x <= ScreenWidth - TableMargin - BallRadius &&
    TableMargin + BallRadius <= p.y <= ScreenHeight - TableMargin - BallRadius
  }

  /**
   * `createBall`: the canonical record of a named ball.  The table has no entry
   * for the red ball, where `std::unordered_map::at` throws; that is `None`.
   */
  function CreateBall(name: Name): (r: Option<Ball>)
    ensures r.Some? <==> name != RedBall
    ensures r.Some? ==> r.value.name == name && !r.value.potted && r.value.v == Zero
    ensures r.Some? ==> (r.value.points > 1 <==> name != CueBall) && r.value.points >= 0
    ensures r.Some? ==> OnCloth(r.value.pos)
  {
    match name
    case YellowBall =>
      Some(Ball(Vec2d(ScreenWidth / 2.0 - 3.0 * Spacing, ScreenHeight / 2.0), Zero, Color(255, 255, 0), 2, false, YellowBall))
    case GreenBall =>
      Some(Ball(Vec2d(ScreenWidth / 2.0 - Spacing, TableMargin + Spacing * 2.0), Zero, Color(0, 255, 0), 3, false, GreenBall))
    case BrownBall =>
      Some(Ball(Vec2d(ScreenWidth / 2.0 - Spacing, ScreenHeight - TableMargin - Spacing * 2.0), Zero, Color(139, 69, 19), 4, false, BrownBall))
    case BlueBall =>
      Some(Ball(Vec2d(ScreenWidth / 2.0, ScreenHeight / 2.0), Zero, Color(0, 0, 255), 5, false, BlueBall))
    case PinkBall =>
      Some(Ball(Vec2d(TriangleStartX - Spacing * 3.0, ScreenHeight / 2.0), Zero, Color(255, 105, 180), 6, false, PinkBall))
    case BlackBall =>
      Some(Ball(Vec2d(TriangleStartX + Spacing * 6.0, ScreenHeight / 2.0), Zero, Color(0, 0, 0), 7, false, BlackBall))
    case CueBall =>
      Some(Ball(Vec2d(ScreenWidth / 4.0, ScreenHeight / 2.0), Zero, Color(255, 255, 255), 0, false, CueBall))
    case RedBall =>
      None
  }

  /** `createPockets`: four corner pockets and two middle pockets. */
  function CreatePockets(): (ps: seq<Pocket>)
    ensures |ps| == 6
    ensures forall k :: 0 <= k < |ps| ==> OnCushion(ps[k].pos)
  {
    [ Pocket(Vec2d(TableMargin, TableMargin)),
      Pocket(Vec2d(ScreenWidth / 2.0, TableMargin)),
      Pocket(Vec2d(ScreenWidth - TableMargin, TableMargin)),
      Pocket(Vec2d(TableMargin, ScreenHeight - TableMargin)),
      Pocket(Vec2d(ScreenWidth / 2.0, ScreenHeight - TableMargin)),
      Pocket(Vec2d(ScreenWidth - TableMargin, ScreenHeight - TableMargin)) ]
  }

  /** `isMoving`: the squared speed is not below the rest threshold. */
  predicate IsMoving(b: Ball)
  {
    !(SquaredLength(b.v) < RestThreshold)
  }

  /** `isBallInPocket`: the centre is strictly within `PocketRadius` of the pocket. */
  predicate IsBallInPocket(b: Ball, p: Pocket)
  {
    SquaredLength(Minus(b.pos, p.pos)) < PocketRadius * PocketRadius
  }

  /** Some pocket of `pockets` holds the ball. */
  predicate InSomePocket(b: Ball, pockets: seq<Pocket>)
  {
    exists k :: 0 <= k < |pockets| && IsBallInPocket(b, pockets[k])
  }

  /** `updateBall` moves this ball: it is on the table and not at rest. */
  predicate Moves(b: Ball)
  {
    !b.potted && IsMoving(b)
  }

  /**
   * The dispatch of `handlePotting` and `handlePottedBalls`: the cue ball is
   * recognised by name first, then any ball worth more than one point; what
   * remains (the reds) scores when potted and never comes back.
   */
  predicate Respawns(b: Ball)
  {
    b.name == CueBall || b.points > 1
  }

  /** The colour of the red balls. */
  const RedColor: Color := Color(255, 0, 0)

  /**
   * What every record of the game satisfies: a red is worth one point and
   * is red, and every other ball has the colour and value of its
   * `createBall` record.
   */
  predicate Canonical(b: Ball)
  {
    match CreateBall(b.name)
    case None => b.points == 1 && b.color == RedColor
    case Some(spot) => b.points == spot.points && b.color == spot.color
  }

  // ---------------------------------------------------------------------
  // Comparing squared lengths is comparing lengths

  lemma PositiveProduct(x: real, y: real)
    requires x > 0.0 && y > 0.0
    ensures x * y > 0.0
  {
  }

  lemma NonNegativeProduct(x: real, y: real)
    requires x >= 0.0 && y > 0.0
    ensures x * y >= 0.0
  {
  }

  /** For a non-negative `d` squaring to `s`, `s < bound²` exactly when `d < bound`. */
  lemma BelowSquare(s: real, d: real, bound: real)
    requires d >= 0.0 && d * d == s && bound > 0.0
    ensures s < bound * bound <==> d < bound
  {
    if d < bound {
      PositiveProduct(bound - d, bound + d);
    } else {
      NonNegativeProduct(d - bound, d + bound);
    }
  }

  /** The squared-length test of `isBallInPocket` is the distance test it stands for. */
  lemma InPocketIffNear(b: Ball, p: Pocket, distance: real)
    requires IsLengthOf(distance, Minus(b.pos, p.pos))
    ensures IsBallInPocket(b, p) <==> distance < PocketRadius
  {
    BelowSquare(SquaredLength(Minus(b.pos, p.pos)), distance, PocketRadius);
  }

  /** `isMoving` is a speed test: at least 0.01 distance units per tick. */
  lemma MovingIffFast(b: Ball, speed: real)
    requires IsLengthOf(speed, b.v)
    ensures IsMoving(b) <==> speed >= 0.01
  {
    BelowSquare(SquaredLength(b.v), speed, 0.01);
  }

  // ---------------------------------------------------------------------
  // The opening layout (main.cpp:230-245)

  /** Centre of the red ball in row `row`, column `col` of the triangle. */
  function RedPosition(row: nat, col: nat): Vec2d
  {
    Vec2d(TriangleStartX + row as real * Spacing, TriangleStartY - row as real * Spacing / 2.0 + col as real * Spacing)
  }

  function RedAt(row: nat, col: nat): Ball
  {
    Ball(RedPosition(row, col), Zero, RedColor, 1, false, RedBall)
  }

  /** The six coloured balls, in the order `main` places them. */
  const Colours: seq<Name> := [YellowBall, GreenBall, BrownBall, BlueBall, PinkBall, BlackBall]

  /** The two nested loops of `main` that append the triangle of reds to `balls`. */
  method RackReds(balls: seq<Ball>) returns (racked: seq<Ball>)
    ensures |racked| == |balls| + RedCount
    ensures racked[..|balls|] == balls
    ensures forall row: nat, col: nat :: col <= row < 5 ==> racked[|balls| + row * (row + 1) / 2 + col] == RedAt(row, col)
  {
    racked := balls;
    for row := 0 to 5
      invariant |racked| == |balls| + row * (row + 1) / 2
      invariant racked[..|balls|] == balls
      invariant forall r: nat, c: nat :: c <= r < row ==> racked[|balls| + r * (r + 1) / 2 + c] == RedAt(r, c)
    {
      for col := 0 to row + 1
        invariant |racked| == |balls| + row * (row + 1) / 2 + col
        invariant racked[..|balls|] == balls
        invariant forall r: nat, c: nat :: c <= r < row ==> racked[|balls| + r * (r + 1) / 2 + c] == RedAt(r, c)
        invariant forall c: nat :: c < col ==> racked[|balls| + row * (row + 1) / 2 + c] == RedAt(row, c)
      {
        racked := racked + [RedAt(row, col)];
      }
    }
  }

  /**
   * The balls `main` sets up: the cue ball, the fifteen reds row by row, then
   * the six colours.  Index 0 is the cue ball the mouse drives.
   */
  method InitialBalls() returns (balls: seq<Ball>)
    ensures |balls| == 1 + RedCount + |Colours|
    ensures CreateBall(CueBall) == Some(balls[0])
    ensures forall row: nat, col: nat :: col <= row < 5 ==> balls[1 + row * (row + 1) / 2 + col] == RedAt(row, col)
    ensures forall k :: 0 <= k < |Colours| ==> CreateBall(Colours[k]) == Some(balls[1 + RedCount + k])
    ensures forall k :: 0 <= k < |balls| ==> Canonical(balls[k]) && !balls[k].potted && balls[k].v == Zero
  {
    balls := [CreateBall(CueBall).value];
    balls := RackReds(balls);
    forall k | 1 <= k < |balls|
      ensures balls[k] == RedAt(0, 0).(pos := balls[k].pos)
    {
      var row := if k < 2 then 0 else if k < 4 then 1 else if k < 7 then 2 else if k < 11 then 3 else 4;
      assert balls[1 + row * (row + 1) / 2 + (k - 1 - row * (row + 1) / 2)] == RedAt(row, k - 1 - row * (row + 1) / 2);
    }
    ghost var rack := balls;
    for k := 0 to |Colours|
      invariant |balls| == 1 + RedCount + k
      invariant balls[..1 + RedCount] == rack
      invariant forall j :: 0 <= j < k ==> CreateBall(Colours[j]) == Some(balls[1 + RedCount + j])
      invariant forall j :: 0 <= j < |balls| ==> Canonical(balls[j]) && !balls[j].potted && balls[j].v == Zero
    {
      balls := balls + [CreateBall(Colours[k]).value];
    }
  }

  // ---------------------------------------------------------------------
  // Facts about the tables

  /** No spawn point lies inside a pocket, so a respawned ball is not potted again at once. */
  lemma SpawnPointsClearOfPockets(name: Name, k: nat)
    requires name != RedBall && k < 6
    ensures !IsBallInPocket(CreateBall(name).value, CreatePockets()[k])
  {
  }

  /**
   * The black ball's spot lies beyond the right-hand clamp bound of
   * `updateBall`: it is placed 2 units into the band the cushion keeps clear.
   */
  lemma BlackSpotBeyondClamp()
    ensures CreateBall(BlackBall).value.pos.x == ScreenWidth - TableMargin - BallRadius + 2.0
    ensures !InsideCushions(CreateBall(BlackBall).value.pos)
  {
  }
}
