/**
 * One tick of the game loop of main.cpp, without input and drawing: every
 * ball is stepped and the moving ones counted, unpotted balls are checked
 * against the pockets, potted balls respawn once nothing moved, and every
 * pair of balls is checked for a collision.  The square root the source
 * takes from `<cmath>` is a parameter (`root`).
 */
module Simulation {
  import opened Geometry
  import opened Balls
  import opened Motion
  import opened Potting

  /** `std::sqrt` on the non-negative reals. */
  ghost predicate IsSquareRoot(root: real -> real)
  {
    forall q :: q >= 0.0 ==> root(q) >= 0.0 && root(q) * root(q) == q
  }

  lemma RootGivesLength(root: real -> real, u: Vec2d)
    requires IsSquareRoot(root)
    ensures IsLengthOf(root(SquaredLength(u)), u)
  {
    SquaredLengthNonNegative(u);
  }

  // ---------------------------------------------------------------------
  // Counting and summing over the balls

  /** How many balls of `s` `updateBall` moves. */
  function CountMoving(s: seq<Ball>): (n: nat)
    ensures n <= |s|
    ensures n == 0 <==> forall k :: 0 <= k < |s| ==> !Moves(s[k])
  {
    if |s| == 0 then 0 else CountMoving(s[..|s| - 1]) + (if Moves(s[|s| - 1]) then 1 else 0)
  }

  /** What potting every ball of `s` adds to the score. */
  function ScoreGain(s: seq<Ball>, pockets: seq<Pocket>): (g: int)
    ensures (forall k :: 0 <= k < |s| ==> Canonical(s[k])) ==> g >= 0
  {
    if |s| == 0 then 0
    else
      PotScoreOnlyForReds(s[|s| - 1], pockets);
      ScoreGain(s[..|s| - 1], pockets) + PotScore(s[|s| - 1], pockets)
  }

  /** The quantities a collision conserves. */
  datatype Quantity = MomentumX | MomentumY | PositionX | PositionY | Energy

  /** The value of `q` for one ball (all balls have the same mass). */
  function Measure(q: Quantity, b: Ball): real
  {
    match q
    case MomentumX => b.v.x
    case MomentumY => b.v.y
    case PositionX => b.pos.x
    case PositionY => b.pos.y
    case Energy => KineticEnergy(b)
  }

  /** The sum of `q` over the balls of `s`. */
  function Total(s: seq<Ball>, q: Quantity): real
  {
    if |s| == 0 then 0.0 else Total(s[..|s| - 1], q) + Measure(q, s[|s| - 1])
  }

  /** Replacing one ball changes the sum by the difference. */
  lemma {:induction false} TotalUpdate(s: seq<Ball>, k: int, x: Ball, q: Quantity)
    requires 0 <= k < |s|
    ensures Total(s[k := x], q) == Total(s, q) - Measure(q, s[k]) + Measure(q, x)
  {
    var last := |s| - 1;
    if k == last {
      assert s[k := x][..last] == s[..last];
    } else {
      assert s[k := x][..last] == s[..last][k := x];
      TotalUpdate(s[..last], k, x, q);
    }
  }

  // ---------------------------------------------------------------------
  // The order of the collision checks

  /** The pairs `(i, k)` with `i < k < j`, by increasing `k`. */
  function Row(i: nat, j: nat): seq<(nat, nat)>
  {
    if j <= i + 1 then [] else Row(i, j - 1) + [(i, j - 1)]
  }

  /** The rows `0 .. i - 1` of the pairs below `n`, one after the other. */
  function RowsBefore(i: nat, n: nat): seq<(nat, nat)>
  {
    if i == 0 then [] else RowsBefore(i - 1, n) + Row(i - 1, n)
  }

  /** The pairs the nested collision loop visits, in the order it visits them. */
  function AllPairs(n: nat): seq<(nat, nat)>
  {
    RowsBefore(n, n)
  }

  predicate LexLess(p: (nat, nat), q: (nat, nat))
  {
    p.0 < q.0 || (p.0 == q.0 && p.1 < q.1)
  }

  predicate StrictlyIncreasing(s: seq<(nat, nat)>)
  {
    forall a, b :: 0 <= a < b < |s| ==> LexLess(s[a], s[b])
  }

  lemma {:induction false} RowShape(i: nat, j: nat)
    ensures |Row(i, j)| == if j > i + 1 then j - i - 1 else 0
    ensures forall t :: 0 <= t < |Row(i, j)| ==> Row(i, j)[t] == (i, i + 1 + t)
  {
    if j > i + 1 {
      RowShape(i, j - 1);
    }
  }

  /** Two increasing sequences, every element of the first below every element of the second. */
  lemma IncreasingConcat(front: seq<(nat, nat)>, back: seq<(nat, nat)>)
    requires StrictlyIncreasing(front) && StrictlyIncreasing(back)
    requires forall a, b :: 0 <= a < |front| && 0 <= b < |back| ==> LexLess(front[a], back[b])
    ensures StrictlyIncreasing(front + back)
  {
    forall a, b | 0 <= a < b < |front + back|
      ensures LexLess((front + back)[a], (front + back)[b])
    {
      if b < |front| {
      } else if a < |front| {
        assert LexLess(front[a], back[b - |front|]);
      } else {
        assert LexLess(back[a - |front|], back[b - |front|]);
      }
    }
  }

  lemma RowMembers(i: nat, n: nat)
    ensures StrictlyIncreasing(Row(i, n))
    ensures forall p :: p in Row(i, n) <==> p.0 == i && i < p.1 < n
  {
    RowShape(i, n);
    forall p: (nat, nat) | p.0 == i && i < p.1 < n
      ensures p in Row(i, n)
    {
      assert Row(i, n)[p.1 - i - 1] == p;
    }
  }

  lemma {:induction false} RowsBeforeShape(i: nat, n: nat)
    requires i <= n
    ensures StrictlyIncreasing(RowsBefore(i, n))
    ensures forall p :: p in RowsBefore(i, n) <==> p.0 < i && p.0 < p.1 < n
  {
    if i > 0 {
      var front, row := RowsBefore(i - 1, n), Row(i - 1, n);
      RowsBeforeShape(i - 1, n);
      RowMembers(i - 1, n);
      assert RowsBefore(i, n) == front + row;
      forall a, b | 0 <= a < |front| && 0 <= b < |row|
        ensures LexLess(front[a], row[b])
      {
        assert front[a] in front && row[b] in row;
      }
      IncreasingConcat(front, row);
    }
  }

  /**
   * The collision loop checks every pair `i < j` of `n` balls, each exactly
   * once, in increasing order of `i` and then of `j`.
   */
  lemma AllPairsExactlyOnce(n: nat)
    ensures forall i: nat, j: nat :: (i, j) in AllPairs(n) <==> i < j < n
    ensures StrictlyIncreasing(AllPairs(n))
    ensures forall a, b :: 0 <= a < b < |AllPairs(n)| ==> AllPairs(n)[a] != AllPairs(n)[b]
  {
    RowsBeforeShape(n, n);
  }

  // ---------------------------------------------------------------------
  // The stages of a tick

  /** Every ball of `t` is the ball of `s` at the same place after `updateBall`. */
  predicate Stepped(s: seq<Ball>, t: seq<Ball>)
  {
    |t| == |s| && forall k :: 0 <= k < |s| ==> StepOf(s[k], t[k])
  }

  /** Every ball after `updateBall`. */
  function StepEach(s: seq<Ball>): (t: seq<Ball>)
    ensures Stepped(s, t)
  {
    if |s| == 0 then [] else StepEach(s[..|s| - 1]) + [Step(s[|s| - 1])]
  }

  /** Every ball after `handlePotting`. */
  function PotEach(s: seq<Ball>, pockets: seq<Pocket>): seq<Ball>
  {
    seq(|s|, k requires 0 <= k < |s| => Pot(s[k], pockets))
  }

  /** Every ball after `handlePottedBalls`. */
  function RespawnEach(s: seq<Ball>): seq<Ball>
    requires AllRespawnable(s)
  {
    seq(|s|, k requires 0 <= k < |s| => Respawn(s[k]))
  }

  /**
   * `updateBall` on every ball, counting down from the number of balls for
   * each ball that did not move: the count ends as the number that moved.
   */
  method IntegrateAll(balls: array<Ball>) returns (movingBalls: int)
    modifies balls
    ensures movingBalls == CountMoving(old(balls[..]))
    ensures balls[..] == StepEach(old(balls[..]))
  {
    ghost var s := balls[..];
    movingBalls := balls.Length;
    for i := 0 to balls.Length
      invariant movingBalls == balls.Length - i + CountMoving(s[..i])
      invariant balls[..i] == StepEach(s[..i])
      invariant forall k :: i <= k < balls.Length ==> balls[k] == s[k]
    {
      assert s[..i + 1][..i] == s[..i];
      var b, moved := UpdateBall(balls[i]);
      balls[i] := b;
      if !moved {
        movingBalls := movingBalls - 1;
      }
      assert balls[..i + 1] == balls[..i] + [balls[i]];
    }
    assert s[..balls.Length] == s && balls[..] == balls[..balls.Length];
  }

  /** `handlePotting` on every ball still on the table. */
  method PotAll(balls: array<Ball>, pockets: seq<Pocket>, score: int) returns (score': int)
    modifies balls
    ensures balls[..] == PotEach(old(balls[..]), pockets)
    ensures score' == score + ScoreGain(old(balls[..]), pockets)
  {
    ghost var s := balls[..];
    score' := score;
    for i := 0 to balls.Length
      invariant score' == score + ScoreGain(s[..i], pockets)
      invariant forall k :: 0 <= k < i ==> balls[k] == Pot(s[k], pockets)
      invariant forall k :: i <= k < balls.Length ==> balls[k] == s[k]
    {
      assert s[..i + 1][..i] == s[..i];
      if !balls[i].potted {
        var b;
        ghost var pocket;
        b, score', pocket := HandlePotting(balls[i], pockets, score');
        balls[i] := b;
      }
    }
    assert s[..balls.Length] == s;
  }

  /**
   * What collisions keep between the balls `s` before and `t` after: the
   * same records in the same places, potted balls untouched, the same total
   * momentum, sum of positions and total kinetic energy.
   */
  predicate Conserved(s: seq<Ball>, t: seq<Ball>)
  {
    |t| == |s| &&
    (forall k :: 0 <= k < |s| ==> SameIdentity(s[k], t[k]) && (s[k].potted ==> t[k] == s[k])) &&
    forall q :: Total(t, q) == Total(s, q)
  }

  /** No ball of `s` moves. */
  predicate AllAtRest(s: seq<Ball>)
  {
    forall k :: 0 <= k < |s| ==> !Moves(s[k])
  }

  lemma ConservedTransitive(s: seq<Ball>, t: seq<Ball>, u: seq<Ball>)
    requires Conserved(s, t) && Conserved(t, u)
    ensures Conserved(s, u)
  {
  }

  /** Replacing two balls by the outcome of their collision conserves what collisions conserve. */
  lemma PairConserved(s: seq<Ball>, i: int, j: int, a': Ball, b': Ball)
    requires 0 <= i < |s| && 0 <= j < |s| && i != j
    requires SameIdentity(s[i], a') && SameIdentity(s[j], b')
    requires (s[i].potted || s[j].potted) ==> a' == s[i] && b' == s[j]
    requires Plus(a'.v, b'.v) == Plus(s[i].v, s[j].v)
    requires Plus(a'.pos, b'.pos) == Plus(s[i].pos, s[j].pos)
    requires KineticEnergy(a') + KineticEnergy(b') == KineticEnergy(s[i]) + KineticEnergy(s[j])
    ensures Conserved(s, s[i := a'][j := b'])
  {
    forall q
      ensures Total(s[i := a'][j := b'], q) == Total(s, q)
    {
      TotalUpdate(s, i, a', q);
      TotalUpdate(s[i := a'], j, b', q);
    }
  }

  /**
   * `handleCollision(s[i], s[j])` for the pair `p = (i, j)`, with the centre
   * distance that `root` gives; a pair outside `s` changes nothing.
   */
  function CollideAt(s: seq<Ball>, p: (nat, nat), root: real -> real): (t: seq<Ball>)
    ensures |t| == |s|
  {
    if p.0 < |s| && p.1 < |s| && p.0 != p.1 then
      var r := Collide(s[p.0], s[p.1], root(SquaredLength(Minus(s[p.1].pos, s[p.0].pos))));
      s[p.0 := r.0][p.1 := r.1]
    else
      s
  }

  /** `handleCollision` on the pairs of `pairs`, one after the other. */
  function CollideAll(s: seq<Ball>, pairs: seq<(nat, nat)>, root: real -> real): (t: seq<Ball>)
    ensures |t| == |s|
  {
    if |pairs| == 0 then s
    else CollideAt(CollideAll(s, pairs[..|pairs| - 1], root), pairs[|pairs| - 1], root)
  }

  /** Colliding along `p + q` is colliding along `p`, then along `q`. */
  lemma {:induction false} CollideAllAppend(s: seq<Ball>, p: seq<(nat, nat)>, q: seq<(nat, nat)>, root: real -> real)
    ensures CollideAll(s, p + q, root) == CollideAll(CollideAll(s, p, root), q, root)
  {
    if |q| == 0 {
      assert p + q == p;
    } else {
      assert (p + q)[..|p + q| - 1] == p + q[..|q| - 1];
      CollideAllAppend(s, p, q[..|q| - 1], root);
    }
  }

  /** One collision conserves momentum, the sum of positions and kinetic energy. */
  lemma CollideAtConserves(s: seq<Ball>, p: (nat, nat), root: real -> real)
    requires IsSquareRoot(root)
    ensures Conserved(s, CollideAt(s, p, root))
    ensures AllAtRest(s) ==> CollideAt(s, p, root) == s
  {
    if p.0 < |s| && p.1 < |s| && p.0 != p.1 {
      var a, b := s[p.0], s[p.1];
      var d := root(SquaredLength(Minus(b.pos, a.pos)));
      RootGivesLength(root, Minus(b.pos, a.pos));
      CollideObeysLaws(a, b, d);
      var r := Collide(a, b, d);
      PairConserved(s, p.0, p.1, r.0, r.1);
    }
  }

  /**
   * Any sequence of collisions conserves momentum, the sum of positions and
   * kinetic energy, never touches a potted ball, and changes nothing at all
   * when no ball moves.
   */
  lemma {:induction false} CollideAllConserves(s: seq<Ball>, pairs: seq<(nat, nat)>, root: real -> real)
    requires IsSquareRoot(root)
    ensures Conserved(s, CollideAll(s, pairs, root))
    ensures AllAtRest(s) ==> CollideAll(s, pairs, root) == s
  {
    if |pairs| > 0 {
      var t := CollideAll(s, pairs[..|pairs| - 1], root);
      CollideAllConserves(s, pairs[..|pairs| - 1], root);
      CollideAtConserves(t, pairs[|pairs| - 1], root);
      ConservedTransitive(s, t, CollideAt(t, pairs[|pairs| - 1], root));
    }
  }

  /** The body of the nested collision loop: `handleCollision(balls[i], balls[j])`. */
  method CollidePair(balls: array<Ball>, i: int, j: int, root: real -> real)
    requires IsSquareRoot(root)
    requires 0 <= i < j < balls.Length
    modifies balls
    ensures balls[..] == CollideAt(old(balls[..]), (i, j), root)
  {
    var ab := Minus(balls[j].pos, balls[i].pos);
    var distance := root(SquaredLength(ab));
    RootGivesLength(root, ab);
    var a', b' := HandleCollision(balls[i], balls[j], distance);
    balls[i] := a';
    balls[j] := b';
  }

  /** The inner collision loop: `handleCollision(balls[i], balls[j])` for `j = i + 1 .. n - 1`. */
  method CollideRow(balls: array<Ball>, i: int, root: real -> real)
    requires IsSquareRoot(root)
    requires 0 <= i < balls.Length
    modifies balls
    ensures balls[..] == CollideAll(old(balls[..]), Row(i, balls.Length), root)
  {
    ghost var s := balls[..];
    for j := i + 1 to balls.Length
      invariant balls[..] == CollideAll(s, Row(i, j), root)
    {
      CollidePair(balls, i, j, root);
      assert Row(i, j + 1)[..|Row(i, j + 1)| - 1] == Row(i, j);
    }
  }

  /**
   * `handleCollision` on every pair `i < j`, in the order of the nested
   * loop (`AllPairs`): the balls end as the fold of `CollideAt` over those
   * pairs.  Collisions change neither the total momentum, nor the sum of the
   * positions, nor the total kinetic energy; potted balls are not touched,
   * and if no ball was moving nothing happens at all.
   */
  method ResolveCollisions(balls: array<Ball>, root: real -> real)
    requires IsSquareRoot(root)
    modifies balls
    ensures balls[..] == CollideAll(old(balls[..]), AllPairs(balls.Length), root)
    ensures Conserved(old(balls[..]), balls[..])
    ensures AllAtRest(old(balls[..])) ==> balls[..] == old(balls[..])
  {
    ghost var s := balls[..];
    for i := 0 to balls.Length
      invariant balls[..] == CollideAll(s, RowsBefore(i, balls.Length), root)
    {
      CollideRow(balls, i, root);
      CollideAllAppend(s, RowsBefore(i, balls.Length), Row(i, balls.Length), root);
    }
    CollideAllConserves(s, AllPairs(balls.Length), root);
  }

  /** Every ball satisfies `Canonical`. */
  predicate AllCanonical(s: seq<Ball>)
  {
    forall k :: 0 <= k < |s| ==> Canonical(s[k])
  }

  /** `createBall` has an entry for every ball of `s` that `handlePottedBalls` asks about. */
  predicate AllRespawnable(s: seq<Ball>)
  {
    forall k :: 0 <= k < |s| ==> CanRespawn(s[k])
  }

  /** Every ball of `t` has the name, colour and points of the ball of `s` at the same place. */
  predicate SameRecords(s: seq<Ball>, t: seq<Ball>)
  {
    |t| == |s| &&
    forall k :: 0 <= k < |s| ==> t[k].name == s[k].name && t[k].color == s[k].color && t[k].points == s[k].points
  }

  /** Every potted ball of `s` that never respawns (a red) is unchanged in `t`. */
  predicate RedsStay(s: seq<Ball>, t: seq<Ball>)
  {
    |t| == |s| && forall k :: 0 <= k < |s| && s[k].potted && !Respawns(s[k]) ==> t[k] == s[k]
  }

  /** Every potted ball of `s` is still potted in `t`. */
  predicate PottedStay(s: seq<Ball>, t: seq<Ball>)
  {
    |t| == |s| && forall k :: 0 <= k < |s| && s[k].potted ==> t[k].potted
  }

  /** A ball at rest stays at rest through potting and respawning. */
  lemma RestingStaysResting(b: Ball, pockets: seq<Pocket>)
    requires !Moves(b) && Canonical(b)
    ensures CanRespawn(Pot(b, pockets)) && !Moves(Respawn(Pot(b, pockets)))
  {
  }

  /** One ball through the stages of a tick. */
  lemma BallThroughTick(b0: Ball, b1: Ball, b3: Ball, b4: Ball, pockets: seq<Pocket>, respawned: bool)
    requires Canonical(b0) && StepOf(b0, b1)
    requires respawned ==> CanRespawn(Pot(b1, pockets)) && b3 == Respawn(Pot(b1, pockets))
    requires !respawned ==> b3 == Pot(b1, pockets)
    requires SameIdentity(b3, b4) && (b3.potted ==> b4 == b3)
    ensures Canonical(b1) && Canonical(b4)
    ensures b4.name == b0.name && b4.color == b0.color && b4.points == b0.points
    ensures b0.potted && !Respawns(b0) ==> b4 == b0
    ensures !respawned && b0.potted ==> b4.potted
  {
  }

  /** When no ball moves, stepping changes nothing and every ball is still at rest after respawning. */
  lemma RestingTick(s0: seq<Ball>, s1: seq<Ball>, s2: seq<Ball>, pockets: seq<Pocket>)
    requires AllCanonical(s0)
    requires AllAtRest(s0) && Stepped(s0, s1) && s2 == PotEach(s1, pockets)
    ensures s1 == s0 && AllRespawnable(s2) && AllAtRest(RespawnEach(s2))
  {
    forall k | 0 <= k < |s0|
      ensures s1[k] == s0[k] && CanRespawn(s2[k]) && !Moves(Respawn(s2[k]))
    {
      RestingStaysResting(s0[k], pockets);
    }
  }

  /** After stepping and potting canonical balls, `createBall` has an entry for every ball `handlePottedBalls` respawns. */
  lemma PottedCanRespawn(s0: seq<Ball>, s1: seq<Ball>, s2: seq<Ball>, pockets: seq<Pocket>)
    requires AllCanonical(s0)
    requires Stepped(s0, s1) && s2 == PotEach(s1, pockets)
    ensures AllCanonical(s1) && AllRespawnable(s2)
  {
    forall k | 0 <= k < |s2|
      ensures Canonical(s1[k]) && CanRespawn(s2[k])
    {
      assert SameIdentity(s0[k], s1[k]);
      CanonicalRespawn(s2[k]);
    }
  }

  /**
   * The stages of a tick put together, on the sequence of balls before
   * (`s0`), after stepping (`s1`), after potting (`s2`), after respawning
   * (`s3`) and after the collisions (`s4`).
   */
  lemma TickStages(s0: seq<Ball>, s1: seq<Ball>, s2: seq<Ball>, s3: seq<Ball>, s4: seq<Ball>,
                   pockets: seq<Pocket>, respawned: bool, root: real -> real)
    requires IsSquareRoot(root) && AllCanonical(s0)
    requires s1 == StepEach(s0) && s2 == PotEach(s1, pockets)
    requires respawned <==> AllAtRest(s0)
    requires respawned ==> AllRespawnable(s2) && s3 == RespawnEach(s2)
    requires !respawned ==> s3 == s2
    requires s4 == CollideAll(s3, AllPairs(|s3|), root)
    ensures AllCanonical(s1) && AllCanonical(s4) && SameRecords(s0, s4)
    ensures respawned ==> AllRespawnable(PotEach(s0, pockets)) && s4 == RespawnEach(PotEach(s0, pockets))
    ensures RedsStay(s0, s4)
    ensures !respawned ==> PottedStay(s0, s4)
  {
    CollideAllConserves(s3, AllPairs(|s3|), root);
    assert Stepped(s0, s1);
    if respawned {
      RestingTick(s0, s1, s2, pockets);
    }
    forall k | 0 <= k < |s0|
      ensures Canonical(s1[k]) && Canonical(s4[k])
      ensures s4[k].name == s0[k].name && s4[k].color == s0[k].color && s4[k].points == s0[k].points
      ensures s0[k].potted && !Respawns(s0[k]) ==> s4[k] == s0[k]
      ensures !respawned && s0[k].potted ==> s4[k].potted
    {
      BallThroughTick(s0[k], s1[k], s3[k], s4[k], pockets, respawned);
    }
  }

  /**
   * The tick body of the game loop.  Respawning happens exactly when no ball
   * moved (potted balls count as not moving), and then the tick amounts to
   * potting and respawning every ball; otherwise the balls are stepped,
   * potted and collided pair by pair.  The score gains exactly the points of
   * the newly potted reds, so it never goes down; a potted ball that does
   * not respawn (a red) stays where it is; and the records keep their names,
   * colours and points.
   */
  method Tick(balls: array<Ball>, pockets: seq<Pocket>, score: int, root: real -> real) returns (score': int, respawned: bool)
    requires IsSquareRoot(root)
    requires AllCanonical(balls[..])
    modifies balls
    ensures respawned <==> AllAtRest(old(balls[..]))
    ensures respawned ==>
      AllRespawnable(PotEach(old(balls[..]), pockets)) && balls[..] == RespawnEach(PotEach(old(balls[..]), pockets))
    ensures !respawned ==>
      balls[..] == CollideAll(PotEach(StepEach(old(balls[..])), pockets), AllPairs(balls.Length), root)
    ensures score' == score + ScoreGain(StepEach(old(balls[..])), pockets)
    ensures score' >= score
    ensures AllCanonical(balls[..]) && SameRecords(old(balls[..]), balls[..])
    ensures RedsStay(old(balls[..]), balls[..])
    ensures !respawned ==> PottedStay(old(balls[..]), balls[..])
  {
    ghost var s0 := balls[..];
    var movingBalls := IntegrateAll(balls);
    ghost var s1 := balls[..];
    score' := PotAll(balls, pockets, score);
    ghost var s2 := balls[..];
    respawned := movingBalls == 0;
    PottedCanRespawn(s0, StepEach(s0), s2, pockets);
    if respawned {
      var stop := HandlePottedBalls(balls);
      assert balls[..] == RespawnEach(s2);
    }
    ghost var s3 := balls[..];
    ResolveCollisions(balls, root);
    TickStages(s0, s1, s2, s3, balls[..], pockets, respawned, root);
  }

  /**
   * A shot: the cue ball (index 0) gets the velocity `0.005` times the offset
   * from its centre to the point where the mouse button was released.
   */
  method Shoot(balls: array<Ball>, target: Vec2d)
    requires balls.Length > 0
    modifies balls
    ensures balls[0] == old(balls[0]).(v := Times(Minus(target, old(balls[0]).pos), 0.005))
    ensures forall k :: 0 < k < balls.Length ==> balls[k] == old(balls[k])
  {
    var offset := Minus(target, balls[0].pos);
    balls[0] := balls[0].(v := Times(offset, 0.005));
  }

  /**
   * A shot sets the cue ball moving exactly when the mouse is released at
   * least 2 units from its centre; a closer release leaves it at rest.
   */
  lemma ShotMovesIff(cue: Ball, target: Vec2d)
    ensures IsMoving(cue.(v := Times(Minus(target, cue.pos), 0.005))) <==> SquaredLength(Minus(target, cue.pos)) >= 4.0
  {
    SquaredLengthTimes(Minus(target, cue.pos), 0.005);
  }
}
