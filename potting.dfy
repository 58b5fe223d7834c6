/**
 * Potting, scoring and respawn: `handlePotting` marks a ball that entered a
 * pocket and scores it if it is a red; once every ball has stopped,
 * `handlePottedBalls` puts the cue ball and the colours back on their spots.
 */
module Potting {
  import opened Geometry
  import opened Balls

  /** The ball after `handlePotting`: an unpotted ball over a pocket becomes potted. */
  function Pot(b: Ball, pockets: seq<Pocket>): (r: Ball)
    ensures r.potted <==> b.potted || InSomePocket(b, pockets)
    ensures r == b.(potted := r.potted)
  {
    if b.potted then b else b.(potted := InSomePocket(b, pockets))
  }

  /** What `handlePotting` adds to the score: the points of a newly potted red. */
  function PotScore(b: Ball, pockets: seq<Pocket>): int
  {
    if !b.potted && InSomePocket(b, pockets) && !Respawns(b) then b.points else 0
  }

  /**
   * `handlePotting`: scans the pockets in order and stops at the first one
   * that holds the ball.  The cue ball (a foul) and the colours are only
   * marked; a red is marked and its points are added to the score.
   */
  method HandlePotting(ball: Ball, pockets: seq<Pocket>, score: int) returns (b: Ball, score': int, ghost pocket: int)
    ensures b == Pot(ball, pockets)
    ensures score' == score + PotScore(ball, pockets)
    ensures ball.potted ==> b == ball && score' == score
    ensures b.potted <==> ball.potted || InSomePocket(ball, pockets)
    ensures b.pos == ball.pos && b.v == ball.v
    ensures Respawns(ball) ==> score' == score
    ensures !ball.potted && b.potted && !Respawns(ball) ==> score' == score + ball.points
    ensures !ball.potted && b.potted ==>
      0 <= pocket < |pockets| && IsBallInPocket(ball, pockets[pocket]) &&
      forall k :: 0 <= k < pocket ==> !IsBallInPocket(ball, pockets[k])
  {
    b, score', pocket := ball, score, -1;
    if ball.potted {
      return;
    }
    var i := 0;
    while i < |pockets|
      invariant 0 <= i <= |pockets|
      invariant forall k :: 0 <= k < i ==> !IsBallInPocket(ball, pockets[k])
      invariant b == ball && score' == score
    {
      if IsBallInPocket(b, pockets[i]) {
        pocket := i;
        b := b.(potted := true);
        if b.name == CueBall {
          // a foul: reported, not scored
        } else if b.points > 1 {
          // a colour: reported, respawned later
        } else {
          score' := score' + b.points;
        }
        return;
      }
      i := i + 1;
    }
  }

  /** A second `handlePotting` changes nothing and scores nothing. */
  lemma PotIdempotent(b: Ball, pockets: seq<Pocket>)
    ensures Pot(Pot(b, pockets), pockets) == Pot(b, pockets)
    ensures PotScore(Pot(b, pockets), pockets) == 0
  {
  }

  /** The score changes only for a red that is newly potted, and never goes down. */
  lemma PotScoreOnlyForReds(b: Ball, pockets: seq<Pocket>)
    ensures Canonical(b) ==> PotScore(b, pockets) >= 0
    ensures PotScore(b, pockets) != 0 ==> !b.potted && Pot(b, pockets).potted && b.name != CueBall && b.points <= 1
  {
  }

  /** `createBall` has an entry for the ball, if `handlePottedBalls` asks for one. */
  predicate CanRespawn(b: Ball)
  {
    b.potted && Respawns(b) ==> b.name != RedBall
  }

  /** The ball after `handlePottedBalls`. */
  function Respawn(b: Ball): (r: Ball)
    requires CanRespawn(b)
    ensures b.potted && Respawns(b) ==> Some(r) == CreateBall(b.name)
    ensures !(b.potted && Respawns(b)) ==> r == b
    ensures r.name == b.name && (r.potted ==> b.potted)
  {
    if !b.potted then b
    else if b.name == CueBall then CreateBall(b.name).value
    else if b.points > 1 then CreateBall(b.name).value
    else b
  }

  /** Respawning twice is respawning once, and only balls that do not respawn stay potted. */
  lemma RespawnIdempotent(b: Ball)
    requires CanRespawn(b)
    ensures Respawn(Respawn(b)) == Respawn(b)
    ensures Respawn(b).potted ==> b.potted && !Respawns(b)
  {
  }

  /**
   * `createBall` has an entry for every ball `handlePottedBalls` asks about,
   * and what it returns is canonical again.
   */
  lemma CanonicalRespawn(b: Ball)
    requires Canonical(b)
    ensures CanRespawn(b) && Canonical(Respawn(b))
  {
  }

  /** A ball put back on its spot is not over any pocket of the table. */
  lemma RespawnedBallClearOfPockets(b: Ball)
    requires b.potted && Respawns(b) && CanRespawn(b)
    ensures !Respawn(b).potted && !InSomePocket(Respawn(b), CreatePockets())
  {
    forall k | 0 <= k < |CreatePockets()|
      ensures !IsBallInPocket(Respawn(b), CreatePockets()[k])
    {
      SpawnPointsClearOfPockets(b.name, k);
    }
  }

  /**
   * `handlePottedBalls`: every potted cue ball or colour becomes its
   * `createBall` record; potted reds and balls on the table are untouched.
   * A potted ball that is neither the cue ball nor a red but has no
   * `createBall` entry (a red worth more than one point) makes `at` throw:
   * the loop stops there, leaving the balls before it respawned and the
   * rest as they were.  `stop` is the index of that ball, or the number of
   * balls when the loop runs to the end.
   */
  method HandlePottedBalls(balls: array<Ball>) returns (stop: int)
    modifies balls
    ensures 0 <= stop <= balls.Length
    ensures stop < balls.Length ==> !CanRespawn(old(balls[stop]))
    ensures forall k :: 0 <= k < stop ==> CanRespawn(old(balls[k])) && balls[k] == Respawn(old(balls[k]))
    ensures forall k :: stop <= k < balls.Length ==> balls[k] == old(balls[k])
  {
    for i := 0 to balls.Length
      invariant forall k :: 0 <= k < i ==> CanRespawn(old(balls[k])) && balls[k] == Respawn(old(balls[k]))
      invariant forall k :: i <= k < balls.Length ==> balls[k] == old(balls[k])
    {
      if !balls[i].potted {
        continue;
      }
      var spot: Option<Ball>;
      if balls[i].name == CueBall {
        spot := CreateBall(balls[i].name);
      } else if balls[i].points > 1 {
        spot := CreateBall(balls[i].name);
      } else {
        // a red stays in its pocket
        continue;
      }
      if spot.None? {
        return i;
      }
      balls[i] := spot.value;
    }
    return balls.Length;
  }
}
