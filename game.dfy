/** The mutable game state of main.js and the operations that change it in place: level
    generation, the per-frame `update`, level advance, reset, the two lose-overlay buttons,
    launching and resizing. */
module Breakout {
  import opened Utils
  import opened Collision
  import opened Entities
  import opened Levels
  import opened Physics

  class Game {
    var worldW: real
    var worldH: real
    var paddle: Paddle
    var balls: seq<Ball>
    var bricks: seq<Brick>
    var particles: seq<Particle>
    var totalScore: int
    var levelScore: int
    var lives: int
    var level: int
    /** Whether the lose overlay (with its advance/retry buttons) is showing. */
    var loseShown: bool

    /** What holds between frames. */
    ghost predicate Valid()
      reads this
    {
      && 1 <= level <= MaxLevel
      && 0 <= levelScore <= totalScore
      && levelScore % 10 == 0 && totalScore % 10 == 0
      && lives <= 3
      && 1 <= |balls| <= 3
      && bricks != []
      && (forall p :: p in particles ==> p.life > 0.0)
      && paddle.w == 120.0 && paddle.h == 16.0 && paddle.speed == 560.0
    }

    /** The start of a session in a world of size (w, h): level 1, three lives, no score. */
    constructor (w: real, h: real, leftward: bool)
      ensures Valid()
      ensures worldW == w && worldH == h
      ensures paddle == Paddle(w / 2.0 - 60.0, h - 60.0, 120.0, 16.0, 560.0)
      ensures level == 1 && lives == 3 && totalScore == 0 && levelScore == 0 && !loseShown
      ensures bricks == LevelBricks(1, w) && balls == LevelBalls(1, w, h - 60.0, leftward) && particles == []
    {
      worldW, worldH := w, h;
      paddle := Paddle(w / 2.0 - 60.0, h - 60.0, 120.0, 16.0, 560.0);
      totalScore, levelScore, lives, level := 0, 0, 3, 1;
      balls, bricks, particles := [], [], [];
      loseShown := false;
      new;
      GenerateLevel(level, leftward);
    }

    /** generateLevel(n): hides the overlays, zeroes the level score, lays out the bricks row
        by row and creates the level's balls. */
    method GenerateLevel(n: int, leftward: bool)
      requires n >= 1
      modifies this`loseShown, this`levelScore, this`bricks, this`balls
      ensures !loseShown && levelScore == 0
      ensures bricks == LevelBricks(n, worldW)
      ensures balls == LevelBalls(n, worldW, paddle.y, leftward)
    {
      var layout := LayOutBricks(n, worldW);
      loseShown := false;
      levelScore := 0;
      bricks := layout;
      balls := [MakeBall(n, worldW, paddle.y, leftward)];
      if n == MaxLevel {
        var k := SpeedFactor(n);
        var b2 := MakeBall(n, worldW, paddle.y, leftward);
        var b3 := MakeBall(n, worldW, paddle.y, leftward);
        b2 := b2.(x := worldW / 2.0 - 30.0, y := paddle.y - 18.0);
        b3 := b3.(x := worldW / 2.0 + 30.0, y := paddle.y - 18.0);
        b2 := b2.(launched := true);
        b3 := b3.(launched := true);
        b2 := b2.(vx := -260.0 * k, vy := -300.0 * k);
        b3 := b3.(vx := 260.0 * k, vy := -300.0 * k);
        balls := balls + [b2, b3];
      }
    }

    /** nextLevel: hides the lose overlay, advances the level (5 wraps to 1) and generates it. */
    method NextLevel(leftward: bool)
      requires 1 <= level <= MaxLevel
      modifies this`level, this`loseShown, this`levelScore, this`bricks, this`balls
      ensures level == NextLevelNumber(old(level)) && 1 <= level <= MaxLevel
      ensures !loseShown && levelScore == 0
      ensures bricks == LevelBricks(level, worldW)
      ensures balls == LevelBalls(level, worldW, paddle.y, leftward)
    {
      loseShown := false;
      level := level + 1;
      if level > MaxLevel { level := 1; }
      GenerateLevel(level, leftward);
    }

    /** resetGame(hard): back to level 1 with three lives; a hard reset also zeroes the
        total score. */
    method ResetGame(hard: bool, leftward: bool)
      requires Valid()
      modifies this`level, this`lives, this`totalScore, this`loseShown, this`levelScore, this`bricks, this`balls
      ensures Valid()
      ensures level == 1 && lives == 3 && levelScore == 0 && !loseShown
      ensures totalScore == if hard then 0 else old(totalScore)
      ensures bricks == LevelBricks(1, worldW)
      ensures balls == LevelBalls(1, worldW, paddle.y, leftward)
    {
      loseShown := false;
      if hard {
        totalScore := 0; level := 1; lives := 3;
      } else {
        level := 1; lives := 3;
      }
      GenerateLevel(level, leftward);
    }

    /** The "advance" button of the lose overlay: a hard reset when no lives are left,
        otherwise the next level with lives and total score kept. */
    method OnAdvance(leftward: bool)
      requires Valid()
      modifies this`level, this`lives, this`totalScore, this`loseShown, this`levelScore, this`bricks, this`balls
      ensures Valid() && !loseShown && levelScore == 0
      ensures old(lives) <= 0 ==> level == 1 && lives == 3 && totalScore == 0
      ensures old(lives) > 0 ==> level == NextLevelNumber(old(level)) && lives == old(lives) && totalScore == old(totalScore)
      ensures bricks == LevelBricks(level, worldW)
      ensures balls == LevelBalls(level, worldW, paddle.y, leftward)
    {
      loseShown := false;
      if lives <= 0 {
        ResetGame(true, leftward);
      } else {
        NextLevel(leftward);
      }
    }

    /** The "retry" button of the lose overlay: the same level again, lives and total
        score untouched. */
    method OnRetry(leftward: bool)
      requires Valid()
      modifies this`loseShown, this`levelScore, this`bricks, this`balls
      ensures Valid() && !loseShown && levelScore == 0
      ensures bricks == LevelBricks(level, worldW)
      ensures balls == LevelBalls(level, worldW, paddle.y, leftward)
    {
      loseShown := false;
      GenerateLevel(level, leftward);
    }

    /** Space or a click: every ball is launched. */
    method Launch()
      modifies this`balls
      ensures |balls| == |old(balls)|
      ensures forall k :: 0 <= k < |balls| ==> balls[k] == old(balls)[k].(launched := true)
    {
      for k := 0 to |balls|
        invariant |balls| == |old(balls)|
        invariant forall m :: 0 <= m < k ==> balls[m] == old(balls)[m].(launched := true)
        invariant forall m :: k <= m < |balls| ==> balls[m] == old(balls)[m]
      {
        balls := balls[k := balls[k].(launched := true)];
      }
    }

    /** resize: the world takes the canvas's new size, truncated to whole pixels (`| 0`).
        The paddle keeps its row. */
    method Resize(cssW: real, cssH: real)
      modifies this`worldW, this`worldH
      ensures worldW == Truncate(cssW) as real && worldH == Truncate(cssH) as real
    {
      worldW := Truncate(cssW) as real;
      worldH := Truncate(cssH) as real;
    }

    /** The paddle step of update: move by the held arrows, then clamp into the world. */
    method MovePaddle(dt: real, leftHeld: bool, rightHeld: bool)
      modifies this`paddle
      ensures paddle == old(paddle).(x := Clamp(old(paddle).x + Intent(leftHeld, rightHeld) * old(paddle).speed * dt,
                                                0.0, worldW - old(paddle).w))
      ensures 0.0 <= paddle.x
      ensures worldW >= paddle.w ==> paddle.x <= worldW - paddle.w
    {
      var vx := 0.0;
      if leftHeld { vx := vx - 1.0; }
      if rightHeld { vx := vx + 1.0; }
      var x := paddle.x + vx * paddle.speed * dt;
      x := Max(0.0, Min(worldW - paddle.w, x));
      paddle := paddle.(x := x);
    }

    /** The full-loss check for a ball b that is being stepped: when b is below the floor and
        so is every ball in `balls`, a life is lost, a single fresh ball replaces them all and
        the lose overlay shows; otherwise nothing changes. */
    method CheckLoss(b: Ball, leftward: bool) returns (lost: bool)
      modifies this`lives, this`balls, this`loseShown
      ensures lost <==> b.y - b.r > worldH && AllBelow(old(balls), worldH)
      ensures lost ==> lives == old(lives) - 1 && balls == [MakeBall(level, worldW, paddle.y, leftward)] && loseShown
      ensures !lost ==> lives == old(lives) && balls == old(balls) && loseShown == old(loseShown)
    {
      lost := false;
      if b.y - b.r > worldH {
        var stillIn := CountInside(balls);
        if stillIn == 0 {
          lives := lives - 1;
          balls := [MakeBall(level, worldW, paddle.y, leftward)];
          loseShown := true;
          lost := true;
        }
      }
    }

    /** The number of balls whose top edge is not below the floor (the length of
        `balls.filter(bb => bb.y - bb.r <= WORLD.h)`). */
    method CountInside(bs: seq<Ball>) returns (n: nat)
      ensures n <= |bs|
      ensures n == 0 <==> AllBelow(bs, worldH)
    {
      n := 0;
      var i := 0;
      while i < |bs|
        invariant 0 <= i <= |bs| && n <= i
        invariant n == 0 <==> AllBelow(bs[..i], worldH)
      {
        if bs[i].y - bs[i].r <= worldH { n := n + 1; }
        assert bs[..i + 1] == bs[..i] + [bs[i]];
        i := i + 1;
      }
      assert bs[..i] == bs;
    }

    /** HitBricks, with what the rest of update needs to know about it: the bricks left are
        some of those before, each one gone scored 10 on both counters and left 27 live
        particles, and the ball keeps its position, size and launch state. */
    method ScanBricks(b0: Ball, sparkLife: real) returns (b: Ball, cleared: bool)
      requires bricks != [] && sparkLife > 0.0
      requires (forall p :: p in particles ==> p.life > 0.0)
      modifies this`bricks, this`totalScore, this`levelScore, this`particles
      ensures b.x == b0.x && b.y == b0.y && b.r == b0.r && b.launched == b0.launched
      ensures (forall p :: p in particles ==> p.life > 0.0)
      ensures totalScore - old(totalScore) == levelScore - old(levelScore) == 10 * (|old(bricks)| - |bricks|)
      ensures |particles| == |old(particles)| + 27 * (|old(bricks)| - |bricks|)
      ensures |bricks| <= |old(bricks)|
      ensures cleared <==> bricks == []
      ensures bricks == Survivors(old(bricks), b0) && b == ScanBall(old(bricks), b0)
    {
      ghost var before, sparks := bricks, particles;
      b, cleared := HitBricks(b0, sparkLife);
      ghost var k := |before| - |bricks|;
      BurstsAlive(b0.x, b0.y, sparkLife, k);
      AllAlive(sparks, Bursts(b0.x, b0.y, sparkLife, k));
    }

    /** The brick scan of one ball, from the last brick to the first: each brick the ball's
        square overlaps bounces the ball, is removed, scores 10 and bursts into particles.
        The scan stops when the last brick goes; `cleared` then tells the caller to start
        the next level and end the frame. */
    method HitBricks(b0: Ball, sparkLife: real) returns (b: Ball, cleared: bool)
      modifies this`bricks, this`totalScore, this`levelScore, this`particles
      ensures b == ScanBall(old(bricks), b0)
      ensures bricks == Survivors(old(bricks), b0)
      ensures cleared <==> old(bricks) != [] && bricks == []
      ensures totalScore == old(totalScore) + 10 * (|old(bricks)| - |bricks|)
      ensures levelScore == old(levelScore) + 10 * (|old(bricks)| - |bricks|)
      ensures particles == old(particles) + Bursts(b0.x, b0.y, sparkLife, |old(bricks)| - |bricks|)
    {
      ghost var all, sparks := bricks, particles;
      var bs, ps, hits := bricks, particles, 0;
      var total, levelPoints := totalScore, levelScore;
      b := b0;
      var i := |bs| - 1;
      while i >= 0
        invariant -1 <= i < |all|
        invariant bs == all[..i + 1] + Survivors(all[i + 1..], b0)
        invariant b == ScanBall(all[i + 1..], b0)
        invariant hits == |all| - |bs|
        invariant ps == sparks + Bursts(b0.x, b0.y, sparkLife, hits)
      {
        var br := bs[i];
        ScanAdvance(all, b0, i, bs, b);
        if Aabb(b.x - b.r, b.y - b.r, b.r * 2.0, b.r * 2.0, br.x, br.y, br.w, br.h) {
          b := BrickBounce(b, br);
          bs := bs[..i] + bs[i + 1..];
          AppendBurst(sparks, b.x, b.y, sparkLife, hits);
          ps := ps + Burst(b.x, b.y, sparkLife);
          hits := hits + 1;
          // Once the list is empty i is 0 (every earlier brick is gone too), so the scan ends here.
        }
        i := i - 1;
      }
      assert all[0..] == all;
      cleared := hits > 0 && bs == [];
      bricks, particles := bs, ps;
      totalScore, levelScore := total + 10 * hits, levelPoints + 10 * hits;
    }

    /** One frame of update: the paddle moves, every ball of the frame's starting list is
        stepped, and then the particles age. Clearing the last brick starts the next level
        and ends the frame at once, skipping the remaining balls and the particle pass. */
    method Update(dt: real, leftHeld: bool, rightHeld: bool, leftward: bool, sparkLife: real)
        returns (cleared: bool)
      requires Valid() && sparkLife > 0.0
      modifies this
      ensures Valid()
      ensures worldW == old(worldW) && worldH == old(worldH)
      ensures paddle == old(paddle).(x := Clamp(old(paddle).x + Intent(leftHeld, rightHeld) * old(paddle).speed * dt,
                                                0.0, worldW - old(paddle).w))
      ensures 0.0 <= paddle.x && (worldW >= paddle.w ==> paddle.x <= worldW - paddle.w)
      ensures old(lives) - |old(balls)| <= lives <= old(lives)
      ensures cleared ==>
                && level == NextLevelNumber(old(level)) && !loseShown && levelScore == 0
                && totalScore == old(totalScore) + 10 * |old(bricks)|
                && bricks == LevelBricks(level, worldW)
                && balls == LevelBalls(level, worldW, paddle.y, leftward)
                && |particles| == |old(particles)| + 27 * |old(bricks)|
      ensures !cleared ==>
                && level == old(level)
                && multiset(bricks) <= multiset(old(bricks))
                && totalScore == old(totalScore) + 10 * (|old(bricks)| - |bricks|)
                && levelScore == old(levelScore) + 10 * (|old(bricks)| - |bricks|)
                && |particles| <= |old(particles)| + 27 * (|old(bricks)| - |bricks|)
      ensures !cleared && lives < old(lives) ==>
                loseShown && balls == [MakeBall(level, worldW, paddle.y, leftward)]
      ensures cleared <==> FrameBricks(old(bricks), old(balls), paddle, old(level), dt, worldW) == []
      ensures !cleared ==> bricks == FrameBricks(old(bricks), old(balls), paddle, old(level), dt, worldW)
      ensures !cleared && lives == old(lives) ==>
                && loseShown == old(loseShown)
                && balls == FrameBalls(old(bricks), old(balls), paddle, old(level), dt, worldW)
      ensures lives < old(lives) <==> LossAmong(old(bricks), old(balls), |old(balls)|, paddle, old(level), dt, worldW, worldH)
      ensures !cleared ==>
                exists ps :: |ps| == |old(particles)| + 27 * (|old(bricks)| - |bricks|) && particles == Aged(ps, dt)
    {
      MovePaddle(dt, leftHeld, rightHeld);
      cleared := StepBalls(dt, leftward, sparkLife);
      ScoresStep(old(totalScore), old(levelScore), |old(bricks)| - |bricks|, totalScore, levelScore);
      if cleared {
        NextLevel(leftward);
        return;
      }
      FrameBricksSubMultiset(old(bricks), old(balls), paddle, old(level), dt, worldW);
      ghost var before := particles;
      AgeParticles(dt);
      AgedAlive(before, dt);
    }

    /** The ball loop of update, over the list as it was when the loop started (a full loss
        replaces `balls`, but the loop goes on with the old balls, whose changes are then no
        longer visible). It stops as soon as the last brick is gone. */
    method StepBalls(dt: real, leftward: bool, sparkLife: real) returns (cleared: bool)
      requires Valid() && sparkLife > 0.0
      modifies this`balls, this`bricks, this`totalScore, this`levelScore, this`particles, this`lives, this`loseShown
      ensures 1 <= |balls| <= 3 && (forall p :: p in particles ==> p.life > 0.0)
      ensures totalScore - old(totalScore) == levelScore - old(levelScore) == 10 * (|old(bricks)| - |bricks|)
      ensures |particles| == |old(particles)| + 27 * (|old(bricks)| - |bricks|)
      ensures |bricks| <= |old(bricks)|
      ensures cleared <==> bricks == []
      ensures old(lives) - |old(balls)| <= lives <= old(lives)
      ensures lives < old(lives) ==> loseShown && balls == [MakeBall(level, worldW, paddle.y, leftward)]
      ensures lives == old(lives) ==> loseShown == old(loseShown)
      ensures cleared <==> FrameBricks(old(bricks), old(balls), paddle, level, dt, worldW) == []
      ensures !cleared ==> bricks == FrameBricks(old(bricks), old(balls), paddle, level, dt, worldW)
      ensures !cleared && lives == old(lives) ==> balls == FrameBalls(old(bricks), old(balls), paddle, level, dt, worldW)
      ensures lives < old(lives) <==> LossAmong(old(bricks), old(balls), |old(balls)|, paddle, level, dt, worldW, worldH)
    {
      var snapshot := balls;
      var replaced := false;
      cleared := false;
      for j := 0 to |snapshot|
        invariant 1 <= |balls| <= 3 && (forall p :: p in particles ==> p.life > 0.0)
        invariant bricks != []
        invariant totalScore - old(totalScore) == levelScore - old(levelScore) == 10 * (|old(bricks)| - |bricks|)
        invariant |particles| == |old(particles)| + 27 * (|old(bricks)| - |bricks|)
        invariant |bricks| <= |old(bricks)|
        invariant bricks == FrameBricks(old(bricks), snapshot[..j], paddle, level, dt, worldW)
        invariant old(lives) - j <= lives <= old(lives)
        invariant replaced <==> lives < old(lives)
        invariant replaced <==> LossAmong(old(bricks), snapshot, j, paddle, level, dt, worldW, worldH)
        invariant replaced ==> loseShown && balls == [MakeBall(level, worldW, paddle.y, leftward)]
        invariant !replaced ==> loseShown == old(loseShown)
        invariant !replaced ==> balls == FrameBalls(old(bricks), snapshot[..j], paddle, level, dt, worldW) + snapshot[j..]
      {
        replaced, cleared := TakeTurn(j, snapshot[j], replaced, dt, leftward, sparkLife, old(bricks), snapshot);
        if cleared {
          FrameBricksStaysEmpty(old(bricks), snapshot, j + 1, paddle, level, dt, worldW);
          LossAmongSettles(old(bricks), snapshot, j + 1, |snapshot|, paddle, level, dt, worldW, worldH);
          return;
        }
      }
      assert snapshot[..|snapshot|] == snapshot && snapshot[|snapshot|..] == [];
    }

    /** Ball j's turn, stated against the frame so far: afterwards the bricks are those the
        first j + 1 balls of the starting list leave, and while the list is still `balls`,
        its first j + 1 balls have taken their turns. */
    method TakeTurn(j: nat, b: Ball, replaced: bool, dt: real, leftward: bool, sparkLife: real,
                    ghost bs0: seq<Brick>, ghost snapshot: seq<Ball>)
        returns (nowReplaced: bool, cleared: bool)
      requires 1 <= level <= MaxLevel && paddle.w > 0.0 && bricks != [] && sparkLife > 0.0
      requires 1 <= |balls| <= 3 && (forall p :: p in particles ==> p.life > 0.0)
      requires j < |snapshot| && b == snapshot[j]
      requires bricks == FrameBricks(bs0, snapshot[..j], paddle, level, dt, worldW)
      requires replaced ==> balls == [MakeBall(level, worldW, paddle.y, leftward)]
      requires !replaced ==> balls == FrameBalls(bs0, snapshot[..j], paddle, level, dt, worldW) + snapshot[j..]
      requires replaced <==> LossAmong(bs0, snapshot, j, paddle, level, dt, worldW, worldH)
      modifies this`balls, this`bricks, this`totalScore, this`levelScore, this`particles, this`lives, this`loseShown
      ensures 1 <= |balls| <= 3 && (forall p :: p in particles ==> p.life > 0.0)
      ensures totalScore - old(totalScore) == levelScore - old(levelScore) == 10 * (|old(bricks)| - |bricks|)
      ensures |particles| == |old(particles)| + 27 * (|old(bricks)| - |bricks|)
      ensures |bricks| <= |old(bricks)|
      ensures cleared <==> bricks == []
      ensures old(lives) - 1 <= lives <= old(lives)
      ensures nowReplaced <==> replaced || lives < old(lives)
      ensures nowReplaced ==> balls == [MakeBall(level, worldW, paddle.y, leftward)]
      ensures lives < old(lives) ==> loseShown
      ensures lives == old(lives) ==> loseShown == old(loseShown)
      ensures bricks == FrameBricks(bs0, snapshot[..j + 1], paddle, level, dt, worldW)
      ensures !nowReplaced && !cleared ==>
                balls == FrameBalls(bs0, snapshot[..j + 1], paddle, level, dt, worldW) + snapshot[j + 1..]
      ensures nowReplaced <==> LossAmong(bs0, snapshot, j + 1, paddle, level, dt, worldW, worldH)
    {
      ghost var standing := bricks;
      if !replaced {
        SpliceIn(FrameBalls(bs0, snapshot[..j], paddle, level, dt, worldW), snapshot[j..], Integrate(b, dt, worldW));
        assert snapshot[j..][1..] == snapshot[j + 1..];
      }
      ghost var pre;
      nowReplaced, cleared, pre := StepBall(j, b, replaced, dt, leftward, sparkLife);
      BallTurn(standing, b, pre, paddle, level, dt, worldW);
      FrameBricksStep(bs0, snapshot, j, paddle, level, dt, worldW);
      if !nowReplaced && !cleared {
        FrameBallsStep(bs0, snapshot, j, paddle, level, dt, worldW);
        SpliceIn(FrameBalls(bs0, snapshot[..j], paddle, level, dt, worldW), snapshot[j..], balls[j]);
        assert snapshot[j..][1..] == snapshot[j + 1..];
      }
    }

    /** The body of the ball loop for ball number j of the starting list, b. While `replaced`
        is false, `balls` is still the starting list and b's new state is written back into
        it; afterwards b moves, bounces and breaks bricks unseen. */
    method StepBall(j: nat, b: Ball, replaced: bool, dt: real, leftward: bool, sparkLife: real)
        returns (nowReplaced: bool, cleared: bool, ghost pre: Ball)
      requires 1 <= level <= MaxLevel && paddle.w > 0.0 && bricks != [] && sparkLife > 0.0
      requires 1 <= |balls| <= 3 && (forall p :: p in particles ==> p.life > 0.0)
      requires replaced ==> balls == [MakeBall(level, worldW, paddle.y, leftward)]
      requires !replaced ==> j < |balls| && balls[j] == b
      modifies this`balls, this`bricks, this`totalScore, this`levelScore, this`particles, this`lives, this`loseShown
      ensures 1 <= |balls| <= 3 && (forall p :: p in particles ==> p.life > 0.0)
      ensures totalScore - old(totalScore) == levelScore - old(levelScore) == 10 * (|old(bricks)| - |bricks|)
      ensures |particles| == |old(particles)| + 27 * (|old(bricks)| - |bricks|)
      ensures |bricks| <= |old(bricks)|
      ensures cleared <==> bricks == []
      ensures old(lives) - 1 <= lives <= old(lives)
      ensures nowReplaced <==> replaced || lives < old(lives)
      ensures nowReplaced ==> balls == [MakeBall(level, worldW, paddle.y, leftward)]
      ensures lives < old(lives) ==> loseShown
      ensures lives == old(lives) ==> loseShown == old(loseShown)
      ensures b.launched ==> pre == PreScan(b, paddle, level, dt, worldW)
      ensures bricks == if b.launched then Survivors(old(bricks), pre) else old(bricks)
      ensures !nowReplaced && !cleared ==> |balls| == |old(balls)| && balls == old(balls)[j := balls[j]]
      ensures !nowReplaced && !cleared && !b.launched ==> balls[j] == b.(x := paddle.x + paddle.w / 2.0, y := paddle.y - 18.0)
      ensures !nowReplaced && !cleared && b.launched ==> balls[j] == ScanBall(old(bricks), pre)
      ensures lives < old(lives) <==>
                && b.launched
                && var i := Integrate(b, dt, worldW);
                   i.y - i.r > worldH && AllBelow(if replaced then old(balls) else old(balls)[j := i], worldH)
    {
      nowReplaced, cleared, pre := replaced, false, b;
      if !b.launched {
        var s := b.(x := paddle.x + paddle.w / 2.0, y := paddle.y - 18.0);
        if !replaced { balls := balls[j := s]; }
        return;
      }
      ghost var standing := bricks;
      var m;
      m, nowReplaced := MoveBall(j, b, replaced, dt, leftward);
      assert bricks == standing;
      pre := m;
      m, cleared := ScanBricks(m, sparkLife);
      assert m == ScanBall(standing, pre) && bricks == Survivors(standing, pre);
      if cleared { return; }
      if !nowReplaced { balls := balls[j := m]; }
    }

    /** The part of the ball loop's body before the brick scan, for a launched ball b: it
        moves and reflects off the walls (written back while `balls` is the loop's list), may
        cause a full loss, and bounces off the paddle if it touches it. */
    method MoveBall(j: nat, b: Ball, replaced: bool, dt: real, leftward: bool) returns (m: Ball, nowReplaced: bool)
      requires paddle.w > 0.0 && b.launched
      requires 1 <= |balls| <= 3
      requires replaced ==> balls == [MakeBall(level, worldW, paddle.y, leftward)]
      requires !replaced ==> j < |balls| && balls[j] == b
      modifies this`balls, this`lives, this`loseShown
      ensures m == PreScan(b, paddle, level, dt, worldW)
      ensures 1 <= |balls| <= 3
      ensures old(lives) - 1 <= lives <= old(lives)
      ensures nowReplaced <==> replaced || lives < old(lives)
      ensures nowReplaced ==> balls == [MakeBall(level, worldW, paddle.y, leftward)]
      ensures lives < old(lives) ==> loseShown
      ensures lives == old(lives) ==> loseShown == old(loseShown)
      ensures !nowReplaced ==> |balls| == |old(balls)| && balls == old(balls)[j := Integrate(b, dt, worldW)]
      ensures lives < old(lives) <==>
                var i := Integrate(b, dt, worldW);
                i.y - i.r > worldH && AllBelow(if replaced then old(balls) else old(balls)[j := i], worldH)
    {
      m := Integrate(b, dt, worldW);
      if !replaced { balls := balls[j := m]; }
      var lost := CheckLoss(m, leftward);
      nowReplaced := replaced || lost;
      if CircleRect(m.x, m.y, m.r, paddle.x, paddle.y, paddle.w, paddle.h) {
        m := PaddleBounce(m, paddle, level);
      }
    }

    /** The particle pass of update, from the last particle to the first: each particle is
        stepped, and removed once its life has run out. */
    method AgeParticles(dt: real)
      modifies this`particles
      ensures particles == Aged(old(particles), dt)
    {
      ghost var all := particles;
      var ps := particles;
      var i := |ps| - 1;
      while i >= 0
        invariant -1 <= i < |all|
        invariant ps == all[..i + 1] + Aged(all[i + 1..], dt)
      {
        var p := StepParticle(ps[i], dt);
        AgeAdvance(all, i, ps, dt);
        if p.life <= 0.0 {
          ps := ps[..i] + ps[i + 1..];
        } else {
          ps := ps[..i] + [p] + ps[i + 1..];
        }
        i := i - 1;
      }
      particles := ps;
      assert all[0..] == all;
    }
  }

  /** One step of the backward particle pass: particle i is stepped, then dropped or kept. */
  lemma AgeAdvance(all: seq<Particle>, i: int, ps: seq<Particle>, dt: real)
    requires 0 <= i < |all| && ps == all[..i + 1] + Aged(all[i + 1..], dt)
    ensures ps[i] == all[i]
    ensures StepParticle(all[i], dt).life <= 0.0 ==> ps[..i] + ps[i + 1..] == all[..i] + Aged(all[i..], dt)
    ensures StepParticle(all[i], dt).life > 0.0 ==>
      ps[..i] + [StepParticle(all[i], dt)] + ps[i + 1..] == all[..i] + Aged(all[i..], dt)
  {
    assert all[..i + 1] == all[..i] + [all[i]];
    assert all[i..] == [all[i]] + all[i + 1..];
    assert ps[..i] == all[..i];
    assert ps[i + 1..] == Aged(all[i + 1..], dt);
  }

  /** The nested row/column loop of generateLevel(n) in a world w wide: the bricks are laid
      out row by row, left to right, until the level's count is reached. */
  method LayOutBricks(n: int, w: real) returns (layout: seq<Brick>)
    requires n >= 1
    ensures layout == LevelBricks(n, w)
  {
    var count := BrickCount(n);
    layout := [];
    var cols := Cols(count);
    var rows := Rows(count, cols);
    var gridW := w - Margin * 2.0;
    var bw := Max(50.0, ((gridW / cols as real).Floor - 10) as real);
    GridHoldsCount(count);
    var placed := 0;
    var r := 0;
    while r < rows
      invariant 0 <= r <= rows
      invariant placed == MinInt(r * cols, count)
      invariant layout == LevelBricks(n, w)[..placed]
    {
      placed, layout := LayOutRow(n, w, bw, r, placed, layout);
      r := r + 1;
    }
    assert placed == count;
  }

  /** One pass of the inner loop: row r gets up to cols bricks, fewer once the level's count
      is reached. */
  method LayOutRow(n: int, w: real, bw: real, r: nat, placed0: nat, layout0: seq<Brick>)
    returns (placed: nat, layout: seq<Brick>)
    requires n >= 1 && bw == BrickWidth(n, w)
    requires placed0 == MinInt(r * LevelCols(n), BrickCount(n))
    requires layout0 == LevelBricks(n, w)[..placed0]
    ensures placed == MinInt((r + 1) * LevelCols(n), BrickCount(n))
    ensures layout == LevelBricks(n, w)[..placed]
  {
    var count, cols := BrickCount(n), LevelCols(n);
    ghost var rowStart := r * cols;
    placed, layout := placed0, layout0;
    var c := 0;
    while c < cols
      invariant 0 <= c <= cols
      invariant placed == MinInt(rowStart + c, count)
      invariant layout == LevelBricks(n, w)[..placed]
    {
      if placed >= count { break; }
      var br := PlaceBrick(n, bw, r, c);
      PlaceNext(n, w, r, c, placed, layout, br);
      layout := layout + [br];
      placed := placed + 1;
      c := c + 1;
    }
    assert (r + 1) * cols == rowStart + cols;
  }

  /** `x | 0` without the 32-bit wrap: x rounded toward zero. */
  function Truncate(x: real): (t: int)
    ensures x >= 0.0 ==> t as real <= x < t as real + 1.0
    ensures x < 0.0 ==> t as real - 1.0 < x <= t as real
  {
    if x >= 0.0 then x.Floor else -((-x).Floor)
  }

  function MinInt(a: int, b: int): int { if a <= b then a else b }

  /** The body of the inner loop: the brick of row r and column c, shifted on odd rows and
      columns by the level's offsets, coloured by (r + c) % 4. */
  method PlaceBrick(n: int, bw: real, r: nat, c: nat) returns (br: Brick)
    ensures br == BrickInCell(n, bw, r, c)
  {
    var bh := BrickHeight;
    var xoff := if n % 2 == 0 then 0.0 else 0.5;
    var yoff := if n % 3 == 0 then 0.5 else 0.0;
    var x := Margin + c as real * (bw + BrickGap) + (if c % 2 == 1 then xoff * 12.0 else 0.0);
    var y := Margin + r as real * (bh + BrickGap) + (if r % 2 == 1 then yoff * 12.0 else 0.0);
    br := Brick(x, y, bw, bh, 1, (r + c) % 4);
  }

  /** Appending the brick of row r, column c extends the laid-out prefix by one. */
  lemma PlaceNext(n: int, w: real, r: nat, c: nat, placed: nat, layout: seq<Brick>, br: Brick)
    requires n >= 1 && c < LevelCols(n) && placed == r * LevelCols(n) + c < BrickCount(n)
    requires layout == LevelBricks(n, w)[..placed]
    requires br == BrickInCell(n, BrickWidth(n, w), r, c)
    ensures layout + [br] == LevelBricks(n, w)[..placed + 1]
  {
    CellIndex(n, w, r, c);
    assert LevelBricks(n, w)[..placed + 1] == LevelBricks(n, w)[..placed] + [LevelBricks(n, w)[placed]];
  }

  /** The brick in row r and column c is the (r * cols + c)-th one placed. */
  lemma CellIndex(n: int, w: real, r: nat, c: nat)
    requires n >= 1 && c < LevelCols(n) && r * LevelCols(n) + c < BrickCount(n)
    ensures LevelBricks(n, w)[r * LevelCols(n) + c] == BrickInCell(n, BrickWidth(n, w), r, c)
  {
    DivModCell(r, c, LevelCols(n));
  }

  /** One step of the reverse brick scan at index i: the brick looked at there is all[i], and
      testing it against the current ball (which has b0's position and size) either splices
      it out and deflects the ball, or keeps both, as Survivors and ScanBall say. */
  lemma ScanAdvance(all: seq<Brick>, b0: Ball, i: int, bs: seq<Brick>, b: Ball)
    requires 0 <= i < |all|
    requires bs == all[..i + 1] + Survivors(all[i + 1..], b0)
    requires b == ScanBall(all[i + 1..], b0)
    ensures i < |bs| && bs[i] == all[i]
    ensures var hit := Aabb(b.x - b.r, b.y - b.r, b.r * 2.0, b.r * 2.0, all[i].x, all[i].y, all[i].w, all[i].h);
            && (hit ==> bs[..i] + bs[i + 1..] == all[..i] + Survivors(all[i..], b0)
                        && BrickBounce(b, all[i]) == ScanBall(all[i..], b0))
            && (!hit ==> bs == all[..i] + Survivors(all[i..], b0) && b == ScanBall(all[i..], b0))
  {
    var rest := Survivors(all[i + 1..], b0);
    assert all[..i + 1] == all[..i] + [all[i]];
    ScanStep(all, b0, i);
    SpliceOut(all[..i], all[i], rest);
  }

  /** Writing x over the first element of rest, just after done. */
  lemma SpliceIn<T>(done: seq<T>, rest: seq<T>, x: T)
    requires rest != []
    ensures (done + rest)[|done| := x] == done + [x] + rest[1..]
  {
  }

  /** Splicing x out of a + [x] + s leaves a + s; keeping it changes nothing. */
  lemma SpliceOut<T>(a: seq<T>, x: T, s: seq<T>)
    ensures var t := a + [x] + s; t[..|a|] + t[|a| + 1..] == a + s
    ensures a + [x] + s == a + ([x] + s)
  {
    var t := a + [x] + s;
    assert t[..|a|] == a && t[|a| + 1..] == s;
  }

  /** Two lists of live particles make one. */
  lemma AllAlive(ps: seq<Particle>, qs: seq<Particle>)
    requires forall p :: p in ps ==> p.life > 0.0
    requires forall q :: q in qs ==> q.life > 0.0
    ensures forall p :: p in ps + qs ==> p.life > 0.0
  {
  }

  /** k more bricks scored on both counters keep them multiples of 10, the level's within the total's. */
  lemma ScoresStep(total: int, levelPoints: int, k: nat, total': int, levelPoints': int)
    requires 0 <= levelPoints <= total && levelPoints % 10 == 0 && total % 10 == 0
    requires total' == total + 10 * k && levelPoints' == levelPoints + 10 * k
    ensures 0 <= levelPoints' <= total' && levelPoints' % 10 == 0 && total' % 10 == 0
  {
  }

  lemma AppendBurst(ps: seq<Particle>, x: real, y: real, sparkLife: real, k: nat)
    ensures ps + Bursts(x, y, sparkLife, k) + Burst(x, y, sparkLife) == ps + Bursts(x, y, sparkLife, k + 1)
  {
  }

  /** Net horizontal input: -1 for the left arrow, +1 for the right, 0 for both or neither. */
  function Intent(leftHeld: bool, rightHeld: bool): (v: real)
    ensures -1.0 <= v <= 1.0
    ensures leftHeld == rightHeld ==> v == 0.0
    ensures leftHeld && !rightHeld ==> v == -1.0
    ensures rightHeld && !leftHeld ==> v == 1.0
  {
    (if rightHeld then 1.0 else 0.0) - (if leftHeld then 1.0 else 0.0)
  }

  /** (r * cols + c) lies in row r and column c of a grid with cols columns. */
  lemma DivModCell(r: nat, c: nat, cols: nat)
    requires c < cols
    ensures (r * cols + c) / cols == r && (r * cols + c) % cols == c
  {
    var a := r * cols + c;
    var q, m := a / cols, a % cols;
    assert a == q * cols + m;
    assert (q - r) * cols == c - m;
    MulAtLeast(q - r, cols);
    MulAtLeast(r - q, cols);
    assert (r - q) * cols == m - c;
  }

  lemma MulAtLeast(k: int, c: int)
    ensures k >= 1 && c >= 0 ==> k * c >= c
  {
    if k >= 1 && c >= 0 {
      assert k * c - c == (k - 1) * c;
    }
  }
}
