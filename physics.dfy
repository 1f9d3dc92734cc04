/** The per-ball and per-particle steps of `update` in main.js, as functions on values, and
    the specifications of the reverse brick scan, of the particle pass and of the whole ball
    loop of a frame. */
module Physics {
  import opened Utils
  import opened Collision
  import opened Entities
  import opened Levels

  /** Per-update-call velocity damping of particles (not scaled by dt). */
  const Damping: real := 0.99

  /** Moving a launched ball for dt seconds and bouncing it off the left, right and top
      walls; the bottom is open. */
  function Integrate(b: Ball, dt: real, worldW: real): (m: Ball)
    ensures m.r == b.r && m.launched == b.launched
    ensures Abs(m.vx) == Abs(b.vx) && Abs(m.vy) == Abs(b.vy)
    ensures m.x + m.r <= worldW
    ensures m.y - m.r >= 0.0
    ensures worldW >= 2.0 * b.r ==> m.x - m.r >= 0.0
    ensures var x := b.x + b.vx * dt;
            && (x - b.r >= 0.0 && x + b.r <= worldW ==> m.x == x && m.vx == b.vx)
            && (x - b.r < 0.0 && 2.0 * b.r <= worldW ==> m.x == b.r && m.vx == -b.vx)
            && (x - b.r >= 0.0 && x + b.r > worldW ==> m.x == worldW - b.r && m.vx == -b.vx)
    ensures var y := b.y + b.vy * dt;
            && (y - b.r >= 0.0 ==> m.y == y && m.vy == b.vy)
            && (y - b.r < 0.0 ==> m.y == b.r && m.vy == -b.vy)
  {
    var m0 := b.(x := b.x + b.vx * dt, y := b.y + b.vy * dt);
    var m1 := if m0.x - m0.r < 0.0 then m0.(x := m0.r, vx := -m0.vx) else m0;
    var m2 := if m1.x + m1.r > worldW then m1.(x := worldW - m1.r, vx := -m1.vx) else m1;
    if m2.y - m2.r < 0.0 then m2.(y := m2.r, vy := -m2.vy) else m2
  }

  /** A ball that touched the paddle: put just above it, sent upwards at least 230 * k fast
      (never slower than it came), and sideways in proportion to where it hit, k being the
      speed factor of the level. */
  function PaddleBounce(b: Ball, p: Paddle, levelNum: int): (m: Ball)
    requires p.w > 0.0
    ensures m.x == b.x && m.r == b.r && m.launched == b.launched
    ensures m.y + m.r < p.y
    ensures levelNum >= 1 ==> m.vy < 0.0 && -m.vy >= 230.0 * SpeedFactor(levelNum) && -m.vy >= Abs(b.vy)
    ensures levelNum >= 1 ==> (m.vx > 0.0 <==> b.x > p.x + p.w / 2.0) && (m.vx < 0.0 <==> b.x < p.x + p.w / 2.0)
    ensures levelNum >= 1 && p.x <= b.x <= p.x + p.w ==> Abs(m.vx) <= 330.0 * SpeedFactor(levelNum)
    ensures m.y == p.y - b.r - 0.1
    ensures m.vx == (b.x - (p.x + p.w / 2.0)) / (p.w / 2.0) * 330.0 * SpeedFactor(levelNum)
    ensures m.vy == -Max(230.0 * SpeedFactor(levelNum), Abs(b.vy))
  {
    var m0 := b.(y := p.y - b.r - 0.1, vy := -Abs(b.vy));
    var hit := (m0.x - (p.x + p.w / 2.0)) / (p.w / 2.0);
    var k := SpeedFactor(levelNum);
    var m1 := m0.(vx := hit * 330.0 * k);
    var m2 := m1.(vy := -Max(230.0 * k, Abs(m1.vy)));
    HitDirection(b.x, p.x, p.w, k);
    m2
  }

  /** The sideways speed after a paddle hit has the sign of the offset from the paddle
      centre, and is at most 330 * k when the ball is over the paddle. */
  lemma HitDirection(bx: real, px: real, pw: real, k: real)
    requires pw > 0.0
    ensures var v := ((bx - (px + pw / 2.0)) / (pw / 2.0)) * 330.0 * k;
            && (k > 0.0 ==> (v > 0.0 <==> bx > px + pw / 2.0) && (v < 0.0 <==> bx < px + pw / 2.0))
            && (k > 0.0 && px <= bx <= px + pw ==> Abs(v) <= 330.0 * k)
  {
    var half := pw / 2.0;
    var hit := (bx - (px + half)) / half;
    assert hit * half == bx - (px + half);
    if k > 0.0 {
      assert hit > 0.0 <==> bx > px + half;
      assert hit < 0.0 <==> bx < px + half;
      if px <= bx <= px + pw {
        assert half + half == pw;
        assert -half <= bx - (px + half) <= half;
        UnitBound(hit, half);
        assert Abs(hit * 330.0 * k) == Abs(hit) * (330.0 * k);
      }
    }
  }

  lemma UnitBound(h: real, s: real)
    requires s > 0.0
    ensures -s <= h * s <= s ==> -1.0 <= h <= 1.0
  {
    if h > 1.0 {
      assert h * s - s == (h - 1.0) * s;
      assert (h - 1.0) * s > 0.0;
    } else if h < -1.0 {
      assert h * s + s == (h + 1.0) * s;
      assert (-1.0 - h) * s > 0.0;
    }
  }

  /** The ball's bounding square overlaps the brick. */
  predicate HitsBrick(b: Ball, br: Brick)
  {
    Aabb(b.x - b.r, b.y - b.r, b.r * 2.0, b.r * 2.0, br.x, br.y, br.w, br.h)
  }

  /** Horizontal and vertical offset of the brick centre from the ball centre. */
  function OffsetX(b: Ball, br: Brick): real { (br.x + br.w / 2.0) - b.x }

  function OffsetY(b: Ball, br: Brick): real { (br.y + br.h / 2.0) - b.y }

  /** A brick hit turns the ball away from the brick along the axis on which the centres are
      further apart: only that velocity component may change, and only its sign. */
  function BrickBounce(b: Ball, br: Brick): (m: Ball)
    ensures m.x == b.x && m.y == b.y && m.r == b.r && m.launched == b.launched
    ensures (m.vy == b.vy && Abs(m.vx) == Abs(b.vx)) || (m.vx == b.vx && Abs(m.vy) == Abs(b.vy))
    ensures Abs(OffsetX(b, br)) > Abs(OffsetY(b, br)) ==>
              m.vy == b.vy && (OffsetX(b, br) > 0.0 ==> m.vx <= 0.0) && (OffsetX(b, br) <= 0.0 ==> m.vx >= 0.0)
    ensures Abs(OffsetX(b, br)) <= Abs(OffsetY(b, br)) ==>
              m.vx == b.vx && (OffsetY(b, br) > 0.0 ==> m.vy <= 0.0) && (OffsetY(b, br) <= 0.0 ==> m.vy >= 0.0)
  {
    var overlapX := OffsetX(b, br);
    var overlapY := OffsetY(b, br);
    if Abs(overlapX) > Abs(overlapY) then
      b.(vx := if overlapX > 0.0 then -Abs(b.vx) else Abs(b.vx))
    else
      b.(vy := if overlapY > 0.0 then -Abs(b.vy) else Abs(b.vy))
  }

  /** One step of the brick scan: bounce off the brick if hit. */
  function Deflect(b: Ball, br: Brick): Ball
  {
    if HitsBrick(b, br) then BrickBounce(b, br) else b
  }

  /** The bricks a ball at position b leaves standing: those its bounding square misses,
      in their original order. */
  function Survivors(bs: seq<Brick>, b: Ball): (s: seq<Brick>)
    ensures |s| <= |bs|
    decreases |bs|
  {
    if bs == [] then []
    else (if HitsBrick(b, bs[0]) then [] else [bs[0]]) + Survivors(bs[1..], b)
  }

  /** The scan never adds a brick: what survives is a sub-multiset of what was there. */
  lemma {:induction false} SurvivorsSubMultiset(bs: seq<Brick>, b: Ball)
    ensures multiset(Survivors(bs, b)) <= multiset(bs)
    decreases |bs|
  {
    if bs != [] {
      SurvivorsSubMultiset(bs[1..], b);
      assert bs == [bs[0]] + bs[1..];
    }
  }

  /** A brick survives exactly when it was there and the ball's square misses it. */
  lemma {:induction false} SurvivorsExact(bs: seq<Brick>, b: Ball, br: Brick)
    ensures br in Survivors(bs, b) <==> br in bs && !HitsBrick(b, br)
    decreases |bs|
  {
    if bs != [] {
      SurvivorsExact(bs[1..], b, br);
      assert bs == [bs[0]] + bs[1..];
    }
  }

  /** Nothing is left exactly when the ball's square overlaps every brick. */
  lemma {:induction false} SurvivorsEmpty(bs: seq<Brick>, b: Ball)
    ensures Survivors(bs, b) == [] <==> forall i :: 0 <= i < |bs| ==> HitsBrick(b, bs[i])
    decreases |bs|
  {
    if bs != [] {
      SurvivorsEmpty(bs[1..], b);
      assert forall i :: 1 <= i < |bs| ==> bs[i] == bs[1..][i - 1];
    }
  }

  /** The ball after the reverse brick scan over bs: the last brick comes first. */
  function ScanBall(bs: seq<Brick>, b: Ball): (m: Ball)
    ensures m.x == b.x && m.y == b.y && m.r == b.r && m.launched == b.launched
    decreases |bs|
  {
    if bs == [] then b else Deflect(ScanBall(bs[1..], b), bs[0])
  }

  /** Scanning from index i on: brick i comes after all the later ones. */
  lemma ScanStep(bs: seq<Brick>, b: Ball, i: int)
    requires 0 <= i < |bs|
    ensures Survivors(bs[i..], b) == (if HitsBrick(b, bs[i]) then [] else [bs[i]]) + Survivors(bs[i + 1..], b)
    ensures ScanBall(bs[i..], b) == Deflect(ScanBall(bs[i + 1..], b), bs[i])
  {
    assert bs[i..][0] == bs[i] && bs[i..][1..] == bs[i + 1..];
  }

  /** The scan keeps the ball's speed on each axis, and a ball that misses every brick
      comes out unchanged. */
  lemma {:induction false} ScanBallKeepsSpeed(bs: seq<Brick>, b: Ball)
    ensures Abs(ScanBall(bs, b).vx) == Abs(b.vx) && Abs(ScanBall(bs, b).vy) == Abs(b.vy)
    ensures (forall i :: 0 <= i < |bs| ==> !HitsBrick(b, bs[i])) ==> ScanBall(bs, b) == b
    decreases |bs|
  {
    if bs != [] {
      ScanBallKeepsSpeed(bs[1..], b);
      assert forall i :: 1 <= i < |bs| ==> bs[i] == bs[1..][i - 1];
    }
  }

  /** The particles of one brick burst at (x, y): 26 sparks with the drawn life `sparkLife`
      and one short flash. */
  function Burst(x: real, y: real, sparkLife: real): (ps: seq<Particle>)
    ensures |ps| == 27
  {
    seq(26, _ => Particle(x, y, 0.0, 0.0, sparkLife, sparkLife)) + [Particle(x, y, 0.0, 0.0, 0.15, 0.15)]
  }

  /** Every particle of a burst starts at the burst's centre, and alive when the drawn
      spark life is positive. */
  lemma BurstShape(x: real, y: real, sparkLife: real)
    ensures forall p :: p in Burst(x, y, sparkLife) ==> p.x == x && p.y == y
    ensures sparkLife > 0.0 ==> forall p :: p in Burst(x, y, sparkLife) ==> p.life > 0.0
  {
  }

  /** The particles of k bursts at (x, y). */
  function Bursts(x: real, y: real, sparkLife: real, k: nat): (ps: seq<Particle>)
    ensures |ps| == 27 * k
  {
    if k == 0 then [] else Bursts(x, y, sparkLife, k - 1) + Burst(x, y, sparkLife)
  }

  /** Every burst particle starts alive when the drawn spark life is positive. */
  lemma {:induction false} BurstsAlive(x: real, y: real, sparkLife: real, k: nat)
    requires sparkLife > 0.0
    ensures forall p :: p in Bursts(x, y, sparkLife, k) ==> p.life > 0.0
  {
    if k > 0 {
      BurstsAlive(x, y, sparkLife, k - 1);
      BurstShape(x, y, sparkLife);
    }
  }

  /** One particle after one update call: moved by its velocity, slowed, and dt older. */
  function StepParticle(p: Particle, dt: real): (q: Particle)
    ensures q.life == p.life - dt && q.maxLife == p.maxLife
  {
    p.(x := p.x + p.vx, y := p.y + p.vy, vx := p.vx * Damping, vy := p.vy * Damping, life := p.life - dt)
  }

  /** The particle pass: every particle stepped, those out of life dropped. */
  function Aged(ps: seq<Particle>, dt: real): (qs: seq<Particle>)
    ensures |qs| <= |ps|
    decreases |ps|
  {
    if ps == [] then []
    else
      var q := StepParticle(ps[0], dt);
      (if q.life <= 0.0 then [] else [q]) + Aged(ps[1..], dt)
  }

  /** After the pass every particle is alive, and it is a stepped particle of before. */
  lemma {:induction false} AgedAlive(ps: seq<Particle>, dt: real)
    ensures forall q :: q in Aged(ps, dt) ==> q.life > 0.0
    ensures forall q :: q in Aged(ps, dt) ==> exists p :: p in ps && q == StepParticle(p, dt)
    decreases |ps|
  {
    if ps != [] {
      AgedAlive(ps[1..], dt);
      assert forall p :: p in ps[1..] ==> p in ps;
    }
  }

  /** A particle whose life exceeds dt survives the pass. */
  lemma {:induction false} AgedKeeps(ps: seq<Particle>, dt: real, i: int)
    requires 0 <= i < |ps| && ps[i].life > dt
    ensures StepParticle(ps[i], dt) in Aged(ps, dt)
    decreases |ps|
  {
    if i > 0 {
      AgedKeeps(ps[1..], dt, i - 1);
    }
  }

  /** No ball is inside the world any more: every ball's top edge is below the floor. */
  predicate AllBelow(bs: seq<Ball>, worldH: real)
  {
    forall i :: 0 <= i < |bs| ==> bs[i].y - bs[i].r > worldH
  }

  /** A launched ball just before its brick scan: moved and reflected off the walls, then
      bounced if it touches the paddle. A full loss does not change it. */
  function PreScan(b: Ball, p: Paddle, levelNum: int, dt: real, worldW: real): (m: Ball)
    requires p.w > 0.0
  {
    var i := Integrate(b, dt, worldW);
    if CircleRect(i.x, i.y, i.r, p.x, p.y, p.w, p.h) then PaddleBounce(i, p, levelNum) else i
  }

  /** The bricks one ball leaves standing in its turn of the frame: a resting ball breaks
      nothing, a launched one the bricks its square overlaps just before the scan. */
  function BallBricks(bs: seq<Brick>, b: Ball, p: Paddle, levelNum: int, dt: real, worldW: real): (s: seq<Brick>)
    requires p.w > 0.0
  {
    if !b.launched then bs else Survivors(bs, PreScan(b, p, levelNum, dt, worldW))
  }

  /** One ball after its turn of the frame, bs being the bricks standing when the turn
      comes: a resting ball sits on the middle of the paddle, a launched one has been moved,
      reflected, bounced off the paddle and scanned against the bricks. */
  function BallAfter(bs: seq<Brick>, b: Ball, p: Paddle, levelNum: int, dt: real, worldW: real): (m: Ball)
    requires p.w > 0.0
  {
    if !b.launched then b.(x := p.x + p.w / 2.0, y := p.y - 18.0)
    else ScanBall(bs, PreScan(b, p, levelNum, dt, worldW))
  }

  /** A ball's turn, given the ball it is just before its scan. */
  lemma BallTurn(bs: seq<Brick>, b: Ball, pre: Ball, p: Paddle, levelNum: int, dt: real, worldW: real)
    requires p.w > 0.0 && (b.launched ==> pre == PreScan(b, p, levelNum, dt, worldW))
    ensures BallBricks(bs, b, p, levelNum, dt, worldW) == if b.launched then Survivors(bs, pre) else bs
    ensures BallAfter(bs, b, p, levelNum, dt, worldW)
            == if b.launched then ScanBall(bs, pre) else b.(x := p.x + p.w / 2.0, y := p.y - 18.0)
  {
  }

  /** What one frame does to a ball that is not lost: a resting ball sits on the middle of the
      paddle; a launched one stays launched and of the same size, and ends inside the side
      walls. */
  predicate Stepped(before: Ball, after: Ball, p: Paddle, worldW: real)
  {
    if !before.launched then
      after == before.(x := p.x + p.w / 2.0, y := p.y - 18.0)
    else
      && after.launched && after.r == before.r
      && after.x + after.r <= worldW
      && (worldW >= 2.0 * before.r ==> after.x - after.r >= 0.0)
  }

  /** The bricks left once the balls of the frame have taken their turns in order. */
  function FrameBricks(bs: seq<Brick>, balls: seq<Ball>, p: Paddle, levelNum: int, dt: real, worldW: real)
    : (s: seq<Brick>)
    requires p.w > 0.0
    decreases |balls|
  {
    if balls == [] then bs
    else BallBricks(FrameBricks(bs, balls[..|balls| - 1], p, levelNum, dt, worldW), balls[|balls| - 1], p, levelNum, dt, worldW)
  }

  /** Taking the turn of ball j extends the frame by that ball. */
  lemma FrameBricksStep(bs: seq<Brick>, balls: seq<Ball>, j: nat, p: Paddle, levelNum: int, dt: real, worldW: real)
    requires p.w > 0.0 && j < |balls|
    ensures FrameBricks(bs, balls[..j + 1], p, levelNum, dt, worldW)
            == BallBricks(FrameBricks(bs, balls[..j], p, levelNum, dt, worldW), balls[j], p, levelNum, dt, worldW)
  {
    assert balls[..j + 1][..j] == balls[..j];
  }

  /** The frame never adds a brick: what is left is a sub-multiset of what was there. */
  lemma {:induction false} FrameBricksSubMultiset(bs: seq<Brick>, balls: seq<Ball>, p: Paddle, levelNum: int,
                                                  dt: real, worldW: real)
    requires p.w > 0.0
    ensures multiset(FrameBricks(bs, balls, p, levelNum, dt, worldW)) <= multiset(bs)
    decreases |balls|
  {
    if balls != [] {
      var front, last := balls[..|balls| - 1], balls[|balls| - 1];
      FrameBricksSubMultiset(bs, front, p, levelNum, dt, worldW);
      if last.launched {
        SurvivorsSubMultiset(FrameBricks(bs, front, p, levelNum, dt, worldW), PreScan(last, p, levelNum, dt, worldW));
      }
    }
  }

  /** The balls after the frame, ball k having met the bricks the balls before it left. */
  function FrameBalls(bs: seq<Brick>, balls: seq<Ball>, p: Paddle, levelNum: int, dt: real, worldW: real)
    : (ms: seq<Ball>)
    requires p.w > 0.0
    ensures |ms| == |balls|
    decreases |balls|
  {
    if balls == [] then []
    else
      var front := balls[..|balls| - 1];
      FrameBalls(bs, front, p, levelNum, dt, worldW)
        + [BallAfter(FrameBricks(bs, front, p, levelNum, dt, worldW), balls[|balls| - 1], p, levelNum, dt, worldW)]
  }

  /** Taking the turn of ball j appends that ball's new state. */
  lemma FrameBallsStep(bs: seq<Brick>, balls: seq<Ball>, j: nat, p: Paddle, levelNum: int, dt: real, worldW: real)
    requires p.w > 0.0 && j < |balls|
    ensures FrameBalls(bs, balls[..j + 1], p, levelNum, dt, worldW)
            == FrameBalls(bs, balls[..j], p, levelNum, dt, worldW)
               + [BallAfter(FrameBricks(bs, balls[..j], p, levelNum, dt, worldW), balls[j], p, levelNum, dt, worldW)]
  {
    assert balls[..j + 1][..j] == balls[..j];
  }

  /** Ball k after the frame is ball k after its own turn, taken among the bricks the balls
      before it left. */
  lemma {:induction false} FrameBallsAt(bs: seq<Brick>, balls: seq<Ball>, k: int, p: Paddle, levelNum: int,
                                        dt: real, worldW: real)
    requires p.w > 0.0 && 0 <= k < |balls|
    ensures FrameBalls(bs, balls, p, levelNum, dt, worldW)[k]
            == BallAfter(FrameBricks(bs, balls[..k], p, levelNum, dt, worldW), balls[k], p, levelNum, dt, worldW)
    decreases |balls|
  {
    var front := balls[..|balls| - 1];
    if k == |balls| - 1 {
      assert front == balls[..k];
    } else {
      FrameBallsAt(bs, front, k, p, levelNum, dt, worldW);
      assert front[..k] == balls[..k] && front[k] == balls[k];
    }
  }

  /** A ball's turn is a step: a resting ball sits on the paddle, a launched one stays
      launched, keeps its size and ends inside the side walls. */
  lemma BallAfterStepped(bs: seq<Brick>, b: Ball, p: Paddle, levelNum: int, dt: real, worldW: real)
    requires p.w > 0.0
    ensures Stepped(b, BallAfter(bs, b, p, levelNum, dt, worldW), p, worldW)
  {
  }

  /** Every ball's turn of the frame is a step. */
  lemma FrameBallsStepped(bs: seq<Brick>, balls: seq<Ball>, p: Paddle, levelNum: int, dt: real, worldW: real)
    requires p.w > 0.0
    ensures forall k :: 0 <= k < |balls| ==> Stepped(balls[k], FrameBalls(bs, balls, p, levelNum, dt, worldW)[k], p, worldW)
  {
    forall k | 0 <= k < |balls|
      ensures Stepped(balls[k], FrameBalls(bs, balls, p, levelNum, dt, worldW)[k], p, worldW)
    {
      FrameBallsAt(bs, balls, k, p, levelNum, dt, worldW);
      BallAfterStepped(FrameBricks(bs, balls[..k], p, levelNum, dt, worldW), balls[k], p, levelNum, dt, worldW);
    }
  }

  /** Once no brick is left, later balls leave none either. */
  lemma {:induction false} FrameBricksStaysEmpty(bs: seq<Brick>, balls: seq<Ball>, j: nat, p: Paddle, levelNum: int,
                                                 dt: real, worldW: real)
    requires p.w > 0.0 && j <= |balls|
    requires FrameBricks(bs, balls[..j], p, levelNum, dt, worldW) == []
    ensures FrameBricks(bs, balls, p, levelNum, dt, worldW) == []
    decreases |balls|
  {
    if j == |balls| {
      assert balls[..j] == balls;
    } else {
      var front := balls[..|balls| - 1];
      assert front[..j] == balls[..j];
      FrameBricksStaysEmpty(bs, front, j, p, levelNum, dt, worldW);
    }
  }

  /** Ball b leaves brick br standing in its turn: it rests, or its square misses br just
      before the scan. */
  predicate Spares(b: Ball, br: Brick, p: Paddle, levelNum: int, dt: real, worldW: real)
    requires p.w > 0.0
  {
    !b.launched || !HitsBrick(PreScan(b, p, levelNum, dt, worldW), br)
  }

  /** A brick is left after the frame exactly when it was there and every ball of the frame
      spares it. */
  lemma {:induction false} FrameBricksExact(bs: seq<Brick>, balls: seq<Ball>, br: Brick, p: Paddle, levelNum: int,
                                            dt: real, worldW: real)
    requires p.w > 0.0
    ensures br in FrameBricks(bs, balls, p, levelNum, dt, worldW) <==>
            br in bs && forall k :: 0 <= k < |balls| ==> Spares(balls[k], br, p, levelNum, dt, worldW)
    decreases |balls|
  {
    if balls != [] {
      var n := |balls| - 1;
      var front := balls[..n];
      FrameBricksExact(bs, front, br, p, levelNum, dt, worldW);
      var before := FrameBricks(bs, front, p, levelNum, dt, worldW);
      assert FrameBricks(bs, balls, p, levelNum, dt, worldW) == BallBricks(before, balls[n], p, levelNum, dt, worldW);
      BallBricksExact(before, balls[n], br, p, levelNum, dt, worldW);
      SparesSplit(balls, br, p, levelNum, dt, worldW);
    }
  }

  /** One ball's turn leaves br exactly when br was there and the ball spares it. */
  lemma BallBricksExact(bs: seq<Brick>, b: Ball, br: Brick, p: Paddle, levelNum: int, dt: real, worldW: real)
    requires p.w > 0.0
    ensures br in BallBricks(bs, b, p, levelNum, dt, worldW) <==> br in bs && Spares(b, br, p, levelNum, dt, worldW)
  {
    if b.launched {
      SurvivorsExact(bs, PreScan(b, p, levelNum, dt, worldW), br);
    }
  }

  /** Every ball spares br exactly when all but the last do and the last does. */
  lemma SparesSplit(balls: seq<Ball>, br: Brick, p: Paddle, levelNum: int, dt: real, worldW: real)
    requires p.w > 0.0 && balls != []
    ensures var n := |balls| - 1;
            (forall k :: 0 <= k < |balls| ==> Spares(balls[k], br, p, levelNum, dt, worldW)) <==>
            (forall k :: 0 <= k < n ==> Spares(balls[..n][k], br, p, levelNum, dt, worldW))
            && Spares(balls[n], br, p, levelNum, dt, worldW)
  {
    var n := |balls| - 1;
    assert forall k :: 0 <= k < n ==> balls[..n][k] == balls[k];
  }

  /** Balls resting on the paddle break no bricks. */
  lemma {:induction false} FrameBricksResting(bs: seq<Brick>, balls: seq<Ball>, p: Paddle, levelNum: int,
                                              dt: real, worldW: real)
    requires p.w > 0.0
    requires forall k :: 0 <= k < |balls| ==> !balls[k].launched
    ensures FrameBricks(bs, balls, p, levelNum, dt, worldW) == bs
    decreases |balls|
  {
    if balls != [] {
      var front := balls[..|balls| - 1];
      assert forall k :: 0 <= k < |front| ==> front[k] == balls[k];
      FrameBricksResting(bs, front, p, levelNum, dt, worldW);
    }
  }

  /** Ball k of the frame costs a life, as long as no earlier ball has: it is launched and,
      once moved and reflected, it and every ball of the list the loss check sees are below
      the floor. That list holds the balls before k after their turns, ball k moved, and the
      balls after k as they were. */
  predicate LossAt(bs: seq<Brick>, balls: seq<Ball>, k: int, p: Paddle, levelNum: int, dt: real, worldW: real,
                  worldH: real)
    requires p.w > 0.0 && 0 <= k < |balls|
  {
    && balls[k].launched
    && var i := Integrate(balls[k], dt, worldW);
       && i.y - i.r > worldH
       && AllBelow(FrameBalls(bs, balls[..k], p, levelNum, dt, worldW) + [i] + balls[k + 1..], worldH)
  }

  /** One of the first n balls of the frame costs a life: a ball whose turn comes while
      bricks are still standing, the first such ball to lose. */
  predicate LossAmong(bs: seq<Brick>, balls: seq<Ball>, n: nat, p: Paddle, levelNum: int, dt: real, worldW: real,
                      worldH: real)
    requires p.w > 0.0 && n <= |balls|
    decreases n
  {
    && n > 0
    && (|| LossAmong(bs, balls, n - 1, p, levelNum, dt, worldW, worldH)
        || (FrameBricks(bs, balls[..n - 1], p, levelNum, dt, worldW) != [] && LossAt(bs, balls, n - 1, p, levelNum, dt, worldW, worldH)))
  }

  /** A life is lost among the first n balls exactly when some ball k < n, reached while
      bricks were standing, is a loss. */
  lemma {:induction false} LossAmongExists(bs: seq<Brick>, balls: seq<Ball>, n: nat, p: Paddle, levelNum: int,
                                           dt: real, worldW: real, worldH: real)
    requires p.w > 0.0 && n <= |balls|
    ensures LossAmong(bs, balls, n, p, levelNum, dt, worldW, worldH) <==>
            exists k :: 0 <= k < n && FrameBricks(bs, balls[..k], p, levelNum, dt, worldW) != []
                        && LossAt(bs, balls, k, p, levelNum, dt, worldW, worldH)
    decreases n
  {
    if n > 0 {
      LossAmongExists(bs, balls, n - 1, p, levelNum, dt, worldW, worldH);
    }
  }

  /** Once the bricks are gone the frame is over: no later ball adds a loss. */
  lemma {:induction false} LossAmongSettles(bs: seq<Brick>, balls: seq<Ball>, j: nat, n: nat, p: Paddle,
                                            levelNum: int, dt: real, worldW: real, worldH: real)
    requires p.w > 0.0 && j <= n <= |balls|
    requires FrameBricks(bs, balls[..j], p, levelNum, dt, worldW) == []
    ensures LossAmong(bs, balls, n, p, levelNum, dt, worldW, worldH) == LossAmong(bs, balls, j, p, levelNum, dt, worldW, worldH)
    decreases n
  {
    if n > j {
      LossAmongSettles(bs, balls, j, n - 1, p, levelNum, dt, worldW, worldH);
      var front := balls[..n - 1];
      assert front[..j] == balls[..j];
      FrameBricksStaysEmpty(bs, front, j, p, levelNum, dt, worldW);
    }
  }

  /** A single launched ball that leaves through the floor costs a life. */
  lemma SoleBallLost(bs: seq<Brick>, b: Ball, p: Paddle, levelNum: int, dt: real, worldW: real, worldH: real)
    requires p.w > 0.0 && bs != [] && b.launched
    requires Integrate(b, dt, worldW).y - Integrate(b, dt, worldW).r > worldH
    ensures LossAmong(bs, [b], 1, p, levelNum, dt, worldW, worldH)
  {
    assert [b][..0] == [] && [b][1..] == [];
  }
}
