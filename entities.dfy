/** The game's entities as plain records (main.js:133-137, 173, 207-214, 219). */
module Entities {

  /** A ball; `launched == false` means it rests on the paddle. */
  datatype Ball = Ball(x: real, y: real, vx: real, vy: real, r: real, launched: bool)

  /** A brick; `color` is the index into the four-colour brick palette. */
  datatype Brick = Brick(x: real, y: real, w: real, h: real, hp: int, color: nat)

  /** A particle of a burst; `maxLife` is its life at creation (used only for fading). */
  datatype Particle = Particle(x: real, y: real, vx: real, vy: real, life: real, maxLife: real)

  /** The paddle; only `x` ever changes. */
  datatype Paddle = Paddle(x: real, y: real, w: real, h: real, speed: real)
}
