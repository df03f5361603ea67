// The death callbacks of the current API (`on_bullet_dead` in
// src/ecs/weapon.rs, `on_enemy_ded` in src/ecs/enemy.rs, `on_player_ded` in
// src/ecs/player.rs). All three queue the same explosion record and differ
// only in its on-screen size, so a `Health` stores which reaction it has
// (Components.DeathReaction) and this module gives the records it queues.

module Effects {
  import opened Vectors
  import opened Ecs
  import opened Components
  import opened Animations

  /** How far `Vec2::randomize` may move an explosion from the point of death. */
  const EXPLOSION_SPREAD: real := 10.0

  /** Side of an explosion sprite's source rectangle on its sheet. */
  const EXPLOSION_FRAME_SIZE: nat := 64

  /** Seconds an explosion stays in the world. */
  const EXPLOSION_LIFETIME: real := 0.5

  /** The components queued for one explosion entity. */
  datatype Explosion = Explosion(position: Position, sprite: Sprite, animation: Animation, lifetime: Lifetime)

  /** `Vec2::randomize`: `origin` moved by `offset`, whose components are the
      two draws from [-spread, spread). */
  function Randomize(origin: Vec2, spread: real, offset: Vec2): (r: Vec2)
    requires -spread <= offset.x < spread && -spread <= offset.y < spread
    ensures origin.x - spread <= r.x < origin.x + spread
    ensures origin.y - spread <= r.y < origin.y + spread
    ensures r.Sub(origin) == offset
  {
    origin.Add(offset)
  }

  /** The explosion record a death callback queues at `at`, `size` pixels
      wide on screen. */
  function ExplosionAt(size: int, at: Vec2, offset: Vec2): Explosion
    requires -EXPLOSION_SPREAD <= offset.x < EXPLOSION_SPREAD && -EXPLOSION_SPREAD <= offset.y < EXPLOSION_SPREAD
  {
    Explosion(
      Position(Randomize(at, EXPLOSION_SPREAD, offset)),
      Sprite(EXPLOSION_SPRITE_ID, Rect(0, 0, EXPLOSION_FRAME_SIZE, EXPLOSION_FRAME_SIZE), Point(size, size)),
      Animation.New(30, 4, 4),
      Lifetime(EXPLOSION_LIFETIME))
  }

  /** The records queued when an entity whose health has reaction `reaction`
      dies at `at`; `offset` stands for the random jitter. */
  function OnDeath(reaction: DeathReaction, at: Vec2, offset: Vec2): (r: seq<Explosion>)
    requires -EXPLOSION_SPREAD <= offset.x < EXPLOSION_SPREAD && -EXPLOSION_SPREAD <= offset.y < EXPLOSION_SPREAD
    ensures |r| <= 1
    ensures r == [] <==> reaction == NoEffect
    ensures forall x :: x in r ==>
      && at.x - EXPLOSION_SPREAD <= x.position.X() < at.x + EXPLOSION_SPREAD
      && at.y - EXPLOSION_SPREAD <= x.position.Y() < at.y + EXPLOSION_SPREAD
      && x.sprite.size == Point(reaction.size, reaction.size)
  {
    match reaction
    case NoEffect => []
    case SpawnExplosion(size) => [ExplosionAt(size, at, offset)]
  }

  /** An explosion is gone before its animation runs off the sheet: while
      the time that has passed since it was queued is within its lifetime, its
      frame index stays below the sheet's frame count. */
  lemma DeathExplosionStaysOnSheet(reaction: DeathReaction, at: Vec2, offset: Vec2, deltas: seq<real>)
    requires -EXPLOSION_SPREAD <= offset.x < EXPLOSION_SPREAD && -EXPLOSION_SPREAD <= offset.y < EXPLOSION_SPREAD
    requires forall i :: 0 <= i < |deltas| ==> deltas[i] >= 0.0
    ensures forall x :: x in OnDeath(reaction, at, offset) && Sum(deltas) <= x.lifetime.timeLeft ==>
      x.animation.sheetColumns > 0 &&
      UpdateAll(x.animation, deltas, x.sprite.srcRect).0.internalIndex < x.animation.FrameCount()
  {
    if reaction.SpawnExplosion? && Sum(deltas) <= EXPLOSION_LIFETIME {
      var x := ExplosionAt(reaction.size, at, offset);
      ExplosionStaysOnSheet(deltas, x.sprite.srcRect);
    }
  }
}
