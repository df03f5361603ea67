// The component records of the older API that src/ecs/systems.rs and
// src/ecs/collision.rs are written against. The file that declared them is
// not part of this model; the records below hold exactly the fields those two
// files read and write (`pos.x`, `vel.y`, `collider.id`, `weapon.wants_to_fire`,
// ...). The sprite record of that API has the same shape as the current one,
// so Components.Sprite is reused.

module LegacyComponents {

  /** Where an entity is, as two coordinates. */
  datatype Position = Position(x: real, y: real)

  datatype Velocity = Velocity(x: real, y: real)

  /** Remaining time to live, in seconds. */
  datatype Lifetime = Lifetime(timeLeft: real)

  /** A circle for the overlap test; two colliders sharing an `id` are
      skipped by the collision system. */
  datatype CircleCollider = CircleCollider(radius: real, id: nat)

  /** A display name, used in the collision report. */
  datatype Name = Name(name: string)

  /** A gun that fires while its owner wants it to and its cooldown has run
      out. */
  datatype Weapon = Weapon(speed: real, timeBetweenShots: real, cooldown: real, wantsToFire: bool)
}
