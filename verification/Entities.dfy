/** The game's two kinds of body.  Rendering state (colours, sprites,
    textures) is not part of the model. */
module Entities {
  import opened Vectors

  datatype Option<T> = None | Some(value: T)

  /** A planet as the physics sees it: the centre of its physics body, its
      mass (which doubles as health and starts at radius²) and its radius. */
  datatype Planet = Planet(center: Vec2, mass: real, radius: real)

  /** A projectile ("GravityObject").  `accel` caches the acceleration of the
      last position half-step for the following velocity half-step; `trail`
      is the queue of earlier positions, oldest first. */
  datatype GravityObject = GravityObject(
    pos: Vec2,
    vel: Vec2,
    accel: Vec2,
    trail: seq<Vec2>,
    damage: real)

  /** Every projectile's collision radius (fixed by the constructor) */
  const ObjectRadius: real := 1.0

  /** Damage of a projectile when the caller gives none */
  const DefaultDamage: real := 10.0

  /** A freshly constructed projectile: empty trail, zero cached acceleration */
  function NewObject(pos: Vec2, vel: Vec2, damage: real): GravityObject {
    GravityObject(pos, vel, Zero, [], damage)
  }

}
