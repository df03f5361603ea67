// The components of the current API (src/ecs/components.rs), plus the
// collider, layer and sprite records that the other files insert but whose
// definitions are not part of this model (the layered `CircleCollider`,
// `LayerMask`, `Layers`) or live in SDL (`Rect`, `Point`).

module Components {
  import opened Vectors

  // Sprite-sheet ids and sizes (src/assets.rs).
  const PLAYER_SPRITE_ID: nat := 0
  const BOSS_SPRITE_ID: nat := 1
  const BULLET_SPRITE_ID: nat := 2
  const EXPLOSION_SPRITE_ID: nat := 3
  const BULLET_SIZE: int := 16

  /** Where an entity is. */
  datatype Position = Position(position: Vec2)
  {
    static function New(x: real, y: real): Position {
      Position(Vec2(x, y))
    }

    function X(): real { position.x }

    function Y(): real { position.y }
  }

  /** Remaining time to live, in seconds. */
  datatype Lifetime = Lifetime(timeLeft: real)

  /** One hit waiting to be resolved: the amount and where it landed. */
  datatype DamageEvent = DamageTaken(amount: nat, location: Vec2)

  /** The `on_death` callback of a `Health`, as the finite set of reactions
      the game uses: nothing, or an explosion effect of a given on-screen size. */
  datatype DeathReaction = NoEffect | SpawnExplosion(size: int)

  datatype Health = Health(health: nat, maxHealth: nat, damageEvents: seq<DamageEvent>, onDeath: DeathReaction)
  {
    static function New(health: nat, onDeath: DeathReaction): Health {
      Health(health, health, [], onDeath)
    }

    static function NoDeathEvent(health: nat): Health {
      Health(health, health, [], NoEffect)
    }

    /** Current health never exceeds the maximum. */
    predicate Valid() {
      health <= maxHealth
    }
  }

  /** Damage an entity deals on contact. */
  datatype Damage = Damage(damage: nat)
  {
    static function New(damage: nat): Damage {
      Damage(damage)
    }
  }

  datatype Velocity = Velocity(velocity: Vec2)
  {
    static function New(x: real, y: real): Velocity {
      Velocity(Vec2(x, y))
    }

    /** `Velocity::default()`: at rest. */
    static function Default(): Velocity {
      Velocity(Vec2(0.0, 0.0))
    }

    function X(): real { velocity.x }

    function Y(): real { velocity.y }
  }

  /** Zero-size tags used to filter entities. */
  datatype Marker = ProjectileMarker | PlayerMarker | KeyboardControlledMarker

  /** SDL rectangle: a position on the sprite sheet and a size. */
  datatype Rect = Rect(x: int, y: int, width: nat, height: nat)

  datatype Point = Point(x: int, y: int)

  datatype Sprite = Sprite(spritesheet: nat, srcRect: Rect, size: Point)

  /** Combat affiliations. Only masks made from one layer occur, so a mask
      records the layer it was made from. */
  datatype Layers = PlayerLayer | EnemyLayer

  datatype LayerMask = FromEnum(layer: Layers)

  /** `layer` is what the entity is, `collidesWith` what it reacts to. */
  datatype CircleCollider = CircleCollider(radius: real, layer: LayerMask, collidesWith: LayerMask)

  /** `Health::apply_damage`: queue one damage event. The component is passed
      in and its new value returned. */
  method ApplyDamage(h: Health, damage: Damage, location: Vec2) returns (r: Health)
    ensures |r.damageEvents| == |h.damageEvents| + 1
    ensures r.damageEvents[..|h.damageEvents|] == h.damageEvents
    ensures r.damageEvents[|h.damageEvents|] == DamageTaken(damage.damage, location)
    ensures r.health == h.health && r.maxHealth == h.maxHealth && r.onDeath == h.onDeath
    ensures r.Valid() == h.Valid()
  {
    r := h;
    r := r.(damageEvents := r.damageEvents + [DamageTaken(damage.damage, location)]);
  }

  /** `Velocity::set_x`: overwrite the horizontal component only. */
  method SetX(v: Velocity, value: real) returns (r: Velocity)
    ensures r.X() == value && r.Y() == v.Y()
    ensures value == v.X() ==> r == v
  {
    r := v;
    r := r.(velocity := r.velocity.(x := value));
  }

  /** `Velocity::set_y`: overwrite the vertical component only. */
  method SetY(v: Velocity, value: real) returns (r: Velocity)
    ensures r.Y() == value && r.X() == v.X()
    ensures value == v.Y() ==> r == v
  {
    r := v;
    r := r.(velocity := r.velocity.(y := value));
  }

  /** The accessors read back what the constructor stored, and a position is
      rebuilt from its accessors. */
  lemma PositionRoundTrip(x: real, y: real, p: Position)
    ensures Position.New(x, y).X() == x && Position.New(x, y).Y() == y
    ensures Position.New(p.X(), p.Y()) == p
  {
  }

  lemma VelocityRoundTrip(x: real, y: real, v: Velocity)
    ensures Velocity.New(x, y).X() == x && Velocity.New(x, y).Y() == y
    ensures Velocity.New(v.X(), v.Y()) == v
    ensures Velocity.Default() == Velocity.New(0.0, 0.0)
  {
  }

  /** A new health is full, valid and has no pending damage; `no_death_event`
      is `new` with a callback that does nothing. */
  lemma NewHealthIsFull(h: nat, onDeath: DeathReaction)
    ensures Health.New(h, onDeath).health == h && Health.New(h, onDeath).maxHealth == h
    ensures Health.New(h, onDeath).damageEvents == [] && Health.New(h, onDeath).Valid()
    ensures Health.NoDeathEvent(h) == Health.New(h, NoEffect)
  {
  }

  lemma DamageNew(n: nat)
    ensures Damage.New(n).damage == n
  {
  }
}
