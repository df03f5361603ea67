// The player (src/ecs/player.rs): the respawn system that queues a fresh
// player whenever none is alive, the components of that player, and the
// explosion its death leaves behind.

module Players {
  import opened Vectors
  import opened Ecs
  import opened Components
  import opened Weapons
  import opened Animations
  import opened Effects

  /** `on_player_ded`: a 128-pixel explosion. */
  const ON_PLAYER_DED: DeathReaction := SpawnExplosion(128)

  /** The components queued for a respawned player. */
  datatype PlayerRecord = PlayerRecord(
    position: Position,
    sprite: Sprite,
    velocity: Velocity,
    collider: CircleCollider,
    health: Health,
    damage: Damage,
    markers: seq<Marker>,
    weapon: Weapon)

  /** The player `PlayerRespawnSystem::run` creates. */
  function NewPlayer(): PlayerRecord {
    PlayerRecord(
      Position.New(800.0, 800.0),
      Sprite(PLAYER_SPRITE_ID, Rect(0, 0, 128, 128), Point(64, 64)),
      Velocity.Default(),
      CircleCollider(22.0, FromEnum(PlayerLayer), FromEnum(EnemyLayer)),
      Health.New(25, ON_PLAYER_DED),
      Damage.New(5),
      [PlayerMarker, KeyboardControlledMarker],
      Weapon.New(1400.0, 0.015, 25))
  }

  /** The creations one run queues: a new player under the next id when no
      entity has the `Player` marker, and nothing otherwise. */
  function Respawned(players: set<Entity>, next: Entity): seq<(Entity, PlayerRecord)> {
    if players == {} then [(next, NewPlayer())] else []
  }

  /** The respawned player stands at (800, 800) at rest, draws the player
      sprite, is on the player side and collides with enemies, and is both a
      player and keyboard-controlled. */
  lemma NewPlayerPlacement()
    ensures var p := NewPlayer();
      && p.position.X() == 800.0 && p.position.Y() == 800.0
      && p.velocity.X() == 0.0 && p.velocity.Y() == 0.0
      && p.sprite.spritesheet == PLAYER_SPRITE_ID && p.sprite.size == Point(64, 64)
      && p.collider.radius == 22.0
      && p.collider.layer == FromEnum(PlayerLayer) && p.collider.collidesWith == FromEnum(EnemyLayer)
      && PlayerMarker in p.markers && KeyboardControlledMarker in p.markers
  {
    PositionRoundTrip(800.0, 800.0, Position.New(800.0, 800.0));
    assert NewPlayer().markers[0] == PlayerMarker && NewPlayer().markers[1] == KeyboardControlledMarker;
  }

  /** The respawned player has full health 25, no pending damage, explodes
      on death, and deals contact damage 5. */
  lemma NewPlayerHealth()
    ensures var p := NewPlayer();
      && p.health.health == 25 && p.health.maxHealth == 25 && p.health.damageEvents == [] && p.health.Valid()
      && p.health.onDeath == ON_PLAYER_DED
      && p.damage.damage == 5
  {
    NewHealthIsFull(25, ON_PLAYER_DED);
  }

  /** The respawned player holds an idle gun that fires upwards at 1400,
      with 0.015 s between shots and 25 damage per shot, and does not fire
      on the frame it appears. */
  lemma NewPlayerGun(delta: real)
    ensures var p := NewPlayer();
      && p.weapon.speed == 1400.0 && p.weapon.timeBetweenShots == 0.015 && p.weapon.damage == 25
      && p.weapon.cooldown == 0.0 && p.weapon.command == Waiting
      && !Fires(p.weapon, delta)
      && BulletFor(p.position, p.collider, p.weapon).velocity.Y() == -1400.0
  {
    NewWeaponWaits(1400.0, 0.015, 25, delta);
    BulletInheritsShooter(Position.New(800.0, 800.0), CircleCollider(22.0, FromEnum(PlayerLayer), FromEnum(EnemyLayer)),
                          Weapon.New(1400.0, 0.015, 25), delta);
  }

  /** `on_player_ded` queues one explosion near the point of death: 128
      pixels wide, living half a second, animated at 30 frames per second
      over a 4 by 4 sheet. */
  lemma PlayerDeathExplodes(at: Vec2, offset: Vec2)
    requires -EXPLOSION_SPREAD <= offset.x < EXPLOSION_SPREAD && -EXPLOSION_SPREAD <= offset.y < EXPLOSION_SPREAD
    ensures var r := OnDeath(ON_PLAYER_DED, at, offset);
      && |r| == 1
      && r[0].sprite.size == Point(128, 128)
      && r[0].sprite.spritesheet == EXPLOSION_SPRITE_ID
      && r[0].lifetime == Lifetime(0.5)
      && r[0].animation == Animation.New(30, 4, 4)
      && at.x - 10.0 <= r[0].position.X() < at.x + 10.0
      && at.y - 10.0 <= r[0].position.Y() < at.y + 10.0
  {
  }

  /** The part of the world the respawn system reads and writes. */
  class World {
    /** The entities with the `Player` marker. */
    var players: set<Entity>
    /** The id the next `Entities::create` hands out. */
    var nextEntity: Entity
    /** Creations queued on `LazyUpdate`, oldest first. */
    var created: seq<(Entity, PlayerRecord)>

    /** Every player has been handed out. */
    predicate Valid()
      reads this
    {
      forall e :: e in players ==> e < nextEntity
    }

    constructor(players: set<Entity>, nextEntity: Entity)
      ensures this.players == players && this.nextEntity == nextEntity && created == []
    {
      this.players := players;
      this.nextEntity := nextEntity;
      created := [];
    }

    /** `PlayerRespawnSystem::run`: look for a player; if there is none,
        create an entity and queue a new player's components on it. */
    method PlayerRespawnSystem()
      requires Valid()
      modifies this`nextEntity, this`created
      ensures Valid()
      ensures created == old(created) + Respawned(players, old(nextEntity))
      ensures nextEntity == old(nextEntity) + |Respawned(players, old(nextEntity))|
    {
      var playerAlive := false;
      var players, bound := players, nextEntity;
      var e := 0;
      while e < bound
        invariant e <= bound
        invariant playerAlive <==> exists k :: k in players && k < e
      {
        if e in players {
          playerAlive := true;
        }
        e := e + 1;
      }
      if players != {} {
        var k :| k in players;
        assert k < bound;
      }
      if !playerAlive {
        var newPlayer := nextEntity;
        nextEntity := nextEntity + 1;
        created := created + [(newPlayer, NewPlayer())];
      }
    }
  }

  /** Respawning settles: a run queues at most one entity, and only when no
      player exists; what it queues carries the `Player` marker, so once the
      queue is applied that entity counts as a player and the next run creates
      nothing. While a player lives, no run creates one. */
  lemma RespawnSettles(players: set<Entity>, next: Entity)
    ensures |Respawned(players, next)| <= 1
    ensures Respawned(players, next) != [] <==> players == {}
    ensures forall c :: c in Respawned(players, next) ==> c.0 == next && PlayerMarker in c.1.markers
    ensures forall c :: c in Respawned(players, next) ==> Respawned(players + {c.0}, next + 1) == []
  {
    if players == {} {
      assert NewPlayer().markers[0] == PlayerMarker;
      assert next in players + {next};
    }
  }
}
