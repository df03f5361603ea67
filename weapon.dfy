// Weapons of the current API (src/ecs/weapon.rs): a command state machine
// that fires one projectile per tick while its cooldown has run out, and the
// system that drives every armed entity once per frame.

module Weapons {
  import opened Vectors
  import opened Ecs
  import opened Components

  /** What a weapon has been told to do. */
  datatype WeaponFireCommand = Waiting | FireOnce | FireAmount(amount: nat)

  datatype Weapon = Weapon(speed: real, timeBetweenShots: real, cooldown: real, command: WeaponFireCommand, damage: nat)
  {
    /** `Weapon::new`: ready to fire at once, but not told to. */
    static function New(speed: real, timeBetweenShots: real, damage: nat): Weapon {
      Weapon(speed, timeBetweenShots, 0.0, Waiting, damage)
    }
  }

  /** `FireAmount(0)` would underflow `amount - 1` in the source; no code
      path issues it, and every weapon of the model keeps to this. */
  predicate ValidCommand(c: WeaponFireCommand) {
    c.FireAmount? ==> c.amount >= 1
  }

  /** Shots the command still asks for. */
  function Remaining(c: WeaponFireCommand): nat {
    match c
    case Waiting => 0
    case FireOnce => 1
    case FireAmount(n) => n
  }

  /** Whether a tick of `delta` seconds spawns a projectile. */
  predicate Fires(w: Weapon, delta: real) {
    w.cooldown - delta <= 0.0 && !w.command.Waiting?
  }

  /** The command after one shot. */
  function AfterShot(c: WeaponFireCommand): WeaponFireCommand
    requires ValidCommand(c)
  {
    match c
    case Waiting => Waiting
    case FireOnce => Waiting
    case FireAmount(n) => if n - 1 > 0 then FireAmount(n - 1) else Waiting
  }

  /** The weapon after one tick of `handle_weapon`. */
  function Tick(w: Weapon, delta: real): Weapon
    requires ValidCommand(w.command)
  {
    if Fires(w, delta) then w.(cooldown := w.timeBetweenShots, command := AfterShot(w.command))
    else w.(cooldown := w.cooldown - delta)
  }

  /** A new weapon waits, with cooldown 0 and the given speed, time between
      shots and damage, and never fires until given a command. */
  lemma NewWeaponWaits(speed: real, timeBetweenShots: real, damage: nat, delta: real)
    ensures var w := Weapon.New(speed, timeBetweenShots, damage);
      && w.cooldown == 0.0 && w.command == Waiting
      && w.speed == speed && w.timeBetweenShots == timeBetweenShots && w.damage == damage
      && !Fires(w, delta)
      && Tick(w, delta) == w.(cooldown := -delta)
  {
  }

  /** One tick: a shot uses up exactly one of the shots the command asks for
      and resets the cooldown to the time between shots; without a shot the
      cooldown drops by exactly `delta` and the command stays. Speed, damage
      and time between shots never change, and the command stays valid. */
  lemma TickSpendsOneShot(w: Weapon, delta: real)
    requires ValidCommand(w.command)
    ensures var t := Tick(w, delta);
      && ValidCommand(t.command)
      && t.speed == w.speed && t.damage == w.damage && t.timeBetweenShots == w.timeBetweenShots
      && (Fires(w, delta) ==> Remaining(t.command) == Remaining(w.command) - 1 && t.cooldown == w.timeBetweenShots)
      && (!Fires(w, delta) ==> t.command == w.command && t.cooldown == w.cooldown - delta)
    ensures Fires(w, delta) && w.command.FireAmount? && w.command.amount > 1 ==>
      Tick(w, delta).command == FireAmount(w.command.amount - 1)
    ensures Fires(w, delta) && (w.command == FireOnce || w.command == FireAmount(1)) ==>
      Tick(w, delta).command == Waiting
  {
  }

  /** Firing is possible exactly when shots remain and the cooldown has run
      out; in particular `Waiting` never fires and stays `Waiting`. */
  lemma FiresIffShotsRemain(w: Weapon, delta: real)
    requires ValidCommand(w.command)
    ensures Fires(w, delta) <==> Remaining(w.command) > 0 && w.cooldown - delta <= 0.0
    ensures w.command == Waiting ==> Tick(w, delta).command == Waiting
  {
  }

  /** The weapon after a sequence of ticks. */
  function TickAll(w: Weapon, deltas: seq<real>): Weapon
    requires ValidCommand(w.command)
    ensures ValidCommand(TickAll(w, deltas).command)
    decreases |deltas|
  {
    if deltas == [] then w else TickAll(Tick(w, deltas[0]), deltas[1..])
  }

  /** Projectiles spawned over a sequence of ticks. */
  function ShotsFired(w: Weapon, deltas: seq<real>): nat
    requires ValidCommand(w.command)
    decreases |deltas|
  {
    if deltas == [] then 0
    else (if Fires(w, deltas[0]) then 1 else 0) + ShotsFired(Tick(w, deltas[0]), deltas[1..])
  }

  /** Shots are conserved: those fired plus those still asked for are what
      the command asked for at the start. A burst `FireAmount(n)` therefore
      never yields more than n projectiles. */
  lemma {:induction false} BurstNeverOvershoots(w: Weapon, deltas: seq<real>)
    requires ValidCommand(w.command)
    ensures ShotsFired(w, deltas) + Remaining(TickAll(w, deltas).command) == Remaining(w.command)
    ensures ShotsFired(w, deltas) <= Remaining(w.command)
    decreases |deltas|
  {
    if deltas != [] {
      TickSpendsOneShot(w, deltas[0]);
      BurstNeverOvershoots(Tick(w, deltas[0]), deltas[1..]);
    }
  }

  /** A burst completes: if every tick lasts at least the time between shots
      and the cooldown starts no higher than that, a command asking for n
      shots fires on each of its first n ticks, so n ticks or more fire all
      n and leave the weapon `Waiting`. */
  lemma {:induction false} BurstCompletes(w: Weapon, deltas: seq<real>)
    requires ValidCommand(w.command)
    requires w.cooldown <= w.timeBetweenShots
    requires forall i :: 0 <= i < |deltas| ==> deltas[i] >= w.timeBetweenShots && deltas[i] >= 0.0
    requires |deltas| >= Remaining(w.command)
    ensures ShotsFired(w, deltas) == Remaining(w.command)
    ensures TickAll(w, deltas).command == Waiting
    decreases |deltas|
  {
    if deltas != [] {
      var t := Tick(w, deltas[0]);
      TickSpendsOneShot(w, deltas[0]);
      assert t.cooldown <= t.timeBetweenShots;
      BurstCompletes(t, deltas[1..]);
    } else {
      assert Remaining(w.command) == 0;
    }
  }

  /** Ticking over `a` and then over `b` is ticking over `a + b`, and the
      shots add up. */
  lemma {:induction false} TickAllConcat(w: Weapon, a: seq<real>, b: seq<real>)
    requires ValidCommand(w.command)
    ensures TickAll(w, a + b) == TickAll(TickAll(w, a), b)
    ensures ShotsFired(w, a + b) == ShotsFired(w, a) + ShotsFired(TickAll(w, a), b)
    decreases |a|
  {
    if a == [] {
      assert a + b == b;
    } else {
      assert (a + b)[0] == a[0] && (a + b)[1..] == a[1..] + b;
      TickAllConcat(Tick(w, a[0]), a[1..], b);
    }
  }

  /** Ticks never change the time between shots, and once the cooldown is
      no more than that, it stays so. */
  lemma {:induction false} CooldownStaysBelowInterval(w: Weapon, deltas: seq<real>)
    requires ValidCommand(w.command)
    requires forall i :: 0 <= i < |deltas| ==> deltas[i] >= 0.0
    ensures TickAll(w, deltas).timeBetweenShots == w.timeBetweenShots
    ensures w.cooldown <= w.timeBetweenShots ==> TickAll(w, deltas).cooldown <= w.timeBetweenShots
    decreases |deltas|
  {
    if deltas != [] {
      TickSpendsOneShot(w, deltas[0]);
      CooldownStaysBelowInterval(Tick(w, deltas[0]), deltas[1..]);
    }
  }

  /** A weapon with shots left fires at least once over any run of frames
      whose times add up to its cooldown, however short each frame is, and
      after that run its cooldown is at most the time between shots. */
  lemma {:induction false} FiresOnceCooldownElapses(w: Weapon, run: seq<real>)
    requires ValidCommand(w.command) && Remaining(w.command) > 0
    requires run != [] && forall i :: 0 <= i < |run| ==> run[i] >= 0.0
    requires Sum(run) >= w.cooldown
    ensures ShotsFired(w, run) >= 1
    ensures TickAll(w, run).cooldown <= w.timeBetweenShots
    decreases |run|
  {
    var t := Tick(w, run[0]);
    TickSpendsOneShot(w, run[0]);
    if Fires(w, run[0]) {
      CooldownStaysBelowInterval(t, run[1..]);
    } else {
      FiresIffShotsRemain(w, run[0]);
      assert run[1..] != [];
      FiresOnceCooldownElapses(t, run[1..]);
    }
  }

  /** The frame times of consecutive runs, one after another. */
  function Flatten(runs: seq<seq<real>>): seq<real>
    decreases |runs|
  {
    if runs == [] then [] else runs[0] + Flatten(runs[1..])
  }

  /** A burst completes at any frame rate: if the frames split into runs,
      the first adding up to the cooldown and each later one to the time
      between shots, a command asking for n shots fires exactly n of them
      within n runs and leaves the weapon `Waiting`. */
  lemma {:induction false} BurstCompletesInRuns(w: Weapon, runs: seq<seq<real>>)
    requires ValidCommand(w.command)
    requires forall k :: 0 <= k < |runs| ==> runs[k] != [] && forall i :: 0 <= i < |runs[k]| ==> runs[k][i] >= 0.0
    requires runs != [] ==> Sum(runs[0]) >= w.cooldown
    requires forall k :: 0 < k < |runs| ==> Sum(runs[k]) >= w.timeBetweenShots
    requires |runs| >= Remaining(w.command)
    ensures ShotsFired(w, Flatten(runs)) == Remaining(w.command)
    ensures TickAll(w, Flatten(runs)).command == Waiting
    decreases |runs|
  {
    var all := Flatten(runs);
    BurstNeverOvershoots(w, all);
    if Remaining(w.command) > 0 {
      var first := runs[0];
      var t := TickAll(w, first);
      FiresOnceCooldownElapses(w, first);
      CooldownStaysBelowInterval(w, first);
      BurstNeverOvershoots(w, first);
      TickAllConcat(w, first, Flatten(runs[1..]));
      var rest := runs[1..];
      forall k | 0 < k < |rest|
        ensures Sum(rest[k]) >= t.timeBetweenShots
      {
        assert rest[k] == runs[k + 1];
      }
      BurstCompletesInRuns(t, rest);
    }
  }

  /** The components queued for one projectile. */
  datatype Bullet = Bullet(
    marker: Marker,
    position: Position,
    sprite: Sprite,
    velocity: Velocity,
    lifetime: Lifetime,
    collider: CircleCollider,
    health: Health,
    damage: Damage)

  /** `on_bullet_dead`: a projectile leaves a 32-pixel explosion. */
  const ON_BULLET_DEAD: DeathReaction := SpawnExplosion(32)

  /** The record `spawn_bullet` queues for a shot of `weapon` fired by an
      entity at `position` with collider `collider`. */
  function BulletFor(position: Position, collider: CircleCollider, weapon: Weapon): Bullet {
    Bullet(
      ProjectileMarker,
      position,
      Sprite(BULLET_SPRITE_ID, Rect(0, 0, 16, 16), Point(BULLET_SIZE, BULLET_SIZE)),
      Velocity.New(0.0, -weapon.speed),
      Lifetime(1.0),
      CircleCollider(16.0, collider.layer, collider.collidesWith),
      Health.New(1, ON_BULLET_DEAD),
      Damage(weapon.damage))
  }

  /** A projectile starts where its shooter is, flies straight along the
      y axis at the weapon's speed (up the screen for a positive speed), is
      on the shooter's side, deals the weapon's damage, dies on its first hit
      and lives one second; a tick of the weapon does not change it. */
  lemma BulletInheritsShooter(position: Position, collider: CircleCollider, weapon: Weapon, delta: real)
    requires ValidCommand(weapon.command)
    ensures var b := BulletFor(position, collider, weapon);
      && b.position == position
      && b.velocity.X() == 0.0 && b.velocity.velocity == Vec2.Up().Scale(weapon.speed)
      && (weapon.speed > 0.0 ==> b.velocity.Y() < 0.0)
      && b.collider.layer == collider.layer && b.collider.collidesWith == collider.collidesWith
      && b.damage.damage == weapon.damage
      && b.health.health == 1 && b.health.Valid() && b.lifetime.timeLeft == 1.0
      && BulletFor(position, collider, Tick(weapon, delta)) == b
  {
  }

  /** Every stored entity lies below `bound`, and every weapon command is
      valid. */
  predicate StoragesValid(positions: map<Entity, Position>, colliders: map<Entity, CircleCollider>,
                          weapons: map<Entity, Weapon>, bound: nat) {
    && (forall e :: e in positions ==> e < bound)
    && (forall e :: e in colliders ==> e < bound)
    && (forall e :: e in weapons ==> e < bound)
    && WeaponsValid(weapons)
  }

  /** The weapon system keeps the storages valid, also once the bound has
      grown by the projectiles it created. */
  lemma TickKeepsValid(positions: map<Entity, Position>, colliders: map<Entity, CircleCollider>,
                       weapons: map<Entity, Weapon>, delta: real, bound: nat, next: nat)
    requires StoragesValid(positions, colliders, weapons, bound) && bound <= next
    ensures StoragesValid(positions, colliders, TickedBelow(positions, colliders, weapons, delta, bound), next)
  {
    WeaponSystemTouchesOnlyJoined(positions, colliders, weapons, delta, bound);
  }

  /** The part of the world the weapon system reads and writes. */
  class World {
    var positions: map<Entity, Position>
    var colliders: map<Entity, CircleCollider>
    var weapons: map<Entity, Weapon>
    /** The id the next `Entities::create` hands out. */
    var nextEntity: Entity
    /** Creations queued on `LazyUpdate`, oldest first. */
    var created: seq<(Entity, Bullet)>

    /** Every stored entity has been handed out, and every command is valid. */
    predicate Valid()
      reads this
    {
      StoragesValid(positions, colliders, weapons, nextEntity)
    }

    constructor(positions: map<Entity, Position>, colliders: map<Entity, CircleCollider>, weapons: map<Entity, Weapon>, nextEntity: Entity)
      ensures this.positions == positions && this.colliders == colliders && this.weapons == weapons
      ensures this.nextEntity == nextEntity && created == []
    {
      this.positions := positions;
      this.colliders := colliders;
      this.weapons := weapons;
      this.nextEntity := nextEntity;
      created := [];
    }

    /** `spawn_bullet`: create an entity, reset the weapon's cooldown and
        queue the projectile's components. */
    method SpawnBullet(position: Position, collider: CircleCollider, weapon: Weapon) returns (w: Weapon)
      modifies this`nextEntity, this`created
      ensures w == weapon.(cooldown := weapon.timeBetweenShots)
      ensures nextEntity == old(nextEntity) + 1
      ensures created == old(created) + [(old(nextEntity), BulletFor(position, collider, weapon))]
    {
      var projectile := nextEntity;
      nextEntity := nextEntity + 1;
      w := weapon;
      w := w.(cooldown := w.timeBetweenShots);
      created := created + [(projectile, BulletFor(position, collider, w))];
    }

    /** `handle_weapon`: the closure gets one entity's position, collider
        and weapon; it counts the cooldown down, then fires and advances the
        command if it has run out. The weapon it leaves is returned. */
    method HandleWeapon(position: Position, collider: CircleCollider, weapon: Weapon, delta: real) returns (w: Weapon)
      requires ValidCommand(weapon.command)
      modifies this`nextEntity, this`created
      ensures w == Tick(weapon, delta)
      ensures created == old(created) + Numbered(old(nextEntity), Shot(position, collider, weapon, delta))
      ensures nextEntity == old(nextEntity) + |Shot(position, collider, weapon, delta)|
    {
      w := weapon;
      w := w.(cooldown := w.cooldown - delta);
      if w.cooldown <= 0.0 {
        match w.command {
          case FireOnce =>
            w := SpawnBullet(position, collider, w);
            w := w.(command := Waiting);
          case FireAmount(amount) =>
            w := SpawnBullet(position, collider, w);
            var newAmount := amount - 1;
            if newAmount > 0 {
              w := w.(command := FireAmount(newAmount));
            } else {
              w := w.(command := Waiting);
            }
          case Waiting =>
        }
      }
    }

    /** `WeaponSystem::run`: `handle_weapon` for every entity that has a
        position, a collider and a weapon, in id order. Entities created
        on the way have no components yet and are not visited. */
    method WeaponSystem(delta: real)
      requires Valid()
      modifies this`weapons, this`nextEntity, this`created
      ensures Valid()
      ensures weapons == TickedBelow(positions, colliders, old(weapons), delta, old(nextEntity))
      ensures created == old(created) + Numbered(old(nextEntity), BulletsBelow(positions, colliders, old(weapons), delta, old(nextEntity)))
      ensures nextEntity == old(nextEntity) + |BulletsBelow(positions, colliders, old(weapons), delta, old(nextEntity))|
    {
      ghost var weapons0, created0, next0 := weapons, created, nextEntity;
      var positions, colliders, weapons, bound := positions, colliders, weapons, nextEntity;
      var e := 0;
      while e < bound
        invariant e <= bound
        invariant weapons == TickedBelow(positions, colliders, weapons0, delta, e)
        invariant created == created0 + Numbered(next0, BulletsBelow(positions, colliders, weapons0, delta, e))
        invariant nextEntity == next0 + |BulletsBelow(positions, colliders, weapons0, delta, e)|
      {
        weapons := Visit(e, positions, colliders, weapons, delta, weapons0, created0, next0);
        e := e + 1;
      }
      TickKeepsValid(positions, colliders, weapons0, delta, bound, nextEntity);
      this.weapons := weapons;
    }

    /** One step of the join in `WeaponSystem::run`: entity `e` is handed to
        `handle_weapon` if it has all three components and skipped
        otherwise. The ghost parameters are the storages and the queue as
        they were when the system started. */
    method Visit(e: Entity, positions: map<Entity, Position>, colliders: map<Entity, CircleCollider>,
                 weapons: map<Entity, Weapon>, delta: real,
                 ghost weapons0: map<Entity, Weapon>, ghost created0: seq<(Entity, Bullet)>, ghost next0: Entity)
      returns (after: map<Entity, Weapon>)
      requires WeaponsValid(weapons0)
      requires weapons == TickedBelow(positions, colliders, weapons0, delta, e)
      requires created == created0 + Numbered(next0, BulletsBelow(positions, colliders, weapons0, delta, e))
      requires nextEntity == next0 + |BulletsBelow(positions, colliders, weapons0, delta, e)|
      modifies this`nextEntity, this`created
      ensures after == TickedBelow(positions, colliders, weapons0, delta, e + 1)
      ensures created == created0 + Numbered(next0, BulletsBelow(positions, colliders, weapons0, delta, e + 1))
      ensures nextEntity == next0 + |BulletsBelow(positions, colliders, weapons0, delta, e + 1)|
    {
      WeaponTickedOneMore(positions, colliders, weapons0, delta, e);
      ghost var before := BulletsBelow(positions, colliders, weapons0, delta, e);
      ghost var shot := ShotOf(e, positions, colliders, weapons0, delta);
      BulletsOneMore(positions, colliders, weapons0, delta, e);
      NumberedConcat(next0, before, shot);
      if e in positions && e in colliders && e in weapons {
        assert shot == Shot(positions[e], colliders[e], weapons[e], delta);
        var w := HandleWeapon(positions[e], colliders[e], weapons[e], delta);
        after := weapons[e := w];
      } else {
        assert before + shot == before;
        after := weapons;
      }
    }
  }

  predicate WeaponsValid(weapons: map<Entity, Weapon>) {
    forall e :: e in weapons ==> ValidCommand(weapons[e].command)
  }

  /** The projectile entity `e` fires this tick, if any. */
  function ShotOf(e: Entity, positions: map<Entity, Position>, colliders: map<Entity, CircleCollider>,
                  weapons: map<Entity, Weapon>, delta: real): (r: seq<Bullet>)
    ensures |r| <= 1
  {
    if e in positions && e in colliders && e in weapons then Shot(positions[e], colliders[e], weapons[e], delta) else []
  }

  /** The projectile `handle_weapon` queues for these components, if any:
      one projectile per shot the tick takes from the command, starting at
      the shooter, on its side and with its weapon's damage. */
  function Shot(position: Position, collider: CircleCollider, weapon: Weapon, delta: real): (r: seq<Bullet>)
    ensures ValidCommand(weapon.command) ==>
      |r| + Remaining(Tick(weapon, delta).command) == Remaining(weapon.command)
    ensures forall b :: b in r ==>
      && b.position == position && b.damage.damage == weapon.damage
      && b.collider.layer == collider.layer && b.collider.collidesWith == collider.collidesWith
  {
    if Fires(weapon, delta) then [BulletFor(position, collider, weapon)] else []
  }

  /** The weapons after the entities below `bound` have been handled. */
  function TickedBelow(positions: map<Entity, Position>, colliders: map<Entity, CircleCollider>,
                       weapons: map<Entity, Weapon>, delta: real, bound: nat): map<Entity, Weapon>
    requires WeaponsValid(weapons)
  {
    map e | e in weapons ::
      if e < bound && e in positions && e in colliders then Tick(weapons[e], delta) else weapons[e]
  }

  /** Handling entity `bound` as well updates exactly its weapon, which the
      entities before it have left as it was. */
  lemma WeaponTickedOneMore(positions: map<Entity, Position>, colliders: map<Entity, CircleCollider>,
                      weapons: map<Entity, Weapon>, delta: real, bound: nat)
    requires WeaponsValid(weapons)
    ensures bound in weapons ==> TickedBelow(positions, colliders, weapons, delta, bound)[bound] == weapons[bound]
    ensures TickedBelow(positions, colliders, weapons, delta, bound + 1) ==
      if bound in positions && bound in colliders && bound in weapons
      then TickedBelow(positions, colliders, weapons, delta, bound)[bound := Tick(weapons[bound], delta)]
      else TickedBelow(positions, colliders, weapons, delta, bound)
  {
  }

  /** The projectiles fired by the entities below `bound`, in id order. */
  function BulletsBelow(positions: map<Entity, Position>, colliders: map<Entity, CircleCollider>,
                        weapons: map<Entity, Weapon>, delta: real, bound: nat): seq<Bullet>
  {
    if bound == 0 then []
    else BulletsBelow(positions, colliders, weapons, delta, bound - 1) + ShotOf(bound - 1, positions, colliders, weapons, delta)
  }

  /** Handling entity `bound` as well appends its shot, if any. */
  lemma BulletsOneMore(positions: map<Entity, Position>, colliders: map<Entity, CircleCollider>,
                       weapons: map<Entity, Weapon>, delta: real, bound: nat)
    ensures BulletsBelow(positions, colliders, weapons, delta, bound + 1) ==
      BulletsBelow(positions, colliders, weapons, delta, bound) + ShotOf(bound, positions, colliders, weapons, delta)
  {
  }

  /** The entities below `bound` that fire this tick. */
  function ShootersBelow(positions: map<Entity, Position>, colliders: map<Entity, CircleCollider>,
                         weapons: map<Entity, Weapon>, delta: real, bound: nat): set<Entity>
  {
    set e | 0 <= e < bound && e in positions && e in colliders && e in weapons && Fires(weapons[e], delta)
  }

  /** One projectile per firing entity, no more: the system fires exactly
      one shot for each entity with all three components whose weapon fires,
      each with that entity's position, side and damage. */
  lemma {:induction false} OneBulletPerShooter(positions: map<Entity, Position>, colliders: map<Entity, CircleCollider>,
                                              weapons: map<Entity, Weapon>, delta: real, bound: nat)
    ensures |BulletsBelow(positions, colliders, weapons, delta, bound)| == |ShootersBelow(positions, colliders, weapons, delta, bound)|
    ensures forall b :: b in BulletsBelow(positions, colliders, weapons, delta, bound) ==>
      exists e :: e in ShootersBelow(positions, colliders, weapons, delta, bound) && b == BulletFor(positions[e], colliders[e], weapons[e])
  {
    if bound > 0 {
      OneBulletPerShooter(positions, colliders, weapons, delta, bound - 1);
      var e := bound - 1;
      var before := ShootersBelow(positions, colliders, weapons, delta, bound - 1);
      var s := ShootersBelow(positions, colliders, weapons, delta, bound);
      if e in positions && e in colliders && e in weapons && Fires(weapons[e], delta) {
        assert s == before + {e};
      } else {
        assert s == before;
      }
    } else {
      assert ShootersBelow(positions, colliders, weapons, delta, bound) == {};
    }
  }

  /** Weapons of entities that lack a position or a collider are untouched,
      no weapon is added or removed, and every command stays valid. */
  lemma WeaponSystemTouchesOnlyJoined(positions: map<Entity, Position>, colliders: map<Entity, CircleCollider>,
                                      weapons: map<Entity, Weapon>, delta: real, bound: nat)
    requires WeaponsValid(weapons)
    ensures var t := TickedBelow(positions, colliders, weapons, delta, bound);
      && t.Keys == weapons.Keys
      && WeaponsValid(t)
      && (forall e :: e in t && (e !in positions || e !in colliders || e >= bound) ==> t[e] == weapons[e])
      && (forall e :: e in t && e < bound && e in positions && e in colliders ==>
            t[e].cooldown == (if Fires(weapons[e], delta) then weapons[e].timeBetweenShots else weapons[e].cooldown - delta))
  {
    var t := TickedBelow(positions, colliders, weapons, delta, bound);
    forall e | e in t
      ensures ValidCommand(t[e].command)
    {
      if e < bound && e in positions && e in colliders {
        TickSpendsOneShot(weapons[e], delta);
      }
    }
  }
}
