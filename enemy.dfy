// Enemies of the current API (src/ecs/enemy.rs): a square patrol driven by
// a direction cycle, an attack timer that orders weapon bursts, and the
// spawner that lays out a new wave on a grid once every enemy is gone.

module Enemies {
  import opened Vectors
  import opened Ecs
  import opened Components
  import opened Weapons
  import opened Arithmetic
  import opened Animations
  import opened Effects

  /** The four patrol directions, in patrol order. */
  datatype Direction = Right | Down | Left | Up
  {
    /** `Direction::next`: a quarter turn clockwise on screen. */
    function Next(): Direction {
      match this
      case Right => Down
      case Down => Left
      case Left => Up
      case Up => Right
    }

    /** `Direction::to_vec`: the axis unit vector of the direction. */
    function ToVec(): Vec2 {
      match this
      case Right => Vec2.Right()
      case Down => Vec2.Down()
      case Left => Vec2.Left()
      case Up => Vec2.Up()
    }
  }

  datatype EnemyMoveState = Idle | Moving(direction: Direction, target: Vec2)

  /** When to attack next, and how many shots each attack fires. */
  datatype AttackConfig =
    | Constant(cooldown: real, amount: nat)
    | Random(minCooldown: real, maxCooldown: real, amount: nat)

  datatype Enemy = Enemy(speed: real, moveState: EnemyMoveState, attackConfig: AttackConfig, attackCooldown: real)
  {
    /** `Enemy::new`. For a random configuration, `roll` is the draw from
        [0, maxCooldown) that sets the first cooldown. */
    static function New(speed: real, attackConfig: AttackConfig, roll: real): Enemy
      requires attackConfig.Random? ==> 0.0 <= roll < attackConfig.maxCooldown
    {
      var attackCooldown := match attackConfig
        case Constant(cooldown, _) => cooldown
        case Random(_, _, _) => roll;
      Enemy(speed, Idle, attackConfig, attackCooldown)
    }
  }

  /** Attacks order bursts of at least one shot (`FireAmount(0)` would
      underflow in the weapon). */
  predicate ValidConfig(c: AttackConfig) {
    c.amount >= 1
  }

  /** Whether `roll` is a value the random draw of `fire` can yield. */
  predicate FireRoll(c: AttackConfig, roll: real) {
    c.Random? ==> c.minCooldown <= roll < c.maxCooldown
  }

  /** The enemy after `fire`: the cooldown starts again, from the constant
      or from the draw. */
  function Fired(enemy: Enemy, roll: real): Enemy
    requires FireRoll(enemy.attackConfig, roll)
  {
    match enemy.attackConfig
    case Constant(cooldown, _) => enemy.(attackCooldown := cooldown)
    case Random(_, _, _) => enemy.(attackCooldown := roll)
  }

  /** A new enemy stands idle; its first attack comes after exactly the
      constant cooldown, or after a time in [0, maxCooldown). */
  lemma NewEnemyIsIdle(speed: real, attackConfig: AttackConfig, roll: real)
    requires attackConfig.Random? ==> 0.0 <= roll < attackConfig.maxCooldown
    ensures var e := Enemy.New(speed, attackConfig, roll);
      && e.moveState == Idle && e.speed == speed && e.attackConfig == attackConfig
      && (attackConfig.Constant? ==> e.attackCooldown == attackConfig.cooldown)
      && (attackConfig.Random? ==> 0.0 <= e.attackCooldown < attackConfig.maxCooldown)
  {
  }

  /** `Enemy::fire`: order the weapon to fire a burst and restart the attack
      cooldown. The enemy and the weapon are passed in and their new values
      returned. */
  method Fire(enemy: Enemy, weapon: Weapon, roll: real) returns (e: Enemy, w: Weapon)
    requires FireRoll(enemy.attackConfig, roll)
    ensures w == weapon.(command := FireAmount(enemy.attackConfig.amount))
    ensures e == Fired(enemy, roll)
    ensures enemy.attackConfig.Constant? ==> e.attackCooldown == enemy.attackConfig.cooldown
    ensures enemy.attackConfig.Random? ==>
      enemy.attackConfig.minCooldown <= e.attackCooldown < enemy.attackConfig.maxCooldown
    ensures ValidConfig(enemy.attackConfig) ==> ValidCommand(w.command)
  {
    e, w := enemy, weapon;
    match e.attackConfig {
      case Constant(cooldown, amount) =>
        w := w.(command := FireAmount(amount));
        e := e.(attackCooldown := cooldown);
      case Random(minCooldown, maxCooldown, amount) =>
        w := w.(command := FireAmount(amount));
        e := e.(attackCooldown := roll);
    }
  }

  /** What one tick of the enemy system does to one enemy. */
  datatype EnemyTick = EnemyTick(enemy: Enemy, velocity: Velocity, weapon: Weapon)

  /** The attack part of a tick: count down, and fire once the cooldown has
      run out. */
  function AttackStep(enemy: Enemy, weapon: Weapon, delta: real, roll: real): (Enemy, Weapon)
    requires FireRoll(enemy.attackConfig, roll)
  {
    var counted := enemy.(attackCooldown := enemy.attackCooldown - delta);
    if counted.attackCooldown <= 0.0 then
      (Fired(counted, roll), weapon.(command := FireAmount(enemy.attackConfig.amount)))
    else
      (counted, weapon)
  }

  /** The state after a turn from `d`: heading the next way, toward a target
      100 pixels further along the new heading and level with the old target
      along the old one. */
  function Turned(d: Direction, target: Vec2): (r: EnemyMoveState)
    ensures r.Moving? && r.direction == d.Next()
  {
    Moving(d.Next(), target.Add(d.Next().ToVec().Scale(100.0)))
  }

  /** The movement part of a tick. An idle enemy starts a patrol leg to
      the right; a moving one heads along its direction at its speed and
      turns once it has passed its target. */
  function MoveStep(enemy: Enemy, position: Position, velocity: Velocity): (Enemy, Velocity) {
    match enemy.moveState
    case Idle =>
      (enemy.(moveState := Moving(Right, position.position.Add(Vec2.Right().Scale(100.0)))), velocity)
    case Moving(direction, target) =>
      var newVelocity := Velocity(direction.ToVec().Scale(enemy.speed));
      if target.Sub(position.position).Dot(direction.ToVec()) < 0.0 then
        (enemy.(moveState := Turned(direction, target)), newVelocity)
      else
        (enemy, newVelocity)
  }

  /** The whole tick of one enemy, attack first, as in the source. */
  function EnemyStep(enemy: Enemy, position: Position, velocity: Velocity, weapon: Weapon, delta: real, roll: real): EnemyTick
    requires FireRoll(enemy.attackConfig, roll)
  {
    var (attacked, w) := AttackStep(enemy, weapon, delta, roll);
    var (moved, v) := MoveStep(attacked, position, velocity);
    EnemyTick(moved, v, w)
  }

  /** Four quarter turns are a full turn, and no turn leaves the direction
      as it was. */
  lemma NextIsAFourCycle(d: Direction)
    ensures d.Next().Next().Next().Next() == d
    ensures d.Next() != d && d.Next().Next() != d && d.Next().Next().Next() != d
  {
  }

  /** Each direction's vector is a unit axis vector, the next direction is
      perpendicular to it, and two turns reverse it. */
  lemma ToVecIsATurningAxis(d: Direction)
    ensures d.ToVec().SquaredLength() == 1.0
    ensures d.ToVec().Dot(d.Next().ToVec()) == 0.0
    ensures d.Next().Next().ToVec() == d.ToVec().Scale(-1.0)
  {
    var v, w, u := d.ToVec(), d.Next().ToVec(), d.Next().Next().ToVec();
    match d {
      case Right => assert v == Vec2(1.0, 0.0) && w == Vec2(0.0, 1.0) && u == Vec2(-1.0, 0.0);
      case Down => assert v == Vec2(0.0, 1.0) && w == Vec2(-1.0, 0.0) && u == Vec2(0.0, -1.0);
      case Left => assert v == Vec2(-1.0, 0.0) && w == Vec2(0.0, -1.0) && u == Vec2(1.0, 0.0);
      case Up => assert v == Vec2(0.0, -1.0) && w == Vec2(1.0, 0.0) && u == Vec2(0.0, 1.0);
    }
    assert v.SquaredLength() == v.x * v.x + v.y * v.y;
  }


  /** One patrol leg along `d`. */
  function LegAlong(d: Direction): Vec2 {
    match d
    case Right => Vec2(100.0, 0.0)
    case Down => Vec2(0.0, 100.0)
    case Left => Vec2(-100.0, 0.0)
    case Up => Vec2(0.0, -100.0)
  }

  lemma TurnedByLeg(d: Direction, target: Vec2)
    ensures Turned(d, target) == Moving(d.Next(), target.Add(LegAlong(d.Next())))
  {
    match d {
      case Right =>
      case Down =>
      case Left =>
      case Up =>
    }
  }

  /** A turn moves the target exactly one leg, 100 pixels, along the new
      heading and not at all along the old one. */
  lemma TurnHeadsOneLeg(d: Direction, target: Vec2)
    ensures var r := Turned(d, target);
      && r.target.Sub(target).Dot(r.direction.ToVec()) == 100.0
      && r.target.Sub(target).Dot(d.ToVec()) == 0.0
  {
    var r := Turned(d, target);
    TurnedByLeg(d, target);
    var step, ahead, behind := r.target.Sub(target), r.direction.ToVec(), d.ToVec();
    assert step == LegAlong(d.Next());
    match d {
      case Right =>
        assert step == Vec2(0.0, 100.0) && ahead == Vec2(0.0, 1.0) && behind == Vec2(1.0, 0.0);
      case Down =>
        assert step == Vec2(-100.0, 0.0) && ahead == Vec2(-1.0, 0.0) && behind == Vec2(0.0, 1.0);
      case Left =>
        assert step == Vec2(0.0, -100.0) && ahead == Vec2(0.0, -1.0) && behind == Vec2(-1.0, 0.0);
      case Up =>
        assert step == Vec2(100.0, 0.0) && ahead == Vec2(1.0, 0.0) && behind == Vec2(0.0, -1.0);
    }
    assert step.Dot(ahead) == step.x * ahead.x + step.y * ahead.y;
  }



  lemma LegsCancel(d: Direction, target: Vec2)
    ensures target.Add(LegAlong(d.Next())).Add(LegAlong(d.Next().Next())).Add(LegAlong(d.Next().Next().Next())).Add(LegAlong(d)) == target
  {
    match d {
      case Right =>
      case Down =>
      case Left =>
      case Up =>
    }
  }

  /** The patrol is a closed square: four turns bring back both the
      direction and the target. */
  lemma PatrolClosesSquare(d: Direction, target: Vec2)
    ensures var s1 := Turned(d, target);
      var s2 := Turned(s1.direction, s1.target);
      var s3 := Turned(s2.direction, s2.target);
      Turned(s3.direction, s3.target) == Moving(d, target)
  {
    var d1, d2, d3 := d.Next(), d.Next().Next(), d.Next().Next().Next();
    var t1 := target.Add(LegAlong(d1));
    var t2 := t1.Add(LegAlong(d2));
    var t3 := t2.Add(LegAlong(d3));
    TurnedByLeg(d, target);
    TurnedByLeg(d1, t1);
    TurnedByLeg(d2, t2);
    TurnedByLeg(d3, t3);
    NextIsAFourCycle(d);
    LegsCancel(d, target);
  }

  /** The turn test `dot(target - pos, dir) < 0` holds exactly when the
      enemy has gone past its target along its direction. */
  lemma TurnsOncePastTarget(d: Direction, target: Vec2, pos: Vec2)
    ensures target.Sub(pos).Dot(d.ToVec()) < 0.0 <==>
      match d
      case Right => pos.x > target.x
      case Down => pos.y > target.y
      case Left => pos.x < target.x
      case Up => pos.y < target.y
  {
  }

  /** One tick: the attack cooldown drops by `delta`, and the weapon is
      ordered to fire exactly when it reaches 0 or less, after which the
      cooldown restarts within the configured range. An idle enemy starts
      its patrol without changing velocity; a moving one always gets the
      velocity `direction * speed`, and turns only past its target. */
  lemma EnemyStepBehaviour(enemy: Enemy, position: Position, velocity: Velocity, weapon: Weapon, delta: real, roll: real)
    requires FireRoll(enemy.attackConfig, roll) && ValidConfig(enemy.attackConfig)
    ensures var t := EnemyStep(enemy, position, velocity, weapon, delta, roll);
      var fires := enemy.attackCooldown - delta <= 0.0;
      && t.enemy.speed == enemy.speed && t.enemy.attackConfig == enemy.attackConfig
      && (fires ==> t.weapon == weapon.(command := FireAmount(enemy.attackConfig.amount)) && ValidCommand(t.weapon.command))
      && (fires && enemy.attackConfig.Random? ==>
            enemy.attackConfig.minCooldown <= t.enemy.attackCooldown < enemy.attackConfig.maxCooldown)
      && (!fires ==> t.weapon == weapon && t.enemy.attackCooldown == enemy.attackCooldown - delta)
      && (enemy.moveState == Idle ==>
            t.velocity == velocity && t.enemy.moveState == Moving(Right, position.position.Add(Vec2(100.0, 0.0))))
      && (enemy.moveState.Moving? ==>
            && t.velocity.velocity == enemy.moveState.direction.ToVec().Scale(enemy.speed)
            && (t.enemy.moveState != enemy.moveState <==>
                  enemy.moveState.target.Sub(position.position).Dot(enemy.moveState.direction.ToVec()) < 0.0))
  {
    if enemy.moveState.Moving? {
      var d := enemy.moveState.direction;
      NextIsAFourCycle(d);
    }
  }

  /** `on_enemy_ded`: an enemy leaves a 64-pixel explosion. */
  const ON_ENEMY_DED: DeathReaction := SpawnExplosion(64)

  /** `on_enemy_ded` queues one explosion near the point of death: 64
      pixels wide, living half a second, animated at 30 frames per second
      over a 4 by 4 sheet. */
  lemma EnemyDeathExplodes(at: Vec2, offset: Vec2)
    requires -EXPLOSION_SPREAD <= offset.x < EXPLOSION_SPREAD && -EXPLOSION_SPREAD <= offset.y < EXPLOSION_SPREAD
    ensures var r := OnDeath(ON_ENEMY_DED, at, offset);
      && |r| == 1
      && r[0].sprite.size == Point(64, 64)
      && r[0].sprite.spritesheet == EXPLOSION_SPRITE_ID
      && r[0].lifetime == Lifetime(0.5)
      && r[0].animation == Animation.New(30, 4, 4)
      && at.x - 10.0 <= r[0].position.X() < at.x + 10.0
      && at.y - 10.0 <= r[0].position.Y() < at.y + 10.0
  {
  }

  /** The components queued for one enemy of a wave. */
  datatype EnemyRecord = EnemyRecord(
    position: Position,
    sprite: Sprite,
    velocity: Velocity,
    collider: CircleCollider,
    health: Health,
    damage: Damage,
    enemy: Enemy,
    weapon: Weapon)

  /** Attack pattern of spawned enemies: every 5 to 15 seconds, a burst of 3. */
  const WAVE_ATTACK: AttackConfig := Random(5.0, 15.0, 3)

  /** Screen coordinate of grid line `k` of wave `wave`: the grid starts at
      100 and its lines are 80 / wave pixels apart, in integer arithmetic. */
  function GridCoordinate(k: nat, wave: nat): nat
    requires wave > 0
  {
    100 + k * 80 / wave
  }

  /** Column and row of the i-th enemy created in a wave with `rows` rows. */
  function GridColumn(i: nat, rows: nat): nat
    requires rows > 0
  {
    i / rows
  }

  function GridRow(i: nat, rows: nat): nat
    requires rows > 0
  {
    i % rows
  }

  /** The enemy of wave `wave` in grid cell (`x`, `y`); `roll` is the draw
      that sets its first attack cooldown. */
  function EnemyAt(x: nat, y: nat, wave: nat, roll: real): EnemyRecord
    requires wave > 0 && 0.0 <= roll < 15.0
  {
    EnemyRecord(
      Position.New(GridCoordinate(x, wave) as real, GridCoordinate(y, wave) as real),
      Sprite(BOSS_SPRITE_ID, Rect(0, 0, 128, 128), Point(64 / wave, 64 / wave)),
      Velocity.Default(),
      CircleCollider(32.0, FromEnum(EnemyLayer), FromEnum(PlayerLayer)),
      Health.New(25, ON_ENEMY_DED),
      Damage.New(5),
      Enemy.New(100.0, WAVE_ATTACK, roll),
      Weapon.New(-800.0, 0.5, 5))
  }

  /** The queue entries of a whole wave created from id `first` on, with
      `draw` giving each new entity's cooldown draw. The i-th enemy created
      sits in column i / (4·wave) and row i % (4·wave): columns are filled
      one after another, each from top to bottom. */
  function WaveQueue(wave: nat, first: Entity, draw: Entity -> real): seq<(Entity, EnemyRecord)>
    requires wave > 0
    requires forall e :: 0.0 <= draw(e) < 15.0
  {
    seq(16 * wave * (4 * wave), i requires 0 <= i => WaveEntryAt(wave, first, draw, i))
  }

  /** The queue entry of the i-th enemy of a wave. */
  function WaveEntryAt(wave: nat, first: Entity, draw: Entity -> real, i: nat): (Entity, EnemyRecord)
    requires wave > 0
    requires forall e :: 0.0 <= draw(e) < 15.0
  {
    (first + i, EnemyAt(GridColumn(i, 4 * wave), GridRow(i, 4 * wave), wave, draw(first + i)))
  }

  /** The entries of column `x` of a wave, top to bottom. */
  function WaveColumn(wave: nat, first: Entity, draw: Entity -> real, x: nat): (r: seq<(Entity, EnemyRecord)>)
    requires wave > 0 && x < 16 * wave
    requires forall e :: 0.0 <= draw(e) < 15.0
    ensures |r| == 4 * wave
  {
    MulBelow(x, 16 * wave, 4 * wave);
    WaveQueue(wave, first, draw)[x * (4 * wave)..x * (4 * wave) + 4 * wave]
  }

  /** The i-th entry of a wave, and the cell it lies in. */
  lemma WaveEntry(wave: nat, first: Entity, draw: Entity -> real, i: nat)
    requires wave > 0
    requires forall e :: 0.0 <= draw(e) < 15.0
    requires i < |WaveQueue(wave, first, draw)|
    ensures WaveQueue(wave, first, draw)[i] ==
      (first + i, EnemyAt(GridColumn(i, 4 * wave), GridRow(i, 4 * wave), wave, draw(first + i)))
    ensures GridColumn(i, 4 * wave) < 16 * wave && GridRow(i, 4 * wave) < 4 * wave
  {
    DivBelow(i, 4 * wave, 16 * wave);
  }

  /** Grid line k of a grid with n·wave lines lies in [100, 100 + 80·n). */
  lemma GridCoordinateBound(k: nat, wave: nat, n: nat)
    requires wave > 0 && k < n * wave
    ensures 100 <= GridCoordinate(k, wave) < 100 + 80 * n
  {
    MulBelow(k, n * wave, 80);
    assert k * 80 < (80 * n) * wave;
    DivBelow(k * 80, wave, 80 * n);
  }

  /** Wave `wave` has 16·wave columns of 4·wave enemies, and every enemy is
      placed inside the rectangle [100, 1380) × [100, 420): the grid keeps
      its extent and only grows denser. */
  lemma WaveFillsArena(wave: nat, first: Entity, draw: Entity -> real)
    requires wave > 0
    requires forall e :: 0.0 <= draw(e) < 15.0
    ensures |WaveQueue(wave, first, draw)| == 64 * wave * wave
    ensures forall i :: 0 <= i < |WaveQueue(wave, first, draw)| ==>
      var p := WaveQueue(wave, first, draw)[i].1.position;
      100.0 <= p.X() < 1380.0 && 100.0 <= p.Y() < 420.0
  {
    var q := WaveQueue(wave, first, draw);
    assert 16 * wave * (4 * wave) == 64 * wave * wave;
    forall i | 0 <= i < |q|
      ensures var p := q[i].1.position; 100.0 <= p.X() < 1380.0 && 100.0 <= p.Y() < 420.0
    {
      WaveEntry(wave, first, draw, i);
      GridCoordinateBound(GridColumn(i, 4 * wave), wave, 16);
      GridCoordinateBound(GridRow(i, 4 * wave), wave, 4);
    }
  }

  /** Every enemy of a wave starts idle with full health 25, contact damage
      5, a first attack within 15 seconds, the random 5-to-15-second burst
      pattern, and a downward-firing weapon that is not yet firing. */
  lemma WaveEnemiesStartFresh(wave: nat, first: Entity, draw: Entity -> real)
    requires wave > 0
    requires forall e :: 0.0 <= draw(e) < 15.0
    ensures forall i :: 0 <= i < |WaveQueue(wave, first, draw)| ==>
      var r := WaveQueue(wave, first, draw)[i];
      && r.0 == first + i
      && r.1.health.health == 25 && r.1.health.Valid() && r.1.damage.damage == 5
      && r.1.enemy.moveState == Idle && 0.0 <= r.1.enemy.attackCooldown < 15.0
      && ValidConfig(r.1.enemy.attackConfig)
      && r.1.weapon.command == Waiting && r.1.weapon.speed < 0.0
  {
    forall i | 0 <= i < |WaveQueue(wave, first, draw)|
      ensures var r := WaveQueue(wave, first, draw)[i];
        && r.0 == first + i
        && r.1.health.health == 25 && r.1.health.Valid() && r.1.damage.damage == 5
        && r.1.enemy.moveState == Idle && 0.0 <= r.1.enemy.attackCooldown < 15.0
        && ValidConfig(r.1.enemy.attackConfig)
        && r.1.weapon.command == Waiting && r.1.weapon.speed < 0.0
    {
      WaveEntry(wave, first, draw, i);
    }
  }

  /** The part of the world the enemy systems read and write. */
  class World {
    var positions: map<Entity, Position>
    var enemies: map<Entity, Enemy>
    var velocities: map<Entity, Velocity>
    var weapons: map<Entity, Weapon>
    /** The id the next `Entities::create` hands out. */
    var nextEntity: Entity
    /** Creations queued on `LazyUpdate`, oldest first. */
    var created: seq<(Entity, EnemyRecord)>

    /** Every stored entity has been handed out; configurations and weapon
        commands are valid. */
    predicate Valid()
      reads this
    {
      Storages(positions, enemies, velocities, weapons).Valid(nextEntity)
    }

    constructor(positions: map<Entity, Position>, enemies: map<Entity, Enemy>, velocities: map<Entity, Velocity>,
                weapons: map<Entity, Weapon>, nextEntity: Entity)
      ensures this.positions == positions && this.enemies == enemies && this.velocities == velocities
      ensures this.weapons == weapons && this.nextEntity == nextEntity && created == []
    {
      this.positions := positions;
      this.enemies := enemies;
      this.velocities := velocities;
      this.weapons := weapons;
      this.nextEntity := nextEntity;
      created := [];
    }

    /** `EnemySystem::run`: one tick for every entity with a position, an
        enemy, a velocity and a weapon, in id order. `roll(e)` is the draw
        `fire` makes for entity `e`. */
    method EnemySystem(delta: real, roll: Entity -> real)
      requires Valid()
      requires forall e :: e in enemies ==> FireRoll(enemies[e].attackConfig, roll(e))
      modifies this`enemies, this`velocities, this`weapons
      ensures Valid()
      ensures enemies == TickedEnemies(old(enemies), Ticks(Storages(positions, old(enemies), old(velocities), old(weapons)), delta, roll), nextEntity)
      ensures velocities == TickedVelocities(old(velocities), Ticks(Storages(positions, old(enemies), old(velocities), old(weapons)), delta, roll), nextEntity)
      ensures weapons == TickedWeapons(old(weapons), Ticks(Storages(positions, old(enemies), old(velocities), old(weapons)), delta, roll), nextEntity)
    {
      ghost var s := Storages(positions, enemies, velocities, weapons);
      ghost var ticks := Ticks(s, delta, roll);
      var positions, enemies, velocities, weapons, bound := positions, enemies, velocities, weapons, nextEntity;
      var e := 0;
      while e < bound
        invariant e <= bound
        invariant enemies == TickedEnemies(s.enemies, ticks, e)
        invariant velocities == TickedVelocities(s.velocities, ticks, e)
        invariant weapons == TickedWeapons(s.weapons, ticks, e)
      {
        enemies, velocities, weapons := VisitEnemy(e, positions, enemies, velocities, weapons, delta, roll, s);
        e := e + 1;
      }
      TicksKeepValid(s, delta, roll, bound);
      this.enemies, this.velocities, this.weapons := enemies, velocities, weapons;
    }
  }

  datatype Storages = Storages(positions: map<Entity, Position>, enemies: map<Entity, Enemy>,
                               velocities: map<Entity, Velocity>, weapons: map<Entity, Weapon>)
  {
    predicate Joined(e: Entity) {
      e in positions && e in enemies && e in velocities && e in weapons
    }

    /** Every stored entity lies below `bound`; configurations and weapon
        commands are valid. */
    predicate Valid(bound: nat) {
      && (forall e :: e in positions ==> e < bound)
      && (forall e :: e in enemies ==> e < bound)
      && (forall e :: e in velocities ==> e < bound)
      && (forall e :: e in weapons ==> e < bound)
      && (forall e :: e in enemies ==> ValidConfig(enemies[e].attackConfig))
      && WeaponsValid(weapons)
    }

    predicate Rolls(roll: Entity -> real) {
      forall e :: e in enemies ==> FireRoll(enemies[e].attackConfig, roll(e))
    }

    function Step(e: Entity, delta: real, roll: Entity -> real): EnemyTick
      requires Joined(e) && Rolls(roll)
    {
      EnemyStep(enemies[e], positions[e], velocities[e], weapons[e], delta, roll(e))
    }
  }

  /** The tick of every entity the system visits, computed from the
      storages as they were before the system ran. */
  function Ticks(s: Storages, delta: real, roll: Entity -> real): map<Entity, EnemyTick>
    requires s.Rolls(roll)
  {
    map e | e in s.enemies && s.Joined(e) :: s.Step(e, delta, roll)
  }

  /** The enemies after the ticks of the ids below `bound` are applied. */
  function TickedEnemies(enemies: map<Entity, Enemy>, ticks: map<Entity, EnemyTick>, bound: nat): map<Entity, Enemy> {
    map e | e in enemies :: if e < bound && e in ticks then ticks[e].enemy else enemies[e]
  }

  function TickedVelocities(velocities: map<Entity, Velocity>, ticks: map<Entity, EnemyTick>, bound: nat): map<Entity, Velocity> {
    map e | e in velocities :: if e < bound && e in ticks then ticks[e].velocity else velocities[e]
  }

  function TickedWeapons(weapons: map<Entity, Weapon>, ticks: map<Entity, EnemyTick>, bound: nat): map<Entity, Weapon> {
    map e | e in weapons :: if e < bound && e in ticks then ticks[e].weapon else weapons[e]
  }

  /** The body of the loop in `EnemySystem::run` for entity `e`: when `e`
      has all four components, its tick is applied to the three storages the
      system writes. */
  method VisitEnemy(e: Entity, positions: map<Entity, Position>, enemies: map<Entity, Enemy>,
                    velocities: map<Entity, Velocity>, weapons: map<Entity, Weapon>,
                    delta: real, roll: Entity -> real, ghost s: Storages)
    returns (enemies': map<Entity, Enemy>, velocities': map<Entity, Velocity>, weapons': map<Entity, Weapon>)
    requires s.Rolls(roll) && positions == s.positions
    requires enemies == TickedEnemies(s.enemies, Ticks(s, delta, roll), e)
    requires velocities == TickedVelocities(s.velocities, Ticks(s, delta, roll), e)
    requires weapons == TickedWeapons(s.weapons, Ticks(s, delta, roll), e)
    ensures enemies' == TickedEnemies(s.enemies, Ticks(s, delta, roll), e + 1)
    ensures velocities' == TickedVelocities(s.velocities, Ticks(s, delta, roll), e + 1)
    ensures weapons' == TickedWeapons(s.weapons, Ticks(s, delta, roll), e + 1)
  {
    ghost var ticks := Ticks(s, delta, roll);
    TickedOneMore(s, ticks, e);
    enemies', velocities', weapons' := enemies, velocities, weapons;
    if e in positions && e in enemies && e in velocities && e in weapons {
      assert e in ticks && ticks[e] == s.Step(e, delta, roll);
      var t := StepEnemy(enemies[e], positions[e], velocities[e], weapons[e], delta, roll(e));
      enemies' := enemies[e := t.enemy];
      velocities' := velocities[e := t.velocity];
      weapons' := weapons[e := t.weapon];
    } else {
      assert e !in ticks;
    }
  }

  /** The body of the loop in `EnemySystem::run`: one enemy's tick. The
      components are passed in and their new values returned. */
  method StepEnemy(enemy: Enemy, position: Position, velocity: Velocity, weapon: Weapon, delta: real, roll: real)
    returns (t: EnemyTick)
    requires FireRoll(enemy.attackConfig, roll)
    ensures t == EnemyStep(enemy, position, velocity, weapon, delta, roll)
  {
    var enemy, velocity, weapon := enemy, velocity, weapon;
    enemy := enemy.(attackCooldown := enemy.attackCooldown - delta);
    if enemy.attackCooldown <= 0.0 {
      enemy, weapon := Fire(enemy, weapon, roll);
    }
    match enemy.moveState {
      case Idle =>
        var target := position.position.Add(Vec2.Right().Scale(100.0));
        enemy := enemy.(moveState := Moving(Right, target));
      case Moving(direction, target) =>
        var dotProd := target.Sub(position.position).Dot(direction.ToVec());
        var newVel := direction.ToVec().Scale(enemy.speed);
        velocity := velocity.(velocity := newVel);
        if dotProd < 0.0 {
          var newDirection := direction.Next();
          var newTarget := target.Add(newDirection.ToVec().Scale(100.0));
          enemy := enemy.(moveState := Moving(newDirection, newTarget));
        }
    }
    t := EnemyTick(enemy, velocity, weapon);
  }

  /** Applying the tick of id `e` as well updates exactly that entry. */
  lemma TickedOneMore(s: Storages, ticks: map<Entity, EnemyTick>, e: Entity)
    ensures e in s.enemies ==> TickedEnemies(s.enemies, ticks, e)[e] == s.enemies[e]
    ensures e in s.velocities ==> TickedVelocities(s.velocities, ticks, e)[e] == s.velocities[e]
    ensures e in s.weapons ==> TickedWeapons(s.weapons, ticks, e)[e] == s.weapons[e]
    ensures TickedEnemies(s.enemies, ticks, e + 1) ==
      if e in ticks && e in s.enemies then TickedEnemies(s.enemies, ticks, e)[e := ticks[e].enemy] else TickedEnemies(s.enemies, ticks, e)
    ensures TickedVelocities(s.velocities, ticks, e + 1) ==
      if e in ticks && e in s.velocities then TickedVelocities(s.velocities, ticks, e)[e := ticks[e].velocity] else TickedVelocities(s.velocities, ticks, e)
    ensures TickedWeapons(s.weapons, ticks, e + 1) ==
      if e in ticks && e in s.weapons then TickedWeapons(s.weapons, ticks, e)[e := ticks[e].weapon] else TickedWeapons(s.weapons, ticks, e)
  {
  }

  /** The enemy system keeps the storages valid. */
  lemma TicksKeepValid(s: Storages, delta: real, roll: Entity -> real, bound: nat)
    requires s.Rolls(roll) && s.Valid(bound)
    ensures var ticks := Ticks(s, delta, roll);
      Storages(s.positions, TickedEnemies(s.enemies, ticks, bound), TickedVelocities(s.velocities, ticks, bound),
               TickedWeapons(s.weapons, ticks, bound)).Valid(bound)
  {
    EnemySystemTouchesOnlyJoined(s, delta, roll, bound);
  }

  /** The enemy system keeps every storage's entities, touches only
      entities with all four components, and leaves each weapon that it
      orders to fire with a valid burst. */
  lemma EnemySystemTouchesOnlyJoined(s: Storages, delta: real, roll: Entity -> real, bound: nat)
    requires s.Rolls(roll)
    requires forall e :: e in s.enemies ==> ValidConfig(s.enemies[e].attackConfig)
    requires WeaponsValid(s.weapons)
    ensures var ticks := Ticks(s, delta, roll);
      && TickedEnemies(s.enemies, ticks, bound).Keys == s.enemies.Keys
      && TickedWeapons(s.weapons, ticks, bound).Keys == s.weapons.Keys
      && TickedVelocities(s.velocities, ticks, bound).Keys == s.velocities.Keys
      && (forall e :: e in s.enemies ==> TickedEnemies(s.enemies, ticks, bound)[e].attackConfig == s.enemies[e].attackConfig)
      && (forall e :: e in s.weapons && !s.Joined(e) ==> TickedWeapons(s.weapons, ticks, bound)[e] == s.weapons[e])
      && (forall e :: e in s.velocities && !s.Joined(e) ==> TickedVelocities(s.velocities, ticks, bound)[e] == s.velocities[e])
      && (forall e :: e in s.enemies && !s.Joined(e) ==> TickedEnemies(s.enemies, ticks, bound)[e] == s.enemies[e])
      && WeaponsValid(TickedWeapons(s.weapons, ticks, bound))
  {
    var ticks := Ticks(s, delta, roll);
    var w := TickedWeapons(s.weapons, ticks, bound);
    forall e | e in w
      ensures ValidCommand(w[e].command)
    {
      if e < bound && e in ticks {
        EnemyStepBehaviour(s.enemies[e], s.positions[e], s.velocities[e], s.weapons[e], delta, roll(e));
      }
    }
    var en := TickedEnemies(s.enemies, ticks, bound);
    forall e | e in s.enemies
      ensures en[e].attackConfig == s.enemies[e].attackConfig
    {
      if e < bound && e in ticks {
        EnemyStepBehaviour(s.enemies[e], s.positions[e], s.velocities[e], s.weapons[e], delta, roll(e));
      }
    }
  }

  /** The first loop of `EnemySpawnerSystem::run`: count the entities that
      have an enemy component. */
  method CountEnemies(enemies: map<Entity, Enemy>, bound: nat) returns (count: nat)
    requires forall k :: k in enemies ==> k < bound
    ensures count == |enemies|
    ensures count == 0 <==> enemies == map[]
  {
    count := 0;
    var e := 0;
    while e < bound
      invariant e <= bound
      invariant count == |set k | k in enemies && k < e|
    {
      if e in enemies {
        assert (set k | k in enemies && k < e + 1) == (set k | k in enemies && k < e) + {e};
        count := count + 1;
      } else {
        assert (set k | k in enemies && k < e + 1) == (set k | k in enemies && k < e);
      }
      e := e + 1;
    }
    assert (set k | k in enemies && k < bound) == enemies.Keys;
    if enemies != map[] {
      var k :| k in enemies;
      assert k in enemies.Keys;
    }
  }

  /** The inner loop of the spawner for column `x` of wave `wave`: queue
      its 4·wave enemies from top to bottom. `first` is the id the wave's
      first enemy received. */
  method SpawnColumn(world: World, wave: nat, x: nat, ghost first: Entity, draw: Entity -> real)
    requires world.Valid()
    requires wave > 0 && x < 16 * wave
    requires forall e :: 0.0 <= draw(e) < 15.0
    requires world.nextEntity == first + x * (4 * wave)
    modifies world`nextEntity, world`created
    ensures world.Valid()
    ensures world.nextEntity == old(world.nextEntity) + 4 * wave
    ensures world.created == old(world.created) + WaveColumn(wave, first, draw, x)
  {
    var rows := 4 * wave;
    ghost var queue := WaveQueue(wave, first, draw);
    ghost var start := x * rows;
    MulBelow(x, 16 * wave, rows);
    var nextEntity, created := world.nextEntity, world.created;
    var y := 0;
    while y < rows
      invariant y <= rows
      invariant nextEntity == first + start + y
      invariant created == old(world.created) + queue[start..start + y]
    {
      var newEnemy := nextEntity;
      nextEntity := nextEntity + 1;
      DivModUnique(x, rows, y);
      assert GridColumn(start + y, rows) == x && GridRow(start + y, rows) == y;
      var record := EnemyAt(x, y, wave, draw(newEnemy));
      assert queue[start + y] == (newEnemy, record);
      SliceExtend(queue, start, start + y);
      created := created + [(newEnemy, record)];
      y := y + 1;
    }
    world.nextEntity, world.created := nextEntity, created;
    assert WaveColumn(wave, first, draw, x) == queue[start..start + rows];
  }

  /** The nested loops of the spawner: queue all 16·wave columns. */
  method SpawnWave(world: World, wave: nat, draw: Entity -> real)
    requires world.Valid()
    requires wave > 0
    requires forall e :: 0.0 <= draw(e) < 15.0
    modifies world`nextEntity, world`created
    ensures world.Valid()
    ensures world.created == old(world.created) + WaveQueue(wave, old(world.nextEntity), draw)
    ensures world.nextEntity == old(world.nextEntity) + |WaveQueue(wave, old(world.nextEntity), draw)|
  {
    ghost var first := world.nextEntity;
    ghost var queue := WaveQueue(wave, first, draw);
    var rows := 4 * wave;
    var x := 0;
    while x < 16 * wave
      invariant x <= 16 * wave
      invariant world.Valid()
      invariant world.nextEntity == first + x * rows
      invariant x * rows <= |queue|
      invariant world.created == old(world.created) + queue[..x * rows]
    {
      MulBelow(x, 16 * wave, rows);
      SpawnColumn(world, wave, x, first, draw);
      assert WaveColumn(wave, first, draw, x) == queue[x * rows..x * rows + rows];
      assert queue[..x * rows + rows] == queue[..x * rows] + queue[x * rows..x * rows + rows];
      assert (x + 1) * rows == x * rows + rows;
      x := x + 1;
    }
    assert queue[..x * rows] == queue;
  }

  /** `EnemySpawnerSystem`: the number of the last wave sent. */
  class EnemySpawnerSystem {
    var waveCounter: nat

    /** `EnemySpawnerSystem::default`: no wave sent yet. */
    constructor()
      ensures waveCounter == 0
    {
      waveCounter := 0;
    }

    /** `EnemySpawnerSystem::run`: count the enemies; if there are none,
        send the next wave, queueing its enemies column by column. `draw(e)`
        is the draw `Enemy::new` makes for new entity `e`. */
    method Run(world: World, draw: Entity -> real)
      requires world.Valid()
      requires forall e :: 0.0 <= draw(e) < 15.0
      modifies this, world`nextEntity, world`created
      ensures world.Valid()
      ensures old(world.enemies) == map[] ==>
        && waveCounter == old(waveCounter) + 1
        && world.created == old(world.created) + WaveQueue(waveCounter, old(world.nextEntity), draw)
        && world.nextEntity == old(world.nextEntity) + 64 * waveCounter * waveCounter
      ensures old(world.enemies) != map[] ==>
        waveCounter == old(waveCounter) && world.created == old(world.created) && world.nextEntity == old(world.nextEntity)
    {
      var enemyCount := CountEnemies(world.enemies, world.nextEntity);
      if enemyCount == 0 {
        waveCounter := waveCounter + 1;
        WaveFillsArena(waveCounter, world.nextEntity, draw);
        SpawnWave(world, waveCounter, draw);
      }
    }
  }

  /** A fresh spawner sends wave 1 into an empty world: 64 enemies on an
      80-pixel grid from (100, 100) to (1300, 340). */
  lemma FirstWave(first: Entity, draw: Entity -> real)
    requires forall e :: 0.0 <= draw(e) < 15.0
    ensures |WaveQueue(1, first, draw)| == 64
    ensures WaveQueue(1, first, draw)[0].1.position == Position.New(100.0, 100.0)
    ensures WaveQueue(1, first, draw)[63].1.position == Position.New(1300.0, 340.0)
  {
    WaveEntry(1, first, draw, 0);
    WaveEntry(1, first, draw, 63);
    assert GridColumn(63, 4) == 15 && GridRow(63, 4) == 3;
    assert GridCoordinate(15, 1) == 1300 && GridCoordinate(3, 1) == 340;
  }
}
