// The per-tick systems of src/ecs/systems.rs, written against the older
// component API (LegacyComponents): lifetime expiry, position integration,
// the keyboard-to-velocity mapping and the `wants_to_fire` weapon rule.

module Systems {
  import opened Ecs
  import opened LegacyComponents
  import opened Inputs
  import C = Components

  // ---------------------------------------------------------------- lifetimes

  /** The lifetimes after `elapsed` seconds, for the ids below `bound`. */
  function AgedBelow(lifetimes: map<Entity, Lifetime>, elapsed: real, bound: nat): map<Entity, Lifetime> {
    map e | e in lifetimes :: if e < bound then Lifetime(lifetimes[e].timeLeft - elapsed) else lifetimes[e]
  }

  /** The ids below `bound` whose lifetime runs out within `elapsed`: the new
      time left is negative. In id order. */
  function ExpiredBelow(lifetimes: map<Entity, Lifetime>, elapsed: real, bound: nat): seq<Entity> {
    if bound == 0 then []
    else
      var e := bound - 1;
      ExpiredBelow(lifetimes, elapsed, e) + (if e in lifetimes && lifetimes[e].timeLeft - elapsed < 0.0 then [e] else [])
  }

  /** An entity is deleted exactly when it has a lifetime whose new value is
      below zero, strictly: an entity whose time left reaches exactly 0 lives
      one more tick. Each entity is deleted at most once, in id order. */
  lemma {:induction false} ExpiredExactly(lifetimes: map<Entity, Lifetime>, elapsed: real, bound: nat)
    ensures forall e :: e in ExpiredBelow(lifetimes, elapsed, bound) <==>
      e < bound && e in lifetimes && AgedBelow(lifetimes, elapsed, bound)[e].timeLeft < 0.0
    ensures forall i, j :: 0 <= i < j < |ExpiredBelow(lifetimes, elapsed, bound)| ==>
      ExpiredBelow(lifetimes, elapsed, bound)[i] < ExpiredBelow(lifetimes, elapsed, bound)[j]
  {
    if bound > 0 {
      var e := bound - 1;
      ExpiredExactly(lifetimes, elapsed, e);
      var prev := ExpiredBelow(lifetimes, elapsed, e);
      var last: seq<Entity> := if e in lifetimes && lifetimes[e].timeLeft - elapsed < 0.0 then [e] else [];
      var all := ExpiredBelow(lifetimes, elapsed, bound);
      assert all == prev + last;
      forall i, j | 0 <= i < j < |all|
        ensures all[i] < all[j]
      {
        if j >= |prev| {
          assert all[i] == prev[i] && prev[i] in prev;
        }
      }
    }
  }

  // ---------------------------------------------------------------- positions

  /** `pos.x += vel.x * delta; pos.y += vel.y * delta`. */
  function Moved(p: Position, v: Velocity, delta: real): Position {
    Position(p.x + v.x * delta, p.y + v.y * delta)
  }

  /** The positions after the ids below `bound` have been integrated. */
  function MovedBelow(positions: map<Entity, Position>, velocities: map<Entity, Velocity>, delta: real, bound: nat): map<Entity, Position> {
    map e | e in positions :: if e < bound && e in velocities then Moved(positions[e], velocities[e], delta) else positions[e]
  }

  /** Integration moves each entity by its velocity times the time step,
      leaves entities without a velocity where they are, and two steps with
      an unchanged velocity add up to one step over the summed time. */
  lemma PositionIntegration(p: Position, v: Velocity, d1: real, d2: real)
    ensures Moved(p, v, d1).x - p.x == v.x * d1 && Moved(p, v, d1).y - p.y == v.y * d1
    ensures Moved(Moved(p, v, d1), v, d2) == Moved(p, v, d1 + d2)
    ensures Moved(p, v, 0.0) == p
  {
    assert v.x * d1 + v.x * d2 == v.x * (d1 + d2);
    assert v.y * d1 + v.y * d2 == v.y * (d1 + d2);
  }

  // ---------------------------------------------------------------- steering

  /** The velocity of a keyboard-controlled entity after the input system:
      later keys override earlier ones, so Down wins over Up and Right over
      Left; with no arrow key held the entity stops. */
  function Steering(input: Input): (v: Velocity)
    ensures v.x in {-400.0, 0.0, 400.0} && v.y in {-400.0, 0.0, 400.0}
  {
    var y := if input.GetKey(SCANCODE_DOWN).held then 400.0
             else if input.GetKey(SCANCODE_UP).held then -400.0
             else 0.0;
    var x := if input.GetKey(SCANCODE_RIGHT).held then 400.0
             else if input.GetKey(SCANCODE_LEFT).held then -400.0
             else 0.0;
    Velocity(x, y)
  }

  /** How each arrow key decides the velocity. */
  lemma SteeringByArrows(input: Input)
    ensures Steering(input).y == 400.0 <==> input.GetKey(SCANCODE_DOWN).held
    ensures Steering(input).y == -400.0 <==> input.GetKey(SCANCODE_UP).held && !input.GetKey(SCANCODE_DOWN).held
    ensures Steering(input).y == 0.0 <==> !input.GetKey(SCANCODE_UP).held && !input.GetKey(SCANCODE_DOWN).held
    ensures Steering(input).x == 400.0 <==> input.GetKey(SCANCODE_RIGHT).held
    ensures Steering(input).x == -400.0 <==> input.GetKey(SCANCODE_LEFT).held && !input.GetKey(SCANCODE_RIGHT).held
    ensures Steering(input).x == 0.0 <==> !input.GetKey(SCANCODE_LEFT).held && !input.GetKey(SCANCODE_RIGHT).held
  {
  }

  /** With nothing pressed, as in a fresh snapshot, controlled entities stand
      still. */
  lemma QuietInputStops()
    ensures Steering(Input.New()) == Velocity(0.0, 0.0)
  {
    FreshInputIsQuiet(SCANCODE_UP, Unknown);
    FreshInputIsQuiet(SCANCODE_DOWN, Unknown);
    FreshInputIsQuiet(SCANCODE_LEFT, Unknown);
    FreshInputIsQuiet(SCANCODE_RIGHT, Unknown);
  }

  /** One pass `for (velocity, _) in (&mut velocity, &controlled).join()`
      that assigns `x` (when `setX`) or `y` (otherwise) of every controlled
      entity's velocity. */
  method SetControlled(velocities: map<Entity, Velocity>, controlled: set<Entity>, bound: nat, setX: bool, value: real)
    returns (r: map<Entity, Velocity>)
    requires forall e :: e in velocities ==> e < bound
    ensures r.Keys == velocities.Keys
    ensures forall e :: e in r && e in controlled ==>
      r[e] == if setX then velocities[e].(x := value) else velocities[e].(y := value)
    ensures forall e :: e in r && e !in controlled ==> r[e] == velocities[e]
  {
    r := velocities;
    var e := 0;
    while e < bound
      invariant e <= bound
      invariant r.Keys == velocities.Keys
      invariant forall k :: k in r && k in controlled && k < e ==>
        r[k] == if setX then velocities[k].(x := value) else velocities[k].(y := value)
      invariant forall k :: k in r && (k !in controlled || k >= e) ==> r[k] == velocities[k]
    {
      if e in r && e in controlled {
        r := r[e := if setX then r[e].(x := value) else r[e].(y := value)];
      }
      e := e + 1;
    }
  }

  /** The velocity passes of `InputSystem::run`: stop every controlled
      entity, then one pass for each held arrow key, Up, Down, Left, Right. */
  method Steer(velocities: map<Entity, Velocity>, controlled: set<Entity>, bound: nat, input: Input)
    returns (v: map<Entity, Velocity>)
    requires forall e :: e in velocities ==> e < bound
    ensures v.Keys == velocities.Keys
    ensures forall e :: e in v ==> v[e] == if e in controlled then Steering(input) else velocities[e]
  {
    var up, down := input.GetKey(SCANCODE_UP).held, input.GetKey(SCANCODE_DOWN).held;
    var left, right := input.GetKey(SCANCODE_LEFT).held, input.GetKey(SCANCODE_RIGHT).held;
    v := SetControlled(velocities, controlled, bound, false, 0.0);
    v := SetControlled(v, controlled, bound, true, 0.0);
    assert forall e :: e in v && e in controlled ==> v[e] == Velocity(0.0, 0.0);
    if up {
      v := SetControlled(v, controlled, bound, false, -400.0);
    }
    if down {
      v := SetControlled(v, controlled, bound, false, 400.0);
    }
    ghost var y := if down then 400.0 else if up then -400.0 else 0.0;
    assert forall e :: e in v && e in controlled ==> v[e] == Velocity(0.0, y);
    if left {
      v := SetControlled(v, controlled, bound, true, -400.0);
    }
    if right {
      v := SetControlled(v, controlled, bound, true, 400.0);
    }
  }

  /** The pass over controlled weapons: `weapon.wants_to_fire = should_fire`. */
  method SetWantsToFire(weapons: map<Entity, Weapon>, controlled: set<Entity>, bound: nat, shouldFire: bool)
    returns (r: map<Entity, Weapon>)
    requires forall e :: e in weapons ==> e < bound
    ensures r.Keys == weapons.Keys
    ensures forall e :: e in r && e in controlled ==> r[e] == weapons[e].(wantsToFire := shouldFire)
    ensures forall e :: e in r && e !in controlled ==> r[e] == weapons[e]
  {
    r := weapons;
    var e := 0;
    while e < bound
      invariant e <= bound
      invariant r.Keys == weapons.Keys
      invariant forall k :: k in r && k in controlled && k < e ==> r[k] == weapons[k].(wantsToFire := shouldFire)
      invariant forall k :: k in r && (k !in controlled || k >= e) ==> r[k] == weapons[k]
    {
      if e in r && e in controlled {
        r := r[e := r[e].(wantsToFire := shouldFire)];
      }
      e := e + 1;
    }
  }

  // ---------------------------------------------------------------- weapons

  /** The projectile record the old weapon system queues. */
  datatype Projectile = Projectile(
    position: Position,
    sprite: C.Sprite,
    velocity: Velocity,
    lifetime: Lifetime,
    collider: CircleCollider,
    name: Name)

  /** What a shot from `weapon` at `position` queues. */
  function ProjectileFor(position: Position, weapon: Weapon): Projectile {
    Projectile(
      position,
      C.Sprite(2, C.Rect(0, 0, 16, 16), C.Point(32, 32)),
      Velocity(0.0, -weapon.speed),
      Lifetime(0.5),
      CircleCollider(16.0, 3),
      Name("Projectile"))
  }

  /** Whether `handle_weapon` fires: the owner wants to, and the cooldown,
      already counted down by `delta`, has run out. */
  predicate FiresNow(weapon: Weapon, delta: real) {
    weapon.wantsToFire && weapon.cooldown - delta <= 0.0
  }

  /** The weapon after `handle_weapon`. */
  function Handled(weapon: Weapon, delta: real): Weapon {
    if FiresNow(weapon, delta) then weapon.(cooldown := weapon.timeBetweenShots)
    else weapon.(cooldown := weapon.cooldown - delta)
  }

  /** The projectile `handle_weapon` queues for these components, if any. */
  function ShotFrom(position: Position, weapon: Weapon, delta: real): (r: seq<Projectile>)
    ensures |r| <= 1
  {
    if FiresNow(weapon, delta) then [ProjectileFor(position, weapon)] else []
  }

  /** The old fire rule: a projectile leaves exactly when the owner wants
      to fire and the cooldown has run out; firing restarts the cooldown at
      `time_between_shots`, otherwise it keeps running down. The shot starts
      at the owner, flies up at the weapon's speed, lives half a second and
      is named "Projectile". Nothing else of the weapon changes. */
  lemma OldFireRule(position: Position, weapon: Weapon, delta: real)
    ensures |ShotFrom(position, weapon, delta)| == 1 <==> weapon.wantsToFire && weapon.cooldown - delta <= 0.0
    ensures !weapon.wantsToFire ==> ShotFrom(position, weapon, delta) == []
    ensures Handled(weapon, delta).cooldown ==
      if |ShotFrom(position, weapon, delta)| == 1 then weapon.timeBetweenShots else weapon.cooldown - delta
    ensures Handled(weapon, delta).(cooldown := weapon.cooldown) == weapon
    ensures forall p :: p in ShotFrom(position, weapon, delta) ==>
      && p.position == position && p.velocity == Velocity(0.0, -weapon.speed)
      && p.lifetime == Lifetime(0.5) && p.collider == CircleCollider(16.0, 3) && p.name == Name("Projectile")
  {
  }

  /** The weapons after the ids below `bound` have been handled. */
  function HandledBelow(positions: map<Entity, Position>, weapons: map<Entity, Weapon>, delta: real, bound: nat): map<Entity, Weapon> {
    map e | e in weapons :: if e < bound && e in positions then Handled(weapons[e], delta) else weapons[e]
  }

  /** The projectiles fired by the ids below `bound`, in id order. */
  function ShotsBelow(positions: map<Entity, Position>, weapons: map<Entity, Weapon>, delta: real, bound: nat): seq<Projectile> {
    if bound == 0 then []
    else
      var e := bound - 1;
      ShotsBelow(positions, weapons, delta, e) +
        (if e in positions && e in weapons then ShotFrom(positions[e], weapons[e], delta) else [])
  }

  /** Handling id `bound` as well updates exactly its weapon, which the ids
      before it have left as it was, and appends its shot, if any. */
  lemma HandledOneMore(positions: map<Entity, Position>, weapons: map<Entity, Weapon>, delta: real, bound: nat)
    ensures bound in weapons ==> HandledBelow(positions, weapons, delta, bound)[bound] == weapons[bound]
    ensures HandledBelow(positions, weapons, delta, bound + 1) ==
      if bound in positions && bound in weapons
      then HandledBelow(positions, weapons, delta, bound)[bound := Handled(weapons[bound], delta)]
      else HandledBelow(positions, weapons, delta, bound)
    ensures ShotsBelow(positions, weapons, delta, bound + 1) == ShotsBelow(positions, weapons, delta, bound) +
      if bound in positions && bound in weapons then ShotFrom(positions[bound], weapons[bound], delta) else []
  {
  }

  /** Exactly the entities with a position and a weapon that wants to fire
      and is ready shoot, one projectile each. */
  lemma {:induction false} OneShotPerReadyWeapon(positions: map<Entity, Position>, weapons: map<Entity, Weapon>, delta: real, bound: nat)
    ensures |ShotsBelow(positions, weapons, delta, bound)| ==
      |set e | e < bound && e in positions && e in weapons && FiresNow(weapons[e], delta)|
  {
    var s := set e | e < bound && e in positions && e in weapons && FiresNow(weapons[e], delta);
    if bound > 0 {
      OneShotPerReadyWeapon(positions, weapons, delta, bound - 1);
      var before := set e | e < bound - 1 && e in positions && e in weapons && FiresNow(weapons[e], delta);
      var e := bound - 1;
      if e in positions && e in weapons && FiresNow(weapons[e], delta) {
        assert s == before + {e};
      } else {
        assert s == before;
      }
    } else {
      assert s == {};
    }
  }

  // ---------------------------------------------------------------- the world

  /** The storages the systems of this file read and write. */
  class World {
    var lifetimes: map<Entity, Lifetime>
    var positions: map<Entity, Position>
    var velocities: map<Entity, Velocity>
    var weapons: map<Entity, Weapon>
    /** The entities with the `KeyboardControlled` marker. */
    var controlled: set<Entity>
    /** The id the next `Entities::create` hands out. */
    var nextEntity: Entity
    /** Creations queued on `LazyUpdate`, oldest first. */
    var created: seq<(Entity, Projectile)>
    /** Entities passed to `Entities::delete`, oldest first. */
    var deleted: seq<Entity>

    /** Every stored entity has been handed out. */
    predicate Valid()
      reads this
    {
      && (forall e :: e in lifetimes ==> e < nextEntity)
      && (forall e :: e in positions ==> e < nextEntity)
      && (forall e :: e in velocities ==> e < nextEntity)
      && (forall e :: e in weapons ==> e < nextEntity)
    }

    constructor(lifetimes: map<Entity, Lifetime>, positions: map<Entity, Position>, velocities: map<Entity, Velocity>,
                weapons: map<Entity, Weapon>, controlled: set<Entity>, nextEntity: Entity)
      ensures this.lifetimes == lifetimes && this.positions == positions && this.velocities == velocities
      ensures this.weapons == weapons && this.controlled == controlled && this.nextEntity == nextEntity
      ensures created == [] && deleted == []
    {
      this.lifetimes := lifetimes;
      this.positions := positions;
      this.velocities := velocities;
      this.weapons := weapons;
      this.controlled := controlled;
      this.nextEntity := nextEntity;
      created := [];
      deleted := [];
    }

    /** `LifetimeKiller::run`: count every lifetime down by the elapsed time
        and delete the entities whose time is now below zero. */
    method LifetimeKiller(elapsed: real)
      requires Valid()
      modifies this`lifetimes, this`deleted
      ensures lifetimes == AgedBelow(old(lifetimes), elapsed, nextEntity)
      ensures deleted == old(deleted) + ExpiredBelow(old(lifetimes), elapsed, nextEntity)
    {
      ghost var lifetimes0 := lifetimes;
      var lifetimes, deleted, bound := lifetimes, deleted, nextEntity;
      var e := 0;
      while e < bound
        invariant e <= bound
        invariant lifetimes == AgedBelow(lifetimes0, elapsed, e)
        invariant deleted == old(this.deleted) + ExpiredBelow(lifetimes0, elapsed, e)
      {
        if e in lifetimes {
          assert lifetimes[e] == lifetimes0[e];
          lifetimes := lifetimes[e := Lifetime(lifetimes[e].timeLeft - elapsed)];
          if lifetimes[e].timeLeft < 0.0 {
            deleted := deleted + [e];
          }
        }
        e := e + 1;
      }
      this.lifetimes, this.deleted := lifetimes, deleted;
    }

    /** `PositionUpdateSystem::run`: move every entity that has a velocity
        and a position. */
    method PositionUpdate(delta: real)
      requires Valid()
      modifies this`positions
      ensures positions == MovedBelow(old(positions), velocities, delta, nextEntity)
    {
      ghost var positions0 := positions;
      var positions, velocities, bound := positions, velocities, nextEntity;
      var e := 0;
      while e < bound
        invariant e <= bound
        invariant positions == MovedBelow(positions0, velocities, delta, e)
      {
        if e in velocities && e in positions {
          var p := positions[e];
          p := p.(x := p.x + velocities[e].x * delta);
          p := p.(y := p.y + velocities[e].y * delta);
          positions := positions[e := p];
        }
        e := e + 1;
      }
      this.positions := positions;
    }

    /** `InputSystem::run`: stop every keyboard-controlled entity, then let
        each held arrow key set one velocity component, in the order Up,
        Down, Left, Right; finally every controlled weapon wants to fire
        exactly when Space is held. */
    method InputSystem(input: Input)
      requires Valid()
      modifies this`velocities, this`weapons
      ensures velocities.Keys == old(velocities).Keys && weapons.Keys == old(weapons).Keys
      ensures forall e :: e in velocities ==>
        velocities[e] == if e in controlled then Steering(input) else old(velocities)[e]
      ensures forall e :: e in weapons ==>
        weapons[e] == if e in controlled then old(weapons)[e].(wantsToFire := input.GetKey(SCANCODE_SPACE).held) else old(weapons)[e]
    {
      velocities := Steer(velocities, controlled, nextEntity, input);
      var shouldFire := input.GetKey(SCANCODE_SPACE).held;
      weapons := SetWantsToFire(weapons, controlled, nextEntity, shouldFire);
    }

    /** `WeaponSystem::run` of the old API: `handle_weapon` for every entity
        with a position and a weapon, in id order. */
    method OldWeaponSystem(delta: real)
      requires Valid()
      modifies this`weapons, this`nextEntity, this`created
      ensures weapons == HandledBelow(positions, old(weapons), delta, old(nextEntity))
      ensures created == old(created) + Numbered(old(nextEntity), ShotsBelow(positions, old(weapons), delta, old(nextEntity)))
      ensures nextEntity == old(nextEntity) + |ShotsBelow(positions, old(weapons), delta, old(nextEntity))|
    {
      ghost var weapons0, created0, next0 := weapons, created, nextEntity;
      var positions, weapons, bound := positions, weapons, nextEntity;
      var e := 0;
      while e < bound
        invariant e <= bound
        invariant weapons == HandledBelow(positions, weapons0, delta, e)
        invariant created == created0 + Numbered(next0, ShotsBelow(positions, weapons0, delta, e))
        invariant nextEntity == next0 + |ShotsBelow(positions, weapons0, delta, e)|
      {
        weapons := VisitWeapon(e, positions, weapons, delta, weapons0, created0, next0);
        e := e + 1;
      }
      this.weapons := weapons;
    }

    /** One step of the join in the old `WeaponSystem::run`: entity `e` is
        handed to `handle_weapon` if it has a position and a weapon. The ghost
        parameters are the weapons and the queue as they were when the system
        started. */
    method VisitWeapon(e: Entity, positions: map<Entity, Position>, weapons: map<Entity, Weapon>, delta: real,
                       ghost weapons0: map<Entity, Weapon>, ghost created0: seq<(Entity, Projectile)>, ghost next0: Entity)
      returns (after: map<Entity, Weapon>)
      requires weapons == HandledBelow(positions, weapons0, delta, e)
      requires created == created0 + Numbered(next0, ShotsBelow(positions, weapons0, delta, e))
      requires nextEntity == next0 + |ShotsBelow(positions, weapons0, delta, e)|
      modifies this`nextEntity, this`created
      ensures after == HandledBelow(positions, weapons0, delta, e + 1)
      ensures created == created0 + Numbered(next0, ShotsBelow(positions, weapons0, delta, e + 1))
      ensures nextEntity == next0 + |ShotsBelow(positions, weapons0, delta, e + 1)|
    {
      HandledOneMore(positions, weapons0, delta, e);
      ghost var before := ShotsBelow(positions, weapons0, delta, e);
      ghost var shot := if e in positions && e in weapons0 then ShotFrom(positions[e], weapons0[e], delta) else [];
      NumberedConcat(next0, before, shot);
      if e in positions && e in weapons {
        var w := HandleWeapon(positions[e], weapons[e], delta);
        after := weapons[e := w];
      } else {
        assert before + shot == before;
        after := weapons;
      }
    }

    /** The `handle_weapon` closure for one entity's position and weapon. */
    method HandleWeapon(position: Position, weapon: Weapon, delta: real) returns (w: Weapon)
      modifies this`nextEntity, this`created
      ensures w == Handled(weapon, delta)
      ensures created == old(created) + Numbered(old(nextEntity), ShotFrom(position, weapon, delta))
      ensures nextEntity == old(nextEntity) + |ShotFrom(position, weapon, delta)|
    {
      w := weapon;
      w := w.(cooldown := w.cooldown - delta);
      if w.wantsToFire && w.cooldown <= 0.0 {
        var projectile := nextEntity;
        nextEntity := nextEntity + 1;
        w := w.(cooldown := w.timeBetweenShots);
        created := created + [(projectile, ProjectileFor(position, w))];
      }
    }
  }

  /** Below a bound above every stored id, the per-id descriptions cover the
      whole storages: every lifetime ages, every entity with both components
      moves, and every weapon with a position is handled. */
  lemma SystemsCoverEveryEntity(lifetimes: map<Entity, Lifetime>, positions: map<Entity, Position>,
                                velocities: map<Entity, Velocity>, weapons: map<Entity, Weapon>,
                                delta: real, bound: nat)
    requires forall e :: e in lifetimes ==> e < bound
    requires forall e :: e in positions ==> e < bound
    ensures forall e :: e in lifetimes ==> AgedBelow(lifetimes, delta, bound)[e] == Lifetime(lifetimes[e].timeLeft - delta)
    ensures forall e :: e in positions ==>
      MovedBelow(positions, velocities, delta, bound)[e] == if e in velocities then Moved(positions[e], velocities[e], delta) else positions[e]
    ensures forall e :: e in weapons ==>
      HandledBelow(positions, weapons, delta, bound)[e] == if e in positions then Handled(weapons[e], delta) else weapons[e]
  {
  }
}
