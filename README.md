# rusty-sdl gameplay core in Dafny

A model of the per-frame gameplay logic of rusty-sdl, a small top-down shooter
built on the `specs` entity-component-system and SDL2. Every system of the game
reads and writes component storages once per frame. The model covers:

- **The value types:** the 2-D vector (`src/vec2.rs`), the components of the
  current API (`src/ecs/components.rs`) and the input snapshot
  (`src/input.rs`).
- **The current-API systems:** the weapon system, the enemy AI and wave
  spawner, the player respawner and the sprite-sheet animation
  (`src/ecs/weapon.rs`, `enemy.rs`, `player.rs`, `animation.rs`).
- **The death callbacks:** `on_bullet_dead`, `on_enemy_ded` and
  `on_player_ded`, which queue an explosion.
- **The older-API systems:** `src/ecs/systems.rs` (lifetime expiry, position
  integration, keyboard steering, the `wants_to_fire` weapon rule) and
  `src/ecs/collision.rs` (all-pairs circle test). They are written against an
  older component set. Its definitions are not part of this model, so
  `LegacyComponents` declares exactly the fields these two files use.

How the ECS is represented:

- An entity is a natural number. A component storage is a `map<Entity, T>`.
- A `join` visits the ids below the world's next free id in ascending order.
  `par_join` is taken as that same sequential walk.
- A system is a method on a `World` class. The class holds the storages the
  system reads and writes, and the method's `modifies` clause names them.
- `Entities::create` hands out `nextEntity` and increments it.
- `LazyUpdate` is an append-only `created` queue of `(entity, record)` pairs.
  A record holds every component inserted on that entity.
- `Entities::delete` appends to a `deleted` queue.
- `f32` is `real`. Random draws are parameters whose ranges match the range
  the source draws from.

Each loop-based system is proved against a specification function of its
inputs, such as `TickedBelow`, `BulletsBelow` or `WaveQueue`. Lemmas then
state what those functions promise:

- a weapon burst fires exactly its shot count;
- an enemy patrol closes its square;
- a wave is 64·w² enemies, all inside the arena;
- each ready weapon fires one projectile;
- animation frames never outrun elapsed time;
- collision reports are exactly the overlapping pairs, and symmetric.

`Animation::update` wraps its frame index with `>` rather than `>=`. So after
the last frame the index reaches `columns·rows`, one past the last frame, and
the source rectangle moves one row below the sheet. This matches the source:
the model keeps it, and `FrameRectPastLast` and `LastIndexIsReachable` state
it. A half-second explosion at 30 frames per second never gets there
(`ExplosionStaysOnSheet`).

## Model

| member | source | states |
|---|---|---|
| Vectors.AddAssign | src/vec2.rs:75-80 | `+=` yields the sum, and subtracting the addend gives back the original vector |
| Vectors.MulAssign | src/vec2.rs:82-87 | `*=` multiplies component-wise; equal components act as a scalar, (1,1) is the identity |
| Vectors.DotSymmetric | src/vec2.rs:19-21 | the dot product is symmetric |
| Vectors.DotLinear | src/vec2.rs:19-21 | the dot product is linear in its first argument over `+`, `-` and scaling |
| Vectors.SquaredLengthIsSelfDot | src/vec2.rs:60-62 | the squared length is the dot product of a vector with itself |
| Vectors.AxisVectorsAreUnits | src/vec2.rs:22-36 | right, left, up and down all have length 1 |
| Vectors.OppositeAxes | src/vec2.rs:22-36 | left is minus right and up is minus down (screen y grows downwards) |
| Vectors.AxisVectorsPerpendicular | src/vec2.rs:22-36 | consecutive axis directions are perpendicular, and the four sum to zero |
| Vectors.SubAddCancel | src/vec2.rs:65-97 | `+` and `-` undo each other |
| Vectors.AddCommutesAndAssociates | src/vec2.rs:65-73 | vector addition is commutative and associative |
| Vectors.ScaleLaws | src/vec2.rs:99-107 | scaling distributes over addition, composes multiplicatively, and 1 is neutral |
| Ecs.Numbered | src/ecs/weapon.rs:93 | numbering queued records from the next free id keeps one entry per record |
| Ecs.NumberedAt | src/ecs/weapon.rs:93 | the i-th queued record goes to entity first + i |
| Ecs.NumberedConcat | src/ecs/weapon.rs:93 | creating two batches in turn numbers the second from where the first stopped |
| Components.ApplyDamage | src/ecs/components.rs:66-69 | a damage event is appended with the damage amount and location; earlier events, health and death reaction stay as they were |
| Components.SetX | src/ecs/components.rs:110-112 | `set_x` changes x only; setting the current value changes nothing |
| Components.SetY | src/ecs/components.rs:114-116 | `set_y` changes y only; setting the current value changes nothing |
| Components.PositionRoundTrip | src/ecs/components.rs:10-22 | `Position::new` and the `x`/`y` accessors are mutually inverse |
| Components.VelocityRoundTrip | src/ecs/components.rs:90-108 | `Velocity::new` and the accessors are mutually inverse; the default velocity is zero |
| Components.NewHealthIsFull | src/ecs/components.rs:47-64 | a new health is full (health = max), has no damage events and is valid; `no_death_event` is `new` with no reaction |
| Components.DamageNew | src/ecs/components.rs:78-80 | `Damage::new` stores its amount |
| Animations.Update | src/ecs/animation.rs:22-39 | the in-place update produces the animation and source rectangle of the specification `Step` |
| Animations.UpdateMovesAtMostOneFrame | src/ecs/animation.rs:22-39 | an update either keeps the frame and adds the time, or moves one frame on (wrapping past `columns·rows`), subtracts one frame time and recomputes the rectangle |
| Animations.UpdateKeepsIndexInRange | src/ecs/animation.rs:22-31 | the frame index never exceeds `columns·rows`, and the sheet shape is kept |
| Animations.FrameRectPlacement | src/ecs/animation.rs:33-37 | every frame below `columns·rows` lies inside the sheet's columns and rows |
| Animations.FrameRectPastLast | src/ecs/animation.rs:29-37 | index `columns·rows` selects column 0 of the row just below the sheet |
| Animations.LastIndexIsReachable | src/ecs/animation.rs:25-37 | from the last frame, an advancing update reaches index `columns·rows` and a rectangle below the sheet |
| Animations.FramesNeverOutrunTime | src/ecs/animation.rs:22-39 | over any run of non-negative frame times, frames shown times time per frame plus the counter never exceeds the elapsed time |
| Animations.ExplosionStaysOnSheet | src/ecs/animation.rs:18-39 | within half a second, a 30 fps 4×4 animation stays on a frame of the sheet |
| Animations.World.AnimationSystem | src/ecs/animation.rs:51-60 | every entity with a sprite and an animation is stepped once, as `SteppedAnimations`/`SteppedSprites` specify |
| Animations.VisitAnimation | src/ecs/animation.rs:57-59 | visiting one more id extends the stepped storages by that id |
| Animations.AnimationSystemKeepsFramesInRange | src/ecs/animation.rs:51-60 | the system keeps every frame index in range, keeps the storages' keys, sprite sheets and sizes, and leaves unjoined entities alone |
| Effects.Randomize | src/vec2.rs:11-17 | the jittered point lies within the spread of the origin on both axes, and the jitter is exactly the drawn offset |
| Effects.OnDeath | src/ecs/weapon.rs:125-148 | a death queues one explosion when the health has a reaction and none otherwise, near the point of death and at the reaction's size |
| Effects.DeathExplosionStaysOnSheet | src/ecs/weapon.rs:125-148 | an explosion's animation stays on its sheet for as long as the explosion lives |
| Weapons.NewWeaponWaits | src/ecs/weapon.rs:21-29 | a new weapon has cooldown 0, no command and the given speed, interval and damage; it does not fire, and a tick only lowers the cooldown |
| Weapons.TickSpendsOneShot | src/ecs/weapon.rs:58-77 | a tick that fires spends exactly one shot and restarts the cooldown: `FireAmount(n)` becomes `FireAmount(n-1)`, while `FireOnce` and `FireAmount(1)` become `Waiting`; otherwise only the cooldown drops |
| Weapons.FiresIffShotsRemain | src/ecs/weapon.rs:58-77 | a tick fires exactly when shots remain and the cooldown has run out; a waiting weapon keeps waiting |
| Weapons.BurstNeverOvershoots | src/ecs/weapon.rs:66-74 | over any sequence of ticks, shots fired plus shots remaining equal the shots commanded |
| Weapons.BurstCompletes | src/ecs/weapon.rs:58-77 | with ticks at least one interval apart, a command of n shots fires exactly n times in n ticks and ends waiting |
| Weapons.TickAllConcat | src/ecs/weapon.rs:58-77 | ticking over two runs of frames in turn is ticking over both, and their shots add up |
| Weapons.CooldownStaysBelowInterval | src/ecs/weapon.rs:58-77 | ticks never change the time between shots, and a cooldown at most that stays at most that |
| Weapons.FiresOnceCooldownElapses | src/ecs/weapon.rs:58-77 | a weapon with shots left fires at least once over any run of frames, however short, whose times add up to its cooldown, and ends with cooldown at most the interval |
| Weapons.BurstCompletesInRuns | src/ecs/weapon.rs:58-77 | at any frame rate, a command of n shots fires exactly n shots and ends waiting once the frames form n runs, the first lasting the cooldown and each later one the time between shots |
| Weapons.BulletInheritsShooter | src/ecs/weapon.rs:86-123 | a projectile starts at its shooter, flies up at the weapon's speed, has the shooter's layers and damage, 1 health and a 1-second life |
| Weapons.Shot | src/ecs/weapon.rs:58-77 | a tick queues one projectile per shot it takes from the command, each starting at the shooter with its layers and its weapon's damage |
| Weapons.TickKeepsValid | src/ecs/weapon.rs:80-82 | the weapon system keeps every storage below the entity bound and every command valid |
| Weapons.World.SpawnBullet | src/ecs/weapon.rs:86-123 | creates one entity, queues the bullet record on it, and restarts the weapon's cooldown |
| Weapons.World.HandleWeapon | src/ecs/weapon.rs:52-78 | the weapon becomes `Tick(weapon)`, and the shot, if any, is queued under the next id |
| Weapons.World.WeaponSystem | src/ecs/weapon.rs:49-83 | every joined weapon is ticked, and the fired projectiles are queued under consecutive fresh ids in id order |
| Weapons.World.Visit | src/ecs/weapon.rs:80-82 | handling one more id extends the ticked weapons and the queued projectiles by that id |
| Weapons.WeaponTickedOneMore | src/ecs/weapon.rs:80-82 | the tick of id e changes only e's weapon, which the earlier ids left untouched |
| Weapons.BulletsOneMore | src/ecs/weapon.rs:80-82 | the projectiles of the ids up to e are those before e followed by e's shot |
| Weapons.OneBulletPerShooter | src/ecs/weapon.rs:52-82 | the system queues exactly one projectile per firing entity, each the bullet of one of them |
| Weapons.WeaponSystemTouchesOnlyJoined | src/ecs/weapon.rs:80-82 | the system keeps the weapon keys, leaves weapons without position or collider alone, and sets each joined cooldown as `handle_weapon` does |
| Enemies.NewEnemyIsIdle | src/ecs/enemy.rs:57-73 | a new enemy is idle with the given speed and attack config, and its first cooldown is the constant or a draw in range |
| Enemies.Fire | src/ecs/enemy.rs:75-86 | firing orders a burst of the configured size and restarts the attack cooldown from the constant or from a draw in [min, max) |
| Enemies.NextIsAFourCycle | src/ecs/enemy.rs:19-26 | turning four times returns to the start, and never sooner |
| Enemies.ToVecIsATurningAxis | src/ecs/enemy.rs:19-35 | each direction is a unit vector perpendicular to the next, and two turns reverse it |
| Enemies.TurnedByLeg | src/ecs/enemy.rs:144-149 | a turn sets the new target 100 pixels along the new direction |
| Enemies.TurnHeadsOneLeg | src/ecs/enemy.rs:144-149 | a turn moves the target 100 pixels along the new heading and not at all along the old one |
| Enemies.LegsCancel | src/ecs/enemy.rs:144-149 | four consecutive 100-pixel legs add up to zero |
| Enemies.PatrolClosesSquare | src/ecs/enemy.rs:132-150 | after four turns an enemy heads the same way at the same target again: its patrol is a closed square |
| Enemies.TurnsOncePastTarget | src/ecs/enemy.rs:139-144 | the dot-product test is true exactly when the enemy has passed its target along its heading |
| Enemies.EnemyStepBehaviour | src/ecs/enemy.rs:126-150 | one enemy tick: it fires exactly when the cooldown runs out; an idle enemy starts moving right toward a target 100 pixels away; a moving one takes its heading at its speed and turns exactly when past the target |
| Enemies.EnemyDeathExplodes | src/ecs/enemy.rs:239-258 | an enemy's death queues one 64-pixel, half-second, 30 fps explosion within 10 pixels of it |
| Enemies.StepEnemy | src/ecs/enemy.rs:126-150 | the in-place update of one enemy produces the specification `EnemyStep` |
| Enemies.World.EnemySystem | src/ecs/enemy.rs:107-153 | every enemy with position, velocity and weapon is ticked once, as `Ticks` specifies, and the storages stay valid |
| Enemies.VisitEnemy | src/ecs/enemy.rs:118-152 | visiting one more id extends the ticked storages by that id |
| Enemies.TickedOneMore | src/ecs/enemy.rs:118-152 | the tick of id e changes only e's entries, which the earlier ids left untouched |
| Enemies.TicksKeepValid | src/ecs/enemy.rs:118-152 | the enemy system keeps every storage below the bound, every config and every weapon command valid |
| Enemies.EnemySystemTouchesOnlyJoined | src/ecs/enemy.rs:118-152 | the system keeps every storage's keys and attack configs, and leaves entities missing a component alone |
| Enemies.WaveColumn | src/ecs/enemy.rs:184-232 | one grid column of wave w holds 4·w enemies |
| Enemies.WaveEntry | src/ecs/enemy.rs:183-192 | the i-th queued enemy goes to id first + i, at grid column i / 4w and row i mod 4w, inside the 16w × 4w grid |
| Enemies.GridCoordinateBound | src/ecs/enemy.rs:189-192 | grid coordinate k of an n-cell axis lies in [100, 100 + 80·n) |
| Enemies.WaveFillsArena | src/ecs/enemy.rs:183-192 | wave w queues 64·w² enemies, all in [100, 1380) × [100, 420) |
| Enemies.WaveEnemiesStartFresh | src/ecs/enemy.rs:207-231 | each spawned enemy is idle with 25 health, 5 damage, a valid attack config, a first cooldown in [0, 15) and a waiting weapon that fires downwards |
| Enemies.CountEnemies | src/ecs/enemy.rs:173-177 | the count is the number of enemies, and zero exactly when there are none |
| Enemies.SpawnColumn | src/ecs/enemy.rs:184-232 | one column queues its 4·w enemies under consecutive fresh ids |
| Enemies.SpawnWave | src/ecs/enemy.rs:183-233 | queues exactly `WaveQueue`, under consecutive fresh ids |
| Enemies.EnemySpawnerSystem.constructor | src/ecs/enemy.rs:162-164 | the spawner starts at wave 0 |
| Enemies.EnemySpawnerSystem.Run | src/ecs/enemy.rs:170-236 | with no enemy left, the wave counter goes up by one and that wave (64·w² enemies) is queued; otherwise nothing changes |
| Enemies.FirstWave | src/ecs/enemy.rs:180-192 | the first wave is 64 enemies, from (100, 100) to (1300, 340) |
| Inputs.MouseButton.Index | src/input.rs:46-48 | every mouse button indexes inside the mouse table |
| Inputs.Input.Default | src/input.rs:23-37 | the default snapshot has every key released, no mouse button held and the mouse at the origin |
| Inputs.Input.New | src/input.rs:50-62 | a new snapshot has every key released, no mouse button held and the mouse at the origin |
| Inputs.Input.GetKey | src/input.rs:41-43 | a key query answers an entry of the key table |
| Inputs.Input.GetMouseButton | src/input.rs:46-48 | a button query answers an entry of the mouse table |
| Inputs.DefaultIsNew | src/input.rs:23-62 | `Default` and `new` build the same snapshot |
| Inputs.FreshInputIsQuiet | src/input.rs:50-62 | a fresh snapshot reports every key released and no button held |
| Inputs.GetKeyReadsOneEntry | src/input.rs:41-48 | a key query reads only its own key's entry, and button queries ignore the key table |
| Inputs.GetMouseButtonReadsOneEntry | src/input.rs:46-48 | a button query reads exactly its own button's entry, and key queries ignore the mouse table |
| Inputs.MouseButtonsAreDistinct | src/input.rs:46-48 | different buttons read different table entries |
| Systems.ExpiredExactly | src/ecs/systems.rs:34-41 | an entity is deleted exactly when its lowered lifetime is below zero, at most once and in id order |
| Systems.World.LifetimeKiller | src/ecs/systems.rs:31-42 | every lifetime drops by the elapsed time and the expired entities are queued for deletion |
| Systems.PositionIntegration | src/ecs/systems.rs:113-116 | a step moves by velocity × time, two steps equal one step over the summed time, and a zero step stays put |
| Systems.World.PositionUpdate | src/ecs/systems.rs:109-117 | every entity with a velocity moves by it; the others stay |
| Systems.Steering | src/ecs/systems.rs:134-161 | each velocity component comes out as −400, 0 or 400 |
| Systems.SteeringByArrows | src/ecs/systems.rs:139-161 | down wins over up and right over left; an axis is 0 exactly when neither arrow is held |
| Systems.QuietInputStops | src/ecs/systems.rs:134-161 | with no key held, controlled entities stop |
| Systems.SetControlled | src/ecs/systems.rs:140-142 | one pass sets one velocity component of every keyboard-controlled entity and changes nothing else |
| Systems.Steer | src/ecs/systems.rs:134-161 | after the four passes every controlled entity has the steering velocity and the others keep theirs |
| Systems.SetWantsToFire | src/ecs/systems.rs:163-166 | every controlled weapon wants to fire exactly when space is held; the others are unchanged |
| Systems.World.InputSystem | src/ecs/systems.rs:130-167 | controlled entities get the steering velocity and the space-bar fire flag; nothing else changes |
| Systems.ShotFrom | src/ecs/systems.rs:59-91 | a weapon queues at most one projectile per tick |
| Systems.OldFireRule | src/ecs/systems.rs:59-91 | a weapon fires exactly when it wants to and its cooldown has run out, and the cooldown restarts on a shot; the projectile flies up from the shooter at the weapon's speed for half a second |
| Systems.HandledOneMore | src/ecs/systems.rs:94-96 | handling id e changes only e's weapon and appends e's shot |
| Systems.OneShotPerReadyWeapon | src/ecs/systems.rs:59-96 | the system queues exactly as many projectiles as there are ready weapons |
| Systems.World.OldWeaponSystem | src/ecs/systems.rs:56-97 | every weapon with a position is handled, and the projectiles are queued under consecutive fresh ids |
| Systems.World.VisitWeapon | src/ecs/systems.rs:94-96 | handling one more id extends the handled weapons and the queued projectiles by that id |
| Systems.World.HandleWeapon | src/ecs/systems.rs:59-92 | the weapon becomes `Handled(weapon)`, and the shot, if any, is queued under the next id |
| Systems.SystemsCoverEveryEntity | src/ecs/systems.rs:31-117 | with the bound past every id, the lifetime, position and weapon systems reach every entity they join |
| Collision.CollisionIsSymmetric | src/ecs/collision.rs:7-14 | the circle test does not depend on the order of the two circles |
| Collision.TouchingCirclesDoNotCollide | src/ecs/collision.rs:7-14 | circles that only touch do not collide (the test is strict) |
| Collision.RowReportsExactly | src/ecs/collision.rs:29-37 | the inner loop reports exactly the overlapping partners with a different collider id |
| Collision.ReportsExactly | src/ecs/collision.rs:23-39 | the system reports exactly the ordered pairs of joined entities with different ids whose circles overlap |
| Collision.ReportsAreSymmetric | src/ecs/collision.rs:23-39 | every reported pair is also reported reversed, and no entity is reported against itself |
| Collision.CollisionSystem | src/ecs/collision.rs:23-39 | the nested loops produce exactly the specified reports, in order |
| Collision.ScanRow | src/ecs/collision.rs:29-37 | the inner loop produces exactly the specified row of reports |
| Players.NewPlayerPlacement | src/ecs/player.rs:43-68 | the new player stands at rest at (800, 800) with the player sprite at 64×64, a 22-pixel collider on the player layer that hits enemies, and the player and keyboard markers |
| Players.NewPlayerHealth | src/ecs/player.rs:65-66 | the new player has full health 25, no damage events, an explosion on death, and 5 contact damage |
| Players.NewPlayerGun | src/ecs/player.rs:70-73 | the new player's gun is idle with speed 1400, interval 0.015 and damage 25, does not fire at once and shoots upwards |
| Players.PlayerDeathExplodes | src/ecs/player.rs:78-100 | the player's death queues one 128-pixel, half-second, 30 fps explosion within 10 pixels of it |
| Players.World.PlayerRespawnSystem | src/ecs/player.rs:31-76 | the system queues exactly `Respawned` under a fresh id when no player exists |
| Players.RespawnSettles | src/ecs/player.rs:34-74 | a run queues at most one entity, and does so exactly when no player exists; that entity takes the next id and carries the `Player` marker, so once it exists the next run creates none |

## Left out

- `src/engine.rs`, `src/main.rs`, `src/ecs/renderer.rs`, `src/ecs/resources.rs`: SDL windowing, event polling, texture loading and rendering are I/O. The frame time and the input snapshot become parameters instead.
- The dispatcher's system order and `world.maintain()`, which applies the `LazyUpdate` queue, are not modelled. Each system is modelled alone, and its queued creations and deletions are its result.
- The health system and the layered collision system of the current API are in files that are not part of this model. The file declaring the older component set is not part of it either (see `LegacyComponents`).
- `PositionPrinterSystem` (systems.rs), `PlayerSystem` (player.rs) and `get_mouse_pos` (input.rs) have empty bodies and change nothing. `Player::new` only builds a marker.
- `Vec2::normalzed`, `direction`, `distance` and `length` need a square root, which `real` arithmetic does not have. No system in the core calls them.
- Floating point: `f32` is modelled as `real`. Rounding, infinities and NaN are not modelled.
- `Animations.Animation.New`: requires fps > 0. For fps 0 the source divides by zero and gets an infinite frame time, which `real` cannot hold.
- Integer width: the `u32` wave counter and the `u32` grid arithmetic are unbounded in the model. In the source, `x * 80` wraps once the wave counter passes about 3.3 million (2³²/1280), and `16 * wave_counter` once it passes 2²⁸. The `as f32` casts are exact in the model.
- `Effects.Randomize`: the source draws from `rand::thread_rng`. Here the draw is a parameter constrained to the same half-open range.
- `Enemies.World.EnemySystem` and `Enemies.EnemySpawnerSystem.Run` take their random draws as a function of the entity. They require those draws to be in the source's ranges.
- `par_join` in the animation and collision systems is modelled as a sequential walk in id order. For the animation system each entity's update touches only its own entries, so the order is not observable.
- `Collision.CollisionSystem`: the report order is the model's id order; the source's is unspecified, since the outer `par_join` lets the `println!` lines of different rows interleave.
- `Animations.Update`: requires `sheetColumns > 0` whenever the frame advances. With zero columns the source panics on `% 0` when it computes the frame rectangle. Every sheet in the core is created with 4 columns (`Animation::new(30, 4, 4)` in the three death callbacks). `Animations.World.AnimationSystem` requires the same of every animated entity with a sprite.
- `specs` reuses the ids of deleted entities, with a generation counter. The model hands out fresh, strictly increasing ids.
- The `.expect` on `Entities::delete` in the lifetime killer cannot fail for a live entity and is not modelled.
- The `println!` output of the collision system is returned as the list of reported pairs. The spawner's `println!` is left out.
- `Weapons.World.HandleWeapon`: requires that a `FireAmount` command holds at least one shot. `FireAmount(0)` would underflow `amount - 1` in `u32`, and no code path issues it. `Weapons.World.WeaponSystem` requires the same of every stored weapon (`Weapons.WeaponsValid`).
