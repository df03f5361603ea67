// Circle collision of the older API (src/ecs/collision.rs): the overlap
// test and the system that tests every pair of entities with a position, a
// collider and a name. The system only reads the storages; what it prints
// is returned as the list of reported pairs, in the order it prints them.

module Collision {
  import opened Ecs
  import opened LegacyComponents

  /** `circle_collsion`: the centres are closer than the sum of the radii,
      compared on squares and strictly. */
  predicate CircleCollision(posA: Position, cirA: CircleCollider, posB: Position, cirB: CircleCollider) {
    var dx := posA.x - posB.x;
    var dy := posA.y - posB.y;
    var r := cirA.radius + cirB.radius;
    dx * dx + dy * dy < r * r
  }

  /** Swapping the two circles does not change the outcome. */
  lemma CollisionIsSymmetric(posA: Position, cirA: CircleCollider, posB: Position, cirB: CircleCollider)
    ensures CircleCollision(posA, cirA, posB, cirB) <==> CircleCollision(posB, cirB, posA, cirA)
  {
    var dx, dy := posA.x - posB.x, posA.y - posB.y;
    assert (-dx) * (-dx) == dx * dx;
    assert (-dy) * (-dy) == dy * dy;
  }

  /** Circles that exactly touch do not collide: with the centres the sum of
      the radii apart along an axis, the test fails. */
  lemma TouchingCirclesDoNotCollide(x: real, y: real, cirA: CircleCollider, cirB: CircleCollider)
    ensures !CircleCollision(Position(x, y), cirA, Position(x + cirA.radius + cirB.radius, y), cirB)
    ensures !CircleCollision(Position(x, y), cirA, Position(x, y + cirA.radius + cirB.radius), cirB)
  {
    var r := cirA.radius + cirB.radius;
    assert (x - (x + r)) * (x - (x + r)) == r * r;
    assert (y - (y + r)) * (y - (y + r)) == r * r;
  }

  /** Whether entity `e` takes part in the join. */
  predicate Joined(positions: map<Entity, Position>, colliders: map<Entity, CircleCollider>, names: map<Entity, Name>, e: Entity) {
    e in positions && e in colliders && e in names
  }

  /** Whether the system reports the pair (`a`, `b`): both take part, their
      ids differ and the circles overlap. */
  predicate Reported(positions: map<Entity, Position>, colliders: map<Entity, CircleCollider>, names: map<Entity, Name>, a: Entity, b: Entity) {
    && Joined(positions, colliders, names, a)
    && Joined(positions, colliders, names, b)
    && colliders[a].id != colliders[b].id
    && CircleCollision(positions[a], colliders[a], positions[b], colliders[b])
  }

  /** The reports of the inner loop for entity `a`, over the ids below `bound`. */
  function RowReports(positions: map<Entity, Position>, colliders: map<Entity, CircleCollider>, names: map<Entity, Name>,
                      a: Entity, bound: nat): seq<(Entity, Entity)>
  {
    if bound == 0 then []
    else
      RowReports(positions, colliders, names, a, bound - 1) +
        (if Reported(positions, colliders, names, a, bound - 1) then [(a, bound - 1)] else [])
  }

  /** The reports of the outer loop over the ids below `rows`, each row over
      the ids below `bound`. */
  function Reports(positions: map<Entity, Position>, colliders: map<Entity, CircleCollider>, names: map<Entity, Name>,
                   rows: nat, bound: nat): seq<(Entity, Entity)>
  {
    if rows == 0 then []
    else
      Reports(positions, colliders, names, rows - 1, bound) +
        (if Joined(positions, colliders, names, rows - 1) then RowReports(positions, colliders, names, rows - 1, bound) else [])
  }

  lemma {:induction false} RowReportsExactly(positions: map<Entity, Position>, colliders: map<Entity, CircleCollider>, names: map<Entity, Name>,
                                            a: Entity, bound: nat)
    ensures forall p :: p in RowReports(positions, colliders, names, a, bound) <==>
      p.0 == a && p.1 < bound && Reported(positions, colliders, names, a, p.1)
  {
    if bound > 0 {
      RowReportsExactly(positions, colliders, names, a, bound - 1);
    }
  }

  /** The system reports exactly the pairs of joined entities with different
      ids whose circles overlap; in particular a pair sharing an id is never
      reported, and neither is an entity with itself. */
  lemma {:induction false} ReportsExactly(positions: map<Entity, Position>, colliders: map<Entity, CircleCollider>, names: map<Entity, Name>,
                                         rows: nat, bound: nat)
    ensures forall a: Entity, b: Entity :: (a, b) in Reports(positions, colliders, names, rows, bound) <==>
      a < rows && b < bound && Reported(positions, colliders, names, a, b)
  {
    if rows > 0 {
      ReportsExactly(positions, colliders, names, rows - 1, bound);
      RowReportsExactly(positions, colliders, names, rows - 1, bound);
    }
  }

  /** Every collision is reported from both sides: when all ids lie below
      `bound`, (a, b) is reported exactly when (b, a) is. */
  lemma ReportsAreSymmetric(positions: map<Entity, Position>, colliders: map<Entity, CircleCollider>, names: map<Entity, Name>,
                            bound: nat, a: Entity, b: Entity)
    ensures (a, b) in Reports(positions, colliders, names, bound, bound) <==> (b, a) in Reports(positions, colliders, names, bound, bound)
    ensures (a, a) !in Reports(positions, colliders, names, bound, bound)
  {
    ReportsExactly(positions, colliders, names, bound, bound);
    if Joined(positions, colliders, names, a) && Joined(positions, colliders, names, b) {
      CollisionIsSymmetric(positions[a], colliders[a], positions[b], colliders[b]);
    }
  }

  /** `CollisionSystem::run`: for every joined entity `a`, scan every joined
      entity `b`, skip it when the ids are equal, and report the pair when
      the circles overlap. The outer `par_join` is taken in id order. */
  method CollisionSystem(positions: map<Entity, Position>, colliders: map<Entity, CircleCollider>, names: map<Entity, Name>, bound: nat)
    returns (reports: seq<(Entity, Entity)>)
    ensures reports == Reports(positions, colliders, names, bound, bound)
  {
    reports := [];
    var a := 0;
    while a < bound
      invariant a <= bound
      invariant reports == Reports(positions, colliders, names, a, bound)
    {
      if a in positions && a in colliders && a in names {
        var row := ScanRow(positions, colliders, names, a, bound);
        reports := reports + row;
      }
      a := a + 1;
    }
  }

  /** The inner loop of `CollisionSystem::run` for entity `a`. */
  method ScanRow(positions: map<Entity, Position>, colliders: map<Entity, CircleCollider>, names: map<Entity, Name>, a: Entity, bound: nat)
    returns (row: seq<(Entity, Entity)>)
    requires Joined(positions, colliders, names, a)
    ensures row == RowReports(positions, colliders, names, a, bound)
  {
    row := [];
    var b := 0;
    while b < bound
      invariant b <= bound
      invariant row == RowReports(positions, colliders, names, a, b)
    {
      if b in positions && b in colliders && b in names {
        if colliders[a].id == colliders[b].id {
          b := b + 1;
          continue;
        }
        var impact := CircleCollision(positions[a], colliders[a], positions[b], colliders[b]);
        if impact {
          row := row + [(a, b)];
        }
      }
      b := b + 1;
    }
  }
}
