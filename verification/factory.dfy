/** The factory method pattern: `ObstacleFactory::createObstacle` picks the
    kind, speed and size of a space obstacle from the game level. */
module Factory {
  import opened Ints

  /** The C++ `vec2` of two `int` components. */
  datatype Vec2 = Vec2(x: int32, y: int32)

  /** The concrete obstacle classes. */
  datatype Kind = Asteroid | SpaceDebris

  /** An obstacle as the factory builds it. */
  datatype Obstacle = Obstacle(kind: Kind, speed: Vec2, size: Vec2)

  /** Levels the factory knows. Outside 0..3 the source function reaches its
      end without returning, which is undefined behaviour; its only caller
      checks the same range first. */
  predicate KnownLevel(level: int32)
  {
    0 <= level <= 3
  }

  /** A vector whose two components are equal and positive. */
  predicate Square(v: Vec2)
  {
    v.x == v.y && v.x > 0
  }

  /** `createObstacle`. Even levels give asteroids, odd levels space debris,
      and every speed and size is a square, positive vector. */
  function CreateObstacle(level: int32): (o: Obstacle)
    requires KnownLevel(level)
    ensures o.kind == (if level % 2 == 0 then Asteroid else SpaceDebris)
    ensures Square(o.speed) && Square(o.size)
  {
    if level == 0 then Obstacle(Asteroid, Vec2(1, 1), Vec2(1, 1))
    else if level == 1 then Obstacle(SpaceDebris, Vec2(2, 2), Vec2(1, 1))
    else if level == 2 then Obstacle(Asteroid, Vec2(5, 5), Vec2(3, 3))
    else Obstacle(SpaceDebris, Vec2(4, 4), Vec2(10, 10))
  }

  /** The level table, entry by entry. */
  lemma LevelTable()
    ensures CreateObstacle(0) == Obstacle(Asteroid, Vec2(1, 1), Vec2(1, 1))
    ensures CreateObstacle(1) == Obstacle(SpaceDebris, Vec2(2, 2), Vec2(1, 1))
    ensures CreateObstacle(2) == Obstacle(Asteroid, Vec2(5, 5), Vec2(3, 3))
    ensures CreateObstacle(3) == Obstacle(SpaceDebris, Vec2(4, 4), Vec2(10, 10))
  {
  }

  /** No two levels share an obstacle, so the obstacle identifies its level. */
  lemma LevelsAreDistinguishable(a: int32, b: int32)
    requires KnownLevel(a) && KnownLevel(b)
    ensures CreateObstacle(a) == CreateObstacle(b) <==> a == b
  {
  }

  /** Obstacle sizes never shrink as the level goes up (speeds may: level 3
      is slower than level 2). */
  lemma SizeGrowsWithLevel(a: int32, b: int32)
    requires KnownLevel(a) && KnownLevel(b) && a <= b
    ensures CreateObstacle(a).size.x <= CreateObstacle(b).size.x
    ensures CreateObstacle(a).size.y <= CreateObstacle(b).size.y
  {
  }
}
