/**
  The playing field, the falling objects and the catch test of the
  fruit-catching game.  Coordinates have the origin at the bottom-left
  corner of the window and y grows upward, so objects fall by losing y.
*/
module Entities {

  const WindowWidth := 800
  const WindowHeight := 600
  /** Half the width of the basket: it reaches this far either side of its centre. */
  const BasketWidth := 40
  /** Shown in the score line only; no rule of the game reads it. */
  const MaxMissedFruits := 20
  /** The catch band: an object's lowest point must lie between these heights. */
  const BasketTop := 60
  const BasketBottom := 30
  /** Every object appears 20 pixels above the top of the window. */
  const SpawnY := WindowHeight + 20
  const MinSpawnX := 30
  const MaxSpawnX := WindowWidth - 30
  /** The basket's centre never leaves [MinBasket, MaxBasket]. */
  const MinBasket := BasketWidth
  const MaxBasket := WindowWidth - BasketWidth

  datatype FruitName = Apple | Banana | Grape

  /** The `type` record an object carries: what it is and what its catch is worth. */
  datatype ObjectType =
    | Fruit(name: FruitName, points: int)
    | Bomb(damage: int)
    | Egg(heal: int)

  /**
    A falling object.  x never changes after creation; y is the height of
    its centre and drops by speed on every tick.
  */
  datatype GameObject = GameObject(x: int, y: real, radius: int, speed: real, kind: ObjectType)

  /** The points printed next to each fruit in the table of fruit types. */
  function FruitPoints(name: FruitName): (p: int)
    ensures 1 <= p <= 3
  {
    match name
    case Apple => 1
    case Banana => 2
    case Grape => 3
  }

  /** The three fruits are told apart by their points. */
  lemma FruitPointsDistinct(a: FruitName, b: FruitName)
    ensures FruitPoints(a) == FruitPoints(b) <==> a == b
  {
  }

  /** Where a new object may appear: the top of its spawn column. */
  predicate SpawnedAt(o: GameObject) {
    MinSpawnX <= o.x <= MaxSpawnX && o.y == SpawnY as real
  }

  /** Any object create_fruit can return, whatever its random draws. */
  predicate IsNewFruit(o: GameObject) {
    && SpawnedAt(o) && o.radius == 15 && 1.0 <= o.speed <= 2.0
    && o.kind.Fruit? && o.kind.points == FruitPoints(o.kind.name)
  }

  /** Any object create_bomb can return. */
  predicate IsNewBomb(o: GameObject) {
    SpawnedAt(o) && o.radius == 12 && 2.5 <= o.speed <= 3.5 && o.kind == Bomb(2)
  }

  /** Any object create_egg can return. */
  predicate IsNewEgg(o: GameObject) {
    SpawnedAt(o) && o.radius == 10 && 2.0 <= o.speed <= 3.0 && o.kind == Egg(1)
  }

  /**
    create_fruit with the random choices made by the caller: the fruit
    type, the column x from randint(30, 770) and the speed from
    uniform(1, 2).
  */
  function CreateFruit(name: FruitName, x: int, speed: real): (o: GameObject)
    requires MinSpawnX <= x <= MaxSpawnX && 1.0 <= speed <= 2.0
    ensures IsNewFruit(o) && o.kind.name == name && o.x == x && o.speed == speed
  {
    GameObject(x, SpawnY as real, 15, speed, Fruit(name, FruitPoints(name)))
  }

  /** create_bomb with the column and the speed from uniform(2.5, 3.5) given. */
  function CreateBomb(x: int, speed: real): (o: GameObject)
    requires MinSpawnX <= x <= MaxSpawnX && 2.5 <= speed <= 3.5
    ensures IsNewBomb(o) && o.x == x && o.speed == speed
  {
    GameObject(x, SpawnY as real, 12, speed, Bomb(2))
  }

  /** create_egg with the column and the speed from uniform(2.0, 3.0) given. */
  function CreateEgg(x: int, speed: real): (o: GameObject)
    requires MinSpawnX <= x <= MaxSpawnX && 2.0 <= speed <= 3.0
    ensures IsNewEgg(o) && o.x == x && o.speed == speed
  {
    GameObject(x, SpawnY as real, 10, speed, Egg(1))
  }

  /** Every object the game can create is one of the create_* results. */
  lemma NewObjectsAreCreated(o: GameObject)
    ensures IsNewFruit(o) ==> o == CreateFruit(o.kind.name, o.x, o.speed)
    ensures IsNewBomb(o) ==> o == CreateBomb(o.x, o.speed)
    ensures IsNewEgg(o) ==> o == CreateEgg(o.x, o.speed)
  {
  }

  /**
    check_collision: the object's lowest point is within the catch band
    and its centre is over the basket, every bound included.
  */
  predicate CheckCollision(o: GameObject, basket: int) {
    && (o.y - o.radius as real <= BasketTop as real && o.y - o.radius as real >= BasketBottom as real)
    && basket - BasketWidth <= o.x <= basket + BasketWidth
  }

  /** A caught object is above the floor, so a catch and a fall-out never coincide. */
  lemma CaughtIsAboveFloor(o: GameObject, basket: int)
    requires o.radius >= 0 && CheckCollision(o, basket)
    ensures o.y >= BasketBottom as real
  {
  }

  /** The four corners of the catch region are inside it. */
  lemma CatchCorners(o: GameObject, basket: int)
    requires o.y - o.radius as real == BasketBottom as real || o.y - o.radius as real == BasketTop as real
    requires o.x == basket - BasketWidth || o.x == basket + BasketWidth
    ensures CheckCollision(o, basket)
  {
  }

  /** Just outside the band or beside the basket is not a catch. */
  lemma CatchEdges(o: GameObject, basket: int)
    requires o.y - o.radius as real > BasketTop as real
          || o.y - o.radius as real < BasketBottom as real
          || o.x < basket - BasketWidth || o.x > basket + BasketWidth
    ensures !CheckCollision(o, basket)
  {
  }
}
