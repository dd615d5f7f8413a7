/**
  The game's mutable state and the event handlers that update it in
  place.  The program keeps this state in module-level variables; here
  they are the fields of one object, and every handler is proved to
  leave exactly the state the matching function of module Simulation
  describes.
*/
module Game {
  import opened Entities
  import opened Simulation

  class GameState {
    var paused: bool
    var over: bool
    var score: int
    var hearts: int
    var missed: int
    var basket: int
    var fruits: seq<GameObject>
    var bombs: seq<GameObject>
    var eggs: seq<GameObject>

    /** The fields as one value. */
    function View(): World
      reads this
    {
      World(paused, over, score, hearts, missed, basket, fruits, bombs, eggs)
    }

    ghost predicate Valid()
      reads this
    {
      WellFormed(View())
    }

    /** The state the program starts in. */
    constructor()
      ensures View() == Initial() && Valid()
    {
      paused, over := false, false;
      score, hearts, missed := 0, MaxHearts, 0;
      basket := WindowWidth / 2;
      fruits, bombs, eggs := [], [], [];
      InitialWellFormed();
    }

    /** reset_game: back to the start-up state, whatever the state was. */
    method ResetGame()
      modifies this
      ensures View() == Initial() && Valid()
    {
      fruits, bombs, eggs := [], [], [];
      score, hearts, missed := 0, MaxHearts, 0;
      basket := WindowWidth / 2;
      over, paused := false, false;
      InitialWellFormed();
    }

    /**
      update_game_state: one tick.  Nothing happens while paused or over;
      otherwise the fruit, bomb and egg lists are swept in that order.
    */
    method UpdateGameState()
      requires AllFruit(fruits)
      modifies this
      ensures View() == Tick(old(View()))
      ensures old(Valid()) ==> Valid()
    {
      ghost var w := View();
      if paused || over {
        return;
      }
      var t := Tally(score, hearts, missed, over);
      fruits, t := SweepFruits(fruits, basket, t);
      bombs, t := SweepBombs(bombs, basket, t);
      eggs, t := SweepEggs(eggs, basket, t);
      score, hearts, missed, over := t.score, t.hearts, t.missed, t.over;
      if WellFormed(w) {
        TickPreserves(w);
      }
    }

    /**
      spawn_objects with the random numbers and the new objects given:
      append each object whose draw falls below its chance at the
      current score, unless paused or over.
    */
    method SpawnObjects(d: Draws, fruit: GameObject, bomb: GameObject, egg: GameObject)
      requires IsNewFruit(fruit) && IsNewBomb(bomb) && IsNewEgg(egg)
      modifies this
      ensures View() == Spawn(old(View()), d, fruit, bomb, egg)
      ensures old(Valid()) ==> Valid()
    {
      ghost var w := View();
      if paused || over {
        return;
      }
      var fruitChance := 0.02 + RMin(score as real / 1000.0, 0.03);
      var bombChance := 0.01 + RMin(score as real / 2000.0, 0.02);
      var eggChance := 0.005;
      if d.fruit < fruitChance {
        fruits := fruits + [fruit];
      }
      if d.bomb < bombChance {
        bombs := bombs + [bomb];
      }
      if d.egg < eggChance {
        eggs := eggs + [egg];
      }
      if WellFormed(w) {
        SpawnPreserves(w, d, fruit, bomb, egg);
      }
    }

    /** keyboard: move the basket, pause or quit; quit is true for `q`. */
    method Keyboard(key: char) returns (quit: bool)
      modifies this
      ensures View() == KeyPress(old(View()), key) && quit == Quits(key)
      ensures old(Valid()) ==> Valid()
    {
      ghost var w := View();
      quit := false;
      if key == 'a' && basket > MinBasket {
        basket := basket - MovementSpeed;
        if basket < MinBasket {
          basket := MinBasket;
        }
      } else if key == 'd' && basket < MaxBasket {
        basket := basket + MovementSpeed;
        if basket > MaxBasket {
          basket := MaxBasket;
        }
      } else if key == 'p' {
        paused := !paused;
      } else if key == 'q' {
        quit := true;
      }
      if WellFormed(w) {
        KeyPressPreserves(w, key);
      }
    }

    /**
      mouse_click: for a left-button press, flip y to a height from the
      bottom and let every button the point hits act; quit is true when
      the exit button was hit.
    */
    method MouseClick(leftPress: bool, x: int, y: int) returns (quit: bool)
      modifies this
      ensures Outcome(View(), quit) == Click(old(View()), leftPress, x, y)
      ensures old(Valid()) ==> Valid()
    {
      ghost var w := View();
      quit := false;
      if !leftPress {
        return;
      }
      var y' := WindowHeight - y;
      var i := 0;
      while i < |Buttons|
        invariant 0 <= i <= |Buttons|
        invariant Outcome(View(), quit) == TryButtons(Outcome(w, false), Buttons[..i], x, y')
      {
        assert Buttons[..i + 1][..i] == Buttons[..i];
        var b := Buttons[i];
        if Hit(b, x, y') {
          match b
          case Restart =>
            ResetGame();
          case Pause =>
            paused := !paused;
          case Exit =>
            quit := true;
        }
        i := i + 1;
      }
      assert Buttons[..i] == Buttons;
      if WellFormed(w) {
        ClickPreserves(w, leftPress, x, y);
      }
    }
  }

  /**
    The fruit loop of update_game_state, over its own copy of the list:
    every fruit falls by its speed; one below the floor is removed and
    counts as a miss, a heart going on every third miss in a row; one in
    the basket is removed and scores its points, ending the streak.
    Returns the list and the counters as the loop leaves them.
  */
  method SweepFruits(fruits: seq<GameObject>, basket: int, t: Tally) returns (kept: seq<GameObject>, r: Tally)
    requires AllFruit(fruits)
    ensures kept == Survivors(fruits, basket) && r == Settled(FruitLane, t, fruits, basket)
  {
    kept := fruits;
    var score, hearts, missed, over := t.score, t.hearts, t.missed, t.over;
    var i, n := 0, 0;
    while i < |fruits|
      invariant 0 <= i <= |fruits| && n == |Survivors(fruits[..i], basket)|
      invariant kept == Survivors(fruits[..i], basket) + fruits[i..]
      invariant Tally(score, hearts, missed, over) == Settled(FruitLane, t, fruits[..i], basket)
    {
      SweepStep(FruitLane, t, fruits, i, basket);
      Uncons(fruits, i);
      Splice(Survivors(fruits[..i], basket), fruits[i], Moved(fruits[i]), fruits[i + 1..]);
      var fruit := fruits[i];
      fruit := fruit.(y := fruit.y - fruit.speed);
      kept := kept[n := fruit];
      if fruit.y < 0.0 {
        kept := kept[..n] + kept[n + 1..];
        missed := missed + 1;
        if missed % 3 == 0 {
          hearts := hearts - 1;
          if hearts <= 0 {
            over := true;
          }
        }
      } else if CheckCollision(fruit, basket) {
        score := score + fruit.kind.points;
        kept := kept[..n] + kept[n + 1..];
        missed := 0;
      } else {
        n := n + 1;
      }
      i := i + 1;
    }
    assert fruits[..i] == fruits;
    r := Tally(score, hearts, missed, over);
  }

  /** The bomb loop: a caught bomb is removed and costs two hearts. */
  method SweepBombs(bombs: seq<GameObject>, basket: int, t: Tally) returns (kept: seq<GameObject>, r: Tally)
    ensures kept == Survivors(bombs, basket) && r == Settled(BombLane, t, bombs, basket)
  {
    kept := bombs;
    var hearts, over := t.hearts, t.over;
    var i, n := 0, 0;
    while i < |bombs|
      invariant 0 <= i <= |bombs| && n == |Survivors(bombs[..i], basket)|
      invariant kept == Survivors(bombs[..i], basket) + bombs[i..]
      invariant Tally(t.score, hearts, t.missed, over) == Settled(BombLane, t, bombs[..i], basket)
    {
      SweepStep(BombLane, t, bombs, i, basket);
      Uncons(bombs, i);
      Splice(Survivors(bombs[..i], basket), bombs[i], Moved(bombs[i]), bombs[i + 1..]);
      var bomb := bombs[i];
      bomb := bomb.(y := bomb.y - bomb.speed);
      kept := kept[n := bomb];
      if bomb.y < 0.0 {
        kept := kept[..n] + kept[n + 1..];
      } else if CheckCollision(bomb, basket) {
        hearts := hearts - 2;
        kept := kept[..n] + kept[n + 1..];
        if hearts <= 0 {
          over := true;
        }
      } else {
        n := n + 1;
      }
      i := i + 1;
    }
    assert bombs[..i] == bombs;
    r := Tally(t.score, hearts, t.missed, over);
  }

  /** The egg loop: a caught egg is removed and gives back a heart, up to five. */
  method SweepEggs(eggs: seq<GameObject>, basket: int, t: Tally) returns (kept: seq<GameObject>, r: Tally)
    ensures kept == Survivors(eggs, basket) && r == Settled(EggLane, t, eggs, basket)
  {
    kept := eggs;
    var hearts := t.hearts;
    var i, n := 0, 0;
    while i < |eggs|
      invariant 0 <= i <= |eggs| && n == |Survivors(eggs[..i], basket)|
      invariant kept == Survivors(eggs[..i], basket) + eggs[i..]
      invariant Tally(t.score, hearts, t.missed, t.over) == Settled(EggLane, t, eggs[..i], basket)
    {
      SweepStep(EggLane, t, eggs, i, basket);
      Uncons(eggs, i);
      Splice(Survivors(eggs[..i], basket), eggs[i], Moved(eggs[i]), eggs[i + 1..]);
      var egg := eggs[i];
      egg := egg.(y := egg.y - egg.speed);
      kept := kept[n := egg];
      if egg.y < 0.0 {
        kept := kept[..n] + kept[n + 1..];
      } else if CheckCollision(egg, basket) {
        hearts := Min(hearts + 1, MaxHearts);
        kept := kept[..n] + kept[n + 1..];
      } else {
        n := n + 1;
      }
      i := i + 1;
    }
    assert eggs[..i] == eggs;
    r := Tally(t.score, hearts, t.missed, t.over);
  }
}
