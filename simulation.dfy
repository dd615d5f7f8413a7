/**
  The game's state as a value and the rules that change it: one timer
  tick of falling objects, a key press, a mouse click on the buttons, a
  reset and the spawning of new objects.  The class in module Game
  carries out the same steps in place; the functions here say what they
  compute.
*/
module Simulation {
  import opened Entities
  import Raster

  /** The global state of the game. */
  datatype World = World(
    paused: bool,
    over: bool,
    score: int,
    hearts: int,
    missed: int,
    basket: int,
    fruits: seq<GameObject>,
    bombs: seq<GameObject>,
    eggs: seq<GameObject>)

  const MaxHearts := 5

  /** The state at start-up and after reset_game. */
  function Initial(): World {
    World(false, false, 0, MaxHearts, 0, WindowWidth / 2, [], [], [])
  }

  function Min(a: int, b: int): int {
    if a < b then a else b
  }

  /** Every object in the list is a fruit, so its catch can be scored. */
  predicate AllFruit(os: seq<GameObject>) {
    forall i :: 0 <= i < |os| ==> os[i].kind.Fruit?
  }

  /** Every object in the list is a fruit worth what its type says. */
  predicate FruitsOnly(os: seq<GameObject>) {
    forall i :: 0 <= i < |os| ==> os[i].kind.Fruit? && os[i].kind.points == FruitPoints(os[i].kind.name)
  }

  /**
    What holds of every state the game reaches: the basket is on screen,
    score and miss streak are not negative, there are at most five hearts,
    no hearts left means the game is over, and the fruit list holds fruits.
  */
  predicate WellFormed(w: World) {
    && MinBasket <= w.basket <= MaxBasket
    && w.score >= 0 && w.missed >= 0
    && w.hearts <= MaxHearts
    && (w.hearts <= 0 ==> w.over)
    && FruitsOnly(w.fruits)
  }

  lemma InitialWellFormed()
    ensures WellFormed(Initial()) && Initial().basket == 400
  {
  }

  // ---------------------------------------------------------------------
  // One tick of update_game_state
  // ---------------------------------------------------------------------

  /** The object after it has fallen by its speed. */
  function Moved(o: GameObject): GameObject {
    o.(y := o.y - o.speed)
  }

  /** What happens to an object in a tick, judged at its new height. */
  datatype Fate = Fell | Caught | Falling

  function FateOf(o: GameObject, basket: int): Fate {
    var m := Moved(o);
    if m.y < 0.0 then Fell
    else if CheckCollision(m, basket) then Caught
    else Falling
  }

  /**
    The list after one pass: each object that neither fell out nor was
    caught, moved, in the original order.
  */
  function Survivors(os: seq<GameObject>, basket: int): seq<GameObject>
    decreases |os|
  {
    if os == [] then []
    else
      var o := os[|os| - 1];
      Survivors(os[..|os| - 1], basket) + (if FateOf(o, basket) == Falling then [Moved(o)] else [])
  }

  /** The counters a pass updates. */
  datatype Tally = Tally(score: int, hearts: int, missed: int, over: bool)

  /** The three passes of a tick, in the order they run. */
  datatype Lane = FruitLane | BombLane | EggLane

  /**
    The counters after one object of a pass.  A fruit that falls out
    extends the miss streak and costs a heart on every third miss; a
    caught fruit scores its points and ends the streak.  A caught bomb
    costs two hearts and a caught egg gives one back, up to five.  The
    game ends when hearts drop to zero or below; nothing here ever
    un-ends it.  Bombs and eggs that fall out change nothing.
  */
  function Settle(lane: Lane, t: Tally, o: GameObject, basket: int): Tally
    requires lane == FruitLane ==> o.kind.Fruit?
  {
    match FateOf(o, basket)
    case Falling => t
    case Fell =>
      if lane == FruitLane then
        var missed := t.missed + 1;
        if missed % 3 == 0 then
          Tally(t.score, t.hearts - 1, missed, t.over || t.hearts - 1 <= 0)
        else
          Tally(t.score, t.hearts, missed, t.over)
      else t
    case Caught =>
      match lane
      case FruitLane => Tally(t.score + o.kind.points, t.hearts, 0, t.over)
      case BombLane => Tally(t.score, t.hearts - 2, t.missed, t.over || t.hearts - 2 <= 0)
      case EggLane => Tally(t.score, Min(t.hearts + 1, MaxHearts), t.missed, t.over)
  }

  /** The counters after a whole pass over os, first object first. */
  function Settled(lane: Lane, t: Tally, os: seq<GameObject>, basket: int): Tally
    requires lane == FruitLane ==> AllFruit(os)
    decreases |os|
  {
    if os == [] then t
    else Settle(lane, Settled(lane, t, os[..|os| - 1], basket), os[|os| - 1], basket)
  }

  /**
    update_game_state: nothing happens while paused or over; otherwise
    the fruit pass, then the bomb pass, then the egg pass, each starting
    from the counters the one before left.
  */
  function Tick(w: World): World
    requires AllFruit(w.fruits)
  {
    if w.paused || w.over then w
    else
      var t0 := Tally(w.score, w.hearts, w.missed, w.over);
      var t1 := Settled(FruitLane, t0, w.fruits, w.basket);
      var t2 := Settled(BombLane, t1, w.bombs, w.basket);
      var t3 := Settled(EggLane, t2, w.eggs, w.basket);
      World(w.paused, t3.over, t3.score, t3.hearts, t3.missed, w.basket,
            Survivors(w.fruits, w.basket), Survivors(w.bombs, w.basket), Survivors(w.eggs, w.basket))
  }

  // Reference counts, defined from the front of the list.

  /** How many objects of os meet the given fate. */
  function Count(os: seq<GameObject>, basket: int, fate: Fate): (n: nat)
    ensures n <= |os|
  {
    if os == [] then 0
    else (if FateOf(os[0], basket) == fate then 1 else 0) + Count(os[1..], basket, fate)
  }

  /** The points of the fruits of os that are caught. */
  function CaughtPoints(os: seq<GameObject>, basket: int): int
    requires AllFruit(os)
  {
    if os == [] then 0
    else (if FateOf(os[0], basket) == Caught then os[0].kind.points else 0) + CaughtPoints(os[1..], basket)
  }

  lemma {:induction false} CountSnoc(os: seq<GameObject>, o: GameObject, basket: int, fate: Fate)
    ensures Count(os + [o], basket, fate) == Count(os, basket, fate) + (if FateOf(o, basket) == fate then 1 else 0)
    decreases |os|
  {
    if os != [] {
      assert (os + [o])[1..] == os[1..] + [o];
      CountSnoc(os[1..], o, basket, fate);
    }
  }

  lemma {:induction false} CaughtPointsSnoc(os: seq<GameObject>, o: GameObject, basket: int)
    requires AllFruit(os) && o.kind.Fruit?
    ensures AllFruit(os + [o])
    ensures CaughtPoints(os + [o], basket)
         == CaughtPoints(os, basket) + (if FateOf(o, basket) == Caught then o.kind.points else 0)
    decreases |os|
  {
    assert forall i :: 0 <= i < |os| ==> (os + [o])[i] == os[i];
    if os != [] {
      assert (os + [o])[1..] == os[1..] + [o];
      CaughtPointsSnoc(os[1..], o, basket);
    }
  }

  /** Splitting a list into its front and its last object. */
  lemma Snoc(os: seq<GameObject>)
    requires os != []
    ensures os == os[..|os| - 1] + [os[|os| - 1]]
  {
  }

  // Properties of the passes.

  /** A pass over two lists one after the other keeps both survivor lists, in order. */
  lemma {:induction false} SurvivorsAppend(a: seq<GameObject>, b: seq<GameObject>, basket: int)
    ensures Survivors(a + b, basket) == Survivors(a, basket) + Survivors(b, basket)
    decreases |b|
  {
    if b == [] {
      assert a + b == a;
    } else {
      var b' := b[..|b| - 1];
      assert (a + b)[..|a + b| - 1] == a + b';
      SurvivorsAppend(a, b', basket);
    }
  }

  /**
    The survivors are exactly the moved versions of the objects whose
    fate is to keep falling.
  */
  lemma {:induction false} SurvivorsMembers(os: seq<GameObject>, basket: int, m: GameObject)
    ensures m in Survivors(os, basket)
        <==> exists i :: 0 <= i < |os| && FateOf(os[i], basket) == Falling && m == Moved(os[i])
    decreases |os|
  {
    if os != [] {
      var front := os[..|os| - 1];
      SurvivorsMembers(front, basket, m);
      assert forall i :: 0 <= i < |front| ==> front[i] == os[i];
    }
  }

  lemma Uncons(os: seq<GameObject>, i: int)
    requires 0 <= i < |os|
    ensures os[i..] == [os[i]] + os[i + 1..]
  {
  }

  /** The pass over the first i + 1 objects extends the pass over the first i by one object. */
  lemma SweepStep(lane: Lane, t: Tally, os: seq<GameObject>, i: int, basket: int)
    requires 0 <= i < |os| && (lane == FruitLane ==> AllFruit(os))
    ensures lane == FruitLane ==> AllFruit(os[..i]) && AllFruit(os[..i + 1]) && os[i].kind.Fruit?
    ensures Survivors(os[..i + 1], basket)
         == if FateOf(os[i], basket) == Falling then Survivors(os[..i], basket) + [Moved(os[i])] else Survivors(os[..i], basket)
    ensures Settled(lane, t, os[..i + 1], basket) == Settle(lane, Settled(lane, t, os[..i], basket), os[i], basket)
  {
    assert os[..i + 1][..i] == os[..i];
  }

  /** The list surgery of one step of a sweep: overwrite the current object, then keep or drop it. */
  lemma Splice(done: seq<GameObject>, o: GameObject, m: GameObject, rest: seq<GameObject>)
    ensures var l := (done + ([o] + rest))[|done| := m];
            && l == (done + [m]) + rest
            && l[..|done|] + l[|done| + 1..] == done + rest
  {
    var l := (done + ([o] + rest))[|done| := m];
    assert l[..|done|] == done;
    assert l[|done| + 1..] == rest;
  }

  /** Every object of the list leaves it or stays, one or the other. */
  lemma {:induction false} SurvivorsLength(os: seq<GameObject>, basket: int)
    ensures |Survivors(os, basket)| == |os| - Count(os, basket, Fell) - Count(os, basket, Caught)
    decreases |os|
  {
    if os != [] {
      var front, o := os[..|os| - 1], os[|os| - 1];
      SurvivorsLength(front, basket);
      Snoc(os);
      CountSnoc(front, o, basket, Fell);
      CountSnoc(front, o, basket, Caught);
    }
  }

  /** Every fruit survivor is still a fruit worth its table points. */
  lemma SurvivorsFruitsOnly(os: seq<GameObject>, basket: int)
    requires FruitsOnly(os)
    ensures FruitsOnly(Survivors(os, basket))
  {
    var s := Survivors(os, basket);
    forall j | 0 <= j < |s|
      ensures s[j].kind.Fruit? && s[j].kind.points == FruitPoints(s[j].kind.name)
    {
      SurvivorsMembers(os, basket, s[j]);
    }
  }

  lemma AllFruitFront(os: seq<GameObject>)
    requires os != [] && AllFruit(os)
    ensures AllFruit(os[..|os| - 1]) && os[|os| - 1].kind.Fruit?
  {
  }

  /** A fruit pass adds exactly the points of the fruits caught. */
  lemma {:induction false} FruitPassScore(t: Tally, os: seq<GameObject>, basket: int)
    requires AllFruit(os)
    ensures Settled(FruitLane, t, os, basket).score == t.score + CaughtPoints(os, basket)
    decreases |os|
  {
    if os != [] {
      var front, o := os[..|os| - 1], os[|os| - 1];
      AllFruitFront(os);
      FruitPassScore(t, front, basket);
      Snoc(os);
      CaughtPointsSnoc(front, o, basket);
    }
  }

  /**
    The fruit pass never adds hearts, and it ends the game exactly when
    it has cost a heart and left none: over becomes true only together
    with a heart lost down to zero or below.
  */
  lemma {:induction false} FruitPassHearts(t: Tally, os: seq<GameObject>, basket: int)
    requires AllFruit(os)
    ensures var r := Settled(FruitLane, t, os, basket);
            && r.hearts <= t.hearts
            && r.over == (t.over || (r.hearts < t.hearts && r.hearts <= 0))
    decreases |os|
  {
    if os != [] {
      AllFruitFront(os);
      FruitPassHearts(t, os[..|os| - 1], basket);
    }
  }

  /** While no fruit is caught, every fruit that falls out extends the miss streak by one. */
  lemma {:induction false} FruitPassStreak(t: Tally, os: seq<GameObject>, basket: int)
    requires AllFruit(os) && Count(os, basket, Caught) == 0
    ensures Settled(FruitLane, t, os, basket).missed == t.missed + Count(os, basket, Fell)
    decreases |os|
  {
    if os != [] {
      var front, o := os[..|os| - 1], os[|os| - 1];
      AllFruitFront(os);
      Snoc(os);
      CountSnoc(front, o, basket, Caught);
      CountSnoc(front, o, basket, Fell);
      FruitPassStreak(t, front, basket);
      FruitMissStep(Settled(FruitLane, t, front, basket), o, basket);
    }
  }

  /** Hearts lost while a miss streak grows from m to m + f: one at each multiple of three. */
  function StreakLosses(m: int, f: nat): nat {
    if f == 0 then 0 else StreakLosses(m, f - 1) + (if (m + f) % 3 == 0 then 1 else 0)
  }

  lemma {:induction false} StreakLossesThirds(m: int, f: nat)
    requires m >= 0
    ensures StreakLosses(m, f) == (m + f) / 3 - m / 3
  {
    if f > 0 {
      StreakLossesThirds(m, f - 1);
    }
  }

  /** While no fruit is caught, each fall that completes a multiple of three costs a heart. */
  lemma {:induction false} FruitPassLosses(t: Tally, os: seq<GameObject>, basket: int)
    requires AllFruit(os) && Count(os, basket, Caught) == 0
    ensures Settled(FruitLane, t, os, basket).hearts == t.hearts - StreakLosses(t.missed, Count(os, basket, Fell))
    decreases |os|
  {
    if os != [] {
      var front, o := os[..|os| - 1], os[|os| - 1];
      AllFruitFront(os);
      Snoc(os);
      CountSnoc(front, o, basket, Caught);
      CountSnoc(front, o, basket, Fell);
      FruitPassLosses(t, front, basket);
      FruitPassStreak(t, front, basket);
      var r0 := Settled(FruitLane, t, front, basket);
      FruitMissStep(r0, o, basket);
      if FateOf(o, basket) == Fell {
        LossStep(t.missed, t.hearts, Count(front, basket, Fell), Count(os, basket, Fell), r0, Settled(FruitLane, t, os, basket));
      }
    }
  }

  lemma LossStep(m: int, h: int, f: nat, f': nat, r0: Tally, r: Tally)
    requires f' == f + 1 && r0.missed == m + f && r0.hearts == h - StreakLosses(m, f)
    requires r.hearts == (if (r0.missed + 1) % 3 == 0 then r0.hearts - 1 else r0.hearts)
    ensures r.hearts == h - StreakLosses(m, f')
  {
  }

  /**
    While no fruit is caught, a heart is lost each time the miss streak
    reaches a multiple of three, and the streak is not reset when it
    does: missing F fruits from a streak of m costs (m + F) / 3 - m / 3
    hearts and leaves a streak of m + F.
  */
  lemma FruitPassMisses(t: Tally, os: seq<GameObject>, basket: int)
    requires AllFruit(os) && t.missed >= 0 && Count(os, basket, Caught) == 0
    ensures var r := Settled(FruitLane, t, os, basket);
            var f := Count(os, basket, Fell);
            && r.missed == t.missed + f
            && r.hearts == t.hearts - ((t.missed + f) / 3 - t.missed / 3)
  {
    FruitPassStreak(t, os, basket);
    FruitPassLosses(t, os, basket);
    StreakLossesThirds(t.missed, Count(os, basket, Fell));
  }

  /** One fruit that is not caught: a fall extends the streak and may cost a heart. */
  lemma FruitMissStep(t: Tally, o: GameObject, basket: int)
    requires o.kind.Fruit? && FateOf(o, basket) != Caught
    ensures var r := Settle(FruitLane, t, o, basket);
            var fell := FateOf(o, basket) == Fell;
            && r.missed == t.missed + (if fell then 1 else 0)
            && r.hearts == (if fell && (t.missed + 1) % 3 == 0 then t.hearts - 1 else t.hearts)
  {
  }


  /** A caught fruit ends the miss streak: if the last fruit is caught the streak is zero. */
  lemma FruitPassCatchResets(t: Tally, os: seq<GameObject>, basket: int)
    requires AllFruit(os) && os != [] && FateOf(os[|os| - 1], basket) == Caught
    ensures Settled(FruitLane, t, os, basket).missed == 0
  {
  }

  /**
    A bomb pass costs exactly two hearts per bomb caught and nothing else
    of the counters, and it ends the game exactly when a bomb was caught
    and the hearts left are zero or below.
  */
  lemma {:induction false} BombPass(t: Tally, os: seq<GameObject>, basket: int)
    ensures var r := Settled(BombLane, t, os, basket);
            && r.hearts == t.hearts - 2 * Count(os, basket, Caught)
            && r.score == t.score && r.missed == t.missed
            && r.over == (t.over || (Count(os, basket, Caught) > 0 && r.hearts <= 0))
    decreases |os|
  {
    if os != [] {
      var front, o := os[..|os| - 1], os[|os| - 1];
      Snoc(os);
      CountSnoc(front, o, basket, Caught);
      BombPass(t, front, basket);
    }
  }

  /**
    An egg pass gives back one heart per egg caught but never goes above
    five, and changes no other counter.
  */
  lemma {:induction false} EggPass(t: Tally, os: seq<GameObject>, basket: int)
    ensures var r := Settled(EggLane, t, os, basket);
            var c := Count(os, basket, Caught);
            && r.hearts == (if c == 0 then t.hearts else Min(t.hearts + c, MaxHearts))
            && r.score == t.score && r.missed == t.missed && r.over == t.over
    decreases |os|
  {
    if os != [] {
      var front, o := os[..|os| - 1], os[|os| - 1];
      Snoc(os);
      CountSnoc(front, o, basket, Caught);
      EggPass(t, front, basket);
    }
  }

  /** While paused or over, a tick changes nothing at all. */
  lemma TickFrozen(w: World)
    requires AllFruit(w.fruits) && (w.paused || w.over)
    ensures Tick(w) == w
  {
  }

  /**
    A tick keeps the state well formed; it never lowers the score, never
    un-ends the game, never lengthens a list, and leaves the basket and
    the pause flag alone.
  */
  lemma TickPreserves(w: World)
    requires WellFormed(w)
    ensures AllFruit(w.fruits)
    ensures var w' := Tick(w);
            && WellFormed(w')
            && w'.score >= w.score
            && (w.over ==> w'.over)
            && |w'.fruits| <= |w.fruits| && |w'.bombs| <= |w.bombs| && |w'.eggs| <= |w.eggs|
            && w'.basket == w.basket && w'.paused == w.paused
  {
    if !(w.paused || w.over) {
      PassesPreserve(w);
      SurvivorsFruitsOnly(w.fruits, w.basket);
      SurvivorsLength(w.fruits, w.basket);
      SurvivorsLength(w.bombs, w.basket);
      SurvivorsLength(w.eggs, w.basket);
    }
  }

  /** The bounds a well-formed state keeps on its counters. */
  predicate TallyOk(t: Tally) {
    t.score >= 0 && t.missed >= 0 && t.hearts <= MaxHearts && (t.hearts <= 0 ==> t.over)
  }

  /** Each pass keeps the counter bounds, never lowers the score and never un-ends the game. */
  lemma PassKeeps(lane: Lane, t: Tally, os: seq<GameObject>, basket: int)
    requires TallyOk(t) && (lane == FruitLane ==> FruitsOnly(os))
    ensures var r := Settled(lane, t, os, basket);
            TallyOk(r) && r.score >= t.score && (t.over ==> r.over)
  {
    match lane
    case FruitLane =>
      FruitPassScore(t, os, basket);
      CaughtPointsNonNegative(os, basket);
      FruitPassHearts(t, os, basket);
      FruitPassMissedNonNegative(t, os, basket);
    case BombLane =>
      BombPass(t, os, basket);
    case EggLane =>
      EggPass(t, os, basket);
  }

  /** The counters after the three passes of a tick keep the bounds of a well-formed state. */
  lemma PassesPreserve(w: World)
    requires WellFormed(w)
    ensures var t0 := Tally(w.score, w.hearts, w.missed, w.over);
            var t1 := Settled(FruitLane, t0, w.fruits, w.basket);
            var t2 := Settled(BombLane, t1, w.bombs, w.basket);
            var t3 := Settled(EggLane, t2, w.eggs, w.basket);
            TallyOk(t3) && t3.score >= w.score && (w.over ==> t3.over)
  {
    var t0 := Tally(w.score, w.hearts, w.missed, w.over);
    var t1 := Settled(FruitLane, t0, w.fruits, w.basket);
    var t2 := Settled(BombLane, t1, w.bombs, w.basket);
    PassKeeps(FruitLane, t0, w.fruits, w.basket);
    PassKeeps(BombLane, t1, w.bombs, w.basket);
    PassKeeps(EggLane, t2, w.eggs, w.basket);
  }

  lemma {:induction false} CaughtPointsNonNegative(os: seq<GameObject>, basket: int)
    requires FruitsOnly(os)
    ensures CaughtPoints(os, basket) >= 0
    decreases |os|
  {
    if os != [] {
      CaughtPointsNonNegative(os[1..], basket);
    }
  }

  lemma {:induction false} FruitPassMissedNonNegative(t: Tally, os: seq<GameObject>, basket: int)
    requires AllFruit(os) && t.missed >= 0
    ensures Settled(FruitLane, t, os, basket).missed >= 0
    decreases |os|
  {
    if os != [] {
      AllFruitFront(os);
      FruitPassMissedNonNegative(t, os[..|os| - 1], basket);
    }
  }

  // Worked ticks, with the basket at the centre of the window.

  /** A banana whose lowest point lands in the catch band over the basket. */
  const CatchableBanana := GameObject(400, 50.0, 15, 1.5, Fruit(Banana, 2))

  /** Catching a banana scores two points, removes it and clears the miss streak. */
  lemma TickCatchesBanana()
    ensures Tick(World(false, false, 0, 5, 2, 400, [CatchableBanana], [], []))
         == World(false, false, 2, 5, 0, 400, [], [], [])
  {
    var b := CatchableBanana;
    assert FateOf(b, 400) == Caught;
    assert [b][..0] == [];
    assert Survivors([b], 400) == [];
    var t0 := Tally(0, 5, 2, false);
    assert Settled(FruitLane, t0, [b], 400) == Settle(FruitLane, t0, b, 400);
    assert Settle(FruitLane, t0, b, 400) == Tally(2, 5, 0, false);
  }

  /** Three fruits lost together complete a streak of three and cost one heart. */
  lemma TickThreeMisses()
    ensures var lost := GameObject(100, 1.0, 15, 1.5, Fruit(Apple, 1));
            Tick(World(false, false, 0, 5, 0, 400, [lost, lost, lost], [], [])) ==
              World(false, false, 0, 4, 3, 400, [], [], [])
  {
    var lost := GameObject(100, 1.0, 15, 1.5, Fruit(Apple, 1));
    var os := [lost, lost, lost];
    assert FateOf(lost, 400) == Fell;
    assert os[..2] == [lost, lost] && os[..2][..1] == [lost] && [lost][..0] == [];
    var t0 := Tally(0, 5, 0, false);
    assert Settled(FruitLane, t0, [lost], 400) == Tally(0, 5, 1, false);
    assert Settled(FruitLane, t0, [lost, lost], 400) == Tally(0, 5, 2, false);
    assert Settled(FruitLane, t0, os, 400) == Tally(0, 4, 3, false);
    assert Survivors([lost], 400) == [];
    assert Survivors([lost, lost], 400) == [];
  }

  /** A bomb caught with one heart left ends the game and leaves hearts below zero. */
  lemma TickBombOnLastHeart()
    ensures var bomb := GameObject(400, 65.0, 12, 3.0, Bomb(2));
            Tick(World(false, false, 0, 1, 0, 400, [], [bomb], [])) ==
              World(false, true, 0, -1, 0, 400, [], [], [])
  {
  }

  /** An egg heals one heart, but never above five. */
  lemma TickEggHeals()
    ensures var egg := GameObject(400, 63.0, 10, 2.0, Egg(1));
            && Tick(World(false, false, 0, 3, 0, 400, [], [], [egg])).hearts == 4
            && Tick(World(false, false, 0, 5, 0, 400, [], [], [egg])).hearts == 5
  {
  }

  /**
    The egg pass runs even after the bomb pass has ended the game in the
    same tick: the game is over, yet a heart is left.
  */
  lemma TickBombThenEgg()
    ensures var bomb := GameObject(400, 65.0, 12, 3.0, Bomb(2));
            var egg := GameObject(400, 63.0, 10, 2.0, Egg(1));
            Tick(World(false, false, 0, 2, 0, 400, [], [bomb], [egg])) ==
              World(false, true, 0, 1, 0, 400, [], [], [])
  {
  }

  // ---------------------------------------------------------------------
  // Spawning
  // ---------------------------------------------------------------------

  function RMin(a: real, b: real): real {
    if a < b then a else b
  }

  /** The chance of a new fruit in one tick: 2%, rising by 1% per 10 points, up to 5% from 30 points on. */
  function FruitChance(score: int): real {
    0.02 + RMin(score as real / 1000.0, 0.03)
  }

  /** The chance of a new bomb in one tick: 1%, rising by 1% per 20 points, up to 3% from 40 points on. */
  function BombChance(score: int): real {
    0.01 + RMin(score as real / 2000.0, 0.02)
  }

  /** The chance of a new egg in one tick, whatever the score. */
  const EggChance: real := 0.005

  /**
    For every reachable score the chances stay within their bounds, never
    fall as the score grows, and stop growing at 30 and 40 points.
  */
  lemma ChanceBounds(score: int, higher: int)
    requires 0 <= score <= higher
    ensures 0.02 <= FruitChance(score) <= FruitChance(higher) <= 0.05
    ensures 0.01 <= BombChance(score) <= BombChance(higher) <= 0.03
    ensures score >= 30 ==> FruitChance(score) == 0.05
    ensures score >= 40 ==> BombChance(score) == 0.03
  {
  }

  /** The three numbers random.random() returns in one call of spawn_objects. */
  datatype Draws = Draws(fruit: real, bomb: real, egg: real)

  function AppendIf(os: seq<GameObject>, chosen: bool, o: GameObject): seq<GameObject> {
    if chosen then os + [o] else os
  }

  /**
    spawn_objects, with the random numbers and the objects create_fruit,
    create_bomb and create_egg would build given to it: each object is
    appended when its draw falls below its chance.  Nothing is added
    while paused or over.
  */
  function Spawn(w: World, d: Draws, fruit: GameObject, bomb: GameObject, egg: GameObject): World
    requires IsNewFruit(fruit) && IsNewBomb(bomb) && IsNewEgg(egg)
  {
    if w.paused || w.over then w
    else
      w.(fruits := AppendIf(w.fruits, d.fruit < FruitChance(w.score), fruit),
         bombs := AppendIf(w.bombs, d.bomb < BombChance(w.score), bomb),
         eggs := AppendIf(w.eggs, d.egg < EggChance, egg))
  }

  /**
    Spawning keeps the state well formed, touches nothing but the lists,
    keeps every object already there in place and adds at most one of
    each kind, at the end.
  */
  lemma SpawnPreserves(w: World, d: Draws, fruit: GameObject, bomb: GameObject, egg: GameObject)
    requires IsNewFruit(fruit) && IsNewBomb(bomb) && IsNewEgg(egg)
    requires WellFormed(w)
    ensures var w' := Spawn(w, d, fruit, bomb, egg);
            && WellFormed(w')
            && w'.(fruits := w.fruits, bombs := w.bombs, eggs := w.eggs) == w
            && |w.fruits| <= |w'.fruits| <= |w.fruits| + 1 && w'.fruits[..|w.fruits|] == w.fruits
            && |w.bombs| <= |w'.bombs| <= |w.bombs| + 1 && w'.bombs[..|w.bombs|] == w.bombs
            && |w.eggs| <= |w'.eggs| <= |w.eggs| + 1 && w'.eggs[..|w.eggs|] == w.eggs
  {
    var w' := Spawn(w, d, fruit, bomb, egg);
    assert forall i :: 0 <= i < |w.fruits| ==> w'.fruits[i] == w.fruits[i];
  }

  /** While the game runs, a draw below its chance adds exactly that object; otherwise none is added. */
  lemma SpawnDraws(w: World, d: Draws, fruit: GameObject, bomb: GameObject, egg: GameObject)
    requires IsNewFruit(fruit) && IsNewBomb(bomb) && IsNewEgg(egg)
    requires !w.paused && !w.over
    ensures var w' := Spawn(w, d, fruit, bomb, egg);
            && (d.fruit < FruitChance(w.score) ==> w'.fruits == w.fruits + [fruit])
            && (d.fruit >= FruitChance(w.score) ==> w'.fruits == w.fruits)
            && (d.bomb < BombChance(w.score) ==> w'.bombs == w.bombs + [bomb])
            && (d.bomb >= BombChance(w.score) ==> w'.bombs == w.bombs)
            && (d.egg < EggChance ==> w'.eggs == w.eggs + [egg])
            && (d.egg >= EggChance ==> w'.eggs == w.eggs)
  {
  }

  /**
    A freshly spawned object is neither lost nor caught on its first tick:
    it starts far above both the floor and the catch band.
  */
  lemma NewObjectFallsFreely(o: GameObject, basket: int)
    requires IsNewFruit(o) || IsNewBomb(o) || IsNewEgg(o)
    ensures FateOf(o, basket) == Falling
  {
  }

  /**
    An object falling no faster than the band is tall cannot jump over the
    catch band: while its lowest point is above the band it cannot fall
    out in the next tick.
  */
  lemma BandCannotBeSkipped(o: GameObject, basket: int)
    requires 0 <= o.radius && o.speed <= (BasketTop - BasketBottom) as real
    requires o.y - o.radius as real > BasketTop as real
    ensures FateOf(o, basket) != Fell
    ensures Moved(o).y - o.radius as real >= BasketBottom as real
  {
  }

  // ---------------------------------------------------------------------
  // Keyboard
  // ---------------------------------------------------------------------

  const MovementSpeed := 10

  /**
    keyboard: `a` moves the basket left and `d` right by up to ten pixels,
    never past the edge of the window; `p` flips the pause flag, whether
    or not the game is over; `q` quits (see Quits); every other key, and a
    move against an edge the basket already touches, does nothing.
  */
  function KeyPress(w: World, key: char): World {
    if key == 'a' && w.basket > MinBasket then w.(basket := if w.basket - MovementSpeed < MinBasket then MinBasket else w.basket - MovementSpeed)
    else if key == 'd' && w.basket < MaxBasket then w.(basket := if w.basket + MovementSpeed > MaxBasket then MaxBasket else w.basket + MovementSpeed)
    else if key == 'p' then w.(paused := !w.paused)
    else w
  }

  /** The key that leaves the main loop. */
  predicate Quits(key: char) {
    key == 'q'
  }

  /**
    A key press keeps the basket on screen, moves it by at most ten
    pixels and only in the key's direction, and changes nothing else.
  */
  lemma KeyPressBasket(w: World, key: char)
    requires MinBasket <= w.basket <= MaxBasket
    ensures var w' := KeyPress(w, key);
            && MinBasket <= w'.basket <= MaxBasket
            && (key == 'a' ==> w.basket - MovementSpeed <= w'.basket <= w.basket)
            && (key == 'd' ==> w.basket <= w'.basket <= w.basket + MovementSpeed)
            && (key != 'a' && key != 'd' ==> w'.basket == w.basket)
            && w'.(basket := w.basket, paused := w.paused) == w
  {
  }

  /** `a` moves a basket that is away from the left edge; `d` likewise to the right. */
  lemma KeyPressMoves(w: World, key: char)
    requires MinBasket <= w.basket <= MaxBasket
    ensures key == 'a' ==> (KeyPress(w, key).basket < w.basket <==> w.basket > MinBasket)
    ensures key == 'd' ==> (KeyPress(w, key).basket > w.basket <==> w.basket < MaxBasket)
  {
  }

  /** `p` toggles the pause flag in every state, over or not. */
  lemma KeyPressPause(w: World)
    ensures KeyPress(w, 'p').paused == !w.paused
    ensures KeyPress(KeyPress(w, 'p'), 'p') == w
  {
  }

  /** Every key other than a, d and p leaves the state as it was. */
  lemma KeyPressOther(w: World, key: char)
    requires key != 'a' && key != 'd' && key != 'p'
    ensures KeyPress(w, key) == w
  {
  }

  lemma KeyPressPreserves(w: World, key: char)
    requires WellFormed(w)
    ensures WellFormed(KeyPress(w, key))
  {
    KeyPressBasket(w, key);
  }

  // ---------------------------------------------------------------------
  // Mouse buttons
  // ---------------------------------------------------------------------

  const ButtonSize := 40
  const ButtonSpacing := 10
  const ButtonY := WindowHeight - 50

  /** The three buttons, in the order the click handler tries them. */
  datatype Button = Restart | Pause | Exit

  const Buttons: seq<Button> := [Restart, Pause, Exit]

  /** The left edge of each button, counted back from the right edge of the window. */
  function ButtonX(b: Button): int {
    match b
    case Restart => WindowWidth - 3 * ButtonSize - 2 * ButtonSpacing
    case Pause => WindowWidth - 2 * ButtonSize - ButtonSpacing
    case Exit => WindowWidth - ButtonSize
  }

  /**
    The click at (x, y), y already measured from the bottom, is within
    half a button size of the button's centre.  Comparing squared
    distances gives the same answer as the square root for integers.
  */
  predicate Hit(b: Button, x: int, y: int) {
    var cx, cy := ButtonX(b) + ButtonSize / 2, ButtonY + ButtonSize / 2;
    (x - cx) * (x - cx) + (y - cy) * (y - cy) <= (ButtonSize / 2) * (ButtonSize / 2)
  }

  lemma SquareAbove(d: int)
    requires d * d <= 400
    ensures -20 <= d <= 20
  {
    if d > 20 {
      Raster.MulAtLeast(d, d - 20);
    } else if d < -20 {
      Raster.MulAtLeast(-d, -d - 20);
    }
  }


  /** No click lands on two buttons: their discs are fifty pixels apart and twenty wide. */
  lemma ButtonsDisjoint(b1: Button, b2: Button, x: int, y: int)
    requires Hit(b1, x, y) && Hit(b2, x, y)
    ensures b1 == b2
  {
    var e := y - (ButtonY + ButtonSize / 2);
    assert 0 <= e * e;
    SquareAbove(x - (ButtonX(b1) + ButtonSize / 2));
    SquareAbove(x - (ButtonX(b2) + ButtonSize / 2));
  }

  /** The state after a click, and whether the program leaves its main loop. */
  datatype Outcome = Outcome(world: World, quit: bool)

  /** What one button does when it is hit. */
  function Press(o: Outcome, b: Button): Outcome {
    match b
    case Restart => Outcome(Initial(), o.quit)
    case Pause => o.(world := o.world.(paused := !o.world.paused))
    case Exit => o.(quit := true)
  }

  /** The click handler's loop over the buttons, each tested against the same point. */
  function TryButtons(o: Outcome, bs: seq<Button>, x: int, y: int): Outcome
    decreases |bs|
  {
    if bs == [] then o
    else
      var o' := TryButtons(o, bs[..|bs| - 1], x, y);
      var b := bs[|bs| - 1];
      if Hit(b, x, y) then Press(o', b) else o'
  }

  /**
    mouse_click: only a left-button press counts; the window's y is
    turned into a height from the bottom, and every button the point
    hits acts in turn.
  */
  function Click(w: World, leftPress: bool, x: int, y: int): Outcome {
    if leftPress then TryButtons(Outcome(w, false), Buttons, x, WindowHeight - y)
    else Outcome(w, false)
  }

  /**
    A click acts as the one button it hits, or changes nothing when it
    hits none: restart resets, pause flips the pause flag even after the
    game is over, exit quits.
  */
  lemma ClickActsOnce(w: World, x: int, y: int)
    ensures var y' := WindowHeight - y;
            var r := Click(w, true, x, y);
            && (Hit(Restart, x, y') ==> r == Outcome(Initial(), false))
            && (Hit(Pause, x, y') ==> r == Outcome(w.(paused := !w.paused), false))
            && (Hit(Exit, x, y') ==> r == Outcome(w, true))
            && (!Hit(Restart, x, y') && !Hit(Pause, x, y') && !Hit(Exit, x, y') ==> r == Outcome(w, false))
  {
    var y' := WindowHeight - y;
    var o0 := Outcome(w, false);
    var o1 := if Hit(Restart, x, y') then Press(o0, Restart) else o0;
    var o2 := if Hit(Pause, x, y') then Press(o1, Pause) else o1;
    var o3 := if Hit(Exit, x, y') then Press(o2, Exit) else o2;
    assert Buttons[..2] == [Restart, Pause] && Buttons[..2][..1] == [Restart] && [Restart][..0] == [];
    assert TryButtons(o0, [Restart], x, y') == o1;
    assert TryButtons(o0, [Restart, Pause], x, y') == o2;
    assert Click(w, true, x, y) == o3;
    AtMostOneHit(x, y');
  }

  /** At most one of the three buttons is hit by any point. */
  lemma AtMostOneHit(x: int, y: int)
    ensures !(Hit(Restart, x, y) && Hit(Pause, x, y))
    ensures !(Hit(Restart, x, y) && Hit(Exit, x, y))
    ensures !(Hit(Pause, x, y) && Hit(Exit, x, y))
  {
    if Hit(Restart, x, y) && Hit(Pause, x, y) { ButtonsDisjoint(Restart, Pause, x, y); }
    if Hit(Restart, x, y) && Hit(Exit, x, y) { ButtonsDisjoint(Restart, Exit, x, y); }
    if Hit(Pause, x, y) && Hit(Exit, x, y) { ButtonsDisjoint(Pause, Exit, x, y); }
  }

  /** A click keeps the state well formed. */
  lemma ClickPreserves(w: World, leftPress: bool, x: int, y: int)
    requires WellFormed(w)
    ensures WellFormed(Click(w, leftPress, x, y).world)
  {
    if leftPress {
      ClickActsOnce(w, x, y);
    }
  }
}
