/**
 Concrete plays on the game's own configuration: a 32 by 16 grid, initial
 score 5 and 500 milliseconds between frames.
 */
module SnakeScenarios {
  import opened Wrappers
  import opened Geometry
  import opened Snake
  import SystemRandom

  /** Constructing the game as the program's entry point does. */
  lemma StartingPosition()
    ensures NewGame(32, 16, 5, 500, BerryDraw(0, 0))
            == Some(Game(32, 16, 5, 500, false, Pixel(16, 8), [], Pixel(1, 1), Right, 0))
  {
    assert GenerateBerry(32, 16, BerryDraw(0, 0)) == Some(Pixel(1, 1)) by {
      assert SystemRandom.Next(1, 31, 0) == Some(1);
      assert SystemRandom.Next(1, 15, 0) == Some(1);
    }
  }

  /** A head moving left from column 1 reaches the wall and ends the game. */
  lemma WallCollision()
    ensures var g := Game(32, 16, 5, 500, false, Pixel(1, 8), [Pixel(2, 8)], Pixel(5, 5), Left, 0);
            var r := Update(g, 500, BerryDraw(0, 0));
            r.head == Pixel(0, 8) && r.over && r.score == 5
  {
  }

  /** A snake of score 5 at full length, moving right along row 8. */
  const Straight := Game(32, 16, 5, 500, false, Pixel(21, 8),
                         [Pixel(16, 8), Pixel(17, 8), Pixel(18, 8), Pixel(19, 8), Pixel(20, 8)],
                         Pixel(1, 1), Right, 0)

  /** After turning down. */
  const TurnedDown := Game(32, 16, 5, 500, false, Pixel(21, 9),
                           [Pixel(17, 8), Pixel(18, 8), Pixel(19, 8), Pixel(20, 8), Pixel(21, 8)],
                           Pixel(1, 1), Down, 500)

  /** After turning left. */
  const TurnedLeft := Game(32, 16, 5, 500, false, Pixel(20, 9),
                           [Pixel(18, 8), Pixel(19, 8), Pixel(20, 8), Pixel(21, 8), Pixel(21, 9)],
                           Pixel(1, 1), Left, 1000)

  lemma TurnDown()
    ensures Iterate(Straight, Input(Some(DownArrow), 500, BerryDraw(0, 0))) == TurnedDown
  {
  }

  lemma TurnLeft()
    ensures Iterate(TurnedDown, Input(Some(LeftArrow), 1000, BerryDraw(0, 0))) == TurnedLeft
  {
  }

  lemma TurnUpIntoBody()
    ensures var r := Iterate(TurnedLeft, Input(Some(UpArrow), 1500, BerryDraw(0, 0)));
            r.head == Pixel(20, 8) && r.head == r.body[1] && r.over
  {
  }

  /**
   A snake of score 5 turning down, left and up runs into its own body on
   the third turn.
   */
  lemma SelfCollision()
    ensures var g1 := Iterate(Straight, Input(Some(DownArrow), 500, BerryDraw(0, 0)));
            var g2 := Iterate(g1, Input(Some(LeftArrow), 1000, BerryDraw(0, 0)));
            var g3 := Iterate(g2, Input(Some(UpArrow), 1500, BerryDraw(0, 0)));
            !g1.over && !g2.over && g3.over
  {
    TurnDown();
    TurnLeft();
    TurnUpIntoBody();
  }

  /** A snake of score 1 about to eat the berry in front of it. */
  const BeforeBerry := Game(32, 16, 1, 500, false, Pixel(9, 8), [Pixel(8, 8)], Pixel(10, 8), Right, 0)

  /** Just after eating: the score is 2, the body still has one segment. */
  const AfterBerry := Game(32, 16, 2, 500, false, Pixel(10, 8), [Pixel(9, 8)], Pixel(4, 5), Right, 500)

  lemma EatBerry()
    ensures Update(BeforeBerry, 500, BerryDraw(3, 4)) == AfterBerry
  {
    assert GenerateBerry(32, 16, BerryDraw(3, 4)) == Some(Pixel(4, 5)) by {
      assert SystemRandom.Next(1, 31, 3) == Some(4);
      assert SystemRandom.Next(1, 15, 4) == Some(5);
    }
  }

  lemma GrowAfterBerry()
    ensures var r := Update(AfterBerry, 1000, BerryDraw(3, 4));
            r.body == [Pixel(9, 8), Pixel(10, 8)] && r.score == 2 && !r.over
  {
  }

  /**
   Eating scores at once, but the body only catches up with the new score
   on the next tick, because MoveSnake trims against the score of the tick
   before.
   */
  lemma EatingGrowsLater()
    ensures var g1 := Update(BeforeBerry, 500, BerryDraw(3, 4));
            var g2 := Update(g1, 1000, BerryDraw(3, 4));
            && g1.score == BeforeBerry.score + 1 && |g1.body| == |BeforeBerry.body|
            && |g2.body| == g2.score == 2
  {
    EatBerry();
    GrowAfterBerry();
  }

  /**
   Down then Left between two frames turns a snake moving right straight
   back onto its own neck.
   */
  lemma ReversalBetweenFrames()
    ensures var g := Game(32, 16, 5, 500, false, Pixel(21, 8),
                          [Pixel(19, 8), Pixel(20, 8)], Pixel(1, 1), Right, 0);
            var g1 := Iterate(g, Input(Some(DownArrow), 100, BerryDraw(0, 0)));
            var g2 := Iterate(g1, Input(Some(LeftArrow), 500, BerryDraw(0, 0)));
            && g1.head == g.head && g1.direction == Down
            && g2.direction == Left && g2.head == Pixel(20, 8) && g2.over
  {
  }

  /**
   On a grid 2 cells wide the head starts on the right wall column, yet the
   game is not over: CheckCollision only runs after a move.
   */
  lemma NarrowGridStart()
    ensures NewGame(2, 5, 5, 500, BerryDraw(0, 0))
            == Some(Game(2, 5, 5, 500, false, Pixel(1, 2), [], Pixel(1, 1), Right, 0))
  {
    assert GenerateBerry(2, 5, BerryDraw(0, 0)) == Some(Pixel(1, 1)) by {
      assert SystemRandom.Next(1, 1, 0) == Some(1);
      assert SystemRandom.Next(1, 4, 0) == Some(1);
    }
  }

  /**
   From there the first move takes the head off the grid, where no wall
   test matches, and the game goes on.
   */
  lemma NarrowGridEscapes()
    ensures var g := Game(2, 5, 5, 500, false, Pixel(1, 2), [], Pixel(1, 1), Right, 0);
            var r := Update(g, 500, BerryDraw(0, 0));
            r.head == Pixel(2, 2) && !r.over
  {
    var g := Game(2, 5, 5, 500, false, Pixel(1, 2), [], Pixel(1, 1), Right, 0);
    var m := MoveSnake(g.(lastFrame := 500));
    assert m.head == Pixel(2, 2) && m.body == [Pixel(1, 2)];
    assert !OnBorder(2, 5, m.head);
    assert CheckCollision(m) == m;
  }
}
