/**
 Invariants of the Snake model and what one tick does, stated over all
 games and all inputs.
 */
module SnakeProperties {
  import opened Wrappers
  import opened Geometry
  import opened SystemRandom
  import opened Snake

  /**
   The body is never longer than the score. A game started with a negative
   score keeps an empty body instead.
   */
  predicate LengthBound(g: Game) {
    |g.body| <= g.score || g.body == []
  }

  /** What holds of every game the constructor builds and the loop reaches. */
  predicate Inv(g: Game) {
    && Constructible(g)
    && LengthBound(g)
    && Chain(g.body + [g.head])
    && BerryRange(g.width, g.height, g.berry)
  }

  lemma NewGameEstablishesInv(width: int, height: int, initialScore: int, frameRate: int,
                              draw: BerryDraw)
    requires 2 <= width && 2 <= height
    ensures NewGame(width, height, initialScore, frameRate, draw).Some?
    ensures Inv(NewGame(width, height, initialScore, frameRate, draw).value)
  {
    var g := NewGame(width, height, initialScore, frameRate, draw).value;
    assert g.body + [g.head] == [g.head];
  }

  /** MoveSnake keeps the length bound and the body's connected shape. */
  lemma MoveSnakeKeepsShape(g: Game)
    requires LengthBound(g)
    requires Chain(g.body + [g.head])
    ensures LengthBound(MoveSnake(g))
    ensures Chain(MoveSnake(g).body + [MoveSnake(g).head])
  {
    var r := MoveSnake(g);
    var s := g.body + [g.head];
    ChainExtend(s, r.head);
    var k := |s| - |r.body|;
    ChainSuffix(s + [r.head], k);
    assert (s + [r.head])[k..] == s[k..] + [r.head];
  }

  lemma UpdateKeepsInv(g: Game, now: int, draw: BerryDraw)
    requires Inv(g)
    ensures Inv(Update(g, now, draw))
  {
    if !Gated(g, now) {
      MoveSnakeKeepsShape(g.(lastFrame := now));
    }
  }

  lemma IterateKeepsInv(g: Game, input: Input)
    requires Inv(g)
    ensures Inv(Iterate(g, input))
  {
    if !g.over {
      UpdateKeepsInv(HandleInput(g, input.key), input.now, input.draw);
    }
  }

  lemma {:induction false} RunKeepsInv(g: Game, inputs: seq<Input>)
    requires Inv(g)
    ensures Inv(Run(g, inputs))
    decreases |inputs|
  {
    if |inputs| > 0 {
      IterateKeepsInv(g, inputs[0]);
      RunKeepsInv(Iterate(g, inputs[0]), inputs[1..]);
    }
  }

  /**
   Every game the loop reaches from a freshly built one keeps its body
   within the score, connected to the head, and its berry where
   GenerateBerry can put it.
   */
  lemma ReachableInv(width: int, height: int, initialScore: int, frameRate: int,
                     draw: BerryDraw, inputs: seq<Input>)
    requires 2 <= width && 2 <= height
    ensures NewGame(width, height, initialScore, frameRate, draw).Some?
    ensures Inv(Run(NewGame(width, height, initialScore, frameRate, draw).value, inputs))
  {
    NewGameEstablishesInv(width, height, initialScore, frameRate, draw);
    RunKeepsInv(NewGame(width, height, initialScore, frameRate, draw).value, inputs);
  }

  /** A cell of the grid, wall ring included. */
  predicate InGrid(g: Game, p: Pixel) {
    0 <= p.x < g.width && 0 <= p.y < g.height
  }

  /** A cell of the grid that is not on the wall ring. */
  predicate Inside(g: Game, p: Pixel) {
    InGrid(g, p) && !OnBorder(g.width, g.height, p)
  }

  /**
   On a grid of at least 3 by 3 the snake stays on the grid: the body lies
   inside the wall ring, and so does the head while the game runs.
   */
  predicate Contained(g: Game) {
    && 3 <= g.width && 3 <= g.height
    && (forall i :: 0 <= i < |g.body| ==> Inside(g, g.body[i]))
    && InGrid(g, g.head)
    && (!g.over ==> Inside(g, g.head))
  }

  lemma NewGameContained(width: int, height: int, initialScore: int, frameRate: int,
                         draw: BerryDraw)
    requires 3 <= width && 3 <= height
    ensures NewGame(width, height, initialScore, frameRate, draw).Some?
    ensures Contained(NewGame(width, height, initialScore, frameRate, draw).value)
  {
  }

  /** Moving a running contained snake keeps its body inside the wall ring. */
  lemma MoveSnakeKeepsContained(g: Game)
    requires Contained(g) && !g.over
    ensures var m := MoveSnake(g);
            && (forall i :: 0 <= i < |m.body| ==> Inside(g, m.body[i]))
            && InGrid(g, m.head)
  {
    var m := MoveSnake(g);
    var s := g.body + [g.head];
    var k := |s| - |m.body|;
    forall i | 0 <= i < |m.body|
      ensures Inside(g, m.body[i])
    {
      assert m.body[i] == s[k + i];
    }
  }

  lemma IterateKeepsContained(g: Game, input: Input)
    requires Contained(g)
    ensures Contained(Iterate(g, input))
  {
    if !g.over {
      var h := HandleInput(g, input.key);
      if !Gated(h, input.now) {
        var h' := h.(lastFrame := input.now);
        MoveSnakeKeepsContained(h');
        var c := CheckCollision(MoveSnake(h'));
        var r := CheckBerryCollision(c, input.draw);
        assert r.body == c.body && r.head == c.head && r.over == c.over;
        assert !c.over ==> !OnBorder(c.width, c.height, c.head);
      }
    }
  }

  lemma {:induction false} RunKeepsContained(g: Game, inputs: seq<Input>)
    requires Contained(g)
    ensures Contained(Run(g, inputs))
    decreases |inputs|
  {
    if |inputs| > 0 {
      IterateKeepsContained(g, inputs[0]);
      RunKeepsContained(Iterate(g, inputs[0]), inputs[1..]);
    }
  }

  /**
   The head of a running, contained game never leaves the grid in one
   move, so the source's 32-bit `++` and `--` on its coordinates cannot
   overflow for any grid whose sizes are 32-bit integers.
   */
  lemma NextHeadInGrid(g: Game, d: Direction)
    requires Contained(g) && !g.over
    ensures InGrid(g, Step(g.head, d))
    ensures g.width <= 0x7FFF_FFFF ==> 0 <= Step(g.head, d).x < 0x7FFF_FFFF
    ensures g.height <= 0x7FFF_FFFF ==> 0 <= Step(g.head, d).y < 0x7FFF_FFFF
  {
  }

  /** On a grid of at least 3 by 3 a berry is never placed on the wall ring. */
  lemma BerryOffBorder(width: int, height: int, p: Pixel)
    requires 3 <= width && 3 <= height
    requires BerryRange(width, height, p)
    ensures 1 <= p.x <= width - 2 && 1 <= p.y <= height - 2
    ensures !OnBorder(width, height, p)
  {
  }

  /**
   Conversely every cell inside the wall ring can be drawn, including
   cells the snake occupies: nothing keeps the berry off the snake.
   */
  lemma GenerateBerryCovers(width: int, height: int, p: Pixel)
    requires 3 <= width && 3 <= height
    requires 1 <= p.x <= width - 2 && 1 <= p.y <= height - 2
    ensures exists draw :: GenerateBerry(width, height, draw) == Some(p)
  {
    NextCoversRange(1, width - 1, p.x);
    NextCoversRange(1, height - 1, p.y);
    var u: nat :| Next(1, width - 1, u) == Some(p.x);
    var v: nat :| Next(1, height - 1, v) == Some(p.y);
    assert GenerateBerry(width, height, BerryDraw(u, v)) == Some(p);
  }

  /**
   The never-set frame time of a new game is 0, so its first update at any
   time of at least `frameRate` milliseconds passes the gate.
   */
  lemma FirstUpdatePasses(width: int, height: int, initialScore: int, frameRate: int,
                          draw: BerryDraw, now: int, next: BerryDraw)
    requires 2 <= width && 2 <= height
    requires frameRate <= now
    ensures NewGame(width, height, initialScore, frameRate, draw).Some?
    ensures var g := NewGame(width, height, initialScore, frameRate, draw).value;
            !Gated(g, now) && Update(g, now, next).lastFrame == now
  {
  }

  /** The head of a tick that passes the gate moves exactly one cell. */
  lemma TickMovesHead(g: Game, now: int, draw: BerryDraw)
    requires Constructible(g)
    requires !Gated(g, now)
    ensures Update(g, now, draw).head == Step(g.head, g.direction)
    ensures Adjacent(g.head, Update(g, now, draw).head)
  {
  }

  /**
   The body of a tick: the old head is the newest segment, and the length
   grows by one until it reaches the score, then stays at the score.
   */
  lemma TickGrowsBody(g: Game, now: int, draw: BerryDraw)
    requires Constructible(g) && LengthBound(g) && 0 <= g.score
    requires !Gated(g, now)
    ensures var r := Update(g, now, draw);
            && |r.body| == (if |g.body| < g.score then |g.body| + 1 else g.score)
            && (0 < g.score ==>
                  && r.body[|r.body| - 1] == g.head
                  && r.body[..|r.body| - 1] == g.body[|g.body| + 1 - |r.body|..])
  {
    var m := MoveSnake(g.(lastFrame := now));
    assert Update(g, now, draw).body == m.body;
    if 0 < g.score {
      var s := g.body + [g.head];
      assert m.body == s[|s| - |m.body|..];
      assert m.body[..|m.body| - 1] == s[|s| - |m.body|..|s| - 1];
    }
  }

  /**
   A running game ends in a tick exactly when the moved head is on the wall
   ring or on a segment of the moved body.
   */
  lemma TickGameOver(g: Game, now: int, draw: BerryDraw)
    requires Constructible(g) && !g.over
    requires !Gated(g, now)
    ensures var r := Update(g, now, draw);
            r.over <==> OnBorder(g.width, g.height, r.head) || r.head in r.body
  {
  }

  /**
   The score goes up by one exactly when the moved head lands on the berry,
   which is then replaced; otherwise score and berry stay as they were.
   */
  lemma TickScore(g: Game, now: int, draw: BerryDraw)
    requires Constructible(g)
    requires !Gated(g, now)
    ensures var r := Update(g, now, draw);
            && (r.head == g.berry <==> r.score == g.score + 1)
            && (r.head == g.berry ==> Some(r.berry) == GenerateBerry(g.width, g.height, draw))
            && (r.head != g.berry ==> r.score == g.score && r.berry == g.berry)
  {
  }

  /**
   Updates that all fall within the frame gate, with no key pressed, leave
   the game exactly as it was.
   */
  lemma {:induction false} GatedRunUnchanged(g: Game, inputs: seq<Input>)
    requires Constructible(g)
    requires forall i :: 0 <= i < |inputs| ==> inputs[i].key.None? && Gated(g, inputs[i].now)
    ensures Run(g, inputs) == g
    decreases |inputs|
  {
    if |inputs| > 0 {
      assert Iterate(g, inputs[0]) == g;
      assert forall i :: 0 <= i < |inputs[1..]| ==> inputs[1..][i] == inputs[i + 1];
      GatedRunUnchanged(g, inputs[1..]);
    }
  }

  /** An ended game is terminal: no input changes it any more. */
  lemma {:induction false} OverIsTerminal(g: Game, inputs: seq<Input>)
    requires Constructible(g) && g.over
    ensures Run(g, inputs) == g
    decreases |inputs|
  {
    if |inputs| > 0 {
      OverIsTerminal(Iterate(g, inputs[0]), inputs[1..]);
    }
  }

  /**
   The guard looks only at the heading held when the key arrives, so two
   keys handled before the same tick can reverse any heading.
   */
  lemma TwoKeysReverse(d: Direction)
    ensures exists k1, k2 :: Turn(Turn(d, Some(k1)), Some(k2)) == Opposite(d)
  {
    match d
    case Right => assert Turn(Turn(d, Some(DownArrow)), Some(LeftArrow)) == Left;
    case Down => assert Turn(Turn(d, Some(LeftArrow)), Some(UpArrow)) == Up;
    case Left => assert Turn(Turn(d, Some(UpArrow)), Some(RightArrow)) == Right;
    case Up => assert Turn(Turn(d, Some(RightArrow)), Some(DownArrow)) == Down;
  }

  /**
   Moving onto the segment next to the head ends the game once the body has
   two segments: that segment is still part of the body after trimming.
   */
  lemma ReversalIsFatal(g: Game, now: int, draw: BerryDraw)
    requires Constructible(g) && !g.over
    requires !Gated(g, now)
    requires |g.body| >= 2
    requires Step(g.head, g.direction) == g.body[|g.body| - 1]
    ensures Update(g, now, draw).over
  {
    var r := Update(g, now, draw);
    var s := g.body + [g.head];
    var k := |s| - |r.body|;
    assert r.body[|r.body| - 2] == s[|s| - 2] == g.body[|g.body| - 1];
  }
}
