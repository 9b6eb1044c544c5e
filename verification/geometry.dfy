/**
 Grid cells and directions of the Snake game.

 A `Pixel` of the game is a pair of integer console coordinates: x grows to
 the right, y grows downwards. The colour the game stores on a pixel only
 matters for drawing and is not part of the model.
 */
module Geometry {

  datatype Pixel = Pixel(x: int, y: int)

  /** The four headings of the snake, in the order the game declares them. */
  datatype Direction = Right | Down | Left | Up

  function Abs(n: int): nat {
    if n < 0 then -n else n
  }

  /** Two cells are neighbours when they are one unit apart in Manhattan distance. */
  predicate Adjacent(p: Pixel, q: Pixel) {
    Abs(p.x - q.x) + Abs(p.y - q.y) == 1
  }

  /** The heading that undoes `d`. */
  function Opposite(d: Direction): (r: Direction)
    ensures r != d
    ensures (d == Right || d == Left) <==> (r == Right || r == Left)
  {
    match d
    case Right => Left
    case Down => Up
    case Left => Right
    case Up => Down
  }

  /** The cell one unit away from `p` in direction `d`. */
  function Step(p: Pixel, d: Direction): (q: Pixel)
    ensures Adjacent(p, q)
    ensures d == Right ==> q.x > p.x
    ensures d == Left ==> q.x < p.x
    ensures d == Down ==> q.y > p.y
    ensures d == Up ==> q.y < p.y
    ensures (d == Right || d == Left) ==> q.y == p.y
    ensures (d == Down || d == Up) ==> q.x == p.x
  {
    match d
    case Right => Pixel(p.x + 1, p.y)
    case Down => Pixel(p.x, p.y + 1)
    case Left => Pixel(p.x - 1, p.y)
    case Up => Pixel(p.x, p.y - 1)
  }

  /** Moving back in the opposite direction returns to the starting cell. */
  lemma StepThenOpposite(p: Pixel, d: Direction)
    ensures Step(Step(p, d), Opposite(d)) == p
  {
  }

  /** Every neighbour of a cell is one step away in some direction. */
  lemma AdjacentIsStep(p: Pixel, q: Pixel)
    requires Adjacent(p, q)
    ensures exists d :: Step(p, d) == q
  {
    if q.x == p.x + 1 {
      assert Step(p, Right) == q;
    } else if q.x == p.x - 1 {
      assert Step(p, Left) == q;
    } else if q.y == p.y + 1 {
      assert Step(p, Down) == q;
    } else {
      assert Step(p, Up) == q;
    }
  }

  /**
   A sequence of cells in which each cell is a neighbour of the next:
   the shape the body followed by the head always has.
   */
  predicate Chain(s: seq<Pixel>) {
    forall i :: 0 < i < |s| ==> Adjacent(s[i - 1], s[i])
  }

  lemma ChainExtend(s: seq<Pixel>, p: Pixel)
    requires Chain(s)
    requires |s| > 0 ==> Adjacent(s[|s| - 1], p)
    ensures Chain(s + [p])
  {
    var t := s + [p];
    forall i | 0 < i < |t|
      ensures Adjacent(t[i - 1], t[i])
    {
      if i < |s| {
        assert t[i - 1] == s[i - 1] && t[i] == s[i];
      } else {
        assert t[i - 1] == s[|s| - 1] && t[i] == p;
      }
    }
  }

  lemma ChainSuffix(s: seq<Pixel>, k: nat)
    requires Chain(s)
    requires k <= |s|
    ensures Chain(s[k..])
  {
    var t := s[k..];
    forall i | 0 < i < |t|
      ensures Adjacent(t[i - 1], t[i])
    {
      assert t[i - 1] == s[k + i - 1] && t[i] == s[k + i];
    }
  }
}
