/**
 The Snake game's state and its per-tick update, as pure functions.

 The game object of the source holds its state in mutable fields changed in
 place by several private routines; here the state is an immutable `Game`
 value and each routine is a function from the old state to the new one.
 The keyboard, the clock and the random generator are parameters:
 - a key is `Some(k)` when one was available, `None` otherwise;
 - a time is an integer number of milliseconds since DateTime.MinValue,
   so the never-set `lastFrame` of a fresh game is 0;
 - a berry is produced from two raw samples, one per call to Random.Next.
 */
module Snake {
  import opened Wrappers
  import opened Geometry
  import opened SystemRandom

  /** The keys HandleInput tells apart; every other console key is `OtherKey`. */
  datatype Key = RightArrow | DownArrow | LeftArrow | UpArrow | OtherKey

  /** The two samples consumed by one call to GenerateBerry (x first, then y). */
  datatype BerryDraw = BerryDraw(u: nat, v: nat)

  /**
   The game's fields. `body` holds the segments oldest first, so the segment
   next to the head is the last one; `frameRate` is the minimum number of
   milliseconds between two ticks.
   */
  datatype Game = Game(
    width: int,
    height: int,
    score: int,
    frameRate: int,
    over: bool,
    head: Pixel,
    body: seq<Pixel>,
    berry: Pixel,
    direction: Direction,
    lastFrame: int)

  /** The grid sizes for which GenerateBerry does not throw. */
  predicate Constructible(g: Game) {
    2 <= g.width && 2 <= g.height
  }

  /** The wall ring: the outermost rows and columns of the grid. */
  predicate OnBorder(width: int, height: int, p: Pixel) {
    p.x == 0 || p.x == width - 1 || p.y == 0 || p.y == height - 1
  }

  /** The cells GenerateBerry can produce on a grid of the given size. */
  predicate BerryRange(width: int, height: int, p: Pixel) {
    CanReturn(1, width - 1, p.x) && CanReturn(1, height - 1, p.y)
  }

  /**
   A new berry at (Next(1, width - 1), Next(1, height - 1)); `None` when
   one of the two calls throws. Nothing keeps the berry off the snake.
   */
  function GenerateBerry(width: int, height: int, draw: BerryDraw): (r: Option<Pixel>)
    ensures r.Some? <==> 2 <= width && 2 <= height
    ensures r.Some? ==> BerryRange(width, height, r.value)
  {
    var x := Next(1, width - 1, draw.u);
    var y := Next(1, height - 1, draw.v);
    if x.Some? && y.Some? then Some(Pixel(x.value, y.value)) else None
  }

  /**
   The constructor followed by InitializeGame. `None` when the first berry
   cannot be generated. Both sizes are positive whenever a game is built,
   so `/` here agrees with the source's truncating division.
   */
  function NewGame(width: int, height: int, initialScore: int, frameRate: int, draw: BerryDraw)
    : (r: Option<Game>)
    ensures r.Some? <==> 2 <= width && 2 <= height
    ensures r.Some? ==> Constructible(r.value)
    ensures r.Some? ==> r.value.head == Pixel(width / 2, height / 2)
    ensures r.Some? ==> 0 < r.value.head.x < width && 0 < r.value.head.y < height
    ensures r.Some? ==> r.value.body == [] && r.value.direction == Right && !r.value.over
    ensures r.Some? ==> r.value.score == initialScore && r.value.lastFrame == 0
    ensures r.Some? ==> BerryRange(width, height, r.value.berry)
  {
    match GenerateBerry(width, height, draw)
    case None => None
    case Some(berry) =>
      Some(Game(width, height, initialScore, frameRate, false,
                Pixel(width / 2, height / 2), [], berry, Right, 0))
  }

  /** The heading an arrow key asks for. */
  function KeyDirection(k: Key): Option<Direction> {
    match k
    case RightArrow => Some(Right)
    case DownArrow => Some(Down)
    case LeftArrow => Some(Left)
    case UpArrow => Some(Up)
    case OtherKey => None
  }

  /**
   The guarded switch of HandleInput: an arrow key sets its heading unless
   that heading is the opposite of the current one.
   */
  function Turn(current: Direction, key: Option<Key>): (r: Direction)
    ensures r != Opposite(current)
    ensures r == current || (key.Some? && KeyDirection(key.value) == Some(r))
    ensures key.Some? && KeyDirection(key.value).Some?
            && KeyDirection(key.value).value != Opposite(current)
            ==> r == KeyDirection(key.value).value
  {
    match key
    case None => current
    case Some(k) =>
      match k
      case RightArrow => if current != Left then Right else current
      case DownArrow => if current != Up then Down else current
      case LeftArrow => if current != Right then Left else current
      case UpArrow => if current != Down then Up else current
      case OtherKey => current
  }

  /** HandleInput: only the heading can change, and never to its reverse. */
  function HandleInput(g: Game, key: Option<Key>): (r: Game)
    ensures r == g.(direction := r.direction)
    ensures r.direction != Opposite(g.direction)
    ensures (key.None? || key.value == OtherKey) ==> r == g
  {
    g.(direction := Turn(g.direction, key))
  }

  /**
   MoveSnake: the old head becomes the newest body segment, the head moves
   one cell, and the oldest segment is dropped if the body is longer than
   the score.
   */
  function MoveSnake(g: Game): (r: Game)
    ensures r == g.(head := r.head, body := r.body)
    ensures r.head == Step(g.head, g.direction)
    ensures |r.body| == if |g.body| < g.score then |g.body| + 1 else |g.body|
    ensures |g.body| <= g.score ==> |r.body| <= g.score
    ensures r.body == (g.body + [g.head])[|g.body| + 1 - |r.body|..]
    ensures |r.body| > 0 ==> r.body[|r.body| - 1] == g.head
  {
    var grown := g.body + [g.head];
    var trimmed := if |grown| > g.score then grown[1..] else grown;
    g.(head := Step(g.head, g.direction), body := trimmed)
  }

  /** The foreach over the body in CheckCollision, stopping at the first hit. */
  function BodyHit(body: seq<Pixel>, head: Pixel): (hit: bool)
    ensures hit <==> head in body
  {
    if |body| == 0 then false
    else if body[0] == head then true
    else
      var rest := BodyHit(body[1..], head);
      assert body == [body[0]] + body[1..];
      rest
  }

  /**
   CheckCollision: the game ends when the head is on the wall ring or on a
   body segment. An ended game is never resumed.
   */
  function CheckCollision(g: Game): (r: Game)
    ensures r == g.(over := r.over)
    ensures r.over <==> g.over || OnBorder(g.width, g.height, g.head) || g.head in g.body
  {
    if OnBorder(g.width, g.height, g.head) then g.(over := true)
    else if BodyHit(g.body, g.head) then g.(over := true)
    else g
  }

  /**
   CheckBerryCollision: eating the berry scores one point and replaces the
   berry; otherwise nothing changes. It runs whether or not the game has
   just ended.
   */
  function CheckBerryCollision(g: Game, draw: BerryDraw): (r: Game)
    requires Constructible(g)
    ensures r == g.(score := r.score, berry := r.berry)
    ensures g.head == g.berry ==> r.score == g.score + 1
    ensures g.head == g.berry ==> Some(r.berry) == GenerateBerry(g.width, g.height, draw)
    ensures g.head != g.berry ==> r == g
  {
    if g.head == g.berry then
      g.(score := g.score + 1, berry := GenerateBerry(g.width, g.height, draw).value)
    else g
  }

  /** Too little time has passed since the last frame for a new one. */
  predicate Gated(g: Game, now: int) {
    now - g.lastFrame < g.frameRate
  }

  /**
   Update: the frame gate, then MoveSnake, CheckCollision and
   CheckBerryCollision, in that order.
   */
  function Update(g: Game, now: int, draw: BerryDraw): (r: Game)
    requires Constructible(g)
    ensures Gated(g, now) ==> r == g
    ensures !Gated(g, now) ==> r.lastFrame == now
    ensures r.width == g.width && r.height == g.height && r.frameRate == g.frameRate
    ensures r.direction == g.direction
    ensures g.over ==> r.over
    ensures g.score <= r.score
  {
    if Gated(g, now) then g
    else CheckBerryCollision(CheckCollision(MoveSnake(g.(lastFrame := now))), draw)
  }

  /** What the host loop supplies to one iteration. */
  datatype Input = Input(key: Option<Key>, now: int, draw: BerryDraw)

  /**
   One iteration of the game loop: input then update, while the game is
   not over. An ended game stays exactly as it is.
   */
  function Iterate(g: Game, input: Input): (r: Game)
    requires Constructible(g)
    ensures g.over ==> r == g
    ensures r.width == g.width && r.height == g.height && r.frameRate == g.frameRate
    ensures g.score <= r.score
  {
    if g.over then g else Update(HandleInput(g, input.key), input.now, input.draw)
  }

  /** The game loop driven by a finite sequence of inputs. */
  function Run(g: Game, inputs: seq<Input>): (r: Game)
    requires Constructible(g)
    ensures r.width == g.width && r.height == g.height && r.frameRate == g.frameRate
    ensures g.score <= r.score
    decreases |inputs|
  {
    if |inputs| == 0 then g else Run(Iterate(g, inputs[0]), inputs[1..])
  }
}
