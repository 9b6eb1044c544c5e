# Snake game core in Dafny

This project models the game logic of a console Snake game written in C#
(`snake/Program.cs`). The game keeps a grid size, a score, the snake's head,
its body (oldest segment first), a berry, the current heading, a game-over
flag and the time of the last frame. One pass of its host loop handles at
most one key (`HandleInput`) and then runs `Update`. `Update` returns at
once unless `frameRate` milliseconds have passed since the last frame.
Otherwise it records the time and runs, in order, `MoveSnake`,
`CheckCollision` and `CheckBerryCollision`.

The model turns that mutable object into an immutable `Game` value with one
pure function per routine:

- `geometry.dfy` (module `Geometry`): pixels, the four directions, the unit
  move, and the "chain" shape (each cell next to the following one).
- `random.dfy` (module `SystemRandom`): `Random.Next(lo, hi)`. The random
  choice is a caller-supplied sample `u`. Every value the real call can
  return is some `u`, and `hi < lo` gives `None`, which stands for the
  exception the real call throws.
- `game.dfy` (module `Snake`): the state and the operations `NewGame`,
  `HandleInput`, `MoveSnake`, `CheckCollision`, `CheckBerryCollision`,
  `GenerateBerry` and `Update`, plus `Iterate` and `Run` for the host loop.
- `properties.dfy` (module `SnakeProperties`): invariants kept by every
  reachable game, and what one tick does.
- `scenarios.dfy` (module `SnakeScenarios`): concrete plays on the game's own
  configuration (32 by 16 grid, score 5, 500 ms per frame).

Parameters replace the environment:
- a key is `Some(k)` when one was available and `None` otherwise;
- time is an integer count of milliseconds since `DateTime.MinValue`, so a
  fresh game's never-set `lastFrameTime` is 0. With a real clock the first
  update therefore passes the frame gate; the model leaves `now` free and
  proves this for every `now` of at least `frameRate` (`FirstUpdatePasses`);
- a berry comes from two raw samples (`BerryDraw`), one for each call to
  `Random.Next`.

Behaviour of the code that the model keeps as written, and that a reader
might not expect:
- `HandleInput` changes the heading at once. It only refuses the opposite of
  the heading held when the key arrives. Two keys handled between two frames
  can therefore reverse the snake (`TwoKeysReverse`), and a snake with two or
  more body segments then runs into its own neck (`ReversalIsFatal`,
  `ReversalBetweenFrames`).
- `GenerateBerry` may put the berry on the snake: every cell inside the wall
  ring can be drawn (`GenerateBerryCovers`).
- `CheckBerryCollision` runs even in the tick that ended the game.
- Sizes are not validated. With a size below 2 one of the two `Random.Next`
  calls throws, and `NewGame` returns `None`. Sizes of 0 or less already make
  `SetWindowSize` throw, which is not modelled. With a width of exactly 2 the head starts at
  column 2 / 2 = 1, which is the right wall column, and `Next(1, 1)` puts the
  berry on that wall column too. The first move can then take the head off
  the grid without ending the game (`NarrowGridStart`, `NarrowGridEscapes`).
  On grids of at least 3 by 3 the snake never leaves the grid (`Contained`).

## Model

| member | source | states |
|---|---|---|
| Geometry.Step | snake/Program.cs:156-170 | a move lands on a neighbouring cell; RIGHT/LEFT only increase/decrease x, DOWN/UP only increase/decrease y |
| Geometry.AdjacentIsStep | snake/Program.cs:156-170 | conversely, every neighbouring cell is one move away in some direction |
| Geometry.StepThenOpposite | snake/Program.cs:156-170 | a move followed by the move in the opposite direction returns to the starting cell |
| Geometry.Opposite | snake/Program.cs:120-129 | no heading is its own opposite, and the opposite of a horizontal heading is horizontal |
| SystemRandom.Next | snake/Program.cs:208 | `Random.Next(lo, hi)` throws exactly when hi < lo; otherwise the result is in [lo, hi), or lo when lo = hi |
| SystemRandom.NextCoversRange | snake/Program.cs:208 | every value `Random.Next(lo, hi)` may return is produced by some sample |
| Snake.GenerateBerry | snake/Program.cs:206-209 | a berry is produced exactly when both sizes are at least 2, and it lies where the two `Next` calls can put it |
| Snake.NewGame | snake/Program.cs:34-52 | construction succeeds exactly when both sizes are at least 2; the head is at the centre and inside the grid, the body is empty, the heading is RIGHT, the game is running, the score is the initial score and the berry is in range |
| Snake.Turn | snake/Program.cs:118-132 | the new heading is never the opposite of the held one; it is either the held one or the key's own heading; and an arrow key that is not the reverse always takes effect |
| Snake.HandleInput | snake/Program.cs:112-134 | input only changes the heading, never to its reverse; no key or an unknown key changes nothing |
| Snake.MoveSnake | snake/Program.cs:152-176 | the head moves one step; the body is the old body plus the old head, minus its oldest segment when it would exceed the score; so its length grows by one while below the score and otherwise stays, and a body within the score stays within it |
| Snake.BodyHit | snake/Program.cs:187-194 | the scan over the body reports a hit exactly when the head equals some segment |
| Snake.CheckCollision | snake/Program.cs:178-195 | the game is over afterwards exactly when it was already over or the head is on the wall ring or on a body segment; nothing else changes |
| Snake.CheckBerryCollision | snake/Program.cs:197-204 | eating the berry adds exactly one point and replaces the berry by a new draw; otherwise the game is unchanged |
| Snake.Update | snake/Program.cs:136-150 | within the frame interval nothing changes; otherwise the frame time becomes `now`; the score never decreases and a game that is over stays over |
| Snake.Iterate | snake/Program.cs:54-60 | one pass of the host loop leaves an ended game exactly as it is, and never lowers the score |
| Snake.Run | snake/Program.cs:54-60 | any number of loop passes keeps the grid size and frame interval and never lowers the score |
| SnakeProperties.NewGameEstablishesInv | snake/Program.cs:43-52 | a new game satisfies the invariant: body within the score, body and head a connected chain, berry in range |
| SnakeProperties.MoveSnakeKeepsShape | snake/Program.cs:152-176 | moving keeps the body within the score and keeps body plus head a chain of neighbouring cells |
| SnakeProperties.UpdateKeepsInv | snake/Program.cs:136-150 | an update, gated or not, preserves the invariant |
| SnakeProperties.IterateKeepsInv | snake/Program.cs:54-60 | one loop pass preserves the invariant |
| SnakeProperties.RunKeepsInv | snake/Program.cs:54-60 | any sequence of loop passes preserves the invariant |
| SnakeProperties.ReachableInv | snake/Program.cs:34-60 | every game reached from a constructed one has its body within the score (empty if the score is negative), connected to the head, and its berry in range |
| SnakeProperties.NewGameContained | snake/Program.cs:43-52 | on a grid of at least 3 by 3 a new game's head starts strictly inside the wall ring |
| SnakeProperties.MoveSnakeKeepsContained | snake/Program.cs:152-176 | on such a grid, moving a running snake keeps every body segment inside the wall ring and the head on the grid |
| SnakeProperties.IterateKeepsContained | snake/Program.cs:145-195 | on such a grid a loop pass keeps the body inside the wall ring, the head on the grid, and the head inside the ring while the game runs |
| SnakeProperties.RunKeepsContained | snake/Program.cs:54-60 | the same holds after any sequence of loop passes |
| SnakeProperties.NextHeadInGrid | snake/Program.cs:156-170 | a running contained game's next head is on the grid, so the 32-bit coordinate increments cannot overflow |
| SnakeProperties.BerryOffBorder | snake/Program.cs:208 | on a grid of at least 3 by 3 a berry satisfies 1 <= x <= width-2 and 1 <= y <= height-2, so it is never on the wall ring |
| SnakeProperties.GenerateBerryCovers | snake/Program.cs:206-209 | every cell inside the wall ring can be drawn as a berry, cells under the snake included |
| SnakeProperties.FirstUpdatePasses | snake/Program.cs:136-143 | a new game's first update at any time of at least `frameRate` milliseconds passes the gate and stores that time |
| SnakeProperties.TickMovesHead | snake/Program.cs:152-170 | a tick past the gate moves the head exactly one cell in the current heading |
| SnakeProperties.TickGrowsBody | snake/Program.cs:152-176 | a tick makes the old head the newest segment and keeps the older ones in order; the length grows by one until it equals the score, then stays at the score |
| SnakeProperties.TickGameOver | snake/Program.cs:178-195 | a running game ends in a tick exactly when the moved head is on the wall ring or on a segment of the moved body |
| SnakeProperties.TickScore | snake/Program.cs:197-204 | the score rises by one exactly when the moved head is on the berry, which is then redrawn; otherwise score and berry are unchanged |
| SnakeProperties.GatedRunUnchanged | snake/Program.cs:136-141 | any number of keyless loop passes inside the frame interval leave the game identical |
| SnakeProperties.OverIsTerminal | snake/Program.cs:54-60 | no input sequence changes a game that is over |
| SnakeProperties.TwoKeysReverse | snake/Program.cs:112-134 | for every heading, two keys handled one after the other can turn it into its opposite |
| SnakeProperties.ReversalIsFatal | snake/Program.cs:152-195 | moving onto the segment next to the head ends the game once the body has two segments |
| SnakeScenarios.StartingPosition | snake/Program.cs:13-17 | the program's game starts with the head at (16, 8), an empty body and heading RIGHT |
| SnakeScenarios.WallCollision | snake/Program.cs:180-185 | a head moved onto column 0 ends the game |
| SnakeScenarios.SelfCollision | snake/Program.cs:187-194 | a full-length snake of score 5 turning down, left and up hits its own body on the third turn |
| SnakeScenarios.EatBerry | snake/Program.cs:197-204 | a score-1 snake moving onto the berry scores 2 at once, gets a new berry, and keeps a one-segment body |
| SnakeScenarios.EatingGrowsLater | snake/Program.cs:145-147 | eating raises the score at once, but the body reaches the new length only on the following tick |
| SnakeScenarios.ReversalBetweenFrames | snake/Program.cs:112-134 | DOWN then LEFT between two frames reverses a snake moving RIGHT into its neck and ends the game |
| SnakeScenarios.NarrowGridStart | snake/Program.cs:43-52 | on a 2-wide grid the game starts with the head on the right wall column |
| SnakeScenarios.NarrowGridEscapes | snake/Program.cs:178-185 | on that grid the first move takes the head to column 2, off the grid, and the game goes on |

## Left out

- Console output: `PaintScene`, `DrawPixel`, `showGameOverMessage` and `Console.SetWindowSize` only draw. The exceptions `SetWindowSize` can throw depend on the host console and are not modelled. `DrawPixel` also throws once a pixel lies beyond the console buffer. Only a grid narrower or lower than 3 reaches that, when the head escapes the grid; there the model lets the game run on.
- Keyboard polling: `Console.KeyAvailable` and `ReadKey` become the optional key passed to `HandleInput`.
- The random generator itself: only the range of values `Random.Next` can return is modelled, through the supplied samples.
- The clock: `DateTime.Now` becomes an integer millisecond timestamp. The source's fractional `TotalMilliseconds` and its second reading of the clock when it stores the frame time are not modelled; the same `now` is used for both.
- Pixel colours: they only affect drawing.
- `Main` and the `Run` loop as a process: the loop is modelled only as `Iterate` and `Run` over a finite input sequence.
- Score overflow: the score is an unbounded integer. A 32-bit wrap-around would need more than two billion berries.
- Coordinate overflow: coordinates are unbounded integers. `NextHeadInGrid` shows they stay on the grid for grids of at least 3 by 3.
- A win or full-grid condition: the code has none.
