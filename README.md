# 2048 on a canvas: the game core in Dafny

This project models the game logic of `pages/2048.js`, a small 2048 puzzle game.
The module-level state is:

- `grid`, a 4x4 board of cell values, with 0 for an empty cell;
- `animOffset`, the slide animation's pixel offset;
- `score`.

The operations on it are:

- `canMove(x, y)`: can the tile at (x, y) step one cell towards the offset's direction?
- `addTile()`: draw random cells until one is empty, and put a 2 there.
- `handleKeyDown(event)`: the keys W, S, D and A start a slide, but only while the offset is at rest.
- `update()`: one animation frame.
  - It pushes the offset ANIM_SPEED (8) pixels further.
  - Once the offset passes one cell pitch (SQUARE_SIZE + GAP = 90 pixels), the grid makes one step: every tile that can move goes one cell, and equal tiles merge.
  - The merge gain is added to the score.
  - If something moved, the slide continues from a one-pixel offset. Otherwise the offset resets to zero and a tile is added.

Modules:

- `Sums`: finite sums over the cells of a board. They are used for the conservation and score proofs.
- `Board`: the grid as a 4x4 `seq<seq<int>>`, tile values, and `canMove` as `Board.CanMove`. It also has a non-recursive reading of `canMove`: room ahead in the lane.
- `Slide`: one grid step.
  - `Slide.Step` is the board that the scan leaves.
  - `Slide.MoveStep` is the scan itself: the x-then-y double loop of `update()`, with its invariant.
- `Animation`: the offset arithmetic (`Advance`, `Sign`, the threshold test) and the twelve-frame timing of a slide.
- `Game`:
  - the random draws of `addTile`;
  - `State`, the value of the module state;
  - `KeyDown` and `Updated`, the specifications of `handleKeyDown` and `update`;
  - the class `Game.Game`, whose fields are the module state and whose methods change them as the JavaScript does.

Each call of `Math.random()` in `addTile` becomes a real number in [0, 1) that the caller supplies. A `Draw` is the pair consumed by one attempt. The coordinate is `Math.floor(r * 4)`, which is `CellIndex`.

In two places the code does something other than what a reader of the game might expect, and the model follows the code:

- **A key press that moves nothing still adds a tile.** After twelve frames the step finds nothing to move, and `update()` calls `addTile()`. One might expect a key press that moves nothing to change nothing. See `Game.StepOnTwelfthFrame`.
- **Merges chain across the steps of one slide.** The settled-destination check stops a second merge within one step, but the next step starts from the merged board. For example, lane 2, 2, 4 pressed left ends as a single 8, not as 4, 4. See `Slide.ChainedMerges`.

## Model

| member | source | states |
|---|---|---|
| Board.SetCell | pages/2048.js:77 | the written cell holds the new value and every other cell is unchanged |
| Board.EmptyHasOnlyTiles | pages/2048.js:43-48 | the starting board holds only tiles and has an empty cell |
| Board.DoubleTile | pages/2048.js:143-145 | doubling a tile for a merge gives a tile |
| Board.CanMove | pages/2048.js:208-221 | a tile that can move has its destination on the board; with a zero offset canMove is always true |
| Board.Calls | pages/2048.js:208-221 | one canMove call recurses at most once per cell between the tile and the wall, so at most 4 calls in all |
| Board.CanMoveIffRoom | pages/2048.js:208-221 | canMove holds exactly when some cell ahead in the lane is empty or equal to the cell just behind it (both directions) |
| Board.FullWithoutPairsCannotMove | pages/2048.js:208-221 | on a full board with no equal neighbours along the direction, no tile can move |
| Slide.NextCell | pages/2048.js:139-152 | definition: what newGrid[x][y] holds after the scan (the tile moving in from behind, doubled on a merge; else 0 if this tile moved away; else the tile that stayed); its properties are Slide.NextCellOrigin and Slide.ScanComplete |
| Slide.Step | pages/2048.js:130-154 | definition: the board `grid = newGrid` installs, NextCell at every cell; its properties are the Slide lemmas below and Slide.MoveStep |
| Slide.Gain | pages/2048.js:143-145 | definition: the score one step adds, the sum over all merging tiles of the doubled value; its properties are Slide.GainIsNonnegative and Slide.StuckStepIsIdentity |
| Slide.NextCellOrigin | pages/2048.js:139-152 | every value the step writes is 0, the old value of the cell, or the value (or double) of the tile just behind it |
| Slide.StepKeepsTiles | pages/2048.js:139-154 | the board after a step holds only tiles |
| Slide.StepConservesTotal | pages/2048.js:139-154 | a step keeps the sum of all cell values (a merge puts the double in one cell and empties the other) |
| Slide.GainIsNonnegative | pages/2048.js:143-145 | the score added by a step is never negative |
| Slide.StuckStepIsIdentity | pages/2048.js:139-154 | when no occupied cell can move, the step writes back the old board and adds nothing to the score |
| Slide.MovingTileChangesBoard | pages/2048.js:141-147 | if one tile moves, some cell of the board changes |
| Slide.StepFixedIffStuck | pages/2048.js:137-154 | the step leaves the board unchanged exactly when didMove stays false (both directions) |
| Slide.ChainFirstStep | pages/2048.js:139-152 | moving left, lane 2, 2, 4 becomes 4, 4 with a gain of 4 |
| Slide.ChainSecondStep | pages/2048.js:139-152 | moving left, lane 4, 4 becomes 8 with a gain of 8 |
| Slide.ChainedMerges | pages/2048.js:126-160 | two successive steps of one slide turn 2, 2, 4 into a single 8 and score 12 |
| Slide.ScanCell | pages/2048.js:140-151 | one pass of the inner loop body: extends newGrid, the score gain and didMove by exactly the contribution of cell (x, y) |
| Slide.MoveStep | pages/2048.js:130-154 | the double loop builds exactly the stepped board, adds exactly the summed merge gains, and sets didMove exactly when some occupied cell can move |
| Animation.Abs | pages/2048.js:126 | Math.abs: a non-negative value equal to v or to -v |
| Animation.Sign | pages/2048.js:127-128 | moveX/moveY: 1 for a positive offset, -1 for a negative one, 0 for zero |
| Animation.Advance | pages/2048.js:120-124 | a zero component stays zero; a non-zero one keeps its sign and gets ANIM_SPEED pixels longer |
| Animation.GrowUnit | pages/2048.js:120-124 | after k frames a unit component is 1 + 8k pixels long and keeps its sign |
| Animation.GrowZero | pages/2048.js:120-124 | glue: a zero component stays zero whatever the number of frames |
| Animation.TwelveFrames | pages/2048.js:126 | a unit component passes the cell pitch exactly from the twelfth frame on |
| Animation.UnitIsValid | pages/2048.js:157-160 | a unit offset, as set by a key press or by a step that moved something, is a valid offset |
| Animation.AdvanceKeepsValid | pages/2048.js:120-126 | a frame that does not step keeps the offset valid |
| Animation.ExceedingIsUnit | pages/2048.js:126-128 | when a valid offset passes the pitch, (moveX, moveY) is a unit direction |
| Game.CellIndex | pages/2048.js:69-70 | Math.floor(r * 4) for r in [0, 1) is a coordinate on the board and is the floor of r * 4 |
| Game.Lands | pages/2048.js:69-70 | every draw lands on a cell of the board |
| Game.FirstHit | pages/2048.js:72-75 | addTile's loop stops at a draw that lands on an empty cell, and every earlier draw landed on an occupied one |
| Game.Place | pages/2048.js:68-78 | addTile as written ends exactly when some draw hits an empty cell, and then puts a 2 on the first such cell |
| Game.PlaceChangesOneCell | pages/2048.js:68-78 | addTile changes exactly one cell, from 0 to 2 |
| Game.FullBoardNeverPlaces | pages/2048.js:72-75 | on a full board, addTile as written never leaves its loop, whatever the draws |
| Game.Spawn | pages/2048.js:68-78 | corrected addTile: a full board is left as it is |
| Game.PlaceKeepsTiles | pages/2048.js:77 | adding a 2 keeps the board made of tiles |
| Game.SpawnKeepsTiles | pages/2048.js:68-78 | corrected addTile keeps the board made of tiles |
| Game.SpawnAddsTwo | pages/2048.js:77 | corrected addTile raises the sum of cells by 2, or by 0 on a full board |
| Game.KeyDown | pages/2048.js:80-109 | definition: handleKeyDown on the state value; its properties are Game.KeyTable, Game.KeyDownWhileAnimating and Game.KeyDownKeepsValid |
| Game.Updated | pages/2048.js:119-171 | definition: one update() on the state value, with the corrected addTile; its properties are Game.UpdateKeepsValid, Game.UpdateScore, Game.UpdateTotal and the frame lemmas |
| Game.Run | pages/2048.js:111-117 | definition: k successive update() calls, as the frame loop makes them; its properties are Game.SlideFrames and Game.StepOnTwelfthFrame |
| Game.KeyDirection | pages/2048.js:82-108 | every direction a key selects is a unit vector |
| Game.KeyDownWhileAnimating | pages/2048.js:81 | glue: the early-return branch of KeyDown (while the offset is non-zero, a key press changes nothing) |
| Game.KeyTable | pages/2048.js:80-109 | at rest, W, S, D and A set the offset to (0,-1), (0,1), (1,0) and (-1,0); any other key changes nothing; grid and score never change |
| Game.KeyPressed | pages/2048.js:80-109 | glue: unfolds KeyDown for a recognised key at rest (the offset becomes its unit direction) |
| Game.KeyDownKeepsValid | pages/2048.js:80-109 | handleKeyDown keeps the game invariant |
| Game.SlidingFrame | pages/2048.js:119-126 | glue: the non-stepping branch of Updated (a frame below the threshold only advances the offset) |
| Game.MovingFrame | pages/2048.js:126-160 | glue: the moving branch of Updated (the stepped board, the gain added, the offset set to the unit direction) |
| Game.StuckUpdate | pages/2048.js:161-167 | a frame that steps but moves nothing keeps board and score, resets the offset, and adds a tile if there is room |
| Game.SteppingFrame | pages/2048.js:126-167 | the outcome of a stepping frame in terms of the scan's three results (newGrid, gain, didMove) |
| Game.UpdateKeepsValid | pages/2048.js:119-171 | update keeps the invariant: the board holds only tiles, the offset is at rest or one direction of 1 + 8k pixels, and the score is non-negative |
| Game.UpdateScore | pages/2048.js:143-145 | the score never falls, and rises by exactly the step's merge gain, or by 0 on a frame that does not step |
| Game.UpdateTotal | pages/2048.js:119-171 | a frame raises the sum of cells by exactly 2 when it steps, nothing moves and the board is not full (the added tile), and keeps it otherwise |
| Game.SlideOne | pages/2048.js:119-126 | frames 1 to 11 after a key press only slide the offset, by 8 pixels each |
| Game.SlideFrames | pages/2048.js:119-126 | k <= 11 frames after a key press the offset is 1 + 8k pixels along the key's direction, and board and score are unchanged |
| Game.TwelfthFrameSteps | pages/2048.js:120-128 | the twelfth frame after a key press passes the threshold, with (moveX, moveY) equal to the key's direction |
| Game.SteppingFrameOutcome | pages/2048.js:126-167 | the result of a stepping frame in the given direction: continue sliding if something moved, else reset and add a tile |
| Game.StepOnTwelfthFrame | pages/2048.js:80-171 | twelve frames after a key press at rest the board has stepped once in the key's direction; if nothing could move a tile has been added |
| Game.CheckerboardIsStuck | pages/2048.js:208-221 | on the 2/4 checkerboard no tile can move in any direction, and the board is full |
| Game.StuckKeyPress | pages/2048.js:156-167 | for any state at rest (any score) whose full board cannot move in the key's direction, addTile as written never ends; corrected, the press and its twelve frames leave the state as it was |
| Game.FullBoardKeyPress | pages/2048.js:72-75 | pressing D on the full checkerboard, at any score (a game reaching it has at least 32), sends the twelfth frame into addTile with no empty cell (no draw sequence ends its loop); corrected, the game is left as it was |
| Game.Game.Start | pages/2048.js:57-61 | startGame: the empty board with one tile added by addTile, offset at rest, score 0, and the invariant holds |
| Game.Game.AddTile | pages/2048.js:68-78 | the loop draws until a draw hits an empty cell, and the new grid is Place's result; a board of tiles stays one |
| Game.Game.TryAddTile | pages/2048.js:68-78 | the new grid is Spawn's result; it reports a placed tile exactly when the board was not full; a board of tiles stays one |
| Game.Game.HandleKeyDown | pages/2048.js:80-109 | the new state is KeyDown of the old one: only the offset changes; a valid state stays valid |
| Game.Game.Update | pages/2048.js:119-171 | the new state is Updated of the old one, and the invariant is kept |

## Left out

- The React page, the canvas and drawing (`drawBoard`, `drawPieces`, `TILE_COLORS`). They only read the state. `drawPieces`' own call of `canMove` is not part of this model.
- `requestAnimationFrame`, the frame loop and the keydown listener. `Game.Game.Update` is one loop iteration. `Game.Game.HandleKeyDown` takes the key code directly.
- `setScoreCallback(score)` at the end of `update()`. It only reports the score to the page.
- `Math.random()`. It becomes a caller-supplied sequence of reals in [0, 1), with exact real multiplication and floor instead of floating point.
- Game.Game.Update: requires `Covers`, meaning the draws eventually land on every cell. This stands in for a random source that keeps drawing. Under that assumption the corrected addTile always finds an empty cell when one exists.
- Game.Game.Update: requires the game invariant `Valid`. The constructor establishes it; `HandleKeyDown` and `Update` keep it, and `AddTile` and `TryAddTile` keep its tile part. The internal setter `Commit` accepts only states that satisfy it. The source does not check it.
- Game.Game.AddTile: requires that some draw hits an empty cell. As written the loop does not end otherwise, which `Game.Place` and `Game.FullBoardNeverPlaces` model as the result None.
- A slide as a whole, from a key press until the frame that adds the tile, is not proved. `Game.StepOnTwelfthFrame` covers the first step. Later steps follow from `Game.MovingFrame` and `Game.StuckUpdate` one frame at a time.
- JavaScript number limits. Cell values and the score are unbounded integers, which matches the game for all reachable values.

## Findings

| source | as written | input that shows it | evidently intended | confidence | as-written member | corrected member |
|---|---|---|---|---|---|---|
| pages/2048.js:72-75 | `update()` calls `addTile()` whenever a step moves nothing. `addTile` keeps drawing until it lands on an empty cell. | The full board 2,4,2,4 / 4,2,4,2 / 2,4,2,4 / 4,2,4,2, and key D (68): on the twelfth frame nothing moves, addTile is called, every draw lands on an occupied cell, and the page hangs. | On a full board, adding a tile should do nothing, and the frame should end. | not executed | Game.FullBoardKeyPress | Game.Game.TryAddTile |
