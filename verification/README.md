# Quadrix engine in Dafny

Quadrix is a falling-block puzzle on a 10 by 10 court, played from four sides
in turn. Every time a piece locks, the player moves a quarter of the way round
the court (south, east, north, west): the picture and the movement keys turn
with them. The court underneath stays the same single grid. Two removed rows
unlock one of three powerups, in turn:

- double scoring;
- half-speed falling;
- a bag of easy O and I pieces.

This project models the game engine of `proper/quadrix.js` as pure functions
over one immutable game record, and proves properties of them. The engine
covers:

- the piece masks and their expansion into cells;
- the collision test;
- moving, rotating and locking pieces;
- line clearing;
- the seven-kind piece bag;
- the powerup round robin and the powerups' effects;
- the per-side key table;
- the frame update and new games.

Modules, one per part of the engine:

- `Pieces` (pieces.dfy): the seven kinds and their 16-bit rotation masks. The
  `eachblock` bit scan is a method proved to list one cell per set bit, most
  significant bit first. Every mask is checked to cover four distinct cells
  inside the piece's box.
- `Court` (court.dfy): the grid and its accessors, stamping a piece, and
  `removeLine`. Also the `removeLines` scan, a method proved equal to a
  reference definition of line clearing.
- `Collision` (collision.dfy): `occupied`, stated over cells and over mask
  bits, and the source's loop proved equal to it.
- `Moves` (moves.dfy): `move` and `rotate`.
- `Bag` (bag.dfy): `randomPiece`. The two `Math.random()` values it uses are
  parameters.
- `Powerups` (powerups.dfy): `addPRow` and `checkPowerup`.
- `Controls` (controls.dfy): the side (`currentDirection`) and the key table of
  `keydown`.
- `Engine` (engine.dfy): the game record and its transitions:
  - `drop` and its locking branch;
  - `handle` and `update`;
  - `reset`, `play` and `lose`;
  - `keydown`;
  - the powerups' activation and expiry;
  - page start.
- `Invariants` (invariants.dfy): a state invariant kept by every event, and
  how the score changes.

Behaviour of the code that a reader might not expect, modelled as written:

- **Row 0 is never examined directly.** `removeLines` starts at row `ny`, which
  lies outside the court and is never complete, and stops before row 0. So a
  full top row stays until a row below it is removed. Then it shifts into the
  scanned range and goes too. `Court.ClearLines` states this.
- **The last bag entry is drawn only when it is alone.** The bag index is
  `random(0, len - 1)`, which `splice` truncates. So the last entry of the bag
  is only drawn when it is the only one left.
- **Some globals survive a new game.** `reset` leaves `multiplier` and `slow`
  as they are, because lines 292 and 294 name `resetMultiplier` and
  `resetSlow` without calling them. It also never resets the side being faced,
  the bag, or `playing`.
- **A frame can drop twice, even after a loss.** In one frame, a queued DOWN
  that locks and loses the game does not stop the gravity drop that follows.
  `Engine.GravityAfterDrop` states this.
- **There is only one court.** The game draws on four canvases but keeps one
  grid; only the canvas and the key scheme change with the side.
- **The mercy bag's expiry leaves four O pieces.** It does not restore the
  full bag.

## Model

| member | source | states |
|---|---|---|
| `Pieces.ShapesWellFormed` | proper/quadrix.js:88-94 | every piece constant, in each of its four rotations, has exactly four set bits, standing for four distinct cells inside the piece's size-by-size box |
| `Pieces.EachBlock` | proper/quadrix.js:100-111 | the bit loop of `eachblock` yields exactly one cell per set bit, most significant bit first, bit k at (x + k mod 4, y + k div 4) |
| `Pieces.CellsMembership` | proper/quadrix.js:100-111 | a cell belongs to a piece exactly when some set bit of its mask stands for it |
| `Pieces.SetBitsCount` | proper/quadrix.js:102-105 | the scan calls back once per set bit |
| `Pieces.SetBitsIncreasing` | proper/quadrix.js:102 | the cells come out in bit order, 0x8000 first |
| `Pieces.NextRotation` | proper/quadrix.js:345 | the rotation after `dir` is never `dir` itself and is `dir + 1` modulo 4 |
| `Court.EmptyBoard` | proper/quadrix.js:274 | after `clearBlocks` every square reads empty |
| `Court.Get` | proper/quadrix.js:272 | `getBlock` reads empty outside the court. `Court.Set` states how reads see writes |
| `Court.Set` | proper/quadrix.js:273 | `setBlock` changes the one square it names and no other |
| `Court.RowCompleteIsFull` | proper/quadrix.js:405-409 | the `complete` test holds exactly for a row inside the court with every column filled |
| `Court.ShiftDown` | proper/quadrix.js:422-427 | after removing row n, row 0 is empty, each row 1..n holds the old row above it, and rows below n are unchanged |
| `Court.RemoveLine` | proper/quadrix.js:422-427 | the two loops of `removeLine` compute that shift |
| `Court.Stamp` | proper/quadrix.js:367-370 | stamping writes the piece's kind on each of its cells inside the court and leaves every other square alone |
| `Court.ClearLines` | proper/quadrix.js:402-420 | nothing is removed, and the court is unchanged, exactly when no row below the top is full. Otherwise no full row remains, the other rows keep their order, and the removed count of empty rows fills the top |
| `Court.RemoveLines` | proper/quadrix.js:402-415 | the scan from `ny` down to 1, which re-tests an index after a removal, computes that result and the number of rows removed |
| `Collision.OccupiedScan` | proper/quadrix.js:116-123 | the flag `occupied` raises over the `eachblock` callbacks is true exactly when some cell is outside the court or on a block |
| `Collision.OccupiedBits` | proper/quadrix.js:116-123 | the same test stated on the mask: some set bit k stands for a blocked cell (x + k mod 4, y + k div 4) |
| `Collision.FreeCells` | proper/quadrix.js:116-127 | an unoccupied position has every cell inside the court on an empty square |
| `Collision.PieceBox` | proper/quadrix.js:88-111 | a piece covers four distinct cells inside the size-by-size box at its position |
| `Collision.BoxedFitsEmpty` | proper/quadrix.js:140 | a piece whose box lies in the court, as every spawned piece's does, fits the empty court |
| `Moves.Target` | proper/quadrix.js:324-330 | LEFT and RIGHT try one column over, DOWN one row down, keeping kind and rotation |
| `Moves.Move` | proper/quadrix.js:324-342 | the piece takes the target position exactly when that is unoccupied, and the result flag says so. Otherwise it stays. A fitting piece still fits afterwards |
| `Moves.MoveBack` | proper/quadrix.js:324-342 | from a free position, a step left followed by a step right (or the reverse) always succeeds and returns to the start |
| `Moves.Rotate` | proper/quadrix.js:344-350 | `rotate` changes the rotation, to the next one, exactly when that is unoccupied. It never changes the kind or the position, and a fitting piece still fits |
| `Moves.FullTurn` | proper/quadrix.js:344-350 | four successful rotations bring the piece back to where it started |
| `Bag.PickIndex` | proper/quadrix.js:139 | the truncated index is in range, and below the last entry unless the bag holds one entry |
| `Bag.Splice` | proper/quadrix.js:139 | taking one entry out of the bag removes exactly that entry, one fewer in all, and leaves the last entry last unless it was the one taken |
| `Bag.RoundBound` | proper/quadrix.js:140 | rounding half up a fraction in [0, 1) of n lands in 0 .. n |
| `Bag.SpawnColumn` | proper/quadrix.js:140 | the rounded spawn column lies in 0 .. nx - size |
| `Bag.RandomPiece` | proper/quadrix.js:134-141 | an empty bag is refilled with the 28-piece bag. Exactly one entry leaves the bag, and it is the piece's kind. The piece has rotation 0, row 0 and a column in range, and the last entry stays behind while others remain |
| `Bag.TwoDraws` | proper/quadrix.js:134-141 | two draws in a row from a bag of two or more hand out two kinds that, with the bag left behind, make up the bag drawn from |
| `Bag.DealEmpties` | proper/quadrix.js:134-141 | as many draws as a bag holds hand out exactly its contents and leave it empty |
| `Bag.FairBag` | proper/quadrix.js:133-139 | 28 draws that start from an empty bag, with nothing replacing the bag in between, hand out the refill exactly, four of each kind, and leave the bag empty |
| `Powerups.CheckPowerup` | proper/quadrix.js:513-538 | at two rows of progress the tracker steps 1, 2, 3 and back to 0, and the slot it reaches is made available (an available one stays so). Progress returns to 0, and nothing happens below two rows |
| `Powerups.AddPRow` | proper/quadrix.js:396-400 | one removed row keeps progress below two and the tracker below three |
| `Powerups.AddPRowsProgress` | proper/quadrix.js:513-538 | n removed rows move the round robin n rows further round its six-row lap |
| `Powerups.AddPRowsKeeps` | proper/quadrix.js:513-538 | an available powerup stays available whatever rows are removed |
| `Powerups.RoundRobin` | proper/quadrix.js:513-538 | from a new game, rows 2, 4 and 6 unlock powerups one, two and three, and the tracker returns to the start |
| `Controls.NextFacing` | proper/quadrix.js:375-392 | each lock moves the player a quarter turn on, south to east to north to west and back to south: one more quarter turn from south, modulo 4, and never the same side |
| `Controls.TableTurns` | proper/quadrix.js:194-243 | the key table of each side is that of the previous side with the movement keys turned A to S to D to W to A |
| `Controls.KeyForMove` | proper/quadrix.js:194-243 | on every side, each of LEFT, RIGHT and DOWN has exactly one key, the south key turned once per side passed. UP is SPACE everywhere |
| `Controls.OtherKeysIgnored` | proper/quadrix.js:194-243 | keys other than the movement keys, SPACE, P, ESC, 1, 2 and 3 do nothing in a game |
| `Engine.StepBounds` | proper/quadrix.js:270 | the drop interval lies between 0.1 and 0.6 seconds times `slow`, and is 0.1 times `slow` from row 100 on |
| `Engine.StepShrinks` | proper/quadrix.js:270 | more rows never lengthen the drop interval |
| `Engine.LineScoreTable` | proper/quadrix.js:418 | one to four rows score 100, 200, 400 and 800, and each further row doubles the bonus |
| `Engine.Lose` | proper/quadrix.js:263 | losing ends the game and shows the full score, and changes nothing else |
| `Engine.Lock` | proper/quadrix.js:352-394 | a lock scores 10 plus the line bonus, both times the multiplier. It stamps the piece and clears rows, adding the count to the rows and to powerup progress, and recomputes the drop interval when rows went. The side turns. `next` becomes the current piece and a freshly spawned piece from the bag is the new `next`. The queue empties. The game ends, with the shown score caught up, exactly when the new piece does not fit |
| `Engine.Drop` | proper/quadrix.js:352-363 | the piece falls one row when it fits there and locks otherwise |
| `Engine.Handle` | proper/quadrix.js:315-322 | LEFT and RIGHT try to move the piece that way, UP tries to rotate it, and DOWN drops. The first three change nothing but the current piece, keep its kind, and keep it fitting |
| `Engine.CatchUp` | proper/quadrix.js:303-304 | a shown score below the score goes up by exactly one point; otherwise nothing changes. It never passes the score, and no other field changes |
| `Engine.HandleNext` | proper/quadrix.js:305 | an empty queue handles nothing. Otherwise the oldest action leaves the queue, the rest stay in order, and that action is handled: DOWN drops, the others act as `Handle` says |
| `Engine.Update` | proper/quadrix.js:300-313 | nothing happens while paused or between games. In a game, the shown score catches up by one and the oldest queued action is handled, then a gravity tick drops the piece. With no action and no tick, only the shown score moves |
| `Engine.GravityAfterDrop` | proper/quadrix.js:302-311 | when the queued action is DOWN and a gravity tick comes in the same frame, the gravity drop follows the handled drop even if that one locked the piece and lost the game |
| `Engine.Reset` | proper/quadrix.js:279-298 | a new game has an empty court, queue, score, row count and powerup state. The old `next` is the current piece, a new `next` is drawn from the bag, and `multiplier`, `slow`, the side faced and `playing` are kept |
| `Engine.Play` | proper/quadrix.js:262 | a new game in progress, unpaused: an empty court and queue, no score, rows or powerups, the starting interval for the current `slow`. The old `next` is the current piece, and a spawned `next` fits the empty court. A new `next` comes from the bag, and multiplier, `slow` and the side faced are kept |
| `Engine.Boot` | proper/quadrix.js:276-286 | after the page loads, no game is in progress and the court, queue, score, shown score and rows are empty. Both pieces are spawned from a fresh bag, and the 26 entries left plus the two pieces make up the full bag. The globals hold their initial values, and the interval is the starting one |
| `Engine.UsePowerup` | proper/quadrix.js:544-578 | each powerup key has an effect only while its powerup is available. It then sets the multiplier to 2, or `slow` to 2 (with the interval recomputed), or the bag to four O and four I pieces, and uses the powerup up |
| `Engine.KeyDown` | proper/quadrix.js:190-256 | while paused only ESC acts, and it resumes. Between games only ENTER acts, and it starts a game. In a game, a movement key or SPACE queues its direction, P loses, ESC pauses, 1 to 3 use that powerup, and any other key does nothing |
| `Engine.Apply` | proper/quadrix.js:540-570 | a key press is `keydown` and a frame is `update`. When double scoring expires the multiplier is 1 again. When the slow-down expires `slow` is 1 and the interval is recomputed for it. When the mercy bag expires the bag holds four O pieces. Each expiry changes nothing else |
| `Invariants.BootInv` | proper/quadrix.js:279-298 | the loaded page satisfies the state invariant |
| `Invariants.LockInv` | proper/quadrix.js:357-362 | locking keeps the invariant: the game goes on only with a fitting piece |
| `Invariants.DropInv` | proper/quadrix.js:352-363 | dropping keeps the invariant |
| `Invariants.HandleInv` | proper/quadrix.js:315-350 | handling a queued action keeps the invariant |
| `Invariants.UpdateInv` | proper/quadrix.js:300-313 | a frame keeps the invariant |
| `Invariants.PlayInv` | proper/quadrix.js:262 | a new game keeps the invariant: the old `next` fits the empty court |
| `Invariants.KeyDownInv` | proper/quadrix.js:190-256 | every key keeps the invariant |
| `Invariants.ApplyInv` | proper/quadrix.js:540-578 | every event, the powerup expiries included, keeps the invariant |
| `Invariants.RunInv` | proper/quadrix.js:360-362 | in every state reachable from the loaded page, a game in progress has a current piece that fits the court |
| `Invariants.ScoreKept` | proper/quadrix.js:265-268 | the score only goes down when ENTER starts a new game |
| `Invariants.LockStamps` | proper/quadrix.js:367-370 | a lock that removes no row leaves each cell of the piece holding its kind, every other square as it was, and adds 10 times the multiplier to the score |

## Left out

- Drawing is left out: canvases, colours, the preview and the dirty flags (`invalidate*`, `draw*`). So are the DOM helpers and the powerup labels (`powerupOffline`, `togglePowerupAvailable`). Also `preventDefault` on handled keys. All of these are output only.
- The sounds played by `move`, `dropPiece` and `removeLine` are left out. They are side effects only.
- `requestAnimationFrame`, `run`, `timestamp`, `resize` and the `dt` accumulation with its one-second clamp are left out. Instead, a frame carries a `gravity` flag that says whether `dt` passed `step` in that frame.
- `Math.random()` is left out. Each draw is a pair of reals in [0, 1), passed in with the event that needs it.
- The 15-second `setTimeout` expiries are events (`MultiplierExpires`, `SlowExpires`, `MercyExpires`). They may arrive at any time, which covers every timer order.
- Engine.StepFor: computes the drop interval with exact reals. The source uses IEEE doubles, whose rounding is not modelled.
- Court.Set: drops a write outside the court. The source would create a sparse cell, but this is never reached: the invariant keeps the current piece inside the court.
- Scores and counts are unbounded integers. JavaScript numbers are exact up to 2^53, far beyond any reachable score.
- `addPRow` is called once per removed row during the scan. The model applies the same calls after the scan, through `Powerups.AddPRows`. `checkPowerup` reads nothing the scan changes, so the result is the same.
- `console.log` calls are left out.
- quadrix/src/components/InfoPanel.jsx is left out. It is a static panel with no logic.
