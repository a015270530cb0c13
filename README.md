# Corgi Stacker: a verified model of the stacking engine

Corgi Stacker is a small browser game. A tower of rows of 40-unit blocks
stands on a 400-unit board, and a new row slides left and right above the
top of the tower. When the player clicks, the sliding row is cut down to
the whole blocks that overlap the top row and becomes the new top. A click
with less than one block of overlap ends the game. The score counts the
rows placed on the base row.

This project models the game engine of the `App` component in Dafny:

- `stack_engine.dfy` (module `StackEngine`) has the constants, the row and
  state values, and the step functions. These are `SpawnNext`, `TickNext`
  with its edge handling `Clamp`, `DropNext` with its overlap computation
  `OverlapOf`, and the initial state `Initial`.
- `stack_invariants.dfy` (module `StackInvariants`) has the invariant that
  every reachable state satisfies. It proves that each step keeps it. It
  then proves the same for any sequence of spawn, tick, click and restart
  events. The game produces only some of these sequences: the spawn effect
  runs as soon as its guard holds, and the restart button appears only once
  the game is over. Every sequence the game does produce is among them, so
  the invariant holds of every state the game can reach.
- `corgi_game.dfy` (module `CorgiGame`) has the class `Game`. Its fields are
  the component's five state variables: `stack`, `movingRow`, `direction`,
  `gameOver` and `score`. Its methods `Spawn`, `Tick`, `Drop` and `Reset`
  update those fields in place. Each method ends in exactly the state that
  the matching step function gives, and each keeps the invariant.

Horizontal positions and the speed are exact `real` numbers. `Math.floor`
is `.Floor`. Vertical positions and block counts are integers.

## Model

| member | source | states |
|---|---|---|
| `StackEngine.BaseRow` | corgi-stack-jump/src/App.jsx:4-13 | The base row has 7 blocks at x = 60 and y = 380: it is centred on the 400-wide board and rests on its floor. |
| `StackEngine.Initial` | corgi-stack-jump/src/App.jsx:11-17 | The initial state, which reset restores, holds just the base row {x = 60, y = 380, 7 blocks}. It has no moving row, its direction is +1, the game is not over, and the score is 0. |
| `CorgiGame.Game.constructor` | corgi-stack-jump/src/App.jsx:11-17 | A new game holds only the base row, has no moving row, moves right, is not over, has score 0, and satisfies the invariant. |
| `CorgiGame.Game.Reset` | corgi-stack-jump/src/App.jsx:87-95 | The reset handler rewrites all five fields to exactly the state a new game starts in, whatever the state was, and that state satisfies the invariant. The game shows its button only once the game is over (App.jsx:127-131). |
| `StackEngine.SpawnNext` | corgi-stack-jump/src/App.jsx:25-32 | With no moving row and the game not over, a row with the top row's block count appears at x = 0, one row height (20) above the top row, moving right. Otherwise nothing changes. The stack, score and game-over flag never change. |
| `CorgiGame.Game.Spawn` | corgi-stack-jump/src/App.jsx:25-32 | Updates the fields in place to the state `SpawnNext` gives, and keeps the invariant. |
| `StackEngine.Speed` | corgi-stack-jump/src/App.jsx:40 | The distance per tick is at least the base speed of 2. |
| `StackEngine.SpeedGrowsWithTower` | corgi-stack-jump/src/App.jsx:40 | A taller tower gives a strictly higher speed. |
| `StackEngine.Clamp` | corgi-stack-jump/src/App.jsx:41-50 | When the row fits on the board, the new x is the intended x clamped to [0, 400 − width]. A row touching or past the right edge turns left. A row that was at or past the left edge but is clear of the right edge turns right. A position strictly inside the board is kept, and so is the direction. |
| `StackEngine.TickNext` | corgi-stack-jump/src/App.jsx:36-53 | With no moving row, or when the game is over, nothing changes. Otherwise only the moving row's x and the direction change. When the row fits on the board, the new x is x + direction × speed clamped to [0, 400 − width]: 0 at the left edge and 400 − width at the right edge. It equals x + direction × speed, with the direction unchanged, when that lies strictly inside. The direction becomes +1 at the left edge and −1 at the right edge. |
| `CorgiGame.Game.Tick` | corgi-stack-jump/src/App.jsx:38-54 | Updates the fields in place to the state `TickNext` gives, and keeps the invariant. |
| `StackEngine.OverlapOf` | corgi-stack-jump/src/App.jsx:64-72 | The overlap starts at the later of the two left edges. Its block count is the floor of the overlap length over 40, and it is at most both rows' block counts. When it is positive, the cut row lies within both the top row and the moving row. |
| `StackInvariants.OverlapIsLargestFit` | corgi-stack-jump/src/App.jsx:70-72 | A row of k blocks at the overlap's start ends before both right edges exactly when k ≤ the overlap's block count. So the count is the largest row that fits. |
| `StackEngine.DropNext` | corgi-stack-jump/src/App.jsx:61-85 | With no moving row, or when the game is over, nothing changes. With no whole block of overlap, only `gameOver` becomes true, and the moving row stays. Otherwise exactly one row {overlap start, moving y, overlap blocks} is appended. Earlier rows are untouched, the moving row is cleared, and the score rises by 1. The new top has 0 < blocks ≤ min(top, moving) and lies within the previous top row. |
| `CorgiGame.Game.Drop` | corgi-stack-jump/src/App.jsx:61-85 | Updates the fields in place to the state `DropNext` gives, and keeps the invariant. |
| `StackInvariants.InitialInv` | corgi-stack-jump/src/App.jsx:11-17 | The initial state satisfies the invariant. |
| `StackInvariants.SpawnKeepsInv` | corgi-stack-jump/src/App.jsx:25-32 | Spawning keeps the invariant. In particular, the new moving row lies on the board, one row above the top row, and has its width. |
| `StackInvariants.TickKeepsInv` | corgi-stack-jump/src/App.jsx:39-54 | A tick keeps the invariant. The moving row never leaves the board, because no row is wider than the base row. |
| `StackInvariants.DropKeepsInv` | corgi-stack-jump/src/App.jsx:61-85 | A drop keeps the invariant. The new row sits at the height its index gives it, within the row below it, and the score stays equal to the number of rows minus one. |
| `StackInvariants.RowsNested` | corgi-stack-jump/src/App.jsx:79-82 | In a valid state, every row lies within every row beneath it. |
| `StackInvariants.BlocksNonIncreasing` | corgi-stack-jump/src/App.jsx:72-82 | In a valid state, block counts are positive and never increase from the base to the top. |
| `StackInvariants.RowsOnBoard` | corgi-stack-jump/src/App.jsx:11-13 | In a valid state, every resting row lies on the board and has at most 7 blocks. |
| `StackInvariants.Apply` | corgi-stack-jump/src/App.jsx:25-95 | No event (spawn, tick, click, restart) ever leaves the tower empty. |
| `StackInvariants.RunKeepsInv` | corgi-stack-jump/src/App.jsx:25-95 | Any sequence of events from a valid state ends in a valid state. |
| `StackInvariants.ReachableInv` | corgi-stack-jump/src/App.jsx:11-95 | Every reachable state satisfies the invariant. The stack is non-empty and keeps its base. Every row has blocks > 0 and y = 380 − 20·index, and lies within the row below it. score = \|stack\| − 1, the direction is ±1, a finished game still has its moving row, and the moving row is one row above the top, as wide, and on the board. |
| `StackInvariants.GameOverFreezes` | corgi-stack-jump/src/App.jsx:26-62 | Once the game is over, no sequence of spawns, ticks and clicks changes anything. Only the restart button does. |
| `StackInvariants.TowerOnlyGrows` | corgi-stack-jump/src/App.jsx:79-84 | Without a restart, the old tower stays a prefix of the new one, and the score never decreases. |
| `StackInvariants.FirstDropAtLeftEdge` | corgi-stack-jump/src/App.jsx:64-84 | The first row spawns at (0, 360) with 7 blocks. Dropped there, it leaves a row of 5 blocks at x = 60, and the score is 1. |
| `StackInvariants.DropBesideNarrowTopLoses` | corgi-stack-jump/src/App.jsx:70-77 | Take a valid state whose top row has 1 block at x = 60, with a 1-block moving row at x = 100. The two rows meet only at an edge, so the drop ends the game, and the tower and the moving row stay as they were. |

## Left out

- Rendering: the JSX for the blocks, the overlay, the score text and the hint (App.jsx:97-139), and the stylesheet import (App.jsx:2). These are presentation only.
- The corgi's display position (App.jsx:21-22). This is cosmetic arithmetic that no operation reads. The top row it is drawn on (App.jsx:20) is modelled as `Top`.
- Timer plumbing: the 16 ms `setInterval`, re-subscribing the effects when their dependencies change, and `clearInterval` (App.jsx:35-38, 55-57). A tick is a method that the caller invokes. `Run` allows any interleaving of ticks with the other events.
- React's batched, asynchronous state setters and the values that closures capture at render time (`score + 1` at App.jsx:84, `direction` at App.jsx:40). Each operation is one atomic update that reads the current state.
- IEEE-754 doubles. Positions and the speed `2 + 0.3·|stack|` are exact reals, so the rounding of `0.3` and the sums that use it are not modelled.
- The click wiring (App.jsx:99). `Drop` is a plain method.
- A losing drop sets `gameOver` but leaves the moving row where it was (App.jsx:74-77). It does not discard the row. The model follows the code, and the invariant records it: a finished game always has a moving row.
- This component has no goal height, no perfect-drop bonus, no shrinking rows and no offset-tolerance rule, so none of these is modelled.
