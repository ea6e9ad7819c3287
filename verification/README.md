# 3D cellular automaton: the GridManager tick

A model in Dafny of the simulation core of a three-dimensional cellular
automaton (`neural_cellular_automata.py`). An n×n×n lattice of cells (n = 20 in
the application) is seeded with six live cells. It then advances one
generation per `update` call under a 3D Game-of-Life rule: SURVIVAL = BIRTH =
{4, 5} live neighbours in the 3×3×3 Moore neighbourhood. The lattice does not
wrap around. Each cell also carries a `counter` that only decides its colour and visibility.
It is set to COUNTER = 5 when a live cell fails the survival rule, and it is
decremented in the same tick when that death is committed.

Layout:

- `entities.dfy`, module `Entities`: the rule constants SURVIVAL, BIRTH and COUNTER.
- `cells.dfy`, module `Cells`: the `Cell` record and the rule (`NextAlive`).
  It has one cell's compute pass (`Compute`), commit pass (`Commit`) and whole
  tick (`Tick`). It also has the colour classification (`ColorOf`), the
  show/hide test (`Shown`), and lemmas about repeated ticks (`Run`).
- `neighbourhood.dfy`, module `Neighbourhood`: the neighbour count as a
  specification over a lattice of states. `CountFrom` adds up, in the order
  the three offset loops visit them, the offsets still to be visited from a
  given loop position on; `LiveCount` is `CountFrom` from the first offset.
  `LiveNeighbours` is an independent definition: the set of live lattice
  cells adjacent to the centre. The lemmas relate the two and bound the count.
- `grid_manager.dfy`, module `Grid`: class `GridManager`. It holds
  `gridSize` and the cells' `state`, `nextState` and `counter` fields as three
  n×n×n arrays. Its methods are `SetupGrid` (via the constructor),
  `CountNeighbors`, `UpdateNextState`, `CommitNextState` (the loop in the
  body of `update`) and `Update`. `SetupGrid`, `CountNeighbors`,
  `UpdateNextState` and `CommitNextState` are written as the source's triple
  loops. `CountNeighbors` is proved against `Neighbourhood.LiveCount` and
  `LiveNeighbours`. `SetupGrid` and the two passes are proved against the
  per-cell functions of `Cells`. `Update` has no loop of its own: it calls the
  two passes and is proved against `Cells.Tick`. `NewApplicationGrid` builds
  the lattice of side `GRID_SIZE` = 20, as the application does.

The model follows the code where the decay counter is concerned. The counter
goes 5 → 4 in the tick in which a cell dies. It is never decremented again
while the cell stays dead, so a cell that has died stays yellow, with counter
4, until it is reborn. It is not reset to 0 on rebirth either. The branch that
re-assigns `next_state` when the counter reaches 0 is never taken. A countdown
that decrements once per dead tick down to 0, or that resets on rebirth,
describes a different program and is not modelled.

## Model

| member | source | states |
|---|---|---|
| `Cells.NewCell` | neural_cellular_automata.py:14-19 | a new cell has the given state, no pending state and counter 0; it is green when alive and red otherwise |
| `Cells.Compute` | neural_cellular_automata.py:70-82 | the compute step of one cell never changes `state`; `nextState` is the rule (count in SURVIVAL if alive, in BIRTH if dead); the counter changes only for a live cell failing survival, and then becomes COUNTER |
| `Cells.Commit` | neural_cellular_automata.py:92-99 | `state` takes the pending `nextState`; the counter changes exactly when the cell goes from alive to dead, and then by exactly one down |
| `Cells.Tick` | neural_cellular_automata.py:66-99 | after one tick the state is the rule applied to the pre-tick state and count; a cell that died has counter COUNTER - 1 = 4; every other cell keeps its counter; a counter in {0, 4} stays in {0, 4}, and a non-negative one stays non-negative |
| `Cells.ResetBranchUnreachable` | neural_cellular_automata.py:94-97 | after the compute pass a dying cell reaches the commit with counter COUNTER, so the decrement leaves 4 and the `counter == 0` branch is never taken |
| `Cells.ColorOf` | neural_cellular_automata.py:21-27 | green exactly when alive; yellow exactly when dead with a positive counter; red exactly when dead with counter at most 0 |
| `Cells.Shown` | neural_cellular_automata.py:102-105 | a cell is shown exactly when it is alive or its counter is positive |
| `Cells.ShownIffNotRed` | neural_cellular_automata.py:102-105 | a cell is shown (alive or counter > 0) exactly when its colour is not red |
| `Cells.DyingCellTurnsYellow` | neural_cellular_automata.py:72-105 | a live cell that fails the survival rule is yellow and shown after the tick |
| `Cells.DeadCellKeepsCounter` | neural_cellular_automata.py:94-99 | a dead cell that is not reborn stays dead and keeps its counter and its colour over any number of ticks |
| `Cells.DiedCellStaysYellow` | neural_cellular_automata.py:72-99 | a cell that dies keeps counter 4 and stays yellow for every later tick without rebirth |
| `Cells.QuietCellStaysQuiet` | neural_cellular_automata.py:78-105 | a dead cell with counter 0 stays dead, at counter 0, red and hidden through any tick whose count is not a birth count; `Update` uses it for an all-dead lattice |
| `Neighbourhood.LiveNeighbourAt` | neural_cellular_automata.py:58-62 | an offset of the 3×3×3 block is counted exactly when the coordinate it reaches is a live lattice cell other than the centre |
| `Neighbourhood.LiveFromSize` | neural_cellular_automata.py:55-63 | from any point of the three offset loops, what is still to be added equals the number of live neighbours whose offsets come at or after that point |
| `Neighbourhood.CountFromAtMost` | neural_cellular_automata.py:55-63 | from any point of the three offset loops, at most one is still added per offset left to visit, and none for the centre |
| `Neighbourhood.CountIsLiveNeighbours` | neural_cellular_automata.py:53-64 | the count equals the number of live lattice cells that are Moore neighbours of the centre: out-of-range coordinates and the centre itself are never counted |
| `Neighbourhood.LiveCountAtMost26` | neural_cellular_automata.py:55-63 | the count lies between 0 and 26 |
| `Neighbourhood.CornerCountAtMost7` | neural_cellular_automata.py:58-63 | at the corner (0, 0, 0) the count is at most 7: only the neighbours with no negative coordinate lie in the lattice, because it does not wrap around |
| `Neighbourhood.AllDeadCountZero` | neural_cellular_automata.py:53-64 | in an all-dead lattice every count is 0 |
| `Grid.NewApplicationGrid` | neural_cellular_automata.py:29-36 | the application's lattice has side `GRID_SIZE` = 20 and fresh arrays; every cell is `NewCell` of "is in START_NODES", so every counter starts at 0 (settled); all six start nodes lie in it and are alive, and every other cell is dead |
| `Grid.GridManager.constructor` | neural_cellular_automata.py:30-36 | the new lattice has side n; every cell is `NewCell` of "is in START_NODES"; every counter is settled; when n >= 7 all six start nodes lie in the lattice and are alive |
| `Grid.GridManager.SetupGrid` | neural_cellular_automata.py:38-51 | fills fresh n×n×n arrays so that the cell at (x, y, z) is alive exactly when (x, y, z) is one of the start nodes, has no pending state and has counter 0 |
| `Grid.GridManager.CountNeighbors` | neural_cellular_automata.py:53-64 | returns `LiveCount` of the current states, which equals the number of live in-lattice Moore neighbours and lies between 0 and 26 |
| `Grid.GridManager.UpdateNextState` | neural_cellular_automata.py:66-82 | leaves every `state` unchanged and sets every cell to `Compute` of its old value and of its neighbour count over the states before the pass, so no cell's count sees another cell's new value |
| `Grid.GridManager.CommitNextState` | neural_cellular_automata.py:89-99 | sets every cell to `Commit` of its old value: `state` takes `nextState`, and only a cell going from alive to dead has its counter decremented |
| `Grid.GridManager.Update` | neural_cellular_automata.py:84-99 | every cell ends as `Tick` of its pre-tick value and pre-tick neighbour count, so the update is synchronous; `state` equals the committed `nextState`, which is the rule; a cell that died has counter 4 and an already-dead cell keeps its counter; settled counters stay settled; an all-dead lattice with all counters 0 stays so |

## Left out

- Rendering: the Panda3D cube of each cell, model loading, scale, position, parenting, `setColor`, and the `show`/`hide` calls. The colour and visibility decisions are kept as `ColorOf` and `Shown`; the calls into the rendering library are foreign code.
- Scene geometry: `cube_distance`, `start_pos`, the cube positions and the `setHpr` rotations. These are floating-point presentation values that the automaton never reads.
- The worker thread in `update` is started and joined at once, so the model calls `UpdateNextState` directly.
- `MyApp`: the camera task, the rotation task, the `time.sleep` pacing of the update task and the event loop that drives the ticks. Repeated ticks are repeated `Update` calls on the grid, which keeps `Valid`, settled counters and an all-dead lattice; `Cells.Run` gives the per-cell lemmas about many ticks.
- `next_state` starts as `None`. The model starts it as `false`, since every cell's `next_state` is assigned in the compute pass before the commit pass reads it.
- Each cell is a separate object in the source. The model keeps the three fields of all cells in three arrays instead. No cell object is shared between two lattice sites, so no aliasing is lost.
- The lattice side is a constructor parameter; the application always uses `GRID_SIZE` = 20 (`NewApplicationGrid`). On a lattice smaller than 7, the start nodes that fall outside are simply not marked, as in the source, because its loops never visit them.
- The source has no construction errors and no out-of-bounds lookup errors. Its loops only visit in-range coordinates, so no error path is modelled.
