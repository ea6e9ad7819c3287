/**
 * `GridManager`: the lattice of cells and the tick that advances it.
 *
 * The source keeps an n×n×n nested list of `Cell` objects, each owning its
 * `state`, `next_state` and `counter`. Here those three fields are held as
 * three n×n×n arrays indexed like the nested list; `CellAt` reassembles one
 * cell. Every slot holds its own cell, so nothing is shared between sites.
 */
module Grid {
  import opened Entities
  import opened Cells
  import opened Neighbourhood

  /** The side of the lattice the application builds. */
  const GRID_SIZE: nat := 20

  /** The six coordinates that start alive. */
  const START_NODES: seq<Coord> := [(4, 4, 4), (4, 4, 5), (4, 5, 4), (4, 5, 5), (4, 4, 6), (4, 6, 4)]

  /**
   * The lattice the application builds: `GRID_SIZE` is large enough for all
   * six start nodes, so every one of them starts alive.
   */
  method NewApplicationGrid() returns (g: GridManager)
    ensures g.Valid() && g.gridSize == GRID_SIZE
    ensures fresh(g.state) && fresh(g.nextState) && fresh(g.counter)
    ensures forall x, y, z | InBounds(g.gridSize, x, y, z) :: g.CellAt(x, y, z) == NewCell((x, y, z) in START_NODES)
    ensures g.CountersSettled()
    ensures forall p | p in START_NODES :: InBounds(g.gridSize, p.0, p.1, p.2) && g.state[p.0, p.1, p.2]
    ensures forall x, y, z | InBounds(g.gridSize, x, y, z) && (x, y, z) !in START_NODES :: !g.state[x, y, z]
  {
    g := new GridManager(GRID_SIZE);
  }

  class GridManager {
    const gridSize: nat
    const state: array3<bool>
    const nextState: array3<bool>
    const counter: array3<int>

    ghost predicate Valid() {
      IsCube(state, gridSize) && IsCube(nextState, gridSize) && IsCube(counter, gridSize) && state != nextState
    }

    /** The cell at (x, y, z). */
    ghost function CellAt(x: int, y: int, z: int): Cell
      reads state, nextState, counter
      requires Valid() && InBounds(gridSize, x, y, z)
    {
      Cell(state[x, y, z], nextState[x, y, z], counter[x, y, z])
    }

    /** Every counter is 0 or COUNTER - 1, as between ticks. */
    ghost predicate CountersSettled()
      reads state, nextState, counter
      requires Valid()
    {
      forall x, y, z | InBounds(gridSize, x, y, z) :: CounterSettled(CellAt(x, y, z))
    }

    /** Every cell is dead with counter 0: nothing is drawn. */
    ghost predicate Quiescent()
      reads state, nextState, counter
      requires Valid()
    {
      forall x, y, z | InBounds(gridSize, x, y, z) :: !state[x, y, z] && counter[x, y, z] == 0
    }

    /** Builds the lattice: the cells at START_NODES alive, all others dead, every counter 0. */
    constructor (n: nat)
      ensures Valid() && gridSize == n
      ensures fresh(state) && fresh(nextState) && fresh(counter)
      ensures forall x, y, z | InBounds(n, x, y, z) :: CellAt(x, y, z) == NewCell((x, y, z) in START_NODES)
      ensures CountersSettled()
      ensures n >= 7 ==> forall p | p in START_NODES :: InBounds(n, p.0, p.1, p.2) && state[p.0, p.1, p.2]
    {
      var s, ns, c := SetupGrid(n);
      gridSize, state, nextState, counter := n, s, ns, c;
    }

    /** `setup_grid`: fills the three arrays cell by cell. */
    static method SetupGrid(n: nat) returns (s: array3<bool>, ns: array3<bool>, c: array3<int>)
      ensures fresh(s) && fresh(ns) && fresh(c) && s != ns
      ensures IsCube(s, n) && IsCube(ns, n) && IsCube(c, n)
      ensures forall x, y, z | InBounds(n, x, y, z) ::
        Cell(s[x, y, z], ns[x, y, z], c[x, y, z]) == NewCell((x, y, z) in START_NODES)
    {
      s, ns, c := new bool[n, n, n], new bool[n, n, n], new int[n, n, n];
      for x := 0 to n
        invariant forall i, j, k | InBounds(n, i, j, k) && Before(i, j, k, x, 0, 0) ::
          Cell(s[i, j, k], ns[i, j, k], c[i, j, k]) == NewCell((i, j, k) in START_NODES)
      {
        for y := 0 to n
          invariant forall i, j, k | InBounds(n, i, j, k) && Before(i, j, k, x, y, 0) ::
            Cell(s[i, j, k], ns[i, j, k], c[i, j, k]) == NewCell((i, j, k) in START_NODES)
        {
          for z := 0 to n
            invariant forall i, j, k | InBounds(n, i, j, k) && Before(i, j, k, x, y, z) ::
              Cell(s[i, j, k], ns[i, j, k], c[i, j, k]) == NewCell((i, j, k) in START_NODES)
          {
            var cell := NewCell((x, y, z) in START_NODES);
            s[x, y, z], ns[x, y, z], c[x, y, z] := cell.state, cell.nextState, cell.counter;
          }
        }
      }
    }

    /** `count_neighbors`: the live cells among the up to 26 in-lattice neighbours of (x, y, z). */
    method CountNeighbors(x: int, y: int, z: int) returns (aliveNeighbors: int)
      requires Valid()
      ensures aliveNeighbors == LiveCount(state, gridSize, x, y, z)
      ensures aliveNeighbors == |LiveNeighbours(state, gridSize, x, y, z)|
      ensures 0 <= aliveNeighbors <= 26
    {
      aliveNeighbors := 0;
      for dx := -1 to 2
        invariant aliveNeighbors + CountFrom(state, gridSize, x, y, z, dx, -1, -1) == LiveCount(state, gridSize, x, y, z)
      {
        for dy := -1 to 2
          invariant aliveNeighbors + CountFrom(state, gridSize, x, y, z, dx, dy, -1) == LiveCount(state, gridSize, x, y, z)
        {
          for dz := -1 to 2
            invariant aliveNeighbors + CountFrom(state, gridSize, x, y, z, dx, dy, dz) == LiveCount(state, gridSize, x, y, z)
          {
            if dx == 0 && dy == 0 && dz == 0 {
              continue;
            }
            var nx, ny, nz := x + dx, y + dy, z + dz;
            if 0 <= nx < gridSize && 0 <= ny < gridSize && 0 <= nz < gridSize {
              if state[nx, ny, nz] {
                aliveNeighbors := aliveNeighbors + 1;
              }
            }
          }
        }
      }
      CountIsLiveNeighbours(state, gridSize, x, y, z);
      LiveCountAtMost26(state, gridSize, x, y, z);
    }

    /**
     * `update_next_state`, the compute pass: every cell gets the outcome of the
     * rule on its neighbour count in `nextState`, and a live cell that fails
     * the survival rule has its counter set to COUNTER. `state` is only read,
     * so every count is taken from the states before the tick.
     */
    method UpdateNextState()
      requires Valid()
      modifies nextState, counter
      ensures unchanged(state)
      ensures forall x, y, z | InBounds(gridSize, x, y, z) ::
        CellAt(x, y, z) == Compute(old(CellAt(x, y, z)), old(LiveCount(state, gridSize, x, y, z)))
    {
      for x := 0 to gridSize
        invariant forall i, j, k {:trigger CellAt(i, j, k)} {:trigger old(CellAt(i, j, k))} | InBounds(gridSize, i, j, k) ::
          CellAt(i, j, k) == if Before(i, j, k, x, 0, 0)
                             then Compute(old(CellAt(i, j, k)), old(LiveCount(state, gridSize, i, j, k)))
                             else old(CellAt(i, j, k))
      {
        for y := 0 to gridSize
          invariant forall i, j, k {:trigger CellAt(i, j, k)} {:trigger old(CellAt(i, j, k))} | InBounds(gridSize, i, j, k) ::
            CellAt(i, j, k) == if Before(i, j, k, x, y, 0)
                               then Compute(old(CellAt(i, j, k)), old(LiveCount(state, gridSize, i, j, k)))
                               else old(CellAt(i, j, k))
        {
          for z := 0 to gridSize
            invariant forall i, j, k {:trigger CellAt(i, j, k)} {:trigger old(CellAt(i, j, k))} | InBounds(gridSize, i, j, k) ::
              CellAt(i, j, k) == if Before(i, j, k, x, y, z)
                                 then Compute(old(CellAt(i, j, k)), old(LiveCount(state, gridSize, i, j, k)))
                                 else old(CellAt(i, j, k))
          {
            var neighbors := CountNeighbors(x, y, z);
            if state[x, y, z] {
              if neighbors !in SURVIVAL {
                nextState[x, y, z] := false;
                counter[x, y, z] := COUNTER;
              } else {
                nextState[x, y, z] := true;
              }
            } else {
              if neighbors in BIRTH {
                nextState[x, y, z] := true;
              } else {
                nextState[x, y, z] := false;
              }
            }
          }
        }
      }
    }

    /**
     * The commit loop of `update`: a cell going from alive to dead has its
     * counter decremented (and `nextState` re-assigned false should that reach
     * 0), then `state` takes `nextState`.
     */
    method CommitNextState()
      requires Valid()
      modifies state, nextState, counter
      ensures forall x, y, z | InBounds(gridSize, x, y, z) :: CellAt(x, y, z) == Commit(old(CellAt(x, y, z)))
    {
      for x := 0 to gridSize
        invariant forall i, j, k | InBounds(gridSize, i, j, k) ::
          CellAt(i, j, k) == if Before(i, j, k, x, 0, 0) then Commit(old(CellAt(i, j, k))) else old(CellAt(i, j, k))
      {
        for y := 0 to gridSize
          invariant forall i, j, k | InBounds(gridSize, i, j, k) ::
            CellAt(i, j, k) == if Before(i, j, k, x, y, 0) then Commit(old(CellAt(i, j, k))) else old(CellAt(i, j, k))
        {
          for z := 0 to gridSize
            invariant forall i, j, k | InBounds(gridSize, i, j, k) ::
              CellAt(i, j, k) == if Before(i, j, k, x, y, z) then Commit(old(CellAt(i, j, k))) else old(CellAt(i, j, k))
          {
            if nextState[x, y, z] == false && state[x, y, z] == true {
              counter[x, y, z] := counter[x, y, z] - 1;
              if counter[x, y, z] == 0 {
                nextState[x, y, z] := false;
              }
            }
            state[x, y, z] := nextState[x, y, z];
          }
        }
      }
    }

    /**
     * `update`: the compute pass, then the commit pass. Each cell ends as one
     * tick of it with its neighbour count taken before the tick.
     */
    method Update()
      requires Valid()
      modifies state, nextState, counter
      ensures forall x, y, z | InBounds(gridSize, x, y, z) ::
        CellAt(x, y, z) == Tick(old(CellAt(x, y, z)), old(LiveCount(state, gridSize, x, y, z)))
      ensures forall x, y, z | InBounds(gridSize, x, y, z) ::
        state[x, y, z] == nextState[x, y, z] == NextAlive(old(state[x, y, z]), old(LiveCount(state, gridSize, x, y, z)))
      ensures forall x, y, z | InBounds(gridSize, x, y, z) && old(state[x, y, z]) && !state[x, y, z] ::
        counter[x, y, z] == COUNTER - 1
      ensures forall x, y, z | InBounds(gridSize, x, y, z) && !old(state[x, y, z]) ::
        counter[x, y, z] == old(counter[x, y, z])
      ensures old(CountersSettled()) ==> CountersSettled()
      ensures old(Quiescent()) ==> Quiescent()
    {
      if Quiescent() {
        forall x, y, z | InBounds(gridSize, x, y, z)
          ensures LiveCount(state, gridSize, x, y, z) == 0
          ensures Tick(CellAt(x, y, z), LiveCount(state, gridSize, x, y, z)).counter == 0
        {
          AllDeadCountZero(state, gridSize, x, y, z);
          QuietCellStaysQuiet(CellAt(x, y, z), LiveCount(state, gridSize, x, y, z));
        }
      }
      UpdateNextState();
      CommitNextState();
    }
  }
}
