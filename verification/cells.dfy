/**
 * One lattice site (`Cell`) as a value, the rule, the two halves of a tick
 * applied to a single cell, and the visual classification the renderer is
 * given. The lattice-wide passes in module Grid apply these cell by cell.
 */
module Cells {
  import opened Entities

  /**
   * The three fields of a cell the automaton uses. `nextState` holds the
   * outcome of the compute pass until the commit pass copies it into `state`;
   * `counter` is the decay counter that only affects the colour.
   */
  datatype Cell = Cell(state: bool, nextState: bool, counter: int)

  /** The colours `update_color` paints: alive, recently dead, dead. */
  datatype Color = Green | Yellow | Red

  /** A freshly built cell: alive as given, counter 0, nothing pending. */
  function NewCell(alive: bool): (c: Cell)
    ensures c.state == alive && !c.nextState && c.counter == 0
    ensures ColorOf(c) == (if alive then Green else Red)
  {
    Cell(alive, false, 0)
  }

  /** The rule: whether a cell with `n` live neighbours is alive next generation. */
  predicate NextAlive(alive: bool, n: int) {
    if alive then n in SURVIVAL else n in BIRTH
  }

  /**
   * The compute pass on one cell, given its live-neighbour count `n`:
   * decide `nextState`; a live cell that fails the survival rule has its
   * counter set to COUNTER. `state` is left alone.
   */
  function Compute(c: Cell, n: int): (r: Cell)
    ensures r.state == c.state
    ensures r.nextState == NextAlive(c.state, n)
    ensures c.state && !r.nextState ==> r.counter == COUNTER
    ensures r.counter != c.counter ==> c.state && !r.nextState
  {
    if c.state then
      if n !in SURVIVAL then c.(nextState := false, counter := COUNTER)
      else c.(nextState := true)
    else if n in BIRTH then c.(nextState := true)
    else c.(nextState := false)
  }

  /**
   * The commit pass on one cell: a cell going from alive to dead has its
   * counter decremented once (and, should that reach 0, `nextState` is
   * assigned false again); then `state` takes the pending `nextState`.
   */
  function Commit(c: Cell): (r: Cell)
    ensures r.state == c.nextState && r.nextState == c.nextState
    ensures r.counter != c.counter <==> c.state && !c.nextState
    ensures c.counter - 1 <= r.counter <= c.counter
  {
    var dec := if !c.nextState && c.state then c.(counter := c.counter - 1) else c;
    var reset := if !c.nextState && c.state && dec.counter == 0 then dec.(nextState := false) else dec;
    reset.(state := reset.nextState)
  }

  /** The counter values a cell can hold between ticks: 0, or COUNTER - 1 once it has died. */
  predicate CounterSettled(c: Cell) {
    c.counter == 0 || c.counter == COUNTER - 1
  }

  /**
   * One whole tick of one cell: the compute pass with the cell's live
   * neighbour count taken before the tick, then the commit pass.
   */
  function Tick(c: Cell, n: int): (r: Cell)
    ensures r.state == NextAlive(c.state, n) && r.nextState == r.state
    ensures c.state && !r.state ==> r.counter == COUNTER - 1
    ensures !(c.state && !r.state) ==> r.counter == c.counter
    ensures CounterSettled(c) ==> CounterSettled(r)
    ensures c.counter >= 0 ==> r.counter >= 0
  {
    Commit(Compute(c, n))
  }

  /**
   * The branch of the commit pass that re-assigns `nextState` when the
   * counter reaches 0 is never taken after a compute pass: a dying cell
   * arrives there with counter COUNTER, which the decrement leaves at 4.
   */
  lemma ResetBranchUnreachable(c: Cell, n: int)
    ensures var m := Compute(c, n);
      m.state && !m.nextState ==> m.counter - 1 == COUNTER - 1 && m.counter - 1 != 0
  {
  }

  /** `update_color`: green when alive, yellow when dead with a positive counter, red otherwise. */
  function ColorOf(c: Cell): (r: Color)
    ensures r == Green <==> c.state
    ensures r == Yellow <==> !c.state && c.counter > 0
    ensures r == Red <==> !c.state && c.counter <= 0
  {
    if c.state then Green
    else if c.counter > 0 then Yellow
    else Red
  }

  /** The show/hide test of the commit pass: a cell is drawn when alive or while its counter is positive. */
  predicate Shown(c: Cell) {
    c.state || c.counter > 0
  }

  /** A cell is drawn exactly when it is not red. */
  lemma ShownIffNotRed(c: Cell)
    ensures Shown(c) <==> ColorOf(c) != Red
  {
  }

  /** A live cell that dies in a tick is yellow and still drawn afterwards. */
  lemma DyingCellTurnsYellow(c: Cell, n: int)
    requires c.state && !NextAlive(c.state, n)
    ensures ColorOf(Tick(c, n)) == Yellow && Shown(Tick(c, n))
  {
  }

  /** The cell after one tick per count in `counts`, as successive `update` calls produce. */
  function Run(c: Cell, counts: seq<int>): (r: Cell)
    decreases |counts|
  {
    if counts == [] then c else Run(Tick(c, counts[0]), counts[1..])
  }

  /**
   * A dead cell that is never reborn keeps its counter, and with it its
   * colour, for any number of ticks: the counter is decremented only in the
   * tick in which the cell dies, so a died cell stays yellow with counter 4.
   */
  lemma {:induction false} DeadCellKeepsCounter(c: Cell, counts: seq<int>)
    requires !c.state
    requires forall i | 0 <= i < |counts| :: counts[i] !in BIRTH
    ensures !Run(c, counts).state
    ensures Run(c, counts).counter == c.counter
    ensures ColorOf(Run(c, counts)) == ColorOf(c)
    decreases |counts|
  {
    if counts != [] {
      var c' := Tick(c, counts[0]);
      assert !c'.state && c'.counter == c.counter;
      DeadCellKeepsCounter(c', counts[1..]);
    }
  }

  /** A cell that dies is yellow for every later tick in which it is not reborn. */
  lemma {:induction false} DiedCellStaysYellow(c: Cell, n: int, counts: seq<int>)
    requires c.state && !NextAlive(c.state, n)
    requires forall i | 0 <= i < |counts| :: counts[i] !in BIRTH
    ensures Run(Tick(c, n), counts).counter == COUNTER - 1
    ensures ColorOf(Run(Tick(c, n), counts)) == Yellow
  {
    DeadCellKeepsCounter(Tick(c, n), counts);
  }

  /**
   * A dead cell with counter 0 stays dead, at counter 0, red and hidden
   * through any tick whose count is not a birth count.
   */
  lemma QuietCellStaysQuiet(c: Cell, n: int)
    requires !c.state && c.counter == 0 && n !in BIRTH
    ensures !Tick(c, n).state && Tick(c, n).counter == 0
    ensures ColorOf(Tick(c, n)) == Red && !Shown(Tick(c, n))
  {
  }
}
