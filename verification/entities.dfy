/** The fixed rule parameters of the automaton (the `Entities` enumeration). */
module Entities {

  /** Live-neighbour counts with which a live cell stays alive. */
  const SURVIVAL: set<int> := {4, 5}

  /** Live-neighbour counts with which a dead cell comes alive. */
  const BIRTH: set<int> := {4, 5}

  /** The value a cell's counter is set to when it fails the survival rule. */
  const COUNTER: int := 5
}
