/**
 * The live-neighbour count of `count_neighbors`, as a specification over a
 * lattice of cell states: a sum over the 27 offsets of the 3×3×3 block in the
 * order its three nested loops visit them, and an independent definition as
 * the size of a set of lattice coordinates.
 */
module Neighbourhood {

  type Coord = (int, int, int)

  /** `a` is an n×n×n lattice. */
  predicate IsCube<T>(a: array3<T>, n: int) {
    a.Length0 == n && a.Length1 == n && a.Length2 == n
  }

  /** The lattice has no wrap-around: only coordinates in [0, n) on every axis exist. */
  predicate InBounds(n: int, x: int, y: int, z: int) {
    0 <= x < n && 0 <= y < n && 0 <= z < n
  }

  /** 1 when offset (dx, dy, dz) from (x, y, z) is counted: it is not the centre, lies in the lattice and is alive. */
  function Live(a: array3<bool>, n: int, x: int, y: int, z: int, dx: int, dy: int, dz: int): int
    reads a
    requires IsCube(a, n)
  {
    if !(dx == 0 && dy == 0 && dz == 0) && InBounds(n, x + dx, y + dy, z + dz) && a[x + dx, y + dy, z + dz]
    then 1 else 0
  }

  /**
   * (i, j, k) comes before (x, y, z) in the order in which triple loops over
   * x, then y, then z visit them.
   */
  predicate Before(i: int, j: int, k: int, x: int, y: int, z: int) {
    i < x || (i == x && (j < y || (j == y && k < z)))
  }

  /**
   * The live neighbours at the offsets the loops still have to visit from
   * (dx, dy, dz) on. A coordinate of 2 means that loop has run out: dz == 2
   * moves on to the next dy, dy == 2 to the next dx, and dx == 2 is the end.
   */
  function CountFrom(a: array3<bool>, n: int, x: int, y: int, z: int, dx: int, dy: int, dz: int): int
    reads a
    requires IsCube(a, n) && -1 <= dx <= 2 && -1 <= dy <= 2 && -1 <= dz <= 2
    decreases 2 - dx, 2 - dy, 2 - dz
  {
    if dx == 2 then 0
    else if dy == 2 then CountFrom(a, n, x, y, z, dx + 1, -1, -1)
    else if dz == 2 then CountFrom(a, n, x, y, z, dx, dy + 1, -1)
    else Live(a, n, x, y, z, dx, dy, dz) + CountFrom(a, n, x, y, z, dx, dy, dz + 1)
  }

  /** The live-neighbour count of (x, y, z): every offset of the block, from (-1, -1, -1) on. */
  function LiveCount(a: array3<bool>, n: int, x: int, y: int, z: int): int
    reads a
    requires IsCube(a, n)
  {
    CountFrom(a, n, x, y, z, -1, -1, -1)
  }

  /** (i, j, k) is one of the 26 Moore neighbours of (x, y, z): a different cell of the 3×3×3 block around it. */
  predicate Adjacent(i: int, j: int, k: int, x: int, y: int, z: int) {
    -1 <= i - x <= 1 && -1 <= j - y <= 1 && -1 <= k - z <= 1 && (i, j, k) != (x, y, z)
  }

  /** The live cells of the lattice that are Moore neighbours of (x, y, z). */
  ghost function LiveNeighbours(a: array3<bool>, n: int, x: int, y: int, z: int): set<Coord>
    reads a
    requires IsCube(a, n)
  {
    set i, j, k | 0 <= i < n && 0 <= j < n && 0 <= k < n && a[i, j, k] && Adjacent(i, j, k, x, y, z) :: (i, j, k)
  }

  /** An offset in the block is counted exactly when the coordinate it reaches is a live neighbour. */
  lemma LiveNeighbourAt(a: array3<bool>, n: int, x: int, y: int, z: int, dx: int, dy: int, dz: int)
    requires IsCube(a, n)
    requires -1 <= dx <= 1 && -1 <= dy <= 1 && -1 <= dz <= 1
    ensures (x + dx, y + dy, z + dz) in LiveNeighbours(a, n, x, y, z) <==> Live(a, n, x, y, z, dx, dy, dz) == 1
  {
  }

  /** The live neighbours whose offsets the loops still have to visit from (dx, dy, dz) on. */
  ghost function LiveFrom(a: array3<bool>, n: int, x: int, y: int, z: int, dx: int, dy: int, dz: int): set<Coord>
    reads a
    requires IsCube(a, n)
  {
    set p | p in LiveNeighbours(a, n, x, y, z) && !Before(p.0 - x, p.1 - y, p.2 - z, dx, dy, dz)
  }

  /**
   * Once a loop has run out, the live neighbours still to visit are those
   * from the next value of the enclosing loop on; once all have, none are left.
   */
  lemma LiveFromCarry(a: array3<bool>, n: int, x: int, y: int, z: int, dx: int, dy: int, dz: int)
    requires IsCube(a, n) && -1 <= dx <= 2 && -1 <= dy <= 2 && -1 <= dz <= 2
    ensures dx == 2 ==> LiveFrom(a, n, x, y, z, dx, dy, dz) == {}
    ensures dx < 2 && dy == 2 ==> LiveFrom(a, n, x, y, z, dx, dy, dz) == LiveFrom(a, n, x, y, z, dx + 1, -1, -1)
    ensures dx < 2 && dy < 2 && dz == 2 ==> LiveFrom(a, n, x, y, z, dx, dy, dz) == LiveFrom(a, n, x, y, z, dx, dy + 1, -1)
  {
  }

  /** The live neighbours still to visit after offset (dx, dy, dz) are among those from it on, without the coordinate it reaches. */
  lemma LiveFromAhead(a: array3<bool>, n: int, x: int, y: int, z: int, dx: int, dy: int, dz: int)
    requires IsCube(a, n) && -1 <= dx <= 1 && -1 <= dy <= 1 && -1 <= dz <= 1
    ensures LiveFrom(a, n, x, y, z, dx, dy, dz + 1) <= LiveFrom(a, n, x, y, z, dx, dy, dz)
    ensures (x + dx, y + dy, z + dz) !in LiveFrom(a, n, x, y, z, dx, dy, dz + 1)
  {
  }

  /** Every live neighbour still to visit from (dx, dy, dz) on is the coordinate that offset reaches or is visited after it. */
  lemma LiveFromBehind(a: array3<bool>, n: int, x: int, y: int, z: int, dx: int, dy: int, dz: int)
    requires IsCube(a, n) && -1 <= dx <= 1 && -1 <= dy <= 1 && -1 <= dz <= 1
    ensures LiveFrom(a, n, x, y, z, dx, dy, dz) <= LiveFrom(a, n, x, y, z, dx, dy, dz + 1) + {(x + dx, y + dy, z + dz)}
  {
  }

  /** Visiting offset (dx, dy, dz) sets aside the coordinate it reaches when, and only when, that offset is counted. */
  lemma LiveFromStep(a: array3<bool>, n: int, x: int, y: int, z: int, dx: int, dy: int, dz: int)
    requires IsCube(a, n) && -1 <= dx <= 1 && -1 <= dy <= 1 && -1 <= dz <= 1
    ensures |LiveFrom(a, n, x, y, z, dx, dy, dz)| == |LiveFrom(a, n, x, y, z, dx, dy, dz + 1)| + Live(a, n, x, y, z, dx, dy, dz)
  {
    LiveNeighbourAt(a, n, x, y, z, dx, dy, dz);
    LiveFromAhead(a, n, x, y, z, dx, dy, dz);
    LiveFromBehind(a, n, x, y, z, dx, dy, dz);
    var rest := LiveFrom(a, n, x, y, z, dx, dy, dz);
    var next := LiveFrom(a, n, x, y, z, dx, dy, dz + 1);
    if Live(a, n, x, y, z, dx, dy, dz) == 1 {
      assert rest == next + {(x + dx, y + dy, z + dz)};
    } else {
      assert rest == next;
    }
  }

  /** The remaining count is the number of live neighbours still to visit. */
  lemma {:induction false} LiveFromSize(a: array3<bool>, n: int, x: int, y: int, z: int, dx: int, dy: int, dz: int)
    requires IsCube(a, n) && -1 <= dx <= 2 && -1 <= dy <= 2 && -1 <= dz <= 2
    ensures |LiveFrom(a, n, x, y, z, dx, dy, dz)| == CountFrom(a, n, x, y, z, dx, dy, dz)
    decreases 2 - dx, 2 - dy, 2 - dz
  {
    if dx == 2 {
      LiveFromCarry(a, n, x, y, z, dx, dy, dz);
    } else if dy == 2 {
      LiveFromSize(a, n, x, y, z, dx + 1, -1, -1);
      LiveFromCarry(a, n, x, y, z, dx, dy, dz);
    } else if dz == 2 {
      LiveFromSize(a, n, x, y, z, dx, dy + 1, -1);
      LiveFromCarry(a, n, x, y, z, dx, dy, dz);
    } else {
      LiveFromSize(a, n, x, y, z, dx, dy, dz + 1);
      LiveFromStep(a, n, x, y, z, dx, dy, dz);
    }
  }

  /**
   * The count is exactly the number of in-lattice Moore neighbours that are
   * alive: out-of-range coordinates and the centre are never counted.
   */
  lemma CountIsLiveNeighbours(a: array3<bool>, n: int, x: int, y: int, z: int)
    requires IsCube(a, n)
    ensures LiveCount(a, n, x, y, z) == |LiveNeighbours(a, n, x, y, z)|
  {
    LiveFromSize(a, n, x, y, z, -1, -1, -1);
    assert LiveNeighbours(a, n, x, y, z) == LiveFrom(a, n, x, y, z, -1, -1, -1);
  }

  /**
   * A point the offset loops reach: the next offset to visit is (dx, dy, dz),
   * or a loop has just run out (dz == 2; dy == 2 with dz == -1; dx == 2 at the end).
   */
  predicate Position(dx: int, dy: int, dz: int) {
    -1 <= dx <= 2 && -1 <= dy <= 2 && -1 <= dz <= 2
    && (dx == 2 ==> dy == -1 && dz == -1) && (dy == 2 ==> dz == -1)
  }

  /** How many of the 27 offsets the loops still have to visit from (dx, dy, dz) on. */
  function Unvisited(dx: int, dy: int, dz: int): int {
    9 * (1 - dx) + 3 * (1 - dy) + (2 - dz)
  }

  /** At most one live neighbour per offset still to visit, and none for the centre while it is ahead. */
  lemma {:induction false} CountFromAtMost(a: array3<bool>, n: int, x: int, y: int, z: int, dx: int, dy: int, dz: int)
    requires IsCube(a, n) && Position(dx, dy, dz)
    ensures CountFrom(a, n, x, y, z, dx, dy, dz) + (if Before(0, 0, 0, dx, dy, dz) then 0 else 1) <= Unvisited(dx, dy, dz)
    decreases 2 - dx, 2 - dy, 2 - dz
  {
    if dx == 2 {
    } else if dy == 2 {
      CountFromAtMost(a, n, x, y, z, dx + 1, -1, -1);
    } else if dz == 2 {
      CountFromAtMost(a, n, x, y, z, dx, dy + 1, -1);
    } else {
      CountFromAtMost(a, n, x, y, z, dx, dy, dz + 1);
    }
  }

  /** A cell has at most 26 live neighbours: the centre of the 3×3×3 block is skipped. */
  lemma LiveCountAtMost26(a: array3<bool>, n: int, x: int, y: int, z: int)
    requires IsCube(a, n)
    ensures 0 <= LiveCount(a, n, x, y, z) <= 26
  {
    CountIsLiveNeighbours(a, n, x, y, z);
    CountFromAtMost(a, n, x, y, z, -1, -1, -1);
  }

  /** A subset is no larger than the set that contains it. */
  lemma {:induction false} SubsetSize<T>(s: set<T>, t: set<T>)
    requires s <= t
    ensures |s| <= |t|
    decreases |s|
  {
    if s != {} {
      var e :| e in s;
      SubsetSize(s - {e}, t - {e});
    }
  }

  /**
   * At the corner (0, 0, 0) only the 7 neighbours with no negative coordinate
   * lie in the lattice, so at most 7 are counted.
   */
  lemma CornerCountAtMost7(a: array3<bool>, n: int)
    requires IsCube(a, n)
    ensures LiveCount(a, n, 0, 0, 0) <= 7
  {
    var inLattice: set<Coord> := {(0, 0, 1), (0, 1, 0), (0, 1, 1), (1, 0, 0), (1, 0, 1), (1, 1, 0), (1, 1, 1)};
    CountIsLiveNeighbours(a, n, 0, 0, 0);
    SubsetSize(LiveNeighbours(a, n, 0, 0, 0), inLattice);
  }

  /** In a lattice where every cell is dead, every count is 0. */
  lemma AllDeadCountZero(a: array3<bool>, n: int, x: int, y: int, z: int)
    requires IsCube(a, n)
    requires forall i, j, k | InBounds(n, i, j, k) :: !a[i, j, k]
    ensures LiveCount(a, n, x, y, z) == 0
  {
    CountIsLiveNeighbours(a, n, x, y, z);
    assert LiveNeighbours(a, n, x, y, z) == {};
  }
}
