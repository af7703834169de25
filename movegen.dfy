/** Candidate generation as `generateMoves` is written: a scan of the board
    column by column (`x`, then `y`) that keeps the cells that are OCCUPIED
    and have an occupied neighbour. The neighbour test reads the board with
    its indices exchanged (`[y + dy][x + dx]`), so on a board that is not
    square it can go out of range for some cells; every function here
    therefore asks for `w == h`. */
module MoveGen {
  import opened Macro
  import opened Grid

  /** The transposed neighbour read at offset (`dx`, `dy`) from (`x`, `y`). */
  predicate NeighbourAt(g: Grid, w: int, h: int, x: int, y: int, dx: int, dy: int)
    requires Shaped(g, w, h) && w == h
  {
    OnBoard(w, h, Move(x + dx, y + dy)) && g[y + dy][x + dx] != None
  }

  /** One of the eight offsets around (`x`, `y`) passes the neighbour read. */
  predicate HasNeighbour(g: Grid, w: int, h: int, x: int, y: int)
    requires Shaped(g, w, h) && w == h
  {
    NeighbourAt(g, w, h, x, y, -1, -1) || NeighbourAt(g, w, h, x, y, -1, 0) || NeighbourAt(g, w, h, x, y, -1, 1) ||
    NeighbourAt(g, w, h, x, y, 0, -1) || NeighbourAt(g, w, h, x, y, 0, 1) ||
    NeighbourAt(g, w, h, x, y, 1, -1) || NeighbourAt(g, w, h, x, y, 1, 0) || NeighbourAt(g, w, h, x, y, 1, 1)
  }

  /** A cell that the scan keeps. */
  predicate IsCandidate(g: Grid, w: int, h: int, m: Move)
    requires Shaped(g, w, h) && w == h
  {
    OnBoard(w, h, m) && g[m.x][m.y] != None && HasNeighbour(g, w, h, m.x, m.y)
  }

  /** The eight-offset test means: some offset other than (0, 0) passes
      the neighbour read. */
  lemma HasNeighbourMeansSomeOffset(g: Grid, w: int, h: int, x: int, y: int)
    requires Shaped(g, w, h) && w == h
    ensures HasNeighbour(g, w, h, x, y) <==>
            exists dx, dy | -1 <= dx <= 1 && -1 <= dy <= 1 && (dx != 0 || dy != 0) ::
              NeighbourAt(g, w, h, x, y, dx, dy)
  {
    if !HasNeighbour(g, w, h, x, y) {
      forall dx, dy | -1 <= dx <= 1 && -1 <= dy <= 1 && (dx != 0 || dy != 0)
        ensures !NeighbourAt(g, w, h, x, y, dx, dy)
      {
        assert dx == -1 || dx == 0 || dx == 1;
        assert dy == -1 || dy == 0 || dy == 1;
      }
    }
  }

  /** The neighbour read at an offset other than (0, 0). */
  predicate OffNeighbourAt(g: Grid, w: int, h: int, x: int, y: int, dx: int, dy: int)
    requires Shaped(g, w, h) && w == h
  {
    (dx != 0 || dy != 0) && NeighbourAt(g, w, h, x, y, dx, dy)
  }

  /** Some offset of column `dx` below row `dy` passes the neighbour read:
      what the inner loop of the neighbour test has already looked at. */
  predicate ColumnBelow(g: Grid, w: int, h: int, x: int, y: int, dx: int, dy: int)
    requires Shaped(g, w, h) && w == h
  {
    (dy > -1 && OffNeighbourAt(g, w, h, x, y, dx, -1)) ||
    (dy > 0 && OffNeighbourAt(g, w, h, x, y, dx, 0)) ||
    (dy > 1 && OffNeighbourAt(g, w, h, x, y, dx, 1))
  }

  /** Some offset in a column before `dx` passes the neighbour read: what
      the outer loop of the neighbour test has already looked at. */
  predicate ColumnsBefore(g: Grid, w: int, h: int, x: int, y: int, dx: int)
    requires Shaped(g, w, h) && w == h
  {
    (dx > -1 && ColumnBelow(g, w, h, x, y, -1, 2)) ||
    (dx > 0 && ColumnBelow(g, w, h, x, y, 0, 2)) ||
    (dx > 1 && ColumnBelow(g, w, h, x, y, 1, 2))
  }

  /** Looking at all three columns is the eight-offset test. */
  lemma AllColumnsMeansHasNeighbour(g: Grid, w: int, h: int, x: int, y: int)
    requires Shaped(g, w, h) && w == h
    ensures ColumnsBefore(g, w, h, x, y, 2) <==> HasNeighbour(g, w, h, x, y)
  {
  }

  /** Every move of `ms` is on the board. */
  predicate AllOnBoard(w: int, h: int, ms: seq<Move>) {
    forall k | 0 <= k < |ms| :: OnBoard(w, h, ms[k])
  }

  /** Scan order: column-major, `x` first and then `y`. */
  predicate ScanBefore(a: Move, b: Move) {
    a.x < b.x || (a.x == b.x && a.y < b.y)
  }

  predicate StrictlyInScanOrder(ms: seq<Move>) {
    forall i, j | 0 <= i < j < |ms| :: ScanBefore(ms[i], ms[j])
  }

  /** The scan keeps cell (`x`, `y`): it is occupied and has a neighbour. */
  predicate Kept(g: Grid, w: int, h: int, x: int, y: int)
    requires Shaped(g, w, h) && w == h
    requires 0 <= x < w && 0 <= y < h
  {
    g[x][y] != None && HasNeighbour(g, w, h, x, y)
  }

  /** A point the scan reaches: a cell of the board, the end of a column,
      or (`w`, 0) once every column is done. */
  predicate ScanPoint(w: int, h: int, x: int, y: int) {
    0 <= x <= w && 0 <= y <= h && (x < w || y == 0)
  }

  /** The cells the scan has kept when it reaches (`x`, `y`), in the order it
      pushed them: all of the columns before `x`, then column `x` up to row `y`. */
  function ScannedBefore(g: Grid, w: int, h: int, x: int, y: int): (ms: seq<Move>)
    requires Shaped(g, w, h) && w == h
    requires ScanPoint(w, h, x, y)
    decreases x, y
  {
    if y > 0 then
      if Kept(g, w, h, x, y - 1) then ScannedBefore(g, w, h, x, y - 1) + [Move(x, y - 1)]
      else ScannedBefore(g, w, h, x, y - 1)
    else if x > 0 then ScannedBefore(g, w, h, x - 1, h)
    else []
  }

  /** The list `generateMoves` returns: what the scan has kept once every
      column is done. */
  function Candidates(g: Grid, w: int, h: int): (ms: seq<Move>)
    requires Shaped(g, w, h) && w == h
    ensures AllOnBoard(w, h, ms)
  {
    var ms := ScannedBefore(g, w, h, w, 0);
    forall k | 0 <= k < |ms|
      ensures OnBoard(w, h, ms[k])
    {
      ScannedSound(g, w, h, w, 0, ms[k]);
    }
    ms
  }

  /** A cell the scan has kept is a candidate, and it comes before the
      point the scan has reached. */
  lemma {:induction false} ScannedSound(g: Grid, w: int, h: int, x: int, y: int, m: Move)
    requires Shaped(g, w, h) && w == h
    requires ScanPoint(w, h, x, y) && m in ScannedBefore(g, w, h, x, y)
    ensures IsCandidate(g, w, h, m) && ScanBefore(m, Move(x, y))
    decreases x, y
  {
    if y > 0 {
      if m in ScannedBefore(g, w, h, x, y - 1) {
        ScannedSound(g, w, h, x, y - 1, m);
      }
    } else if x > 0 {
      ScannedSound(g, w, h, x - 1, h, m);
    }
  }

  /** Every candidate before the point the scan has reached has been kept. */
  lemma {:induction false} ScannedComplete(g: Grid, w: int, h: int, x: int, y: int, m: Move)
    requires Shaped(g, w, h) && w == h
    requires ScanPoint(w, h, x, y)
    requires IsCandidate(g, w, h, m) && ScanBefore(m, Move(x, y))
    ensures m in ScannedBefore(g, w, h, x, y)
    decreases x, y
  {
    if y > 0 {
      if m != Move(x, y - 1) {
        ScannedComplete(g, w, h, x, y - 1, m);
      }
    } else if x > 0 {
      ScannedComplete(g, w, h, x - 1, h, m);
    }
  }

  /** A cell is returned exactly when it is on the board, occupied, and has
      an occupied neighbour under the transposed read. */
  lemma CandidatesExactly(g: Grid, w: int, h: int, m: Move)
    requires Shaped(g, w, h) && w == h
    ensures m in Candidates(g, w, h) <==> IsCandidate(g, w, h, m)
  {
    if m in Candidates(g, w, h) {
      ScannedSound(g, w, h, w, 0, m);
    }
    if IsCandidate(g, w, h, m) {
      ScannedComplete(g, w, h, w, 0, m);
    }
  }

  lemma {:induction false} ScannedOrdered(g: Grid, w: int, h: int, x: int, y: int)
    requires Shaped(g, w, h) && w == h
    requires ScanPoint(w, h, x, y)
    ensures StrictlyInScanOrder(ScannedBefore(g, w, h, x, y))
    decreases x, y
  {
    if y > 0 {
      var init := ScannedBefore(g, w, h, x, y - 1);
      ScannedOrdered(g, w, h, x, y - 1);
      if Kept(g, w, h, x, y - 1) {
        var ms := init + [Move(x, y - 1)];
        forall i, j | 0 <= i < j < |ms|
          ensures ScanBefore(ms[i], ms[j])
        {
          assert ms[i] == init[i];
          if j == |init| {
            ScannedSound(g, w, h, x, y - 1, init[i]);
          } else {
            assert ms[j] == init[j];
          }
        }
      }
    } else if x > 0 {
      ScannedOrdered(g, w, h, x - 1, h);
    }
  }

  /** The list comes in strict scan order, so it has no duplicates. */
  lemma CandidatesInScanOrder(g: Grid, w: int, h: int)
    requires Shaped(g, w, h) && w == h
    ensures StrictlyInScanOrder(Candidates(g, w, h))
    ensures forall i, j | 0 <= i < j < |Candidates(g, w, h)| :: Candidates(g, w, h)[i] != Candidates(g, w, h)[j]
  {
    ScannedOrdered(g, w, h, w, 0);
  }

  /** An empty board yields no moves at all. */
  lemma EmptyBoardHasNoCandidates(g: Grid, w: int, h: int)
    requires Shaped(g, w, h) && w == h
    requires AllEmpty(g)
    ensures Candidates(g, w, h) == []
  {
    if |Candidates(g, w, h)| > 0 {
      CandidateIsOccupied(g, w, h, 0);
      assert false;
    }
  }

  lemma CandidateIsOccupied(g: Grid, w: int, h: int, i: int)
    requires Shaped(g, w, h) && w == h
    requires 0 <= i < |Candidates(g, w, h)|
    ensures OnBoard(w, h, Candidates(g, w, h)[i])
    ensures g[Candidates(g, w, h)[i].x][Candidates(g, w, h)[i].y] != None
  {
    ScannedSound(g, w, h, w, 0, Candidates(g, w, h)[i]);
  }
}
