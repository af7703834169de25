/** The static evaluation as `evaluate` computes it: for every occupied cell
    and each of the four directions (1,0), (0,1), (1,1), (1,-1), a run that
    starts at that cell (its predecessor is not the same owner) is walked to
    its end and scored 10000, 1000, 100 or 10 for a length of at least 5, 4,
    3 or 2, positive for `Me` and negative for `Opponent`. Open ends play no
    part. */
module Evaluation {
  import opened Macro
  import opened Grid

  /** The direction tables `dx[]` and `dy[]`. */
  const DX: seq<int> := [1, 0, 1, 1]
  const DY: seq<int> := [0, 1, 1, -1]

  predicate IsDirection(dx: int, dy: int) {
    (dx == 1 && -1 <= dy <= 1) || (dx == 0 && dy == 1)
  }

  lemma DirectionTable(d: int)
    requires 0 <= d < 4
    ensures DX == [1, 0, 1, 1] && DY == [0, 1, 1, -1]
    ensures |DX| == 4 && |DY| == 4 && IsDirection(DX[d], DY[d])
  {
  }

  /** Number of consecutive cells owned by `p`, starting at (`x`, `y`) and
      stepping by (`dx`, `dy`) until a cell is off the board or not `p`'s. */
  function RunLength(g: Grid, w: int, h: int, x: int, y: int, dx: int, dy: int, p: Player): nat
    requires Shaped(g, w, h) && IsDirection(dx, dy)
    decreases if dx == 1 then w - x else h - y
  {
    if OnBoard(w, h, Move(x, y)) && g[x][y] == p then 1 + RunLength(g, w, h, x + dx, y + dy, dx, dy, p) else 0
  }

  /** `RunLength` measures the maximal run: the first `n` cells along the
      direction are `p`'s and the next one is off the board or not `p`'s. */
  lemma RunLengthIsMaximalRun(g: Grid, w: int, h: int, x: int, y: int, dx: int, dy: int, p: Player)
    requires Shaped(g, w, h) && IsDirection(dx, dy)
    ensures var n := RunLength(g, w, h, x, y, dx, dy, p);
      (forall k | 0 <= k < n :: OnBoard(w, h, Move(x + k * dx, y + k * dy)) && g[x + k * dx][y + k * dy] == p) &&
      !(OnBoard(w, h, Move(x + n * dx, y + n * dy)) && g[x + n * dx][y + n * dy] == p)
  {
    forall k | 0 <= k < RunLength(g, w, h, x, y, dx, dy, p)
      ensures OnBoard(w, h, Move(x + k * dx, y + k * dy)) && g[x + k * dx][y + k * dy] == p
    {
      RunCellOwned(g, w, h, x, y, dx, dy, p, k);
    }
    RunEndsAfter(g, w, h, x, y, dx, dy, p);
  }

  /** The `k`-th cell of the run is on the board and is `p`'s. */
  lemma {:induction false} RunCellOwned(g: Grid, w: int, h: int, x: int, y: int, dx: int, dy: int, p: Player, k: int)
    requires Shaped(g, w, h) && IsDirection(dx, dy)
    requires 0 <= k < RunLength(g, w, h, x, y, dx, dy, p)
    ensures OnBoard(w, h, Move(x + k * dx, y + k * dy)) && g[x + k * dx][y + k * dy] == p
    decreases k
  {
    if k > 0 {
      RunCellOwned(g, w, h, x + dx, y + dy, dx, dy, p, k - 1);
      OneStepFurther(x, k, dx);
      OneStepFurther(y, k, dy);
    }
  }

  lemma {:induction false} RunEndsAfter(g: Grid, w: int, h: int, x: int, y: int, dx: int, dy: int, p: Player)
    requires Shaped(g, w, h) && IsDirection(dx, dy)
    ensures var n := RunLength(g, w, h, x, y, dx, dy, p);
      !(OnBoard(w, h, Move(x + n * dx, y + n * dy)) && g[x + n * dx][y + n * dy] == p)
    decreases if dx == 1 then w - x else h - y
  {
    if OnBoard(w, h, Move(x, y)) && g[x][y] == p {
      RunEndsAfter(g, w, h, x + dx, y + dy, dx, dy, p);
      var n := RunLength(g, w, h, x, y, dx, dy, p);
      OneStepFurther(x, n, dx);
      OneStepFurther(y, n, dy);
    }
  }

  lemma OneStepFurther(x: int, k: int, d: int)
    ensures x + k * d == (x + d) + (k - 1) * d
  {
  }

  /** The length table: 10000, 1000, 100, 10 for 5 or more, 4, 3, 2; nothing otherwise. */
  function RunValue(count: int): (v: int)
    ensures 0 <= v <= 10000
    ensures v == 0 <==> count <= 1
  {
    if count >= 5 then 10000
    else if count == 4 then 1000
    else if count == 3 then 100
    else if count == 2 then 10
    else 0
  }

  /** The value `v` of a run of `p`'s with the sign `evaluate` gives it:
      positive for `Me`, negative otherwise. */
  function Signed(v: int, p: Player): int {
    if p == Me then v else -v
  }

  /** Contribution of the run of the occupied cell (`x`, `y`) in direction `d`:
      nothing when the predecessor cell has the same owner. */
  function DirectionScore(g: Grid, w: int, h: int, x: int, y: int, d: int): int
    requires Shaped(g, w, h) && OnBoard(w, h, Move(x, y)) && 0 <= d < 4
  {
    DirectionTable(d);
    var p := g[x][y];
    var prevX, prevY := x - DX[d], y - DY[d];
    if OnBoard(w, h, Move(prevX, prevY)) && g[prevX][prevY] == p then 0
    else Signed(RunValue(RunLength(g, w, h, x, y, DX[d], DY[d], p)), p)
  }

  /** Sum of the first `k` direction contributions of (`x`, `y`). */
  function DirectionsScore(g: Grid, w: int, h: int, x: int, y: int, k: int): int
    requires Shaped(g, w, h) && OnBoard(w, h, Move(x, y)) && 0 <= k <= 4
    decreases k
  {
    if k == 0 then 0 else DirectionsScore(g, w, h, x, y, k - 1) + DirectionScore(g, w, h, x, y, k - 1)
  }

  /** Contribution of one cell: nothing for an empty cell. */
  function CellScore(g: Grid, w: int, h: int, x: int, y: int): int
    requires Shaped(g, w, h) && OnBoard(w, h, Move(x, y))
  {
    if g[x][y] == None then 0 else DirectionsScore(g, w, h, x, y, 4)
  }

  /** One direction counts at most a five-run, with its owner's sign. */
  lemma DirectionScoreSign(g: Grid, w: int, h: int, x: int, y: int, d: int)
    requires Shaped(g, w, h) && OnBoard(w, h, Move(x, y)) && 0 <= d < 4
    ensures g[x][y] == Me ==> 0 <= DirectionScore(g, w, h, x, y, d) <= 10000
    ensures g[x][y] == Opponent ==> -10000 <= DirectionScore(g, w, h, x, y, d) <= 0
  {
  }

  lemma {:induction false} DirectionsScoreSign(g: Grid, w: int, h: int, x: int, y: int, k: int)
    requires Shaped(g, w, h) && OnBoard(w, h, Move(x, y)) && 0 <= k <= 4
    ensures g[x][y] == Me ==> 0 <= DirectionsScore(g, w, h, x, y, k) <= 10000 * k
    ensures g[x][y] == Opponent ==> -10000 * k <= DirectionsScore(g, w, h, x, y, k) <= 0
    decreases k
  {
    if k > 0 {
      DirectionsScoreSign(g, w, h, x, y, k - 1);
      DirectionScoreSign(g, w, h, x, y, k - 1);
    }
  }

  /** A cell contributes nothing when empty, and otherwise at most four
      five-runs' worth with its owner's sign. */
  lemma CellScoreSign(g: Grid, w: int, h: int, x: int, y: int)
    requires Shaped(g, w, h) && OnBoard(w, h, Move(x, y))
    ensures g[x][y] == None ==> CellScore(g, w, h, x, y) == 0
    ensures g[x][y] == Me ==> 0 <= CellScore(g, w, h, x, y) <= 40000
    ensures g[x][y] == Opponent ==> -40000 <= CellScore(g, w, h, x, y) <= 0
  {
    DirectionsScoreSign(g, w, h, x, y, 4);
  }

  /** No cell of `g` holds `p`. */
  predicate NoStoneOf(g: Grid, p: Player) {
    forall i, j | 0 <= i < |g| && 0 <= j < |g[i]| :: g[i][j] != p
  }

  /** Sum over the cells (`x`, 0) ... (`x`, `n` - 1). */
  function ColumnScore(g: Grid, w: int, h: int, x: int, n: int): int
    requires Shaped(g, w, h) && 0 <= x < w && 0 <= n <= h
    decreases n
  {
    if n == 0 then 0 else ColumnScore(g, w, h, x, n - 1) + CellScore(g, w, h, x, n - 1)
  }

  /** Sum over the first `k` columns. */
  function ScoreBefore(g: Grid, w: int, h: int, k: int): int
    requires Shaped(g, w, h) && 0 <= k <= w
    decreases k
  {
    if k == 0 then 0 else ScoreBefore(g, w, h, k - 1) + ColumnScore(g, w, h, k - 1, h)
  }

  /** The value `evaluate` returns, from `Me`'s point of view: never
      negative without `Opponent` stones, never positive without `Me` stones. */
  function Evaluate(g: Grid, w: int, h: int): (r: int)
    requires Shaped(g, w, h)
    ensures NoStoneOf(g, Opponent) ==> r >= 0
    ensures NoStoneOf(g, Me) ==> r <= 0
  {
    ScoreBeforeSign(g, w, h, w);
    ScoreBefore(g, w, h, w)
  }

  /** A column's total has the sign of the only colour on the board. */
  lemma {:induction false} ColumnScoreSign(g: Grid, w: int, h: int, x: int, n: int)
    requires Shaped(g, w, h) && 0 <= x < w && 0 <= n <= h
    ensures NoStoneOf(g, Opponent) ==> ColumnScore(g, w, h, x, n) >= 0
    ensures NoStoneOf(g, Me) ==> ColumnScore(g, w, h, x, n) <= 0
    decreases n
  {
    if n > 0 {
      ColumnScoreSign(g, w, h, x, n - 1);
      CellScoreSign(g, w, h, x, n - 1);
    }
  }

  /** The total over the first `k` columns has the sign of the only colour
      on the board. */
  lemma {:induction false} ScoreBeforeSign(g: Grid, w: int, h: int, k: int)
    requires Shaped(g, w, h) && 0 <= k <= w
    ensures NoStoneOf(g, Opponent) ==> ScoreBefore(g, w, h, k) >= 0
    ensures NoStoneOf(g, Me) ==> ScoreBefore(g, w, h, k) <= 0
    decreases k
  {
    if k > 0 {
      ScoreBeforeSign(g, w, h, k - 1);
      ColumnScoreSign(g, w, h, k - 1, h);
    }
  }

  // ----- an empty board scores nothing -----

  lemma {:induction false} EmptyColumnScore(g: Grid, w: int, h: int, x: int, n: int)
    requires Shaped(g, w, h) && AllEmpty(g) && 0 <= x < w && 0 <= n <= h
    ensures ColumnScore(g, w, h, x, n) == 0
    decreases n
  {
    if n > 0 {
      EmptyColumnScore(g, w, h, x, n - 1);
    }
  }

  lemma {:induction false} EmptyScoreBefore(g: Grid, w: int, h: int, k: int)
    requires Shaped(g, w, h) && AllEmpty(g) && 0 <= k <= w
    ensures ScoreBefore(g, w, h, k) == 0
    decreases k
  {
    if k > 0 {
      EmptyScoreBefore(g, w, h, k - 1);
      EmptyColumnScore(g, w, h, k - 1, h);
    }
  }

  /** An all-empty board evaluates to 0. */
  lemma EvaluateEmpty(g: Grid, w: int, h: int)
    requires Shaped(g, w, h) && AllEmpty(g)
    ensures Evaluate(g, w, h) == 0
  {
    EmptyScoreBefore(g, w, h, w);
  }

  // ----- exchanging the players negates the evaluation -----

  /** The board with every `Me` and `Opponent` stone exchanged. */
  function Swapped(g: Grid): (r: Grid)
    ensures |r| == |g| && forall i | 0 <= i < |g| :: |r[i]| == |g[i]|
    ensures forall i, j | 0 <= i < |g| && 0 <= j < |g[i]| :: r[i][j] == Swap(g[i][j])
  {
    seq(|g|, i requires 0 <= i < |g| => seq(|g[i]|, j requires 0 <= j < |g[i]| => Swap(g[i][j])))
  }

  lemma {:induction false} SwappedRunLength(g: Grid, w: int, h: int, x: int, y: int, dx: int, dy: int, p: Player)
    requires Shaped(g, w, h) && IsDirection(dx, dy)
    ensures Shaped(Swapped(g), w, h)
    ensures RunLength(Swapped(g), w, h, x, y, dx, dy, Swap(p)) == RunLength(g, w, h, x, y, dx, dy, p)
    decreases if dx == 1 then w - x else h - y
  {
    if OnBoard(w, h, Move(x, y)) {
      SwapInvolution(g[x][y]);
      SwapInvolution(p);
      if g[x][y] == p {
        SwappedRunLength(g, w, h, x + dx, y + dy, dx, dy, p);
      }
    }
  }

  lemma SwappedDirectionScore(g: Grid, w: int, h: int, x: int, y: int, d: int)
    requires Shaped(g, w, h) && OnBoard(w, h, Move(x, y)) && 0 <= d < 4 && g[x][y] != None
    ensures Shaped(Swapped(g), w, h)
    ensures DirectionScore(Swapped(g), w, h, x, y, d) == -DirectionScore(g, w, h, x, y, d)
  {
    DirectionTable(d);
    var p := g[x][y];
    var prevX, prevY := x - DX[d], y - DY[d];
    if OnBoard(w, h, Move(prevX, prevY)) {
      SwapInvolution(g[prevX][prevY]);
      SwapInvolution(p);
    }
    SwappedRunLength(g, w, h, x, y, DX[d], DY[d], p);
  }

  lemma {:induction false} SwappedDirectionsScore(g: Grid, w: int, h: int, x: int, y: int, k: int)
    requires Shaped(g, w, h) && OnBoard(w, h, Move(x, y)) && 0 <= k <= 4 && g[x][y] != None
    ensures Shaped(Swapped(g), w, h)
    ensures DirectionsScore(Swapped(g), w, h, x, y, k) == -DirectionsScore(g, w, h, x, y, k)
    decreases k
  {
    if k > 0 {
      SwappedDirectionsScore(g, w, h, x, y, k - 1);
      SwappedDirectionScore(g, w, h, x, y, k - 1);
    }
  }

  lemma {:induction false} SwappedColumnScore(g: Grid, w: int, h: int, x: int, n: int)
    requires Shaped(g, w, h) && 0 <= x < w && 0 <= n <= h
    ensures Shaped(Swapped(g), w, h)
    ensures ColumnScore(Swapped(g), w, h, x, n) == -ColumnScore(g, w, h, x, n)
    decreases n
  {
    if n > 0 {
      SwappedColumnScore(g, w, h, x, n - 1);
      if g[x][n - 1] != None {
        SwappedDirectionsScore(g, w, h, x, n - 1, 4);
      }
    }
  }

  lemma {:induction false} SwappedScoreBefore(g: Grid, w: int, h: int, k: int)
    requires Shaped(g, w, h) && 0 <= k <= w
    ensures Shaped(Swapped(g), w, h)
    ensures ScoreBefore(Swapped(g), w, h, k) == -ScoreBefore(g, w, h, k)
    decreases k
  {
    if k > 0 {
      SwappedScoreBefore(g, w, h, k - 1);
      SwappedColumnScore(g, w, h, k - 1, h);
    }
  }

  /** Exchanging `Me` and `Opponent` on every cell negates the evaluation. */
  lemma EvaluateSwapped(g: Grid, w: int, h: int)
    requires Shaped(g, w, h)
    ensures Shaped(Swapped(g), w, h)
    ensures Evaluate(Swapped(g), w, h) == -Evaluate(g, w, h)
  {
    SwappedScoreBefore(g, w, h, w);
  }
}
