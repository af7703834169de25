/** The board as a value: a sequence of columns indexed `[x][y]`, as the
    engine's vector of vectors is, together with the bounds test, the
    validity test and the two ways the engine writes a cell. */
module Grid {
  import opened Macro

  type Grid = seq<seq<Player>>

  /** `g` has `w` columns of `h` cells each. */
  predicate Shaped(g: Grid, w: int, h: int) {
    h >= 0 && |g| == w && forall i | 0 <= i < |g| :: |g[i]| == h
  }

  /** Every cell of `g` is empty. */
  predicate AllEmpty(g: Grid) {
    forall i, j | 0 <= i < |g| && 0 <= j < |g[i]| :: g[i][j] == None
  }

  /** The board that `initializeBoard` allocates: `w` columns of `h` empty cells. */
  function EmptyGrid(w: nat, h: nat): (g: Grid)
    ensures Shaped(g, w, h)
    ensures AllEmpty(g)
  {
    seq(w, _ => seq(h, _ => None))
  }

  /** The bounds test shared by `isOnBoard` and `isValid`. */
  predicate OnBoard(w: int, h: int, m: Move) {
    m.x >= 0 && m.x < w && m.y >= 0 && m.y < h
  }

  /** A move may be played: it is on the board and its cell is empty. */
  predicate ValidMove(g: Grid, w: int, h: int, m: Move)
    requires Shaped(g, w, h)
  {
    m.x >= 0 && m.x < w && m.y >= 0 && m.y < h && g[m.x][m.y] == None
  }

  /** `ValidMove` is the bounds test plus an empty cell. */
  lemma ValidMoveMeansOnBoardAndEmpty(g: Grid, w: int, h: int, m: Move)
    requires Shaped(g, w, h)
    ensures ValidMove(g, w, h, m) <==> OnBoard(w, h, m) && g[m.x][m.y] == None
  {
  }

  /** A raw write of one cell, `_board[x][y] = p`, as the search does it. */
  function Set(g: Grid, x: int, y: int, p: Player): (r: Grid)
    requires 0 <= x < |g| && 0 <= y < |g[x]|
    ensures |r| == |g| && forall i | 0 <= i < |g| :: |r[i]| == |g[i]|
    ensures r[x][y] == p
    ensures forall i, j | 0 <= i < |g| && 0 <= j < |g[i]| && (i != x || j != y) :: r[i][j] == g[i][j]
  {
    g[x := g[x][y := p]]
  }

  /** The guarded write of `updateBoard`: the cell is set only when the move is valid. */
  function Update(g: Grid, w: int, h: int, m: Move, p: Player): (r: Grid)
    requires Shaped(g, w, h)
    ensures Shaped(r, w, h)
  {
    if ValidMove(g, w, h, m) then Set(g, m.x, m.y, p) else g
  }

  /** `Update` writes `p` at `m` exactly when `m` is valid, never overwrites
      an occupied cell, and leaves every other cell as it was. */
  lemma UpdateWritesOnlyValidCell(g: Grid, w: int, h: int, m: Move, p: Player)
    requires Shaped(g, w, h)
    ensures ValidMove(g, w, h, m) ==> Update(g, w, h, m, p)[m.x][m.y] == p
    ensures !ValidMove(g, w, h, m) ==> Update(g, w, h, m, p) == g
    ensures forall i, j | 0 <= i < w && 0 <= j < h && g[i][j] != None ::
              Update(g, w, h, m, p)[i][j] == g[i][j]
    ensures forall i, j | 0 <= i < w && 0 <= j < h && (i != m.x || j != m.y) ::
              Update(g, w, h, m, p)[i][j] == g[i][j]
  {
  }

  /** `g2` arises from `g` by emptying some cells: same shape, and every
      cell is either unchanged or empty. */
  predicate ClearedFrom(g: Grid, g2: Grid) {
    |g2| == |g| &&
    (forall i | 0 <= i < |g| :: |g2[i]| == |g[i]|) &&
    forall i, j | 0 <= i < |g| && 0 <= j < |g[i]| :: g2[i][j] == g[i][j] || g2[i][j] == None
  }

  lemma ClearedFromTransitive(g1: Grid, g2: Grid, g3: Grid)
    requires ClearedFrom(g1, g2) && ClearedFrom(g2, g3)
    ensures ClearedFrom(g1, g3)
  {
  }
}
