/** The `Gomoku` engine object: one mutable board `_board` indexed
    `[x][y]`, its dimensions, the opening flag, the "initialized" flag and
    four advisory INFO parameters. Each method is proved against the value
    model of the modules `Grid`, `MoveGen`, `Evaluation` and `Search`. */
module Engine {
  import opened Macro
  import opened Grid
  import opened MoveGen
  import opened Evaluation
  import opened Search

  /** C++ `n / 2`, which truncates toward zero. */
  function HalfTowardZero(n: int): (r: int)
    ensures 0 <= n ==> 0 <= n - 2 * r <= 1
    ensures n < 0 ==> 0 <= 2 * r - n <= 1
  {
    if n >= 0 then n / 2 else -((-n) / 2)
  }

  /** The eight-offset neighbour test of `generateMoves` on cell (`x`, `y`):
      `dx` and `dy` run from -1 to 1, (0, 0) is skipped, and both loops stop
      at the first occupied neighbour. */
  method NeighbourTest(g: Grid, w: int, h: int, x: int, y: int) returns (hasNeighbor: bool)
    requires Shaped(g, w, h) && w == h
    ensures hasNeighbor == HasNeighbour(g, w, h, x, y)
  {
    hasNeighbor := false;
    var dx := -1;
    while dx <= 1
      invariant -1 <= dx <= 2
      invariant !hasNeighbor && !ColumnsBefore(g, w, h, x, y, dx)
    {
      var dy := -1;
      while dy <= 1
        invariant -1 <= dy <= 2
        invariant !hasNeighbor && !ColumnBelow(g, w, h, x, y, dx, dy)
      {
        if !(dx == 0 && dy == 0) {
          if OnBoard(w, h, Move(x + dx, y + dy)) && g[y + dy][x + dx] != None {
            hasNeighbor := true;
            break;
          }
        }
        dy := dy + 1;
      }
      if hasNeighbor {
        assert OffNeighbourAt(g, w, h, x, y, dx, dy);
        break;
      }
      dx := dx + 1;
    }
    AllColumnsMeansHasNeighbour(g, w, h, x, y);
  }

  /** The walk of `evaluate` along direction (`dx`, `dy`) from (`x`, `y`):
      counts the consecutive cells of `currentPlayer`. */
  method RunWalk(g: Grid, w: int, h: int, x: int, y: int, dx: int, dy: int, currentPlayer: Player) returns (count: nat)
    requires Shaped(g, w, h) && IsDirection(dx, dy)
    ensures count == RunLength(g, w, h, x, y, dx, dy, currentPlayer)
  {
    count := 0;
    var currX, currY := x, y;
    while OnBoard(w, h, Move(currX, currY)) && g[currX][currY] == currentPlayer
      invariant count + RunLength(g, w, h, currX, currY, dx, dy, currentPlayer) == RunLength(g, w, h, x, y, dx, dy, currentPlayer)
      decreases if dx == 1 then w - currX else h - currY
    {
      count := count + 1;
      currX := currX + dx;
      currY := currY + dy;
    }
  }

  /** The direction loop of `evaluate` for the occupied cell (`x`, `y`): each
      run that starts there adds its value to `score`, signed by its owner. */
  method AddCellRuns(g: Grid, w: int, h: int, x: int, y: int, score0: int) returns (score: int)
    requires Shaped(g, w, h) && OnBoard(w, h, Move(x, y)) && g[x][y] != None
    ensures score == score0 + CellScore(g, w, h, x, y)
  {
    score := score0;
    var currentPlayer := g[x][y];
    var multiplicator := if currentPlayer == Me then 1 else -1;
    var dir := 0;
    while dir < 4
      invariant 0 <= dir <= 4
      invariant score == score0 + DirectionsScore(g, w, h, x, y, dir)
    {
      DirectionTable(dir);
      ghost var sc := score;
      var prevX := x - DX[dir];
      var prevY := y - DY[dir];
      if !(OnBoard(w, h, Move(prevX, prevY)) && g[prevX][prevY] == currentPlayer) {
        var count := RunWalk(g, w, h, x, y, DX[dir], DY[dir], currentPlayer);
        if count >= 5 {
          score := score + 10000 * multiplicator;
        } else if count == 4 {
          score := score + 1000 * multiplicator;
        } else if count == 3 {
          score := score + 100 * multiplicator;
        } else if count == 2 {
          score := score + 10 * multiplicator;
        }
        assert score == sc + Signed(RunValue(count), currentPlayer);
      }
      assert score == sc + DirectionScore(g, w, h, x, y, dir);
      dir := dir + 1;
    }
  }

  /** The fields of a `Gomoku` object as one value, so that what a command
      does can be stated as the state it leaves given the state it found. */
  datatype EngineState = EngineState(board: Grid, width: int, height: int, begin: bool, initialized: bool,
                                     timeoutTurn: int, timeoutMatch: int, maxMemory: int, timeLeft: int)

  class Gomoku {
    var board: Grid
    var width: int
    var height: int
    var begin: bool
    var initialized: bool
    var timeoutTurn: int
    var timeoutMatch: int
    var maxMemory: int
    var timeLeft: int

    /** The board has `width` columns of `height` cells. Every operation
        that reads the board needs it; only `SetWidth` and `SetHeight` can
        break it. */
    ghost predicate Valid()
      reads this`board, this`width, this`height
    {
      Shaped(board, width, height)
    }

    /** Every field of the object, as a value. */
    ghost function State(): EngineState
      reads this
    {
      EngineState(board, width, height, begin, initialized, timeoutTurn, timeoutMatch, maxMemory, timeLeft)
    }

    constructor ()
      ensures width == 0 && height == 0 && !begin && !initialized
      ensures timeoutTurn == 0 && timeoutMatch == 0 && maxMemory == 0 && timeLeft == 0
      ensures board == [] && Valid()
    {
      board := [];
      width, height := 0, 0;
      begin, initialized := false, false;
      timeoutTurn, timeoutMatch, maxMemory, timeLeft := 0, 0, 0, 0;
    }

    /** A square board of `size`; a non-positive size fails and changes nothing. */
    method Start(size: int) returns (status: int)
      modifies this`width, this`height, this`board, this`initialized
      ensures status == (if size <= 0 then FAILURE else SUCCESS)
      ensures size <= 0 ==> unchanged(this)
      ensures size > 0 ==> width == size && height == size && initialized && Valid()
      ensures size > 0 ==> board == EmptyGrid(size, size)
    {
      if size <= 0 {
        return FAILURE;
      }
      width := size;
      height := size;
      InitializeBoard();
      return SUCCESS;
    }

    /** A `w` by `h` board; a non-positive dimension fails and changes nothing. */
    method RectStart(w: int, h: int) returns (status: int)
      modifies this`width, this`height, this`board, this`initialized
      ensures status == (if w <= 0 || h <= 0 then FAILURE else SUCCESS)
      ensures (w <= 0 || h <= 0) ==> unchanged(this)
      ensures w > 0 && h > 0 ==> width == w && height == h && initialized && Valid()
      ensures w > 0 && h > 0 ==> board == EmptyGrid(w, h)
    {
      if w <= 0 || h <= 0 {
        return FAILURE;
      }
      width := w;
      height := h;
      InitializeBoard();
      return SUCCESS;
    }

    /** Empties the board, keeping its dimensions and the opening flag. */
    method Restart()
      requires width >= 0 && height >= 0
      modifies this`board, this`initialized
      ensures board == EmptyGrid(width, height) && initialized && Valid()
    {
      board := [];
      InitializeBoard();
    }

    /** Allocates `width` columns of `height` empty cells. (A negative
        dimension makes the C++ allocation throw; it is excluded.) */
    method InitializeBoard()
      requires width >= 0 && height >= 0
      modifies this`board, this`initialized
      ensures board == EmptyGrid(width, height) && initialized && Valid()
    {
      board := EmptyGrid(width, height);
      initialized := true;
    }

    /** The bounds test; on a valid board it says exactly that the cell exists. */
    predicate IsOnBoard(m: Move)
      reads this
      ensures Valid() ==> (IsOnBoard(m) <==> 0 <= m.x < |board| && 0 <= m.y < |board[m.x]|)
    {
      OnBoard(width, height, m)
    }

    /** A move may be played: on the board and on an empty cell. */
    predicate IsValid(m: Move)
      reads this
      requires Valid()
      ensures IsValid(m) <==> IsOnBoard(m) && board[m.x][m.y] == None
    {
      ValidMove(board, width, height, m)
    }

    /** Writes `p` at `m` when `m` is valid, otherwise does nothing. */
    method UpdateBoard(m: Move, p: Player)
      requires Valid()
      modifies this`board
      ensures Valid()
      ensures board == Update(old(board), width, height, m, p)
      ensures old(IsValid(m)) ==> board[m.x][m.y] == p
      ensures !old(IsValid(m)) ==> board == old(board)
    {
      if IsValid(m) {
        board := Set(board, m.x, m.y, p);
      }
    }

    /** `generateMoves`: scans the board column by column and keeps every
        occupied cell that passes the neighbour test. */
    method GenerateMoves() returns (moves: seq<Move>)
      requires Valid() && width == height
      ensures moves == Candidates(board, width, height)
    {
      moves := [];
      var x := 0;
      while x < width
        invariant 0 <= x <= width
        invariant moves == ScannedBefore(board, width, height, x, 0)
      {
        var y := 0;
        while y < height
          invariant 0 <= y <= height
          invariant moves == ScannedBefore(board, width, height, x, y)
        {
          if board[x][y] != None {
            var hasNeighbor := NeighbourTest(board, width, height, x, y);
            if hasNeighbor {
              moves := moves + [Move(x, y)];
            }
          }
          y := y + 1;
        }
        x := x + 1;
      }
    }

    /** The evaluation loop: every run start in every direction, scored by
        length and signed by its owner. */
    method Evaluate() returns (score: int)
      requires Valid()
      ensures score == Evaluation.Evaluate(board, width, height)
    {
      score := 0;
      var x := 0;
      while x < width
        invariant 0 <= x <= width
        invariant score == ScoreBefore(board, width, height, x)
      {
        var y := 0;
        while y < height
          invariant 0 <= y <= height
          invariant score == ScoreBefore(board, width, height, x) + ColumnScore(board, width, height, x, y)
        {
          if board[x][y] != None {
            score := AddCellRuns(board, width, height, x, y, score);
          }
          y := y + 1;
        }
        x := x + 1;
      }
    }

    /** Negamax with alpha-beta pruning, as written: each candidate is
        overwritten with `player`'s stone, searched, and set to `None`. */
    method Negamax(depth: nat, alpha: int, beta: int, player: Player) returns (value: int)
      requires Valid() && width == height
      modifies this`board
      ensures Valid()
      ensures Outcome(value, board) == Search.Negamax(old(board), width, height, depth, alpha, beta, player)
      decreases depth, 2
    {
      if depth == 0 {
        var e := Evaluate();
        return if player == Me then e else -e;
      }
      var moves := GenerateMoves();
      if |moves| == 0 {
        var e := Evaluate();
        return if player == Me then e else -e;
      }
      value := ExploreMoves(depth, alpha, beta, player, moves);
      ExploreLoopIsMaximum(old(board), width, height, depth, alpha, beta, player, moves, 0, INT_MIN);
    }

    /** The candidate loop of `negamax`: tries the moves in order, keeps the
        best value and raises alpha, and stops once alpha reaches beta. */
    method ExploreMoves(depth: nat, alpha: int, beta: int, player: Player, moves: seq<Move>) returns (bestValue: int)
      requires Valid() && width == height && depth >= 1 && AllOnBoard(width, height, moves)
      modifies this`board
      ensures Valid()
      ensures Outcome(bestValue, board) == ExploreLoop(old(board), width, height, depth, alpha, beta, player, moves, 0, INT_MIN)
      decreases depth, 1
    {
      ghost var g0, w, h := board, width, height;
      bestValue := INT_MIN;
      var a := alpha;
      var i := 0;
      while i < |moves|
        invariant 0 <= i <= |moves| && Valid()
        invariant ExploreLoop(board, w, h, depth, a, beta, player, moves, i, bestValue) ==
                  ExploreLoop(g0, w, h, depth, alpha, beta, player, moves, 0, INT_MIN)
      {
        ghost var before, a0, b0 := board, a, bestValue;
        var val := TryMove(depth, a, beta, player, moves[i]);
        if val > bestValue {
          bestValue := val;
        }
        if val > a {
          a := val;
        }
        assert bestValue == Max(b0, val) && a == Max(a0, val);
        if a >= beta {
          break;
        }
        i := i + 1;
      }
    }

    /** The body of the candidate loop of `negamax` for `m`: write
        `player`, search one ply deeper for the other player with the window
        (-beta, -alpha), write `None` back, and negate the child's value. */
    method TryMove(depth: nat, alpha: int, beta: int, player: Player, m: Move) returns (value: int)
      requires Valid() && width == height && depth >= 1 && IsOnBoard(m)
      modifies this`board
      ensures Valid()
      ensures Outcome(value, board) == Step(old(board), width, height, depth, alpha, beta, player, m)
      decreases depth, 0
    {
      ghost var g := board;
      board := Set(board, m.x, m.y, player);
      var child := Negamax(depth - 1, -beta, -alpha, NextPlayer(player));
      ghost var searched := board;
      value := -child;
      board := Set(board, m.x, m.y, None);
      assert Step(g, width, height, depth, alpha, beta, player, m) == Outcome(-child, Set(searched, m.x, m.y, None));
    }

    /** The move the engine plays: the centre on the opening move (not
        written to the board), otherwise the first candidate of strictly
        greatest root value, written as `Me` when its cell is empty. */
    method GetBestMove() returns (move: Move)
      requires begin || (Valid() && width == height && Candidates(board, width, height) != [])
      modifies this`board, this`begin
      ensures !begin
      ensures old(begin) ==> board == old(board) && move == Move(HalfTowardZero(width), HalfTowardZero(height))
      ensures !old(begin) ==> Valid() && Choice(move, board) == RootSearch(old(board), width, height)
    {
      if begin {
        begin := false;
        return Move(HalfTowardZero(width), HalfTowardZero(height));
      }
      move := SearchBestMove();
    }

    /** The search branch of `getBestMove`: a depth-3 search of every
        candidate with no undo of the root stone, then `updateBoard` of the
        chosen move. */
    method SearchBestMove() returns (move: Move)
      requires Valid() && width == height && Candidates(board, width, height) != []
      modifies this`board
      ensures Valid() && Choice(move, board) == RootSearch(old(board), width, height)
    {
      var moves := GenerateMoves();
      var bestMove := moves[0];
      var bestValue := INT_MIN;
      var alpha := INT_MIN;
      var beta := INT_MAX;
      var maxDepth := 3;
      ghost var g0, w, h := board, width, height;
      ghost var bestIndex := 0;
      var i := 0;
      while i < |moves|
        invariant 0 <= i <= |moves| && Valid()
        invariant moves == Candidates(g0, w, h) && AllOnBoard(w, h, moves)
        invariant bestIndex < |moves| && bestMove == moves[bestIndex]
        invariant RootLoop(board, w, h, moves, i, alpha, bestValue, bestIndex) ==
                  RootLoop(g0, w, h, moves, 0, INT_MIN, INT_MIN, 0)
      {
        var val := TryRootMove(maxDepth - 1, alpha, beta, moves[i]);
        if val > bestValue {
          bestValue := val;
          bestMove := moves[i];
          bestIndex := i;
        }
        ghost var alpha0 := alpha;
        if val > alpha {
          alpha := val;
        }
        assert alpha == Max(alpha0, val);
        i := i + 1;
      }
      ghost var vals := RootValues(g0, w, h);
      RootLoopPicksBestIndex(g0, w, h, moves, 0, INT_MIN, INT_MIN, 0, vals);
      UpdateBoard(bestMove, Me);
      return bestMove;
    }

    /** The body of the loop of `getBestMove` for `m`: write `Me`, search
        for the opponent with the window (-beta, -alpha), negate the value;
        the stone is left on the board. */
    method TryRootMove(depth: nat, alpha: int, beta: int, m: Move) returns (value: int)
      requires Valid() && width == height && IsOnBoard(m) && depth == 2 && beta == INT_MAX
      modifies this`board
      ensures Valid()
      ensures Outcome(value, board) == RootStep(old(board), width, height, alpha, m)
    {
      board := Set(board, m.x, m.y, Me);
      var reply := Negamax(depth, -beta, -alpha, Opponent);
      value := -reply;
    }

    method SetWidth(w: int)
      modifies this`width
      ensures width == w && GetWidth() == w
    {
      width := w;
    }

    method SetHeight(h: int)
      modifies this`height
      ensures height == h && GetHeight() == h
    {
      height := h;
    }

    method SetInitialized(b: bool)
      modifies this`initialized
      ensures IsInitialized() == b
    {
      initialized := b;
    }

    function IsInitialized(): bool
      reads this
    {
      initialized
    }

    function GetWidth(): int
      reads this
    {
      width
    }

    function GetHeight(): int
      reads this
    {
      height
    }

    method SetTimeoutTurn(v: int)
      modifies this`timeoutTurn
      ensures GetTimeoutTurn() == v
    {
      timeoutTurn := v;
    }

    method SetTimeoutMatch(v: int)
      modifies this`timeoutMatch
      ensures GetTimeoutMatch() == v
    {
      timeoutMatch := v;
    }

    method SetMaxMemory(v: int)
      modifies this`maxMemory
      ensures GetMaxMemory() == v
    {
      maxMemory := v;
    }

    method SetTimeLeft(v: int)
      modifies this`timeLeft
      ensures GetTimeLeft() == v
    {
      timeLeft := v;
    }

    function GetTimeoutTurn(): int
      reads this`timeoutTurn
    {
      timeoutTurn
    }

    function GetTimeoutMatch(): int
      reads this`timeoutMatch
    {
      timeoutMatch
    }

    function GetMaxMemory(): int
      reads this`maxMemory
    {
      maxMemory
    }

    function GetTimeLeft(): int
      reads this`timeLeft
    {
      timeLeft
    }

    method SetBegin(b: bool)
      modifies this`begin
      ensures begin == b
    {
      begin := b;
    }
  }
}
