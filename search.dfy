/** Depth-bounded negamax with alpha-beta pruning and its root driver, as
    values. Each search step writes the searching player's stone on a
    candidate cell, searches one ply deeper, and writes `None` back. Because
    the candidates are occupied cells, writing `None` back empties a cell
    that held a stone before, so a search returns both its value and the
    board it leaves behind. */
module Search {
  import opened Macro
  import opened Grid
  import opened MoveGen
  import opened Evaluation

  /** Result of `negamax`: its value and the board after the call. */
  datatype Outcome = Outcome(value: int, grid: Grid)

  /** Child values met by a loop over candidates, in order, and the board after the loop. */
  datatype Exploration = Exploration(values: seq<int>, grid: Grid)

  /** Result of the root driver: the chosen move and the board after it. */
  datatype Choice = Choice(move: Move, grid: Grid)

  /** The leaf value: the evaluation seen from `p`'s side. For `Opponent`
      it is the evaluation of the board with the colours exchanged. */
  function PerspectiveEval(g: Grid, w: int, h: int, p: Player): (r: int)
    requires Shaped(g, w, h)
    ensures Shaped(Swapped(g), w, h)
    ensures p == Opponent ==> r == Evaluate(Swapped(g), w, h)
  {
    EvaluateSwapped(g, w, h);
    if p == Me then Evaluate(g, w, h) else -Evaluate(g, w, h)
  }

  /** Running maximum of `init` and `vals`, taken left to right as the loops do. */
  function Maximum(init: int, vals: seq<int>): int
    decreases |vals|
  {
    if vals == [] then init else Maximum(Max(init, vals[0]), vals[1..])
  }

  /** `Maximum` is an upper bound of `init` and of every value, and is one of them. */
  lemma {:induction false} MaximumIsMax(init: int, vals: seq<int>)
    ensures Maximum(init, vals) >= init
    ensures forall k | 0 <= k < |vals| :: Maximum(init, vals) >= vals[k]
    ensures Maximum(init, vals) == init || Maximum(init, vals) in vals
    decreases |vals|
  {
    if vals != [] {
      MaximumIsMax(Max(init, vals[0]), vals[1..]);
      assert forall k | 1 <= k < |vals| :: vals[k] == vals[1..][k - 1];
    }
  }

  /** Taking one more value into the running maximum. */
  lemma {:induction false} MaximumSnoc(init: int, vals: seq<int>, v: int)
    ensures Maximum(init, vals + [v]) == Max(Maximum(init, vals), v)
    decreases |vals|
  {
    if vals == [] {
      assert [v][1..] == [];
    } else {
      assert (vals + [v])[1..] == vals[1..] + [v];
      MaximumSnoc(Max(init, vals[0]), vals[1..], v);
    }
  }

  /** The value and board `negamax(depth, alpha, beta, p)` produces. */
  function Negamax(g: Grid, w: int, h: int, depth: nat, alpha: int, beta: int, p: Player): (r: Outcome)
    requires Shaped(g, w, h) && w == h
    ensures Shaped(r.grid, w, h)
    decreases depth, 1, 0
  {
    if depth == 0 then Outcome(PerspectiveEval(g, w, h, p), g)
    else
      var moves := Candidates(g, w, h);
      if moves == [] then Outcome(PerspectiveEval(g, w, h, p), g)
      else
        var e := Explore(g, w, h, depth, alpha, beta, p, moves, 0);
        Outcome(Maximum(INT_MIN, e.values), e.grid)
  }

  /** One iteration of the candidate loop of `negamax` for the move `m`:
      write `p` at `m`, search the child one ply deeper with the window
      (-beta, -alpha) for the other player, and write `None` back. The value
      is the child's value negated. */
  function Step(g: Grid, w: int, h: int, depth: nat, alpha: int, beta: int, p: Player, m: Move): (r: Outcome)
    requires Shaped(g, w, h) && w == h && depth >= 1 && OnBoard(w, h, m)
    ensures Shaped(r.grid, w, h)
    decreases depth, 0, 0
  {
    var placed := Set(g, m.x, m.y, p);
    var child := Negamax(placed, w, h, depth - 1, -beta, -alpha, NextPlayer(p));
    Outcome(-child.value, Set(child.grid, m.x, m.y, None))
  }

  /** The candidate loop of `negamax` from index `i` on, with the current
      `alpha`: one `Step` per candidate, raising alpha to the value, and
      stopping once alpha reaches beta. */
  function Explore(g: Grid, w: int, h: int, depth: nat, alpha: int, beta: int, p: Player,
                   moves: seq<Move>, i: nat): (r: Exploration)
    requires Shaped(g, w, h) && w == h && depth >= 1
    requires i <= |moves| && AllOnBoard(w, h, moves)
    ensures Shaped(r.grid, w, h)
    ensures |r.values| <= |moves| - i
    decreases depth, 0, |moves| - i
  {
    if i == |moves| then Exploration([], g)
    else
      var s := Step(g, w, h, depth, alpha, beta, p, moves[i]);
      var alpha' := Max(alpha, s.value);
      if alpha' >= beta then Exploration([s.value], s.grid)
      else
        var rest := Explore(s.grid, w, h, depth, alpha', beta, p, moves, i + 1);
        Exploration([s.value] + rest.values, rest.grid)
  }

  /** The candidate loop of `negamax` as its state evolves: the board, the
      current alpha and the best value so far, from index `i` on. The result
      is the returned value and the board the loop leaves. */
  function ExploreLoop(g: Grid, w: int, h: int, depth: nat, alpha: int, beta: int, p: Player,
                       moves: seq<Move>, i: nat, best: int): Outcome
    requires Shaped(g, w, h) && w == h && depth >= 1
    requires i <= |moves| && AllOnBoard(w, h, moves)
    decreases |moves| - i
  {
    if i == |moves| then Outcome(best, g)
    else
      var s := Step(g, w, h, depth, alpha, beta, p, moves[i]);
      if Max(alpha, s.value) >= beta then Outcome(Max(best, s.value), s.grid)
      else ExploreLoop(s.grid, w, h, depth, Max(alpha, s.value), beta, p, moves, i + 1, Max(best, s.value))
  }

  /** The loop returns the running maximum of the values `Explore` lists and
      leaves the board `Explore` leaves. */
  lemma {:induction false} ExploreLoopIsMaximum(g: Grid, w: int, h: int, depth: nat, alpha: int, beta: int, p: Player,
                                                moves: seq<Move>, i: nat, best: int)
    requires Shaped(g, w, h) && w == h && depth >= 1
    requires i <= |moves| && AllOnBoard(w, h, moves)
    ensures var e := Explore(g, w, h, depth, alpha, beta, p, moves, i);
            ExploreLoop(g, w, h, depth, alpha, beta, p, moves, i, best) == Outcome(Maximum(best, e.values), e.grid)
    decreases |moves| - i
  {
    if i < |moves| {
      var s := Step(g, w, h, depth, alpha, beta, p, moves[i]);
      if Max(alpha, s.value) >= beta {
        assert [s.value][1..] == [];
      } else {
        var rest := Explore(s.grid, w, h, depth, Max(alpha, s.value), beta, p, moves, i + 1);
        ExploreLoopIsMaximum(s.grid, w, h, depth, Max(alpha, s.value), beta, p, moves, i + 1, Max(best, s.value));
        assert ([s.value] + rest.values)[1..] == rest.values;
      }
    }
  }

  // ----- properties of negamax -----

  /** A search only ever empties cells: every cell of the board it leaves
      is the cell it was handed or `None`. */
  lemma {:induction false} NegamaxClears(g: Grid, w: int, h: int, depth: nat, alpha: int, beta: int, p: Player)
    requires Shaped(g, w, h) && w == h
    ensures ClearedFrom(g, Negamax(g, w, h, depth, alpha, beta, p).grid)
    decreases depth, 1, 0
  {
    if depth > 0 && Candidates(g, w, h) != [] {
      ExploreClears(g, w, h, depth, alpha, beta, p, Candidates(g, w, h), 0);
    }
  }

  /** One step only empties cells, and it leaves its own cell empty. */
  lemma {:induction false} StepClears(g: Grid, w: int, h: int, depth: nat, alpha: int, beta: int, p: Player, m: Move)
    requires Shaped(g, w, h) && w == h && depth >= 1 && OnBoard(w, h, m)
    ensures ClearedFrom(g, Step(g, w, h, depth, alpha, beta, p, m).grid)
    ensures Step(g, w, h, depth, alpha, beta, p, m).grid[m.x][m.y] == None
    decreases depth, 0, 0
  {
    var placed := Set(g, m.x, m.y, p);
    NegamaxClears(placed, w, h, depth - 1, -beta, -alpha, NextPlayer(p));
  }

  lemma {:induction false} ExploreClears(g: Grid, w: int, h: int, depth: nat, alpha: int, beta: int, p: Player,
                                         moves: seq<Move>, i: nat)
    requires Shaped(g, w, h) && w == h && depth >= 1
    requires i <= |moves| && AllOnBoard(w, h, moves)
    ensures ClearedFrom(g, Explore(g, w, h, depth, alpha, beta, p, moves, i).grid)
    decreases depth, 0, |moves| - i
  {
    if i < |moves| {
      var s := Step(g, w, h, depth, alpha, beta, p, moves[i]);
      StepClears(g, w, h, depth, alpha, beta, p, moves[i]);
      var alpha' := Max(alpha, s.value);
      if alpha' < beta {
        var rest := Explore(s.grid, w, h, depth, alpha', beta, p, moves, i + 1);
        ExploreClears(s.grid, w, h, depth, alpha', beta, p, moves, i + 1);
        ClearedFromTransitive(g, s.grid, rest.grid);
      }
    }
  }

  /** At depth 0, or when no candidate is generated, the value is the
      evaluation from the mover's side and the board is untouched. */
  lemma NegamaxLeaf(g: Grid, w: int, h: int, depth: nat, alpha: int, beta: int, p: Player)
    requires Shaped(g, w, h) && w == h
    requires depth == 0 || Candidates(g, w, h) == []
    ensures Negamax(g, w, h, depth, alpha, beta, p) == Outcome(PerspectiveEval(g, w, h, p), g)
  {
  }

  /** With candidates to explore, at least one child is searched and the
      value is the largest negated child value among those searched. */
  lemma NegamaxValueIsBestChild(g: Grid, w: int, h: int, depth: nat, alpha: int, beta: int, p: Player)
    requires Shaped(g, w, h) && w == h
    requires depth >= 1 && Candidates(g, w, h) != []
    ensures var e := Explore(g, w, h, depth, alpha, beta, p, Candidates(g, w, h), 0);
            var v := Negamax(g, w, h, depth, alpha, beta, p).value;
            1 <= |e.values| &&
            (forall k | 0 <= k < |e.values| :: v >= e.values[k]) &&
            (v in e.values || v == INT_MIN)
  {
    var moves := Candidates(g, w, h);
    var e := Explore(g, w, h, depth, alpha, beta, p, moves, 0);
    ExploreCutoff(g, w, h, depth, alpha, beta, p, moves, 0);
    MaximumIsMax(INT_MIN, e.values);
  }

  /** The loop searches children until the running alpha first reaches
      beta: before the last searched child alpha stays below beta, and the
      loop ends early only when it has reached beta. */
  lemma {:induction false} ExploreCutoff(g: Grid, w: int, h: int, depth: nat, alpha: int, beta: int, p: Player,
                                         moves: seq<Move>, i: nat)
    requires Shaped(g, w, h) && w == h && depth >= 1
    requires i <= |moves| && AllOnBoard(w, h, moves)
    ensures var e := Explore(g, w, h, depth, alpha, beta, p, moves, i);
            (i < |moves| ==> 1 <= |e.values|) &&
            (forall k | 1 <= k < |e.values| :: Maximum(alpha, e.values[..k]) < beta) &&
            (|e.values| < |moves| - i ==> Maximum(alpha, e.values) >= beta)
    decreases |moves| - i
  {
    if i < |moves| {
      var s := Step(g, w, h, depth, alpha, beta, p, moves[i]);
      var alpha' := Max(alpha, s.value);
      var e := Explore(g, w, h, depth, alpha, beta, p, moves, i);
      assert Maximum(alpha, [s.value]) == alpha' by {
        assert [s.value][1..] == [];
      }
      if alpha' < beta {
        var rest := Explore(s.grid, w, h, depth, alpha', beta, p, moves, i + 1);
        ExploreCutoff(s.grid, w, h, depth, alpha', beta, p, moves, i + 1);
        assert e.values == [s.value] + rest.values;
        forall k | 1 <= k < |e.values|
          ensures Maximum(alpha, e.values[..k]) < beta
        {
          assert e.values[..k][1..] == rest.values[..k - 1];
          assert e.values[..k][0] == s.value;
        }
        if |e.values| < |moves| - i {
          assert e.values[1..] == rest.values;
        }
      } else {
        assert e.values == [s.value];
      }
    }
  }

  /** The search empties the cell of the first candidate, which held a
      stone: it does not give back the board it was handed. */
  lemma NegamaxErasesFirstCandidate(g: Grid, w: int, h: int, depth: nat, alpha: int, beta: int, p: Player)
    requires Shaped(g, w, h) && w == h
    requires depth >= 1 && Candidates(g, w, h) != []
    ensures var m := Candidates(g, w, h)[0];
            OnBoard(w, h, m) && g[m.x][m.y] != None &&
            Negamax(g, w, h, depth, alpha, beta, p).grid[m.x][m.y] == None
  {
    var moves := Candidates(g, w, h);
    var m := moves[0];
    CandidateIsOccupied(g, w, h, 0);
    var s := Step(g, w, h, depth, alpha, beta, p, m);
    StepClears(g, w, h, depth, alpha, beta, p, m);
    var alpha' := Max(alpha, s.value);
    if alpha' < beta {
      var rest := Explore(s.grid, w, h, depth, alpha', beta, p, moves, 1);
      ExploreClears(s.grid, w, h, depth, alpha', beta, p, moves, 1);
    }
  }

  // ----- the root driver -----

  /** Every cell of `g2` is the cell of `g`, empty, or `Me`. */
  predicate MeOrClearedFrom(g: Grid, g2: Grid) {
    |g2| == |g| &&
    (forall i | 0 <= i < |g| :: |g2[i]| == |g[i]|) &&
    forall i, j | 0 <= i < |g| && 0 <= j < |g[i]| :: g2[i][j] == g[i][j] || g2[i][j] == None || g2[i][j] == Me
  }

  lemma MeOrClearedFromTransitive(g1: Grid, g2: Grid, g3: Grid)
    requires MeOrClearedFrom(g1, g2) && MeOrClearedFrom(g2, g3)
    ensures MeOrClearedFrom(g1, g3)
  {
  }

  /** The cell at `m` holds `Me` or is empty. */
  predicate MeOrEmptyAt(g: Grid, m: Move)
    requires 0 <= m.x < |g| && 0 <= m.y < |g[m.x]|
  {
    g[m.x][m.y] == Me || g[m.x][m.y] == None
  }

  /** The cells of `moves[i..]` hold `Me` or are empty. */
  predicate MeOrEmptyFrom(g: Grid, w: int, h: int, moves: seq<Move>, i: nat)
    requires Shaped(g, w, h) && AllOnBoard(w, h, moves)
  {
    forall j | i <= j < |moves| :: MeOrEmptyAt(g, moves[j])
  }

  lemma MeOrEmptyFromStep(g1: Grid, g2: Grid, w: int, h: int, moves: seq<Move>, i: nat)
    requires Shaped(g1, w, h) && Shaped(g2, w, h) && AllOnBoard(w, h, moves) && i < |moves|
    requires MeOrClearedFrom(g1, g2) && MeOrEmptyAt(g1, moves[i]) && MeOrEmptyFrom(g2, w, h, moves, i + 1)
    ensures MeOrEmptyFrom(g2, w, h, moves, i)
  {
    var m := moves[i];
    assert g2[m.x][m.y] == g1[m.x][m.y] || g2[m.x][m.y] == None || g2[m.x][m.y] == Me;
  }

  /** One iteration of the loop of `getBestMove` for the move `m`: write
      `Me` at `m` (never undone) and search the reply at depth
      `maxDepth - 1 = 2` for `Opponent` with the window (-INT_MAX, -alpha).
      The value is the reply's value negated. */
  function RootStep(g: Grid, w: int, h: int, alpha: int, m: Move): (r: Outcome)
    requires Shaped(g, w, h) && w == h && OnBoard(w, h, m)
    ensures Shaped(r.grid, w, h)
  {
    var placed := Set(g, m.x, m.y, Me);
    var child := Negamax(placed, w, h, 2, -INT_MAX, -alpha, Opponent);
    Outcome(-child.value, child.grid)
  }

  /** The loop of `getBestMove` from index `i` on, raising alpha to each
      value; there is no cutoff. */
  function RootExplore(g: Grid, w: int, h: int, moves: seq<Move>, i: nat, alpha: int): (r: Exploration)
    requires Shaped(g, w, h) && w == h
    requires i <= |moves| && AllOnBoard(w, h, moves)
    ensures Shaped(r.grid, w, h)
    ensures |r.values| == |moves| - i
    decreases |moves| - i
  {
    if i == |moves| then Exploration([], g)
    else
      var s := RootStep(g, w, h, alpha, moves[i]);
      var rest := RootExplore(s.grid, w, h, moves, i + 1, Max(alpha, s.value));
      Exploration([s.value] + rest.values, rest.grid)
  }

  /** The loop of `getBestMove` as its state evolves: the board, alpha, the
      best value so far and the index of the best move so far. The result is
      the best move and the board before `updateBoard`. */
  function RootLoop(g: Grid, w: int, h: int, moves: seq<Move>, i: nat, alpha: int, bestValue: int, best: nat): Choice
    requires Shaped(g, w, h) && w == h
    requires i <= |moves| && AllOnBoard(w, h, moves) && best < |moves|
    decreases |moves| - i
  {
    if i == |moves| then Choice(moves[best], g)
    else
      var s := RootStep(g, w, h, alpha, moves[i]);
      if s.value > bestValue then RootLoop(s.grid, w, h, moves, i + 1, Max(alpha, s.value), s.value, i)
      else RootLoop(s.grid, w, h, moves, i + 1, Max(alpha, s.value), bestValue, best)
  }

  /** The loop picks the move `BestIndex` picks from the root values and
      leaves the board `RootExplore` leaves. */
  lemma {:induction false} RootLoopPicksBestIndex(g: Grid, w: int, h: int, moves: seq<Move>, i: nat, alpha: int,
                                                  bestValue: int, best: nat, vals: seq<int>)
    requires Shaped(g, w, h) && w == h
    requires i <= |moves| && AllOnBoard(w, h, moves) && best < |moves|
    requires |vals| == |moves| && vals[i..] == RootExplore(g, w, h, moves, i, alpha).values
    ensures RootLoop(g, w, h, moves, i, alpha, bestValue, best) ==
            Choice(moves[BestIndex(vals, i, best, bestValue)], RootExplore(g, w, h, moves, i, alpha).grid)
    decreases |moves| - i
  {
    if i < |moves| {
      var s := RootStep(g, w, h, alpha, moves[i]);
      var rest := RootExplore(s.grid, w, h, moves, i + 1, Max(alpha, s.value));
      assert vals[i] == vals[i..][0] == s.value;
      assert vals[i + 1..] == vals[i..][1..] == rest.values;
      if s.value > bestValue {
        RootLoopPicksBestIndex(s.grid, w, h, moves, i + 1, Max(alpha, s.value), s.value, i, vals);
      } else {
        RootLoopPicksBestIndex(s.grid, w, h, moves, i + 1, Max(alpha, s.value), bestValue, best, vals);
      }
    }
  }

  lemma RootStepKeepsMe(g: Grid, w: int, h: int, alpha: int, m: Move)
    requires Shaped(g, w, h) && w == h && OnBoard(w, h, m)
    ensures MeOrClearedFrom(g, RootStep(g, w, h, alpha, m).grid)
    ensures MeOrEmptyAt(RootStep(g, w, h, alpha, m).grid, m)
  {
    var placed := Set(g, m.x, m.y, Me);
    NegamaxClears(placed, w, h, 2, -INT_MAX, -alpha, Opponent);
  }

  /** The root loop leaves every cell as it was, empty, or `Me`, and each
      cell it visited holds `Me` or is empty. */
  lemma {:induction false} RootExploreKeepsMe(g: Grid, w: int, h: int, moves: seq<Move>, i: nat, alpha: int)
    requires Shaped(g, w, h) && w == h
    requires i <= |moves| && AllOnBoard(w, h, moves)
    ensures MeOrClearedFrom(g, RootExplore(g, w, h, moves, i, alpha).grid)
    ensures MeOrEmptyFrom(RootExplore(g, w, h, moves, i, alpha).grid, w, h, moves, i)
    decreases |moves| - i
  {
    if i < |moves| {
      var s := RootStep(g, w, h, alpha, moves[i]);
      RootStepKeepsMe(g, w, h, alpha, moves[i]);
      var rest := RootExplore(s.grid, w, h, moves, i + 1, Max(alpha, s.value));
      RootExploreKeepsMe(s.grid, w, h, moves, i + 1, Max(alpha, s.value));
      MeOrClearedFromTransitive(g, s.grid, rest.grid);
      MeOrEmptyFromStep(s.grid, rest.grid, w, h, moves, i);
    }
  }

  /** Index kept by the scan `if (val > bestValue) { bestValue = val; bestMove = move; }`. */
  function BestIndex(vals: seq<int>, i: nat, best: nat, bestValue: int): (k: nat)
    requires i <= |vals| && best < |vals|
    ensures k < |vals|
    decreases |vals| - i
  {
    if i == |vals| then best
    else if vals[i] > bestValue then BestIndex(vals, i + 1, i, vals[i])
    else BestIndex(vals, i + 1, best, bestValue)
  }

  lemma {:induction false} BestIndexScan(vals: seq<int>, i: nat, best: nat, bestValue: int)
    requires i <= |vals| && best < |vals|
    requires (bestValue == INT_MIN && best == 0 && forall j | 0 <= j < i :: vals[j] <= INT_MIN) ||
             (best < i && bestValue == vals[best] > INT_MIN &&
              (forall j | 0 <= j < i :: vals[j] <= bestValue) &&
              (forall j | 0 <= j < best :: vals[j] < bestValue))
    ensures var k := BestIndex(vals, i, best, bestValue);
            ((forall j | 0 <= j < |vals| :: vals[j] <= INT_MIN) && k == 0) ||
            (vals[k] > INT_MIN &&
             (forall j | 0 <= j < |vals| :: vals[j] <= vals[k]) &&
             (forall j | 0 <= j < k :: vals[j] < vals[k]))
    decreases |vals| - i
  {
    if i < |vals| {
      if vals[i] > bestValue {
        BestIndexScan(vals, i + 1, i, vals[i]);
      } else {
        BestIndexScan(vals, i + 1, best, bestValue);
      }
    }
  }

  /** `k` is the first index of a strictly greatest value of `vals`, or 0
      when no value exceeds `INT_MIN` (the scan's initial `bestValue`). */
  predicate IsFirstBest(vals: seq<int>, k: int) {
    0 <= k < |vals| &&
    ((exists j | 0 <= j < |vals| :: vals[j] > INT_MIN) ==>
       (forall j | 0 <= j < |vals| :: vals[j] <= vals[k]) &&
       (forall j | 0 <= j < k :: vals[j] < vals[k])) &&
    ((forall j | 0 <= j < |vals| :: vals[j] <= INT_MIN) ==> k == 0)
  }

  /** The scan picks the first index of a strictly greatest value. */
  lemma BestIndexIsFirstMaximum(vals: seq<int>)
    requires |vals| > 0
    ensures IsFirstBest(vals, BestIndex(vals, 0, 0, INT_MIN))
  {
    BestIndexScan(vals, 0, 0, INT_MIN);
  }

  /** The root values `getBestMove` computes, one per candidate. */
  function RootValues(g: Grid, w: int, h: int): (vals: seq<int>)
    requires Shaped(g, w, h) && w == h
    ensures |vals| == |Candidates(g, w, h)|
  {
    RootExplore(g, w, h, Candidates(g, w, h), 0, INT_MIN).values
  }

  /** Index of the candidate `getBestMove` keeps. */
  function ChosenIndex(g: Grid, w: int, h: int): (k: nat)
    requires Shaped(g, w, h) && w == h && Candidates(g, w, h) != []
    ensures k < |Candidates(g, w, h)|
  {
    BestIndex(RootValues(g, w, h), 0, 0, INT_MIN)
  }

  /** What `getBestMove` does when it is not the opening move: run the
      root loop, then `updateBoard(bestMove, ME)`. */
  function RootSearch(g: Grid, w: int, h: int): (c: Choice)
    requires Shaped(g, w, h) && w == h && Candidates(g, w, h) != []
    ensures Shaped(c.grid, w, h)
  {
    var moves := Candidates(g, w, h);
    var e := RootExplore(g, w, h, moves, 0, INT_MIN);
    var best := moves[ChosenIndex(g, w, h)];
    Choice(best, Update(e.grid, w, h, best, Me))
  }

  /** The chosen move is the first candidate whose root value is strictly
      greatest (the first candidate when no value exceeds `INT_MIN`). */
  lemma RootSearchChoosesFirstBest(g: Grid, w: int, h: int)
    requires Shaped(g, w, h) && w == h && Candidates(g, w, h) != []
    ensures RootSearch(g, w, h).move == Candidates(g, w, h)[ChosenIndex(g, w, h)]
    ensures IsFirstBest(RootValues(g, w, h), ChosenIndex(g, w, h))
  {
    BestIndexIsFirstMaximum(RootValues(g, w, h));
  }

  /** After the root search the chosen cell holds `Me`, and every other cell
      is unchanged, emptied, or `Me`. */
  lemma RootSearchPlaysMe(g: Grid, w: int, h: int)
    requires Shaped(g, w, h) && w == h && Candidates(g, w, h) != []
    ensures var c := RootSearch(g, w, h);
            c.move in Candidates(g, w, h) && OnBoard(w, h, c.move) && c.grid[c.move.x][c.move.y] == Me
    ensures MeOrClearedFrom(g, RootSearch(g, w, h).grid)
  {
    var moves := Candidates(g, w, h);
    var e := RootExplore(g, w, h, moves, 0, INT_MIN);
    RootExploreKeepsMe(g, w, h, moves, 0, INT_MIN);
    var k := ChosenIndex(g, w, h);
    var best := moves[k];
    assert best in moves;
    assert MeOrEmptyAt(e.grid, best);
    UpdateWritesOnlyValidCell(e.grid, w, h, best, Me);
    var c := RootSearch(g, w, h);
    assert c.move == best && c.grid == Update(e.grid, w, h, best, Me);
    assert c.grid[best.x][best.y] == Me;
  }
}
