/** Shared vocabulary of the engine: the three cell states, a board
    coordinate, the status codes returned by `start` and `rectStart`, and the
    limits of the C++ `int` type that the search uses as initial bounds. */
module Macro {

  /** Occupancy of one cell; `None` is an empty cell. */
  datatype Player = None | Me | Opponent

  /** A board coordinate, column `x` then row `y`. */
  datatype Move = Move(x: int, y: int)

  const SUCCESS: int := 0
  const FAILURE: int := -1

  /** `std::numeric_limits<int>::min()` and `max()` for a 32-bit `int`. */
  const INT_MIN: int := -0x8000_0000
  const INT_MAX: int := 0x7fff_ffff

  predicate InInt32(n: int) {
    INT_MIN <= n <= INT_MAX
  }

  /** The exchange of the two players' colours; an empty cell stays empty. */
  function Swap(p: Player): (q: Player)
    ensures (q == None) == (p == None)
    ensures q != p || p == None
  {
    match p
    case None => None
    case Me => Opponent
    case Opponent => Me
  }

  /** Exchanging colours twice gives back the original cell. */
  lemma SwapInvolution(p: Player)
    ensures Swap(Swap(p)) == p
  {
  }

  /** The player to move next in the search: `Opponent` after `Me`, `Me` after anything else. */
  function NextPlayer(p: Player): (q: Player)
    ensures q != None
    ensures p != None ==> q == Swap(p)
  {
    if p == Me then Opponent else Me
  }

  /** The larger of two integers. */
  function Max(a: int, b: int): (m: int)
    ensures m >= a && m >= b
    ensures m == a || m == b
  {
    if b > a then b else a
  }
}
