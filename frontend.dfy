/** The `Commands` object: the read loop of `run`, the keyword dispatch of
    `handleCommand` and one handler per command, acting on one `Gomoku`
    engine. Standard input is the sequence of lines `std::getline` yields,
    and each handler returns the line it would print instead of printing
    it. An exception that `std::stoi` throws is never caught, so it ends
    the process (`Abort`); a call of `getBestMove` whose behaviour is
    undefined ends the model there too (`Undefined`). */
module Frontend {
  import opened Macro
  import opened Grid
  import opened MoveGen
  import opened Search
  import opened Text
  import opened Protocol
  import opened Engine

  /** What one command produces. */
  datatype Reply = Line(text: string) | Silent | Abort | Undefined

  /** Why the read loop stopped. */
  datatype Ending = EndOfInput | EndCommand | Aborted | UndefinedBehaviour

  /** The search branch of `getBestMove` is defined on this board: it is
      square, as the transposed neighbour read of `generateMoves` needs, and
      it has a candidate, since `moves[0]` is read unconditionally. */
  predicate Searchable(g: Grid, w: int, h: int) {
    Shaped(g, w, h) && w == h && Candidates(g, w, h) != []
  }

  /** The reply of `getBestMove` on the board `placed` and the board `after`
      it leaves: the chosen move and the board the search leaves where the
      search is defined, `Undefined` and the board as it was where it is not. */
  predicate Answered(placed: Grid, w: int, h: int, reply: Reply, after: Grid) {
    if Searchable(placed, w, h) then
      var c := RootSearch(placed, w, h);
      reply == Line(FormatMove(c.move)) && after == c.grid
    else
      reply == Undefined && after == placed
  }

  /** The board after the lines of a BOARD block: each stone line is played
      with `updateBoard`, every other line leaves the board as it is. */
  function Placed(g: Grid, w: int, h: int, lines: seq<string>): (r: Grid)
    requires Shaped(g, w, h)
    ensures Shaped(r, w, h)
    decreases |lines|
  {
    if lines == [] then g
    else PlayLine(Placed(g, w, h, lines[..|lines| - 1]), w, h, lines[|lines| - 1])
  }

  /** One line of a BOARD block: a stone line is played with `updateBoard`. */
  function PlayLine(g: Grid, w: int, h: int, line: string): (r: Grid)
    requires Shaped(g, w, h)
    ensures Shaped(r, w, h)
  {
    match ParseBoardLine(line)
    case Stone(m, p) => Update(g, w, h, m, p)
    case _ => g
  }

  /** A line of a BOARD block that neither ends it nor throws. */
  predicate PlainLine(line: string) {
    ParseBoardLine(line).Ignored? || ParseBoardLine(line).Stone?
  }

  /** Reading one more line of the input extends the block by that line. */
  lemma PlacedStep(g: Grid, w: int, h: int, input: seq<string>, pos: nat, i: nat)
    requires Shaped(g, w, h) && pos <= i < |input|
    ensures Placed(g, w, h, input[pos..i + 1]) == PlayLine(Placed(g, w, h, input[pos..i]), w, h, input[i])
    ensures PlainLines(input[pos..i + 1]) <==> PlainLines(input[pos..i]) && PlainLine(input[i])
  {
    assert input[pos..i + 1][..i - pos] == input[pos..i];
    assert input[pos..i + 1] == input[pos..i] + [input[i]];
  }

  /** A BOARD block never overwrites a stone: every cell that was occupied
      before the block still holds the same stone. */
  lemma {:induction false} PlacedKeepsStones(g: Grid, w: int, h: int, lines: seq<string>)
    requires Shaped(g, w, h)
    ensures forall i, j | 0 <= i < w && 0 <= j < h && g[i][j] != None :: Placed(g, w, h, lines)[i][j] == g[i][j]
    decreases |lines|
  {
    if lines != [] {
      var before := Placed(g, w, h, lines[..|lines| - 1]);
      PlacedKeepsStones(g, w, h, lines[..|lines| - 1]);
      assert Placed(g, w, h, lines) == PlayLine(before, w, h, lines[|lines| - 1]);
      match ParseBoardLine(lines[|lines| - 1])
      case Stone(m, p) => UpdateWritesOnlyValidCell(before, w, h, m, p);
      case _ =>
    }
  }

  /** A BOARD block never empties a cell: a cell that is empty afterwards
      was empty before. */
  lemma {:induction false} PlacedNeverClears(g: Grid, w: int, h: int, lines: seq<string>)
    requires Shaped(g, w, h)
    ensures forall i, j | 0 <= i < w && 0 <= j < h && Placed(g, w, h, lines)[i][j] == None :: g[i][j] == None
    decreases |lines|
  {
    if lines != [] {
      var before := Placed(g, w, h, lines[..|lines| - 1]);
      PlacedNeverClears(g, w, h, lines[..|lines| - 1]);
      assert Placed(g, w, h, lines) == PlayLine(before, w, h, lines[|lines| - 1]);
      match ParseBoardLine(lines[|lines| - 1])
      case Stone(m, p) => UpdateWritesOnlyValidCell(before, w, h, m, p);
      case _ =>
    }
  }

  /** Lines of a BOARD block before its end: none is "DONE" and none makes
      `std::stoi` throw. */
  predicate PlainLines(lines: seq<string>)
    decreases |lines|
  {
    lines == [] || (PlainLines(lines[..|lines| - 1]) && PlainLine(lines[|lines| - 1]))
  }

  /** `PlainLines` holds exactly when every line is plain. */
  lemma {:induction false} PlainLinesEvery(lines: seq<string>)
    ensures PlainLines(lines) <==> forall k | 0 <= k < |lines| :: PlainLine(lines[k])
    decreases |lines|
  {
    if lines != [] {
      var front := lines[..|lines| - 1];
      PlainLinesEvery(front);
      assert forall k | 0 <= k < |front| :: front[k] == lines[k];
    }
  }

  /** Lines the read loop of `run` drops without dispatching them. */
  predicate BlankLines(lines: seq<string>) {
    forall k | 0 <= k < |lines| :: TrimRight(lines[k]) == []
  }

  /** A line that stops `run`: trimmed, it is the word END alone or
      followed by a space. */
  predicate EndLine(raw: string) {
    var t := TrimRight(raw);
    t == "END" || (|t| >= 4 && t[..4] == "END ")
  }

  /** A line whose command word, once trimmed, is BOARD: the only command
      that reads lines of its own. */
  predicate ReadsBlock(raw: string) {
    Keyword(ParseCommand(TrimRight(raw)).0) == Board
  }

  /** How the read loop of `run` treats a line: it trims to nothing, it
      is an END line, its command is BOARD (the only one that reads lines of
      its own), or it is any other command. */
  datatype LineKind = Blank | Ends | ReadsBoard | Other

  /** The kind of a line that trims to `t`, when `t` is not empty. */
  function CommandKind(t: string): LineKind {
    if t == "END" || (|t| >= 4 && t[..4] == "END ") then Ends
    else if Keyword(ParseCommand(t).0) == Board then ReadsBoard
    else Other
  }

  /** The kind of a line: trailing trimmed characters do not change it, and
      a line with nothing else left is blank. */
  function KindOf(raw: string): LineKind
    decreases |raw|
  {
    if raw == [] then Blank
    else if IsTrimmed(raw[|raw| - 1]) then KindOf(raw[..|raw| - 1])
    else CommandKind(raw)
  }

  /** `KindOf` classifies the trimmed line. */
  lemma {:induction false} KindOfTrimmed(raw: string)
    ensures KindOf(raw) == if TrimRight(raw) == [] then Blank else CommandKind(TrimRight(raw))
    decreases |raw|
  {
    if raw != [] {
      if IsTrimmed(raw[|raw| - 1]) {
        KindOfTrimmed(raw[..|raw| - 1]);
        TrimRightUnique(raw, TrimRight(raw[..|raw| - 1]));
      } else {
        TrimRightUnique(raw, raw);
      }
    }
  }

  /** A line is blank exactly when it trims to nothing, an END line exactly
      when `EndLine` says so, and BOARD's exactly when `ReadsBlock` says so. */
  lemma KindOfMeaning(raw: string)
    ensures KindOf(raw) == Blank <==> TrimRight(raw) == []
    ensures KindOf(raw) == Ends <==> EndLine(raw)
    ensures KindOf(raw) == ReadsBoard <==> ReadsBlock(raw)
  {
    KindOfTrimmed(raw);
    EndLineIsEndCommand(raw);
  }

  /** The kind of every line of `input`, in order. */
  function Kinds(input: seq<string>): (kinds: seq<LineKind>)
    ensures |kinds| == |input|
    decreases |input|
  {
    if input == [] then [] else Kinds(input[..|input| - 1]) + [KindOf(input[|input| - 1])]
  }

  /** `Kinds` lists the kind of each line at that line's index. */
  lemma {:induction false} KindsAt(input: seq<string>, k: nat)
    requires k < |input|
    ensures Kinds(input)[k] == KindOf(input[k])
    decreases |input|
  {
    if k < |input| - 1 {
      KindsAt(input[..|input| - 1], k);
    }
  }

  /** The lines `from` to `to` all trim to nothing. */
  predicate BlankBetween(kinds: seq<LineKind>, from: nat, to: nat) {
    forall j | from <= j < to && j < |kinds| :: kinds[j] == Blank
  }

  /** How `run` read the first `consumed` lines, whose kinds are `kinds`: it
      dispatched the lines at the indices `dispatched`, in order, and the
      command of `dispatched[i]` left the loop at `resumed[i]`, which is the
      next line unless the command is BOARD; every other line it read
      trimmed to nothing. */
  predicate Schedule(kinds: seq<LineKind>, dispatched: seq<nat>, resumed: seq<nat>, consumed: nat)
    decreases |dispatched|
  {
    |dispatched| == |resumed| && consumed <= |kinds| &&
    if dispatched == [] then BlankBetween(kinds, 0, consumed)
    else
      var k, next := dispatched[|dispatched| - 1], resumed[|resumed| - 1];
      k < next <= consumed && kinds[k] != Blank && (next == k + 1 || kinds[k] == ReadsBoard) &&
      BlankBetween(kinds, next, consumed) &&
      Schedule(kinds, dispatched[..|dispatched| - 1], resumed[..|resumed| - 1], k)
  }

  /** The lines printed for a sequence of replies: the text of each `Line`. */
  function LineTexts(replies: seq<Reply>): seq<string>
    decreases |replies|
  {
    if replies == [] then []
    else
      LineTexts(replies[..|replies| - 1]) +
      match replies[|replies| - 1]
      case Line(text) => [text]
      case _ => []
  }

  /** A line that trims to nothing extends the blank stretch the loop has read. */
  lemma ScheduleBlank(kinds: seq<LineKind>, dispatched: seq<nat>, resumed: seq<nat>, k: nat)
    requires Schedule(kinds, dispatched, resumed, k) && k < |kinds| && kinds[k] == Blank
    ensures Schedule(kinds, dispatched, resumed, k + 1)
  {
  }

  /** A dispatched line whose command left the loop at `next` extends the
      schedule by one entry. */
  lemma ScheduleDispatch(kinds: seq<LineKind>, dispatched: seq<nat>, resumed: seq<nat>, k: nat, next: nat)
    requires Schedule(kinds, dispatched, resumed, k) && k < next <= |kinds| && kinds[k] != Blank
    requires next == k + 1 || kinds[k] == ReadsBoard
    ensures Schedule(kinds, dispatched + [k], resumed + [next], next)
  {
    assert (dispatched + [k])[..|dispatched|] == dispatched;
    assert (resumed + [next])[..|resumed|] == resumed;
  }

  /** What BOARD does with the lines from `pos` on, the board `before` it
      and the board `after` it: at the end of the input without "DONE" there
      is no reply and every line was played; a line that makes `std::stoi`
      throw aborts after the lines before it were played; at "DONE" the
      lines before it were played and the engine replies with its search,
      or with undefined behaviour where the search is undefined. */
  predicate BoardOutcome(input: seq<string>, pos: nat, next: nat, reply: Reply,
                         before: Grid, w: int, h: int, after: Grid)
    requires Shaped(before, w, h)
  {
    pos <= next <= |input| &&
    (reply == Silent ==>
       next == |input| && PlainLines(input[pos..]) && after == Placed(before, w, h, input[pos..])) &&
    (reply == Abort ==>
       pos < next && PlainLines(input[pos..next - 1]) && ParseBoardLine(input[next - 1]) == LineThrows &&
       after == Placed(before, w, h, input[pos..next - 1])) &&
    (reply != Silent && reply != Abort ==>
       pos < next && PlainLines(input[pos..next - 1]) && input[next - 1] == DONE &&
       Answered(Placed(before, w, h, input[pos..next - 1]), w, h, reply, after))
  }

  /** The first line that does not trim to nothing is the first line the
      loop dispatches. */
  lemma {:induction false} FirstDispatched(kinds: seq<LineKind>, dispatched: seq<nat>, resumed: seq<nat>,
                                           consumed: nat, k: nat)
    requires Schedule(kinds, dispatched, resumed, consumed)
    requires k < consumed && kinds[k] != Blank && BlankBetween(kinds, 0, k)
    ensures dispatched != [] && dispatched[0] == k
    decreases |dispatched|
  {
    if dispatched != [] {
      var last := dispatched[|dispatched| - 1];
      var front, rfront := dispatched[..|dispatched| - 1], resumed[..|resumed| - 1];
      if front != [] {
        assert front[|front| - 1] < last;
        FirstDispatched(kinds, front, rfront, last, k);
        assert dispatched[0] == front[0];
      }
    }
  }

  /** Input made only of blank lines has nothing to dispatch. */
  lemma BlankInputDispatchesNothing(input: seq<string>, dispatched: seq<nat>, resumed: seq<nat>, consumed: nat)
    requires Schedule(Kinds(input), dispatched, resumed, consumed)
    ensures BlankLines(input) ==> dispatched == []
  {
    if BlankLines(input) && dispatched != [] {
      KindsAt(input, dispatched[|dispatched| - 1]);
      KindOfMeaning(input[dispatched[|dispatched| - 1]]);
    }
  }

  /** No line at the indices `dispatched` is an END line. */
  predicate NoEnd(kinds: seq<LineKind>, dispatched: seq<nat>)
    decreases |dispatched|
  {
    dispatched == [] ||
    (NoEnd(kinds, dispatched[..|dispatched| - 1]) &&
     dispatched[|dispatched| - 1] < |kinds| && kinds[dispatched[|dispatched| - 1]] != Ends)
  }

  /** `NoEnd` holds exactly when every index is a line of the input and
      none of those lines is an END line. */
  lemma {:induction false} NoEndEvery(kinds: seq<LineKind>, dispatched: seq<nat>)
    ensures NoEnd(kinds, dispatched) <==>
            forall i | 0 <= i < |dispatched| :: dispatched[i] < |kinds| && kinds[dispatched[i]] != Ends
    decreases |dispatched|
  {
    if dispatched != [] {
      var front := dispatched[..|dispatched| - 1];
      NoEndEvery(kinds, front);
      assert forall i | 0 <= i < |front| :: front[i] == dispatched[i];
    }
  }

  /** Every reply lets the read loop go on: it is a printed line or silence. */
  predicate Continuing(replies: seq<Reply>)
    decreases |replies|
  {
    replies == [] ||
    (Continuing(replies[..|replies| - 1]) && (replies[|replies| - 1].Line? || replies[|replies| - 1].Silent?))
  }

  /** `Continuing` holds exactly when no reply is an abort or undefined behaviour. */
  lemma {:induction false} ContinuingEvery(replies: seq<Reply>)
    ensures Continuing(replies) <==> forall i | 0 <= i < |replies| :: replies[i].Line? || replies[i].Silent?
    decreases |replies|
  {
    if replies != [] {
      var front := replies[..|replies| - 1];
      ContinuingEvery(front);
      assert forall i | 0 <= i < |front| :: front[i] == replies[i];
    }
  }

  /** One more reply prints its text when it is a `Line`, and nothing otherwise. */
  lemma LineTextsSnoc(replies: seq<Reply>, reply: Reply)
    ensures LineTexts(replies + [reply]) == LineTexts(replies) + (if reply.Line? then [reply.text] else [])
  {
    assert (replies + [reply])[..|replies|] == replies;
  }

  /** A trimmed line's command word is END exactly when the line is END
      alone or followed by a space. */
  lemma EndCommandWord(t: string)
    ensures Keyword(ParseCommand(t).0) == End <==> t == "END" || (|t| >= 4 && t[..4] == "END ")
  {
    var r := ParseCommand(t);
    assert Keyword(r.0) == End <==> r.0 == "END";
    if ' ' in t {
      if r.0 == "END" {
        assert t[..4] == "END ";
      }
      if |t| >= 4 && t[..4] == "END " {
        assert t == t[..4] + t[4..];
        assert "END" + " " + t[4..] == "END " + t[4..];
        ParseCommandOfJoin("END", t[4..]);
      }
    } else if |t| >= 4 {
      assert t[..4][3] == t[3];
    }
  }

  /** The lines that stop `run` are exactly those whose command word
      `handleCommand` dispatches to `handleEnd`. */
  lemma EndLineIsEndCommand(raw: string)
    ensures EndLine(raw) <==> Keyword(ParseCommand(TrimRight(raw)).0) == End
  {
    EndCommandWord(TrimRight(raw));
  }

  /** INFO with these arguments names one of the four parameters and its
      value makes `std::stoi` throw. */
  predicate InfoThrows(args: string) {
    InfoKeyOf(ParseCommand(args).0) != OtherKey && Stoi(ParseCommand(args).1).Throws?
  }

  /** The value parameter `k` holds after INFO with these arguments, when it
      held `current` before: the new value when the key names `k` and the
      value reads as an integer, `current` otherwise. */
  function InfoSetting(args: string, k: InfoKey, current: int): int {
    var key, value := ParseCommand(args).0, ParseCommand(args).1;
    if InfoKeyOf(key) == k && Stoi(value).Converted? then Stoi(value).value else current
  }

  /** What `handleCommand` does with the trimmed line `line` when the
      lines after it start at `input[pos]`: the reply it gives and the
      engine state `after` it leaves when it found the state `before`; a
      BOARD command also reads up to `input[next - 1]`. Each keyword runs
      its own handler, and every field a handler does not write keeps its
      value. */
  ghost predicate Handled(line: string, input: seq<string>, pos: nat, reply: Reply, next: nat,
                          before: EngineState, after: EngineState)
  {
    var (cmd, args) := ParseCommand(line);
    var w, h := before.width, before.height;
    Shaped(before.board, w, h) &&
    match Keyword(cmd)
    case Start =>
      var size := Stoi(args);
      if size.Converted? && size.value > 0 then
        reply == Line(START_OK) &&
        after == before.(board := EmptyGrid(size.value, size.value), width := size.value, height := size.value,
                         initialized := true)
      else
        reply == (if size.Throws? then Abort else Line(START_ERROR)) && after == before
    case RectStart =>
      var parsed := ParsePair(args);
      if parsed.Numbers? && parsed.first > 0 && parsed.second > 0 then
        reply == Line(RECTSTART_OK) &&
        after == before.(board := EmptyGrid(parsed.first, parsed.second), width := parsed.first,
                         height := parsed.second, initialized := true)
      else
        reply == (if parsed.PairThrows? then Abort else Line(RECTSTART_ERROR)) && after == before
    case Restart =>
      reply == Line(RESTART_OK) && after == before.(board := EmptyGrid(w, h), initialized := true)
    case Begin =>
      reply == Line(FormatMove(Move(HalfTowardZero(w), HalfTowardZero(h)))) && after == before
    case Turn =>
      var parsed := ParsePair(args);
      if parsed.NoComma? then
        reply == Line(TURN_ERROR) && after == before
      else if parsed.PairThrows? then
        reply == Abort && after == before
      else
        Answered(Update(before.board, w, h, Move(parsed.first, parsed.second), Opponent), w, h, reply, after.board) &&
        after == before.(board := after.board)
    case Board =>
      BoardOutcome(input, pos, next, reply, before.board, w, h, after.board) && after == before.(board := after.board)
    case Info =>
      reply == (if InfoThrows(args) then Abort else Silent) &&
      after == before.(timeoutTurn := InfoSetting(args, TimeoutTurn, before.timeoutTurn),
                       timeoutMatch := InfoSetting(args, TimeoutMatch, before.timeoutMatch),
                       maxMemory := InfoSetting(args, MaxMemory, before.maxMemory),
                       timeLeft := InfoSetting(args, TimeLeft, before.timeLeft))
    case About => reply == Line(ABOUT_REPLY) && after == before
    case End => reply == Silent && after == before
    case Unknown => reply == Line(UNKNOWN_REPLY) && after == before
  }

  /** Entry `i` of the record of `run`: the dispatched line `input[dispatched[i]]`,
      trimmed, was handled on the engine state `states[i]`, gave `replies[i]`,
      left the loop at `resumed[i]` and the engine in `states[i + 1]`. */
  ghost predicate Entry(input: seq<string>, dispatched: seq<nat>, resumed: seq<nat>, replies: seq<Reply>,
                        states: seq<EngineState>, i: int)
  {
    0 <= i < |dispatched| && i < |resumed| && i < |replies| && i + 1 < |states| && dispatched[i] < |input| &&
    Handled(TrimRight(input[dispatched[i]]), input, dispatched[i] + 1, replies[i], resumed[i], states[i], states[i + 1])
  }

  /** The record of `run` chains the engine states through the dispatched
      commands: every entry is what its command does. */
  ghost predicate Traced(input: seq<string>, dispatched: seq<nat>, resumed: seq<nat>, replies: seq<Reply>,
                         states: seq<EngineState>)
  {
    |resumed| == |dispatched| && |replies| == |dispatched| && |states| == |dispatched| + 1 &&
    forall i | 0 <= i < |dispatched| :: Entry(input, dispatched, resumed, replies, states, i)
  }

  /** What an entry of the record says about its command. */
  lemma TracedEntry(input: seq<string>, dispatched: seq<nat>, resumed: seq<nat>, replies: seq<Reply>,
                    states: seq<EngineState>, i: nat)
    requires Traced(input, dispatched, resumed, replies, states) && i < |dispatched|
    ensures dispatched[i] < |input|
    ensures Handled(TrimRight(input[dispatched[i]]), input, dispatched[i] + 1, replies[i], resumed[i],
                    states[i], states[i + 1])
  {
    assert Entry(input, dispatched, resumed, replies, states, i);
  }

  /** A handled line is entry 0 of the record holding only that line. */
  lemma EntrySingle(input: seq<string>, k: nat, reply: Reply, next: nat, before: EngineState, after: EngineState)
    requires k < |input| && Handled(TrimRight(input[k]), input, k + 1, reply, next, before, after)
    ensures Entry(input, [k], [next], [reply], [before, after], 0)
  {
  }

  /** A record of one entry. */
  lemma TracedSingle(input: seq<string>, k: nat, reply: Reply, next: nat, before: EngineState, after: EngineState)
    requires Entry(input, [k], [next], [reply], [before, after], 0)
    ensures Traced(input, [k], [next], [reply], [before, after])
  {
    forall i | 0 <= i < 1
      ensures Entry(input, [k], [next], [reply], [before, after], i)
    {
      assert i == 0;
    }
  }

  /** The empty record, before any line is dispatched. */
  lemma TracedEmpty(input: seq<string>, start: EngineState)
    ensures Traced(input, [], [], [], [start])
  {
  }

  /** Indexing four appended sequences below the length of the first. */
  lemma ConcatLeft<A, B, C, D>(a1: seq<A>, b1: seq<B>, c1: seq<C>, s1: seq<D>,
                               a2: seq<A>, b2: seq<B>, c2: seq<C>, s2: seq<D>, i: nat)
    requires |b1| == |a1| && |c1| == |a1| && |s1| == |a1| + 1 && |s2| >= 1 && i < |a1|
    ensures (a1 + a2)[i] == a1[i] && (b1 + b2)[i] == b1[i] && (c1 + c2)[i] == c1[i] &&
            (s1 + s2[1..])[i] == s1[i] && (s1 + s2[1..])[i + 1] == s1[i + 1]
  {
  }

  /** Indexing four appended sequences past the length of the first, the
      last sequence of the second part sharing its first element with the
      end of the first. */
  lemma ConcatRight<A, B, C, D>(a1: seq<A>, b1: seq<B>, c1: seq<C>, s1: seq<D>,
                                a2: seq<A>, b2: seq<B>, c2: seq<C>, s2: seq<D>, i: nat)
    requires |b1| == |a1| && |c1| == |a1| && |s1| == |a1| + 1
    requires |b2| == |a2| && |c2| == |a2| && |s2| == |a2| + 1 && s1[|a1|] == s2[0]
    requires |a1| <= i < |a1| + |a2|
    ensures (a1 + a2)[i] == a2[i - |a1|] && (b1 + b2)[i] == b2[i - |a1|] && (c1 + c2)[i] == c2[i - |a1|] &&
            (s1 + s2[1..])[i] == s2[i - |a1|] && (s1 + s2[1..])[i + 1] == s2[i - |a1| + 1]
  {
  }

  /** The entries of a record stay entries when another record is appended. */
  lemma TracedPrefix(input: seq<string>, d1: seq<nat>, r1: seq<nat>, replies1: seq<Reply>, states1: seq<EngineState>,
                     d2: seq<nat>, r2: seq<nat>, replies2: seq<Reply>, states2: seq<EngineState>)
    requires Traced(input, d1, r1, replies1, states1) && |states2| >= 1
    ensures forall i | 0 <= i < |d1| :: Entry(input, d1 + d2, r1 + r2, replies1 + replies2, states1 + states2[1..], i)
  {
    forall i | 0 <= i < |d1|
      ensures Entry(input, d1 + d2, r1 + r2, replies1 + replies2, states1 + states2[1..], i)
    {
      ConcatLeft(d1, r1, replies1, states1, d2, r2, replies2, states2, i);
      assert Entry(input, d1, r1, replies1, states1, i);
    }
  }

  /** The entries of a record appended to another, starting in the state the
      other ends in, are entries of the whole, shifted by the other's length. */
  lemma TracedSuffix(input: seq<string>, d1: seq<nat>, r1: seq<nat>, replies1: seq<Reply>, states1: seq<EngineState>,
                     d2: seq<nat>, r2: seq<nat>, replies2: seq<Reply>, states2: seq<EngineState>)
    requires |r1| == |d1| && |replies1| == |d1| && |states1| == |d1| + 1
    requires Traced(input, d2, r2, replies2, states2) && states1[|states1| - 1] == states2[0]
    ensures forall i | |d1| <= i < |d1| + |d2| ::
              Entry(input, d1 + d2, r1 + r2, replies1 + replies2, states1 + states2[1..], i)
  {
    forall i | |d1| <= i < |d1| + |d2|
      ensures Entry(input, d1 + d2, r1 + r2, replies1 + replies2, states1 + states2[1..], i)
    {
      ConcatRight(d1, r1, replies1, states1, d2, r2, replies2, states2, i);
      assert Entry(input, d2, r2, replies2, states2, i - |d1|);
    }
  }

  /** Two records, the second starting in the state the first ends in,
      make one record. */
  lemma TracedAppend(input: seq<string>, d1: seq<nat>, r1: seq<nat>, replies1: seq<Reply>, states1: seq<EngineState>,
                     d2: seq<nat>, r2: seq<nat>, replies2: seq<Reply>, states2: seq<EngineState>)
    requires Traced(input, d1, r1, replies1, states1) && Traced(input, d2, r2, replies2, states2)
    requires states1[|states1| - 1] == states2[0]
    ensures Traced(input, d1 + d2, r1 + r2, replies1 + replies2, states1 + states2[1..])
  {
    TracedPrefix(input, d1, r1, replies1, states1, d2, r2, replies2, states2);
    TracedSuffix(input, d1, r1, replies1, states1, d2, r2, replies2, states2);
  }

  /** A record extended by a one-entry record that starts in the state the
      record ends in. */
  lemma TracedSnoc(input: seq<string>, dispatched: seq<nat>, resumed: seq<nat>, replies: seq<Reply>,
                   states: seq<EngineState>, k: nat, next: nat, reply: Reply, after: EngineState)
    requires Traced(input, dispatched, resumed, replies, states)
    requires Traced(input, [k], [next], [reply], [states[|states| - 1], after])
    ensures Traced(input, dispatched + [k], resumed + [next], replies + [reply], states + [after])
  {
    TracedAppend(input, dispatched, resumed, replies, states, [k], [next], [reply], [states[|states| - 1], after]);
    assert [states[|states| - 1], after][1..] == [after];
  }

  class Commands {
    const game: Gomoku
    var running: bool

    /** The engine state every command leaves behind: a shaped board, and
        the opening flag cleared (BEGIN sets it and its own `getBestMove`
        clears it again). */
    ghost predicate Valid()
      reads this, game
    {
      game.Valid() && !game.begin
    }

    constructor ()
      ensures Valid() && running && fresh(game)
      ensures game.width == 0 && game.height == 0 && game.board == [] && !game.initialized
      ensures game.GetTimeoutTurn() == 0 && game.GetTimeoutMatch() == 0 &&
              game.GetMaxMemory() == 0 && game.GetTimeLeft() == 0
    {
      game := new Gomoku();
      running := true;
    }

    /** `getBestMove` followed by the "x,y" reply line, outside the opening
        move. Where the call is undefined the reply is `Undefined` and the
        board is left as it is. */
    method SearchReply() returns (reply: Reply)
      requires Valid()
      modifies game`board, game`begin
      ensures Valid()
      ensures Answered(old(game.board), game.width, game.height, reply, game.board)
    {
      if !(game.width == game.height && Candidates(game.board, game.width, game.height) != []) {
        return Undefined;
      }
      var m := game.GetBestMove();
      reply := Line(FormatMove(m));
    }

    /** `handleStart`: `std::stoi` of the arguments, then `start`. */
    method HandleStart(args: string) returns (reply: Reply)
      requires Valid()
      modifies game`width, game`height, game`board, game`initialized
      ensures Valid()
      ensures Stoi(args).Throws? ==> reply == Abort && unchanged(game)
      ensures Stoi(args).Converted? && Stoi(args).value <= 0 ==> reply == Line(START_ERROR) && unchanged(game)
      ensures Stoi(args).Converted? && Stoi(args).value > 0 ==>
                reply == Line(START_OK) && game.initialized &&
                game.width == Stoi(args).value && game.height == Stoi(args).value &&
                game.board == EmptyGrid(Stoi(args).value, Stoi(args).value)
    {
      var size := Stoi(args);
      if size.Throws? {
        return Abort;
      }
      var status := game.Start(size.value);
      if status == FAILURE {
        return Line(START_ERROR);
      }
      reply := Line(START_OK);
    }

    /** `handleRectStart`: the comma split, then `rectStart`. */
    method HandleRectStart(args: string) returns (reply: Reply)
      requires Valid()
      modifies game`width, game`height, game`board, game`initialized
      ensures Valid()
      ensures ParsePair(args).NoComma? ==> reply == Line(RECTSTART_ERROR) && unchanged(game)
      ensures ParsePair(args).PairThrows? ==> reply == Abort && unchanged(game)
      ensures ParsePair(args).Numbers? ==>
                var w, h := ParsePair(args).first, ParsePair(args).second;
                (w <= 0 || h <= 0 ==> reply == Line(RECTSTART_ERROR) && unchanged(game)) &&
                (w > 0 && h > 0 ==> reply == Line(RECTSTART_OK) && game.initialized &&
                                    game.width == w && game.height == h && game.board == EmptyGrid(w, h))
    {
      var parsed := ParsePair(args);
      if parsed.NoComma? {
        return Line(RECTSTART_ERROR);
      }
      if parsed.PairThrows? {
        return Abort;
      }
      var status := game.RectStart(parsed.first, parsed.second);
      if status == FAILURE {
        return Line(RECTSTART_ERROR);
      }
      reply := Line(RECTSTART_OK);
    }

    /** `handleRestart`: an empty board of the same dimensions. */
    method HandleRestart() returns (reply: Reply)
      requires Valid()
      modifies game`board, game`initialized
      ensures Valid() && reply == Line(RESTART_OK)
      ensures game.board == EmptyGrid(game.width, game.height) && game.initialized
    {
      game.Restart();
      reply := Line(RESTART_OK);
    }

    /** `handleBegin`: the opening move is the centre, and the board is not
        written. */
    method HandleBegin() returns (reply: Reply)
      requires Valid()
      modifies game`board, game`begin
      ensures Valid() && game.board == old(game.board)
      ensures reply == Line(FormatMove(Move(HalfTowardZero(game.width), HalfTowardZero(game.height))))
    {
      game.SetBegin(true);
      var m := game.GetBestMove();
      reply := Line(FormatMove(m));
    }

    /** `handleTurn`: the comma split, the opponent's stone through
        `updateBoard`, then the engine's reply. */
    method HandleTurn(args: string) returns (reply: Reply)
      requires Valid()
      modifies game`board, game`begin
      ensures Valid()
      ensures ParsePair(args).NoComma? ==> reply == Line(TURN_ERROR) && unchanged(game)
      ensures ParsePair(args).PairThrows? ==> reply == Abort && unchanged(game)
      ensures ParsePair(args).Numbers? ==>
                Answered(Update(old(game.board), game.width, game.height,
                                Move(ParsePair(args).first, ParsePair(args).second), Opponent),
                         game.width, game.height, reply, game.board)
    {
      var parsed := ParsePair(args);
      if parsed.NoComma? {
        return Line(TURN_ERROR);
      }
      if parsed.PairThrows? {
        return Abort;
      }
      game.UpdateBoard(Move(parsed.first, parsed.second), Opponent);
      reply := SearchReply();
    }

    /** The loop of `handleBoard`: reads lines from `input[pos]` on, playing
        each stone line, until "DONE", a line that makes `std::stoi` throw,
        or the end of the input. The lines played are `input[pos..stop]`;
        `stop` is the index of the line that ended the block, or the end of
        the input. */
    method ReadBoardBlock(input: seq<string>, pos: nat) returns (closed: bool, stop: nat)
      requires Valid() && running && pos <= |input|
      modifies game`board
      ensures Valid() && pos <= stop <= |input|
      ensures closed <==> stop < |input|
      ensures closed ==> ParseBoardLine(input[stop]).Done? || ParseBoardLine(input[stop]).LineThrows?
      ensures PlainLines(input[pos..stop])
      ensures game.board == Placed(old(game.board), game.width, game.height, input[pos..stop])
    {
      stop := pos;
      while running && stop < |input|
        invariant pos <= stop <= |input|
        invariant Valid()
        invariant PlainLines(input[pos..stop])
        invariant game.board == Placed(old(game.board), game.width, game.height, input[pos..stop])
      {
        var parsed := ParseBoardLine(input[stop]);
        if parsed.Done? || parsed.LineThrows? {
          return true, stop;
        }
        PlayBoardLine(input[stop]);
        PlacedStep(old(game.board), game.width, game.height, input, pos, stop);
        stop := stop + 1;
      }
      closed := false;
    }

    /** One line of the loop of `handleBoard`: a stone line is played with
        `updateBoard`, any other line is skipped. */
    method PlayBoardLine(line: string)
      requires Valid()
      modifies game`board
      ensures Valid()
      ensures game.board == PlayLine(old(game.board), game.width, game.height, line)
    {
      var parsed := ParseBoardLine(line);
      if parsed.Stone? {
        game.UpdateBoard(parsed.m, parsed.p);
      }
    }

    /** `handleBoard`: the lines after BOARD up to "DONE" are played, then
        the engine replies. A line that makes `std::stoi` throw aborts; at the
        end of the input without "DONE" there is no reply. */
    method HandleBoard(input: seq<string>, pos: nat) returns (reply: Reply, next: nat)
      requires Valid() && running && pos <= |input|
      modifies game`board, game`begin
      ensures Valid() && pos <= next <= |input|
      ensures BoardOutcome(input, pos, next, reply, old(game.board), game.width, game.height, game.board)
    {
      var closed, stop := ReadBoardBlock(input, pos);
      if !closed {
        assert input[pos..stop] == input[pos..];
        return Silent, stop;
      }
      next := stop + 1;
      assert input[pos..next - 1] == input[pos..stop];
      if ParseBoardLine(input[stop]).LineThrows? {
        reply := Abort;
      } else {
        reply := SearchReply();
      }
    }

    /** `handleInfo`: `parseCommand` splits key and value; one of the four
        keys stores `std::stoi` of the value in its parameter, any other key
        is ignored without reading the value. */
    method HandleInfo(args: string) returns (reply: Reply)
      requires Valid()
      modifies game`timeoutTurn, game`timeoutMatch, game`maxMemory, game`timeLeft
      ensures Valid()
      ensures reply == (if InfoThrows(args) then Abort else Silent)
      ensures game.GetTimeoutTurn() == InfoSetting(args, TimeoutTurn, old(game.GetTimeoutTurn()))
      ensures game.GetTimeoutMatch() == InfoSetting(args, TimeoutMatch, old(game.GetTimeoutMatch()))
      ensures game.GetMaxMemory() == InfoSetting(args, MaxMemory, old(game.GetMaxMemory()))
      ensures game.GetTimeLeft() == InfoSetting(args, TimeLeft, old(game.GetTimeLeft()))
    {
      var (key, value) := ParseCommand(args);
      var which := InfoKeyOf(key);
      if which == OtherKey {
        return Silent;
      }
      var v := Stoi(value);
      if v.Throws? {
        return Abort;
      }
      StoreInfo(which, v.value);
      reply := Silent;
    }

    /** The setter call of `handleInfo` for a recognised key. */
    method StoreInfo(which: InfoKey, v: int)
      requires which != OtherKey
      modifies game`timeoutTurn, game`timeoutMatch, game`maxMemory, game`timeLeft
      ensures game.GetTimeoutTurn() == if which == TimeoutTurn then v else old(game.GetTimeoutTurn())
      ensures game.GetTimeoutMatch() == if which == TimeoutMatch then v else old(game.GetTimeoutMatch())
      ensures game.GetMaxMemory() == if which == MaxMemory then v else old(game.GetMaxMemory())
      ensures game.GetTimeLeft() == if which == TimeLeft then v else old(game.GetTimeLeft())
    {
      match which {
        case TimeoutTurn => game.SetTimeoutTurn(v);
        case TimeoutMatch => game.SetTimeoutMatch(v);
        case MaxMemory => game.SetMaxMemory(v);
        case TimeLeft => game.SetTimeLeft(v);
      }
    }

    /** `handleEnd`: stops the read loop. */
    method HandleEnd()
      modifies this`running
      ensures !running
    {
      running := false;
    }

    /** `handleCommand`: `parseCommand`, then the handler the command word
        selects. Only BOARD reads further lines; only END stops the loop;
        ABOUT and an unknown word change nothing. */
    method HandleCommand(line: string, input: seq<string>, pos: nat) returns (reply: Reply, next: nat)
      requires Valid() && running && pos <= |input|
      modifies this`running, game
      ensures Valid() && pos <= next <= |input|
      ensures Keyword(ParseCommand(line).0) != Board ==> next == pos
      ensures !running <==> Keyword(ParseCommand(line).0) == End
      ensures Handled(line, input, pos, reply, next, old(game.State()), game.State())
    {
      var (cmd, args) := ParseCommand(line);
      next := pos;
      match Keyword(cmd)
      case Start => reply := HandleStart(args);
      case RectStart => reply := HandleRectStart(args);
      case Restart => reply := HandleRestart();
      case Begin => reply := HandleBegin();
      case Turn => reply := HandleTurn(args);
      case Board => reply, next := HandleBoard(input, pos);
      case Info => reply := HandleInfo(args);
      case About => reply := Line(ABOUT_REPLY);
      case End =>
        HandleEnd();
        reply := Silent;
      case Unknown => reply := Line(UNKNOWN_REPLY);
    }

    /** One turn of the loop of `run`: the line `input[k]` is trimmed and,
        unless it trimmed to nothing, dispatched; `next` is the index of the
        first line not yet read. */
    method Step(input: seq<string>, k: nat) returns (reply: Reply, next: nat)
      requires Valid() && running && k < |input|
      modifies this`running, game
      ensures Valid() && k < next <= |input|
      ensures KindOf(input[k]) == Blank ==> reply == Silent && next == k + 1 && running && unchanged(game)
      ensures !running ==> next == k + 1 && KindOf(input[k]) == Ends && reply == Silent
      ensures KindOf(input[k]) == Ends ==> !running
      ensures next == k + 1 || KindOf(input[k]) == ReadsBoard
      ensures KindOf(input[k]) != Blank ==>
                Traced(input, [k], [next], [reply], [old(game.State()), game.State()])
    {
      KindOfMeaning(input[k]);
      var line := TrimRight(input[k]);
      if line == [] {
        return Silent, k + 1;
      }
      ghost var before := game.State();
      reply, next := HandleCommand(line, input, k + 1);
      EntrySingle(input, k, reply, next, before, game.State());
      TracedSingle(input, k, reply, next, before, game.State());
      EndLineIsEndCommand(input[k]);
    }

    /** One turn of the loop of `run` with its record: `Step`, the line it
        prints appended to `output`, and the dispatched line, where its
        command left the loop and its reply appended to the record unless
        the line trimmed to nothing. */
    method Advance(input: seq<string>, ghost kinds: seq<LineKind>, k: nat, output: seq<string>,
                   ghost dispatched: seq<nat>, ghost resumed: seq<nat>, ghost replies: seq<Reply>,
                   ghost states: seq<EngineState>)
      returns (reply: Reply, next: nat, output': seq<string>,
               ghost dispatched': seq<nat>, ghost resumed': seq<nat>, ghost replies': seq<Reply>,
               ghost states': seq<EngineState>)
      requires Valid() && running && k < |input| && kinds == Kinds(input)
      requires Schedule(kinds, dispatched, resumed, k)
      requires |replies| == |dispatched| && output == LineTexts(replies)
      requires Continuing(replies) && NoEnd(kinds, dispatched)
      requires Traced(input, dispatched, resumed, replies, states) && states[|states| - 1] == game.State()
      modifies this`running, game
      ensures Valid() && k < next <= |input|
      ensures Schedule(kinds, dispatched', resumed', next)
      ensures |replies'| == |dispatched'| && output' == LineTexts(replies')
      ensures Traced(input, dispatched', resumed', replies', states') && states'[0] == states[0] &&
              states'[|states'| - 1] == game.State()
      ensures dispatched' == [] ==> dispatched == [] && output' == [] && running && unchanged(game)
      ensures reply.Line? || reply.Silent? ==> Continuing(replies')
      ensures !(reply.Line? || reply.Silent?) ==>
                running && dispatched' != [] && resumed'[|resumed'| - 1] == next &&
                Continuing(replies'[..|replies'| - 1]) && replies'[|replies'| - 1] == reply
      ensures running ==> NoEnd(kinds, dispatched')
      ensures !running ==>
                dispatched' != [] && resumed'[|resumed'| - 1] == next &&
                dispatched'[|dispatched'| - 1] == next - 1 && kinds[next - 1] == Ends &&
                NoEnd(kinds, dispatched'[..|dispatched'| - 1]) && replies'[|replies'| - 1] == Silent
    {
      KindsAt(input, k);
      reply, next := Step(input, k);
      output' := if reply.Line? then output + [reply.text] else output;
      if kinds[k] == Blank {
        ScheduleBlank(kinds, dispatched, resumed, k);
        dispatched', resumed', replies', states' := dispatched, resumed, replies, states;
      } else {
        ScheduleDispatch(kinds, dispatched, resumed, k, next);
        LineTextsSnoc(replies, reply);
        TracedSnoc(input, dispatched, resumed, replies, states, k, next, reply, game.State());
        dispatched', resumed', replies' := dispatched + [k], resumed + [next], replies + [reply];
        states' := states + [game.State()];
        assert dispatched'[..|dispatched|] == dispatched;
        assert replies'[..|replies|] == replies;
      }
    }

    /** `run`: reads lines while the loop is running, trims each one and
        dispatches it unless it trimmed to nothing. `output` holds the
        lines printed and `consumed` counts the lines read; the ghost
        results record which lines were dispatched, where each command left
        the loop, and each command's reply. The loop stops at the first
        dispatched END line, at the first reply that ends the process, or
        at the end of the input. */
    method Run(input: seq<string>) returns (output: seq<string>, consumed: nat, ending: Ending,
                                            ghost dispatched: seq<nat>, ghost resumed: seq<nat>, ghost replies: seq<Reply>,
                                            ghost states: seq<EngineState>)
      requires Valid() && running
      modifies this`running, game
      ensures Schedule(Kinds(input), dispatched, resumed, consumed)
      ensures Traced(input, dispatched, resumed, replies, states) &&
              states[0] == old(game.State()) && states[|states| - 1] == game.State()
      ensures |replies| == |dispatched| && output == LineTexts(replies)
      ensures ending == EndOfInput ==>
                consumed == |input| && running && Valid() && NoEnd(Kinds(input), dispatched) && Continuing(replies)
      ensures ending == EndCommand ==>
                !running && Valid() && dispatched != [] && resumed[|resumed| - 1] == consumed &&
                dispatched[|dispatched| - 1] == consumed - 1 && Kinds(input)[consumed - 1] == Ends &&
                NoEnd(Kinds(input), dispatched[..|dispatched| - 1]) &&
                Continuing(replies) && replies[|replies| - 1] == Silent
      ensures ending == Aborted || ending == UndefinedBehaviour ==>
                dispatched != [] && resumed[|resumed| - 1] == consumed && NoEnd(Kinds(input), dispatched) &&
                Continuing(replies[..|replies| - 1]) &&
                replies[|replies| - 1] == (if ending == Aborted then Abort else Undefined)
      ensures BlankLines(input) ==> output == [] && ending == EndOfInput && unchanged(game)
    {
      ghost var kinds := Kinds(input);
      output := [];
      consumed := 0;
      ending := EndOfInput;
      dispatched, resumed, replies, states := [], [], [], [game.State()];
      TracedEmpty(input, game.State());
      while running && consumed < |input|
        invariant consumed <= |input| && Valid()
        invariant Schedule(kinds, dispatched, resumed, consumed)
        invariant Traced(input, dispatched, resumed, replies, states) &&
                  states[0] == old(game.State()) && states[|states| - 1] == game.State()
        invariant |replies| == |dispatched| && output == LineTexts(replies)
        invariant Continuing(replies)
        invariant running ==> NoEnd(kinds, dispatched)
        invariant !running ==>
                    dispatched != [] && resumed[|resumed| - 1] == consumed &&
                    dispatched[|dispatched| - 1] == consumed - 1 && kinds[consumed - 1] == Ends &&
                    NoEnd(kinds, dispatched[..|dispatched| - 1]) && replies[|replies| - 1] == Silent
        invariant dispatched == [] ==> output == [] && running && unchanged(game)
      {
        var reply;
        reply, consumed, output, dispatched, resumed, replies, states :=
          Advance(input, kinds, consumed, output, dispatched, resumed, replies, states);
        if !(reply.Line? || reply.Silent?) {
          BlankInputDispatchesNothing(input, dispatched, resumed, consumed);
          ending := if reply.Abort? then Aborted else UndefinedBehaviour;
          return;
        }
      }
      if ending == EndOfInput && !running {
        ending := EndCommand;
      }
      BlankInputDispatchesNothing(input, dispatched, resumed, consumed);
    }
  }
}
