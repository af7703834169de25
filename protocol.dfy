/** The text handling of the command front end: the split of a line into
    a command word and its arguments, the keyword dispatch, the comma
    splits of RECTSTART, TURN and BOARD lines, the flag of a BOARD line, the
    INFO keys, and the reply lines. */
module Protocol {
  import opened Macro
  import opened Text

  const UNKNOWN_REPLY: string := "UNKNOWN"
  const ABOUT_REPLY: string := "name=\"pbrain-gomoku-ai\", version=\"1.0\", author=\"NolTienne\", country=\"France\""
  const START_OK: string := "OK - everything is good"
  const START_ERROR: string := "ERROR message - unsupported size or other error"
  const RECTSTART_OK: string := "OK - parameters are good"
  const RECTSTART_ERROR: string := "ERROR message - rectangular board is not supported or other error"
  const RESTART_OK: string := "OK"
  const TURN_ERROR: string := "ERROR message - invalid move format"
  const DONE: string := "DONE"

  /** `parseCommand`: the text before the first space and the text after
      it; a line without a space is all command word. */
  function ParseCommand(input: string): (r: (string, string))
    ensures ' ' !in input ==> r == (input, "")
    ensures ' ' in input ==> r.0 + " " + r.1 == input && ' ' !in r.0
  {
    FindIsFirst(input, ' ');
    match Find(input, ' ')
    case NotFound => (input, "")
    case At(i) =>
      assert input == input[..i] + " " + input[i + 1..];
      (input[..i], input[i + 1..])
  }

  /** Joining a word without spaces to any argument text with one space,
      then splitting, gives the two parts back. */
  lemma ParseCommandOfJoin(word: string, args: string)
    requires ' ' !in word
    ensures ParseCommand(word + " " + args) == (word, args)
  {
    var line := word + " " + args;
    assert line[|word|] == ' ';
    assert line[..|word|] == word;
    assert line[|word| + 1..] == args;
  }

  /** The commands `handleCommand` tells apart. */
  datatype Command = Start | RectStart | Restart | Begin | Turn | Board | Info | About | End | Unknown

  /** The dispatch of `handleCommand`: an exact, case-sensitive match of the
      command word against the nine keywords. */
  function Keyword(word: string): Command {
    if word == "START" then Start
    else if word == "RECTSTART" then RectStart
    else if word == "RESTART" then Restart
    else if word == "BEGIN" then Begin
    else if word == "TURN" then Turn
    else if word == "BOARD" then Board
    else if word == "INFO" then Info
    else if word == "ABOUT" then About
    else if word == "END" then End
    else Unknown
  }

  /** The keyword that selects a command. */
  function Name(c: Command): string
    requires c != Unknown
  {
    match c
    case Start => "START"
    case RectStart => "RECTSTART"
    case Restart => "RESTART"
    case Begin => "BEGIN"
    case Turn => "TURN"
    case Board => "BOARD"
    case Info => "INFO"
    case About => "ABOUT"
    case End => "END"
  }

  /** A word selects a handler exactly when it is the keyword of that
      handler's command; every other word is unknown. */
  lemma KeywordIsExactMatch(word: string)
    ensures Keyword(word) != Unknown ==> Name(Keyword(word)) == word
    ensures Keyword(word) == Unknown <==> forall c: Command | c != Unknown :: Name(c) != word
  {
    if Keyword(word) == Unknown {
      forall c: Command | c != Unknown
        ensures Name(c) != word
      {
        KeywordOfName(c);
      }
    }
  }

  /** Each keyword selects its own command. */
  lemma KeywordOfName(c: Command)
    requires c != Unknown
    ensures Keyword(Name(c)) == c
  {
  }

  /** The arguments of RECTSTART and TURN: two integers around the first
      comma. */
  datatype PairArgs = NoComma | PairThrows | Numbers(first: int, second: int)

  /** The split of `handleRectStart` and `handleTurn`: no comma is an error
      line, otherwise `std::stoi` of the text before the first comma and of
      the text after it. */
  function ParsePair(args: string): (r: PairArgs)
    ensures r.NoComma? <==> ',' !in args
    ensures r.Numbers? ==> InInt32(r.first) && InInt32(r.second)
  {
    FindIsFirst(args, ',');
    match Find(args, ',')
    case NotFound => NoComma
    case At(i) =>
      match (Stoi(args[..i]), Stoi(args[i + 1..]))
      case (Converted(a), Converted(b)) => Numbers(a, b)
      case _ => PairThrows
  }

  /** With no comma before it, the first comma splits the arguments, and
      each side is read by `std::stoi` on its own. */
  lemma ParsePairSplitsAtFirstComma(a: string, b: string)
    requires ',' !in a
    ensures ParsePair(a + "," + b) ==
              if Stoi(a).Converted? && Stoi(b).Converted? then Numbers(Stoi(a).value, Stoi(b).value)
              else PairThrows
  {
    var s := a + "," + b;
    assert s[|a|] == ',';
    forall k | 0 <= k < |a|
      ensures s[k] != ','
    {
      assert s[k] == a[k];
    }
    FindFromAt(s, 0, |a|);
    assert s[..|a|] == a;
    assert s[|a| + 1..] == b;
  }

  /** The reply line for a move, `move.x << "," << move.y`. */
  function FormatMove(m: Move): string {
    Decimal(m.x) + "," + Decimal(m.y)
  }

  /** Decimal text has no comma. */
  lemma NoCommaInDecimal(n: int)
    ensures ',' !in Decimal(n)
  {
  }

  /** The TURN parser reads back the line the engine replies with. */
  lemma ParsePairOfFormatMove(m: Move)
    requires InInt32(m.x) && InInt32(m.y)
    ensures ParsePair(FormatMove(m)) == Numbers(m.x, m.y)
  {
    NoCommaInDecimal(m.x);
    ParsePairSplitsAtFirstComma(Decimal(m.x), Decimal(m.y));
    StoiOfDecimal(m.x, []);
    StoiOfDecimal(m.y, []);
    assert Decimal(m.x) + [] == Decimal(m.x);
    assert Decimal(m.y) + [] == Decimal(m.y);
  }

  /** The flag of a BOARD line: 1 is one of the engine's own stones, any
      other value an opponent's. */
  function FlagToPlayer(flag: int): (p: Player)
    ensures p != None
    ensures p == Me <==> flag == 1
  {
    if flag == 1 then Me else Opponent
  }

  /** One line of a BOARD block. */
  datatype BoardLine = Done | Ignored | LineThrows | Stone(m: Move, p: Player)

  /** A line of `handleBoard`: "DONE" ends the block; a line with two
      commas is read as x, y and flag by `std::stoi`; any other line is
      skipped. The second search starts one past the first comma, which
      is 0 when there is no first comma (`npos + 1` wraps around). */
  function ParseBoardLine(line: string): (r: BoardLine)
    ensures r.Done? <==> line == DONE
    ensures r.Stone? ==> r.p != None && InInt32(r.m.x) && InInt32(r.m.y)
  {
    if line == DONE then Done
    else
      var c1 := Find(line, ',');
      var c2 := FindFrom(line, ',', if c1.At? then c1.index + 1 else 0);
      if c1.NotFound? || c2.NotFound? then Ignored
      else
        var i, j := c1.index, c2.index;
        match (Stoi(line[..i]), Stoi(line[i + 1..j]), Stoi(line[j + 1..]))
        case (Converted(x), Converted(y), Converted(f)) => Stone(Move(x, y), FlagToPlayer(f))
        case _ => LineThrows
  }

  /** `line` holds at least two commas. */
  predicate HasTwoCommas(line: string) {
    exists i, j | 0 <= i < j < |line| :: line[i] == ',' && line[j] == ','
  }

  /** Apart from "DONE", a line is skipped exactly when it has fewer than
      two commas. */
  lemma IgnoredIffFewerThanTwoCommas(line: string)
    requires line != DONE
    ensures ParseBoardLine(line) == Ignored <==> !HasTwoCommas(line)
  {
    var c1 := Find(line, ',');
    FindFromMeaning(line, ',', 0);
    if c1.At? {
      FindFromMeaning(line, ',', c1.index + 1);
    }
    if HasTwoCommas(line) {
      var i, j :| 0 <= i < j < |line| && line[i] == ',' && line[j] == ',';
      assert c1.At? && c1.index <= i;
      var c2 := FindFrom(line, ',', c1.index + 1);
      assert line[j] == ',';
      assert c2.At?;
    }
  }

  /** A BOARD line in the protocol's "x,y,flag" form, with flag 1 for the
      engine's stones and 2 for the opponent's. */
  function FormatStone(m: Move, p: Player): string {
    FormatMove(m) + "," + (if p == Me then "1" else "2")
  }

  /** The first comma at or after `from` is at `i` when `s[i]` is a comma
      and none comes between. */
  lemma FindFromAt(s: string, from: nat, i: nat)
    requires from <= i < |s| && s[i] == ','
    requires forall k | from <= k < i :: s[k] != ','
    ensures FindFrom(s, ',', from) == At(i)
  {
    FindFromMeaning(s, ',', from);
  }

  /** In `a + "," + b + "," + f` with no comma in `a` or `b`, the first
      comma follows `a` and the next one follows `b`. */
  lemma CommaFields(line: string, a: string, b: string, f: string)
    requires ',' !in a && ',' !in b && line == a + "," + b + "," + f
    ensures Find(line, ',') == At(|a|) && FindFrom(line, ',', |a| + 1) == At(|a| + 1 + |b|)
    ensures line[..|a|] == a && line[|a| + 1..|a| + 1 + |b|] == b && line[|a| + 1 + |b| + 1..] == f
  {
    var i, j := |a|, |a| + 1 + |b|;
    forall k | 0 <= k < i
      ensures line[k] != ','
    {
      assert line[k] == a[k];
    }
    FindFromAt(line, 0, i);
    forall k | i + 1 <= k < j
      ensures line[k] != ','
    {
      assert line[k] == b[k - i - 1];
    }
    FindFromAt(line, i + 1, j);
    assert line[..i] == a;
    assert line[i + 1..j] == b;
    assert line[j + 1..] == f;
  }

  /** A line with two commas and no comma in its first two fields is split
      at those commas, and each field is read by `std::stoi` on its own. */
  lemma ParseBoardLineSplits(line: string, a: string, b: string, f: string)
    requires ',' !in a && ',' !in b && line == a + "," + b + "," + f && line != DONE
    ensures ParseBoardLine(line) ==
              if Stoi(a).Converted? && Stoi(b).Converted? && Stoi(f).Converted? then
                Stone(Move(Stoi(a).value, Stoi(b).value), FlagToPlayer(Stoi(f).value))
              else LineThrows
  {
    CommaFields(line, a, b, f);
    ParseBoardLineFields(line, |a|, |a| + 1 + |b|, a, b, f);
  }

  /** A line other than "DONE" whose first two commas are at `i` and `j`
      is read as the three fields `a`, `b`, `f` around them. */
  lemma ParseBoardLineFields(line: string, i: nat, j: nat, a: string, b: string, f: string)
    requires line != DONE && Find(line, ',') == At(i) && FindFrom(line, ',', i + 1) == At(j)
    requires line[..i] == a && line[i + 1..j] == b && line[j + 1..] == f
    ensures ParseBoardLine(line) ==
              if Stoi(a).Converted? && Stoi(b).Converted? && Stoi(f).Converted? then
                Stone(Move(Stoi(a).value, Stoi(b).value), FlagToPlayer(Stoi(f).value))
              else LineThrows
  {
    ParseBoardLineAt(line, i, j);
  }

  /** A line other than "DONE" whose first two commas are at `i` and `j`
      is read as the three slices around them. */
  lemma ParseBoardLineAt(line: string, i: nat, j: nat)
    requires line != DONE && Find(line, ',') == At(i) && FindFrom(line, ',', i + 1) == At(j)
    ensures i < j < |line|
    ensures ParseBoardLine(line) ==
              match (Stoi(line[..i]), Stoi(line[i + 1..j]), Stoi(line[j + 1..]))
              case (Converted(x), Converted(y), Converted(flag)) => Stone(Move(x, y), FlagToPlayer(flag))
              case _ => LineThrows
  {
  }

  /** The BOARD parser reads back a stone written in that form. */
  lemma ParseBoardLineOfFormatStone(m: Move, p: Player)
    requires InInt32(m.x) && InInt32(m.y) && p != None
    ensures ParseBoardLine(FormatStone(m, p)) == Stone(m, p)
  {
    var a, b := Decimal(m.x), Decimal(m.y);
    var flag := if p == Me then 1 else 2;
    var f := if p == Me then "1" else "2";
    assert f == Decimal(flag) + [];
    var line := a + "," + b + "," + f;
    assert line == FormatStone(m, p);
    assert line != DONE by {
      assert line[|line| - 1] == f[0];
    }
    NoCommaInDecimal(m.x);
    NoCommaInDecimal(m.y);
    ParseBoardLineSplits(line, a, b, f);
    StoiOfDecimal(m.x, []);
    StoiOfDecimal(m.y, []);
    StoiOfDecimal(flag, []);
    assert a + [] == a && b + [] == b;
  }

  /** The INFO keys `handleInfo` acts on; any other key is ignored. */
  datatype InfoKey = TimeoutTurn | TimeoutMatch | MaxMemory | TimeLeft | OtherKey

  /** The INFO key that selects a setting: an exact, case-sensitive match. */
  function InfoKeyOf(key: string): InfoKey {
    if key == "timeout_turn" then TimeoutTurn
    else if key == "timeout_match" then TimeoutMatch
    else if key == "max_memory" then MaxMemory
    else if key == "time_left" then TimeLeft
    else OtherKey
  }

  /** The key text of each setting `handleInfo` stores. */
  function InfoName(k: InfoKey): string
    requires k != OtherKey
  {
    match k
    case TimeoutTurn => "timeout_turn"
    case TimeoutMatch => "timeout_match"
    case MaxMemory => "max_memory"
    case TimeLeft => "time_left"
  }

  /** A key selects a setting exactly when it is that setting's name;
      every other key is ignored. */
  lemma InfoKeyIsExactMatch(key: string)
    ensures InfoKeyOf(key) != OtherKey ==> InfoName(InfoKeyOf(key)) == key
    ensures InfoKeyOf(key) == OtherKey <==> forall k: InfoKey | k != OtherKey :: InfoName(k) != key
  {
    if InfoKeyOf(key) == OtherKey {
      forall k: InfoKey | k != OtherKey
        ensures InfoName(k) != key
      {
        assert InfoKeyOf(InfoName(k)) == k;
      }
    }
  }
}
