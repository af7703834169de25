/** The standard-library string operations the command front end relies on,
    as values: `std::string::find`, the right trim that `run` builds from
    `find_last_not_of`, `std::stoi`, and the decimal text that `operator<<`
    writes for an `int`. */
module Text {
  import opened Macro

  /** A position returned by `find`; `NotFound` stands for `std::string::npos`. */
  datatype Position = NotFound | At(index: nat)

  /** `s.find(c, from)`: the first index at or after `from` that holds `c`. */
  function FindFrom(s: string, c: char, from: nat): (r: Position)
    ensures r.At? ==> from <= r.index < |s| && s[r.index] == c
    decreases |s| - from
  {
    if from >= |s| then NotFound
    else if s[from] == c then At(from)
    else FindFrom(s, c, from + 1)
  }

  /** `FindFrom` finds the first `c` at or after `from`, and reports none
      exactly when there is none. */
  lemma {:induction false} FindFromMeaning(s: string, c: char, from: nat)
    ensures FindFrom(s, c, from).At? ==> forall k | from <= k < FindFrom(s, c, from).index :: s[k] != c
    ensures FindFrom(s, c, from).NotFound? <==> forall k | from <= k < |s| :: s[k] != c
    decreases |s| - from
  {
    if from < |s| && s[from] != c {
      FindFromMeaning(s, c, from + 1);
    }
  }

  /** `s.find(c)`. */
  function Find(s: string, c: char): Position {
    FindFrom(s, c, 0)
  }

  /** `find` returns the first index holding `c`, and `npos` exactly when
      `c` does not occur. */
  lemma FindIsFirst(s: string, c: char)
    ensures Find(s, c).At? ==>
              Find(s, c).index < |s| && s[Find(s, c).index] == c && c !in s[..Find(s, c).index]
    ensures Find(s, c).NotFound? <==> c !in s
  {
    FindFromMeaning(s, c, 0);
  }

  /** The characters `run` trims from the end of a line. */
  predicate IsTrimmed(c: char) {
    c == ' ' || c == '\n' || c == '\r' || c == '\t'
  }

  /** `s.find_last_not_of(" \n\r\t")`. */
  function FindLastNotTrimmed(s: string): (r: Position)
    ensures r.At? ==> r.index < |s| && !IsTrimmed(s[r.index])
    ensures r.At? ==> forall k | r.index < k < |s| :: IsTrimmed(s[k])
    ensures r.NotFound? ==> forall k | 0 <= k < |s| :: IsTrimmed(s[k])
  {
    if s == [] then NotFound
    else if !IsTrimmed(s[|s| - 1]) then At(|s| - 1)
    else FindLastNotTrimmed(s[..|s| - 1])
  }

  /** The trim step of `run`: erase everything after the last character
      that is not trimmed, or clear the line when there is none. */
  function TrimRight(s: string): (t: string)
    ensures t <= s
    ensures forall k | |t| <= k < |s| :: IsTrimmed(s[k])
    ensures t == [] || !IsTrimmed(t[|t| - 1])
  {
    match FindLastNotTrimmed(s)
    case NotFound => []
    case At(e) => s[..e + 1]
  }

  /** The trimmed line is the only prefix that drops nothing but trimmed
      characters and does not itself end in one. */
  lemma TrimRightUnique(s: string, t: string)
    requires t <= s
    requires forall k | |t| <= k < |s| :: IsTrimmed(s[k])
    requires t == [] || !IsTrimmed(t[|t| - 1])
    ensures t == TrimRight(s)
  {
  }

  /** Trimming twice is trimming once. */
  lemma TrimRightIdempotent(s: string)
    ensures TrimRight(TrimRight(s)) == TrimRight(s)
  {
    TrimRightUnique(TrimRight(s), TrimRight(s));
  }

  /** A line trims to nothing exactly when it holds only trimmed characters. */
  lemma TrimRightEmpty(s: string)
    ensures TrimRight(s) == [] <==> forall k | 0 <= k < |s| :: IsTrimmed(s[k])
  {
    if forall k | 0 <= k < |s| :: IsTrimmed(s[k]) {
      TrimRightUnique(s, []);
    }
  }

  /** The white space `std::stoi` skips before a number (`isspace` in the C
      locale). */
  predicate IsSpace(c: char) {
    c == ' ' || c == '\t' || c == '\n' || c == '\U{000B}' || c == '\U{000C}' || c == '\r'
  }

  predicate IsDigit(c: char) {
    '0' <= c <= '9'
  }

  predicate AllDigits(s: string) {
    forall k | 0 <= k < |s| :: IsDigit(s[k])
  }

  /** The longest prefix of `s` made of decimal digits. */
  function DigitPrefix(s: string): (d: string)
    ensures d <= s && AllDigits(d)
    ensures |d| == |s| || !IsDigit(s[|d|])
  {
    if s != [] && IsDigit(s[0]) then [s[0]] + DigitPrefix(s[1..]) else []
  }

  /** The value of a string of decimal digits, most significant first. */
  function DigitsValue(d: string): nat
    requires AllDigits(d)
  {
    if d == [] then 0
    else
      assert IsDigit(d[|d| - 1]);
      10 * DigitsValue(d[..|d| - 1]) + (d[|d| - 1] as int - '0' as int)
  }

  /** What `std::stoi` gives: the value, or the exception it throws. */
  datatype Conversion = Converted(value: int) | Throws

  /** `std::stoi(s)` in base 10: leading white space is skipped, one sign
      may follow, then the digits are read by `Magnitude`. */
  function Stoi(s: string): (r: Conversion)
    ensures r.Converted? ==> InInt32(r.value)
  {
    if s != [] && IsSpace(s[0]) then Stoi(s[1..])
    else if s != [] && (s[0] == '-' || s[0] == '+') then Magnitude(s[0] == '-', s[1..])
    else Magnitude(false, s)
  }

  /** Leading white space does not change what `std::stoi` reads. */
  lemma {:induction false} StoiSkipsSpace(space: string, s: string)
    requires forall k | 0 <= k < |space| :: IsSpace(space[k])
    ensures Stoi(space + s) == Stoi(s)
    decreases |space|
  {
    if space != [] {
      assert (space + s)[0] == space[0];
      assert (space + s)[1..] == space[1..] + s;
      StoiSkipsSpace(space[1..], s);
    } else {
      assert space + s == s;
    }
  }

  /** The number after the sign: the longest run of digits is read and the
      rest of the string is ignored. No digit throws `invalid_argument`; a
      value that does not fit an `int` throws `out_of_range`. */
  function Magnitude(negative: bool, u: string): (r: Conversion)
    ensures r.Converted? ==> InInt32(r.value)
    ensures r.Converted? ==> u != [] && IsDigit(u[0])
  {
    var d := DigitPrefix(u);
    if d == [] then Throws
    else
      var v: int := if negative then -(DigitsValue(d) as int) else DigitsValue(d);
      if InInt32(v) then Converted(v) else Throws
  }

  /** The digit character of `k`. */
  function DigitChar(k: int): char
    requires 0 <= k < 10
  {
    ('0' as int + k) as char
  }

  /** The digits of `n` without leading zeros. */
  function NatDecimal(n: nat): (d: string)
    ensures |d| > 0 && AllDigits(d)
    ensures d[0] == '0' <==> n == 0
    decreases n
  {
    if n < 10 then [DigitChar(n)] else NatDecimal(n / 10) + [DigitChar(n % 10)]
  }

  /** The text `operator<<` writes for an `int`. */
  function Decimal(n: int): (s: string)
    ensures |s| > 0 && (s[0] == '-' <==> n < 0)
    ensures forall k | 0 < k < |s| :: IsDigit(s[k])
    ensures n >= 0 ==> IsDigit(s[0])
  {
    if n < 0 then "-" + NatDecimal(-n) else NatDecimal(n)
  }

  /** Reading back the digits of `n` gives `n`. */
  lemma {:induction false} NatDecimalValue(n: nat)
    ensures DigitsValue(NatDecimal(n)) == n
    decreases n
  {
    if n >= 10 {
      var d := NatDecimal(n);
      assert d[..|d| - 1] == NatDecimal(n / 10);
      NatDecimalValue(n / 10);
    }
  }

  /** The digit run at the head of `d + rest` is `d` when `rest` does not
      start with a digit. */
  lemma {:induction false} DigitPrefixOfDigits(d: string, rest: string)
    requires AllDigits(d) && (rest == [] || !IsDigit(rest[0]))
    ensures DigitPrefix(d + rest) == d
    decreases |d|
  {
    if d != [] {
      assert (d + rest)[1..] == d[1..] + rest;
      DigitPrefixOfDigits(d[1..], rest);
    }
  }

  /** The digits of `m` followed by text that does not start with a digit
      read back as `m`, or as `-m` after a minus sign. */
  lemma MagnitudeOfNatDecimal(negative: bool, m: nat, rest: string)
    requires InInt32(if negative then -(m as int) else m)
    requires rest == [] || !IsDigit(rest[0])
    ensures Magnitude(negative, NatDecimal(m) + rest) == Converted(if negative then -(m as int) else m)
  {
    DigitPrefixOfDigits(NatDecimal(m), rest);
    NatDecimalValue(m);
  }

  /** After a sign, `std::stoi` reads the digits that follow it. */
  lemma StoiOfSign(c: char, u: string)
    requires c == '-' || c == '+'
    ensures Stoi([c] + u) == Magnitude(c == '-', u)
  {
    assert ([c] + u)[1..] == u;
  }

  /** `std::stoi` reads back the digits of a non-negative `int`. */
  lemma StoiOfNatDecimal(m: nat, rest: string)
    requires m <= INT_MAX && (rest == [] || !IsDigit(rest[0]))
    ensures Stoi(NatDecimal(m) + rest) == Converted(m)
  {
    var s := NatDecimal(m) + rest;
    assert s[0] == NatDecimal(m)[0];
    MagnitudeOfNatDecimal(false, m, rest);
  }

  /** `std::stoi` reads back the minus sign and digits of a negative `int`. */
  lemma StoiOfNegativeDecimal(m: nat, rest: string)
    requires 0 < m <= -INT_MIN && (rest == [] || !IsDigit(rest[0]))
    ensures Stoi("-" + NatDecimal(m) + rest) == Converted(-(m as int))
  {
    var u := NatDecimal(m) + rest;
    calc {
      Stoi("-" + NatDecimal(m) + rest);
      { assert "-" + NatDecimal(m) + rest == ['-'] + u; }
      Stoi(['-'] + u);
      { StoiOfSign('-', u); }
      Magnitude(true, u);
      { MagnitudeOfNatDecimal(true, m, rest); }
      Converted(-(m as int));
    }
  }

  /** `std::stoi` reads back what `operator<<` wrote, whatever follows it
      provided that it does not start with a digit. */
  lemma StoiOfDecimal(n: int, rest: string)
    requires InInt32(n) && (rest == [] || !IsDigit(rest[0]))
    ensures Stoi(Decimal(n) + rest) == Converted(n)
  {
    if n < 0 {
      StoiOfNegativeDecimal(-n, rest);
    } else {
      StoiOfNatDecimal(n, rest);
    }
  }

  /** A string with no digit at all makes `std::stoi` throw. */
  lemma {:induction false} StoiWithoutDigitThrows(s: string)
    requires forall k | 0 <= k < |s| :: !IsDigit(s[k])
    ensures Stoi(s) == Throws
    decreases |s|
  {
    if s != [] && IsSpace(s[0]) {
      StoiWithoutDigitThrows(s[1..]);
    } else if s != [] && (s[0] == '-' || s[0] == '+') {
      if |s| > 1 {
        assert !IsDigit(s[1..][0]);
      }
    } else if s != [] {
      assert !IsDigit(s[0]);
    }
  }
}
