/** The string operations the parsers rely on, each with what it promises. */
module Text {
  datatype Option<T> = None | Some(value: T)

  /** White space in the sense of Unicode's White_Space property. */
  predicate IsSpace(c: char) {
    var n := c as int;
    || 9 <= n <= 13 || n == 32 || n == 0x85 || n == 0xA0 || n == 0x1680 || 0x2000 <= n <= 0x200A
    || n == 0x2028 || n == 0x2029 || n == 0x202F || n == 0x205F || n == 0x3000
  }

  predicate NoSpace(s: string) {
    forall i :: 0 <= i < |s| ==> !IsSpace(s[i])
  }

  /** Nothing but white space. */
  predicate IsBlank(s: string) {
    forall i :: 0 <= i < |s| ==> IsSpace(s[i])
  }

  predicate StartsWith(s: string, prefix: string) {
    prefix <= s
  }

  /** Position of the first `c`. */
  function Find<T(==)>(s: seq<T>, c: T): (r: Option<nat>)
    ensures r.None? <==> c !in s
    ensures r.Some? ==> r.value < |s| && s[r.value] == c && c !in s[..r.value]
  {
    if s == [] then None
    else if s[0] == c then Some(0)
    else
      match Find(s[1..], c)
      case None => None
      case Some(i) =>
        assert s[..i + 1] == [s[0]] + s[1..][..i];
        Some(i + 1)
  }

  /** Position of the last `c`. */
  function RFind(s: string, c: char): (r: Option<nat>)
    ensures r.None? <==> c !in s
    ensures r.Some? ==> r.value < |s| && s[r.value] == c && c !in s[r.value + 1..]
  {
    if s == "" then None
    else
      var n := |s| - 1;
      assert s == s[..n] + [s[n]];
      if s[n] == c then Some(n)
      else
        match RFind(s[..n], c)
        case None => None
        case Some(i) =>
          assert s[i + 1..] == s[..n][i + 1..] + [s[n]];
          Some(i)
  }

  /** The first occurrence is determined by its defining property. */
  lemma FindAt<T>(s: seq<T>, c: T, i: nat)
    requires i < |s| && s[i] == c && c !in s[..i]
    ensures Find(s, c) == Some(i)
  {
    var j := Find(s, c).value;
    assert forall k :: 0 <= k < i ==> s[..i][k] == s[k];
    assert forall k :: 0 <= k < j ==> s[..j][k] == s[k];
  }

  lemma RFindAt(s: string, c: char, i: nat)
    requires i < |s| && s[i] == c && c !in s[i + 1..]
    ensures RFind(s, c) == Some(i)
  {
    var j := RFind(s, c).value;
    assert forall k :: i < k < |s| ==> s[k] == s[i + 1..][k - i - 1];
    assert forall k :: j < k < |s| ==> s[k] == s[j + 1..][k - j - 1];
  }

  // ---------------------------------------------------------------- lines

  /** What `read_line` takes: up to and including the first newline, or everything before EOF. */
  function FirstLine<T(==)>(s: seq<T>, newline: T): (line: seq<T>)
    ensures line <= s
    ensures s != [] ==> line != []
  {
    match Find(s, newline)
    case None => s
    case Some(i) => s[..i + 1]
  }

  /** A complete line: one newline, at its end. */
  predicate Complete<T(==)>(line: seq<T>, newline: T) {
    line != [] && line[|line| - 1] == newline && newline !in line[..|line| - 1]
  }

  lemma FirstLineOfComplete<T>(line: seq<T>, newline: T, rest: seq<T>)
    requires Complete(line, newline)
    ensures FirstLine(line + rest, newline) == line && (line + rest)[|line|..] == rest
  {
    var s, n := line + rest, |line| - 1;
    assert s[..n] == line[..n] && s[..n + 1] == line;
    FindAt(s, newline, n);
  }

  /** A line was ended by its newline if more input follows it, or if a newline is its last element. */
  lemma FirstLineCompleteIff<T>(s: seq<T>, newline: T)
    requires s != []
    ensures var line := FirstLine(s, newline);
            Complete(line, newline) <==> |line| < |s| || line[|line| - 1] == newline
  {
    match Find(s, newline) {
      case None =>
      case Some(i) => assert FirstLine(s, newline)[..i] == s[..i];
    }
  }

  // ---------------------------------------------------------------- tokens

  /** Length of the leading run of non-space characters. */
  function TokenLength(s: string): (n: nat)
    ensures n <= |s| && NoSpace(s[..n])
    ensures n < |s| ==> IsSpace(s[n])
  {
    if s == "" || IsSpace(s[0]) then 0
    else
      var n := TokenLength(s[1..]);
      assert s[..n + 1] == [s[0]] + s[1..][..n];
      n + 1
  }

  /** The maximal runs of non-space characters, in order. */
  function SplitWhitespace(s: string): (tokens: seq<string>)
    ensures forall i :: 0 <= i < |tokens| ==> tokens[i] != "" && NoSpace(tokens[i])
    decreases |s|
  {
    if s == "" then []
    else if IsSpace(s[0]) then SplitWhitespace(s[1..])
    else
      var n := TokenLength(s);
      [s[..n]] + SplitWhitespace(s[n..])
  }

  lemma {:induction false} TokenLengthAt(s: string, n: nat)
    requires n <= |s| && NoSpace(s[..n]) && (n < |s| ==> IsSpace(s[n]))
    ensures TokenLength(s) == n
  {
    var m := TokenLength(s);
    assert forall k :: 0 <= k < n ==> s[..n][k] == s[k];
    assert forall k :: 0 <= k < m ==> s[..m][k] == s[k];
  }

  /** A token followed by a space splits off. */
  lemma SplitFirst(token: string, rest: string)
    requires token != "" && NoSpace(token) && (rest == "" || IsSpace(rest[0]))
    ensures SplitWhitespace(token + rest) == [token] + SplitWhitespace(rest)
  {
    var s := token + rest;
    assert s[..|token|] == token && s[|token|..] == rest;
    TokenLengthAt(s, |token|);
    assert s[0] == token[0];
  }

  lemma SplitAtSpace(token: string, rest: string)
    requires token != "" && NoSpace(token)
    ensures SplitWhitespace(token + " " + rest) == [token] + SplitWhitespace(rest)
  {
    var tail := " " + rest;
    assert tail[1..] == rest;
    SplitFirst(token, tail);
    assert token + " " + rest == token + tail;
  }

  lemma SplitOne(token: string)
    requires token != "" && NoSpace(token)
    ensures SplitWhitespace(token) == [token]
  {
    SplitFirst(token, "");
    assert token + "" == token;
  }

  lemma Regroup(a: string, b: string, c: string)
    ensures a + " " + b + " " + c == a + " " + (b + " " + c)
  {
  }

  /** Three tokens separated by single spaces split into themselves. */
  lemma {:induction false} SplitThree(a: string, b: string, c: string)
    requires a != "" && b != "" && c != "" && NoSpace(a) && NoSpace(b) && NoSpace(c)
    ensures SplitWhitespace(a + " " + b + " " + c) == [a, b, c]
  {
    SplitOne(c);
    SplitAtSpace(b, c);
    SplitAtSpace(a, b + " " + c);
    Regroup(a, b, c);
  }

  /** Tokens with the gaps before, between and after them. */
  function Woven(gaps: seq<string>, tokens: seq<string>): string
    requires |gaps| == |tokens| + 1
  {
    if tokens == [] then gaps[0] else gaps[0] + tokens[0] + Woven(gaps[1..], tokens[1..])
  }

  /** Gaps are white space, and tokens do not touch. */
  ghost predicate AreGaps(gaps: seq<string>) {
    && (forall i :: 0 <= i < |gaps| ==> IsBlank(gaps[i]))
    && (forall i :: 0 < i < |gaps| - 1 ==> gaps[i] != "")
  }

  lemma {:induction false} SplitIsWoven(s: string) returns (gaps: seq<string>)
    ensures |gaps| == |SplitWhitespace(s)| + 1 && AreGaps(gaps) && Woven(gaps, SplitWhitespace(s)) == s
    ensures s != "" && !IsSpace(s[0]) ==> gaps[0] == ""
    ensures s != "" && IsSpace(s[0]) ==> gaps[0] != ""
    decreases |s|
  {
    if s == "" {
      gaps := [""];
    } else if IsSpace(s[0]) {
      var rest := SplitIsWoven(s[1..]);
      gaps := [[s[0]] + rest[0]] + rest[1..];
      GapGrows(s[0], rest, SplitWhitespace(s));
      assert s == [s[0]] + s[1..];
    } else {
      var n := TokenLength(s);
      var rest := SplitIsWoven(s[n..]);
      gaps := [""] + rest;
      TokenFirst(s[..n], rest, SplitWhitespace(s[n..]));
      assert s == s[..n] + s[n..];
    }
  }

  lemma GapGrows(c: char, rest: seq<string>, tokens: seq<string>)
    requires |rest| == |tokens| + 1 && AreGaps(rest) && IsSpace(c)
    ensures var gaps := [[c] + rest[0]] + rest[1..];
            AreGaps(gaps) && Woven(gaps, tokens) == [c] + Woven(rest, tokens)
  {
    var gaps := [[c] + rest[0]] + rest[1..];
    WiderGap(c, rest);
    assert gaps[1..] == rest[1..];
    if tokens != [] {
      Associate([c], rest[0], tokens[0], Woven(rest[1..], tokens[1..]));
    }
  }

  lemma WiderGap(c: char, rest: seq<string>)
    requires rest != [] && AreGaps(rest) && IsSpace(c)
    ensures AreGaps([[c] + rest[0]] + rest[1..])
  {
    assert IsBlank([c] + rest[0]);
  }

  lemma Associate(a: string, b: string, c: string, d: string)
    ensures (a + b) + c + d == a + (b + c + d)
  {
  }

  lemma NoGap(rest: seq<string>)
    requires AreGaps(rest) && (|rest| > 1 ==> rest[0] != "")
    ensures AreGaps([""] + rest)
  {
    var gaps := [""] + rest;
    assert forall i :: 0 < i < |gaps| ==> gaps[i] == rest[i - 1];
  }

  lemma {:induction false} TokenFirst(token: string, rest: seq<string>, tokens: seq<string>)
    requires |rest| == |tokens| + 1 && AreGaps(rest) && (tokens != [] ==> rest[0] != "")
    ensures var gaps := [""] + rest;
            AreGaps(gaps) && Woven(gaps, [token] + tokens) == token + Woven(rest, tokens)
  {
    NoGap(rest);
    assert ([""] + rest)[1..] == rest && ([token] + tokens)[1..] == tokens;
    assert "" + token == token;
  }

  // ---------------------------------------------------------------- trimming

  function TrimStart(s: string): string {
    if s == "" || !IsSpace(s[0]) then s else TrimStart(s[1..])
  }

  function TrimEnd(s: string): string {
    if s == "" || !IsSpace(s[|s| - 1]) then s else TrimEnd(s[..|s| - 1])
  }

  /** The end of `s` from its first character that is no space. */
  lemma {:induction false} TrimStartDrops(s: string)
    ensures var r := TrimStart(s);
            && |r| <= |s| && r == s[|s| - |r|..] && IsBlank(s[..|s| - |r|])
            && (r != "" ==> !IsSpace(r[0]))
  {
    if s != "" && IsSpace(s[0]) {
      TrimStartDrops(s[1..]);
      BlankAndFirst(s, |s| - |TrimStart(s[1..])|);
    }
  }

  lemma BlankAndFirst(s: string, n: nat)
    requires 0 < n <= |s| && IsSpace(s[0]) && IsBlank(s[1..][..n - 1])
    ensures IsBlank(s[..n]) && s[1..][n - 1..] == s[n..]
  {
    assert forall i :: 0 < i < n ==> s[..n][i] == s[1..][..n - 1][i - 1];
  }

  /** The start of `s` up to its last character that is no space. */
  lemma {:induction false} TrimEndDrops(s: string)
    ensures var r := TrimEnd(s);
            && r <= s && (forall i :: |r| <= i < |s| ==> IsSpace(s[i]))
            && (r != "" ==> !IsSpace(r[|r| - 1]))
  {
    if s != "" && IsSpace(s[|s| - 1]) {
      TrimEndDrops(s[..|s| - 1]);
    }
  }

  /** No white space at either end. */
  predicate Trimmed(s: string) {
    s != "" ==> !IsSpace(s[0]) && !IsSpace(s[|s| - 1])
  }

  function Trim(s: string): string {
    TrimEnd(TrimStart(s))
  }

  lemma TrimIsTrimmed(s: string)
    ensures Trimmed(Trim(s))
  {
    TrimStartDrops(s);
    TrimEndDrops(TrimStart(s));
  }

  /** Exactly the trimmed texts are left alone. */
  lemma TrimKeeps(s: string)
    ensures Trim(s) == s <==> Trimmed(s)
  {
    TrimIsTrimmed(s);
  }

  lemma TrimEndOfSpace(s: string, c: char)
    requires IsSpace(c)
    ensures TrimEnd(s + [c]) == TrimEnd(s)
  {
    assert (s + [c])[..|s|] == s;
  }

  lemma TrimStartOfSpace(c: char, s: string)
    requires IsSpace(c)
    ensures TrimStart([c] + s) == TrimStart(s)
  {
    assert ([c] + s)[1..] == s;
  }

  lemma TrimCrLf(s: string)
    requires s != "" && !IsSpace(s[|s| - 1])
    ensures TrimEnd(s + "\r\n") == s
  {
    TrimEndOfSpace(s + "\r", '\n');
    TrimEndOfSpace(s, '\r');
    assert s + "\r" + "\n" == s + "\r\n";
  }

  lemma CrLfCompletes(s: string)
    requires '\n' !in s
    ensures Complete(s + "\r\n", '\n')
  {
    assert (s + "\r\n")[..|s| + 1] == s + "\r";
  }

  lemma NoNewline(s: string)
    requires NoSpace(s)
    ensures '\n' !in s
  {
  }

  // ---------------------------------------------------------------- decimal numbers

  predicate IsDigit(c: char) {
    '0' <= c <= '9'
  }

  predicate AllDigits(s: string) {
    forall i :: 0 <= i < |s| ==> IsDigit(s[i])
  }

  function Digit(d: nat): (c: char)
    requires d < 10
    ensures IsDigit(c) && c as int - '0' as int == d
  {
    ('0' as int + d) as char
  }

  /** Decimal notation without sign or leading zeros. */
  function Decimal(n: nat): (s: string)
    ensures s != "" && AllDigits(s)
  {
    if n < 10 then [Digit(n)] else Decimal(n / 10) + [Digit(n % 10)]
  }

  function Value(s: string): nat
    requires AllDigits(s)
  {
    if s == "" then 0 else 10 * Value(s[..|s| - 1]) + (s[|s| - 1] as int - '0' as int)
  }

  /** Reading back what was printed gives the number. */
  lemma {:induction false} ValueOfDecimal(n: nat)
    ensures Value(Decimal(n)) == n
  {
    var s := Decimal(n);
    if n >= 10 {
      ValueOfDecimal(n / 10);
      assert s[..|s| - 1] == Decimal(n / 10);
    } else {
      assert s[..|s| - 1] == "";
    }
  }

  /** Distinct numbers print differently. */
  lemma DecimalInjective(m: nat, n: nat)
    requires Decimal(m) == Decimal(n)
    ensures m == n
  {
    ValueOfDecimal(m);
    ValueOfDecimal(n);
  }

  /**
   * Rust's `parse` for an unsigned type with maximum `max`: an optional `+`, at least one digit,
   * leading zeros allowed, overflow refused.
   */
  function ParseUnsigned(s: string, max: nat): (r: Option<nat>)
    ensures r.Some? ==> r.value <= max
  {
    var digits := if s != "" && s[0] == '+' then s[1..] else s;
    if digits != "" && AllDigits(digits) && Value(digits) <= max then Some(Value(digits)) else None
  }

  /** `z` times the digit zero. */
  function Zeros(z: nat): (s: string)
    ensures |s| == z && AllDigits(s)
  {
    if z == 0 then "" else Zeros(z - 1) + "0"
  }

  /** A numeral for `n`: its decimal notation, perhaps with zeros and a plus sign in front. */
  ghost predicate Numeral(s: string, n: nat) {
    exists z: nat :: s == Zeros(z) + Decimal(n) || s == "+" + (Zeros(z) + Decimal(n))
  }

  lemma ValueOfMore(s: string, d: nat)
    requires AllDigits(s) && d < 10
    ensures AllDigits(s + [Digit(d)]) && Value(s + [Digit(d)]) == 10 * Value(s) + d
  {
    assert (s + [Digit(d)])[..|s|] == s;
  }

  lemma {:induction false} ValueAfterZeros(z: nat, n: nat)
    ensures Value(Zeros(z) + Decimal(n)) == n
    decreases n
  {
    if n < 10 {
      ValueOfZeros(z);
      ValueOfMore(Zeros(z), n);
    } else {
      ValueAfterZeros(z, n / 10);
      var front := Zeros(z) + Decimal(n / 10);
      ValueOfMore(front, n % 10);
      assert front + [Digit(n % 10)] == Zeros(z) + Decimal(n);
    }
  }

  lemma {:induction false} ValueOfZeros(z: nat)
    ensures Value(Zeros(z)) == 0
  {
    if z > 0 {
      ValueOfZeros(z - 1);
      assert Zeros(z)[..z - 1] == Zeros(z - 1);
    }
  }

  /** Every text of digits is the decimal notation of its value after some zeros. */
  lemma {:induction false} DigitsAreNumeral(s: string) returns (z: nat)
    requires s != "" && AllDigits(s)
    ensures s == Zeros(z) + Decimal(Value(s))
  {
    var front, c := s[..|s| - 1], s[|s| - 1];
    assert s == front + [c];
    if front == "" {
      z := 0;
    } else {
      z := DigitsAreNumeral(front);
      if Value(front) == 0 {
        z := z + 1;
        assert Decimal(0) == "0";
      }
    }
  }

  /** Exactly the numerals of the numbers up to the maximum are accepted, each as its number. */
  lemma ParseUnsignedIff(s: string, max: nat, n: nat)
    ensures ParseUnsigned(s, max) == Some(n) <==> n <= max && Numeral(s, n)
  {
    if ParseUnsigned(s, max) == Some(n) {
      ParsedIsNumeral(s, max, n);
    }
    if n <= max && Numeral(s, n) {
      NumeralParses(s, max, n);
    }
  }

  lemma ParsedIsNumeral(s: string, max: nat, n: nat)
    requires ParseUnsigned(s, max) == Some(n)
    ensures Numeral(s, n)
  {
    var digits := if s != "" && s[0] == '+' then s[1..] else s;
    var z := DigitsAreNumeral(digits);
    assert s == digits || s == "+" + digits;
  }

  lemma DigitsParse(digits: string, max: nat)
    requires digits != "" && AllDigits(digits) && Value(digits) <= max
    ensures ParseUnsigned(digits, max) == Some(Value(digits)) && ParseUnsigned("+" + digits, max) == Some(Value(digits))
  {
    assert IsDigit(digits[0]);
    assert ("+" + digits)[1..] == digits;
  }

  lemma NumeralParses(s: string, max: nat, n: nat)
    requires n <= max && Numeral(s, n)
    ensures ParseUnsigned(s, max) == Some(n)
  {
    var z: nat :| s == Zeros(z) + Decimal(n) || s == "+" + (Zeros(z) + Decimal(n));
    ValueAfterZeros(z, n);
    DigitsParse(Zeros(z) + Decimal(n), max);
  }

  const MAX_U16: nat := 65535
  const MAX_USIZE: nat := 0xFFFF_FFFF_FFFF_FFFF

  lemma ParseOfDecimal(n: nat, max: nat)
    requires n <= max
    ensures ParseUnsigned(Decimal(n), max) == Some(n)
  {
    ValueOfDecimal(n);
  }

  lemma DigitsAreNotSpaces(s: string)
    requires AllDigits(s)
    ensures NoSpace(s) && ':' !in s && ']' !in s && '/' !in s && '-' !in s
  {
  }
}
