/** UTF-8, as the line readers check it and the writers produce it (section 3 of RFC 3629). */
module Utf8 {
  import opened Bytes
  import opened Text

  // ---------------------------------------------------------------- one character

  function Octet(n: nat): byte
    requires n < 256
  {
    n as byte
  }

  /** A continuation octet carrying the six low bits of `n`. */
  function Low(n: nat): (b: byte)
    ensures 0x80 <= b < 0xC0 && b as int == 0x80 + n % 64
  {
    Octet(0x80 + n % 64)
  }

  function EncodeChar(c: char): (b: seq<byte>)
    ensures 0 < |b| <= 4
  {
    var n := c as int;
    if n < 0x80 then [Octet(n)]
    else if n < 0x800 then [Octet(0xC0 + n / 64), Low(n)]
    else if n < 0x1_0000 then [Octet(0xE0 + n / 64 / 64), Low(n / 64), Low(n)]
    else [Octet(0xF0 + n / 64 / 64 / 64), Low(n / 64 / 64), Low(n / 64), Low(n)]
  }

  predicate Continues(b: seq<byte>, i: nat) {
    i < |b| && 0x80 <= b[i] < 0xC0
  }

  /** Whether octet 1 can follow octet 0: rules out overlong forms, surrogates and numbers beyond Unicode. */
  predicate Second(b: seq<byte>) {
    && Continues(b, 1)
    && (b[0] == 0xE0 ==> b[1] >= 0xA0) && (b[0] == 0xED ==> b[1] < 0xA0)
    && (b[0] == 0xF0 ==> b[1] >= 0x90) && (b[0] == 0xF4 ==> b[1] < 0x90)
  }

  /** Length of the character a first octet announces; 0 if none starts with it. */
  function Announced(first: byte): (n: nat)
    ensures n <= 4
  {
    if first < 0x80 then 1
    else if 0xC2 <= first < 0xE0 then 2
    else if 0xE0 <= first < 0xF0 then 3
    else if 0xF0 <= first < 0xF5 then 4
    else 0
  }

  /** How many octets at the start of `b` can belong to one character. */
  function Matching(b: seq<byte>): (n: nat)
    requires b != []
    ensures n <= Announced(b[0]) && n <= |b|
  {
    var size := Announced(b[0]);
    if size <= 1 then size
    else if !Second(b) then 1
    else if size == 2 || !Continues(b, 2) then 2
    else if size == 3 || !Continues(b, 3) then 3
    else 4
  }

  /** Whether `b` starts with a well-formed character. */
  predicate StartsChar(b: seq<byte>) {
    b != [] && Announced(b[0]) > 0 && Matching(b) == Announced(b[0])
  }

  function Bits(b: byte): int {
    b as int - 0x80
  }

  /** The code point `b` starts with. */
  function CodePoint(b: seq<byte>): (n: nat)
    requires StartsChar(b)
    ensures n < 0xD800 || 0xE000 <= n < 0x11_0000
  {
    var first := b[0] as int;
    match Announced(b[0])
    case 1 => first
    case 2 => (first - 0xC0) * 64 + Bits(b[1])
    case 3 => ((first - 0xE0) * 64 + Bits(b[1])) * 64 + Bits(b[2])
    case _ => (((first - 0xF0) * 64 + Bits(b[1])) * 64 + Bits(b[2])) * 64 + Bits(b[3])
  }

  function FirstChar(b: seq<byte>): char
    requires StartsChar(b)
  {
    CodePoint(b) as char
  }

  lemma SixBits(high: nat, low: nat)
    requires low < 64
    ensures (high * 64 + low) / 64 == high && (high * 64 + low) % 64 == low
  {
  }

  /** Encoding the first character gives back the octets it was read from. */
  lemma {:induction false} FirstCharEncodes(b: seq<byte>)
    requires StartsChar(b)
    ensures EncodeChar(FirstChar(b)) == b[..Announced(b[0])]
  {
    var first := b[0] as int;
    match Announced(b[0]) {
      case 1 =>
      case 2 => SixBits(first - 0xC0, Bits(b[1]));
      case 3 => ThreeOctets(b);
      case _ => FourOctets(b);
    }
  }

  lemma ThreeOctets(b: seq<byte>)
    requires StartsChar(b) && Announced(b[0]) == 3
    ensures EncodeChar(FirstChar(b)) == b[..3]
  {
    var high := b[0] as int - 0xE0;
    SixBits(high, Bits(b[1]));
    SixBits(high * 64 + Bits(b[1]), Bits(b[2]));
  }

  lemma FourOctets(b: seq<byte>)
    requires StartsChar(b) && Announced(b[0]) == 4
    ensures EncodeChar(FirstChar(b)) == b[..4]
  {
    var high := b[0] as int - 0xF0;
    SixBits(high, Bits(b[1]));
    SixBits(high * 64 + Bits(b[1]), Bits(b[2]));
    SixBits((high * 64 + Bits(b[1])) * 64 + Bits(b[2]), Bits(b[3]));
  }

  /** An encoded character is well-formed and is read back, whatever follows. */
  lemma EncodedChar(c: char, rest: seq<byte>)
    ensures var b := EncodeChar(c) + rest;
            StartsChar(b) && Announced(b[0]) == |EncodeChar(c)| && FirstChar(b) == c
  {
    var n := c as int;
    assert n == n / 64 * 64 + n % 64 && n / 64 == n / 64 / 64 * 64 + n / 64 % 64;
  }

  /** The newline octet occurs in no character but the newline. */
  lemma NewlineChar(c: char)
    ensures 10 in EncodeChar(c) <==> c == '\n'
    ensures EncodeChar('\n') == [10] && EncodeChar('\r') == [13]
  {
  }

  // ---------------------------------------------------------------- text

  function Encode(s: string): seq<byte> {
    if s == "" then [] else EncodeChar(s[0]) + Encode(s[1..])
  }

  /** The text of well-formed octets; none if they are not. */
  function Decode(b: seq<byte>): Option<string> {
    if b == [] then Some("")
    else if !StartsChar(b) then None
    else
      match Decode(b[Announced(b[0])..])
      case None => None
      case Some(s) => Some([FirstChar(b)] + s)
  }

  /** Decoding that replaces each maximal ill-formed piece by one U+FFFD. */
  function DecodeLossy(b: seq<byte>): string {
    if b == [] then ""
    else if StartsChar(b) then [FirstChar(b)] + DecodeLossy(b[Announced(b[0])..])
    else
      var skip := if Matching(b) == 0 then 1 else Matching(b);
      ['\U{FFFD}'] + DecodeLossy(b[skip..])
  }

  lemma CharThenRest(c: char, rest: seq<byte>)
    ensures var b := EncodeChar(c) + rest;
            b != [] && StartsChar(b) && FirstChar(b) == c && b[Announced(b[0])..] == rest
  {
    EncodedChar(c, rest);
  }

  /** Every text survives: strict and lossy decoding both give it back. */
  lemma {:induction false} DecodeOfEncode(s: string)
    ensures Decode(Encode(s)) == Some(s) && DecodeLossy(Encode(s)) == s
  {
    if s != "" {
      CharThenRest(s[0], Encode(s[1..]));
      DecodeOfEncode(s[1..]);
      assert s == [s[0]] + s[1..];
    }
  }

  lemma DecodeFirst(b: seq<byte>)
    requires b != [] && Decode(b).Some?
    ensures StartsChar(b) && Decode(b[Announced(b[0])..]).Some?
    ensures Decode(b).value == [FirstChar(b)] + Decode(b[Announced(b[0])..]).value
  {
  }

  lemma EncodeFirst(c: char, s: string)
    ensures Encode([c] + s) == EncodeChar(c) + Encode(s)
  {
    assert ([c] + s)[1..] == s;
  }

  lemma Rebuilt(b: seq<byte>, n: nat, front: seq<byte>, back: seq<byte>)
    requires n <= |b| && front == b[..n] && back == b[n..]
    ensures front + back == b
  {
  }

  /** Decoding loses nothing: only the encoding of a text decodes to it. */
  lemma {:induction false} EncodeOfDecode(b: seq<byte>)
    requires Decode(b).Some?
    ensures Encode(Decode(b).value) == b
  {
    if b != [] {
      DecodeFirst(b);
      var n := Announced(b[0]);
      EncodeOfDecode(b[n..]);
      FirstCharEncodes(b);
      EncodeFirst(FirstChar(b), Decode(b[n..]).value);
      Rebuilt(b, n, EncodeChar(FirstChar(b)), Encode(Decode(b[n..]).value));
    }
  }

  /** Decoding is the exact inverse of encoding. */
  lemma {:induction false} DecodesIff(b: seq<byte>, s: string)
    ensures Decode(b) == Some(s) <==> b == Encode(s)
  {
    DecodeOfEncode(s);
    if Decode(b).Some? {
      EncodeOfDecode(b);
    }
  }

  /** The ASCII octets of `b`, as characters. */
  function AsciiOf(b: seq<byte>): string {
    if b == [] then "" else (if b[0] < 128 then [b[0] as int as char] else "") + AsciiOf(b[1..])
  }

  /** The ASCII characters of `s`. */
  function AsciiIn(s: string): string {
    if s == "" then "" else (if s[0] as int < 128 then [s[0]] else "") + AsciiIn(s[1..])
  }

  lemma {:induction false} AsciiFromHigh(b: seq<byte>, n: nat)
    requires n <= |b| && forall i :: 0 <= i < n ==> b[i] >= 128
    ensures AsciiOf(b) == AsciiOf(b[n..])
    decreases n
  {
    if n > 0 {
      assert b[1..][n - 1..] == b[n..];
      AsciiFromHigh(b[1..], n - 1);
    } else {
      assert b[0..] == b;
    }
  }

  /** Octets that can belong to one character, other than an ASCII one, are all beyond ASCII. */
  lemma MatchingIsHigh(b: seq<byte>)
    requires b != [] && b[0] >= 128
    ensures forall i :: 0 <= i < Matching(b) ==> b[i] >= 128
    ensures StartsChar(b) ==> FirstChar(b) as int >= 128
  {
  }

  /** Whatever the octets, lossy decoding keeps every ASCII one, in order, and makes up none. */
  lemma {:induction false} LossyKeepsAscii(b: seq<byte>)
    ensures AsciiIn(DecodeLossy(b)) == AsciiOf(b)
  {
    if b != [] {
      var s := DecodeLossy(b);
      if b[0] < 128 {
        LossyKeepsAscii(b[1..]);
        assert s == [b[0] as int as char] + DecodeLossy(b[1..]);
      } else {
        var n := if StartsChar(b) then Announced(b[0]) else if Matching(b) == 0 then 1 else Matching(b);
        MatchingIsHigh(b);
        LossyKeepsAscii(b[n..]);
        AsciiFromHigh(b, n);
        assert s[1..] == DecodeLossy(b[n..]) && s[0] as int >= 128;
      }
    }
  }

  lemma {:induction false} EncodeOfTwo(a: string, b: string)
    ensures Encode(a + b) == Encode(a) + Encode(b)
  {
    if a == "" {
      assert a + b == b;
    } else {
      assert (a + b)[1..] == a[1..] + b && (a + b)[0] == a[0];
      EncodeOfTwo(a[1..], b);
    }
  }

  lemma {:induction false} NewlineIff(s: string)
    ensures 10 in Encode(s) <==> '\n' in s
  {
    if s != "" {
      NewlineChar(s[0]);
      NewlineIff(s[1..]);
      assert s == [s[0]] + s[1..];
    }
  }
}
