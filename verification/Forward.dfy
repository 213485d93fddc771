/**
 * Line-by-line reading of request heads and plain-HTTP forwarding into a tunnel. Streams are
 * octets; a header line is text, because the reader refuses lines that are not UTF-8.
 */
module Forward {
  import opened Bytes
  import opened Text
  import opened Utf8
  import opened Proxy

  const LF: byte := 10
  const CRLF: seq<byte> := [13, 10]

  // ---------------------------------------------------------------- reading the head

  /** The source's test: a line is blank when nothing is left after trimming it. */
  lemma BlankIffTrimsToNothing(line: string)
    ensures IsBlank(line) <==> Trim(line) == ""
  {
    var t := TrimStart(line);
    TrimStartDrops(line);
    TrimEndDrops(t);
    assert t != "" ==> t[0] == line[|line| - |t|];
    assert t == "" ==> line[..|line|] == line;
  }

  /** The header lines, the blank line that ended them (empty at EOF), and what is left to read. */
  datatype RequestHead = NotText | RequestHead(headers: seq<string>, blank: seq<byte>, rest: seq<byte>)

  function WithHeader(line: string, head: RequestHead): RequestHead {
    if head.NotText? then NotText else head.(headers := [line] + head.headers)
  }

  /** Reads lines up to the first blank one or EOF; fails at the first line that is not UTF-8. */
  function SplitHead(s: seq<byte>): RequestHead
    decreases |s|
  {
    var raw := FirstLine(s, LF);
    match Decode(raw)
    case None => NotText
    case Some(line) =>
      if IsBlank(line) then RequestHead([], raw, s[|raw|..]) else WithHeader(line, SplitHead(s[|raw|..]))
  }

  /** The octets of some lines. */
  function EncodeAll(lines: seq<string>): seq<byte> {
    if lines == [] then [] else Encode(lines[0]) + EncodeAll(lines[1..])
  }

  /** The octets of a blank line. */
  ghost predicate BlankOctets(raw: seq<byte>) {
    Decode(raw).Some? && IsBlank(Decode(raw).value)
  }

  /** What a head is, line by line: the octets of each header, none of them blank, then a blank line. */
  ghost predicate IsHead(s: seq<byte>, headers: seq<string>, blank: seq<byte>, rest: seq<byte>)
    decreases |headers|
  {
    var raw := FirstLine(s, LF);
    if headers == [] then blank == raw && rest == s[|raw|..] && BlankOctets(blank)
    else raw == Encode(headers[0]) && !IsBlank(headers[0]) && IsHead(s[|raw|..], headers[1..], blank, rest)
  }

  lemma HeadUnfolds(s: seq<byte>)
    requires SplitHead(s).RequestHead? && SplitHead(s).headers != []
    ensures var raw, line := FirstLine(s, LF), SplitHead(s).headers[0];
            && Decode(raw) == Some(line) && !IsBlank(line)
            && SplitHead(s) == WithHeader(line, SplitHead(s[|raw|..]))
  {
  }

  lemma WithHeaderParts(line: string, tail: RequestHead, head: RequestHead)
    requires head == WithHeader(line, tail) && head.RequestHead?
    ensures tail == head.(headers := head.headers[1..])
  {
  }

  /** The loop finds a head. */
  lemma {:induction false} SplitHeadIsHead(s: seq<byte>)
    requires SplitHead(s).RequestHead?
    ensures IsHead(s, SplitHead(s).headers, SplitHead(s).blank, SplitHead(s).rest)
    decreases |s|
  {
    var head := SplitHead(s);
    if head.headers != [] {
      var raw := FirstLine(s, LF);
      HeadUnfolds(s);
      DecodesIff(raw, head.headers[0]);
      WithHeaderParts(head.headers[0], SplitHead(s[|raw|..]), head);
      SplitHeadIsHead(s[|raw|..]);
    }
  }

  /** It finds every head: it fails only if there is none, at a line that is not text. */
  lemma {:induction false} IsHeadIsSplit(s: seq<byte>, headers: seq<string>, blank: seq<byte>, rest: seq<byte>)
    requires IsHead(s, headers, blank, rest)
    ensures SplitHead(s) == RequestHead(headers, blank, rest)
    decreases |headers|
  {
    if headers != [] {
      IsHeadIsSplit(s[|FirstLine(s, LF)|..], headers[1..], blank, rest);
      DecodeOfEncode(headers[0]);
      NonBlankEncodes(headers[0]);
      FirstHeaderSplits(s, headers[0], RequestHead(headers[1..], blank, rest));
      assert [headers[0]] + headers[1..] == headers;
    }
  }

  lemma FirstHeaderSplits(s: seq<byte>, line: string, later: RequestHead)
    requires Decode(FirstLine(s, LF)) == Some(line) && !IsBlank(line) && |FirstLine(s, LF)| > 0
    requires SplitHead(s[|FirstLine(s, LF)|..]) == later
    ensures SplitHead(s) == WithHeader(line, later)
  {
  }

  lemma FirstLineSplits(s: seq<byte>)
    ensures var raw := FirstLine(s, LF); s == raw + s[|raw|..]
  {
  }

  lemma {:induction false} IsHeadConserves(s: seq<byte>, headers: seq<string>, blank: seq<byte>, rest: seq<byte>)
    requires IsHead(s, headers, blank, rest)
    ensures EncodeAll(headers) + blank + rest == s
    decreases |headers|
  {
    var raw := FirstLine(s, LF);
    FirstLineSplits(s);
    if headers == [] {
      Joined([], blank, rest);
    } else {
      IsHeadConserves(s[|raw|..], headers[1..], blank, rest);
      Prepend(raw, EncodeAll(headers[1..]), blank, rest);
    }
  }

  /** Reading the head loses no octet: headers, the blank line and the rest are the input. */
  lemma {:induction false} HeadConserves(s: seq<byte>)
    requires SplitHead(s).RequestHead?
    ensures EncodeAll(SplitHead(s).headers) + SplitHead(s).blank + SplitHead(s).rest == s
  {
    SplitHeadIsHead(s);
    IsHeadConserves(s, SplitHead(s).headers, SplitHead(s).blank, SplitHead(s).rest);
  }

  lemma {:induction false} IsHeadStopsAtBlank(s: seq<byte>, headers: seq<string>, blank: seq<byte>, rest: seq<byte>)
    requires IsHead(s, headers, blank, rest)
    ensures BlankOctets(blank) && forall i :: 0 <= i < |headers| ==> !IsBlank(headers[i])
    decreases |headers|
  {
    if headers != [] {
      IsHeadStopsAtBlank(s[|FirstLine(s, LF)|..], headers[1..], blank, rest);
      assert forall i :: 0 < i < |headers| ==> headers[i] == headers[1..][i - 1];
    }
  }

  /** The header loop stops at the first blank line: no header is blank, and what stopped it is. */
  lemma {:induction false} HeadStopsAtBlank(s: seq<byte>)
    requires SplitHead(s).RequestHead?
    ensures BlankOctets(SplitHead(s).blank)
    ensures forall i :: 0 <= i < |SplitHead(s).headers| ==> !IsBlank(SplitHead(s).headers[i])
  {
    SplitHeadIsHead(s);
    IsHeadStopsAtBlank(s, SplitHead(s).headers, SplitHead(s).blank, SplitHead(s).rest);
  }

  lemma Joined(a: seq<byte>, b: seq<byte>, c: seq<byte>)
    ensures (a + b) + c == a + (b + c) && [] + b == b
  {
  }

  lemma Prepend(a: seq<byte>, b: seq<byte>, c: seq<byte>, d: seq<byte>)
    ensures (a + b) + c + d == a + (b + c + d)
  {
  }

  // ---------------------------------------------------------------- dispatch

  /** What the first line of a connection makes of it. */
  datatype Request =
    | Unreadable | Empty | Connect(line: string, rest: seq<byte>) | Plain(line: string, rest: seq<byte>)

  /** CONNECT in any case, then a space. No character outside ASCII has an upper case that matters here. */
  predicate OpensConnect(line: string) {
    |line| >= 8 && EqIgnoreCase(line[..7], "CONNECT") && line[7] == ' '
  }

  function Classify(input: seq<byte>): Request {
    var raw := FirstLine(input, LF);
    match Decode(raw)
    case None => Unreadable
    case Some(text) =>
      var line, rest := TrimEnd(text), input[|raw|..];
      if line == "" then Empty else if OpensConnect(line) then Connect(line, rest) else Plain(line, rest)
  }

  /** What is handled as CONNECT has that method: the parser never finds another one there. */
  lemma {:induction false} DispatchedIsConnect(input: seq<byte>)
    requires Classify(input).Connect?
    ensures ParseConnect(Classify(input).line) != Err(NotConnect)
  {
    var line := Classify(input).line;
    var verb, tail := line[..7], line[7..];
    LettersAreNotSpaces(verb);
    SplitFirst(verb, tail);
    assert verb + tail == line;
  }

  /** The lines that go to the CONNECT handler: the method in either case of each letter, and a space. */
  lemma OpensConnectIff(line: string)
    ensures OpensConnect(line) <==>
              && |line| >= 8 && line[7] == ' '
              && forall i :: 0 <= i < 7 ==> line[i] == "CONNECT"[i] || line[i] == "connect"[i]
  {
    if |line| >= 8 {
      ConnectInAnyCase(line[..7]);
      assert forall i :: 0 <= i < 7 ==> line[..7][i] == line[i];
    }
  }

  /** A first line that is read as text is dispatched by its beginning, and nothing behind it is read. */
  lemma {:induction false} RequestReceived(line: string, rest: seq<byte>)
    requires line != "" && '\n' !in line && !IsSpace(line[|line| - 1])
    ensures Classify(Encode(line + "\r\n") + rest) == if OpensConnect(line) then Connect(line, rest) else Plain(line, rest)
  {
    CrLfCompletes(line);
    EncodedComplete(line + "\r\n");
    FirstLineOfComplete(Encode(line + "\r\n"), LF, rest);
    DecodeOfEncode(line + "\r\n");
    TrimCrLf(line);
  }

  /** The connection is unreadable exactly if its first line is no text, and empty exactly if it is blank. */
  lemma {:induction false} UnreadableIff(input: seq<byte>)
    ensures Classify(input).Unreadable? <==> !IsText(FirstLine(input, LF))
    ensures Classify(input).Empty? <==> IsBlankText(FirstLine(input, LF))
  {
    var raw := FirstLine(input, LF);
    IsTextIff(raw);
    if Decode(raw).Some? {
      BlankIffTrimsEnd(Decode(raw).value);
    }
  }

  /** The octets of some text. */
  ghost predicate IsText(raw: seq<byte>) {
    exists line: string :: raw == Encode(line)
  }

  ghost predicate IsBlankText(raw: seq<byte>) {
    exists line: string :: raw == Encode(line) && IsBlank(line)
  }

  lemma IsTextIff(raw: seq<byte>)
    ensures Decode(raw).Some? <==> IsText(raw)
    ensures Decode(raw).Some? && IsBlank(Decode(raw).value) <==> IsBlankText(raw)
  {
    if Decode(raw).Some? {
      DecodesIff(raw, Decode(raw).value);
    }
    if line: string :| raw == Encode(line) {
      DecodesIff(raw, line);
    }
    if line: string :| raw == Encode(line) && IsBlank(line) {
      DecodesIff(raw, line);
    }
  }

  lemma BlankIffTrimsEnd(line: string)
    ensures IsBlank(line) <==> TrimEnd(line) == ""
  {
    TrimEndDrops(line);
  }

  // ---------------------------------------------------------------- Content-Length

  /** The length a header line announces, if it is a Content-Length line that parses. */
  function LengthOf(line: string): Option<nat> {
    if StartsWith(line, "Content-Length:") || StartsWith(line, "content-length:")
    then ParseUnsigned(Trim(line[15..]), MAX_USIZE)
    else None
  }

  /** The last parseable Content-Length, zero if there is none. */
  function ContentLength(lines: seq<string>): nat {
    if lines == [] then 0
    else
      match LengthOf(lines[|lines| - 1])
      case Some(n) => n
      case None => ContentLength(lines[..|lines| - 1])
  }

  /** Both spellings of the header are recognised, whatever number they announce. */
  lemma AnnouncedLength(name: string, n: nat)
    requires (name == "Content-Length:" || name == "content-length:") && n <= MAX_USIZE
    ensures LengthOf(name + (" " + Decimal(n) + "\r\n")) == Some(n)
  {
    var value := " " + Decimal(n) + "\r\n";
    assert (name + value)[15..] == value && StartsWith(name + value, name);
    PaddedTrims(Decimal(n));
    ParseOfDecimal(n, MAX_USIZE);
  }

  /** Exactly the lines with one of the two names and a numeral announce a length, namely its number. */
  lemma {:induction false} LengthIff(line: string, n: nat)
    ensures LengthOf(line) == Some(n) <==>
              && (StartsWith(line, "Content-Length:") || StartsWith(line, "content-length:"))
              && n <= MAX_USIZE && Numeral(Trim(line[15..]), n)
  {
    if StartsWith(line, "Content-Length:") || StartsWith(line, "content-length:") {
      ParseUnsignedIff(Trim(line[15..]), MAX_USIZE, n);
    }
  }

  /** None of the lines behind line `i` announces a length; from -1 on, none at all does. */
  ghost predicate NoLengthBehind(lines: seq<string>, i: int) {
    forall j :: 0 <= j < |lines| && i < j ==> LengthOf(lines[j]).None?
  }

  lemma NoLengthBehindFront(lines: seq<string>, i: int)
    requires lines != [] && NoLengthBehind(lines, i)
    ensures NoLengthBehind(lines[..|lines| - 1], i)
  {
    var front := lines[..|lines| - 1];
    assert forall j :: 0 <= j < |front| ==> front[j] == lines[j];
  }

  /** The announced length is that of the last line that announces one. */
  lemma {:induction false} LastLengthCounts(lines: seq<string>, i: nat)
    requires i < |lines| && LengthOf(lines[i]).Some? && NoLengthBehind(lines, i)
    ensures ContentLength(lines) == LengthOf(lines[i]).value
    decreases |lines|
  {
    var n := |lines| - 1;
    if i < n {
      NoLengthBehindFront(lines, i);
      LastLengthCounts(lines[..n], i);
      assert LengthOf(lines[n]).None?;
    }
  }

  /** It is 0 if no line announces one. */
  lemma {:induction false} NoLengthIsZero(lines: seq<string>)
    requires NoLengthBehind(lines, -1)
    ensures ContentLength(lines) == 0
  {
    if lines != [] {
      NoLengthBehindFront(lines, -1);
      NoLengthIsZero(lines[..|lines| - 1]);
      assert LengthOf(lines[|lines| - 1]).None?;
    }
  }

  lemma PaddedTrims(digits: string)
    requires digits != "" && AllDigits(digits)
    ensures Trim(" " + digits + "\r\n") == digits
  {
    DigitsAreNotSpaces(digits);
    var t := digits + "\r\n";
    TrimStartOfSpace(' ', t);
    assert [' '] + t == " " + digits + "\r\n" && t[0] == digits[0];
    TrimCrLf(digits);
  }

  lemma ContentLengthAppend(lines: seq<string>, line: string)
    ensures ContentLength(lines + [line]) == if LengthOf(line).Some? then LengthOf(line).value else ContentLength(lines)
  {
    assert (lines + [line])[..|lines|] == lines;
  }

  /** Takes over the length a header line announces, if it announces one. */
  method TrackLength(ghost headers: seq<string>, line: string, current: nat) returns (n: nat)
    requires current == ContentLength(headers)
    ensures n == ContentLength(headers + [line])
  {
    ContentLengthAppend(headers, line);
    var len := LengthOf(line);
    n := if len.Some? then len.value else current;
  }

  /** `head` with the headers read before it. */
  function Behind(headers: seq<string>, head: RequestHead): RequestHead {
    if head.NotText? then NotText else head.(headers := headers + head.headers)
  }

  lemma BehindOneMore(headers: seq<string>, line: string, head: RequestHead)
    ensures Behind(headers, WithHeader(line, head)) == Behind(headers + [line], head)
  {
    if head.RequestHead? {
      assert headers + ([line] + head.headers) == (headers + [line]) + head.headers;
    }
  }

  /** The header loop. */
  method ReadHeaders(input: seq<byte>) returns (head: RequestHead, contentLength: nat)
    ensures head == SplitHead(input)
    ensures head.RequestHead? ==> contentLength == ContentLength(head.headers)
  {
    var headers, rest := [], input;
    contentLength := 0;
    while true
      invariant Behind(headers, SplitHead(rest)) == SplitHead(input)
      invariant contentLength == ContentLength(headers)
      decreases |rest|
    {
      var raw := FirstLine(rest, LF);
      var decoded := Decode(raw);
      if decoded.None? {
        return NotText, contentLength;
      }
      var line := decoded.value;
      if IsBlank(line) {
        return RequestHead(headers, raw, rest[|raw|..]), contentLength;
      }
      BehindOneMore(headers, line, SplitHead(rest[|raw|..]));
      contentLength := TrackLength(headers, line, contentLength);
      headers, rest := headers + [line], rest[|raw|..];
    }
  }

  /** The loop that discards the headers of a CONNECT request: it stops at the same place. */
  method DiscardHeaders(input: seq<byte>) returns (ok: bool, rest: seq<byte>)
    ensures ok <==> SplitHead(input).RequestHead?
    ensures ok ==> rest == SplitHead(input).rest
  {
    rest := input;
    while true
      invariant SplitHead(rest).RequestHead? <==> SplitHead(input).RequestHead?
      invariant SplitHead(rest).RequestHead? ==> SplitHead(rest).rest == SplitHead(input).rest
      decreases |rest|
    {
      var raw := FirstLine(rest, LF);
      var line := Decode(raw);
      if line.None? {
        return false, rest;
      }
      rest := rest[|raw|..];
      if IsBlank(line.value) {
        return true, rest;
      }
    }
  }

  // ---------------------------------------------------------------- forwarding

  /** What reaches a tunnel with `room` octets of room. */
  function Sent(data: seq<byte>, room: nat): seq<byte> {
    if |data| <= room then data else data[..room]
  }

  /** The tunnel's write side: it takes `room` more octets and then breaks. */
  class Tunnel {
    var received: seq<byte>
    var room: nat

    constructor (room: nat)
      ensures received == [] && this.room == room
    {
      received, this.room := [], room;
    }

    method WriteAll(data: seq<byte>) returns (ok: bool)
      modifies this
      ensures ok == (|data| <= old(room))
      ensures received == old(received) + Sent(data, old(room))
      ensures room == if ok then old(room) - |data| else 0
    {
      if |data| <= room {
        received, room, ok := received + data, room - |data|, true;
      } else {
        received, room, ok := received + data[..room], 0, false;
      }
    }
  }

  datatype Outcome =
    | BadRequest(error: ProxyError) | GarbledHead | NoTunnel | TunnelBroke | BodyTooShort | Panicked | Forwarded

  /** The largest buffer that can be asked for; asking for more panics. */
  const MAX_ISIZE: nat := 0x7FFF_FFFF_FFFF_FFFF

  /** Request line, header lines verbatim and one CRLF. */
  function HeadBytes(line: string, headers: seq<string>): seq<byte> {
    Encode(line) + EncodeAll(headers) + CRLF
  }

  /** The body octets to forward: the announced length, or none if the client sent fewer. */
  function Payload(rest: seq<byte>, n: nat): seq<byte> {
    if n <= MAX_ISIZE && n <= |rest| then rest[..n] else []
  }

  function RequestLine(r: HttpRequest): string {
    RewrittenLine(r) + "\r\n"
  }

  /** Everything a forward tries to put into the tunnel. */
  function Message(r: HttpRequest, head: RequestHead): seq<byte>
    requires head.RequestHead?
  {
    HeadBytes(RequestLine(r), head.headers) + Payload(head.rest, ContentLength(head.headers))
  }

  /** How a message with `n` announced and `available` body octets fares. */
  function Fate(fits: bool, n: nat, available: nat): Outcome {
    if !fits then TunnelBroke
    else if n > MAX_ISIZE then Panicked
    else if n > available then BodyTooShort
    else Forwarded
  }

  /** Writing two pieces one after the other is writing them together. */
  lemma SentTwice(a: seq<byte>, b: seq<byte>, room: nat)
    ensures Sent(a + b, room) == if |a| <= room then a + Sent(b, room - |a|) else Sent(a, room)
  {
    if |a| <= room < |a + b| {
      assert (a + b)[..room] == a + b[..room - |a|];
    }
  }

  lemma EncodeAllFrom(lines: seq<string>, i: nat)
    requires i < |lines|
    ensures EncodeAll(lines[i..]) == Encode(lines[i]) + EncodeAll(lines[i + 1..])
  {
    assert lines[i..][1..] == lines[i + 1..];
  }

  /** One round of the write loop: `piece` is next, `later` comes after it, `room` is left. */
  lemma NextPiece(before: seq<byte>, done: seq<byte>, piece: seq<byte>, later: seq<byte>, all: seq<byte>, room: nat)
    requires all == done + (piece + later) && |done| <= room
    ensures all == (done + piece) + later
    ensures (before + done) + piece == before + (done + piece)
    ensures |piece| > room - |done| ==>
              |all| > room && before + done + Sent(piece, room - |done|) == before + Sent(all, room)
  {
    Joined(done, piece, later);
    Joined(before, done, piece);
    SentTwice(done, piece + later, room);
    SentTwice(piece, later, room - |done|);
    Joined(before, done, Sent(piece, room - |done|));
  }

  method WriteHeaders(headers: seq<string>, tunnel: Tunnel) returns (ok: bool)
    modifies tunnel
    ensures ok == (|EncodeAll(headers)| <= old(tunnel.room))
    ensures tunnel.received == old(tunnel.received) + Sent(EncodeAll(headers), old(tunnel.room))
    ensures ok ==> tunnel.room == old(tunnel.room) - |EncodeAll(headers)|
  {
    ghost var before, room, all := tunnel.received, tunnel.room, EncodeAll(headers);
    ghost var done: seq<byte> := [];
    assert headers[0..] == headers;
    Joined([], all, []);
    Joined(before, [], []);
    for i := 0 to |headers|
      invariant all == done + EncodeAll(headers[i..])
      invariant |done| <= room && tunnel.room == room - |done|
      invariant tunnel.received == before + done
    {
      var piece := Encode(headers[i]);
      EncodeAllFrom(headers, i);
      NextPiece(before, done, piece, EncodeAll(headers[i + 1..]), all, room);
      ok := tunnel.WriteAll(piece);
      if !ok {
        return;
      }
      done := done + piece;
    }
    NothingLeft(done, headers);
    ok := true;
  }

  lemma NothingLeft(done: seq<byte>, headers: seq<string>)
    ensures done + EncodeAll(headers[|headers|..]) == done
  {
  }

  method WriteHead(line: string, headers: seq<string>, tunnel: Tunnel) returns (ok: bool)
    modifies tunnel
    ensures ok == (|HeadBytes(line, headers)| <= old(tunnel.room))
    ensures tunnel.received == old(tunnel.received) + Sent(HeadBytes(line, headers), old(tunnel.room))
    ensures ok ==> tunnel.room == old(tunnel.room) - |HeadBytes(line, headers)|
  {
    ghost var before, room := tunnel.received, tunnel.room;
    var first := Encode(line);
    ghost var middle := EncodeAll(headers);
    ThreePieces(before, first, middle, CRLF, room);
    ok := tunnel.WriteAll(first);
    if ok {
      ok := WriteHeaders(headers, tunnel);
      if ok {
        ok := tunnel.WriteAll(CRLF);
      }
    }
  }

  /** What three writes in a row leave in the tunnel, wherever they break. */
  lemma ThreePieces(before: seq<byte>, a: seq<byte>, b: seq<byte>, c: seq<byte>, room: nat)
    ensures var all := before + Sent(a + b + c, room);
            if |a| > room then all == before + Sent(a, room)
            else if |a| + |b| > room then all == before + a + Sent(b, room - |a|)
            else all == before + a + b + Sent(c, room - |a| - |b|)
  {
    SentTwice(a + b, c, room);
    SentTwice(a, b, room);
    if |a| <= room {
      Joined(before, a, Sent(b, room - |a|));
      Joined(before, a, b);
    }
    if |a + b| <= room {
      Joined(before, a + b, Sent(c, room - |a| - |b|));
    }
  }

  /** Reads exactly the announced body, then writes it. */
  method WriteBody(rest: seq<byte>, n: nat, tunnel: Tunnel) returns (outcome: Outcome)
    modifies tunnel
    ensures tunnel.received == old(tunnel.received) + Sent(Payload(rest, n), old(tunnel.room))
    ensures outcome == Fate(|Payload(rest, n)| <= old(tunnel.room), n, |rest|)
  {
    if n > 0 {
      if n > MAX_ISIZE {
        return Panicked;
      }
      if |rest| < n {
        return BodyTooShort;
      }
      var ok := tunnel.WriteAll(rest[..n]);
      if !ok {
        return TunnelBroke;
      }
    }
    return Forwarded;
  }

  /** Request line, headers and body into the tunnel. */
  method WriteMessage(r: HttpRequest, head: RequestHead, contentLength: nat, tunnel: Tunnel) returns (outcome: Outcome)
    requires head.RequestHead? && contentLength == ContentLength(head.headers)
    modifies tunnel
    ensures tunnel.received == old(tunnel.received) + Sent(Message(r, head), old(tunnel.room))
    ensures outcome == Fate(|Message(r, head)| <= old(tunnel.room), ContentLength(head.headers), |head.rest|)
  {
    ghost var before, room := tunnel.received, tunnel.room;
    ghost var first, payload := HeadBytes(RequestLine(r), head.headers), Payload(head.rest, ContentLength(head.headers));
    SentTwice(first, payload, room);
    var ok := WriteHead(RequestLine(r), head.headers, tunnel);
    if !ok {
      return TunnelBroke;
    }
    outcome := WriteBody(head.rest, contentLength, tunnel);
    Joined(before, first, Sent(payload, room - |first|));
  }

  /**
   * Handles a plain HTTP request. The tunnel only ever receives a prefix of the message, and on
   * success all of it; the outcome is determined by the request, the body and the tunnel.
   */
  method HandlePlainHttp(firstLine: string, input: seq<byte>, reachable: bool, tunnel: Tunnel) returns (outcome: Outcome)
    modifies tunnel
    ensures var parsed, head := ParseHttpRequest(firstLine), SplitHead(input);
            if parsed.Err? then outcome == BadRequest(parsed.error) && tunnel.received == old(tunnel.received)
            else if head.NotText? then outcome == GarbledHead && tunnel.received == old(tunnel.received)
            else if !reachable then outcome == NoTunnel && tunnel.received == old(tunnel.received)
            else
              var n, room := ContentLength(head.headers), old(tunnel.room);
              var body := if n <= MAX_ISIZE && n <= |head.rest| then head.rest[..n] else [];
              var all := Encode(RewrittenLine(parsed.value) + "\r\n") + EncodeAll(head.headers) + CRLF + body;
              && tunnel.received == old(tunnel.received) + (if |all| <= room then all else all[..room])
              && (outcome == TunnelBroke <==> |all| > room)
              && (outcome == Panicked <==> |all| <= room && n > MAX_ISIZE)
              && (outcome == BodyTooShort <==> |all| <= room && n <= MAX_ISIZE && n > |head.rest|)
              && (outcome == Forwarded <==> |all| <= room && n <= MAX_ISIZE && n <= |head.rest|)
  {
    var parsed := ParseHttpRequest(firstLine);
    if parsed.Err? {
      return BadRequest(parsed.error);
    }
    var head, contentLength := ReadHeaders(input);
    if head.NotText? {
      return GarbledHead;
    }
    if !reachable {
      return NoTunnel;
    }
    outcome := WriteMessage(parsed.value, head, contentLength, tunnel);
  }

  // ---------------------------------------------------------------- what the other end reads

  /** A text is a complete line exactly when its octets are. */
  lemma EncodedComplete(line: string)
    ensures Complete(Encode(line), LF) <==> Complete(line, '\n')
  {
    if line != "" {
      var n := |line| - 1;
      assert line == line[..n] + [line[n]];
      EncodeOfTwo(line[..n], [line[n]]);
      LastChar(Encode(line[..n]), line[n]);
      assert Encode([line[n]]) == EncodeChar(line[n]);
      NewlineIff(line[..n]);
    }
  }

  lemma LastChar(front: seq<byte>, c: char)
    ensures var b := front + EncodeChar(c);
            Complete(b, LF) <==> c == '\n' && LF !in front
  {
    var b := front + EncodeChar(c);
    NewlineChar(c);
    if c == '\n' {
      assert b[..|b| - 1] == front;
    } else {
      assert b[|b| - 1] == EncodeChar(c)[|EncodeChar(c)| - 1];
    }
  }

  predicate EndsLine(line: string) {
    line != "" && line[|line| - 1] == '\n'
  }

  lemma {:induction false} EncodedEndsLine(line: string)
    requires line != ""
    ensures EndsLine(line) <==> Encode(line) != [] && Encode(line)[|Encode(line)| - 1] == LF
  {
    var n := |line| - 1;
    var c := line[n];
    assert line == line[..n] + [c];
    EncodeOfTwo(line[..n], [c]);
    assert Encode([c]) == EncodeChar(c);
    NewlineChar(c);
    assert Encode(line)[|Encode(line)| - 1] == EncodeChar(c)[|EncodeChar(c)| - 1];
  }

  predicate Ended(headers: seq<string>) {
    headers == [] || EndsLine(headers[|headers| - 1])
  }

  /** The input is over before any blank line, and not because a line is. */
  predicate BreaksOff(input: seq<byte>)
    requires SplitHead(input).RequestHead?
  {
    SplitHead(input).blank == [] && input != [] && input[|input| - 1] != LF
  }

  /** A header line is complete if more input follows it, or if it ends in a newline. */
  lemma FirstHeaderComplete(s: seq<byte>, line: string)
    requires FirstLine(s, LF) == Encode(line) && line != ""
    ensures Complete(line, '\n') <==> |Encode(line)| < |s| || EndsLine(line)
  {
    EncodedComplete(line);
    EncodedEndsLine(line);
    FirstLineCompleteIff(s, LF);
  }

  lemma FirstAndOthers(headers: seq<string>)
    requires headers != [] && Complete(headers[0], '\n')
    requires forall i :: 0 <= i < |headers[1..]| ==> Complete(headers[1..][i], '\n')
    ensures forall i :: 0 <= i < |headers| ==> Complete(headers[i], '\n')
  {
    forall i | 0 < i < |headers|
      ensures Complete(headers[i], '\n')
    {
      assert headers[i] == headers[1..][i - 1];
    }
  }

  /** If there is a header line, there is something to read. */
  lemma HeaderNeedsInput(s: seq<byte>, headers: seq<string>, blank: seq<byte>, rest: seq<byte>)
    requires IsHead(s, headers, blank, rest) && headers != []
    ensures s != [] && headers[0] != ""
  {
    NonBlankEncodes(headers[0]);
  }

  lemma NonBlankEncodes(line: string)
    requires !IsBlank(line)
    ensures line != "" && |Encode(line)| > 0
  {
  }

  /** If the input does not break off inside a header, every header line is complete. */
  lemma {:induction false} HeadersComplete(s: seq<byte>, headers: seq<string>, blank: seq<byte>, rest: seq<byte>)
    requires IsHead(s, headers, blank, rest) && Ended(headers)
    ensures forall i :: 0 <= i < |headers| ==> Complete(headers[i], '\n')
    decreases |headers|
  {
    if headers != [] {
      var next := s[|FirstLine(s, LF)|..];
      HeaderNeedsInput(s, headers, blank, rest);
      FirstHeaderComplete(s, headers[0]);
      if |headers| > 1 {
        HeaderNeedsInput(next, headers[1..], blank, rest);
      }
      HeadersComplete(next, headers[1..], blank, rest);
      FirstAndOthers(headers);
    }
  }

  /** If anything follows the headers, the input did not break off inside one. */
  lemma {:induction false} EndedIfMoreFollows(s: seq<byte>, headers: seq<string>, blank: seq<byte>, rest: seq<byte>)
    requires IsHead(s, headers, blank, rest) && blank + rest != []
    ensures Ended(headers)
    decreases |headers|
  {
    if headers != [] {
      var next := s[|FirstLine(s, LF)|..];
      EndedIfMoreFollows(next, headers[1..], blank, rest);
      if |headers| == 1 {
        HeaderNeedsInput(s, headers, blank, rest);
        FirstHeaderComplete(s, headers[0]);
      }
    }
  }

  lemma {:induction false} IsHeadAtEof(s: seq<byte>, headers: seq<string>, rest: seq<byte>)
    requires IsHead(s, headers, [], rest)
    ensures rest == []
    decreases |headers|
  {
    if headers != [] {
      IsHeadAtEof(s[|FirstLine(s, LF)|..], headers[1..], rest);
    }
  }

  /** The last octet of some lines is that of the last line. */
  lemma {:induction false} LastOctet(lines: seq<string>)
    requires lines != [] && forall i :: 0 <= i < |lines| ==> Encode(lines[i]) != []
    ensures EncodeAll(lines) != [] && Last(EncodeAll(lines)) == Last(Encode(lines[|lines| - 1]))
  {
    if |lines| > 1 {
      LastOctet(lines[1..]);
    }
    LastOfSum(Encode(lines[0]), EncodeAll(lines[1..]));
  }

  function Last(b: seq<byte>): byte
    requires b != []
  {
    b[|b| - 1]
  }

  lemma LastOfSum(a: seq<byte>, b: seq<byte>)
    ensures b != [] ==> a + b != [] && Last(a + b) == Last(b)
    ensures b == [] ==> a + b == a
  {
  }

  /** The headers were cut short exactly if the input breaks off. */
  lemma EndedIff(input: seq<byte>)
    requires SplitHead(input).RequestHead?
    ensures Ended(SplitHead(input).headers) <==> !BreaksOff(input)
  {
    var head := SplitHead(input);
    SplitHeadIsHead(input);
    if head.blank != [] {
      EndedIfMoreFollows(input, head.headers, head.blank, head.rest);
    } else {
      IsHeadAtEof(input, head.headers, head.rest);
      HeadConserves(input);
      OnlyHeaders(input, head.headers);
    }
  }

  lemma {:induction false} OnlyHeaders(input: seq<byte>, headers: seq<string>)
    requires IsHead(input, headers, [], []) && EncodeAll(headers) + [] + [] == input
    ensures Ended(headers) <==> input == [] || input[|input| - 1] == LF
  {
    assert input == EncodeAll(headers);
    if headers != [] {
      IsHeadStopsAtBlank(input, headers, [], []);
      forall i | 0 <= i < |headers|
        ensures Encode(headers[i]) != [] && headers[i] != ""
      {
        NonBlankEncodes(headers[i]);
      }
      LastOctet(headers);
      EncodedEndsLine(headers[|headers| - 1]);
    }
  }

  /** Header lines, one CRLF and a body, as they go over the wire. */
  function Wire(headers: seq<string>, body: seq<byte>): seq<byte> {
    if headers == [] then CRLF + body else Encode(headers[0]) + Wire(headers[1..], body)
  }

  lemma {:induction false} WireIsConcat(headers: seq<string>, body: seq<byte>)
    ensures Wire(headers, body) == EncodeAll(headers) + CRLF + body
  {
    if headers == [] {
      Joined([], CRLF, body);
    } else {
      WireIsConcat(headers[1..], body);
      Prepend(Encode(headers[0]), EncodeAll(headers[1..]), CRLF, body);
    }
  }

  predicate ProperHeader(line: string) {
    Complete(line, '\n') && !IsBlank(line)
  }

  lemma {:induction false} WireReadsBack(headers: seq<string>, body: seq<byte>)
    requires forall i :: 0 <= i < |headers| ==> ProperHeader(headers[i])
    ensures SplitHead(Wire(headers, body)) == RequestHead(headers, CRLF, body)
  {
    if headers == [] {
      EmptyHeadReadsBack(body);
    } else {
      WireReadsBack(headers[1..], body);
      HeaderSplitsOff(headers[0], Wire(headers[1..], body));
      assert [headers[0]] + headers[1..] == headers;
    }
  }

  /** Complete non-blank lines, one CRLF and a body are read back as just that. */
  lemma HeadReadsBack(headers: seq<string>, body: seq<byte>)
    requires forall i :: 0 <= i < |headers| ==> ProperHeader(headers[i])
    ensures SplitHead(EncodeAll(headers) + CRLF + body) == RequestHead(headers, CRLF, body)
  {
    WireReadsBack(headers, body);
    WireIsConcat(headers, body);
  }

  lemma CrLfIsBlank()
    ensures Encode("\r\n") == CRLF && Decode(CRLF) == Some("\r\n") && IsBlank("\r\n")
  {
    EncodeOfTwo("\r", "\n");
    assert "\r" + "\n" == "\r\n";
    DecodeOfEncode("\r\n");
  }

  lemma EmptyHeadReadsBack(body: seq<byte>)
    ensures SplitHead(CRLF + body) == RequestHead([], CRLF, body)
  {
    CrLfIsBlank();
    FirstLineOfComplete(CRLF, LF, body);
  }

  lemma {:induction false} HeaderSplitsOff(header: string, rest: seq<byte>)
    requires ProperHeader(header)
    ensures SplitHead(Encode(header) + rest) == WithHeader(header, SplitHead(rest))
  {
    EncodedComplete(header);
    FirstLineOfComplete(Encode(header), LF, rest);
    DecodeOfEncode(header);
  }

  /**
   * Forwarding keeps meaning: the destination reads from the tunnel the rewritten request line
   * first, and then the same headers and a body of exactly the announced length if and only if
   * the client's input did not break off inside a header line.
   */
  lemma {:induction false} ForwardedMessageReadsBack(firstLine: string, input: seq<byte>)
    requires ParseHttpRequest(firstLine).Ok? && SplitHead(input).RequestHead?
    requires ContentLength(SplitHead(input).headers) <= MAX_ISIZE
    requires ContentLength(SplitHead(input).headers) <= |SplitHead(input).rest|
    ensures var r, head := ParseHttpRequest(firstLine).value, SplitHead(input);
            var all := Message(r, head);
            var raw := FirstLine(all, LF);
            && Decode(raw) == Some(RequestLine(r))
            && SplitWhitespace(TrimEnd(RequestLine(r))) == [r.verb, r.path, "HTTP/1.1"]
            && (SplitHead(all[|raw|..]) == RequestHead(head.headers, CRLF, head.rest[..ContentLength(head.headers)])
                <==> !BreaksOff(input))
  {
    var r, head := ParseHttpRequest(firstLine).value, SplitHead(input);
    var body := head.rest[..ContentLength(head.headers)];
    RewrittenLineEnds(firstLine);
    EncodedComplete(RequestLine(r));
    DecodeOfEncode(RequestLine(r));
    MessageReadsBack(Encode(RequestLine(r)), EncodeAll(head.headers), body);
    HeadersReadBackIff(input, body);
    EndedIff(input);
  }

  /**
   * It does happen: if all that follows an accepted request line is the letter A, the destination
   * does not read the header line that the proxy read.
   */
  lemma {:induction false} BrokenOffExample(firstLine: string)
    requires ParseHttpRequest(firstLine).Ok?
    ensures SplitHead([65]) == RequestHead(["A"], [], []) && BreaksOff([65])
    ensures var all := Message(ParseHttpRequest(firstLine).value, SplitHead([65]));
            SplitHead(all[|FirstLine(all, LF)|..]) != RequestHead(["A"], CRLF, [])
  {
    LetterReads();
    ForwardedMessageReadsBack(firstLine, [65]);
  }

  lemma LetterReads()
    ensures SplitHead([65]) == RequestHead(["A"], [], []) && ContentLength(["A"]) == 0
  {
    assert Encode("A") == [65];
    DecodeOfEncode("A");
    DecodeOfEncode("");
    assert FirstLine([65], LF) == [65];
    assert !IsBlank("A") by { assert !IsSpace("A"[0]); }
    assert SplitHead([65][1..]) == RequestHead([], [], []);
    ContentLengthAppend([], "A");
    assert [] + ["A"] == ["A"];
  }

  /** Sending on the headers of `input` with another body: read back exactly if all of them were whole lines. */
  lemma {:induction false} HeadersReadBackIff(input: seq<byte>, body: seq<byte>)
    requires SplitHead(input).RequestHead?
    ensures var headers := SplitHead(input).headers;
            SplitHead(EncodeAll(headers) + CRLF + body) == RequestHead(headers, CRLF, body) <==> Ended(headers)
  {
    var headers := SplitHead(input).headers;
    var s := EncodeAll(headers) + CRLF + body;
    if Ended(headers) {
      HeadStopsAtBlank(input);
      SplitHeadIsHead(input);
      HeadersComplete(input, headers, SplitHead(input).blank, SplitHead(input).rest);
      HeadReadsBack(headers, body);
    }
    if SplitHead(s) == RequestHead(headers, CRLF, body) {
      SplitHeadIsHead(s);
      EndedIfMoreFollows(s, headers, CRLF, body);
    }
  }

  lemma MessageReadsBack(line: seq<byte>, headers: seq<byte>, body: seq<byte>)
    requires Complete(line, LF)
    ensures var all := line + headers + CRLF + body;
            FirstLine(all, LF) == line && all[|line|..] == headers + CRLF + body
  {
    Prepend(line, headers, CRLF, body);
    FirstLineOfComplete(line, LF, headers + CRLF + body);
  }

  lemma {:induction false} RewrittenLineEnds(firstLine: string)
    requires ParseHttpRequest(firstLine).Ok?
    ensures var r := ParseHttpRequest(firstLine).value;
            Complete(RequestLine(r), '\n') && SplitWhitespace(TrimEnd(RequestLine(r))) == [r.verb, r.path, "HTTP/1.1"]
  {
    RewrittenLineTokens(firstLine);
    AcceptedRequest(firstLine);
    var r := ParseHttpRequest(firstLine).value;
    RewrittenLineClean(r);
    CrLfCompletes(RewrittenLine(r));
    TrimCrLf(RewrittenLine(r));
  }

  lemma RewrittenLineClean(r: HttpRequest)
    requires NoSpace(r.verb) && NoSpace(r.path)
    ensures '\n' !in RewrittenLine(r) && RewrittenLine(r) != "" && !IsSpace(RewrittenLine(r)[|RewrittenLine(r)| - 1])
  {
    NoNewline(r.verb);
    NoNewline(r.path);
  }
}
