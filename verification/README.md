# A verified model of houdinny's core

houdinny is a rotating proxy: agents connect to a local HTTP proxy, and every connection leaves
through one of a pool of tunnels. This project models the parts of it that carry unbounded
behaviour and proves what they guarantee, for every input, every schedule and every run:

- **The rotating byte relay** (`RelaySpec`, `RelaySession`, `Folds`, `RelayProofs`, `Relay`). One agent stream outlives any
  number of server connections. A session is driven by an arbitrary schedule of read and write
  outcomes, including partial writes; a run is any sequence of sessions, including rejected calls,
  failed flushes and calls whose future is dropped, while waiting or in the middle of a write.
- **Tunnel selection** (`Filter`, `Pool`, `Router`, `Selection`, `SelectionProofs`,
  `SelectionHistory`, `SelectionProgress`). The pool and the router
  as they are written, and an interleaving model in which any number of callers pick while others
  queue for the write lock, add and remove tunnels and flip health flags between any two reads.
- **Request lines and framing** (`Text`, `Utf8`, `Proxy`, `ProxyExact`, `Forward`, `HttpProxy`). Authority-form
  and absolute-form parsing (sections 3.2.2 and 3.2.3 of RFC 9112), rewriting to origin-form
  (section 3.2.1), CONNECT printing (section 9.3.6 of RFC 9110), header loops over octets that must
  be UTF-8 line by line (section 3 of RFC 3629), body forwarding and the upstream response reader.
- **Configuration text** (`EnvVars`, `EnvVarsExact`, `Dotenv`): the `${VAR}` scanner and the `.env` loader.
- **Docker orchestration** (`Polling`, `AddressPlan`), **packet padding** (`Padder`), the **402 header
  fold** (`Payment`) and **routing tables** (`Routes`).

Properties that turned out false of the code, with the exact condition under which they hold:

- Resolving `${VAR}` twice is not resolving once even when no value contains `$` or `{`: an empty
  value lets a `$` and a `{` meet (`EnvVarsExact.EmptyValueBreaksIdempotence`).
  `EnvVarsExact.IdempotentIffInert` gives the exact class of harmless values, and
  `EnvVarsExact.PlainIdempotentIff` decides it for each environment with such values.
- An accepted CONNECT target does not always survive a second proxy: an authority starting with
  `[[` yields a host that the next proxy refuses (`Proxy.DoubleBracketLosesTarget`, at a concrete
  line in `Proxy.DoubleBracketExample`); all others survive any number of hops
  (`Proxy.ChainKeepsTarget`). The same holds for absolute-form URLs reprinted
  (`Proxy.AbsoluteRoundTrip`, `Proxy.DoubleBracketUrlRefused`, `Proxy.DoubleBracketUrlExample`).
- The acknowledged bytes and the buffer do not always make up what the agent sent: a failed flush
  loses the carried chunk, because the buffer is emptied before the write
  (`RelayProofs.FailedFlushLosesByte` shows a run), and a call dropped in the middle of a write to
  the server loses the chunk being written (`RelayProofs.CancelledWriteLosesByte`). Otherwise they
  do: `RelayProofs.AcknowledgedWindowsTile` is an equivalence. Likewise a live agent has
  acknowledged all the servers sent if and only if no call was dropped in the middle of a write to
  it (`RelayProofs.AgentAckedAllIff`).
- A forwarded request is not always read back with the headers the client sent: if the client's
  input ends inside a header line, the proxy completes that line and no blank line follows
  (`Forward.BrokenOffExample` shows an input). `Forward.ForwardedMessageReadsBack` gives the exact
  condition.
- Route tables can be handed out twice after a teardown (`Routes.ClashExample`); `Routes.SafeIffAligned`
  says exactly which lists can never lead to it.
- The Docker address plan collides with the proxy's own address from the tenth country on
  (`AddressPlan.GenerateBoth`).

Where the code and its documentation differ, the model follows the code: `RelayStream` is documented
as using `copy_bidirectional` but runs its own loop; the CONNECT transport is commented as accepting
any 2xx status but accepts only 200; the relay is documented as buffering agent data for the next
server, which a failed flush does not do; `src/docker.rs` is not declared in `src/lib.rs` but is
modelled as written.

Conventions: streams are sequences of octets, lengths on them are in octets, and text is a sequence
of Unicode scalar values obtained from octets by UTF-8. Counters are unbounded except where
wrap-around matters (the router's ticket counter, the padding trailer, routing-table numbers). I/O
appears as parameters: schedules of outcomes, readings of health flags, probes and a clock.
A byte of the relay is acknowledged when the write that carries it succeeds according to the
schedule; the counters of the relay play no part in that definition.

## Model

| member | source | states |
|---|---|---|
| RelaySession.PlayKeepsSession | src/relay/mod.rs:265-314 | Under every schedule a session keeps: carried chunk plus bytes read equal acknowledged bytes plus those kept or lost, the server's unacknowledged surplus is a proper prefix of the latter, the agent holds a prefix of the server's bytes, all of it while alive and not cancelled |
| RelaySession.SessionEndsAtFirstFault | src/relay/mod.rs:265-314 | A session is determined by the first fault in its schedule, a cancelled write included: counts, liveness, carried chunk, lost chunk, and the bytes read from and handed to either peer, the part of the faulty write that went through included |
| RelayProofs.RunReachable | src/relay/mod.rs:235-314 | Between the calls of every run the buffer holds at most BUF_SIZE bytes and a non-empty buffer implies a live agent |
| RelayProofs.RejectedIffDead | src/relay/mod.rs:235-237 | A call is rejected exactly on a dead relay and then changes nothing |
| RelayProofs.CallEnds | src/relay/mod.rs:231-333 | How every call of every run ends, from its schedule: rejected on a dead relay, failed on a broken flush, returned and counted if some fault other than a cancelled write breaks its loop, dropped exactly if its owner drops it |
| RelayProofs.DeadStaysDead | src/relay/mod.rs:235-314 | Once dead, the state never changes again and every later call is rejected |
| RelayProofs.RunConserves | src/relay/mod.rs:249-280 | In every run the agent's bytes are, in order and once, the settled bytes followed by the carried chunk |
| RelayProofs.AcknowledgedWindowsTile | src/relay/mod.rs:249-280 | The acknowledged windows plus the buffer are exactly the bytes read if and only if no call on a live relay failed or was cancelled while flushing a carried chunk, or was cancelled while writing to its server |
| RelayProofs.ServerGetsWindow | src/relay/mod.rs:249-280 | Each server receives one contiguous window of the agent's stream |
| RelayProofs.NeighbouringWindows | src/relay/mod.rs:249-280 | The next window starts at the first byte neither acknowledged nor lost: without loss neighbours leave no gap and overlap by fewer than BUF_SIZE bytes, with loss they leave a gap of at most BUF_SIZE bytes |
| RelayProofs.LossStands | src/relay/mod.rs:249-280 | What a call loses is at most BUF_SIZE bytes of the agent's stream right behind those its server acknowledged, and then nothing is carried on |
| RelayProofs.FailedFlushLosesCarry | src/relay/mod.rs:249-258 | A failed flush loses exactly the carried chunk, at most BUF_SIZE bytes |
| RelayProofs.FailedFlushLosesByte | src/relay/mod.rs:249-258 | A two-call run in which a byte was read that no server acknowledged and the buffer no longer holds |
| RelayProofs.CancelledWriteLosesByte | src/relay/mod.rs:265-314 | In either direction, a one-call run cancelled in a write leaves the relay as new with a byte neither acknowledged nor kept |
| RelayProofs.UpstreamTotals | src/relay/mod.rs:316-356 | After every run the upstream total is the sum of the returned stats, and with the bytes servers took during calls their owner dropped it is the number of bytes whose write succeeded |
| RelayProofs.DownstreamTotals | src/relay/mod.rs:297-356 | The same downstream, whether or not the agent is still there |
| RelayProofs.AgentGetsServerBytes | src/relay/mod.rs:282-314 | Unless a call was cancelled in a write to the agent: the acknowledged bytes are a prefix of what the agent received, and that of what the servers sent; less than one chunk is unacknowledged, and nothing while the agent is there |
| RelayProofs.AgentAckedAllIff | src/relay/mod.rs:282-314 | While the agent is there it has acknowledged everything the servers sent if and only if no call was cancelled in a write to it |
| RelayProofs.TotalsCountAcknowledgedBytes | src/relay/mod.rs:345-356 | If no schedule has its call dropped, both totals are exactly the acknowledged byte counts, after failed flushes and after the death of the agent too |
| Relay.BufferedRelay.constructor | src/relay/mod.rs:206-219 | A fresh relay is alive, empty and at zero |
| Relay.BufferedRelay.RelayEvents | src/relay/mod.rs:265-314 | The select loop does to fields, counters and peers what the session specification says, for every schedule |
| Relay.BufferedRelay.RelayThrough | src/relay/mod.rs:231-333 | One call takes the state and log exactly where the session specification says, keeping the whole history a valid run |
| Relay.BufferedRelay.AgentAlive | src/relay/mod.rs:340-342 | Reports the flag; a dead relay holds no byte and a held chunk fits one read buffer |
| Relay.BufferedRelay.TotalStats | src/relay/mod.rs:345-356 | Reports exactly the sums over the finished calls of the history |
| Relay.RelayStream.Relay | src/relay/mod.rs:85-157 | The one-shot relay's bytes, counts and published counters for every schedule; a counter keeps its old value until this call relays a byte in its direction |
| Relay.FirstRelayMirrorsFreshSession | src/relay/mod.rs:85-157 | At every loop head a first one-shot relay and a fresh buffered session have delivered the same bytes and counted the same, and the published counters equal the locals |
| Filter.KeptIff | src/pool/mod.rs:96-106 | The filter keeps exactly the entries with a true flag, here those read as healthy |
| Filter.KeptAtRank | src/pool/mod.rs:96-106 | The filter preserves order: a kept entry stands at the number of kept entries before it |
| Pool.SecondFilterIsIdentity | src/main.rs:546-554 | With no interference the router's filter after the pool's keeps everything |
| Pool.Pool.Add | src/pool/mod.rs:47-53 | Appends the transport |
| Pool.Pool.Remove | src/pool/mod.rs:59-70 | Exactly the entries with the identifier go, all others stay in order and number, and the answer is whether one went |
| Pool.Pool.Get | src/pool/mod.rs:109-112 | Finds the first transport with the identifier, none only if there is none |
| Pool.Pool.HealthyTransportsSync | src/pool/mod.rs:85-93 | Empty when the lock is shut, otherwise the order-preserving filter |
| Pool.Pool.StatusSummary | src/pool/mod.rs:138-155 | Counts and labels match the pool and its healthy entries |
| Filter.KeepFlagged | src/pool/mod.rs:96-106 | The filter loop computes the order-preserving filter |
| Router.RoundRobinRouter.Pick | src/router/mod.rs:109-136 | Picks the ticket's index of the healthy list and advances the wrapping counter; a failed pick takes no ticket |
| Router.RandomPick | src/router/mod.rs:58-78 | Returns a transport that was read healthy, refuses exactly when none was |
| Router.PickFromPool | src/main.rs:546-554 | Without interference the picker is one filter followed by the round-robin choice; the counter advances exactly on success |
| Router.FairWithoutWrap | src/router/mod.rs:120-124 | m consecutive tickets without wrap hit each of n tunnels floor(m/n) or ceil(m/n) times |
| Router.SpreadBoundedByWraps | src/router/mod.rs:120-124 | Over any stretch two tunnels' hits differ by at most the number of wraps plus one |
| Router.SpreadOfTwoIsAttained | src/router/mod.rs:120-124 | Across one wrap the difference 2 does occur |
| Router.FairWhenDividing | src/router/mod.rs:120-124 | If n divides the word size the tight bound survives every wrap |
| Router.ConsecutiveRepeat | src/router/mod.rs:115-124 | Consecutive tickets repeat a tunnel exactly at the wrap when n divides the word size minus one |
| SelectionProofs.ExecutionsKeepInv | src/pool/mod.rs:47-106 | Every interleaving keeps what each picker holds equal to the filter of what it read at the times it looked, in order; every successful pick took the next ticket and applied it to the list both filters left |
| SelectionProofs.PickedWasHealthy | src/router/mod.rs:46-48 | A returned tunnel was in the pool at the snapshot and answered healthy to the pool and, later, to the router; all readings are in order |
| SelectionProofs.RefusalHasCause | src/main.rs:546-554 | NoHealthyTunnels only if a writer held or was queued for the lock, or every snapshot entry answered unhealthy to one of the filters |
| SelectionProofs.QuietPick | src/main.rs:546-554 | If no flag flips since an unlocked snapshot the pick answers as one filter would |
| SelectionProofs.StablePickSeesHealthy | src/main.rs:546-554 | While pool and health flags do not change, every pick chooses from exactly the healthy tunnels of the pool in pool order |
| SelectionProofs.FairPicks | src/router/mod.rs:108-137 | Under any interleaving, while pool and health flags do not change, m consecutive successful picks use each of the n healthy tunnels floor(m/n) or ceil(m/n) times, without wrap or when n divides 2^64 |
| SelectionProofs.NearlyFairPicks | src/router/mod.rs:108-137 | Over the same stretches, across wraps, the shares differ by at most the number of wraps plus one |
| SelectionProofs.ConsecutivePicks | src/router/mod.rs:115-124 | Two consecutive picks in such a stretch with at least two healthy tunnels repeat exactly at a wrap with n dividing 2^64-1 |
| SelectionHistory.DownIff | src/transport/http_proxy.rs:210-213 | In every interleaving a tunnel is unhealthy at a time exactly if the last action on its flag closed it, or there was none and it started unhealthy |
| SelectionHistory.InPoolIff | src/pool/mod.rs:47-70 | The pool at a time holds exactly the tunnels from the start and the added ones whose identifier was not removed since |
| SelectionHistory.OpenIff | src/pool/mod.rs:85-93 | The lock is open at a time exactly if no writer came yet or the last action on it was a writer leaving |
| SelectionHistory.ClosedIsNotPicked | src/router/mod.rs:46-48 | A tunnel closed before a pick's snapshot and not reopened is not returned by that pick |
| SelectionHistory.RemovedIsNotPicked | src/pool/mod.rs:59-70 | A pick whose snapshot comes after a removal returns no tunnel with that identifier unless one was added again |
| SelectionHistory.AddedIsSeen | src/pool/mod.rs:47-53 | A tunnel added before a snapshot and not removed since is in the snapshot |
| SelectionHistory.OpenTunnelIsEnough | src/main.rs:546-554 | A pick that meets the lock open and a tunnel that is healthy and not closed until the pick is over is not refused |
| SelectionHistory.FairWhileQuiet | src/router/mod.rs:108-137 | While nobody adds, removes, opens or closes a tunnel, consecutive successful picks share the healthy tunnels evenly |
| SelectionProgress.UndisturbedPick | src/main.rs:546-554 | From every reachable state with the lock open, a caller left alone completes its pick with the tunnel its ticket selects among the healthy ones in pool order, or a refusal if there is none |
| SelectionProgress.UndisturbedWrite | src/pool/mod.rs:47-70 | A writer left alone gets the lock, makes exactly its change to the pool and leaves the lock open |
| SelectionProgress.UndisturbedFlip | src/transport/http_proxy.rs:210-213 | A health flag can be set at any time and nothing else changes |
| Text.ValueOfDecimal | src/proxy/mod.rs:388-390 | Reading a printed number gives it back |
| Text.ParseUnsignedIff | src/proxy/mod.rs:388-390 | Exactly the decimal notations, with any zeros and an optional plus sign in front, are accepted, each as its number |
| Text.SplitThree | src/proxy/mod.rs:287-287 | Three space-separated tokens split into themselves |
| Text.SplitIsWoven | src/proxy/mod.rs:287-287 | The tokens of every text with the white space between them are the text, and tokens do not touch |
| Utf8.DecodesIff | src/proxy/mod.rs:199-199 | Strict decoding inverts encoding exactly: octets decode to a text if and only if they are its encoding |
| Utf8.DecodeOfEncode | src/transport/http_proxy.rs:173-173 | Strict and lossy decoding give every encoded text back |
| Utf8.NewlineIff | src/proxy/mod.rs:199-199 | The newline octet occurs in the encoding exactly of texts with a newline, so reading lines of octets is reading lines of text |
| Utf8.LossyKeepsAscii | src/transport/http_proxy.rs:173-173 | Whatever the octets, lossy decoding keeps every ASCII one in order and makes up none |
| Proxy.HostPortRoundTrip | src/proxy/mod.rs:373-403 | A printed authority parses back exactly when the host is non-empty and does not start with a bracket |
| Proxy.BracketHostIff | src/proxy/mod.rs:409-432 | A parsed host starts with a bracket exactly when the authority starts with two |
| Proxy.BracketedAddress | src/proxy/mod.rs:374-432 | Bracketed addresses lose their brackets and keep their port; a written port 0 counts as missing in CONNECT |
| Proxy.AcceptedConnectTarget | src/proxy/mod.rs:286-301 | Accepted targets have a non-empty host without spaces and a 16-bit port |
| Proxy.AnyCaseConnect | src/proxy/mod.rs:292-297 | The method is matched in any ASCII case |
| Proxy.ConnectInAnyCase | src/proxy/mod.rs:292-297 | Either case of each letter, and nothing else, is the method CONNECT |
| Proxy.ConnectRoundTrip | src/transport/http_proxy.rs:135-136 | For every host and port the printed CONNECT line parses back exactly when the host is non-empty, free of spaces and not bracketed |
| Proxy.ChainKeepsTarget | src/proxy/mod.rs:286-301 | An accepted target survives any number of print and parse hops unless its authority starts with two brackets |
| Proxy.DoubleBracketLosesTarget | src/proxy/mod.rs:409-432 | The excluded targets are refused at the first hop |
| Proxy.DoubleBracketExample | src/proxy/mod.rs:409-432 | The line CONNECT [[a]:1 HTTP/1.1 is accepted as host [a, port 1, and refused at the first hop |
| Proxy.UrlParts | src/proxy/mod.rs:329-360 | An accepted URL is scheme, authority and tail; the path is the tail or "/", the target is parsed from the authority with the scheme's default port |
| Proxy.AcceptedRequest | src/proxy/mod.rs:320-367 | What every accepted absolute-form line yields: tokens without spaces, a host without slash, a path starting with slash |
| Proxy.RewrittenLineTokens | src/proxy/mod.rs:228-228 | The rewritten line tokenises to method, path and version |
| Proxy.AbsoluteRoundTrip | src/proxy/mod.rs:320-367 | Reprinting an accepted request in absolute form reparses to the same request exactly when the authority of its URL does not start with two brackets |
| Proxy.DoubleBracketUrlRefused | src/proxy/mod.rs:320-432 | The excluded requests are refused when reprinted |
| Proxy.DoubleBracketUrlExample | src/proxy/mod.rs:320-432 | GET http://[[a]:1/ HTTP/1.1 is accepted as host [a, port 1, and refused when reprinted |
| ProxyExact.HostPortIff | src/proxy/mod.rs:373-432 | Exactly host:port and [host]:port with a host and a numeral up to 65535 are accepted, each as that target; bracketed hosts need a port other than 0 |
| ProxyExact.ConnectIff | src/proxy/mod.rs:286-301 | Exactly the lines with CONNECT and such an authority are accepted |
| ProxyExact.UrlIff | src/proxy/mod.rs:329-432 | Exactly http and https URLs whose authority is a host, a host with port, or either in brackets are accepted, with the scheme's port where none is written |
| ProxyExact.RequestIff | src/proxy/mod.rs:320-367 | Exactly the lines with a method and such a URL are accepted, as that request |
| ProxyExact.RequestWithoutPort | src/proxy/mod.rs:329-367 | For every usual host and path: port 80 for http and 443 for https, path "/" if none |
| ProxyExact.RequestWithPort | src/proxy/mod.rs:329-367 | A written port is taken, whatever the scheme |
| Forward.BlankIffTrimsToNothing | src/proxy/mod.rs:200-200 | The blank-line test is the trim test |
| Forward.DispatchedIsConnect | src/proxy/mod.rs:69-91 | A connection handled as CONNECT is never refused for having another method |
| Forward.OpensConnectIff | src/proxy/mod.rs:86-86 | The lines that go to the CONNECT handler: the method in either case of each letter, and a space |
| Forward.RequestReceived | src/proxy/mod.rs:69-91 | A first line is dispatched by its beginning, trimmed at its end, and nothing behind it is read |
| Forward.UnreadableIff | src/proxy/mod.rs:75-82 | A connection fails exactly if its first line is no text, or is blank |
| Forward.SplitHeadIsHead | src/proxy/mod.rs:194-212 | A head that is read consists, line by line, of the octets of its header lines, none blank, and of a blank line or the end of input |
| Forward.IsHeadIsSplit | src/proxy/mod.rs:194-212 | Every such head is found, so reading fails only where a line is no text |
| Forward.HeadConserves | src/proxy/mod.rs:194-212 | Headers, blank line and rest are the input: reading the head loses no octet |
| Forward.HeadStopsAtBlank | src/proxy/mod.rs:197-202 | No header is blank and what ended the headers is |
| Forward.ReadHeaders | src/proxy/mod.rs:194-212 | The loop returns the header lines as text, the last parseable Content-Length and the unread octets, or fails at the first line that is not UTF-8 |
| Forward.AnnouncedLength | src/proxy/mod.rs:204-210 | Both spellings of Content-Length are recognised with any 64-bit number |
| Forward.LengthIff | src/proxy/mod.rs:204-210 | Exactly the lines with one of the two names and, trimmed, a numeral up to 2^64-1 announce a length, namely its number |
| Forward.LastLengthCounts | src/proxy/mod.rs:204-210 | The length that counts is that of the last line that announces one |
| Forward.NoLengthIsZero | src/proxy/mod.rs:196-196 | It is 0 if no line announces one |
| Forward.DiscardHeaders | src/proxy/mod.rs:112-120 | The CONNECT header loop stops right behind the same blank line, or fails on the same inputs |
| Forward.WriteHeaders | src/proxy/mod.rs:231-234 | The octets of the header lines go out in order, as far as the tunnel takes them |
| Forward.WriteMessage | src/proxy/mod.rs:227-245 | The tunnel receives line, headers, CRLF and exactly the announced number of body octets, or a prefix if it breaks |
| Forward.HandlePlainHttp | src/proxy/mod.rs:175-245 | Outcome and received octets for every request, input and tunnel, ill-formed headers and the panic on an oversized Content-Length included; success means the whole message |
| Forward.HeadersComplete | src/proxy/mod.rs:197-212 | If the input does not break off inside a header line, every header line ends in its only newline |
| Forward.HeadReadsBack | src/proxy/mod.rs:231-236 | Forwarded header lines, CRLF and body are read back as just that |
| Forward.ForwardedMessageReadsBack | src/proxy/mod.rs:194-245 | The destination reads the rewritten line, and the same headers with a body of the announced number of octets if and only if the input does not end, before any blank line, in an octet other than newline |
| Forward.BrokenOffExample | src/proxy/mod.rs:194-245 | With the single letter A after any accepted request line, the header the proxy read is not what the destination reads |
| HttpProxy.ConnectRequestReceived | src/transport/http_proxy.rs:134-137 | A sent CONNECT request is dispatched as CONNECT, parsed as its target, and reading its head takes no octet of the payload |
| HttpProxy.RequestText | src/transport/http_proxy.rs:134-137 | The request written out, with and without credentials |
| HttpProxy.ReadHead | src/transport/http_proxy.rs:147-170 | Consumes exactly the shortest prefix ending in CRLFCRLF, at most 8193 bytes, and succeeds if and only if it ends by then |
| HttpProxy.HeadIndependentOfPayload | src/transport/http_proxy.rs:147-170 | Whatever follows a head, the reader stops at its end |
| HttpProxy.StatusOfLine | src/transport/http_proxy.rs:172-181 | The status code is read from every well-formed status line |
| HttpProxy.StatusIff | src/transport/http_proxy.rs:172-181 | A status other than 0 is exactly the number that the second token of the first line writes |
| HttpProxy.Handshake | src/transport/http_proxy.rs:147-192 | For every stream: established exactly when a head ends in time with status 200, refused with the status of the head otherwise, a failure if none ends in time; and how many octets each consumes |
| HttpProxy.OwnReplyEstablishes | src/proxy/mod.rs:137-138 | The proxy's own 200 reply establishes a tunnel and leaves any payload |
| HttpProxy.ProxyUrlRoundTrip | src/transport/http_proxy.rs:57-101 | A printed proxy URL gives back user, password and address exactly under the stated conditions; the password is unrestricted |
| HttpProxy.AddressAlone | src/transport/http_proxy.rs:76-95 | A text without @ is an address without credentials, unless it is empty |
| HttpProxy.AddressWithCredentials | src/transport/http_proxy.rs:76-95 | With an @ the last one counts: refused if nothing follows it or no colon precedes it, otherwise split at the first colon |
| HttpProxy.SchemeOfUrl | src/transport/http_proxy.rs:57-73 | Both schemes are accepted alike, final slashes do not matter, other texts are refused |
| EnvVars.SegmentsWritten | src/config/mod.rs:250-293 | Splitting into literals and references loses nothing |
| EnvVars.ResolveEnvVars | src/config/mod.rs:250-293 | The scanner computes split-then-substitute for every string |
| EnvVars.ScanName | src/config/mod.rs:259-267 | The inner loop takes the characters up to the first closing brace |
| EnvVars.SettledUnchanged | src/config/mod.rs:268-286 | Identity when no referenced variable is set, malformed references included |
| EnvVars.ResolveIdempotent | src/config/mod.rs:250-293 | Resolving twice is resolving once when every value is inert |
| EnvVars.PlainValuesInert | src/config/mod.rs:250-293 | Non-empty values without dollar and brace are inert |
| EnvVarsExact.EmptyValueBreaksIdempotence | src/config/mod.rs:270-270 | An empty value makes the second resolution differ |
| EnvVarsExact.NotInertBreaks | src/config/mod.rs:250-293 | Every value that is not inert breaks idempotence in some environment |
| EnvVarsExact.IdempotentIffInert | src/config/mod.rs:250-293 | A value is harmless next to a harmless one for all inputs if and only if it is inert |
| EnvVarsExact.PlainIdempotentIff | src/config/mod.rs:250-293 | An environment whose values have neither dollar nor brace resolves every text in one pass if and only if no variable that can be referred to is empty |
| Dotenv.LoadDotenv | src/config/mod.rs:228-244 | Fails exactly if some assignment cannot be set; otherwise every key has its last assignment in the file, or else its old value |
| Dotenv.AssignmentIff | src/config/mod.rs:231-239 | A line assigns exactly if, trimmed, it is neither empty nor a comment and has an equals sign, which splits key and value |
| Dotenv.AssignmentsOfLine | src/config/mod.rs:230-230 | A complete line assigns what it does alone, before the rest of the file |
| Dotenv.AssignmentsOfLast | src/config/mod.rs:230-230 | The last line counts without a newline too |
| Dotenv.LoadedKeyIsClean | src/config/mod.rs:228-244 | Every key the file assigns ends up trimmed and free of newlines and NULs; every other key is as before |
| Dotenv.TokenRoundTrip | src/docker.rs:257-259 | The generated file gives the token back exactly when it is trimmed and has no newline or NUL |
| Polling.ResolvedIsAbsorbing | src/docker.rs:503-506 | Resolved states never change |
| Polling.DecidedByFirstVerdict | src/docker.rs:511-573 | A container's state is decided by its first probe other than running and not connected |
| Polling.PollRound | src/docker.rs:502-574 | One round updates every waiting container by its probe and sends the two commands exactly to those that connect |
| Polling.FailWaiting | src/docker.rs:581-594 | Exactly the waiting containers are marked timed out |
| Polling.CountIsCardinality | src/docker.rs:577-577 | The reported count is the number of connected containers |
| Polling.PollUntilDone | src/docker.rs:501-580 | Polling ends at the first round with all resolved or the timeout exceeded, within 38 rounds |
| Polling.WaitForHealthy | src/docker.rs:491-629 | No container is left waiting, success exactly when one is connected, the reported count is the final one, each container gets its commands once and only if it ends connected, the proxy is restarted exactly on success |
| AddressPlan.GenerateDockerCompose | src/docker.rs:168-234 | One service per country under its own key with its address, and the proxy |
| AddressPlan.GenerateTunnelsConfig | src/docker.rs:262-289 | One tunnel entry per country with its address and label |
| AddressPlan.GenerateBoth | src/docker.rs:168-289 | Both generators give index i the same address; addresses and labels are pairwise distinct; none is the proxy's own exactly when there are at most 9 countries |
| AddressPlan.LabelsDiffer | src/docker.rs:283-283 | Labels differ whatever the country names |
| Padder.PacketPadder.Pad | src/anticorr/mod.rs:236-267 | Data, filler and the length modulo 2^32, most significant byte first; the size is the larger of the target size and data plus four |
| Padder.PacketPadder.UnpadOfPad | src/anticorr/mod.rs:236-303 | Unpadding a padded packet gives its first length mod 2^32 bytes, all of it below 4 GiB |
| Padder.PacketPadder.Unpad | src/anticorr/mod.rs:274-303 | Always a prefix of its input |
| Padder.PacketPadder.UnpadByTrailer | src/anticorr/mod.rs:274-303 | The trailer decides if it names no more than stands before it; otherwise nothing is cut |
| Padder.PacketPadder.PadOfUnpad | src/anticorr/mod.rs:236-303 | Padding restores exactly the packets with consistent trailer, pure filler and canonical size |
| Payment.Parse402 | src/payment/mod.rs:112-160 | Last value wins for amount, currency and address; the network is the last explicit one, else the first detected; none unless the status is 402 |
| Payment.LowerOfAscii | src/payment/mod.rs:128-128 | On ASCII text capitals become small and all else stays |
| Payment.LastWins | src/payment/mod.rs:129-135 | The last header with the name, in any case, gives the value |
| Payment.ExplicitNetwork | src/payment/mod.rs:133-133 | An explicit network counts whatever the other headers reveal |
| Payment.RevealedNetwork | src/payment/mod.rs:137-149 | Without one, the first header that reveals x402 or l402 names it, and none does otherwise |
| Payment.X402HandlesParsed | src/payment/mod.rs:251-258 | On parsed requests the x402 handler accepts exactly when an x-402 header is present or the network was named x402 |
| Payment.HandlePayment | src/payment/mod.rs:166-201 | The first handler that accepts the request decides, and only it |
| Routes.LinuxRouteManager.SetupTunnelRoute | src/route/mod.rs:211-235 | Appends a route of that tunnel and device with table base plus length, modulo 2^32 |
| Routes.LinuxRouteManager.TeardownTunnelRoute | src/route/mod.rs:237-254 | Exactly the tunnel's routes go, all others stay in order, and the answer is how many went |
| Routes.RoutedIff | src/route/mod.rs:211-254 | After every run a tunnel has a route exactly if it was set up and not torn down since |
| Routes.RunsKeepAtLeast | src/route/mod.rs:164-254 | Absent overflow every run keeps the table at position i at or above base+i |
| Routes.SuffixRunsStayAligned | src/route/mod.rs:164-254 | Runs whose teardowns remove only a suffix keep table i at base+i, hence distinct |
| Routes.SetupClashIff | src/route/mod.rs:217-232 | A setup clashes exactly when a survivor holds table base+len |
| Routes.ClashExample | src/route/mod.rs:211-254 | Two setups, one teardown and a setup put two live routes on one table |
| Routes.SafeIffAligned | src/route/mod.rs:211-254 | For lists with distinct tables at or above base+i, further setups can never clash if and only if every table is base+i |
| Routes.RunSafeIffAligned | src/route/mod.rs:211-254 | The same for every state with distinct tables that a run reaches |

## Left out

- Sockets, TLS, DNS, task scheduling and the SOCKS5, Tor and WireGuard libraries: foreign code, present only as outcomes.
- Overflow of the relay's 64-bit byte totals, and durations.
- `handle_connect` discarding what its buffered reader holds when it is unwrapped: it depends on buffering inside a library; the client is taken to wait for the 200.
- `copy_bidirectional` and `copy` of the tunnelled bytes: library code.
- Forward.HandlePlainHttp: memory exhaustion when the announced body is large but at most `isize::MAX`, and flushing the tunnel.
- Base64 of proxy credentials: the encoded text is a parameter.
- Payment.HandlePayment: what paying does besides its result.
- AddressPlan.GenerateDockerCompose: the YAML and TOML around keys, addresses and labels, and the country-name table; country names are taken as resolved.
- Router.RandomPick: the quality of the random choice; only membership is stated.
- Polling.WaitForHealthy: command results, messages and the diagnosis text, which enter as probe outcomes; the clock is assumed to advance by at least the sleep between rounds.
- Routes.LinuxRouteManager.SetupTunnelRoute: a debug build would stop on overflow where the model wraps; lock poisoning and the generated `ip` commands.
- Admin API, MCP server, importers, timing jitter, Sentinel stub, command line: thin dispatch or plain I/O.
