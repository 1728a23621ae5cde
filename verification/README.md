# A verified model of the RTSP/RTP audio server

The server accepts RTSP connections, parses requests in place in the receive buffer, runs one session state machine
per connection, and sends audio as RTP packets to every client on a shared playing list. This project models its four
stateful parts and proves what they promise, for all inputs and all runs.

* **Requests** (`Framing`, `LineParser`, `CStrings`, `Transport`, `Headers`, `Request`): the buffer is an array of
  characters, a C pointer is an index into it, and `strtok_r`, `strtoll`, `strstr` and `strlen` are modelled on it. Each
  in-place method equals a function on the buffer contents, branch by branch, including the NULs it leaves behind.
  About that function the grammar modules (`TransportGrammar`, `TransportRoundTrip`, `RequestGrammar`,
  `OrderIndependence`, `EndToEnd`) prove the laws: printing and parsing are inverse, order does not matter, and what
  arrives on a new connection is understood and answered. `Answers` and `SetupChoice` say, of what the client printed,
  which code, which number and which port it reads in the reply, `Replies` how it finds the end of one. `Locality`,
  `Bounds` and `ShortTransports` say which requests the parser reads without leaving the buffer or following a null
  pointer.
* **Sessions** (`Session`, `Interleaving`, `Outliving`, `RunHistory`): handler and session as classes that change the
  engine's list and write to a socket, and a server of any number of sessions plus the audio thread whose steps
  interleave freely. A request is three steps there (reply flushed, list operation, state change), because each list
  operation is atomic under the mutex but the request is not.
* **Audio** (`RtpHeader`, `Delivery`, `RtpEngine`, `AudioReader`, `AudioCopy`, `ReaderRing`): header setters on bytes, the
  engine with its block pool, counters and clients, the reader's ring of buffers, and the copy loop with the PCM codec.
* **WAV files** (`WavFile`): the sink that patches its header on close and the source that has to accept the file.

Results that the code does not meet unconditionally are stated with the exact condition:

* A request line with fewer than three words, unless the first is no method, makes the parser follow a null pointer
  (`ShortRequestLine`).
* A Transport line with fewer than four characters behind its name and blank (`Transport: RTP`, or
  `Transport:RTP/AVP;unicast` with no blank) makes `strlen - 4` wrap, and the scan for specs run on behind the value,
  through later lines and whatever else the buffer holds. It ends only at a third spec: with fewer than three from the
  value on it leaves the buffer (`ScannableIff`, `ShortTransport`), with three it does not, those specs are taken for the
  header's (`TakenFromBehind`), and reading goes on in what their parse has left (`SpecsBehind`, `SpecsBehindExample`).
  `DefinedIff` is the exact condition for every text that `run` hands over in any buffer, and `ProcessInBoundsIff`
  carries it to whatever comes in. In terms of the lines: in bounds when no line that is reached is too short
  (`NoShortLine`), out of bounds when the first such line has fewer than three specs behind it (`ShortLineOut`), otherwise
  decided by the rest (`FirstShortLine`, `FirstLineShort`). The in-place methods ask for exactly this (`defined`), because
  outside it the source has no result.
* An option that is not understood ends the reading of the Transport header and of all headers behind it, but what was
  read up to there stays, the half-filled spec included, and the request is answered from that. The grammar prints such
  options too (`OptionFails`, `TransportRoundTrip`, `RequestRoundTrip`), so a SETUP whose last option is unknown is still
  answered 200 (`SetupAnswered`, `AppendExample`), and a CSeq behind it is not echoed (`CSeqIsEchoed`).
* A profile that ends in RTP in front of a lower transport (`RTP/XRTP/UDP`) is read as two specs; a printed spec comes
  back if and only if it is not of that kind (`OneSpecIff`).
* Empty lines in front of a request are skipped by the parser, any number of them, but `run` ends the request at the
  second one. A first request is understood if and only if at most one empty line precedes it (`RequestEnds`,
  `FirstRequestIsUnderstood`); with more, the empty lines are answered 400 and the request is discarded.
* The receive buffer is not cleared between requests. A later request is framed rightly exactly when nothing left
  in the buffer completes it early and no Content-Length is in sight, received or left over (`FramingIff`;
  `LeftoverCompletes` is a family of inputs where it fails, `LeftoverExample` one of them).
* A client that repeats PLAY without PAUSE or SETUP in between is listed twice (`NoDuplicatesIff`). What then outlives
  its session depends on the balance of its requests: every PLAY adds an entry, every PAUSE, SETUP, TEARDOWN and the
  end take one (`CountIsBalance`), and `NothingOutlivesIff` says exactly which runs leave nothing behind. `StaleRun` and
  `StaleAfterSetup` are runs that do, `SettledAfterPause` one that repeats PLAY and does not.
* A SETUP in state PLAY takes the client off the list but leaves the session in PLAY, so being in PLAY does not imply
  being listed (`EntriesAreAlive` goes one way, `ListedAfter` says exactly when a client is listed).
* A read that comes up short sends the rest of the buffer along with it (`BlockIsRead`, `HeardExactIff`).
* Nothing in the reader stops it from storing into a buffer that is still to be encoded. As long as it does not, every
  block is encoded as it was queued (`RingIsFaithful`); whatever is stored against that guard, the run can go on so that
  a block is encoded with other bytes (`UnguardedCorrupts`), and every ring has such a run from its start
  (`OverrunCorrupts`).
* The scan bound of `getline` wraps when one character is left, exactly when a CRLF is followed by one last
  character (`OverrunIff`). `run` hands over a buffer that ends in a blank line, for which that never happens.
* A file is accepted by the WAV source whether or not `close` got as far as patching the sizes (`AlwaysReadable`); the
  sizes are right exactly under the condition of `SizesIff`.

What the environment does is a parameter: the chunks that `recv` returns, the pieces the audio source hands out, what
sending to a client returns, what other threads do to the list between two steps, what the C library grants to a
file. The panglos classes have plain contracts: `List` is a sequence whose `push` adds at the front and whose `remove`
takes the first occurrence, `Queue` is first in, first out, `Socket::send` returns any int. `lut` and `rlut` are exact
matches in a table. `strtok_r` leaves its pointer at the NUL behind the last token, as glibc does.

## Model

| member | source | states |
|---|---|---|
| CStrings.StrTokR | src/rtsp.cpp:437-463 | strtok_r in place: the token, the save pointer and the NUL written are those of the function, and every access is inside the buffer |
| CStrings.NumberRoundTrip | src/rtsp.cpp:186-194 | a printed int of either sign followed by a non-digit is read back exactly, up to where its digits end |
| LineParsing.LineParser.constructor | src/rtsp.cpp:98-103 | leading CRLFs are dropped while more than two characters remain; the buffer afterwards is the one of SkipAt |
| LineParsing.LineParser.GetLine | src/rtsp.cpp:85-113 | line, new position, new size and the NUL in the buffer agree with the specification for every buffer and size but 1 |
| LineParsing.FramedNext | src/rtsp.cpp:85-113 | on text that ends in a blank line, a line comes out until only the last CRLF is left, and the rest again ends so: its size is never 1 or 3 |
| LineParsing.SplitIsExact | src/rtsp.cpp:85-113 | the lines, each rejoined with CRLF, and a final CRLF are the text itself |
| LineParsing.LinesHaveNoCrlf | src/rtsp.cpp:85-113 | no line contains a CRLF, whatever the text ends with |
| LineParsing.SkipIsExact | src/rtsp.cpp:98-103 | the constructor drops CRLFs and nothing else, as many as lead |
| LineParsing.OverrunIff | src/rtsp.cpp:85-113 | for every text, no getline call of constructor or loop meets the wrapping size 1 if and only if no CRLF is followed by exactly one last character |
| LineParsing.SkipAtText | src/rtsp.cpp:98-103 | skipping in place leaves exactly the text that skipping on text leaves |
| TransportParsing.ParseTransportOption | src/rtsp.cpp:210-358 | one option, matched by prefix in table order, changes exactly the fields the table says, or fails |
| TransportParsing.ParseSpecInPlace | src/rtsp.cpp:386-420 | one spec: defaults, protocol, profile, lower transport and options, and every NUL strtok writes |
| TransportParsing.ParseTransportInPlace | src/rtsp.cpp:360-423 | scan, trimming of separators and parsing of up to three specs agree with the specification on any terminated string, the slot included that is half filled when an option is not understood, also where a value shorter than four characters makes the scan run on, as long as it stays in the buffer; what the slots mean is stated by `TransportRoundTrip` |
| TransportParsing.ParseTransportSafe | src/rtsp.cpp:391-420 | after any header value, even one abandoned half way and one whose scan ran on behind it, a unicast slot has mode and transport that are not null and end inside the buffer, so the compares of SETUP are safe |
| TransportGrammar.RangeRoundTrip | src/rtsp.cpp:236-267 | any pair of ints printed a-b after a range keyword lands in that field |
| TransportGrammar.KeywordsDiffer | src/rtsp.cpp:220-345 | no text matches two rows of the option tables, all fourteen of them, so the first match is the only one |
| TransportGrammar.UnderstoodIff | src/rtsp.cpp:210-358 | an option is understood if and only if it has a row in the tables and, for a range, a '-' behind its first number, for a pair of addresses a ',' |
| TransportGrammar.OptionFails | src/rtsp.cpp:210-358 | an option that is not understood is refused and leaves exactly what its row had stored by then: the first number of a range without '-', the address of a pair without ',', else nothing |
| TransportGrammar.RangeFields | src/rtsp.cpp:236-267 | each of the four range keywords sets its own field of the spec |
| TransportGrammar.OptionRoundTrip | src/rtsp.cpp:210-287 | a printed option is parsed to exactly what it means, whatever the spec held before |
| TransportGrammar.SpecPrinted | src/rtsp.cpp:386-420 | a printed spec, at any place in any buffer, is parsed to its meaning with the defaults of the code, and only its own text is cut; with an option that is not understood it fails and the slot has what was stored up to there |
| TransportRoundTrip.ScanPrinted | src/rtsp.cpp:360-385 | the scan finds the start of every printed spec and no other, and ends each with a NUL |
| TransportRoundTrip.TransportRoundTrip | src/rtsp.cpp:360-423 | one to three printed specs come back in order, each in its slot, with the defaults of the code, up to the first with an option that is not understood, which comes back as far as it was read; the value is understood if and only if there is none such, the other slots keep their meaning and nothing but the printed text is cut |
| TransportRoundTrip.TakenIs | src/rtsp.cpp:413-420 | the specs that are read are all of them, or those up to the first with an option that is not understood |
| TransportRoundTrip.OneSpecIff | src/rtsp.cpp:360-423 | one printed spec of any profile, lower transport and understood options comes back alone if and only if its profile does not end in RTP in front of a lower transport |
| OrderIndependence.RequestOptionOrder | src/rtsp.cpp:220-287 | printing the options of a spec, all understood, that write different fields in another order changes nothing the parser returns |
| OrderIndependence.RequestOrder | src/rtsp.cpp:425-560 | printing the headers, none of which ends the reading, in another order changes nothing the parser returns |
| HeaderParsing.HeaderLineInPlace | src/rtsp.cpp:433-473 | one header line: name, value, the header fields, and whether reading goes on, as specified |
| HeaderParsing.ReadHeadersInPlace | src/rtsp.cpp:425-474 | the loop over lines agrees with the specification, including the early return on a bad value |
| HeaderParsing.ReadHeadersSafe | src/rtsp.cpp:425-484 | whatever the headers and however their reading ended, every unicast transport slot is safe to compare |
| Locality.TransportShift | src/rtsp.cpp:360-423 | whether the scan of a header value stays in the buffer, whether it is understood and what it leaves depend on the value only, or, with fewer than four characters, on what stands in the buffer from there on; not on its place nor on what the slots held |
| Locality.TransportFrame | src/rtsp.cpp:360-423 | parsing a header value turns separators inside it into NULs and changes nothing else; with fewer than four characters, also separators behind it |
| RequestBounds.TokenOfText | src/rtsp.cpp:434-440 | strtok_r on a string without NUL gives its first word and leaves the text behind the blank that ends it, up to the same NUL |
| RequestBounds.ScannableIff | src/rtsp.cpp:367-389 | with a value shorter than four characters the scan stays in the buffer, which ends with a NUL, if and only if three specs start there from the value on |
| RequestBounds.HeaderLineIff | src/rtsp.cpp:433-473 | a header line, anywhere, is read within bounds if and only if it is not a too short Transport line or the scan finds its three specs; reading goes on if and only if the line is not blank, has its number and has no option that is not understood, or those specs are understood |
| RequestBounds.HeaderLineFrame | src/rtsp.cpp:433-473 | a header line changes nothing but its own characters, up to its NUL; a too short Transport line also separators behind it |
| RequestBounds.ReadHeadersIff | src/rtsp.cpp:425-474 | on any text that ends in a blank line, NULs or not, the loop keeps within bounds if and only if every too short line it reaches finds its specs, line by line in what the ones before have left |
| RequestBounds.NoShortLine | src/rtsp.cpp:425-474 | headers of which no line that is reached is too short are in bounds, whatever stands behind them |
| RequestBounds.FirstShortLine | src/rtsp.cpp:425-474 | the first line that is reached and too short decides, with what stands in the buffer from there on |
| RequestBounds.FirstLineShort | src/rtsp.cpp:360-423 | such a line is in bounds if and only if three specs stand in the buffer from its value on and, once they are understood, the rest is in bounds |
| RequestBounds.ShortLineOut | src/rtsp.cpp:367-389 | with fewer than three specs from the value of that line on, the headers are out of bounds |
| RequestBounds.DefinedIff | src/rtsp.cpp:498-560 | on any text that ends in a blank line and holds no NUL, in any buffer, the parser keeps within bounds if and only if the request line has three words or starts with one that is no method, and the headers are in bounds |
| RequestParsing.ParseRequestInPlace | src/rtsp.cpp:498-560 | the parser on the buffer returns the request that the specification reads from it |
| RequestParsing.ParseOnlyNuls | src/rtsp.cpp:498-560 | whatever the buffer holds, the parser writes nothing into it but NULs |
| RequestGrammar.HeaderPrinted | src/rtsp.cpp:425-474 | every printed CSeq, Session, Accept, Transport or unknown header changes the header record by exactly its meaning, and reading goes on unless it is a Transport header with an option that is not understood |
| RequestGrammar.RequestRoundTrip | src/rtsp.cpp:476-560 | every printed request, at the start of any buffer and with any number of empty lines in front, is parsed to exactly the command, version, URI and headers it was printed from, the headers up to the first that ends the reading |
| Framing.RtspClient.constructor | src/rtsp_server.cpp:459-476 | a new connection has a zeroed buffer |
| Framing.RtspClient.NextRequest | src/rtsp_server.cpp:408-441 | the loop ends as the specification says, on any chunks that stay below the buffer size, and idx never leaves the buffer |
| Framing.FramingIff | src/rtsp_server.cpp:408-441 | for any buffer contents and any chunking, process gets exactly the text up to the first blank line if and only if what stood in the buffer behind the received bytes never completes them early and shows no Content-Length when they are complete |
| Framing.FrameIsText | src/rtsp_server.cpp:408-441 | whatever the buffer held, what process is given ends in a blank line and holds no NUL |
| Framing.LeftoverCompletes | src/rtsp_server.cpp:408-450 | a chunk ending in CRLF just before a leftover CRLF hands process two bytes more than were received, before the request is complete |
| RequestToReply.LeftoverExample | src/rtsp_server.cpp:408-450 | a buffer as the parse of a first request leaves it, and a second stream of two chunks that is framed wrongly over it |
| Framing.ZeroConditions | src/rtsp_server.cpp:469-470 | over zeroes, nothing completes early for any stream without a body |
| Framing.ZeroFraming | src/rtsp_server.cpp:408-441 | over zeroes, a stream without blank line waits for the connection to close |
| Framing.FirstFraming | src/rtsp_server.cpp:408-441 | however the first request is cut up, process gets the shortest prefix that ends in a blank line |
| Framing.ChunksDoNotMatter | src/rtsp_server.cpp:408-441 | two ways of cutting one stream give process the same bytes |
| RequestToReply.RequestEnds | src/rtsp_server.cpp:408-441 | the first blank line of a printed request, whatever is sent behind it, is its own if and only if at most one empty line stands in front |
| RequestToReply.FirstRequestIsUnderstood | src/rtsp_server.cpp:401-441 | over every chunking, framing and parsing give back the printed request if and only if at most one empty line stands in front of it; otherwise process gets the empty lines alone and finds them garbled |
| RequestToReply.ProcessInBoundsIff | src/rtsp_server.cpp:408-441 | whatever comes in and whatever the buffer held, process keeps within bounds if and only if the text it is given is in bounds |
| ShortTransports.ShortTransport | src/rtsp.cpp:367-389 | a request of a known method with a too short Transport line is read within bounds only if three specs stand in the buffer from its value on |
| ShortTransports.SpecsBehind | src/rtsp.cpp:367-389 | and with three there, and one more line that is no Transport line, it is read within bounds |
| ShortTransports.SpecsInNextLine | src/rtsp.cpp:367-389 | so it is when that next line holds three specs |
| ShortTransports.SpecsBehindExample | src/rtsp.cpp:367-389 | one such request, with a value of one character |
| ShortTransports.TakenFromBehind | src/rtsp.cpp:360-423 | three printed specs behind a short value, anywhere in the buffer and with no other before them, come back as those of the Transport header |
| ShortTransports.ShortTransportExamples | src/rtsp.cpp:367-389 | two requests, alone in a buffer, that are read out of bounds: a value of three characters, and no blank behind the colon |
| ShortTransports.ShortRequestLine | src/rtsp.cpp:512-542 | every request line with fewer than three words, unless it is empty or its first word is no method, makes the parser follow a null pointer |
| RequestToReply.Serve | src/rtsp_server.cpp:408-450 | one round of the loop: from the chunks received to the frame, the request, the new state and the one reply, with the buffer filled from its start again afterwards |
| RequestToReply.OneReply | src/rtsp.cpp:498-560 | every request but KILL gets a reply, in every state; KILL gets none |
| Answers.CSeqIsEchoed | src/rtsp_server.cpp:104-113 | for every known method but KILL, in every state and whatever the outcome, a client that reads the reply as the parser reads numbers finds the code of the outcome and, in the second line, the very number it printed in its last CSeq header, unless an option that is not understood stood before it |
| Answers.ReplyReads | src/rtsp_server.cpp:104-113 | every reply with a CSeq reads back as RTSP/1.0, its own code, and a second line with exactly that number |
| Answers.ErrorReads | src/rtsp_server.cpp:298-309 | an error without headers reads back as RTSP/1.0 and its own code |
| Answers.DescribeReads | src/rtsp_server.cpp:119-140 | the reply to DESCRIBE reads back: a Content-Length equal to the length of the SDP text, an empty line, and the SDP text to the end |
| Answers.SetupReads | src/rtsp_server.cpp:219-229 | the reply to SETUP reads back: the session number, and a Transport header with both ports of the server |
| Replies.ReplyIsOneMessage | src/rtsp_server.cpp:104-309 | every reply is one message, whatever is sent behind it: a head of lines up to the first blank line, then exactly as many bytes as its Content-Length says, none without one; the head has the CSeq, if the request had headers, and the session number exactly when the request is done and is not OPTIONS or DESCRIBE |
| Answers.ReplyCodes | src/rtsp.cpp:498-560 | the code for every printed request, by method, version and state: 400, 505, 455 in INIT, 415, 461 or 200, and what is refused does nothing |
| SetupChoice.SuitsIff | src/rtsp_server.cpp:197-211 | a spec is usable if and only if its last cast is unicast, it has no mode or the last one is PLAY, its lower transport is UDP or absent, and its last client_port has two non-zero ports |
| SetupChoice.SetupAnswered | src/rtsp_server.cpp:195-249 | a printed SETUP with one Transport header is answered 200 if and only if one of the specs read suits, and the client is made for the first port of the first of them; else 461, and no client is made |
| SetupChoice.SetupWithout | src/rtsp_server.cpp:195-249 | a printed SETUP without Transport header is answered 461 |
| SetupChoice.AppendExample | src/rtsp.cpp:391-420 | a spec suits although an option behind its unicast and client_port is not understood |
| Sessions.Choose | src/rtsp_server.cpp:197-217 | the lowest index of a transport that is RTP, unicast, PLAY, UDP and has two non-zero client ports |
| Sessions.RtspHandler.FindTransport | src/rtsp_server.cpp:197-211 | the loop finds that index |
| Sessions.SetupIff | src/rtsp_server.cpp:195-249 | SETUP is answered 461 if and only if no transport is usable, and then list, client and state stay; else the client is made for the first usable one; what is usable is said by `SuitsIff` |
| Sessions.RtspHandler.Flush | src/rtsp_server.cpp:93-98 | the collected text is sent at once and the output buffer is empty again |
| Sessions.RtspHandler.SendError | src/rtsp_server.cpp:298-309 | one reply with the code, with CSeq when there are headers; the code is remembered |
| Sessions.RtspHandler.SetupClient | src/rtsp_server.cpp:195-249 | one reply is flushed, an old client leaves the list before it is replaced, and a new one is made only when a transport was found, sending to its first client port |
| Sessions.RtspHandler.PlayClient | src/rtsp_server.cpp:251-268 | one 200 is flushed and the client goes on the list |
| Sessions.RtspHandler.StopClient | src/rtsp_server.cpp:270-292 | PAUSE and TEARDOWN: one 200 is flushed and the client leaves the list |
| Sessions.RtspHandler.Command | src/rtsp_server.cpp:311-358 | exactly one reply for every command but KILL, and the list and client change as the outcome says, whatever error came in |
| Sessions.RtspHandler.Terminate | src/rtsp_server.cpp:64-75 | one entry of the client is taken off the list |
| Sessions.IsAllowable | src/rtsp.cpp:487-496 | the search returns membership |
| Sessions.Session.Dispatch | src/rtsp.cpp:498-560 | result, reply, list and remembered error of every parsed request, in every living state |
| Sessions.Session.Process | src/rtsp.cpp:624-667 | from the bytes of the buffer to the new state, the trace of on_state, the flushed reply and the playing list; the state becomes DEAD by TEARDOWN and KILL, READY by SETUP in INIT, PLAY by PLAY in READY, READY by PAUSE in PLAY, and changes by nothing else; the assertions on state and client hold |
| Sessions.ReplyStarts | src/rtsp_server.cpp:104-113 | every reply starts with its status line and its CSeq line; how those read is stated by `ReplyReads` |
| Interleaving.DecideSound | src/rtsp.cpp:498-560 | which outcomes are possible in which state |
| Interleaving.CoupledKept | src/rtsp_server.cpp:195-292 | every step of every session keeps: INIT means no client, READY and PLAY mean one, each client has one owner |
| Interleaving.AssertionsHold | src/rtsp.cpp:595-622 | in every run a request is decided in a living session only and PLAY finds a client: the assertions cannot fail |
| Interleaving.ListKept | src/rtp.cpp:131-143 | every step of any session keeps the list free of duplicates and of entries that are not current, as long as play pushes no listed client |
| Interleaving.ListedAfter | src/rtp.cpp:131-143 | a step changes whether a session's client is listed only if it is that session's own PLAY, PAUSE, SETUP, TEARDOWN, KILL or end |
| Interleaving.NoDuplicatesIff | src/rtp.cpp:131-143 | in every run the list has no duplicates throughout if and only if no session was made to PLAY again without PAUSE or SETUP in between |
| Interleaving.EntriesAreAlive | src/rtsp_server.cpp:64-75 | in every run without such a repeat, every entry is the current client of exactly one session, which is not deleted and is in PLAY or about to enter it |
| Outliving.CountIsBalance | src/rtp.cpp:131-143 | in every run, a client is listed as often as its session's requests add up to: one more for each PLAY, one less, if there is one, for each PAUSE, SETUP, TEARDOWN, KILL and the end |
| Outliving.TerminateIff | src/rtsp_server.cpp:64-75 | the end of a session leaves none of its clients listed if and only if its current client was listed at most once and those that SETUP had replaced not at all |
| Outliving.NothingOutlivesIff | src/rtsp_server.cpp:64-75 | in every run, no entry belongs to a deleted session if and only if every session ended with that balance |
| Outliving.StaleAfterSetup | src/rtsp_server.cpp:232-246 | SETUP, PLAY, PLAY, SETUP and a broken connection leave the replaced client listed |
| Outliving.SettledAfterPause | src/rtsp_server.cpp:282-292 | SETUP, PLAY, PLAY, PAUSE and a broken connection leave nothing |
| Interleaving.StaleRun | src/rtsp_server.cpp:251-268 | SETUP, PLAY, PLAY and a broken connection leave a listed client without a session |
| RunHistory.RepliesComeFirst | src/rtsp_server.cpp:219-265 | in every run, a packet reaches a client only after the 200 to the SETUP that made it and then the 200 to a PLAY of it |
| RunHistory.StateHistory | src/rtsp.cpp:579-673 | in every run the states of a session start at INIT, move only along INIT-READY-PLAY-READY or to DEAD and end at DEAD; every state change other than by KILL or the end of the connection directly follows a 200 to the request that causes it, TEARDOWN for DEAD included |
| RunHistory.ResultsAreDone | src/rtsp.cpp:624-667 | in every run, every request that is finished has done what it says: TEARDOWN and KILL end the session, SETUP in INIT, PLAY in READY and PAUSE in PLAY move it, everything else leaves the state; on_state is called exactly for the changes |
| RtpHeader.FieldRoundTrip | src/rtp.h:11-16 | set_u8 stores the field and leaves every other bit of the byte |
| RtpHeader.U16RoundTrip | src/rtp.h:18-22 | set_u16 reads back big-endian as the number modulo 2^16 |
| RtpHeader.U32RoundTrip | src/rtp.h:24-30 | set_u32 reads back big-endian as the number modulo 2^32 |
| RtpHeader.NewPacketFields | src/rtp.cpp:85-104 | the constructor's setters on a zeroed packet give version 2, no flags, no marker, the payload type and SSRC 0 (section 5.1 of RFC 3550) |
| RtpHeader.StampRoundTrip | src/rtp.h:36-62 | a stamped packet decodes to the number and the time written, its fixed fields and payload untouched |
| RtpHeader.SetU16 | src/rtp.h:18-22 | the array method writes those two bytes and no other |
| RtpHeader.SetU32 | src/rtp.h:24-30 | the array method writes those four bytes and no other |
| Delivery.SteadyDelivery | src/rtp.cpp:160-203 | while a client neither joins nor leaves it gets every packet as often as it is listed |
| Delivery.PlayingPeriod | src/rtp.cpp:131-203 | from joining on, a client gets exactly the contiguous piece of the packet log sent in that time, if and only if it was not listed already or nothing was sent |
| Delivery.AfterLeaving | src/rtp.cpp:138-143 | a client that was listed at most once gets nothing after it has left |
| Delivery.PacketNumbers | src/rtp.cpp:184-193 | packet k of the log carries sequence (1+k) mod 2^16 and, with s samples a packet, timestamp k*s mod 2^32 |
| Rtp.RtpEngine.constructor | src/rtp.cpp:68-105 | num_buffers different blocks on the free list, each with the fixed header fields, no client and empty history |
| Rtp.RtpEngine.PoolConserved | src/rtp.h:156-157 | free blocks and blocks in flight always add up to the pool |
| Rtp.RtpEngine.GetFree | src/rtp.h:156-157 | the first free block leaves the list, or null exactly when there is none |
| Rtp.RtpEngine.PutFree | src/rtp.h:156-157 | a block in flight goes back, and the free list still has no duplicates |
| Rtp.RtpEngine.Destroy | src/rtp.cpp:107-117 | each free block is given back once, and that is every block when none is in flight |
| Rtp.RtpEngine.Play | src/rtp.cpp:131-136 | the client is pushed unchecked; null changes nothing |
| Rtp.RtpEngine.Remove | src/rtp.cpp:138-143 | the first entry of the client goes; null changes nothing |
| Rtp.RtpEngine.Visit | src/rtp.cpp:160-182 | every listed client is handed the packet once per entry and counts it, and has counted as errors exactly the sends that were not taken whole |
| Rtp.FailuresCount | src/rtp.cpp:160-182 | the errors a client has counted are the number of packets for which the answer of the socket was not the length of the packet |
| Rtp.RtpEngine.Send | src/rtp.cpp:184-203 | the packet that goes out is the payload under the current number and time, all invariants of pool, counters and clients hold again, and the block is free |
| Rtp.OutgoingFields | src/rtp.cpp:184-203 | every packet handed to a socket decodes to number and time modulo their widths and to the fixed fields |
| AudioReading.FullReadConserves | src/utils.cpp:75-98 | a full read loses, repeats and reorders nothing, for every chunking of the source and every max_read |
| AudioReading.AudioSource.Read | src/utils.cpp:82-91 | a read copies the next piece to its place in the buffer |
| AudioReading.Reader.Acquire | src/utils.cpp:75-98 | the next buffer of the ring starts with one full read, its message is queued with the length read, and the result is false exactly when nothing came |
| AudioReading.Reader.Read | src/utils.cpp:110-116 | messages leave the queue in the order they entered |
| AudioCopying.Encode | src/audio_codec_pcm.cpp:84-90 | the samples are copied unchanged into the payload, and nothing else of the packet is touched |
| AudioCopying.OneRound | src/utils.cpp:167-198 | one round with other threads in between: the block is encoded and sent, for the samples of one packet, exactly when a client was listed, a free block is always found, and the pool is whole again |
| AudioCopying.AudioCopy | src/utils.cpp:149-201 | over all rounds: block k is the k-th full read, the payloads sent are exactly the blocks of the rounds with a client listed, and each packet moves the time on by the samples of one packet |
| AudioCopying.BlockIsRead | src/utils.cpp:82-97 | a block is what was read for it if and only if the read filled it |
| AudioCopying.HeardExactIff | src/utils.cpp:167-198 | the payloads are exactly the reads made while there were clients, in order and unchanged, if and only if each of them filled its block |
| AudioCopying.RoundsConserve | src/utils.cpp:75-98 | the stream of the source is what the rounds read and what is still pending |
| AudioCopying.EndToEnd | src/utils.cpp:167-198 | with full reads and clients throughout, the payloads concatenated are the stream |
| ReaderRing.StepKeeps | src/utils.cpp:75-113 | every guarded step of reader or encoder keeps the ownership of buffers and the contents of waiting blocks |
| ReaderRing.RingIsFaithful | src/utils.cpp:75-113 | in every interleaving that stores nothing over a block still to be encoded, each block is encoded exactly as queued, and the queue holds at most as many messages as there are buffers, one more only at the end of the source |
| ReaderRing.DisciplineSuffices | src/utils.cpp:75-113 | if acquire k + n starts only after block k has been encoded, the guard holds and the queue never holds more messages than there are buffers |
| ReaderRing.UnguardedCorrupts | src/utils.cpp:82-91 | the guard is exact: after anything stored against it the run can go on to a block encoded with other bytes than were queued |
| ReaderRing.TakenAreReads | src/utils.cpp:75-98 | over any source, acquire number k takes exactly the k-th full read, in every interleaving |
| ReaderRing.EncodedAreReads | src/utils.cpp:75-113 | over any source and in every guarded interleaving, block k is encoded as the k-th full read, if that filled the block |
| ReaderRing.OverrunCorrupts | src/utils.cpp:75-98 | every ring has a run from its start in which the reader gets ahead of the encoder and a block is encoded with other bytes than were queued |
| WavFile.WavSink.Open | src/wav_file.cpp:195-221 | on success the file is the 44-byte header with zero sizes |
| WavFile.WavSink.Write | src/wav_file.cpp:149-167 | after any calls of write, cut short or not, the file is the header and the bytes they took, and the count is that of the complete ones |
| WavFile.WavSink.WriteHeader | src/wav_file.cpp:223-230 | four bytes are overwritten at the offset, as far as the library takes them |
| WavFile.WavSink.Close | src/wav_file.cpp:232-252 | success exactly when every call succeeds; what the file holds after any failure |
| WavFile.WavSource.Open | src/wav_file.cpp:98-132 | true if and only if stat, fopen and every checked field agree; the position is behind the header |
| WavFile.WavSource.Read | src/wav_file.cpp:75-87 | the next bytes of the file, fewer only at its end; on_done is called exactly when an earlier read met the end |
| WavFile.HeaderRoundTrip | src/wav_file.cpp:14-28 | the header struct written little-endian reads back field by field |
| WavFile.ChunkPatched | src/wav_file.cpp:232-247 | patching a size changes that field and nothing else |
| WavFile.AlwaysReadable | src/wav_file.cpp:144-147 | whatever close is refused, and also when it is never called, the source accepts the file with all of its audio |
| WavFile.CountedIff | src/wav_file.cpp:149-167 | the count is the length of the audio if and only if every write took everything or nothing |
| WavFile.SizesIff | src/wav_file.cpp:236-247 | after a successful close the sizes are data length and file length minus 8 if and only if the count is the length of the audio and they fit 32 bits |
| WavFile.WavRoundTrip | src/wav_file.cpp:80-252 | open, any writes, a close that may fail anywhere, and reads of any sizes: the source accepts the file and the reads return what the writes left in it; after a successful close the sizes are right if and only if every write took everything or nothing and they fit 32 bits |

## Left out

- Hardware, WiFi, LEDs, command line, status reporting, logging and the code under `src/esp32` and `src/targets`.
- Opus and Codec2: foreign libraries; the engine is generic in the codec's sizes, the copy loop uses the PCM codec.
- Request bodies: a `Content-Length: ` before the blank line ends the connection in an assertion, which `NextFrame` reports as aborted.
- Pipelined bytes behind a request are discarded by `run`; they are parameters of `RequestEnds` and `FirstRequestIsUnderstood` and not modelled further.
- `strstr` and `process` need the received bytes to stay below the buffer's last byte, which stays NUL; a request that fills the buffer is not modelled.
- LineParsing.LineParser.GetLine: a remaining size of 1, where the source's bound wraps, has no result to state; `OverrunIff` says when it would be met and `FramedNext` that `run` never causes it.
- TransportParsing.ParseTransportInPlace: a scan that leaves the buffer has no result to state; `ScannableIff` says when that is.
- TransportParsing.ParseTransportSafe: the same.
- HeaderParsing.HeaderLineInPlace: the same; `HeaderLineIff` is the condition on the line and what stands behind it.
- HeaderParsing.ReadHeadersInPlace: the same; `ReadHeadersIff` is the condition on the text and what stands behind it.
- RequestParsing.ParseRequestInPlace: the same, and a request line with fewer than three words whose first is a method, where the source compares a null pointer; `DefinedIff` is the condition.
- Framing.RtspClient.NextRequest: bytes that reach the last one of the buffer leave strstr without an end, and recv without room.
- AudioReading.Reader.Acquire: asks for room in the queue; what `put` does on a full queue is not visible.
- Requests of unknown or unsupported methods are answered 400 without CSeq, as the code does.
- `ssrc=`, `ttl=` and the address options: parsed as the code does (`ssrc=` writes the ttl field, an address does not advance its input), so no round trip is stated for them.
- Overflow of `num_packets` and `num_errors`, which are counted without bound here, and the size limit of the handler's output buffer.
- The SDP text and the peer's address are parameters; socket creation for a client, UDP itself and RTCP are not part of the model.
- `get_num_clients` and `get_client`: read-only counts over the list.
- Threads: start, shutdown and blocking on an empty queue. `AudioCopy` is the loop that polls the reader in its own thread; the two-thread form is the step machine of `ReaderRing`.
- Memory of clients replaced by a second SETUP: the source does not free them.
- Read errors of a WAV file other than its end, and a file that changes between `stat` and `fopen`.
- Sessions.Session.Process: requires that the request buffer is not one of the engine's packets, which the source allocates apart, and that the parser keeps within bounds, for which `ProcessInBoundsIff` is the condition.
