/** What a printed request is answered (src/rtsp.cpp, src/rtsp_server.cpp), in terms of what the client printed and of
    what it reads back. */
module Answers {
  import opened CStrings
  import opened Sequences
  import opened LineParsing
  import opened TransportParsing
  import opened TransportGrammar
  import opened TransportRoundTrip
  import opened HeaderParsing
  import opened RequestParsing
  import opened RequestGrammar
  import opened Sessions

  // ---------------------------------------------------------------- the reply, read back

  /** The text starts with the status line of this code; the line after it is the CSeq header with this number. */
  ghost predicate StatusAndCSeq(text: string, code: int, n: int) {
    && |text| >= 9 && text[..9] == "RTSP/1.0 " && StrToLL(text[9..], 10).value == code
    && exists e :: IsFirstCrlf(text, e) && HasNumberLine(text[e + 2..], "CSeq: ", n)
  }

  ghost predicate IsFirstCrlf(text: string, e: nat) {
    CrlfAt(text, e) && forall i :: 0 <= i < e ==> !CrlfAt(text, i)
  }

  /** name, the number, CRLF. */
  ghost predicate HasNumberLine(s: string, name: string, n: int) {
    && |name| <= |s| && s[..|name|] == name
    && var v := s[|name|..];
       var num := StrToLL(v, 10);
       num.value == n && CrlfAt(v, num.end) && num.end > 0
  }

  lemma NumberLine(s: string, name: string, n: int, rest: string)
    requires s == name + (Dec(n) + (CRLF + rest)) && Int32(n)
    ensures HasNumberLine(s, name, n)
  {
    hide Dec, StrToLL;
    var v := Dec(n) + (CRLF + rest);
    assert s[|name|..] == v;
    FirstNumber(v, n, CRLF + rest);
    assert v[|Dec(n)|] == '\r' && v[|Dec(n)| + 1] == '\n';
  }

  lemma NoCr(code: int)
    ensures '\r' !in "RTSP/1.0 " + (Dec(code) + (" " + Reason(code)))
  {
    hide Dec, Reason;
    var d, t := Dec(code), " " + Reason(code);
    DecNoCr(code);
    ReasonNoCr(code);
    NotIn(" ", Reason(code), '\r');
    NotIn(d, t, '\r');
    NotIn("RTSP/1.0 ", d + t, '\r');
  }

  lemma DecNoCr(code: int)
    ensures '\r' !in Dec(code)
  {
    var d := Dec(code);
    assert forall i :: 0 <= i < |d| ==> d[i] == '-' || '0' <= d[i] <= '9';
  }

  lemma ReasonNoCr(code: int)
    ensures '\r' !in Reason(code)
  {
    ShortReasons();
    LongReasons();
  }

  lemma ShortReasons()
    ensures '\r' !in "OK" && '\r' !in "Bad Request" && '\r' !in "Unsupported Media Type"
  {
  }

  lemma LongReasons()
    ensures '\r' !in "Method Not Valid in This State" && '\r' !in "Unsupported Transport"
    ensures '\r' !in "RTSP Version Not Supported"
  {
  }

  lemma StatusReads(text: string, code: int, rest: string)
    requires text == "RTSP/1.0 " + (Dec(code) + (" " + Reason(code))) + (CRLF + rest) && Int32(code)
    ensures |text| >= 9 && text[..9] == "RTSP/1.0 " && StrToLL(text[9..], 10).value == code
    ensures var e := |"RTSP/1.0 " + (Dec(code) + (" " + Reason(code)))|; IsFirstCrlf(text, e) && text[e + 2..] == rest
  {
    hide Dec, StrToLL, Reason;
    var line := "RTSP/1.0 " + (Dec(code) + (" " + Reason(code)));
    var tail := " " + Reason(code) + (CRLF + rest);
    assert text[9..] == Dec(code) + tail;
    FirstNumber(text[9..], code, tail);
    NoCr(code);
    assert forall i :: 0 <= i < |line| ==> text[i] == line[i] && line[i] in line;
  }

  lemma Regroup(a: string, b: string, c: string, d: string, e: string)
    ensures a + b + c + d + e == a + (b + (c + d)) + e
  {
    assert a + b + c + d == a + (b + (c + d));
  }

  /** Every reply that has a CSeq carries its own code and exactly that number, as a client reads them. */
  lemma ReplyReads(info: Info, result: Command, r: Reply)
    requires Int32(r.code) && r.cseq.Some? && Int32(r.cseq.value)
    ensures StatusAndCSeq(ReplyText(info, result, r), r.code, r.cseq.value)
  {
    hide Dec, Reason, ReplyText, StrToLL, IsFirstCrlf, HasNumberLine;
    var text := ReplyText(info, result, r);
    ReplyStarts(info, result, r);
    var start := StatusLine(r.code) + CSeqLine(r.cseq.value);
    var tail := text[|start|..];
    assert text == start + tail;
    var rest := "CSeq: " + (Dec(r.cseq.value) + (CRLF + tail));
    var status := "RTSP/1.0 " + (Dec(r.code) + (" " + Reason(r.code)));
    Regroup("RTSP/1.0 ", Dec(r.code), " ", Reason(r.code), CRLF);
    Associate("CSeq: " + Dec(r.cseq.value), CRLF, tail);
    Associate("CSeq: ", Dec(r.cseq.value), CRLF + tail);
    Associate(status + CRLF, CSeqLine(r.cseq.value), tail);
    Associate(status, CRLF, rest);
    StatusReads(text, r.code, rest);
    NumberLine(rest, "CSeq: ", r.cseq.value, tail);
  }

  /** A reply without a CSeq: the status line of its code. */
  lemma ErrorReads(info: Info, result: Command, r: Reply)
    requires Int32(r.code) && r.cseq.None?
    ensures var text := ReplyText(info, result, r); |text| >= 9 && text[..9] == "RTSP/1.0 " && StrToLL(text[9..], 10).value == r.code
  {
    hide Dec, Reason, StrToLL;
    var text := ReplyText(info, result, r);
    assert text == "RTSP/1.0 " + (Dec(r.code) + (" " + Reason(r.code))) + (CRLF + CRLF);
    StatusReads(text, r.code, CRLF);
  }

  /** The reply to DESCRIBE, read back: behind a CRLF, at c, a Content-Length header with the length of the SDP text;
      the SDP text is what follows the empty line, at e. */
  lemma DescribeReads(info: Info, n: int) returns (c: nat, e: nat)
    requires Int32(|info.sdp|)
    ensures var text := DoneText(info, DESCRIBE, n);
            && 2 <= c < e <= |text| && CrlfAt(text, c - 2) && HasNumberLine(text[c..], "Content-Length: ", |info.sdp|)
            && e >= 4 && CrlfAt(text, e - 4) && CrlfAt(text, e - 2) && text[e..] == info.sdp
  {
    hide Dec, HasNumberLine, CommonText;
    var pre := CommonText(info, n, false) + "Content-Type: application/sdp";
    var line := "Content-Length: " + Dec(|info.sdp|);
    var text := DoneText(info, DESCRIBE, n);
    var rest := CRLF + info.sdp;
    assert text == pre + CRLF + (line + (CRLF + rest));
    c := |pre| + 2;
    e := c + |line| + 4;
    assert text[c..] == line + (CRLF + rest);
    Associate("Content-Length: ", Dec(|info.sdp|), CRLF + rest);
    NumberLine(text[c..], "Content-Length: ", |info.sdp|, rest);
    assert text[|pre|] == '\r' && text[|pre| + 1] == '\n';
    assert text[c + |line|..] == CRLF + rest;
    assert text[e..] == text[c + |line|..][4..];
    assert text[e - 4] == text[c + |line|..][0] && text[e - 3] == text[c + |line|..][1];
    assert text[e - 2] == text[c + |line|..][2] && text[e - 1] == text[c + |line|..][3];
  }

  /** The reply to SETUP, read back: behind a CRLF, at c, a Session header with the number of the session; behind that,
      at t, a Transport header that names the two ports of the server. */
  lemma SetupReads(info: Info, n: int) returns (c: nat, t: nat)
    requires Int32(info.rtpPort) && Int32(info.rtcpPort)
    ensures var text := DoneText(info, SETUP, n);
            && 2 <= c < t <= |text| && CrlfAt(text, c - 2) && CrlfAt(text, t - 2)
            && HasNumberLine(text[c..], "Session: ", ToInt32(info.sessionId))
            && HasPrefix(text[t..], "Transport: RTP/AVP;unicast;server_port=")
            && HasRange(text[t..][39..], info.rtpPort, info.rtcpPort)
  {
    hide Dec, HasNumberLine, StatusLine, CSeqLine, HasRange, ToInt32;
    var sid := ToInt32(info.sessionId);
    var pre := StatusLine(E_OK) + CSeqLine(n);
    var first := "Session: " + Dec(sid);
    var ports := Dec(info.rtpPort) + ("-" + (Dec(info.rtcpPort) + (";session=" + (Dec(sid) + (CRLF + CRLF)))));
    var line := "Transport: RTP/AVP;unicast;server_port=" + ports;
    var text := DoneText(info, SETUP, n);
    SetupParts(info, n, sid, pre, first, ports, line);
    c := |pre|;
    t := c + |first| + 2;
    assert text[c..] == first + (CRLF + line);
    Associate("Session: ", Dec(sid), CRLF + line);
    NumberLine(text[c..], "Session: ", sid, line);
    EndsInCrlf(n);
    assert text[c - 2] == pre[c - 2] && text[c - 1] == pre[c - 1];
    assert text[t..] == text[c..][|first| + 2..] == line;
    assert text[t - 2] == text[c..][|first|] && text[t - 1] == text[c..][|first| + 1];
    assert line[39..] == ports;
    RangeReads(info.rtpPort, info.rtcpPort, ";session=" + (Dec(sid) + (CRLF + CRLF)));
  }

  /** a-b, as strtoll reads it. */
  ghost predicate HasRange(s: string, a: int, b: int) {
    var first := StrToLL(s, 10);
    && first.value == a && first.end < |s| && s[first.end] == '-'
    && StrToLL(s[first.end + 1..], 10).value == b
  }

  lemma RangeReads(a: int, b: int, rest: string)
    requires Int32(a) && Int32(b) && rest != "" && DigitVal(rest[0]) >= 10
    ensures HasRange(Dec(a) + ("-" + (Dec(b) + rest)), a, b)
  {
    hide Dec, StrToLL;
    var tail := Dec(b) + rest;
    var s := Dec(a) + ("-" + tail);
    FirstNumber(s, a, "-" + tail);
    FirstNumber(tail, b, rest);
    assert s[|Dec(a)| + 1..] == tail;
  }

  lemma EndsInCrlf(n: int)
    ensures var pre := StatusLine(E_OK) + CSeqLine(n);
            |pre| >= 2 && pre[|pre| - 2] == '\r' && pre[|pre| - 1] == '\n'
  {
    hide Dec, StatusLine;
  }

  lemma SetupParts(info: Info, n: int, sid: int, pre: string, first: string, ports: string, line: string)
    requires sid == ToInt32(info.sessionId) && pre == StatusLine(E_OK) + CSeqLine(n) && first == "Session: " + Dec(sid)
    requires ports == Dec(info.rtpPort) + ("-" + (Dec(info.rtcpPort) + (";session=" + (Dec(sid) + (CRLF + CRLF)))))
    requires line == "Transport: RTP/AVP;unicast;server_port=" + ports
    ensures DoneText(info, SETUP, n) == pre + (first + (CRLF + line))
  {
    hide Dec, StatusLine, CSeqLine, ToInt32;
    var a, b, d := Dec(info.rtpPort), Dec(info.rtcpPort), Dec(sid);
    var long := "Transport: RTP/AVP;unicast;server_port=" + a + "-" + b + ";session=" + d + CRLF;
    assert CommonText(info, n, true) == pre + (first + CRLF);
    assert long + CRLF == line by { PortsRegroup("Transport: RTP/AVP;unicast;server_port=", a, "-", b, ";session=", d, CRLF, CRLF); }
    Associate(pre, first + CRLF, line);
    Associate(first, CRLF, line);
    assert DoneText(info, SETUP, n) == CommonText(info, n, true) + long + CRLF;
    Associate(CommonText(info, n, true), long, CRLF);
  }

  lemma PortsRegroup(a: string, b: string, c: string, d: string, e: string, f: string, g: string, h: string)
    ensures a + b + c + d + e + f + g + h == a + (b + (c + (d + (e + (f + (g + h))))))
  {
    Regroup3(a + b + c + d, e, f, g + h);
    Associate(a + b + c + d + e + f, g, h);
    Regroup3(a, b, c, d + (e + (f + (g + h))));
    Associate(a + b + c, d, e + (f + (g + h)));
  }

  lemma Regroup3(a: string, b: string, c: string, d: string)
    ensures a + b + c + d == a + (b + (c + d))
  {
  }

  // ---------------------------------------------------------------- the number of the request

  /** The number in the last CSeq header that is read, n without one. */
  function LastCSeq(ls: seq<HeaderText>, n: int): int
    decreases |ls|
  {
    if ls == [] then n
    else
      var m := if ls[0].HCSeq? then ls[0].n else n;
      if StopsReading(ls[0]) then m else LastCSeq(ls[1..], m)
  }

  lemma {:induction false} MeanCSeq(h: Header, ls: seq<HeaderText>)
    ensures MeanHeaders(h, ls).cseq == LastCSeq(ls, h.cseq)
    decreases |ls|
  {
    hide MeanSpecs, TakesSdp, StopsReading;
    if ls != [] {
      MeanCSeq(MeanHeader(h, ls[0]), ls[1..]);
    }
  }

  lemma {:induction false} OnlyCSeq(ls: seq<HeaderText>, k: nat, n: int)
    requires k < |ls| && ls[k].HCSeq? && forall j :: k < j < |ls| ==> !ls[j].HCSeq?
    requires forall j :: 0 <= j < k ==> !StopsReading(ls[j])
    ensures LastCSeq(ls, n) == ls[k].n
    decreases |ls|
  {
    var m := if ls[0].HCSeq? then ls[0].n else n;
    if k > 0 {
      OnlyCSeq(ls[1..], k - 1, m);
    } else {
      NoCSeq(ls[1..], m);
    }
  }

  lemma {:induction false} NoCSeq(ls: seq<HeaderText>, n: int)
    requires forall j :: 0 <= j < |ls| ==> !ls[j].HCSeq?
    ensures LastCSeq(ls, n) == n
    decreases |ls|
  {
    if ls != [] {
      NoCSeq(ls[1..], n);
    }
  }

  /** For every known method but KILL, in every state, whatever the outcome: what the client reads in the reply is the
      code of the outcome and the very number it printed in its last CSeq header, unless an option that is not
      understood has ended the reading of headers before it (section 12.17 of RFC 2326). */
  lemma CSeqIsEchoed(m: seq<char>, s: State, r: RequestText, k: nat, info: Info)
    requires s != Dead && ValidRequest(r) && At(m, 0, PrintRequest(r))
    requires CommandOf(r.name) != UNKNOWN && CommandOf(r.name) != KILL
    requires k < |r.headers| && r.headers[k].HCSeq? && forall j :: k < j < |r.headers| ==> !r.headers[j].HCSeq?
    requires forall j :: 0 <= j < k ==> !StopsReading(r.headers[j])
    ensures var d := Decide(s, ParseRequest(m, |PrintRequest(r)|).req);
            && d.reply.Some? && StatusAndCSeq(ReplyText(info, d.result, d.reply.value), d.reply.value.code, r.headers[k].n)
  {
    hide Choose, CommandOf, ReplyText, ParseRequest, PrintRequest, MeanHeaders, StatusAndCSeq, LastCSeq, PrintHeader, StopsReading;
    var h := NO_HEADER.(acceptSdp := true);
    RequestRoundTrip(m, r);
    MeanCSeq(h, r.headers);
    OnlyCSeq(r.headers, k, h.cseq);
    assert ValidHeader(r.headers[k]);
    var d := Decide(s, MeanRequest(r));
    ReplyReads(info, d.result, d.reply.value);
  }

  // ---------------------------------------------------------------- which code

  /** The request says that it takes SDP, or nothing of what it takes. */
  predicate WantsSdp(ls: seq<HeaderText>, b: bool)
    decreases |ls|
  {
    if ls == [] then b
    else
      var c := if ls[0].HAccept? then TakesSdp(ls[0].types) else b;
      if StopsReading(ls[0]) then c else WantsSdp(ls[1..], c)
  }

  lemma {:induction false} MeanAccept(h: Header, ls: seq<HeaderText>)
    ensures MeanHeaders(h, ls).acceptSdp == WantsSdp(ls, h.acceptSdp)
    decreases |ls|
  {
    hide MeanSpecs, TakesSdp, StopsReading;
    if ls != [] {
      MeanAccept(MeanHeader(h, ls[0]), ls[1..]);
    }
  }

  /** The methods by the names the client prints. */
  predicate Plays(name: string) {
    name == "PLAY" || name == "PAUSE" || name == "TEARDOWN"
  }

  predicate Method(name: string) {
    Plays(name) || name == "OPTIONS" || name == "DESCRIBE" || name == "SETUP"
  }

  /** The reply code of every printed request, by its method, its version and the state: 400 for every method that is
      not known, no reply to KILL, 505 for every other version, 455 for PLAY, PAUSE and TEARDOWN in INIT. What is
      refused does nothing; what is not is carried out. */
  lemma ReplyCodes(m: seq<char>, s: State, r: RequestText)
    requires s != Dead && ValidRequest(r) && At(m, 0, PrintRequest(r))
    ensures var d := Decide(s, ParseRequest(m, |PrintRequest(r)|).req);
            && (r.name == "KILL" ==> d == Reaction(None, Stop, KILL))
            && (!Method(r.name) && r.name != "KILL" ==> d == Reaction(Some(Reply(400, None)), NoAction, UNKNOWN))
            && (Method(r.name) ==> d.reply.Some? && d.reply.value.cseq.Some?)
            && (Method(r.name) && r.version != "RTSP/1.0" ==> d.reply.value.code == 505)
            && (Plays(r.name) && r.version == "RTSP/1.0" ==> d.reply.value.code == if s == Init then 455 else 200)
            && (r.name == "OPTIONS" && r.version == "RTSP/1.0" ==> d.reply.value.code == 200)
            && (r.name == "DESCRIBE" && r.version == "RTSP/1.0" ==>
                  d.reply.value.code == if WantsSdp(r.headers, true) then 200 else 415)
            && (r.name == "SETUP" && r.version == "RTSP/1.0" ==> d.reply.value.code == 200 || d.reply.value.code == 461)
            && (Method(r.name) && d.reply.value.code != 200 ==> d.action == NoAction && d.result == UNKNOWN)
            && (Method(r.name) && d.reply.value.code == 200 ==> Carried(r.name, d))
  {
    hide Choose, ParseRequest, PrintRequest, MeanHeaders, WantsSdp, PrintLine, ValidHeaders;
    RequestRoundTrip(m, r);
    MeanAccept(NO_HEADER.(acceptSdp := true), r.headers);
    Named(r.name);
  }

  /** What a request that is answered 200 does to the client and is to the session. */
  predicate Carried(name: string, d: Reaction) {
    && (name == "OPTIONS" ==> d.result == OPTIONS && d.action == NoAction)
    && (name == "DESCRIBE" ==> d.result == DESCRIBE && d.action == NoAction)
    && (name == "SETUP" ==> d.result == SETUP && d.action.Create?)
    && (name == "PLAY" ==> d.result == PLAY && d.action == Start)
    && (name == "PAUSE" ==> d.result == PAUSE && d.action == Stop)
    && (name == "TEARDOWN" ==> d.result == TEARDOWN && d.action == Stop)
  }

  lemma Named(name: string)
    ensures Method(name) || name == "KILL" <==> CommandOf(name) != UNKNOWN
    ensures name == "KILL" <==> CommandOf(name) == KILL
    ensures name == "OPTIONS" <==> CommandOf(name) == OPTIONS
    ensures name == "DESCRIBE" <==> CommandOf(name) == DESCRIBE
    ensures name == "SETUP" <==> CommandOf(name) == SETUP
    ensures name == "PLAY" <==> CommandOf(name) == PLAY
    ensures name == "PAUSE" <==> CommandOf(name) == PAUSE
    ensures name == "TEARDOWN" <==> CommandOf(name) == TEARDOWN
  {
  }
}
