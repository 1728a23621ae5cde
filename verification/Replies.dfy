/** Replies as messages on a stream (src/rtsp_server.cpp): where one ends and the next begins. */
module Replies {
  import opened CStrings
  import opened Sequences
  import opened LineParsing
  import opened TransportGrammar
  import opened RequestParsing
  import opened RequestGrammar
  import opened Framing
  import opened RequestToReply
  import opened Sessions
  import opened Answers

  /** The lines, each with its CRLF. */
  function Join(ls: seq<string>): string
    decreases |ls|
  {
    if ls == [] then "" else ls[0] + CRLF + Join(ls[1..])
  }

  lemma {:induction false} JoinSnoc(ls: seq<string>, l: string)
    ensures Join(ls + [l]) == Join(ls) + (l + CRLF)
    decreases |ls|
  {
    var all := ls + [l];
    if ls == [] {
      assert all[1..] == [];
    } else {
      assert all[0] == ls[0] && all[1..] == ls[1..] + [l];
      JoinSnoc(ls[1..], l);
      Associate(ls[0] + CRLF, Join(ls[1..]), l + CRLF);
    }
  }

  predicate HeadLine(l: string) {
    l != "" && '\r' !in l
  }

  predicate HeadLines(ls: seq<string>) {
    forall i :: 0 <= i < |ls| ==> HeadLine(ls[i])
  }

  /** The number in the first line of that name. */
  function NumberOf(ls: seq<string>, name: string): Option<int>
    decreases |ls|
  {
    if ls == [] then None
    else if HasPrefix(ls[0], name) then Some(StrToLL(ls[0][|name|..] + CRLF, 10).value)
    else NumberOf(ls[1..], name)
  }

  lemma {:induction false} NumberSnoc(ls: seq<string>, l: string, name: string)
    ensures NumberOf(ls + [l], name)
         == if NumberOf(ls, name).Some? then NumberOf(ls, name)
            else if HasPrefix(l, name) then Some(StrToLL(l[|name|..] + CRLF, 10).value) else None
    decreases |ls|
  {
    hide HasPrefix, StrToLL;
    var all := ls + [l];
    if ls == [] {
      assert all[1..] == [];
    } else {
      assert all[0] == ls[0] && all[1..] == ls[1..] + [l];
      NumberSnoc(ls[1..], l, name);
    }
  }

  // ---------------------------------------------------------------- the blank line

  lemma {:induction false} LinesEnd(ls: seq<string>, extra: string)
    requires HeadLines(ls)
    ensures FirstAt(CRLF + (Join(ls) + (CRLF + extra)), |Join(ls)|)
    decreases |ls|
  {
    hide PatAt, FirstAt;
    if ls == [] {
      assert Join(ls) + (CRLF + extra) == CRLF + extra;
      BlankFirst(extra);
    } else {
      var first, rest := ls[0], Join(ls[1..]) + (CRLF + extra);
      assert HeadLine(first);
      LinesEnd(ls[1..], extra);
      ShiftLine(first, CRLF + rest, |Join(ls[1..])|);
      assert first[0] in first;
      ShiftCrlf(first + (CRLF + rest), |first| + |Join(ls[1..])|);
      assert Join(ls) + (CRLF + extra) == first + (CRLF + rest);
    }
  }

  lemma HeadEnds(ls: seq<string>, extra: string)
    requires HeadLines(ls) && ls != []
    ensures |Join(ls)| >= 2 && FirstAt(Join(ls) + (CRLF + extra), |Join(ls)| - 2)
  {
    hide PatAt, FirstAt;
    var first, rest := ls[0], Join(ls[1..]) + (CRLF + extra);
    assert HeadLine(first);
    LinesEnd(ls[1..], extra);
    ShiftLine(first, CRLF + rest, |Join(ls[1..])|);
    assert Join(ls) + (CRLF + extra) == first + (CRLF + rest);
  }

  // ---------------------------------------------------------------- the lines of a reply

  /** What the head says: its lines, and the three numbers a client looks for. */
  ghost predicate Head(text: string, ls: seq<string>, cseq: Option<int>, session: Option<int>, length: Option<int>) {
    && text == Join(ls) && HeadLines(ls)
    && NumberOf(ls, "CSeq: ") == cseq && NumberOf(ls, "Session: ") == session && NumberOf(ls, "Content-Length: ") == length
  }

  /** A line with another name. */
  predicate OtherLine(l: string) {
    HeadLine(l) && !HasPrefix(l, "CSeq: ") && !HasPrefix(l, "Session: ") && !HasPrefix(l, "Content-Length: ")
  }

  lemma OtherStart(l: string)
    requires '\r' !in l && l != "" && l[0] != 'C' && l[0] != 'S'
    ensures OtherLine(l)
  {
  }

  lemma AddLine(text: string, ls: seq<string>, cseq: Option<int>, session: Option<int>, length: Option<int>, l: string)
    requires Head(text, ls, cseq, session, length) && OtherLine(l)
    ensures Head(text + (l + CRLF), ls + [l], cseq, session, length)
  {
    hide HasPrefix, StrToLL, HeadLine, Join, NumberOf;
    JoinSnoc(ls, l);
    NumberSnoc(ls, l, "CSeq: ");
    NumberSnoc(ls, l, "Session: ");
    NumberSnoc(ls, l, "Content-Length: ");
  }

  lemma NumberHead(name: string, n: int)
    requires Int32(n) && '\r' !in name && name != ""
    ensures HeadLine(name + Dec(n)) && HasPrefix(name + Dec(n), name)
    ensures StrToLL((name + Dec(n))[|name|..] + CRLF, 10).value == n
  {
    hide Dec, StrToLL;
    DecNoCr(n);
    NotIn(name, Dec(n), '\r');
    assert (name + Dec(n))[|name|..] == Dec(n);
    FirstNumber(Dec(n) + CRLF, n, CRLF);
  }

  lemma Unlike(rest: string)
    ensures !HasPrefix("CSeq: " + rest, "Session: ") && !HasPrefix("CSeq: " + rest, "Content-Length: ")
    ensures !HasPrefix("Session: " + rest, "CSeq: ") && !HasPrefix("Session: " + rest, "Content-Length: ")
    ensures !HasPrefix("Content-Length: " + rest, "CSeq: ") && !HasPrefix("Content-Length: " + rest, "Session: ")
  {
    assert ("CSeq: " + rest)[1] == 'S' && ("Session: " + rest)[1] == 'e' && ("Content-Length: " + rest)[1] == 'o';
  }

  lemma AddCSeq(text: string, ls: seq<string>, n: int)
    requires Head(text, ls, None, None, None) && Int32(n)
    ensures Head(text + CSeqLine(n), ls + ["CSeq: " + Dec(n)], Some(n), None, None)
  {
    hide HasPrefix, StrToLL, HeadLine, Join, NumberOf, Dec;
    var l := "CSeq: " + Dec(n);
    NumberHead("CSeq: ", n);
    Unlike(Dec(n));
    JoinSnoc(ls, l);
    NumberSnoc(ls, l, "CSeq: ");
    NumberSnoc(ls, l, "Session: ");
    NumberSnoc(ls, l, "Content-Length: ");
  }

  lemma AddSession(text: string, ls: seq<string>, cseq: Option<int>, n: int)
    requires Head(text, ls, cseq, None, None) && Int32(n)
    ensures Head(text + ("Session: " + Dec(n) + CRLF), ls + ["Session: " + Dec(n)], cseq, Some(n), None)
  {
    hide HasPrefix, StrToLL, HeadLine, Join, NumberOf, Dec;
    var l := "Session: " + Dec(n);
    NumberHead("Session: ", n);
    Unlike(Dec(n));
    JoinSnoc(ls, l);
    NumberSnoc(ls, l, "CSeq: ");
    NumberSnoc(ls, l, "Session: ");
    NumberSnoc(ls, l, "Content-Length: ");
  }

  lemma AddLength(text: string, ls: seq<string>, cseq: Option<int>, n: int)
    requires Head(text, ls, cseq, None, None) && Int32(n)
    ensures Head(text + ("Content-Length: " + Dec(n) + CRLF), ls + ["Content-Length: " + Dec(n)], cseq, None, Some(n))
  {
    hide HasPrefix, StrToLL, HeadLine, Join, NumberOf, Dec;
    var l := "Content-Length: " + Dec(n);
    NumberHead("Content-Length: ", n);
    Unlike(Dec(n));
    JoinSnoc(ls, l);
    NumberSnoc(ls, l, "CSeq: ");
    NumberSnoc(ls, l, "Session: ");
    NumberSnoc(ls, l, "Content-Length: ");
  }

  lemma StatusHead(code: int) returns (ls: seq<string>)
    ensures ls != [] && Head(StatusLine(code), ls, None, None, None)
  {
    hide Dec, Reason, OtherLine;
    var l := "RTSP/1.0 " + (Dec(code) + (" " + Reason(code)));
    NoCr(code);
    assert l[0] == 'R';
    OtherStart(l);
    AddLine("", [], None, None, None, l);
    ls := [] + [l];
    assert StatusLine(code) == "" + (l + CRLF);
  }

  lemma CommonHead(info: Info, n: int, sid: bool) returns (ls: seq<string>)
    requires Int32(n)
    ensures ls != []
    ensures Head(CommonText(info, n, sid), ls, Some(n), if sid then Some(ToInt32(info.sessionId)) else None, None)
  {
    hide Dec, StatusLine, CSeqLine, Head, ToInt32;
    ls := StatusHead(E_OK);
    AddCSeq(StatusLine(E_OK), ls, n);
    ls := ls + ["CSeq: " + Dec(n)];
    var text := StatusLine(E_OK) + CSeqLine(n);
    if sid {
      IsInt(info.sessionId);
      AddSession(text, ls, Some(n), ToInt32(info.sessionId));
      ls := ls + ["Session: " + Dec(ToInt32(info.sessionId))];
    } else {
      assert text + "" == text;
    }
  }

  lemma IsInt(n: int)
    ensures Int32(ToInt32(n))
  {
  }

  lemma ErrorHead(r: Reply) returns (ls: seq<string>, head: string)
    requires r.cseq.Some? ==> Int32(r.cseq.value)
    ensures ls != [] && Head(head, ls, r.cseq, None, None) && ErrorText(r) == head + (CRLF + "")
  {
    hide Dec, StatusLine, CSeqLine, Head;
    ls := StatusHead(r.code);
    head := StatusLine(r.code);
    if r.cseq.Some? {
      AddCSeq(head, ls, r.cseq.value);
      ls := ls + ["CSeq: " + Dec(r.cseq.value)];
      head := head + CSeqLine(r.cseq.value);
    } else {
      assert head + "" == head;
    }
    assert CRLF + "" == CRLF;
  }

  /** The session number goes with every reply but those to OPTIONS and DESCRIBE. */
  predicate NamesSession(cmd: Command) {
    cmd != OPTIONS && cmd != DESCRIBE
  }

  lemma TypeLine()
    ensures OtherLine("Content-Type: application/sdp")
  {
    var l := "Content-Type: application/sdp";
    assert l[1] == 'o' && l[8] == 'T' && "Content-Length: "[8] == 'L' && "CSeq: "[1] == 'S';
  }

  const PUBLIC: string := "Public: OPTIONS, DESCRIBE, SETUP," + " PAUSE, PLAY, TEARDOWN"

  lemma PublicLine()
    ensures OtherLine(PUBLIC)
  {
    hide OtherLine;
    FirstMethods();
    LastMethods();
    OtherStart(PUBLIC);
  }

  lemma FirstMethods()
    ensures '\r' !in "Public: OPTIONS, DESCRIBE, SETUP,"
  {
  }

  lemma LastMethods()
    ensures '\r' !in " PAUSE, PLAY, TEARDOWN"
  {
  }

  lemma Grouped(head: string, l: string, end: string, rest: string)
    ensures head + (l + end) + rest == head + l + end + rest == head + (l + (end + rest))
  {
  }

  lemma DescribeHead(info: Info, n: int) returns (ls: seq<string>, head: string)
    requires Int32(n) && Int32(|info.sdp|)
    ensures ls != [] && Head(head, ls, Some(n), None, Some(|info.sdp|))
    ensures DoneText(info, DESCRIBE, n) == head + (CRLF + info.sdp)
  {
    hide Dec, CommonText, Head, OtherLine;
    var common, l, length := CommonText(info, n, false), "Content-Type: application/sdp", "Content-Length: " + Dec(|info.sdp|);
    ls := CommonHead(info, n, false);
    TypeLine();
    AddLine(common, ls, Some(n), None, None, l);
    AddLength(common + (l + CRLF), ls + [l], Some(n), |info.sdp|);
    head := common + (l + CRLF) + (length + CRLF);
    ls := ls + [l] + [length];
    assert l + CRLF == "Content-Type: application/sdp\r\n";
    Associate(head, CRLF, info.sdp);
  }

  lemma OptionsHead(info: Info, n: int) returns (ls: seq<string>, head: string)
    requires Int32(n)
    ensures ls != [] && Head(head, ls, Some(n), None, None)
    ensures DoneText(info, OPTIONS, n) == head + (CRLF + "")
  {
    hide CommonText, Head, OtherLine;
    var common, l := CommonText(info, n, false), PUBLIC;
    ls := CommonHead(info, n, false);
    PublicLine();
    AddLine(common, ls, Some(n), None, None, l);
    head := common + (l + CRLF);
    ls := ls + [l];
    assert l + (CRLF + CRLF) == "Public: OPTIONS, DESCRIBE, SETUP, PAUSE, PLAY, TEARDOWN\r\n\r\n";
    Grouped(common, l, CRLF, CRLF);
  }

  lemma SetupHead(info: Info, n: int) returns (ls: seq<string>, head: string)
    requires Int32(n)
    ensures ls != [] && Head(head, ls, Some(n), Some(ToInt32(info.sessionId)), None)
    ensures DoneText(info, SETUP, n) == head + (CRLF + "")
  {
    hide CommonText, Head, OtherLine, Dec, ToInt32;
    var sid := ToInt32(info.sessionId);
    var common := CommonText(info, n, true);
    var ports := Dec(info.rtpPort) + ("-" + (Dec(info.rtcpPort) + (";session=" + Dec(sid))));
    var start := "Transport: RTP/AVP;unicast;server_port=";
    var l := start + ports;
    ls := CommonHead(info, n, true);
    PortsNoCr(info.rtpPort, info.rtcpPort, sid);
    NotIn(start, ports, '\r');
    assert l[0] == 'T';
    OtherStart(l);
    AddLine(common, ls, Some(n), Some(sid), None, l);
    head := common + (l + CRLF);
    ls := ls + [l];
    assert start + Dec(info.rtpPort) + "-" + Dec(info.rtcpPort) + ";session=" + Dec(sid) + CRLF == l + CRLF;
    Grouped(common, l, CRLF, CRLF);
  }

  lemma PortsNoCr(a: int, b: int, c: int)
    ensures '\r' !in Dec(a) + ("-" + (Dec(b) + (";session=" + Dec(c))))
  {
    hide Dec;
    DecNoCr(a);
    DecNoCr(b);
    DecNoCr(c);
  }

  lemma PlayHead(info: Info, n: int) returns (ls: seq<string>, head: string)
    requires Int32(n) && '\r' !in info.ip
    ensures ls != [] && Head(head, ls, Some(n), Some(ToInt32(info.sessionId)), None)
    ensures DoneText(info, PLAY, n) == head + (CRLF + "")
  {
    hide CommonText, Head, OtherLine, ToInt32;
    var common := CommonText(info, n, true);
    var l := "RTP-Info: url=rtsp://" + info.ip + "/media/trackID=0;seq=1;rtptime=0";
    ls := CommonHead(info, n, true);
    assert l[0] == 'R';
    OtherStart(l);
    AddLine(common, ls, Some(n), Some(ToInt32(info.sessionId)), None, l);
    head := common + (l + CRLF);
    ls := ls + [l];
    assert "/media/trackID=0;seq=1;rtptime=0\r\n" == "/media/trackID=0;seq=1;rtptime=0" + CRLF;
    Associate("RTP-Info: url=rtsp://" + info.ip, "/media/trackID=0;seq=1;rtptime=0", CRLF);
    Grouped(common, l, CRLF, CRLF);
  }

  lemma DoneHead(info: Info, cmd: Command, n: int) returns (ls: seq<string>, head: string)
    requires Int32(n) && Int32(|info.sdp|) && '\r' !in info.ip
    ensures ls != []
    ensures Head(head, ls, Some(n), if NamesSession(cmd) then Some(ToInt32(info.sessionId)) else None,
                 if cmd == DESCRIBE then Some(|info.sdp|) else None)
    ensures DoneText(info, cmd, n) == head + (CRLF + if cmd == DESCRIBE then info.sdp else "")
  {
    hide CommonText, Head, ToInt32;
    match cmd
    case DESCRIBE => ls, head := DescribeHead(info, n);
    case OPTIONS => ls, head := OptionsHead(info, n);
    case SETUP => ls, head := SetupHead(info, n);
    case PLAY => ls, head := PlayHead(info, n);
    case _ =>
      ls := CommonHead(info, n, true);
      head := CommonText(info, n, true);
      assert CRLF + "" == CRLF;
  }

  /** Every reply is one message, whatever is sent behind it: its head is lines without CR up to the first blank line,
      and behind that comes as much as its Content-Length says, nothing without one. So a client that reads on to the
      blank line and takes the length from the head has this reply and no byte of the next. The head names the CSeq of
      the request, if that had one, and the session when the request is done and is not OPTIONS or DESCRIBE. */
  lemma ReplyIsOneMessage(info: Info, result: Command, r: Reply, next: string) returns (ls: seq<string>, end: nat)
    requires Int32(r.code) && (r.cseq.Some? ==> Int32(r.cseq.value)) && Int32(|info.sdp|) && '\r' !in info.ip
    ensures var text := ReplyText(info, result, r);
            var done := r.code == 200 && r.cseq.Some?;
            var length := NumberOf(ls, "Content-Length: ");
            && FirstAt(text + next, end) && end + 4 <= |text| && HeadLines(ls) && text[..end + 2] == Join(ls)
            && |text| == end + 4 + (if length.Some? then length.value else 0)
            && length == (if done && result == DESCRIBE then Some(|info.sdp|) else None)
            && (length.Some? ==> text[end + 4..] == info.sdp)
            && NumberOf(ls, "CSeq: ") == r.cseq
            && NumberOf(ls, "Session: ") == (if done && NamesSession(result) then Some(ToInt32(info.sessionId)) else None)
  {
    hide DoneText, ErrorText, ToInt32, FirstAt;
    var head, body;
    var text := ReplyText(info, result, r);
    if r.code == E_OK && r.cseq.Some? {
      ls, head := DoneHead(info, result, r.cseq.value);
      body := if result == DESCRIBE then info.sdp else "";
    } else {
      ls, head := ErrorHead(r);
      body := "";
    }
    assert text == head + (CRLF + body);
    HeadEnds(ls, body + next);
    assert head + (CRLF + (body + next)) == text + next;
    end := |head| - 2;
    assert text[end + 2..] == CRLF + body;
    assert text[end + 4..] == body;
  }
}
