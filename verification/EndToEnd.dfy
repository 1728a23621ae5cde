/** From the bytes of a client to the reply: framing, parsing and the session together. */
module RequestToReply {
  import opened CStrings
  import opened Sequences
  import opened LineParsing
  import opened HeaderParsing
  import opened TransportGrammar
  import opened RequestParsing
  import opened RequestBounds
  import opened RequestGrammar
  import opened Framing
  import opened TransportParsing
  import opened Rtp
  import opened Sessions

  // ---------------------------------------------------------------- where a printed request ends

  ghost predicate FirstAt(s: string, k: nat) {
    PatAt(s, k, BLANK) && forall j :: 0 <= j < k ==> !PatAt(s, j, BLANK)
  }

  lemma NoBlankAt(s: string, j: nat)
    requires (j < |s| && s[j] != '\r') || (j + 2 < |s| && s[j + 2] != '\r')
    ensures !PatAt(s, j, BLANK)
  {
    if j + 4 <= |s| {
      assert s[j..j + 4][0] == s[j] && s[j..j + 4][2] == s[j + 2];
    }
  }

  lemma Shift(a: string, t: string, k: nat)
    requires FirstAt(t, k) && forall j :: 0 <= j < |a| ==> !PatAt(a + t, j, BLANK)
    ensures FirstAt(a + t, |a| + k)
  {
    forall j | |a| <= j
      ensures PatAt(a + t, j, BLANK) <==> PatAt(t, j - |a|, BLANK)
    {
      if j + 4 <= |a + t| {
        assert (a + t)[j..j + 4] == t[j - |a|..j - |a| + 4];
      }
    }
  }

  /** A line without CR in front of a CRLF that a blank line does not start. */
  lemma ShiftLine(line: string, t: string, k: nat)
    requires FirstAt(t, k) && '\r' !in line
    ensures FirstAt(line + t, |line| + k)
  {
    forall j | 0 <= j < |line|
      ensures !PatAt(line + t, j, BLANK)
    {
      assert (line + t)[j] == line[j];
      NoBlankAt(line + t, j);
    }
    Shift(line, t, k);
  }

  lemma ShiftCrlf(t: string, k: nat)
    requires FirstAt(t, k) && t != "" && t[0] != '\r'
    ensures FirstAt(CRLF + t, 2 + k)
  {
    var s := CRLF + t;
    assert s[2] == t[0];
    NoBlankAt(s, 0);
    NoBlankAt(s, 1);
    Shift(CRLF, t, k);
  }

  lemma HeaderNotEmpty(l: HeaderText)
    requires ValidHeader(l)
    ensures PrintHeader(l) != ""
  {
    hide Dec, PrintTokens, PrintSpecs;
  }

  /** The CRLF that ends the line before the headers, the headers, the empty line. */
  lemma {:induction false} HeadersEnd(ls: seq<HeaderText>, extra: string)
    requires ValidHeaders(ls)
    ensures FirstAt(CRLF + (PrintHeaders(ls) + CRLF + extra), |PrintHeaders(ls)|)
    decreases |ls|
  {
    hide PrintHeader, PatAt, FirstAt, ValidHeader;
    if ls == [] {
      assert PrintHeaders(ls) + CRLF + extra == CRLF + extra;
      BlankFirst(extra);
    } else {
      var first, rest := PrintHeader(ls[0]), PrintHeaders(ls[1..]) + CRLF + extra;
      assert ValidHeader(ls[0]);
      HeaderNotEmpty(ls[0]);
      HeadersEnd(ls[1..], extra);
      ShiftLine(first, CRLF + rest, |PrintHeaders(ls[1..])|);
      assert first[0] in first;
      ShiftCrlf(first + (CRLF + rest), |first| + |PrintHeaders(ls[1..])|);
      assert PrintHeaders(ls) + CRLF + extra == first + (CRLF + rest);
    }
  }

  lemma BlankFirst(extra: string)
    ensures FirstAt(CRLF + (CRLF + extra), 0)
  {
    var s := CRLF + (CRLF + extra);
    assert s[0..4] == BLANK;
  }

  /** A printed request ends at its own blank line, whatever follows, if and only if there is at most one empty
      line in front; two or more are taken for a request of their own. */
  lemma RequestEnds(r: RequestText, extra: string)
    requires ValidRequest(r)
    ensures |PrintRequest(r)| >= 4
    ensures StrStr(PrintRequest(r) + extra, 0, BLANK) == Some(if r.blank <= 1 then |PrintRequest(r)| - 4 else 0)
    ensures StrStr(PrintRequest(r) + extra, 0, BLANK) == Some(|PrintRequest(r)| - 4) <==> r.blank <= 1
  {
    hide PrintLine, PrintHeaders, ValidHeaders, PatAt, StrStr;
    var line, tail := PrintLine(r), CRLF + (PrintHeaders(r.headers) + CRLF + extra);
    var k := |PrintHeaders(r.headers)|;
    LineNotEmpty(r);
    assert PrintBody(r) + extra == line + tail;
    if r.blank >= 2 {
      TwoEmptyLines(r, extra);
      StrStrIs(PrintRequest(r) + extra, 0, BLANK);
    } else {
      HeadersEnd(r.headers, extra);
      ShiftLine(line, tail, k);
      assert Repeat(CRLF, 0) == "";
      if r.blank == 1 {
        assert line[0] in line;
        ShiftCrlf(line + tail, |line| + k);
        assert Repeat(CRLF, 1) == CRLF;
        assert PrintRequest(r) + extra == CRLF + (line + tail);
        StrStrIs(PrintRequest(r) + extra, 2 + |line| + k, BLANK);
      } else {
        assert PrintRequest(r) + extra == line + tail;
        StrStrIs(PrintRequest(r) + extra, |line| + k, BLANK);
      }
    }
  }

  lemma TwoEmptyLines(r: RequestText, extra: string)
    requires ValidRequest(r) && r.blank >= 2
    ensures PatAt(PrintRequest(r) + extra, 0, BLANK) && |PrintRequest(r)| > 4
  {
    hide PrintLine, PrintHeaders, ValidHeaders;
    LineNotEmpty(r);
    var n := r.blank;
    assert Repeat(CRLF, n) == CRLF + (CRLF + Repeat(CRLF, n - 2));
    assert (PrintRequest(r) + extra)[0..4] == BLANK;
  }

  lemma LineNotEmpty(r: RequestText)
    requires ValidRequest(r)
    ensures PrintLine(r) != ""
  {
  }

  /** However the bytes of a printed request arrive on a new connection, and whatever is sent behind it: process is
      given a buffer that the parser reads back as exactly that request if and only if there is at most one empty
      line in front. Otherwise the empty lines are taken for a request, which is answered as garbled. */
  lemma FirstRequestIsUnderstood(m: seq<char>, chunks: seq<string>, r: RequestText, extra: string)
    requires ValidRequest(r) && Nonempty(chunks) && Concat(chunks) == PrintRequest(r) + extra
    requires |Concat(chunks)| < |m| && ZeroFrom(m, 0)
    requires NUL !in Concat(chunks) && !Contains(Concat(chunks), LENGTH)
    ensures var run := NextFrame(m, 0, chunks);
            && run.frame.Framed? && run.frame.end <= |run.m|
            && var p := ParseRequest(run.m, run.frame.end);
               && p.defined
               && (run.frame.end == |PrintRequest(r)| && p.req == MeanRequest(r) <==> r.blank <= 1)
               && (r.blank > 1 ==> run.frame.end == 4 && p.req == Garbled)
  {
    hide PrintRequest, NextFrame, ParseRequest, ZeroFrom, Concat, StrStr, MeanRequest, ValidRequest;
    var text := PrintRequest(r);
    RequestEnds(r, extra);
    FirstFraming(m, chunks);
    var run := NextFrame(m, 0, chunks);
    if r.blank <= 1 {
      assert run.m[..|text|] == (text + extra)[..|text|] == text;
      assert run.m[0..0 + |text|] == run.m[..|text|];
      SliceAt(run.m, 0, text);
      RequestRoundTrip(run.m, r);
    } else {
      TwoEmptyLines(r, extra);
      assert run.m[..4] == (text + extra)[..4] == (text + extra)[0..4] == BLANK;
      EmptyRequest(run.m);
    }
  }

  lemma EmptyRequest(m: seq<char>)
    requires |m| >= 4 && m[..4] == BLANK
    ensures ParseRequest(m, 4).defined && ParseRequest(m, 4).req == Garbled
  {
    hide ParseLine;
    var s := m[0..4];
    assert s == BLANK && CrlfAt(s, 0);
    var n := m[0 := NUL];
    assert m[0..0 + 4] == s && n[2..2 + 2] == s[2..4];
    assert SkipAt(m, 0, 4) == SkipAt(n, 2, 2) == Got(n, None, 2, 2);
    assert LineEnd(n[2..4], 0) == 0;
  }

  /** One line and a blank line, as the parser leaves them; then the line comes again, in a chunk of its own, and is
      taken for a whole request. */
  lemma LeftoverExample() returns (first: seq<char>, m: seq<char>, chunks: seq<string>)
    ensures first == "A\r\n\r\n\0\0\0\0\0\0" && ParseRequest(first, 5).defined && m == ParseRequest(first, 5).m
    ensures chunks == ["A\r\n", "B\r\n\r\n"] && |Concat(chunks)| < |m| && StrStr(Concat(chunks), 0, BLANK) == Some(4)
    ensures NextFrame(m, 0, chunks).frame == Framed(5, 3) && !Quiet(m, 0, chunks)
  {
    first, chunks := "A\r\n\r\n\0\0\0\0\0\0", ["A\r\n", "B\r\n\r\n"];
    m := ParseRequest(first, 5).m;
    LeftByParser(first);
    LeftoverFrame(m, chunks);
  }

  lemma LeftByParser(first: seq<char>)
    requires first == "A\r\n\r\n\0\0\0\0\0\0"
    ensures ParseRequest(first, 5).defined && ParseRequest(first, 5).m == "A\0\n\r\n\0\0\0\0\0\0"
  {
    hide ParseLine;
    LeftByGetLine(first);
    assert !CrlfAt(first[0..5], 0);
    assert SkipAt(first, 0, 5) == Got(first, None, 0, 5);
    var g := GetLineAt(first, 0, 5);
    LeftByToken(g.m, g.pos, g.size);
  }

  lemma LeftByToken(m: seq<char>, pos: nat, size: nat)
    requires m == "A\0\n\r\n\0\0\0\0\0\0" && pos + size <= |m|
    ensures ParseLine(m, 0, pos, size).defined && ParseLine(m, 0, pos, size).m == m
  {
    hide ParseRest;
    StrTokFirst(m, 0, ' ', 1);
    assert CStr(m, 0) == "A";
  }

  lemma LeftByGetLine(first: seq<char>)
    requires first == "A\r\n\r\n\0\0\0\0\0\0"
    ensures GetLineAt(first, 0, 5).m == "A\0\n\r\n\0\0\0\0\0\0" && GetLineAt(first, 0, 5).line == Some(0)
  {
    var s := first[0..5];
    assert s == "A\r\n\r\n";
    assert CrlfAt(s, 1) && !CrlfAt(s, 0);
    assert LineEnd(s, 0) == LineEnd(s, 1) == 1;
  }

  lemma LeftoverFrame(m: seq<char>, chunks: seq<string>)
    requires m == "A\0\n\r\n\0\0\0\0\0\0" && chunks == ["A\r\n", "B\r\n\r\n"]
    ensures Concat(chunks) == "A\r\nB\r\n\r\n" && StrStr(Concat(chunks), 0, BLANK) == Some(4)
    ensures NextFrame(m, 0, chunks).frame == Framed(5, 3) && !Quiet(m, 0, chunks)
  {
    hide StrStr, PatAt, Quiet;
    assert chunks[1..] == ["B\r\n\r\n"];
    assert Concat(chunks[1..]) == "B\r\n\r\n" + Concat<char>([]);
    FoundAt("A\r\nB\r\n\r\n", 4);
    var n := Received(m, 0, "A\r\n");
    assert n == "A\r\n\r\n\0\0\0\0\0\0";
    NulFromIs(n, 0, 5);
    assert CStr(n, 0) == n[0..5] == "A\r\n\r\n";
    FoundAt("A\r\n\r\n", 1);
    Shorter("A\r\n\r\n", LENGTH);
    assert m[..0] + chunks[0] == "A\r\n";
    Shorter("A\r\n", BLANK);
    LeftoverNotQuiet(m, chunks);
  }

  lemma LeftoverNotQuiet(m: seq<char>, chunks: seq<string>)
    requires m == "A\0\n\r\n\0\0\0\0\0\0" && chunks == ["A\r\n", "B\r\n\r\n"]
    ensures !Quiet(m, 0, chunks)
  {
    hide StrStr, PatAt, Quiet;
    var a := m[..0] + chunks[0];
    assert a == "A\r\n";
    Shorter(a, BLANK);
    NulFromIs(m, 3, 5);
    assert CStr(m, 3) == m[3..5] == "\r\n";
    FoundAt("A\r\n\r\n", 1);
    assert a + CStr(m, |a|) == "A\r\n\r\n";
    NotQuiet(m, 0, chunks);
  }

  lemma FoundAt(s: string, k: nat)
    requires k + 4 <= |s| <= 8 && s[k..k + 4] == BLANK && forall j :: 0 <= j < k ==> !(s[j] == '\r' && s[j + 2] == '\r')
    ensures StrStr(s, 0, BLANK) == Some(k)
  {
    hide StrStr;
    forall j | 0 <= j < k
      ensures !PatAt(s, j, BLANK)
    {
      assert j + 4 <= |s| ==> s[j..j + 4][0] == s[j] && s[j..j + 4][2] == s[j + 2];
    }
    StrStrIs(s, k, BLANK);
  }

  lemma Shorter(s: string, pat: string)
    requires |s| < |pat|
    ensures !Contains(s, pat)
  {
  }

  // ---------------------------------------------------------------- requests that are read out of bounds

  /** Whatever comes in and whatever the buffer held: process keeps within bounds if and only if the request it is
      given is in bounds in that buffer. */
  lemma ProcessInBoundsIff(m: seq<char>, idx: nat, chunks: seq<string>)
    requires idx + |Concat(chunks)| < |m|
    ensures var r := NextFrame(m, idx, chunks);
            r.frame.Framed? ==>
              && r.frame.end <= |r.m| && EndsBlank(r.m[..r.frame.end]) && NUL !in r.m[..r.frame.end]
              && (ParseRequest(r.m, r.frame.end).defined <==> InBounds(r.m, r.frame.end))
  {
    hide NextFrame, ParseRequest, InBounds, Concat;
    FrameIsText(m, idx, chunks);
    var r := NextFrame(m, idx, chunks);
    if r.frame.Framed? {
      BlankEnds(r.m[..r.frame.end]);
      DefinedIff(r.m, r.frame.end);
    }
  }

  lemma BlankEnds(s: string)
    requires |s| >= 4 && s[|s| - 4..] == BLANK
    ensures EndsBlank(s)
  {
    var t := s[|s| - 4..];
    assert t[0] == s[|s| - 4] && t[1] == s[|s| - 3] && t[2] == s[|s| - 2] && t[3] == s[|s| - 1];
  }

  // ---------------------------------------------------------------- one round of run

  /** One request of a connection, as the loop of run handles it: received, processed and answered, after which the
      buffer is filled from its start again. */
  method Serve(client: RtspClient, session: Session, chunks: seq<string>) returns (frame: Frame, cmd: Command)
    requires client.Valid() && client.idx == 0 && |Concat(chunks)| < client.buff.Length && session.Valid()
    requires client.buff !in session.handler.rtp.Packets()
    requires var r := NextFrame(client.buff[..], 0, chunks);
             r.frame.Framed? ==> r.frame.end <= |r.m| && InBounds(r.m, r.frame.end)
    modifies client, client.buff, session, session.handler, session.handler.socket, session.handler.rtp
    ensures frame == NextFrame(old(client.buff[..]), 0, chunks).frame
    ensures !frame.Framed? ==> session.state == old(session.state) && session.handler.socket.sent == old(session.handler.socket.sent)
    ensures frame.Framed? ==>
              var r := NextFrame(old(client.buff[..]), 0, chunks);
              var p := ParseRequest(r.m, frame.end);
              var d := Decide(old(session.state), p.req);
              && client.Valid() && client.idx == 0 && client.buff[..] == p.m
              && (session.state != Dead ==> session.Valid()) && session.state == NextState(old(session.state), d.result)
              && cmd == Returned(d.result)
              && session.handler.socket.sent == old(session.handler.socket.sent)
                   + (if d.reply == None then [] else [ReplyText(session.handler.info, d.result, d.reply.value)])
  {
    hide NextFrame, ParseRequest, InBounds, Decide, NextState, ReplyText, RtpEngine.Valid, RtspHandler.Valid, Concat;
    cmd := UNKNOWN;
    ProcessInBoundsIff(client.buff[..], 0, chunks);
    frame := client.NextRequest(chunks);
    if frame.Framed? {
      ghost var m := client.buff[..];
      cmd := session.Process(client.buff, frame.end);
      client.idx := 0;
      ParseOnlyNuls(m, frame.end);
      assert m[|m| - 1] == NUL;
    }
  }

  // ---------------------------------------------------------------- replies

  /** Every request but KILL gets exactly one reply, in every state. */
  lemma OneReply(s: State, req: Request)
    requires s != Dead
    ensures Decide(s, req).reply == None <==> req.Request? && req.cmd == KILL
  {
    hide Choose;
  }
}
