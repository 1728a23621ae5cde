/** Requests that make the parser leave the buffer, and one that nearly does (src/rtsp.cpp, parse_transport). */
module ShortTransports {
  import opened CStrings
  import opened Sequences
  import opened LineParsing
  import opened TransportParsing
  import opened TransportGrammar
  import opened TransportRoundTrip
  import opened HeaderParsing
  import opened RequestParsing
  import opened RequestGrammar
  import opened RequestBounds

  /** A request line, one header line, further lines up to the empty one. */
  function Lined(first: string, line: string, rest: string): string {
    first + CRLF + (line + CRLF + rest)
  }

  /** The buffer starts with the text. */
  ghost predicate Holds(m: seq<char>, s: string) {
    |s| <= |m| && m[..|s|] == s
  }

  lemma LinedLength(first: string, line: string, rest: string)
    ensures |Lined(first, line, rest)| == |first| + 2 + |line| + 2 + |rest|
  {
  }

  lemma LinedText(first: string, line: string, rest: string)
    requires first != "" && '\r' !in first && '\r' !in line && NUL !in first && NUL !in line && Framed(rest) && NUL !in rest
    ensures var s, t := Lined(first, line, rest), line + CRLF + rest;
            && EndsBlank(s) && NUL !in s && SkipLeading(s) == s && |s| > 2 && NextLine(s) == Some(Line(first, t))
            && Framed(t) && |t| != 1 && NextLine(t) == Some(Line(line, rest))
  {
    hide NextLine;
    var s, t := Lined(first, line, rest), line + CRLF + rest;
    assert s[0] == first[0] && first[0] in first;
    assert |rest| >= 2;
    NextLineIs(s, first, t);
    NextLineIs(t, line, rest);
    BlankLast(line, rest);
    BlankLast(first, t);
  }

  /** A CRLF in front of a framed text makes a blank end. */
  lemma BlankLast(a: string, rest: string)
    requires Framed(rest)
    ensures EndsBlank(a + CRLF + rest)
  {
    var s := a + CRLF + rest;
    assert forall i :: 0 <= i < |rest| ==> s[|a| + 2 + i] == rest[i];
    if rest == CRLF {
      assert s[|a|] == '\r' && s[|a| + 1] == '\n' && s[|a| + 2] == '\r' && s[|a| + 3] == '\n';
    }
  }

  /** A request of a known method in the buffer m: its headers decide. */
  lemma HeadersDecide(m: seq<char>, r: RequestText, line: string, rest: string)
    requires ValidRequest(r) && CommandOf(r.name) != UNKNOWN && '\r' !in line && NUL !in line && Framed(rest) && NUL !in rest
    requires Holds(m, Lined(PrintLine(r), line, rest))
    ensures var n, sz := |PrintLine(r)| + 2, |Lined(PrintLine(r), line, rest)|;
            && n <= sz && FirstLineIs(m[n..], sz - n, line) && m[n..][..sz - n] == line + CRLF + rest && NUL !in m[n..][..sz - n]
            && (ParseRequest(m, sz).defined <==> HeadersInBounds(m[n..], sz - n))
  {
    hide ParseRequest, CommandOf, EndsBlank, Framed, NextLine, Words, HeadersInBounds, SkipLeading;
    var first := PrintLine(r);
    var n, sz := |first| + 2, |Lined(first, line, rest)|;
    LineWords(r);
    LinedText(first, line, rest);
    DefinedIff(m, sz);
    var s := Lined(first, line, rest);
    assert m[n..][..sz - n] == m[..sz][n..] == s[n..] == line + CRLF + rest;
    assert forall c :: c in m[n..][..sz - n] ==> c in m[..sz];
    assert |[r.name, r.uri, r.version]| == 3;
  }

  /** A request of a known method with a Transport line that is too short is read out of bounds, unless three specs
      stand in the buffer from its value on. */
  lemma ShortTransport(m: seq<char>, r: RequestText, line: string, rest: string)
    requires ValidRequest(r) && CommandOf(r.name) != UNKNOWN && '\r' !in line && NUL !in line && TooShort(line)
    requires Framed(rest) && NUL !in rest
    requires Holds(m, Lined(PrintLine(r), line, rest))
    ensures ParseRequest(m, |Lined(PrintLine(r), line, rest)|).defined ==>
              SpecsFrom(m, |PrintLine(r)| + 2 + ValueAt(line)) >= 3
  {
    hide ParseRequest, CommandOf, TooShort, Framed, NextLine, Lined, PrintLine, ValidRequest, HeadersInBounds, SpecsFrom, ValueAt,
      FirstLineIs, Behind, Scannable, ParseTransport;
    LinedLength(PrintLine(r), line, rest);
    HeadersDecide(m, r, line, rest);
    var n, sz := |PrintLine(r)| + 2, |Lined(PrintLine(r), line, rest)|;
    FirstLineShort(m[n..], sz - n, line);
    SuffixSpecs(m, n, ValueAt(line));
  }

  /** And with three specs there it is read within bounds, when one more line follows that is no Transport line: the
      scan goes on behind the value and ends at the third. */
  lemma SpecsBehind(m: seq<char>, r: RequestText, line: string, next: string)
    requires ValidRequest(r) && CommandOf(r.name) != UNKNOWN && '\r' !in line && NUL !in line && TooShort(line)
    requires NoTransportLine(next) && Holds(m, Lined(PrintLine(r), line, next + CRLF + CRLF)) && m[|m| - 1] == NUL
    requires SpecsFrom(m, |PrintLine(r)| + 2 + ValueAt(line)) >= 3
    ensures ParseRequest(m, |Lined(PrintLine(r), line, next + CRLF + CRLF)|).defined
  {
    hide ParseRequest, CommandOf, TooShort, NextLine, PrintLine, ValidRequest, HeadersInBounds, SpecsFrom, ValueAt,
      Scannable, ParseTransport, Cut, Framed, FirstLineIs, EndsBlank, Behind, NoTransportLine, Lined;
    var rest := next + CRLF + CRLF;
    RestIsText(next);
    HeadersDecide(m, r, line, rest);
    LinedLength(PrintLine(r), line, rest);
    var n, sz := |PrintLine(r)| + 2, |Lined(PrintLine(r), line, rest)|;
    var u := m[n..];
    LastIsNul(m, sz, n);
    FirstLineShort(u, sz - n, line);
    SuffixSpecs(m, n, ValueAt(line));
    var t := ParseTransport(Behind(u, line), 0, NONE);
    LastLine(u, line, next, t.m);
  }

  lemma LastIsNul(m: seq<char>, sz: nat, n: nat)
    requires n < sz <= |m| && m[|m| - 1] == NUL
    ensures m[n..][|m[n..]| - 1] == NUL
  {
  }

  /** A line that cannot become a Transport line, wherever it is cut. */
  predicate NoTransportLine(next: string) {
    next != "" && '\r' !in next && NUL !in next && !Cut(next[0]) && Lower(next[0]) != 't'
  }

  lemma RestIsText(next: string)
    requires NoTransportLine(next)
    ensures Framed(next + CRLF + CRLF) && NUL !in next + CRLF + CRLF
  {
    BlankLast(next, CRLF);
  }

  /** The last line, as the scan has left it. */
  lemma LastLine(u: seq<char>, line: string, next: string, n: seq<char>)
    requires |line| + 2 + |next| + 4 <= |u| && u[..|line| + 2 + |next| + 4] == line + CRLF + (next + CRLF + CRLF)
    requires NoTransportLine(next) && OnlyCuts(Behind(u, line), n, 0, |Behind(u, line)|)
    ensures |n| == |Behind(u, line)| && HeadersInBounds(n[|line| + 2 - ValueAt(line)..], |next| + 4)
  {
    hide NextLine, TooShort, ValueAt, HeadersInBounds, NoTransportLine, OnlyCuts, Behind;
    CutLine(u, line, next, n);
    var t := n[|line| + 2 - ValueAt(line)..];
    LastInBounds(t, t[..|next|]);
  }

  lemma LastInBounds(t: seq<char>, text: string)
    requires |text| + 4 <= |t| && t[..|text|] == text && t[|text|..|text| + 4] == CRLF + CRLF && '\r' !in text
    requires text != "" && text[0] != NUL && text[0] != ' ' && Lower(text[0]) != 't'
    ensures HeadersInBounds(t, |text| + 4)
  {
    hide NextLine, TooShort, HeadersInBounds, CStr, Stops, Lower;
    assert t[..|text| + 4] == text + CRLF + CRLF;
    NextLineIs(t[..|text| + 4], text, CRLF);
    FirstStays(text);
    UnfoldBounds(t, |text| + 4, Line(text, CRLF), CStr(text, 0));
    var rest := t[|text| + 2..];
    assert rest[0..2] == t[|text|..|text| + 4][2..] == CRLF;
    NothingToRead(rest, 0, 2, NO_HEADER);
    assert rest[0..] == rest;
  }

  lemma CutLine(u: seq<char>, line: string, next: string, n: seq<char>)
    requires |line| + 2 + |next| + 4 <= |u| && u[..|line| + 2 + |next| + 4] == line + CRLF + (next + CRLF + CRLF)
    requires NoTransportLine(next) && OnlyCuts(Behind(u, line), n, 0, |Behind(u, line)|)
    ensures |n| == |Behind(u, line)|
    ensures var t := n[|line| + 2 - ValueAt(line)..];
            && |t| == |u| - |line| - 2 && '\r' !in t[..|next|] && |next| > 0 && t[0] == next[0]
            && t[|next|..|next| + 4] == CRLF + CRLF
            && t[0] != NUL && t[0] != ' ' && Lower(t[0]) != 't'
  {
    hide ValueAt;
    var v, at, k := Behind(u, line), ValueAt(line), |line| + 2 - ValueAt(line);
    var t := n[k..];
    forall i | 0 <= i < |next| + 4
      ensures u[|line| + 2 + i] == (next + CRLF + CRLF)[i]
      ensures t[i] == u[|line| + 2 + i] || (t[i] == NUL && Cut(u[|line| + 2 + i]))
    {
      assert u[..|line| + 2 + |next| + 4][|line| + 2 + i] == (next + CRLF + CRLF)[i];
      assert t[i] == n[k + i] && v[k + i] == u[|line| + 2 + i];
    }
    forall i | 0 <= i < |next|
      ensures t[i] != '\r'
    {
      assert (next + CRLF + CRLF)[i] == next[i] && next[i] in next;
    }
    assert (next + CRLF + CRLF)[0] == next[0];
    forall i | 0 <= i < 4
      ensures t[|next| + i] == (CRLF + CRLF)[i]
    {
      assert (next + CRLF + CRLF)[|next| + i] == (CRLF + CRLF)[i];
    }
  }

  /** A line that does not start with a T is no Transport line, wherever it ends. */
  lemma FirstStays(text: string)
    requires text != "" && text[0] != NUL && text[0] != ' ' && Lower(text[0]) != 't'
    ensures !TooShort(CStr(text, 0)) && |CStr(text, 0)| <= |text|
  {
    var line := CStr(text, 0);
    assert line != "" && line[0] == text[0];
    assert Blanks(line) == 0 && line[0..] == line;
    var word := line[..WordLength(line)];
    assert Words(line)[0] == word;
    assert HasPrefixNoCase(word, "Transport:") ==> Lower(word[0]) == Lower("Transport:"[0]);
    assert Lower("Transport:"[0]) == 't';
  }

  lemma LineWords(r: RequestText)
    requires ValidRequest(r)
    ensures PrintLine(r) != "" && NUL !in PrintLine(r) && '\r' !in PrintLine(r)
    ensures Words(PrintLine(r)) == [r.name, r.uri, r.version]
  {
    hide Words;
    ThreeWords(r.name, r.uri, r.version);
    WordsHaveNoNul(r.name, r.uri, r.version);
  }

  lemma ThreeWords(a: string, b: string, c: string)
    requires a != "" && b != "" && c != "" && ' ' !in a && ' ' !in b && ' ' !in c
    ensures Words(a + [' '] + (b + [' '] + c)) == [a, b, c]
  {
    hide Words;
    var t := b + ([' '] + c);
    FirstWord(a, t);
    FirstWord(b, c);
    OnlyWord(c);
    Associate(b, [' '], c);
    Associate(a, [' '], t);
  }

  lemma WordsHaveNoNul(a: string, b: string, c: string)
    requires NUL !in a && NUL !in b && NUL !in c
    ensures NUL !in a + [' '] + (b + [' '] + c)
  {
  }

  /** Two whole requests, alone in a buffer: one with a value of three characters, one without a blank behind the
      colon. */
  lemma ShortTransportExamples() returns (a: string, b: string)
    ensures a == Lined("SETUP * RTSP/1.0", "Transport: RTP", CRLF) && !ParseRequest(a, |a|).defined
    ensures b == Lined("SETUP * RTSP/1.0", "Transport:RTP/AVP;unicast", CRLF) && !ParseRequest(b, |b|).defined
  {
    hide ParseRequest, ShortExample, Lined;
    ShortLines();
    a := ExampleRequest("Transport: RTP");
    b := ExampleRequest("Transport:RTP/AVP;unicast");
  }

  lemma ShortLines()
    ensures ShortExample("Transport: RTP") && ShortExample("Transport:RTP/AVP;unicast")
  {
    hide TooShort, After, ValueAt;
    ShortValue("RTP");
    NoBlank("RTP/AVP;unicast");
    assert "Transport: " + "RTP" == "Transport: RTP";
    assert "Transport:" + "RTP/AVP;unicast" == "Transport:RTP/AVP;unicast";
    ValueLength("Transport: RTP", 3);
    ValueLength("Transport:RTP/AVP;unicast", 0);
  }

  predicate ShortExample(line: string) {
    '\r' !in line && NUL !in line && TooShort(line) && |line| < ValueAt(line) + 4
  }

  lemma ValueLength(line: string, n: nat)
    requires |After(line)| == n
    ensures |line| == ValueAt(line) + n
  {
  }

  lemma ExampleRequest(line: string) returns (a: string)
    requires ShortExample(line)
    ensures a == Lined("SETUP * RTSP/1.0", line, CRLF) && !ParseRequest(a, |a|).defined
  {
    hide ParseRequest, Words, TooShort, Lined, PrintLine, ValidRequest, ValueAt, SpecsFrom;
    var r := ExampleLine();
    a := Lined(PrintLine(r), line, CRLF);
    assert a[..|a|] == a;
    LinedLength(PrintLine(r), line, CRLF);
    ShortTransport(a, r, line, CRLF);
    FewSpecs(a, |PrintLine(r)| + 2 + ValueAt(line));
  }

  /** Up to seven characters hold one spec at most. */
  lemma FewSpecs(a: string, q: nat)
    requires q <= |a| < q + 8
    ensures SpecsFrom(a, q) < 3
  {
    AtMost(a, q);
  }

  /** The last three characters start no spec, so there are fewer specs than characters before them; and none overlap. */
  lemma {:induction false} AtMost(m: seq<char>, i: nat)
    requires i <= |m|
    ensures SpecsFrom(m, i) <= if |m| - i < 4 then 0 else (|m| - i) / 4
    decreases |m| - i
  {
    if i < |m| {
      if RtpAt(m, i) {
        AtMost(m, i + 4);
        assert SpecsFrom(m, i) == 1 + SpecsFrom(m, i + 1);
        assert SpecsFrom(m, i + 1) == SpecsFrom(m, i + 2) == SpecsFrom(m, i + 3) == SpecsFrom(m, i + 4);
      } else {
        AtMost(m, i + 1);
      }
    }
  }

  /** Three places where a spec starts. */
  lemma ThreeSpecs(m: seq<char>, q: nat, i: nat, j: nat, k: nat)
    requires q <= i < j < k && RtpAt(m, i) && RtpAt(m, j) && RtpAt(m, k)
    ensures SpecsFrom(m, q) >= 3
  {
    hide RtpAt;
    assert k < |m| by { RtpInside(m, k); }
    MoreSpecs(m, q, i);
    MoreSpecs(m, i + 1, j);
    MoreSpecs(m, j + 1, k);
  }

  lemma RtpInside(m: seq<char>, k: nat)
    requires RtpAt(m, k)
    ensures k < |m|
  {
  }

  lemma {:induction false} MoreSpecs(m: seq<char>, q: nat, i: nat)
    requires q <= i < |m|
    ensures SpecsFrom(m, q) >= SpecsFrom(m, i)
    decreases i - q
  {
    if q < i {
      MoreSpecs(m, q + 1, i);
    }
  }

  /** So a short value does no harm in front of a line that holds three specs. */
  lemma SpecsInNextLine(m: seq<char>, r: RequestText, line: string, a: string, b: string, c: string, d: string)
    requires ValidRequest(r) && CommandOf(r.name) != UNKNOWN && '\r' !in line && NUL !in line && TooShort(line)
    requires var next := a + (RTP + (b + (RTP + (c + (RTP + d)))));
             NoTransportLine(next) && Holds(m, Lined(PrintLine(r), line, next + CRLF + CRLF)) && m[|m| - 1] == NUL
    ensures var next := a + (RTP + (b + (RTP + (c + (RTP + d)))));
            ParseRequest(m, |Lined(PrintLine(r), line, next + CRLF + CRLF)|).defined
  {
    hide ParseRequest, CommandOf, TooShort, ValidRequest, PrintLine, NoTransportLine, SpecsFrom, Lined, ValueAt, RtpAt;
    var next := a + (RTP + (b + (RTP + (c + (RTP + d)))));
    var p := |PrintLine(r)| + 2 + |line| + 2;
    NextLineHeld(m, PrintLine(r), line, next);
    var q := SpecPlace(m, p, a, b + (RTP + (c + (RTP + d))));
    var q2 := SpecPlace(m, q + 4, b, c + (RTP + d));
    var q3 := SpecPlace(m, q2 + 4, c, d);
    ThreeSpecs(m, |PrintLine(r)| + 2 + ValueAt(line), q, q2, q3);
    SpecsBehind(m, r, line, next);
  }

  const RTP: string := "RTP/"

  lemma NextLineHeld(m: seq<char>, first: string, line: string, next: string)
    requires Holds(m, Lined(first, line, next + CRLF + CRLF))
    ensures At(m, |first| + 2 + |line| + 2, next)
  {
    var s, p := Lined(first, line, next + CRLF + CRLF), |first| + 2 + |line| + 2;
    forall i | 0 <= i < |next|
      ensures m[p + i] == next[i]
    {
      assert m[..|s|][p + i] == s[p + i] == next[i];
    }
  }

  lemma SpecPlace(m: seq<char>, p: nat, a: string, b: string) returns (q: nat)
    requires At(m, p, a + (RTP + b))
    ensures q == p + |a| && RtpAt(m, q) && At(m, q + 4, b)
  {
    q := p + |a|;
    AtConcat(m, p, a, RTP + b);
    AtConcat(m, q, RTP, b);
    AtIndex(m, q, RTP, 0);
    AtIndex(m, q, RTP, 1);
    AtIndex(m, q, RTP, 2);
    AtIndex(m, q, RTP, 3);
  }

  /** A whole request with a value of one character that is read within bounds: the scan runs on into the next line,
      and ends at the third spec there. */
  lemma SpecsBehindExample(m: seq<char>) returns (next: string, text: string)
    ensures next == "A: " + (RTP + ("AVP;unicast;client_port=1-2, " + (RTP + ("X, " + (RTP + "Y")))))
    ensures text == Lined("SETUP * RTSP/1.0", "Transport: x", next + CRLF + CRLF)
    ensures m != [] && Holds(m, text) && m[|m| - 1] == NUL ==> ParseRequest(m, |text|).defined
  {
    hide ParseRequest, TooShort, Lined, PrintLine, ValidRequest, NoTransportLine;
    var r := ExampleLine();
    var a, b, c, d := "A: ", "AVP;unicast;client_port=1-2, ", "X, ", "Y";
    next := a + (RTP + (b + (RTP + (c + (RTP + d)))));
    text := Lined("SETUP * RTSP/1.0", "Transport: x", next + CRLF + CRLF);
    ShortX();
    ExampleNext(next);
    if m != [] && Holds(m, text) && m[|m| - 1] == NUL {
      SpecsInNextLine(m, r, "Transport: x", a, b, c, d);
    }
  }

  lemma ExampleNext(next: string)
    requires next == "A: " + (RTP + ("AVP;unicast;client_port=1-2, " + (RTP + ("X, " + (RTP + "Y")))))
    ensures NoTransportLine(next)
  {
    ExampleFree('\r');
    ExampleFree(NUL);
    assert next[0] == 'A';
  }

  lemma ExampleFree(c: char)
    requires c == '\r' || c == NUL
    ensures c !in "A: " + (RTP + ("AVP;unicast;client_port=1-2, " + (RTP + ("X, " + (RTP + "Y")))))
  {
    var d := RTP + "Y";
    var e := RTP + ("X, " + d);
    NotIn("X, ", d, c);
    NotIn(RTP, "X, " + d, c);
    NotIn("AVP;unicast;client_port=1-2, ", e, c);
    NotIn(RTP, "AVP;unicast;client_port=1-2, " + e, c);
    NotIn("A: ", RTP + ("AVP;unicast;client_port=1-2, " + e), c);
  }

  lemma ShortX()
    ensures TooShort("Transport: x") && '\r' !in "Transport: x" && NUL !in "Transport: x"
  {
    hide TooShort;
    ShortOne("x");
    NotIn("Transport: ", "x", '\r');
    NotIn("Transport: ", "x", NUL);
    assert "Transport: " + "x" == "Transport: x";
  }

  lemma ShortOne(value: string)
    requires |value| < 4
    ensures TooShort("Transport: " + value)
  {
    hide TooShort;
    ShortValue(value);
  }

  lemma ExampleLine() returns (r: RequestText)
    ensures ValidRequest(r) && CommandOf(r.name) == SETUP && PrintLine(r) == "SETUP * RTSP/1.0"
  {
    hide Word, CommandOf;
    r := RequestText("SETUP", "*", "RTSP/1.0", [], 0);
    ExampleWords();
    assert "SETUP" + [' '] + ("*" + [' '] + "RTSP/1.0") == "SETUP * RTSP/1.0";
  }

  lemma ExampleWords()
    ensures Word("SETUP") && Word("*") && Word("RTSP/1.0") && CommandOf("SETUP") == SETUP
  {
  }

  /** A scan that has found its three specs does not depend on where it would have ended. */
  lemma {:induction false} ScanLonger(m: seq<char>, i: nat, end: nat, later: nat, lines: seq<nat>)
    requires end <= later <= |m| && |lines| <= MAX_TRANSPORTS && Starts(m, lines)
    requires forall k :: 0 <= k < |lines| ==> lines[k] < i
    requires |ScanSpecs(m, i, end, lines).lines| == MAX_TRANSPORTS
    ensures ScanSpecs(m, i, later, lines) == ScanSpecs(m, i, end, lines)
    decreases end - i
  {
    hide RtpAt, TrimBack;
    if i < end && |lines| < MAX_TRANSPORTS {
      if RtpAt(m, i) {
        RtpIsR(m, i);
        var a := if lines == [] then m else assert lines[|lines| - 1] < i; TrimBack(m, i - 1, lines[|lines| - 1]);
        ScanLonger(a, i + 1, end, later, lines + [i]);
      } else {
        ScanLonger(m, i + 1, end, later, lines);
      }
    }
  }

  /** The specs that the scan of a short value finds behind it are taken for those of the Transport header: three
      printed specs anywhere behind, with no other before them, come back as if the header had held them. */
  lemma TakenFromBehind(m: seq<char>, save: nat, p: nat, specs: seq<Spec>, ts: seq<Transport>)
    requires save <= p <= |m| && |CStr(m, save)| < 4 && Quiet(m, save, p)
    requires |specs| == MAX_TRANSPORTS == |ts| && ValidSpecs(specs) && StringAt(m, p, PrintSpecs(specs))
    requires forall k :: 0 <= k < |ts| ==> RefsBefore(m, ts[k], p)
    ensures Scannable(m, save)
    ensures Meant(m, ParseTransport(m, save, ts), ts, 0, specs, p, p + |PrintSpecs(specs)|)
  {
    hide PrintSpecs, ScanSpecs, ParseSpecs, Meant, RefsBefore, NulFrom, StringAt, ValidSpecs, Quiet, CStr;
    TransportRoundTrip.TransportRoundTrip(m, p, specs, ts);
    var end := ScanEnd(m, p);
    var text := PrintSpecs(specs);
    ScanPrinted(m, p, [], specs, text) by { StringIsAt(m, p, text); }
    EndOfText(m, p, |text|);
    FoundAsPrinted(m, ScanSpecs(m, p, end, []), p, specs, |text|);
    ScanQuiet(m, save, p, |m|, []);
    ScanLonger(m, p, end, |m|, []);
    SpecsTerminated(m, p, text);
    ScanGood(m, p);
  }

  lemma EndOfText(m: seq<char>, p: nat, len: nat)
    requires p <= |m| && NulFrom(m, p) == p + len && len >= 4
    ensures ScanEnd(m, p) == p + len - 4
  {
    hide NulFrom;
  }

  lemma FoundAsPrinted(m: seq<char>, r: Specs, p: nat, specs: seq<Spec>, len: nat)
    requires Scanned(m, r, p, [], specs, len)
    ensures |r.lines| == |specs|
  {
    hide Laid, StartsOf;
    StartsLength(p, specs);
  }

  lemma SpecsTerminated(m: seq<char>, p: nat, text: string)
    requires StringAt(m, p, text) && NulFrom(m, p) == p + |text|
    ensures Terminated(m, p)
  {
  }

  /** Any request line with fewer than three words is read through a null pointer, unless it is empty or its first
      word is no method. */
  lemma ShortRequestLine(m: seq<char>, first: string, line: string, rest: string)
    requires first != "" && '\r' !in first && NUL !in first && '\r' !in line && NUL !in line && Framed(rest) && NUL !in rest
    requires |Words(first)| < 3
    requires Words(first) != [] ==> CommandOf(Words(first)[0]) != UNKNOWN || Unsupported(Words(first)[0])
    requires Holds(m, Lined(first, line, rest))
    ensures !ParseRequest(m, |Lined(first, line, rest)|).defined
  {
    hide ParseRequest, CommandOf, EndsBlank, Lined, Words, Unsupported, Framed, NextLine, SkipLeading;
    LinedText(first, line, rest);
    DefinedIff(m, |Lined(first, line, rest)|);
  }
}
