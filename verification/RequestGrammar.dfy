/** Whole requests: what a client prints, and that the parser reads back exactly that. */
module RequestGrammar {
  import opened CStrings
  import opened Sequences
  import opened LineParsing
  import opened TransportParsing
  import opened TransportGrammar
  import opened TransportRoundTrip
  import opened HeaderParsing
  import opened RequestParsing

  datatype HeaderText =
    | HCSeq(n: int)
    | HSession(n: int)
    | HAccept(types: seq<string>)
    | HTransport(specs: seq<Spec>)
    | HOther(name: string, value: string)

  function PrintTokens(ts: seq<string>): string
    requires ts != []
  {
    if |ts| == 1 then ts[0] else ts[0] + [' '] + PrintTokens(ts[1..])
  }

  function PrintHeader(l: HeaderText): string
    requires ValidHeader(l)
  {
    match l
    case HCSeq(n) => "CSeq:" + [' '] + Dec(n)
    case HSession(n) => "Session:" + [' '] + Dec(n)
    case HAccept(ts) => "Accept:" + [' '] + PrintTokens(ts)
    case HTransport(specs) => "Transport:" + [' '] + PrintSpecs(specs)
    case HOther(name, value) => name + [' '] + value
  }

  /** A word that strtok_r leaves in one piece. */
  predicate Word(s: string) {
    s != "" && ' ' !in s && NUL !in s
  }

  predicate ValidHeader(l: HeaderText) {
    match l
    case HCSeq(n) => Int32(n)
    case HSession(n) => Int32(n)
    case HAccept(ts) => ts != [] && forall i :: 0 <= i < |ts| ==> Word(ts[i])
    case HTransport(specs) => 1 <= |specs| <= MAX_TRANSPORTS && ValidSpecs(specs)
    case HOther(name, value) => Word(name) && NUL !in value && OtherName(name)
  }

  predicate OtherName(name: string) {
    && !HasPrefixNoCase(name, "CSeq:") && !HasPrefixNoCase(name, "Session:")
    && !HasPrefixNoCase(name, "Accept:") && !HasPrefixNoCase(name, "Transport:")
  }

  // ---------------------------------------------------------------- meaning

  /** The specs into their slots, up to the first with an option that is not understood. */
  function MeanSpecs(specs: seq<Spec>, ts: seq<Transport>): (r: seq<Transport>)
    ensures |r| == |ts|
  {
    seq(|ts|, k requires 0 <= k < |ts| => if k < Taken(specs) then Meaning(specs[k], ts[k]) else ts[k])
  }

  /** Some accepted type starts with application/sdp. */
  predicate TakesSdp(ts: seq<string>) {
    exists i :: 0 <= i < |ts| && HasPrefixNoCase(ts[i], "application/sdp")
  }

  function MeanHeader(h: Header, l: HeaderText): Header {
    match l
    case HCSeq(n) => h.(cseq := n)
    case HSession(n) => h.(sessionId := ToUint32(n))
    case HAccept(ts) => h.(acceptSdp := TakesSdp(ts))
    case HTransport(specs) => h.(transport := MeanSpecs(specs, h.transport))
    case HOther(_, _) => h
  }

  /** An option that is not understood ends the reading of headers. */
  predicate StopsReading(l: HeaderText) {
    l.HTransport? && !AllKnown(l.specs)
  }

  function MeanHeaders(h: Header, ls: seq<HeaderText>): Header
    decreases |ls|
  {
    if ls == [] then h
    else if StopsReading(ls[0]) then MeanHeader(h, ls[0])
    else MeanHeaders(MeanHeader(h, ls[0]), ls[1..])
  }

  predicate NoneStops(ls: seq<HeaderText>) {
    forall k :: 0 <= k < |ls| ==> !StopsReading(ls[k])
  }

  lemma NoHeadersStop()
    ensures NoneStops([])
  {
  }

  lemma NoneStopsStep(ls: seq<HeaderText>)
    requires ls != []
    ensures NoneStops(ls) <==> !StopsReading(ls[0]) && NoneStops(ls[1..])
  {
    hide StopsReading;
    assert forall k :: 0 < k < |ls| ==> ls[k] == ls[1..][k - 1];
  }

  // ---------------------------------------------------------------- one header line

  /** The header points only into the buffer before p. */
  ghost predicate HeaderBefore(m: seq<char>, h: Header, p: nat) {
    |h.transport| == MAX_TRANSPORTS && forall k :: 0 <= k < |h.transport| ==> RefsBefore(m, h.transport[k], p)
  }

  lemma HeaderKept(m: seq<char>, n: seq<char>, h: Header, p: nat)
    requires HeaderBefore(m, h, p) && p <= |n| == |m| && forall k :: 0 <= k < p ==> n[k] == m[k]
    ensures ResolveHeader(n, h) == ResolveHeader(m, h) && HeaderBefore(n, h, p)
  {
    hide Resolve, RefsBefore;
    forall k | 0 <= k < |h.transport|
      ensures Resolve(n, h.transport[k]) == Resolve(m, h.transport[k]) && RefsBefore(n, h.transport[k], p)
    {
      ScanKeeps(m, n, p, h.transport[k]);
    }
    assert ResolveHeader(n, h).transport == ResolveHeader(m, h).transport;
  }

  lemma HeaderLater(m: seq<char>, h: Header, p: nat, q: nat)
    requires HeaderBefore(m, h, p) && p <= q <= |m|
    ensures HeaderBefore(m, h, q)
  {
  }

  /** What a header line has done: the header it means, nothing changed outside the line. */
  ghost predicate LineDone(m: seq<char>, r: LineResult, h: Header, want: Header, p: nat, end: nat, go: bool) {
    && r.go == go && r.ok == go && r.defined && OnlyCuts(m, r.m, p, end)
    && ResolveHeader(r.m, r.h) == want && HeaderBefore(r.m, r.h, end + 1)
  }

  lemma NumberPrinted(m: seq<char>, p: nat, n: int, h: Header, isCSeq: bool)
    requires Int32(n) && StringAt(m, p, Dec(n)) && HeaderBefore(m, h, p)
    ensures var want := if isCSeq then ResolveHeader(m, h).(cseq := n) else ResolveHeader(m, h).(sessionId := ToUint32(n));
            LineDone(m, NumberValue(m, p, h, isCSeq), h, want, p, p + |Dec(n)|, true)
  {
    hide RefsBefore, Resolve;
    DecWord(n);
    LastToken(m, p, Dec(n), ' ');
    assert Dec(n) + "" == Dec(n);
    FirstNumber(Dec(n), n, "");
    HeaderLater(m, h, p, p + |Dec(n)| + 1);
  }

  lemma DecWord(n: int)
    ensures FreeOf(Dec(n), ' ') && Word(Dec(n))
  {
    hide Dec;
    PlainDec(n);
    PlainFree(Dec(n));
  }

  lemma TakesSdpStep(ts: seq<string>)
    requires ts != []
    ensures TakesSdp(ts) <==> HasPrefixNoCase(ts[0], "application/sdp") || TakesSdp(ts[1..])
  {
    hide HasPrefixNoCase;
    forall i | 1 <= i < |ts|
      ensures ts[i] == ts[1..][i - 1]
    {
    }
  }

  lemma UnfoldAccept(m: seq<char>, p: nat, n: seq<char>, save: nat, text: string)
    requires p <= |m| && StrTok(m, p, ' ') == Tok(n, Some(p), save) && p <= |n| && CStr(n, p) == text
    ensures save <= |n| && AcceptTokens(m, p)
         == if HasPrefixNoCase(text, "application/sdp") then Accepted(n, true) else AcceptTokens(n, save)
  {
    hide HasPrefixNoCase;
    StrTokCuts(m, p, ' ');
  }

  lemma NoMoreTypes(m: seq<char>, p: nat)
    requires p < |m| && m[p] == NUL
    ensures AcceptTokens(m, p) == Accepted(m, false)
  {
    hide HasPrefixNoCase;
    NoToken(m, p, ' ');
  }

  lemma {:induction false} AcceptPrinted(m: seq<char>, p: nat, ts: seq<string>)
    requires ts != [] && (forall i :: 0 <= i < |ts| ==> Word(ts[i])) && StringAt(m, p, PrintTokens(ts))
    ensures AcceptTokens(m, p).sdp <==> TakesSdp(ts)
    decreases |ts|
  {
    hide HasPrefixNoCase, TakesSdp, AcceptTokens, StrTok, CStr, NulFrom;
    var t := ts[0];
    assert Word(t);
    TakesSdpStep(ts);
    if |ts| == 1 {
      LastToken(m, p, t, ' ');
      UnfoldAccept(m, p, m, p + |t|, t);
      NoMoreTypes(m, p + |t|);
      assert !TakesSdp(ts[1..]) by { NoTypes(ts[1..]); }
    } else {
      var n := CutToken(m, p, t, ' ', PrintTokens(ts[1..]));
      UnfoldAccept(m, p, n, p + |t| + 1, t);
      AcceptPrinted(n, p + |t| + 1, ts[1..]);
    }
  }

  lemma NoTypes(ts: seq<string>)
    requires ts == []
    ensures !TakesSdp(ts)
  {
  }

  // ---------------------------------------------------------------- the line as a whole

  lemma UnfoldLine(m: seq<char>, p: nat, h: Header, n: seq<char>, save: nat, name: string)
    requires p <= |m| && |h.transport| == MAX_TRANSPORTS
    requires StrTok(m, p, ' ') == Tok(n, Some(p), save) && p <= |n| && CStr(n, p) == name && save <= |n|
    ensures HeaderLine(m, p, h) == HeaderValue(n, name, save, h)
  {
    hide HeaderValue;
  }

  /** The name is cut off; the value stands behind it. */
  lemma NameCut(m: seq<char>, p: nat, name: string, value: string, h: Header) returns (n: seq<char>, save: nat)
    requires Word(name) && StringAt(m, p, name + [' '] + value) && HeaderBefore(m, h, p)
    ensures save == p + |name| + 1 && StringAt(n, save, value) && HeaderLine(m, p, h) == HeaderValue(n, name, save, h)
    ensures |n| == |m| && OnlyCuts(m, n, p, save)
    ensures ResolveHeader(n, h) == ResolveHeader(m, h) && HeaderBefore(n, h, save)
  {
    hide StrTok, CStr, NulFrom, HeaderValue, HeaderLine, RefsBefore, ResolveHeader;
    n := CutToken(m, p, name, ' ', value);
    save := p + |name| + 1;
    UnfoldLine(m, p, h, n, save, name);
    HeaderKept(m, n, h, p);
    HeaderLater(n, h, p, save);
  }

  lemma ValueNamed(m: seq<char>, name: string, save: nat, h: Header)
    requires save <= |m| && |h.transport| == MAX_TRANSPORTS
    ensures name == "CSeq:" ==> HeaderValue(m, name, save, h) == NumberValue(m, save, h, true)
    ensures name == "Session:" ==> HeaderValue(m, name, save, h) == NumberValue(m, save, h, false)
    ensures name == "Accept:" ==>
              HeaderValue(m, name, save, h)
              == LineResult(AcceptTokens(m, save).m, h.(acceptSdp := AcceptTokens(m, save).sdp), true, true, true)
    ensures name == "Transport:" && |CStr(m, save)| >= 4 ==>
              HeaderValue(m, name, save, h)
              == var t := ParseTransport(m, save, h.transport);
                 LineResult(t.m, h.(transport := t.ts), t.ok, t.ok, true)
    ensures OtherName(name) ==> HeaderValue(m, name, save, h) == LineResult(m, h, true, true, true)
  {
    hide NumberValue, AcceptTokens, ParseTransport, CStr;
    if name == "Session:" || name == "Accept:" || name == "Transport:" {
      OtherLetter(name, "CSeq:");
    }
    if name == "Accept:" || name == "Transport:" {
      OtherLetter(name, "Session:");
    }
    if name == "Transport:" {
      OtherLetter(name, "Accept:");
    }
  }

  lemma OtherLetter(s: string, kw: string)
    requires s != "" && kw != "" && Lower(s[0]) != Lower(kw[0])
    ensures !HasPrefixNoCase(s, kw)
  {
  }

  lemma NumberHeader(m: seq<char>, p: nat, name: string, n: int, h: Header, isCSeq: bool)
    requires name == (if isCSeq then "CSeq:" else "Session:") && Int32(n)
    requires StringAt(m, p, name + [' '] + Dec(n)) && HeaderBefore(m, h, p)
    ensures var want := if isCSeq then ResolveHeader(m, h).(cseq := n) else ResolveHeader(m, h).(sessionId := ToUint32(n));
            LineDone(m, HeaderLine(m, p, h), h, want, p, p + |name| + 1 + |Dec(n)|, true)
  {
    hide Dec, HeaderLine, HeaderValue, NumberValue, ResolveHeader, RefsBefore, NulFrom, OnlyCuts, OtherName;
    var k, save := NameCut(m, p, name, Dec(n), h);
    ValueNamed(k, name, save, h);
    NumberPrinted(k, save, n, h, isCSeq);
    CutsChain(m, k, NumberValue(k, save, h, isCSeq).m, p, save, save + |Dec(n)|);
  }

  lemma CutsChain(m: seq<char>, n: seq<char>, r: seq<char>, p: nat, q: nat, e: nat)
    requires OnlyCuts(m, n, p, q) && OnlyCuts(n, r, q, e) && p <= q <= e
    ensures OnlyCuts(m, r, p, e)
  {
  }

  lemma AcceptHeader(m: seq<char>, p: nat, ts: seq<string>, h: Header)
    requires ts != [] && (forall i :: 0 <= i < |ts| ==> Word(ts[i]))
    requires StringAt(m, p, "Accept:" + [' '] + PrintTokens(ts)) && HeaderBefore(m, h, p)
    ensures LineDone(m, HeaderLine(m, p, h), h, ResolveHeader(m, h).(acceptSdp := TakesSdp(ts)),
                     p, p + 8 + |PrintTokens(ts)|, true)
  {
    hide HeaderLine, HeaderValue, AcceptTokens, TakesSdp, PrintTokens, HasPrefixNoCase, NulFrom, RefsBefore, Resolve;
    var text := PrintTokens(ts);
    var k, save := NameCut(m, p, "Accept:", text, h);
    ValueNamed(k, "Accept:", save, h);
    AcceptPrinted(k, save, ts);
    NoNulTokens(ts);
    StringAtEnd(k, save, text);
    var r := AcceptTokens(k, save).m;
    CutsChain(m, k, r, p, save, save + |text|);
    HeaderKept(k, r, h, save);
    HeaderLater(r, h, save, save + |text| + 1);
  }

  lemma {:induction false} NoNulTokens(ts: seq<string>)
    requires ts != [] && forall i :: 0 <= i < |ts| ==> Word(ts[i])
    ensures NUL !in PrintTokens(ts)
    decreases |ts|
  {
    assert Word(ts[0]);
    if |ts| > 1 {
      NoNulTokens(ts[1..]);
    }
  }

  lemma TransportHeader(m: seq<char>, p: nat, specs: seq<Spec>, h: Header)
    requires 1 <= |specs| <= MAX_TRANSPORTS && ValidSpecs(specs)
    requires StringAt(m, p, "Transport:" + [' '] + PrintSpecs(specs)) && HeaderBefore(m, h, p)
    ensures var r := ResolveHeader(m, h);
            LineDone(m, HeaderLine(m, p, h), h, r.(transport := MeanSpecs(specs, r.transport)),
                     p, p + 11 + |PrintSpecs(specs)|, AllKnown(specs))
  {
    hide HeaderLine, HeaderValue, ParseTransport, PrintSpecs, NulFrom, CStr, RefsBefore, Resolve, Meaning, Meant, ValidSpecs;
    var text := PrintSpecs(specs);
    var k, save := NameCut(m, p, "Transport:", text, h);
    TransportRoundTrip.TransportRoundTrip(k, save, specs, h.transport);
    ValueNamed(k, "Transport:", save, h);
    var t := ParseTransport(k, save, h.transport);
    MeantHeader(k, t, h, specs, save, save + |text|);
    CutsChain(m, k, t.m, p, save, save + |text|);
  }

  lemma MeantHeader(k: seq<char>, t: SpecsResult, h: Header, specs: seq<Spec>, p: nat, end: nat)
    requires Meant(k, t, h.transport, 0, specs, p, end) && |h.transport| == MAX_TRANSPORTS
    ensures t.ok == AllKnown(specs) && OnlyCuts(k, t.m, p, end) && HeaderBefore(t.m, h.(transport := t.ts), end + 1)
    ensures var r := ResolveHeader(k, h);
            ResolveHeader(t.m, h.(transport := t.ts)) == r.(transport := MeanSpecs(specs, r.transport))
  {
    hide Meaning, Resolve, RefsBefore, Taken, AllKnown;
    var r := ResolveHeader(k, h);
    var got := ResolveHeader(t.m, h.(transport := t.ts)).transport;
    forall i | 0 <= i < |h.transport|
      ensures got[i] == MeanSpecs(specs, r.transport)[i]
    {
      if i < Taken(specs) {
        assert Resolve(t.m, t.ts[0 + i]) == Meaning(specs[i], h.transport[0 + i]);
        MeaningIgnoresRefs(specs[i], k, h.transport[i]);
      }
    }
    assert got == MeanSpecs(specs, r.transport);
  }

  /** A spec replaces both strings of its slot. */
  lemma MeaningIgnoresRefs(s: Spec, m: seq<char>, t: Transport)
    ensures Meaning(s, Resolve(m, t)) == Meaning(s, t)
  {
    assert Base(s, Resolve(m, t)) == Base(s, t);
  }

  lemma OtherHeader(m: seq<char>, p: nat, name: string, value: string, h: Header)
    requires Word(name) && OtherName(name) && StringAt(m, p, name + [' '] + value) && HeaderBefore(m, h, p)
    ensures LineDone(m, HeaderLine(m, p, h), h, ResolveHeader(m, h), p, p + |name| + 1 + |value|, true)
  {
    hide HeaderLine, HeaderValue, ResolveHeader, OtherName, NulFrom;
    var k, save := NameCut(m, p, name, value, h);
    ValueNamed(k, name, save, h);
    HeaderLater(k, h, save, save + |value| + 1);
  }

  /** One printed header, read where it stands, does what it means. */
  lemma HeaderPrinted(m: seq<char>, p: nat, l: HeaderText, h: Header)
    requires ValidHeader(l) && StringAt(m, p, PrintHeader(l)) && HeaderBefore(m, h, p)
    ensures LineDone(m, HeaderLine(m, p, h), h, MeanHeader(ResolveHeader(m, h), l), p, p + |PrintHeader(l)|, !StopsReading(l))
  {
    hide LineDone, HeaderLine, ResolveHeader, MeanSpecs, AllKnown, StringAt, HeaderBefore, OtherName, TakesSdp, ValidSpecs, Dec;
    match l
    case HCSeq(n) => NumberHeader(m, p, "CSeq:", n, h, true);
    case HSession(n) => NumberHeader(m, p, "Session:", n, h, false);
    case HAccept(ts) => AcceptHeader(m, p, ts, h);
    case HTransport(specs) => TransportHeader(m, p, specs, h);
    case HOther(name, value) => OtherHeader(m, p, name, value, h);
  }

  // ---------------------------------------------------------------- all header lines

  function PrintHeaders(ls: seq<HeaderText>): string
    requires ValidHeaders(ls)
    decreases |ls|
  {
    if ls == [] then "" else PrintHeader(ls[0]) + CRLF + PrintHeaders(ls[1..])
  }

  predicate ValidHeaders(ls: seq<HeaderText>) {
    forall i :: 0 <= i < |ls| ==> ValidHeader(ls[i]) && '\r' !in PrintHeader(ls[i])
  }

  lemma NextLineIs(s: string, first: string, rest: string)
    requires s == first + CRLF + rest && '\r' !in first && |rest| >= 2
    ensures NextLine(s) == Some(Line(first, rest))
  {
    var e := LineEnd(s, 0);
    assert CrlfAt(s, |first|);
    assert forall k :: 0 <= k < |first| ==> s[k] == first[k] != '\r';
    assert e == |first|;
    assert s[..e] == first && s[e + 2..] == rest;
  }

  /** getline on a line that was printed at pos. */
  lemma GetPrinted(m: seq<char>, pos: nat, first: string, rest: string, h: Header) returns (n: seq<char>)
    requires At(m, pos, first + CRLF + rest) && '\r' !in first && |rest| >= 2 && HeaderBefore(m, h, pos)
    ensures var size := |first| + 2 + |rest|;
            pos + size <= |m| && size != 1
            && GetLineAt(m, pos, size) == Got(n, Some(pos), pos + |first| + 2, |rest|)
    ensures |n| == |m| && StringAt(n, pos, first) && At(n, pos + |first| + 2, rest)
    ensures forall k :: 0 <= k < pos ==> n[k] == m[k]
    ensures ResolveHeader(n, h) == ResolveHeader(m, h) && HeaderBefore(n, h, pos)
  {
    hide ResolveHeader, RefsBefore, NextLine;
    var s := first + CRLF + rest;
    assert m[pos..pos + |s|] == s;
    NextLineIs(s, first, rest);
    AtConcat(m, pos, first + CRLF, rest);
    AtConcat(m, pos, first, CRLF);
    var e := pos + |first|;
    n := m[e := NUL];
    AtSame(m, n, e + 2, rest);
    AtBefore(m, n, pos, first);
    HeaderKept(m, n, h, pos);
  }

  lemma AtBefore(m: seq<char>, n: seq<char>, p: nat, s: string)
    requires At(m, p, s) && |n| == |m| && forall k :: p <= k < p + |s| ==> n[k] == m[k]
    ensures At(n, p, s)
  {
  }

  lemma UnfoldRead(m: seq<char>, pos: nat, size: nat, h: Header, g: Got)
    requires pos + size <= |m| && size != 1 && |h.transport| == MAX_TRANSPORTS && g == GetLineAt(m, pos, size)
    requires g.line == Some(pos) && HeaderLine(g.m, pos, h).defined
    ensures ReadHeaders(m, pos, size, h)
         == var l := HeaderLine(g.m, pos, h); if l.go then ReadHeaders(l.m, g.pos, g.size, l.h) else Read(l.m, l.h, l.ok, true)
  {
    hide HeaderLine, GetLineAt;
  }

  lemma ReadNothing(m: seq<char>, pos: nat, h: Header)
    requires At(m, pos, CRLF) && |h.transport| == MAX_TRANSPORTS
    ensures ReadHeaders(m, pos, 2, h) == Read(m, h, true, true)
  {
    assert m[pos..pos + 2] == CRLF;
  }

  /** The headers are read in order, up to the first that stops the reading, and each does what it means. */
  lemma {:induction false} ReadPrinted(m: seq<char>, pos: nat, ls: seq<HeaderText>, h: Header)
    requires ValidHeaders(ls) && At(m, pos, PrintHeaders(ls) + CRLF) && HeaderBefore(m, h, pos)
    ensures var size := |PrintHeaders(ls)| + 2;
            var r := ReadHeaders(m, pos, size, h);
            && r.ok == NoneStops(ls) && r.defined && ResolveHeader(r.m, r.h) == MeanHeaders(ResolveHeader(m, h), ls)
            && forall k :: 0 <= k < pos ==> r.m[k] == m[k]
    decreases |ls|
  {
    hide PrintHeader, ReadHeaders, HeaderLine, GetLineAt, ResolveHeader, MeanHeader, RefsBefore, StopsReading, NoneStops;
    if ls == [] {
      assert NoneStops(ls) by { NoHeadersStop(); }
      assert PrintHeaders(ls) + CRLF == CRLF;
      ReadNothing(m, pos, h);
    } else {
      var first, rest := PrintHeader(ls[0]), PrintHeaders(ls[1..]) + CRLF;
      Associate(first + CRLF, PrintHeaders(ls[1..]), CRLF);
      var n := GetPrinted(m, pos, first, rest, h);
      HeaderPrinted(n, pos, ls[0], h);
      var l := HeaderLine(n, pos, h);
      var q := pos + |first| + 2;
      UnfoldRead(m, pos, |first| + 2 + |rest|, h, Got(n, Some(pos), q, |rest|));
      AtKept(n, l.m, pos, pos + |first|, q, rest);
      HeaderLater(l.m, l.h, pos + |first| + 1, q);
      NoneStopsStep(ls);
      if !StopsReading(ls[0]) {
        ReadPrinted(l.m, q, ls[1..], l.h);
      }
    }
  }

  // ---------------------------------------------------------------- the request

  /** method uri version, the headers, and any number of empty lines in front (section 5 of RFC 7826). */
  datatype RequestText = RequestText(name: string, uri: string, version: string, headers: seq<HeaderText>, blank: nat)

  function PrintLine(r: RequestText): string {
    r.name + [' '] + (r.uri + [' '] + r.version)
  }

  predicate ValidRequest(r: RequestText) {
    && Word(r.name) && Word(r.uri) && Word(r.version) && ValidHeaders(r.headers)
    && '\r' !in PrintLine(r)
  }

  function PrintBody(r: RequestText): string
    requires ValidRequest(r)
  {
    PrintLine(r) + CRLF + (PrintHeaders(r.headers) + CRLF)
  }

  function PrintRequest(r: RequestText): string
    requires ValidRequest(r)
  {
    Repeat(CRLF, r.blank) + PrintBody(r)
  }

  /** A method that is neither known nor on the list of unsupported ones is refused before anything else. */
  function MeanRequest(r: RequestText): Request {
    var cmd := CommandOf(r.name);
    if cmd == UNKNOWN then Garbled
    else Request(cmd, r.version == "RTSP/1.0", r.uri, MeanHeaders(NO_HEADER.(acceptSdp := true), r.headers))
  }

  lemma {:induction false} SkipPrinted(n: nat, s: string)
    requires |s| > 2 && !CrlfAt(s, 0)
    ensures SkipLeading(Repeat(CRLF, n) + s) == s
  {
    var t := Repeat(CRLF, n) + s;
    if n == 0 {
      assert t == s;
    } else {
      var rest := Repeat(CRLF, n - 1) + s;
      Associate(CRLF, Repeat(CRLF, n - 1), s);
      assert t == CRLF + rest;
      SkipStep(t);
      assert t[2..] == rest;
      SkipPrinted(n - 1, s);
    }
  }

  /** The three tokens of the request line. */
  lemma LineTokens(m: seq<char>, p: nat, r: RequestText) returns (n1: seq<char>, n2: seq<char>)
    requires Word(r.name) && Word(r.uri) && Word(r.version) && StringAt(m, p, PrintLine(r))
    ensures var q := p + |r.name| + 1;
            var v := q + |r.uri| + 1;
            && StrTok(m, p, ' ') == Tok(n1, Some(p), q) && p <= |n1| && CStr(n1, p) == r.name
            && q <= |n1| && StrTok(n1, q, ' ') == Tok(n2, Some(q), v)
            && v <= |n2| && StrTok(n2, v, ' ') == Tok(n2, Some(v), v + |r.version|)
            && CStr(n2, v) == r.version && CStr(n2, q) == r.uri
    ensures OnlyCuts(m, n2, p, p + |PrintLine(r)|)
  {
    hide StrTok, CStr, NulFrom;
    var q := p + |r.name| + 1;
    var v := q + |r.uri| + 1;
    n1 := CutToken(m, p, r.name, ' ', r.uri + [' '] + r.version);
    n2 := CutToken(n1, q, r.uri, ' ', r.version);
    LastToken(n2, v, r.version, ' ');
  }

  lemma UnfoldParseLine(m: seq<char>, p: nat, pos: nat, size: nat, n1: seq<char>, q: nat, name: string)
    requires p <= |m| && pos + size <= |m| && StrTok(m, p, ' ') == Tok(n1, Some(p), q)
    requires p <= |n1| && CStr(n1, p) == name && q <= |n1| == |m|
    ensures ParseLine(m, p, pos, size)
         == var cmd := CommandOf(name);
            if cmd == UNKNOWN && !Unsupported(name) then Parse(n1, Garbled, true) else ParseRest(n1, cmd, q, pos, size)
  {
    hide CommandOf, Unsupported, ParseRest;
  }

  lemma UnfoldParseRest(n1: seq<char>, cmd: Command, q: nat, pos: nat, size: nat, n2: seq<char>, v: nat, w: nat,
                        uri: string, version: string)
    requires q <= |n1| && pos + size <= |n1| == |n2| && v <= |n2|
    requires StrTok(n1, q, ' ') == Tok(n2, Some(q), v) && StrTok(n2, v, ' ') == Tok(n2, Some(v), w)
    requires CStr(n2, q) == uri && CStr(n2, v) == version
    ensures ParseRest(n1, cmd, q, pos, size)
         == if cmd == UNKNOWN then Parse(n2, Garbled, true)
            else var h := ReadHeaders(n2, pos, size, NO_HEADER.(acceptSdp := true));
                 Parse(h.m, Request(cmd, version == "RTSP/1.0", uri, ResolveHeader(h.m, h.h)), h.defined)
  {
    hide ReadHeaders, ResolveHeader;
  }

  /** A request line and headers, standing in the buffer, are read as what they mean. */
  lemma LinePrinted(m: seq<char>, p: nat, r: RequestText)
    requires ValidRequest(r) && StringAt(m, p, PrintLine(r))
    requires At(m, p + |PrintLine(r)| + 2, PrintHeaders(r.headers) + CRLF)
    ensures var got := ParseLine(m, p, p + |PrintLine(r)| + 2, |PrintHeaders(r.headers)| + 2);
            got.req == MeanRequest(r) && got.defined
  {
    hide CommandOf, Unsupported, ParseRest, ParseLine, ReadHeaders, StrTok, CStr, NulFrom, PrintHeaders, PrintLine,
      MeanHeaders, ResolveHeader, RefsBefore;
    var pos, size := p + |PrintLine(r)| + 2, |PrintHeaders(r.headers)| + 2;
    var text := PrintHeaders(r.headers) + CRLF;
    var n1, n2 := LineTokens(m, p, r);
    var q := p + |r.name| + 1;
    var v := q + |r.uri| + 1;
    StrTokLength(m, p, n1);
    UnfoldParseLine(m, p, pos, size, n1, q, r.name);
    UnfoldParseRest(n1, CommandOf(r.name), q, pos, size, n2, v, v + |r.version|, r.uri, r.version);
    AtKept(m, n2, p, p + |PrintLine(r)|, pos, text);
    var h := NO_HEADER.(acceptSdp := true);
    FreshHeader(n2, h, pos);
    ReadPrinted(n2, pos, r.headers, h);
  }

  lemma StrTokLength(m: seq<char>, p: nat, n: seq<char>)
    requires p <= |m| && StrTok(m, p, ' ').m == n
    ensures |n| == |m|
  {
  }

  lemma FreshHeader(m: seq<char>, h: Header, p: nat)
    requires h == NO_HEADER.(acceptSdp := true) && p <= |m|
    ensures HeaderBefore(m, h, p) && ResolveHeader(m, h) == h
  {
    assert ResolveHeader(m, h).transport == h.transport;
  }

  /** The constructor of LineParser stops at the request line. */
  lemma BodyReached(m: seq<char>, r: RequestText) returns (g: Got)
    requires ValidRequest(r) && At(m, 0, PrintRequest(r))
    ensures g == SkipAt(m, 0, |PrintRequest(r)|) && g.size == |PrintBody(r)| && g.pos + g.size <= |m|
    ensures At(g.m, g.pos, PrintBody(r))
  {
    hide PrintBody, ValidRequest, SkipLeading;
    var text, body := PrintRequest(r), PrintBody(r);
    BodyStart(r);
    SkipPrinted(r.blank, body);
    g := SkipAt(m, 0, |text|);
    SkipAtText(m, 0, |text|);
    assert m[0..|text|] == text;
    assert g.m[g.pos..g.pos + g.size] == body;
    SliceAt(g.m, g.pos, body);
  }

  lemma SliceAt(m: seq<char>, p: nat, s: string)
    requires p + |s| <= |m| && m[p..p + |s|] == s
    ensures At(m, p, s)
  {
    forall i | 0 <= i < |s|
      ensures m[p + i] == s[i]
    {
      assert m[p..p + |s|][i] == m[p + i];
    }
  }

  lemma BodyStart(r: RequestText)
    requires ValidRequest(r)
    ensures |PrintBody(r)| > 2 && !CrlfAt(PrintBody(r), 0)
  {
    hide PrintHeaders, ValidHeaders;
    assert PrintBody(r)[0] == PrintLine(r)[0];
    assert PrintLine(r)[0] in PrintLine(r);
  }

  lemma UnfoldParseRequest(m: seq<char>, sz: nat, g0: Got, n: seq<char>, pos: nat, size: nat)
    requires 0 < sz <= |m| && g0 == SkipAt(m, 0, sz) && g0.size != 1
    requires GetLineAt(g0.m, g0.pos, g0.size) == Got(n, Some(g0.pos), pos, size)
    ensures g0.pos <= |n| && pos + size <= |n| && ParseRequest(m, sz) == ParseLine(n, g0.pos, pos, size)
  {
    hide ParseLine, SkipAt, NextLine;
  }

  /** For every request, printed at the start of any buffer, the parser returns exactly what the request means. */
  lemma RequestRoundTrip(m: seq<char>, r: RequestText)
    requires ValidRequest(r) && At(m, 0, PrintRequest(r))
    ensures var p := ParseRequest(m, |PrintRequest(r)|); p.defined && p.req == MeanRequest(r)
  {
    hide ParseRequest, ParseLine, PrintRequest, PrintLine, PrintHeaders, MeanRequest, ValidHeaders, GetLineAt, SkipAt;
    var g := BodyReached(m, r);
    var first, rest := PrintLine(r), PrintHeaders(r.headers) + CRLF;
    FreshHeader(g.m, NO_HEADER.(acceptSdp := true), g.pos);
    var n := GetPrinted(g.m, g.pos, first, rest, NO_HEADER.(acceptSdp := true));
    UnfoldParseRequest(m, |PrintRequest(r)|, g, n, g.pos + |first| + 2, |rest|);
    LinePrinted(n, g.pos, r);
  }
}
