/** read_headers (src/rtsp.cpp): CSeq, Session, Accept and Transport, line by line, in place. */
module HeaderParsing {
  import opened CStrings
  import opened LineParsing
  import opened TransportParsing

  datatype Header = Header(cseq: int, sessionId: nat, acceptSdp: bool, transport: seq<Transport>)

  const NO_HEADER: Header := Header(0, 0, false, [ZERO, ZERO, ZERO])

  /** The result of a loop over the lines. defined says that no step of it read outside the buffer or
      through a null pointer; when it is false the source has no result to compare with. */
  datatype Read = Read(m: seq<char>, h: Header, ok: bool, defined: bool)

  datatype LineResult = LineResult(m: seq<char>, h: Header, go: bool, ok: bool, defined: bool)

  /** uint32_t(n) */
  function ToUint32(n: int): nat {
    n % 0x1_0000_0000
  }

  datatype Accepted = Accepted(m: seq<char>, sdp: bool)

  /** The tokens after "Accept:", up to the first that starts with application/sdp. */
  function AcceptTokens(m: seq<char>, save: nat): (r: Accepted)
    requires save <= |m|
    ensures OnlyCuts(m, r.m, save, NulFrom(m, save))
    decreases |m| - save
  {
    StrTokCuts(m, save, ' ');
    var k := StrTok(m, save, ' ');
    if k.tok.None? then Accepted(k.m, false)
    else if HasPrefixNoCase(CStr(k.m, k.tok.value), "application/sdp") then Accepted(k.m, true)
    else AcceptTokens(k.m, k.save)
  }

  /** One header line, the string at line. */
  function HeaderLine(m: seq<char>, line: nat, h: Header): (r: LineResult)
    requires line <= |m| && |h.transport| == MAX_TRANSPORTS
    ensures |r.h.transport| == MAX_TRANSPORTS && OnlyCuts(m, r.m, 0, |m|)
  {
    StrTokCuts(m, line, ' ');
    var k := StrTok(m, line, ' ');
    if k.tok.None? then LineResult(k.m, h, false, true, true)
    else
      var r := HeaderValue(k.m, CStr(k.m, k.tok.value), k.save, h);
      CutsCompose(m, k.m, r.m);
      r
  }

  /** The value after the header name. */
  function HeaderValue(m: seq<char>, name: string, save: nat, h: Header): (r: LineResult)
    requires save <= |m| && |h.transport| == MAX_TRANSPORTS
    ensures |r.h.transport| == MAX_TRANSPORTS && OnlyCuts(m, r.m, 0, |m|)
  {
    if HasPrefixNoCase(name, "CSeq:") then NumberValue(m, save, h, true)
    else if HasPrefixNoCase(name, "Session:") then NumberValue(m, save, h, false)
    else if HasPrefixNoCase(name, "Accept:") then
      var a := AcceptTokens(m, save);
      LineResult(a.m, h.(acceptSdp := a.sdp), true, true, true)
    else if HasPrefixNoCase(name, "Transport:") then
      if !Scannable(m, save) then LineResult(m, h, false, false, false)
      else
        var t := ParseTransport(m, save, h.transport);
        LineResult(t.m, h.(transport := t.ts), t.ok, t.ok, true)
    else LineResult(m, h, true, true, true)
  }

  /** CSeq and Session; without a number the whole read is abandoned. */
  function NumberValue(m: seq<char>, save: nat, h: Header, isCSeq: bool): (r: LineResult)
    requires save <= |m| && |h.transport| == MAX_TRANSPORTS
    ensures |r.h.transport| == MAX_TRANSPORTS && OnlyCuts(m, r.m, save, NulFrom(m, save))
  {
    StrTokCuts(m, save, ' ');
    var k := StrTok(m, save, ' ');
    if k.tok.None? then LineResult(k.m, h, false, false, true)
    else
      var n := ToInt32(StrToLL(CStr(k.m, k.tok.value), 10).value);
      LineResult(k.m, if isCSeq then h.(cseq := n) else h.(sessionId := ToUint32(n)), true, true, true)
  }

  /** read_headers after its first assignment. */
  function ReadHeaders(m: seq<char>, pos: nat, size: nat, h: Header): (r: Read)
    requires pos + size <= |m| && |h.transport| == MAX_TRANSPORTS
    ensures |r.h.transport| == MAX_TRANSPORTS && |r.m| == |m|
    decreases size
  {
    if size == 1 then Read(m, h, false, false)
    else
      var g := GetLineAt(m, pos, size);
      if g.line.None? then Read(g.m, h, true, true)
      else
        var l := HeaderLine(g.m, g.line.value, h);
        if !l.go || !l.defined then Read(l.m, l.h, l.ok, l.defined)
        else ReadHeaders(l.m, g.pos, g.size, l.h)
  }

  // ---------------------------------------------------------------- the code, in place

  method AcceptTokensInPlace(buf: array<char>, first: nat) returns (sdp: bool)
    requires Terminated(buf[..], first)
    modifies buf
    ensures Accepted(buf[..], sdp) == AcceptTokens(old(buf[..]), first)
  {
    var save := first;
    ghost var end := NulFrom(buf[..], first);
    while true
      invariant save <= end < buf.Length && NulFrom(buf[..], save) == end
      invariant AcceptTokens(buf[..], save) == AcceptTokens(old(buf[..]), first)
      decreases end - save
    {
      StrTokCuts(buf[..], save, ' ');
      var s, next := StrTokR(buf, save, ' ');
      if s == None {
        return false;
      }
      if HasPrefixNoCase(CStr(buf[..], s.value), "application/sdp") {
        return true;
      }
      save := next;
    }
  }

  method NumberInPlace(buf: array<char>, save: nat, h: Header, isCSeq: bool) returns (r: Header, ok: bool)
    requires Terminated(buf[..], save) && |h.transport| == MAX_TRANSPORTS
    modifies buf
    ensures LineResult(buf[..], r, ok, ok, true) == NumberValue(old(buf[..]), save, h, isCSeq)
  {
    StrTokCuts(buf[..], save, ' ');
    var s, next := StrTokR(buf, save, ' ');
    if s == None {
      return h, false;
    }
    var n := ToInt32(StrToLL(CStr(buf[..], s.value), 10).value);
    r, ok := if isCSeq then h.(cseq := n) else h.(sessionId := ToUint32(n)), true;
  }

  method HeaderLineInPlace(buf: array<char>, line: nat, h: Header) returns (r: Header, go: bool, ok: bool)
    requires Terminated(buf[..], line) && |h.transport| == MAX_TRANSPORTS
    requires HeaderLine(buf[..], line, h).defined
    modifies buf
    ensures LineResult(buf[..], r, go, ok, true) == HeaderLine(old(buf[..]), line, h)
  {
    hide AcceptTokens, NumberValue, ParseTransport, HasPrefixNoCase, NulFrom;
    StrTokCuts(buf[..], line, ' ');
    var header, save := StrTokR(buf, line, ' ');
    if header == None {
      return h, false, true;
    }
    var name := CStr(buf[..], header.value);
    if HasPrefixNoCase(name, "CSeq:") {
      r, ok := NumberInPlace(buf, save, h, true);
      go := ok;
    } else if HasPrefixNoCase(name, "Session:") {
      r, ok := NumberInPlace(buf, save, h, false);
      go := ok;
    } else if HasPrefixNoCase(name, "Accept:") {
      var sdp := AcceptTokensInPlace(buf, save);
      r, go, ok := h.(acceptSdp := sdp), true, true;
    } else if HasPrefixNoCase(name, "Transport:") {
      var ts;
      ts, ok := ParseTransportInPlace(buf, save, h.transport);
      r, go := h.(transport := ts), ok;
    } else {
      r, go, ok := h, true, true;
    }
  }

  /** read_headers. The headers it filled in before it gave up stay filled in. */
  method ReadHeadersInPlace(lp: LineParser, h0: Header) returns (h: Header, ok: bool)
    requires lp.Valid() && |h0.transport| == MAX_TRANSPORTS
    requires ReadHeaders(lp.buf[..], lp.data, lp.size, h0.(acceptSdp := true)).defined
    modifies lp, lp.buf
    ensures Read(lp.buf[..], h, ok, true)
         == ReadHeaders(old(lp.buf[..]), old(lp.data), old(lp.size), h0.(acceptSdp := true))
  {
    hide HeaderLine, NextLine, NulFrom;
    ghost var all := ReadHeaders(lp.buf[..], lp.data, lp.size, h0.(acceptSdp := true));
    h := h0.(acceptSdp := true);
    while true
      invariant lp.Valid() && |h.transport| == MAX_TRANSPORTS
      invariant ReadHeaders(lp.buf[..], lp.data, lp.size, h) == all
      decreases lp.size
    {
      ghost var m, pos, size := lp.buf[..], lp.data, lp.size;
      var line := lp.GetLine();
      if line == None {
        return h, true;
      }
      LineEnds(m, pos, size);
      var go;
      h, go, ok := HeaderLineInPlace(lp.buf, line.value, h);
      if !go {
        return;
      }
    }
  }

  // ---------------------------------------------------------------- strings that may be compared

  lemma SafeKept(m: seq<char>, m': seq<char>, ts: seq<Transport>)
    requires SafeSpecs(m, ts) && OnlyNuls(m, m')
    ensures SafeSpecs(m', ts)
  {
    hide SafeSpec;
    forall k | 0 <= k < |ts|
      ensures SafeSpec(m', ts[k])
    {
      SafeSpecKept(m, m', ts[k]);
    }
  }

  lemma HeaderLineSafe(m: seq<char>, line: nat, h: Header)
    requires Terminated(m, line) && |h.transport| == MAX_TRANSPORTS && SafeSpecs(m, h.transport)
    ensures var r := HeaderLine(m, line, h); SafeSpecs(r.m, r.h.transport)
  {
    hide SafeSpecs, NumberValue, AcceptTokens, ParseTransport, CStr, HasPrefixNoCase, StrTok;
    StrTokCuts(m, line, ' ');
    var k := StrTok(m, line, ' ');
    SafeKept(m, k.m, h.transport);
    if k.tok.Some? {
      HeaderValueSafe(k.m, CStr(k.m, k.tok.value), k.save, h);
    }
  }

  lemma HeaderValueSafe(m: seq<char>, name: string, save: nat, h: Header)
    requires Terminated(m, save) && |h.transport| == MAX_TRANSPORTS && SafeSpecs(m, h.transport)
    ensures var r := HeaderValue(m, name, save, h); SafeSpecs(r.m, r.h.transport)
  {
    hide SafeSpecs, AcceptTokens, ParseTransport, CStr, HasPrefixNoCase, StrTok, NulFrom, StrToLL;
    if HasPrefixNoCase(name, "Transport:") && Scannable(m, save) {
      ParseTransportSafe(m, save, h.transport);
    }
    SafeKept(m, HeaderValue(m, name, save, h).m, h.transport);
  }

  /** For every request, even when read_headers gives up half way: wherever unicast is set, mode and transport
      are not null and can be compared inside the buffer. */
  lemma {:induction false} ReadHeadersSafe(m: seq<char>, pos: nat, size: nat, h: Header)
    requires pos + size <= |m| && |h.transport| == MAX_TRANSPORTS && SafeSpecs(m, h.transport)
    ensures var r := ReadHeaders(m, pos, size, h); SafeSpecs(r.m, r.h.transport)
    decreases size
  {
    hide SafeSpecs, HeaderLine, NulFrom;
    if size != 1 {
      var g := GetLineAt(m, pos, size);
      if g.line.Some? {
        LineEnds(m, pos, size);
        SafeKept(m, g.m, h.transport);
        HeaderLineSafe(g.m, pos, h);
        var l := HeaderLine(g.m, pos, h);
        if l.go && l.defined {
          ReadHeadersSafe(l.m, g.pos, g.size, l.h);
        }
      }
    }
  }
}
