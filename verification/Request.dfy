/** Parser::parse (src/rtsp.cpp) up to the call of the handler: a request, cut up in place. */
module RequestParsing {
  import opened CStrings
  import opened LineParsing
  import opened TransportParsing
  import opened TransportGrammar
  import opened HeaderParsing

  datatype Command = UNKNOWN | OPTIONS | DESCRIBE | SETUP | PAUSE | PLAY | TEARDOWN | KILL

  /** rlut over cmd_lut, then over cmd_plus_lut. */
  function CommandOf(s: string): Command {
    if s == "OPTIONS" then OPTIONS
    else if s == "DESCRIBE" then DESCRIBE
    else if s == "SETUP" then SETUP
    else if s == "PAUSE" then PAUSE
    else if s == "PLAY" then PLAY
    else if s == "TEARDOWN" then TEARDOWN
    else if s == "KILL" then KILL
    else UNKNOWN
  }

  /** strcasecmp(a, b) == 0 */
  predicate SameNoCase(a: string, b: string) {
    |a| == |b| && HasPrefixNoCase(a, b)
  }

  /** Valid commands this server does not implement. */
  predicate Unsupported(s: string) {
    || SameNoCase(s, "ANNOUNCE") || SameNoCase(s, "GET_PARAMETER") || SameNoCase(s, "PLAY_NOTIFY")
    || SameNoCase(s, "RECORD") || SameNoCase(s, "REDIRECT") || SameNoCase(s, "SET_PARAMETER")
  }

  /** What the handler is given: nothing but an error, or a command with its headers. */
  datatype Request = Garbled | Request(cmd: Command, rightVersion: bool, uri: string, header: Header)

  /** The headers with the strings they point to. */
  function ResolveHeader(m: seq<char>, h: Header): Header {
    h.(transport := seq(|h.transport|, i requires 0 <= i < |h.transport| => Resolve(m, h.transport[i])))
  }

  datatype Parse = Parse(m: seq<char>, req: Request, defined: bool)

  function ParseRequest(m: seq<char>, sz: nat): (r: Parse)
    requires sz <= |m|
  {
    if sz == 0 then Parse(m, Garbled, true)
    else
      var g0 := SkipAt(m, 0, sz);
      if g0.size == 1 then Parse(g0.m, Garbled, false)
      else
        var g := GetLineAt(g0.m, g0.pos, g0.size);
        if g.line.None? then Parse(g.m, Garbled, true) else ParseLine(g.m, g.line.value, g.pos, g.size)
  }

  /** The request line at line, then the headers from pos on. A request line of fewer than three tokens makes
      the source compare a null pointer, unless its first token is not a command at all. */
  function ParseLine(m: seq<char>, line: nat, pos: nat, size: nat): (r: Parse)
    requires line <= |m| && pos + size <= |m|
  {
    StrTokCuts(m, line, ' ');
    var a := StrTok(m, line, ' ');
    if a.tok.None? then Parse(a.m, Garbled, false)
    else
      var name := CStr(a.m, a.tok.value);
      var cmd := CommandOf(name);
      if cmd == UNKNOWN && !Unsupported(name) then Parse(a.m, Garbled, true)
      else ParseRest(a.m, cmd, a.save, pos, size)
  }

  function ParseRest(m: seq<char>, cmd: Command, save: nat, pos: nat, size: nat): (r: Parse)
    requires save <= |m| && pos + size <= |m|
  {
    StrTokCuts(m, save, ' ');
    var b := StrTok(m, save, ' ');
    StrTokCuts(b.m, b.save, ' ');
    var c := StrTok(b.m, b.save, ' ');
    if b.tok.None? || c.tok.None? then Parse(c.m, Garbled, false)
    else
      var uri := CStr(c.m, b.tok.value);
      var rightVersion := CStr(c.m, c.tok.value) == "RTSP/1.0";
      if cmd == UNKNOWN then Parse(c.m, Garbled, true)
      else
        var h := ReadHeaders(c.m, pos, size, NO_HEADER.(acceptSdp := true));
        Parse(h.m, Request(cmd, rightVersion, uri, ResolveHeader(h.m, h.h)), h.defined)
  }

  /** The parser writes nothing but NULs. */
  lemma {:induction false} HeadersOnlyNuls(m: seq<char>, pos: nat, size: nat, h: Header)
    requires pos + size <= |m| && |h.transport| == MAX_TRANSPORTS
    ensures OnlyNuls(m, ReadHeaders(m, pos, size, h).m)
    decreases size
  {
    hide HeaderLine, NextLine;
    if size != 1 {
      var g := GetLineAt(m, pos, size);
      if g.line.Some? {
        var l := HeaderLine(g.m, g.line.value, h);
        NulsChain(m, g.m, l.m);
        if l.go && l.defined {
          HeadersOnlyNuls(l.m, g.pos, g.size, l.h);
          NulsChain(m, l.m, ReadHeaders(l.m, g.pos, g.size, l.h).m);
        }
      }
    }
  }

  lemma NulsChain(m: seq<char>, n: seq<char>, r: seq<char>)
    requires OnlyNuls(m, n) && OnlyNuls(n, r)
    ensures OnlyNuls(m, r)
  {
    forall k | 0 <= k < |m| && r[k] != m[k]
      ensures r[k] == NUL
    {
      assert n[k] == m[k] || n[k] == NUL;
    }
  }

  lemma {:induction false} SkipOnlyNuls(m: seq<char>, pos: nat, size: nat)
    requires pos + size <= |m|
    ensures OnlyNuls(m, SkipAt(m, pos, size).m)
    decreases size
  {
    if size > 2 && CrlfAt(m[pos..pos + size], 0) {
      SkipOnlyNuls(m[pos := NUL], pos + 2, size - 2);
      NulsChain(m, m[pos := NUL], SkipAt(m, pos, size).m);
    }
  }

  lemma LineOnlyNuls(m: seq<char>, line: nat, pos: nat, size: nat)
    requires line <= |m| && pos + size <= |m|
    ensures OnlyNuls(m, ParseLine(m, line, pos, size).m)
  {
    hide StrTok, CommandOf, Unsupported, NulFrom, CStr, ParseRest;
    StrTokCuts(m, line, ' ');
    var a := StrTok(m, line, ' ');
    if a.tok.Some? {
      RestOnlyNuls(a.m, CommandOf(CStr(a.m, a.tok.value)), a.save, pos, size);
      NulsChain(m, a.m, ParseRest(a.m, CommandOf(CStr(a.m, a.tok.value)), a.save, pos, size).m);
    }
  }

  lemma RestOnlyNuls(m: seq<char>, cmd: Command, save: nat, pos: nat, size: nat)
    requires save <= |m| && pos + size <= |m|
    ensures OnlyNuls(m, ParseRest(m, cmd, save, pos, size).m)
  {
    hide StrTok, NulFrom, CStr, ReadHeaders, ResolveHeader;
    StrTokCuts(m, save, ' ');
    var b := StrTok(m, save, ' ');
    StrTokCuts(b.m, b.save, ' ');
    var c := StrTok(b.m, b.save, ' ');
    NulsChain(m, b.m, c.m);
    var h := NO_HEADER.(acceptSdp := true);
    HeadersOnlyNuls(c.m, pos, size, h);
    NulsChain(m, c.m, ReadHeaders(c.m, pos, size, h).m);
  }

  lemma ParseOnlyNuls(m: seq<char>, sz: nat)
    requires sz <= |m|
    ensures OnlyNuls(m, ParseRequest(m, sz).m)
  {
    hide ParseLine, SkipAt, NextLine;
    if sz != 0 {
      SkipOnlyNuls(m, 0, sz);
      var g0 := SkipAt(m, 0, sz);
      if g0.size != 1 {
        var g := GetLineAt(g0.m, g0.pos, g0.size);
        NulsChain(m, g0.m, g.m);
        if g.line.Some? {
          LineOnlyNuls(g.m, g0.pos, g.pos, g.size);
          NulsChain(m, g.m, ParseLine(g.m, g0.pos, g.pos, g.size).m);
        }
      }
    }
  }

  // ---------------------------------------------------------------- the code, in place

  method ParseRequestInPlace(buf: array<char>, sz: nat) returns (req: Request)
    requires sz <= buf.Length && ParseRequest(buf[..], sz).defined
    modifies buf
    ensures Parse(buf[..], req, true) == ParseRequest(old(buf[..]), sz)
  {
    hide ParseLine, SkipAt, NextLine, NulFrom;
    if sz == 0 {
      return Garbled;
    }
    var lp := new LineParser(buf, sz);
    ghost var m, pos, size := buf[..], lp.data, lp.size;
    var line := lp.GetLine();
    if line == None {
      return Garbled;
    }
    LineEnds(m, pos, size);
    req := ParseLineInPlace(lp, line.value);
  }

  method ParseLineInPlace(lp: LineParser, line: nat) returns (req: Request)
    requires lp.Valid() && Terminated(lp.buf[..], line)
    requires ParseLine(lp.buf[..], line, lp.data, lp.size).defined
    modifies lp, lp.buf
    ensures Parse(lp.buf[..], req, true) == ParseLine(old(lp.buf[..]), line, old(lp.data), old(lp.size))
  {
    hide CommandOf, Unsupported, NulFrom, ReadHeaders, ResolveHeader;
    StrTokCuts(lp.buf[..], line, ' ');
    var c, save := StrTokR(lp.buf, line, ' ');
    var name := CStr(lp.buf[..], c.value);
    var cmd := CommandOf(name);
    if cmd == UNKNOWN && !Unsupported(name) {
      return Garbled;
    }
    StrTokCuts(lp.buf[..], save, ' ');
    var uri, save2 := StrTokR(lp.buf, save, ' ');
    StrTokCuts(lp.buf[..], save2, ' ');
    var version, save3 := StrTokR(lp.buf, save2, ' ');
    var u := CStr(lp.buf[..], uri.value);
    var rightVersion := CStr(lp.buf[..], version.value) == "RTSP/1.0";
    if cmd == UNKNOWN {
      return Garbled;
    }
    var h, ok := ReadHeadersInPlace(lp, NO_HEADER);
    req := Request(cmd, rightVersion, u, ResolveHeader(lp.buf[..], h));
  }
}
