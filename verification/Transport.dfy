/** The Transport header (src/rtsp.cpp, parse_transport and parse_transport_option): up to three specs,
    cut up in place by strtok_r. */
module TransportParsing {
  import opened CStrings

  /** A const char* of the source: null, a string constant, or a place in the request buffer. */
  datatype Ref = Null | Literal(text: string) | InBuf(at: nat)

  datatype Pair = Pair(first: int, second: int)

  type Octets = s: seq<int> | |s| == 4 witness [0, 0, 0, 0]

  datatype Transport = Transport(
    transport: Ref, mode: Ref, ttl: int, ssrc: int,
    rtp: bool, unicast: bool, rtcpMux: bool,
    clientPort: Pair, serverPort: Pair, interleaved: Pair, port: Pair,
    destination: Octets, source: Octets, srcAddr: Octets, destAddr: Octets)

  const NO_ADDR: Octets := [0, 0, 0, 0]

  const ZERO: Transport := Transport(
    Null, Null, 0, 0, false, false, false, Pair(0, 0), Pair(0, 0), Pair(0, 0), Pair(0, 0),
    NO_ADDR, NO_ADDR, NO_ADDR, NO_ADDR)

  const MAX_TRANSPORTS := 3

  // ---------------------------------------------------------------- one option

  datatype RangeField = ClientPort | ServerPort | Interleaved | Port

  function GetRange(t: Transport, f: RangeField): Pair {
    match f
    case ClientPort => t.clientPort
    case ServerPort => t.serverPort
    case Interleaved => t.interleaved
    case Port => t.port
  }

  function SetRange(t: Transport, f: RangeField, p: Pair): Transport {
    match f
    case ClientPort => t.(clientPort := p)
    case ServerPort => t.(serverPort := p)
    case Interleaved => t.(interleaved := p)
    case Port => t.(port := p)
  }

  datatype Parsed = Parsed(t: Transport, ok: bool)

  /** "a-b": the first number is stored even when no '-' follows it. */
  function ParseRange(t: Transport, f: RangeField, s: string): Parsed {
    var a := StrToLL(s, 10);
    var t1 := SetRange(t, f, Pair(ToInt32(a.value), GetRange(t, f).second));
    if a.end == |s| || s[a.end] != '-' then Parsed(t1, false)
    else
      var b := StrToLL(s[a.end + 1..], 10);
      Parsed(SetRange(t, f, Pair(ToInt32(a.value), ToInt32(b.value))), true)
  }

  /** get_ipaddr reads the same number four times. */
  function ParseAddr(s: string): Octets {
    var o := ToInt32(StrToLL(s, 10).value) % 256;
    [o, o, o, o]
  }

  /** src_addr= and dest_addr= store both addresses in the first slot, and want a ',' after one number. */
  function ParseAddrPair(s: string): (Octets, bool) {
    var end := StrToLL(s, 10).end;
    if end == |s| || s[end] != ',' then (ParseAddr(s), false) else (ParseAddr(s[end + 1..]), true)
  }

  datatype Flag = Unicast | RtcpMux

  datatype Action =
    | SetFlag(flag: Flag, value: bool)
    | ReadRange(field: RangeField)
    | PointMode
    | ReadTtl
    | ReadAddr(toDestination: bool)
    | ReadAddrPair(toDest: bool)

  /** One row of the option tables: a whole word, or the keyword an argument follows. */
  datatype Row = Row(keyword: string, whole: bool, action: Action)

  const ROWS := 14

  /** The option tables of the source, one after the other. ssrc= fills the ttl field, as it does there. */
  function Table(i: nat): Row
    requires i < ROWS
  {
    if i == 0 then Row("unicast", true, SetFlag(Unicast, true))
    else if i == 1 then Row("multicast", true, SetFlag(Unicast, false))
    else if i == 2 then Row("rtcp-mux", true, SetFlag(RtcpMux, true))
    else if i == 3 then Row("client_port=", false, ReadRange(ClientPort))
    else if i == 4 then Row("server_port=", false, ReadRange(ServerPort))
    else if i == 5 then Row("interleaved=", false, ReadRange(Interleaved))
    else if i == 6 then Row("port=", false, ReadRange(Port))
    else if i == 7 then Row("mode=", false, PointMode)
    else if i == 8 then Row("ttl=", false, ReadTtl)
    else if i == 9 then Row("ssrc=", false, ReadTtl)
    else if i == 10 then Row("destination=", false, ReadAddr(true))
    else if i == 11 then Row("source=", false, ReadAddr(false))
    else if i == 12 then Row("src_addr=", false, ReadAddrPair(false))
    else Row("dest_addr=", false, ReadAddrPair(true))
  }

  predicate Matches(s: string, r: Row) {
    if r.whole then s == r.keyword else HasPrefix(s, r.keyword)
  }

  /** The first row from i on that the option matches. */
  function FindRow(s: string, i: nat): (k: nat)
    requires i <= ROWS
    ensures i <= k <= ROWS && (k < ROWS ==> Matches(s, Table(k)))
    decreases ROWS - i
  {
    if i == ROWS || Matches(s, Table(i)) then i else FindRow(s, i + 1)
  }

  /** What a row does with its argument, the string arg at p. */
  function Store(t: Transport, a: Action, arg: string, p: nat): Parsed {
    match a
    case SetFlag(f, b) => Parsed(if f == Unicast then t.(unicast := b) else t.(rtcpMux := b), true)
    case ReadRange(f) => ParseRange(t, f, arg)
    case PointMode => Parsed(t.(mode := InBuf(p)), true)
    case ReadTtl => Parsed(t.(ttl := ToInt32(StrToLL(arg, 0).value)), true)
    case ReadAddr(d) => Parsed(if d then t.(destination := ParseAddr(arg)) else t.(source := ParseAddr(arg)), true)
    case ReadAddrPair(d) =>
      var a := ParseAddrPair(arg);
      Parsed(if d then t.(destAddr := a.0) else t.(srcAddr := a.0), a.1)
  }

  /** The option s, which starts at p. */
  function ParseOption(t: Transport, s: string, p: nat): Parsed {
    var k := FindRow(s, 0);
    if k == ROWS then Parsed(t, false)
    else var n := |Table(k).keyword|; Store(t, Table(k).action, s[n..], p + n)
  }

  // ---------------------------------------------------------------- what the parser may change

  predicate Cut(c: char) {
    c == ' ' || c == ',' || c == ';' || c == '/'
  }

  /** Between lo and hi some separators became NULs; nothing else changed. */
  ghost predicate OnlyCuts(m: seq<char>, m': seq<char>, lo: nat, hi: nat) {
    && |m'| == |m|
    && forall k :: 0 <= k < |m| && m'[k] != m[k] ==> lo <= k < hi && m'[k] == NUL && Cut(m[k])
  }

  /** Cuts can only shorten a string. */
  lemma CutsShorten(m: seq<char>, m': seq<char>, lo: nat, hi: nat, p: nat)
    requires OnlyCuts(m, m', lo, hi) && p <= |m|
    ensures NulFrom(m', p) <= NulFrom(m, p)
    ensures hi <= p ==> NulFrom(m', p) == NulFrom(m, p)
  {
    var e := NulFrom(m, p);
    assert e == |m| || m'[e] == NUL;
    if hi <= p {
      NulFromIs(m', p, e);
    }
  }

  lemma CutsCompose(m: seq<char>, n: seq<char>, r: seq<char>)
    requires OnlyCuts(m, n, 0, |m|) && OnlyCuts(n, r, 0, |n|)
    ensures OnlyCuts(m, r, 0, |m|)
  {
    forall k | 0 <= k < |m| && r[k] != m[k]
      ensures r[k] == NUL && Cut(m[k])
    {
      assert n[k] == m[k] || n[k] == NUL;
    }
  }

  lemma StrTokCuts(m: seq<char>, p: nat, d: char)
    requires p <= |m| && Cut(d)
    ensures var r := StrTok(m, p, d);
            && OnlyCuts(m, r.m, p, NulFrom(m, p))
            && p <= r.save <= NulFrom(m, p) && NulFrom(r.m, r.save) == NulFrom(m, p)
            && (r.tok.Some? ==> p <= r.tok.value < r.save)
  {
    StrTokFrame(m, p, d, NulFrom(m, p));
  }

  // ---------------------------------------------------------------- one spec

  datatype SpecResult = SpecResult(m: seq<char>, t: Transport, ok: bool)

  /** The options of a spec, from the saved position on; the first one that is not understood ends the parse. */
  function ParseOptions(m: seq<char>, save: nat, t: Transport): (r: SpecResult)
    requires save <= |m|
    ensures OnlyCuts(m, r.m, save, NulFrom(m, save))
    decreases |m| - save
  {
    StrTokCuts(m, save, ';');
    var k := StrTok(m, save, ';');
    if k.tok.None? then SpecResult(k.m, t, true)
    else
      var o := ParseOption(t, CStr(k.m, k.tok.value), k.tok.value);
      if o.ok then ParseOptions(k.m, k.save, o.t) else SpecResult(k.m, o.t, false)
  }

  function Defaults(t: Transport): Transport {
    t.(transport := Literal("UDP"), mode := Literal("PLAY"), unicast := false)
  }

  datatype Protocol = Protocol(m: seq<char>, rtp: bool, lower: Option<nat>)

  /** RTP/AVP/UDP, the string at p: the buffer with its slashes cut, and where the lower transport is. */
  function ParseProtocol(m: seq<char>, p: nat): (r: Protocol)
    requires p < |m| && m[p] == 'R'
    ensures OnlyCuts(m, r.m, p, NulFrom(m, p))
    ensures r.lower.Some? ==> p <= r.lower.value < NulFrom(m, p)
  {
    StrTokCuts(m, p, '/');
    var a := StrTok(m, p, '/');
    StrTokCuts(a.m, a.save, '/');
    var b := StrTok(a.m, a.save, '/');
    StrTokCuts(b.m, b.save, '/');
    var c := StrTok(b.m, b.save, '/');
    Protocol(c.m, CStr(a.m, p) == "RTP", c.tok)
  }

  /** One spec; p is where the scan found "RTP/", and no cut ever removes that 'R'. */
  function ParseSpec(m: seq<char>, p: nat, t0: Transport): (r: SpecResult)
    requires p < |m| && m[p] == 'R'
    ensures OnlyCuts(m, r.m, p, NulFrom(m, p))
  {
    StrTokCuts(m, p, ';');
    var k := StrTok(m, p, ';');
    CutsShorten(m, k.m, p, NulFrom(m, p), p);
    var a := ParseProtocol(k.m, p);
    var t1 := Defaults(t0);
    var t2 := t1.(rtp := t1.rtp || a.rtp);
    var t3 := if a.lower.Some? then t2.(transport := InBuf(a.lower.value)) else t2;
    OptionsUntouched(m, p);
    ParseOptions(a.m, k.save, t3)
  }

  /** The protocol part is cut up before the options start. */
  lemma OptionsUntouched(m: seq<char>, p: nat)
    requires p < |m| && m[p] == 'R'
    ensures var k := StrTok(m, p, ';');
            && k.tok == Some(p) && k.save <= |m|
            && forall j :: k.save <= j < |m| ==> ParseProtocol(k.m, p).m[j] == m[j]
    ensures var k := StrTok(m, p, ';'); NulFrom(ParseProtocol(k.m, p).m, k.save) == NulFrom(m, p)
  {
    StrTokFrame(m, p, ';', NulFrom(m, p));
    var k := StrTok(m, p, ';');
    assert SkipDelim(m, p, ';') == p;
    CutsShorten(m, k.m, p, NulFrom(m, p), p);
    var e := NulFrom(k.m, p);
    assert e <= k.save by {
      if k.save < |m| && k.save == TokEnd(m, p, ';') {
        assert k.m[k.save] == NUL;
      }
    }
    CutsShorten(k.m, ParseProtocol(k.m, p).m, p, e, k.save);
  }

  datatype SpecsResult = SpecsResult(m: seq<char>, ts: seq<Transport>, ok: bool)

  ghost predicate Starts(m: seq<char>, lines: seq<nat>) {
    forall k :: 0 <= k < |lines| ==> lines[k] < |m| && m[lines[k]] == 'R'
  }

  /** The specs from number i on, each into its own slot. */
  function ParseSpecs(m: seq<char>, lines: seq<nat>, i: nat, ts: seq<Transport>): (r: SpecsResult)
    requires i <= |lines| <= |ts| && Starts(m, lines)
    ensures |r.ts| == |ts| && OnlyCuts(m, r.m, 0, |m|)
    decreases |lines| - i
  {
    if i == |lines| then SpecsResult(m, ts, true)
    else
      var r := ParseSpec(m, lines[i], ts[i]);
      if r.ok then
        var q := ParseSpecs(r.m, lines, i + 1, ts[i := r.t]);
        CutsCompose(m, r.m, q.m);
        q
      else SpecsResult(r.m, ts[i := r.t], false)
  }

  // ---------------------------------------------------------------- finding the specs

  /** strncmp(&m[i], "RTP/", 4) == 0 */
  predicate RtpAt(m: seq<char>, i: nat) {
    i + 4 <= |m| && m[i] == 'R' && m[i + 1] == 'T' && m[i + 2] == 'P' && m[i + 3] == '/'
  }

  /** Blanks and commas from k back to just after lo become NULs. */
  function TrimBack(m: seq<char>, k: nat, lo: nat): (r: seq<char>)
    requires k < |m|
    ensures OnlyCuts(m, r, lo + 1, k + 1)
    decreases k
  {
    if k > lo && (m[k] == ' ' || m[k] == ',') then TrimBack(m[k := NUL], k - 1, lo) else m
  }

  datatype Specs = Specs(m: seq<char>, lines: seq<nat>)

  /** The scan for "RTP/" from i up to end; at most three specs, each trimmed when the next one is found. */
  function ScanSpecs(m: seq<char>, i: nat, end: nat, lines: seq<nat>): (r: Specs)
    requires end <= |m| && |lines| <= MAX_TRANSPORTS && Starts(m, lines)
    requires forall k :: 0 <= k < |lines| ==> lines[k] < i
    ensures |r.lines| <= MAX_TRANSPORTS && Starts(r.m, r.lines)
    ensures OnlyCuts(m, r.m, 0, end)
    decreases end - i
  {
    if i >= end || |lines| == MAX_TRANSPORTS then Specs(m, lines)
    else if !RtpAt(m, i) then ScanSpecs(m, i + 1, end, lines)
    else
      var m1 := if lines == [] then m else assert lines[|lines| - 1] < i; TrimBack(m, i - 1, lines[|lines| - 1]);
      ScanSpecs(m1, i + 1, end, lines + [i])
  }

  /** Where the scan ends. The source computes strlen - 4 on an unsigned type: with fewer than four characters the
      bound is behind every buffer, and only a third spec ends the scan. */
  function ScanEnd(m: seq<char>, save: nat): (end: nat)
    requires save <= |m|
    ensures save <= end <= |m|
  {
    if |CStr(m, save)| >= 4 then NulFrom(m, save) - 4 else |m|
  }

  /** The scan stays inside the buffer: the value has four characters, or three specs stand in the buffer from there
      on, none of them running out of it. */
  predicate Scannable(m: seq<char>, save: nat) {
    save <= |m| &&
    (|CStr(m, save)| >= 4
     || var s := ScanSpecs(m, save, |m|, []);
        |s.lines| == MAX_TRANSPORTS && forall k :: 0 <= k < |s.lines| ==> Terminated(s.m, s.lines[k]))
  }

  /** The whole header value, the string at save. A scan that leaves the buffer has no defined result. */
  function ParseTransport(m: seq<char>, save: nat, ts: seq<Transport>): (r: SpecsResult)
    requires Scannable(m, save) && |ts| == MAX_TRANSPORTS
    ensures |r.ts| == MAX_TRANSPORTS && OnlyCuts(m, r.m, 0, |m|)
  {
    var s := ScanSpecs(m, save, ScanEnd(m, save), []);
    var r := ParseSpecs(s.m, s.lines, 0, ts);
    CutsCompose(m, s.m, r.m);
    r
  }

  // ---------------------------------------------------------------- the code, in place

  lemma TerminatedLater(m: seq<char>, p: nat, q: nat)
    requires p <= q <= |m| && q <= NulFrom(m, p)
    ensures NulFrom(m, q) == NulFrom(m, p)
  {
    NulFromIs(m, q, NulFrom(m, p));
  }

  method ParseTransportOption(buf: array<char>, t: Transport, option: nat) returns (r: Transport, ok: bool)
    requires Terminated(buf[..], option)
    ensures Parsed(r, ok) == ParseOption(t, CStr(buf[..], option), option)
  {
    hide Store, Table, NulFrom;
    var s := CStr(buf[..], option);
    var i := 0;
    while i < ROWS
      invariant 0 <= i <= ROWS && FindRow(s, i) == FindRow(s, 0)
    {
      var row := Table(i);
      if (row.whole && s == row.keyword) || (!row.whole && HasPrefix(s, row.keyword)) {
        var stored := Store(t, row.action, s[|row.keyword|..], option + |row.keyword|);
        return stored.t, stored.ok;
      }
      i := i + 1;
    }
    return t, false;
  }

  method ParseSpecInPlace(buf: array<char>, p: nat, t0: Transport) returns (t: Transport, ok: bool)
    requires p < buf.Length && Terminated(buf[..], p) && buf[p] == 'R'
    modifies buf
    ensures SpecResult(buf[..], t, ok) == ParseSpec(old(buf[..]), p, t0)
  {
    ghost var m := buf[..];
    ghost var end := NulFrom(m, p);
    t := t0.(transport := Literal("UDP"), mode := Literal("PLAY"), unicast := false);
    StrTokCuts(m, p, ';');
    OptionsUntouched(m, p);
    var s, save := StrTokR(buf, p, ';');
    CutsShorten(m, buf[..], p, end, p);
    t := ParseProtocolInPlace(buf, p, t);
    t, ok := ParseOptionsInPlace(buf, save, t);
  }

  method ParseOptionsInPlace(buf: array<char>, first: nat, t0: Transport) returns (t: Transport, ok: bool)
    requires Terminated(buf[..], first)
    modifies buf
    ensures SpecResult(buf[..], t, ok) == ParseOptions(old(buf[..]), first, t0)
  {
    ghost var m := buf[..];
    ghost var end := NulFrom(m, first);
    var save := first;
    t := t0;
    while true
      invariant save <= end < buf.Length && NulFrom(buf[..], save) == end
      invariant ParseOptions(buf[..], save, t) == ParseOptions(m, first, t0)
      decreases end - save
    {
      StrTokCuts(buf[..], save, ';');
      var option, next := StrTokR(buf, save, ';');
      if option == None {
        return t, true;
      }
      TokenTerminated(buf[..], option.value, next);
      t, ok := ParseTransportOption(buf, t, option.value);
      if !ok {
        return;
      }
      save := next;
    }
  }

  lemma TokenTerminated(m: seq<char>, p: nat, q: nat)
    requires p <= q <= |m| && NulFrom(m, q) < |m|
    ensures Terminated(m, p)
  {
    var e := NulFrom(m, p);
    assert m[NulFrom(m, q)] == NUL;
    assert e == |m| || m[e] == NUL;
  }

  method ParseProtocolInPlace(buf: array<char>, p: nat, t: Transport) returns (r: Transport)
    requires p < buf.Length && Terminated(buf[..], p) && buf[p] == 'R'
    modifies buf
    ensures var a := ParseProtocol(old(buf[..]), p);
            && buf[..] == a.m
            && r == (if a.lower.Some? then t.(rtp := t.rtp || a.rtp, transport := InBuf(a.lower.value))
                     else t.(rtp := t.rtp || a.rtp))
  {
    r := t;
    StrTokCuts(buf[..], p, '/');
    var protocol, save := StrTokR(buf, p, '/');
    if protocol != None && CStr(buf[..], protocol.value) == "RTP" {
      r := r.(rtp := true);
    }
    StrTokCuts(buf[..], save, '/');
    var profile, save2 := StrTokR(buf, save, '/');
    StrTokCuts(buf[..], save2, '/');
    var transport, save3 := StrTokR(buf, save2, '/');
    if transport != None {
      r := r.(transport := InBuf(transport.value));
    }
  }

  method TrimInPlace(buf: array<char>, from: nat, lo: nat)
    requires from < buf.Length
    modifies buf
    ensures buf[..] == TrimBack(old(buf[..]), from, lo)
  {
    var k: nat := from;
    while k > lo
      invariant k <= from && TrimBack(buf[..], k, lo) == TrimBack(old(buf[..]), from, lo)
    {
      if buf[k] != ' ' && buf[k] != ',' {
        break;
      }
      buf[k] := NUL;
      k := k - 1;
    }
  }

  method ScanInPlace(buf: array<char>, save: nat) returns (lines: seq<nat>)
    requires Terminated(buf[..], save) && Scannable(buf[..], save)
    modifies buf
    ensures Specs(buf[..], lines) == ScanSpecs(old(buf[..]), save, ScanEnd(old(buf[..]), save), [])
    ensures |lines| <= MAX_TRANSPORTS && Starts(buf[..], lines)
  {
    hide TrimBack, Scannable;
    ghost var m := buf[..];
    var end := ScanEnd(buf[..], save);
    lines := [];
    var i := save;
    while i < end && |lines| < MAX_TRANSPORTS
      invariant i <= end && ScanState(m, buf[..], save, i, end, lines)
      invariant ScanSpecs(buf[..], i, end, lines) == ScanSpecs(m, save, end, [])
      decreases end - i
    {
      if RtpAt(buf[..], i) {
        lines := AddSpec(buf, lines, i, m, save, end);
      }
      i := i + 1;
    }
  }

  ghost predicate ScanState(m: seq<char>, n: seq<char>, save: nat, i: nat, end: nat, lines: seq<nat>) {
    && OnlyCuts(m, n, 0, |m|) && end <= |m| && |lines| <= MAX_TRANSPORTS && Starts(n, lines)
    && forall k :: 0 <= k < |lines| ==> save <= lines[k] < i && lines[k] < end
  }

  /** A spec starts at i: end the one before it. */
  method AddSpec(buf: array<char>, lines: seq<nat>, i: nat, ghost m: seq<char>, ghost save: nat, ghost end: nat)
    returns (r: seq<nat>)
    requires save <= i < end && ScanState(m, buf[..], save, i, end, lines) && |lines| < MAX_TRANSPORTS
    requires RtpAt(buf[..], i)
    modifies buf
    ensures ScanState(m, buf[..], save, i + 1, end, r)
    ensures ScanSpecs(old(buf[..]), i, end, lines) == ScanSpecs(buf[..], i + 1, end, r)
  {
    ghost var n := buf[..];
    r := lines + [i];
    if lines != [] {
      assert lines[|lines| - 1] < i;
      TrimInPlace(buf, i - 1, lines[|lines| - 1]);
    }
    CutsCompose(m, n, buf[..]);
    forall k | 0 <= k < |r|
      ensures r[k] < |n| && buf[..][r[k]] == 'R'
    {
      assert k < |lines| ==> n[lines[k]] == 'R';
    }
  }

  /** Every spec starts with its 'R' and reads inside the buffer. */
  ghost predicate GoodStarts(m: seq<char>, lines: seq<nat>) {
    Starts(m, lines) && forall k :: 0 <= k < |lines| ==> Terminated(m, lines[k])
  }

  lemma GoodStartsKept(m: seq<char>, m': seq<char>, lines: seq<nat>)
    requires GoodStarts(m, lines) && OnlyCuts(m, m', 0, |m|)
    ensures GoodStarts(m', lines)
  {
    forall k | 0 <= k < |lines|
      ensures lines[k] < |m'| && m'[lines[k]] == 'R' && Terminated(m', lines[k])
    {
      CutsShorten(m, m', 0, |m|, lines[k]);
    }
  }

  method ParseSpecsInPlace(buf: array<char>, lines: seq<nat>, ts0: seq<Transport>) returns (ts: seq<Transport>, ok: bool)
    requires |lines| <= |ts0| && GoodStarts(buf[..], lines)
    modifies buf
    ensures SpecsResult(buf[..], ts, ok) == ParseSpecs(old(buf[..]), lines, 0, ts0)
  {
    hide ParseSpec, NulFrom;
    ts, ok := ts0, true;
    var i := 0;
    while i < |lines|
      invariant 0 <= i <= |lines| <= |ts| && GoodStarts(buf[..], lines)
      invariant ParseSpecs(buf[..], lines, i, ts) == ParseSpecs(old(buf[..]), lines, 0, ts0)
    {
      ghost var m := buf[..];
      assert Terminated(m, lines[i]);
      var t;
      t, ok := ParseSpecInPlace(buf, lines[i], ts[i]);
      ts := ts[i := t];
      if !ok {
        return;
      }
      GoodStartsKept(m, buf[..], lines);
      i := i + 1;
    }
    ok := true;
  }

  /** parse_transport. Only the saved position and the slots go in: the specs come back in ts. */
  method ParseTransportInPlace(buf: array<char>, save: nat, ts0: seq<Transport>) returns (ts: seq<Transport>, ok: bool)
    requires Terminated(buf[..], save) && Scannable(buf[..], save) && |ts0| == MAX_TRANSPORTS
    modifies buf
    ensures SpecsResult(buf[..], ts, ok) == ParseTransport(old(buf[..]), save, ts0)
  {
    hide ScanSpecs, ParseSpecs, NulFrom, Terminated, OnlyCuts, Scannable, ScanEnd;
    ghost var m := buf[..];
    var lines := ScanInPlace(buf, save);
    ScanGood(m, save);
    ts, ok := ParseSpecsInPlace(buf, lines, ts0);
  }

  lemma LinesTerminated(m: seq<char>, n: seq<char>, save: nat, lines: seq<nat>)
    requires Terminated(m, save) && OnlyCuts(m, n, 0, |m|) && Starts(n, lines)
    requires forall k :: 0 <= k < |lines| ==> save <= lines[k] < NulFrom(m, save)
    ensures GoodStarts(n, lines)
  {
    forall k | 0 <= k < |lines|
      ensures Terminated(n, lines[k])
    {
      TerminatedLater(m, save, lines[k]);
      CutsShorten(m, n, 0, |m|, lines[k]);
    }
  }

  /** Every spec that a scan within bounds finds reads inside the buffer. */
  lemma ScanGood(m: seq<char>, save: nat)
    requires Terminated(m, save) && Scannable(m, save)
    ensures var s := ScanSpecs(m, save, ScanEnd(m, save), []); GoodStarts(s.m, s.lines)
  {
    hide ScanSpecs;
    var s := ScanSpecs(m, save, ScanEnd(m, save), []);
    if |CStr(m, save)| >= 4 {
      ScanInside(m, save, NulFrom(m, save) - 4, [], save);
      LinesTerminated(m, s.m, save, s.lines);
    }
  }

  // ---------------------------------------------------------------- what every parse guarantees

  /** strcmp on r stays inside the buffer. */
  predicate Readable(m: seq<char>, r: Ref) {
    r.Literal? || (r.InBuf? && Terminated(m, r.at))
  }

  /** The strings setup compares may be read, and a spec that was filled in says so in both. */
  ghost predicate SafeSpec(m: seq<char>, t: Transport) {
    && (t.mode != Null ==> Readable(m, t.mode))
    && (t.transport != Null ==> Readable(m, t.transport))
    && (t.unicast ==> t.mode != Null && t.transport != Null)
  }

  ghost predicate SafeSpecs(m: seq<char>, ts: seq<Transport>) {
    forall k :: 0 <= k < |ts| ==> SafeSpec(m, ts[k])
  }

  /** Some characters became NULs. */
  ghost predicate OnlyNuls(m: seq<char>, m': seq<char>) {
    |m'| == |m| && forall k :: 0 <= k < |m| && m'[k] != m[k] ==> m'[k] == NUL
  }

  lemma SafeSpecKept(m: seq<char>, m': seq<char>, t: Transport)
    requires SafeSpec(m, t) && OnlyNuls(m, m')
    ensures SafeSpec(m', t)
  {
    if t.mode.InBuf? {
      NulsShorten(m, m', t.mode.at);
    }
    if t.transport.InBuf? {
      NulsShorten(m, m', t.transport.at);
    }
  }

  lemma NulsShorten(m: seq<char>, m': seq<char>, p: nat)
    requires OnlyNuls(m, m') && Terminated(m, p)
    ensures Terminated(m', p)
  {
    var e := NulFrom(m, p);
    assert m'[e] == NUL;
  }

  /** An option leaves the lower transport alone and can point mode only into its own text. */
  lemma OptionRefs(t: Transport, s: string, p: nat)
    ensures var r := ParseOption(t, s, p).t;
            r.transport == t.transport && (r.mode == t.mode || (r.mode.InBuf? && p <= r.mode.at <= p + |s|))
  {
    hide Store, Table, FindRow;
    var k := FindRow(s, 0);
    if k < ROWS {
      StoreRefs(t, Table(k).action, s[|Table(k).keyword|..], p + |Table(k).keyword|);
    }
  }

  lemma StoreRefs(t: Transport, a: Action, arg: string, p: nat)
    ensures var r := Store(t, a, arg, p).t; r.transport == t.transport && (r.mode == t.mode || r.mode == InBuf(p))
  {
    match a
    case ReadRange(f) =>
      assert f == ClientPort || f == ServerPort || f == Interleaved || f == Port;
    case _ =>
  }

  lemma ParseOptionSafe(m: seq<char>, t: Transport, p: nat)
    requires SafeSpec(m, t) && Terminated(m, p) && t.mode != Null && t.transport != Null
    ensures var r := ParseOption(t, CStr(m, p), p).t; SafeSpec(m, r) && r.mode != Null && r.transport != Null
  {
    var s := CStr(m, p);
    OptionRefs(t, s, p);
    var r := ParseOption(t, s, p).t;
    if r.mode != t.mode {
      TerminatedLater(m, p, r.mode.at);
    }
  }

  lemma {:induction false} ParseOptionsSafe(m: seq<char>, save: nat, t: Transport)
    requires Terminated(m, save) && SafeSpec(m, t) && t.mode != Null && t.transport != Null
    ensures var r := ParseOptions(m, save, t); SafeSpec(r.m, r.t)
    decreases |m| - save
  {
    StrTokCuts(m, save, ';');
    var k := StrTok(m, save, ';');
    SafeSpecKept(m, k.m, t);
    if k.tok.Some? {
      TokenTerminated(k.m, k.tok.value, k.save);
      ParseOptionSafe(k.m, t, k.tok.value);
      var o := ParseOption(t, CStr(k.m, k.tok.value), k.tok.value);
      if o.ok {
        ParseOptionsSafe(k.m, k.save, o.t);
      }
    }
  }

  lemma {:induction false} ParseSpecsSafe(m: seq<char>, lines: seq<nat>, i: nat, ts: seq<Transport>)
    requires i <= |lines| <= |ts| && GoodStarts(m, lines) && SafeSpecs(m, ts)
    ensures var r := ParseSpecs(m, lines, i, ts); SafeSpecs(r.m, r.ts)
    decreases |lines| - i
  {
    hide ParseSpec, SafeSpec, SafeSpecs, NulFrom, OnlyCuts, Terminated;
    if i < |lines| {
      assert Terminated(m, lines[i]);
      ParseSpecSafe(m, lines[i], ts[i]);
      var r := ParseSpec(m, lines[i], ts[i]);
      SlotFilled(m, r.m, ts, i, r.t, NulFrom(m, lines[i]), lines[i]);
      if r.ok {
        CutsEverywhere(m, r.m, lines[i], NulFrom(m, lines[i]));
        GoodStartsKept(m, r.m, lines);
        ParseSpecsSafe(r.m, lines, i + 1, ts[i := r.t]);
      }
    }
  }

  lemma CutsEverywhere(m: seq<char>, m': seq<char>, lo: nat, hi: nat)
    requires OnlyCuts(m, m', lo, hi)
    ensures OnlyCuts(m, m', 0, |m|) && OnlyNuls(m, m')
  {
  }

  lemma SlotFilled(m: seq<char>, m': seq<char>, ts: seq<Transport>, i: nat, t: Transport, hi: nat, lo: nat)
    requires i < |ts| && SafeSpecs(m, ts) && SafeSpec(m', t) && OnlyCuts(m, m', lo, hi)
    ensures SafeSpecs(m', ts[i := t])
  {
    hide SafeSpec;
    CutsEverywhere(m, m', lo, hi);
    var us := ts[i := t];
    forall k | 0 <= k < |us|
      ensures SafeSpec(m', us[k])
    {
      if k != i {
        SafeSpecKept(m, m', ts[k]);
      }
    }
  }

  lemma ParseSpecSafe(m: seq<char>, p: nat, t: Transport)
    requires p < |m| && m[p] == 'R' && Terminated(m, p)
    ensures var r := ParseSpec(m, p, t); SafeSpec(r.m, r.t)
  {
    StrTokCuts(m, p, ';');
    var k := StrTok(m, p, ';');
    CutsShorten(m, k.m, p, NulFrom(m, p), p);
    OptionsUntouched(m, p);
    var a := ParseProtocol(k.m, p);
    if a.lower.Some? {
      TerminatedLater(k.m, p, a.lower.value);
      CutsShorten(k.m, a.m, p, NulFrom(k.m, p), a.lower.value);
    }
    var t1 := Defaults(t).(rtp := t.rtp || a.rtp);
    var t2 := if a.lower.Some? then t1.(transport := InBuf(a.lower.value)) else t1;
    ParseOptionsSafe(a.m, k.save, t2);
  }

  /** For every header value, even one whose parse is abandoned half way, unicast means that mode and
      transport are not null, and both may be compared. */
  lemma ParseTransportSafe(m: seq<char>, save: nat, ts: seq<Transport>)
    requires Terminated(m, save) && Scannable(m, save) && |ts| == MAX_TRANSPORTS && SafeSpecs(m, ts)
    ensures var r := ParseTransport(m, save, ts); SafeSpecs(r.m, r.ts)
  {
    hide ScanSpecs, Scannable, ScanEnd, SafeSpec, ParseSpecs, NulFrom;
    var s := ScanSpecs(m, save, ScanEnd(m, save), []);
    ScanGood(m, save);
    forall k | 0 <= k < |ts|
      ensures SafeSpec(s.m, ts[k])
    {
      SafeSpecKept(m, s.m, ts[k]);
    }
    ParseSpecsSafe(s.m, s.lines, 0, ts);
  }

  lemma {:induction false} ScanInside(m: seq<char>, i: nat, end: nat, lines: seq<nat>, lo: nat)
    requires end <= |m| && |lines| <= MAX_TRANSPORTS && Starts(m, lines) && lo <= i
    requires forall k :: 0 <= k < |lines| ==> lo <= lines[k] < i && lines[k] < end
    ensures forall k :: 0 <= k < |ScanSpecs(m, i, end, lines).lines| ==> lo <= ScanSpecs(m, i, end, lines).lines[k] < end
    decreases end - i
  {
    if i < end && |lines| < MAX_TRANSPORTS {
      if RtpAt(m, i) {
        var m1 := if lines == [] then m else assert lines[|lines| - 1] < i; TrimBack(m, i - 1, lines[|lines| - 1]);
        ScanInside(m1, i + 1, end, lines + [i], lo);
      } else {
        ScanInside(m, i + 1, end, lines, lo);
      }
    }
  }
}
