/** The Transport grammar (section 12.39 of RFC 2326): what a client prints, and what it means. */
module TransportGrammar {
  import opened CStrings
  import opened TransportParsing

  datatype Opt =
    | OUnicast
    | OMulticast
    | ORtcpMux
    | ORange(field: RangeField, first: int, second: int)
    | OMode(text: string)
    | ORaw(text: string)  // anything the server does not understand

  datatype Spec = Spec(profile: string, lower: Option<string>, opts: seq<Opt>)

  function Keyword(f: RangeField): string {
    match f
    case ClientPort => "client_port="
    case ServerPort => "server_port="
    case Interleaved => "interleaved="
    case Port => "port="
  }

  function PrintOpt(o: Opt): string {
    match o
    case OUnicast => "unicast"
    case OMulticast => "multicast"
    case ORtcpMux => "rtcp-mux"
    case ORange(f, a, b) => Keyword(f) + (Dec(a) + ("-" + Dec(b)))
    case OMode(s) => "mode=" + s
    case ORaw(s) => s
  }

  function PrintOpts(opts: seq<Opt>): string
    requires opts != []
  {
    if |opts| == 1 then PrintOpt(opts[0]) else PrintOpt(opts[0]) + [';'] + PrintOpts(opts[1..])
  }

  function ProtocolTail(s: Spec): string {
    if s.lower.None? then s.profile else s.profile + ['/'] + s.lower.value
  }

  function PrintProtocol(s: Spec): string {
    "RTP/" + ProtocolTail(s)
  }

  function PrintSpec(s: Spec): string {
    if s.opts == [] then PrintProtocol(s) else PrintProtocol(s) + [';'] + PrintOpts(s.opts)
  }

  function PrintSpecs(specs: seq<Spec>): string
    requires specs != []
  {
    if |specs| == 1 then PrintSpec(specs[0]) else PrintSpec(specs[0]) + [',', ' '] + PrintSpecs(specs[1..])
  }

  /** Text that none of the separators can cut. */
  predicate Plain(s: string) {
    forall i :: 0 <= i < |s| ==> s[i] != NUL && !Cut(s[i])
  }

  predicate Int32(n: int) {
    -0x8000_0000 <= n < 0x8000_0000
  }

  /** A number, then the character c. */
  predicate NumberThen(s: string, c: char) {
    var e := StrToLL(s, 10).end;
    e < |s| && s[e] == c
  }

  /** A range wants its '-', a pair of addresses its ','; every other argument will do. */
  predicate ArgumentOk(a: Action, arg: string) {
    match a
    case ReadRange(_) => NumberThen(arg, '-')
    case ReadAddrPair(_) => NumberThen(arg, ',')
    case _ => true
  }

  /** The option has a row in the tables and an argument that suits it. */
  predicate Understood(s: string) {
    exists k :: 0 <= k < ROWS && Matches(s, Table(k)) && ArgumentOk(Table(k).action, s[|Table(k).keyword|..])
  }

  predicate ValidOpt(o: Opt) {
    match o
    case ORange(_, a, b) => Int32(a) && Int32(b)
    case OMode(s) => Plain(s)
    case ORaw(s) => Plain(s) && s != "" && !Understood(s)
    case _ => true
  }

  predicate ValidOpts(opts: seq<Opt>) {
    forall i :: 0 <= i < |opts| ==> ValidOpt(opts[i])
  }

  predicate PlainSpec(s: Spec) {
    && Plain(s.profile) && s.profile != ""
    && (s.lower.Some? ==> Plain(s.lower.value) && s.lower.value != "")
    && ValidOpts(s.opts)
  }

  predicate EndsInRtp(s: string) {
    |s| >= 3 && s[|s| - 3..] == "RTP"
  }

  /** With the slash of a lower transport, a profile that ends in RTP reads as the start of another spec. */
  predicate ValidSpec(s: Spec) {
    PlainSpec(s) && !(s.lower.Some? && EndsInRtp(s.profile))
  }

  // ---------------------------------------------------------------- meaning

  function Apply(t: Transport, o: Opt): Transport {
    match o
    case OUnicast => t.(unicast := true)
    case OMulticast => t.(unicast := false)
    case ORtcpMux => t.(rtcpMux := true)
    case ORange(f, a, b) => SetRange(t, f, Pair(a, b))
    case OMode(s) => t.(mode := Literal(s))
    case ORaw(s) => Spoiled(t, s)
  }

  /** What an option that is not understood has stored by the time it fails: the first number of a range that lacks
      its '-', the address of a pair that lacks its ','. */
  function Spoiled(t: Transport, s: string): Transport {
    if HasPrefix(s, "client_port=") then t.(clientPort := Pair(Number(s[12..]), t.clientPort.second))
    else if HasPrefix(s, "server_port=") then t.(serverPort := Pair(Number(s[12..]), t.serverPort.second))
    else if HasPrefix(s, "interleaved=") then t.(interleaved := Pair(Number(s[12..]), t.interleaved.second))
    else if HasPrefix(s, "port=") then t.(port := Pair(Number(s[5..]), t.port.second))
    else if HasPrefix(s, "src_addr=") then t.(srcAddr := ParseAddr(s[9..]))
    else if HasPrefix(s, "dest_addr=") then t.(destAddr := ParseAddr(s[10..]))
    else t
  }

  /** Each range has a field of its own. */
  lemma RangeFields(t: Transport, a: int, b: int)
    ensures Apply(t, ORange(ClientPort, a, b)) == t.(clientPort := Pair(a, b))
    ensures Apply(t, ORange(ServerPort, a, b)) == t.(serverPort := Pair(a, b))
    ensures Apply(t, ORange(Interleaved, a, b)) == t.(interleaved := Pair(a, b))
    ensures Apply(t, ORange(Port, a, b)) == t.(port := Pair(a, b))
  {
  }

  /** The number that a text starts with, as an int. */
  function Number(s: string): int {
    ToInt32(StrToLL(s, 10).value)
  }

  /** The options in order, up to and including the first that is not understood. */
  function ApplyAll(t: Transport, opts: seq<Opt>): Transport
    decreases |opts|
  {
    if opts == [] then t
    else if opts[0].ORaw? then Apply(t, opts[0])
    else ApplyAll(Apply(t, opts[0]), opts[1..])
  }

  /** All options are understood. */
  predicate Known(opts: seq<Opt>) {
    forall i :: 0 <= i < |opts| ==> !opts[i].ORaw?
  }

  /** What the protocol part stores. */
  function Base(s: Spec, t0: Transport): Transport {
    Defaults(t0).(rtp := true, transport := if s.lower.Some? then Literal(s.lower.value) else Literal("UDP"))
  }

  /** What a spec stores over a slot that held t0. */
  function Meaning(s: Spec, t0: Transport): Transport {
    ApplyAll(Base(s, t0), s.opts)
  }

  /** The strings a slot points to, read out of the buffer. */
  function ResolveRef(m: seq<char>, r: Ref): Ref {
    if r.InBuf? && r.at <= |m| then Literal(CStr(m, r.at)) else r
  }

  function WithRefs(t: Transport, mode: Ref, lower: Ref): Transport {
    t.(mode := mode, transport := lower)
  }

  function Resolve(m: seq<char>, t: Transport): Transport {
    WithRefs(t, ResolveRef(m, t.mode), ResolveRef(m, t.transport))
  }

  // ---------------------------------------------------------------- one option

  lemma RangeOf(t: Transport, f: RangeField, s: string, tail: string, end: nat, a: int, b: int)
    requires StrToLL(s, 10) == Num(a, end) && end < |s| && s[end] == '-' && s[end + 1..] == tail
    requires StrToLL(tail, 10).value == b && Int32(a) && Int32(b)
    ensures ParseRange(t, f, s) == Parsed(SetRange(t, f, Pair(a, b)), true)
  {
  }

  lemma FirstNumber(s: string, a: int, rest: string)
    requires s == Dec(a) + rest && EndsNumber(rest, 0) && Int32(a)
    ensures StrToLL(s, 10) == Num(a, |Dec(a)|) && s[|Dec(a)|..] == rest
  {
    assert rest != "" ==> s[|Dec(a)|] == rest[0];
    NumberRoundTrip(s, a);
  }

  lemma RangeRoundTrip(t: Transport, f: RangeField, a: int, b: int)
    requires Int32(a) && Int32(b)
    ensures ParseRange(t, f, Dec(a) + ("-" + Dec(b))) == Parsed(SetRange(t, f, Pair(a, b)), true)
  {
    var tail := Dec(b);
    var end := |Dec(a)|;
    var s := Dec(a) + ("-" + tail);
    FirstNumber(s, a, "-" + tail);
    assert tail + "" == tail;
    FirstNumber(tail, b, "");
    assert s[end] == '-' && s[end + 1..] == tail;
    RangeOf(t, f, s, tail, end, a, b);
  }

  /** The row of the tables that reads an option. */
  function RowOf(o: Opt): (k: nat)
    requires !o.ORaw?
    ensures k < ROWS
  {
    match o
    case OUnicast => 0
    case OMulticast => 1
    case ORtcpMux => 2
    case ORange(ClientPort, _, _) => 3
    case ORange(ServerPort, _, _) => 4
    case ORange(Interleaved, _, _) => 5
    case ORange(Port, _, _) => 6
    case OMode(_) => 7
  }

  lemma {:induction false} FindRowIs(s: string, i: nat, k: nat)
    requires i <= k < ROWS && Matches(s, Table(k))
    requires forall j :: i <= j < k ==> !Matches(s, Table(j))
    ensures FindRow(s, i) == k
    decreases k - i
  {
    if i < k {
      FindRowIs(s, i + 1, k);
    }
  }

  /** Five characters decide which row a text can match. */
  function RowByStart(s: string): nat {
    if |s| < 4 then ROWS
    else match s[0]
      case 'u' => 0
      case 'm' => if s[1] == 'u' then 1 else 7
      case 'r' => 2
      case 'c' => 3
      case 's' => if s[1] == 'e' then 4 else if s[1] == 's' then 9 else if s[1] == 'o' then 11 else 12
      case 'i' => 5
      case 'p' => 6
      case 't' => 8
      case _ => if |s| > 4 && s[4] == 'i' then 10 else 13
  }

  lemma MatchDecides(s: string, j: nat)
    requires j < ROWS && Matches(s, Table(j))
    ensures RowByStart(s) == j
  {
    var kw := Table(j).keyword;
    assert s[..|kw|][0] == s[0] && s[..|kw|][1] == s[1] && (|kw| > 4 ==> s[..|kw|][4] == s[4]);
  }

  /** No text matches two rows of the option tables, so the first match is the only one. */
  lemma KeywordsDiffer(s: string, j: nat, k: nat)
    requires j < ROWS && k < ROWS && Matches(s, Table(j)) && Matches(s, Table(k))
    ensures j == k
  {
    MatchDecides(s, j);
    MatchDecides(s, k);
  }

  lemma OptionMatches(o: Opt)
    requires !o.ORaw?
    ensures Matches(PrintOpt(o), Table(RowOf(o)))
    ensures |Table(RowOf(o)).keyword| <= |PrintOpt(o)|
    ensures PrintOpt(o)[|Table(RowOf(o)).keyword|..] == Argument(o)
  {
    match o
    case ORange(f, a, b) =>
      assert Table(RowOf(o)).keyword == Keyword(f);
    case _ =>
  }

  function Argument(o: Opt): string {
    match o
    case ORange(f, a, b) => Dec(a) + ("-" + Dec(b))
    case OMode(s) => s
    case _ => ""
  }

  lemma RowFound(s: string, k: nat)
    requires k < ROWS && Matches(s, Table(k))
    ensures FindRow(s, 0) == k
  {
    hide Matches, Table;
    forall j: nat | j < k
      ensures !Matches(s, Table(j))
    {
      if Matches(s, Table(j)) {
        KeywordsDiffer(s, j, k);
      }
    }
    FindRowIs(s, 0, k);
  }

  lemma StoreOk(t: Transport, a: Action, arg: string, p: nat)
    ensures Store(t, a, arg, p).ok <==> ArgumentOk(a, arg)
  {
    hide StrToLL, ParseAddr;
  }

  /** Which options are understood, whatever the spec holds. */
  lemma UnderstoodIff(t: Transport, s: string, p: nat)
    ensures ParseOption(t, s, p).ok <==> Understood(s)
  {
    hide Matches, Table, FindRow, Store, ArgumentOk;
    var k := FindRow(s, 0);
    if k < ROWS {
      UnfoldParse(t, s, p, k) by { KeywordFits(s, k); }
      KeywordFits(s, k);
      StoreOk(t, Table(k).action, s[|Table(k).keyword|..], p + |Table(k).keyword|);
    }
    forall j: nat | j < ROWS && Matches(s, Table(j))
      ensures j == k
    {
      RowFound(s, j);
    }
  }

  lemma KeywordFits(s: string, k: nat)
    requires k < ROWS && Matches(s, Table(k))
    ensures |Table(k).keyword| <= |s|
  {
    hide Table;
  }

  lemma OptionRow(o: Opt)
    requires !o.ORaw?
    ensures FindRow(PrintOpt(o), 0) == RowOf(o) && |Table(RowOf(o)).keyword| <= |PrintOpt(o)|
    ensures PrintOpt(o)[|Table(RowOf(o)).keyword|..] == Argument(o)
  {
    hide Matches, Table;
    OptionMatches(o);
    RowFound(PrintOpt(o), RowOf(o));
  }

  lemma OptionRoundTrip(t: Transport, o: Opt, p: nat)
    requires ValidOpt(o) && !o.ORaw?
    ensures ParseOption(t, PrintOpt(o), p)
         == Parsed(if o.OMode? then t.(mode := InBuf(p + 5)) else Apply(t, o), true)
  {
    hide ParseOption, FindRow, ParseRange, Dec, PrintOpt;
    OptionRow(o);
    UnfoldParse(t, PrintOpt(o), p, RowOf(o));
    match o
    case ORange(f, a, b) =>
      RangeRoundTrip(t, f, a, b);
    case _ =>
  }

  /** An option that is not understood stores what it stores and fails. */
  lemma OptionFails(t: Transport, s: string, p: nat)
    requires !Understood(s)
    ensures ParseOption(t, s, p) == Parsed(Spoiled(t, s), false)
  {
    hide FindRow, StrToLL, ParseAddr, ToInt32, Understood, Number, HasPrefix, Matches, Table;
    UnderstoodIff(t, s, p);
    var k := FindRow(s, 0);
    if k < ROWS {
      FailingRow(t, s, p, k);
    } else {
      NoRow(s);
      PrefixRows(s);
    }
  }

  lemma PrefixRows(s: string)
    ensures HasPrefix(s, "client_port=") <==> Matches(s, Table(3))
    ensures HasPrefix(s, "server_port=") <==> Matches(s, Table(4))
    ensures HasPrefix(s, "interleaved=") <==> Matches(s, Table(5))
    ensures HasPrefix(s, "port=") <==> Matches(s, Table(6))
    ensures HasPrefix(s, "src_addr=") <==> Matches(s, Table(12))
    ensures HasPrefix(s, "dest_addr=") <==> Matches(s, Table(13))
  {
    hide HasPrefix;
  }

  lemma NoRow(s: string)
    requires FindRow(s, 0) == ROWS
    ensures forall k: nat :: k < ROWS ==> !Matches(s, Table(k))
  {
    hide Matches, Table, FindRow;
    forall k: nat | k < ROWS
      ensures !Matches(s, Table(k))
    {
      if Matches(s, Table(k)) {
        RowFound(s, k);
      }
    }
  }

  lemma FailingRow(t: Transport, s: string, p: nat, k: nat)
    requires k < ROWS && FindRow(s, 0) == k && !ParseOption(t, s, p).ok
    ensures ParseOption(t, s, p) == Parsed(Spoiled(t, s), false)
  {
    hide FindRow, StrToLL, ParseAddr, ToInt32, ArgumentOk;
    KeywordFits(s, k);
    UnfoldParse(t, s, p, k);
    var arg := s[|Table(k).keyword|..];
    RowDecides(s, k);
    if 3 <= k <= 6 {
      RangeFails(t, Table(k).action.field, arg);
    } else if k == 12 || k == 13 {
      StoreOk(t, Table(k).action, arg, p);
    }
  }

  lemma RowDecides(s: string, k: nat)
    requires k < ROWS && Matches(s, Table(k))
    ensures 3 <= k <= 6 || k == 12 || k == 13 ==>
              && (HasPrefix(s, "client_port=") <==> k == 3) && (HasPrefix(s, "server_port=") <==> k == 4)
              && (HasPrefix(s, "interleaved=") <==> k == 5) && (HasPrefix(s, "port=") <==> k == 6)
              && (HasPrefix(s, "src_addr=") <==> k == 12) && (HasPrefix(s, "dest_addr=") <==> k == 13)
  {
    hide HasPrefix, Matches, Table;
    PrefixRows(s);
    forall j: nat | j < ROWS && Matches(s, Table(j))
      ensures j == k
    {
      KeywordsDiffer(s, j, k);
    }
  }

  lemma RangeFails(t: Transport, f: RangeField, arg: string)
    requires !ParseRange(t, f, arg).ok
    ensures ParseRange(t, f, arg).t == SetRange(t, f, Pair(Number(arg), GetRange(t, f).second))
  {
  }

  lemma UnfoldParse(t: Transport, s: string, p: nat, k: nat)
    requires FindRow(s, 0) == k < ROWS && |Table(k).keyword| <= |s|
    ensures ParseOption(t, s, p)
         == Store(t, Table(k).action, s[|Table(k).keyword|..], p + |Table(k).keyword|)
  {
    hide Store, FindRow, Matches, Table;
  }

  // ---------------------------------------------------------------- text in the buffer

  /** The buffer holds s at p. */
  ghost predicate At(m: seq<char>, p: nat, s: string) {
    p + |s| <= |m| && forall i {:trigger s[i]} :: 0 <= i < |s| ==> m[p + i] == s[i]
  }

  /** The buffer holds s at p as a C string of its own. */
  ghost predicate StringAt(m: seq<char>, p: nat, s: string) {
    At(m, p, s) && p + |s| < |m| && m[p + |s|] == NUL
  }

  lemma AtConcat(m: seq<char>, p: nat, a: string, b: string)
    ensures At(m, p, a + b) <==> At(m, p, a) && At(m, p + |a|, b)
  {
    var s := a + b;
    if At(m, p, s) {
      assert forall i :: 0 <= i < |a| ==> s[i] == a[i];
      forall i | 0 <= i < |b|
        ensures m[p + |a| + i] == b[i]
      {
        assert s[|a| + i] == b[i];
      }
    }
  }

  lemma AtIndex(m: seq<char>, p: nat, s: string, i: nat)
    requires At(m, p, s) && i < |s|
    ensures m[p + i] == s[i]
  {
  }

  lemma StringAtEnd(m: seq<char>, p: nat, s: string)
    requires StringAt(m, p, s) && NUL !in s
    ensures NulFrom(m, p) == p + |s| && CStr(m, p) == s
  {
    forall k | p <= k < p + |s|
      ensures m[k] != NUL
    {
      AtIndex(m, p, s, k - p);
    }
    NulFromIs(m, p, p + |s|);
  }

  lemma AtKept(m: seq<char>, m': seq<char>, lo: nat, hi: nat, p: nat, s: string)
    requires OnlyCuts(m, m', lo, hi) && At(m, p, s) && (hi <= p || p + |s| <= lo)
    ensures At(m', p, s)
  {
    assert forall k :: p <= k < p + |s| ==> m'[k] == m[k];
  }

  /** strtok_r takes exactly the text a that stands before a separator or the end. */
  lemma TokenIs(m: seq<char>, p: nat, a: string, d: char)
    requires At(m, p, a) && a != "" && d != NUL && d !in a && NUL !in a
    requires p + |a| < |m| && (m[p + |a|] == d || m[p + |a|] == NUL)
    ensures var e := p + |a|;
            StrTok(m, p, d) == if m[e] == NUL then Tok(m, Some(p), e) else Tok(m[e := NUL], Some(p), e + 1)
    ensures CStr(StrTok(m, p, d).m, p) == a
  {
    forall k | p <= k < p + |a|
      ensures m[k] != d && m[k] != NUL
    {
      AtIndex(m, p, a, k - p);
    }
    AtIndex(m, p, a, 0);
    StrTokFirst(m, p, d, p + |a|);
  }

  // ---------------------------------------------------------------- printed options hold no separators

  predicate FreeOf(s: string, d: char) {
    d !in s && NUL !in s
  }

  lemma PrintOptPlain(o: Opt)
    requires ValidOpt(o)
    ensures PrintOpt(o) != "" && Plain(PrintOpt(o))
  {
    match o
    case ORange(f, a, b) =>
      PlainDec(a);
      PlainDec(b);
      PlainKeyword(f);
      PlainConcat("-", Dec(b));
      PlainConcat(Dec(a), "-" + Dec(b));
      PlainConcat(Keyword(f), Dec(a) + ("-" + Dec(b)));
    case OMode(s) =>
      PlainConcat("mode=", s);
    case ORaw(s) =>
    case _ =>
  }

  lemma PlainFree(s: string)
    requires Plain(s)
    ensures FreeOf(s, ';') && FreeOf(s, '/') && FreeOf(s, ' ') && FreeOf(s, ',') && Cut(';')
  {
  }

  lemma PlainDec(n: int)
    ensures Plain(Dec(n))
  {
    forall i | 0 <= i < |Dec(n)|
      ensures Dec(n)[i] != NUL && !Cut(Dec(n)[i])
    {
      var c := Dec(n)[i];
      assert c == '-' || '0' <= c <= '9';
    }
  }

  lemma PlainKeyword(f: RangeField)
    ensures Plain(Keyword(f))
  {
  }

  lemma PlainConcat(a: string, b: string)
    requires Plain(a) && Plain(b)
    ensures Plain(a + b)
  {
  }

  // ---------------------------------------------------------------- references

  /** The string r points to ends before lo. */
  ghost predicate RefBefore(m: seq<char>, r: Ref, lo: nat) {
    lo <= |m| && (r.InBuf? ==> r.at <= |m| && NulFrom(m, r.at) < lo)
  }

  ghost predicate RefsBefore(m: seq<char>, t: Transport, lo: nat) {
    RefBefore(m, t.mode, lo) && RefBefore(m, t.transport, lo)
  }

  /** Cuts from lo on do not change what such a slot means. */
  lemma ResolveKept(m: seq<char>, m': seq<char>, lo: nat, hi: nat, t: Transport)
    requires OnlyCuts(m, m', lo, hi) && RefsBefore(m, t, lo)
    ensures Resolve(m', t) == Resolve(m, t) && RefsBefore(m', t, lo)
  {
    RefKept(m, m', lo, hi, t.mode);
    RefKept(m, m', lo, hi, t.transport);
  }

  lemma RefKept(m: seq<char>, m': seq<char>, lo: nat, hi: nat, r: Ref)
    requires OnlyCuts(m, m', lo, hi) && RefBefore(m, r, lo)
    ensures ResolveRef(m', r) == ResolveRef(m, r) && RefBefore(m', r, lo)
  {
    if r.InBuf? {
      var e := NulFrom(m, r.at);
      assert forall k :: r.at <= k <= e ==> m'[k] == m[k];
      NulFromIs(m', r.at, e);
      assert m'[r.at..e] == m[r.at..e];
    }
  }

  // ---------------------------------------------------------------- one spec

  lemma ModeString(m: seq<char>, p: nat, text: string)
    requires StringAt(m, p, "mode=" + text) && Plain(text)
    ensures p + 5 <= |m| && NulFrom(m, p + 5) == p + 5 + |text| && CStr(m, p + 5) == text
  {
    AtConcat(m, p, "mode=", text);
    StringAtEnd(m, p + 5, text);
  }

  lemma ApplyWithRefs(t: Transport, o: Opt, mode: Ref, lower: Ref)
    requires !o.OMode?
    ensures WithRefs(Apply(t, o), mode, lower) == Apply(WithRefs(t, mode, lower), o)
    ensures Apply(t, o).mode == t.mode && Apply(t, o).transport == t.transport
  {
    hide Spoiled;
    match o
    case ORange(f, a, b) =>
      SetRangeWithRefs(t, f, Pair(a, b), mode, lower);
    case ORaw(s) =>
      SpoiledWithRefs(t, s, mode, lower);
    case _ =>
  }

  lemma SpoiledWithRefs(t: Transport, s: string, mode: Ref, lower: Ref)
    ensures WithRefs(Spoiled(t, s), mode, lower) == Spoiled(WithRefs(t, mode, lower), s)
    ensures Spoiled(t, s).mode == t.mode && Spoiled(t, s).transport == t.transport
  {
    hide HasPrefix, Number, ParseAddr;
    var u := WithRefs(t, mode, lower);
    if HasPrefix(s, "client_port=") {
    } else if HasPrefix(s, "server_port=") {
    } else if HasPrefix(s, "interleaved=") {
    } else if HasPrefix(s, "port=") {
    } else if HasPrefix(s, "src_addr=") {
    } else if HasPrefix(s, "dest_addr=") {
    }
  }

  lemma SetRangeWithRefs(t: Transport, f: RangeField, p: Pair, mode: Ref, lower: Ref)
    ensures WithRefs(SetRange(t, f, p), mode, lower) == SetRange(WithRefs(t, mode, lower), f, p)
  {
    match f
    case ClientPort =>
    case ServerPort =>
    case Interleaved =>
    case Port =>
  }

  lemma ApplyResolve(m: seq<char>, t: Transport, o: Opt)
    requires !o.OMode?
    ensures Resolve(m, Apply(t, o)) == Apply(Resolve(m, t), o)
    ensures Apply(t, o).mode == t.mode && Apply(t, o).transport == t.transport
  {
    ApplyWithRefs(t, o, ResolveRef(m, t.mode), ResolveRef(m, t.transport));
  }

  /** The option text stands alone in n: parsing it adds its meaning to the slot. */
  lemma OptionMeaning(n: seq<char>, p: nat, o: Opt, t: Transport) returns (t': Transport)
    requires ValidOpt(o) && StringAt(n, p, PrintOpt(o)) && RefsBefore(n, t, p)
    ensures ParseOption(t, PrintOpt(o), p) == Parsed(t', !o.ORaw?)
    ensures Resolve(n, t') == Apply(Resolve(n, t), o) && RefsBefore(n, t', p + |PrintOpt(o)| + 1)
  {
    hide ParseOption, Understood, Spoiled;
    if o.ORaw? {
      OptionFails(t, o.text, p);
    } else {
      OptionRoundTrip(t, o, p);
    }
    t' := ParseOption(t, PrintOpt(o), p).t;
    if o.OMode? {
      ModeString(n, p, o.text);
    } else {
      ApplyResolve(n, t, o);
    }
  }

  lemma CutToken(m: seq<char>, p: nat, text: string, d: char, rest: string) returns (n: seq<char>)
    requires FreeOf(text, d) && text != "" && Cut(d)
    requires StringAt(m, p, text + [d] + rest)
    ensures StrTok(m, p, d) == Tok(n, Some(p), p + |text| + 1)
    ensures p + |text| < |m| && m[p + |text|] == d && n == m[p + |text| := NUL]
    ensures CStr(n, p) == text && StringAt(n, p, text) && StringAt(n, p + |text| + 1, rest)
  {
    var e := p + |text|;
    AtConcat(m, p, text + [d], rest);
    AtConcat(m, p, text, [d]);
    AtIndex(m, e, [d], 0);
    TokenIs(m, p, text, d);
    n := m[e := NUL];
    assert OnlyCuts(m, n, e, e + 1);
    AtKept(m, n, e, e + 1, p, text);
    AtKept(m, n, e, e + 1, e + 1, rest);
  }

  lemma LastToken(m: seq<char>, p: nat, text: string, d: char)
    requires FreeOf(text, d) && text != "" && d != NUL && StringAt(m, p, text)
    ensures StrTok(m, p, d) == Tok(m, Some(p), p + |text|) && CStr(m, p) == text
  {
    TokenIs(m, p, text, d);
  }

  lemma NoToken(m: seq<char>, p: nat, d: char)
    requires p < |m| && m[p] == NUL && d != NUL
    ensures StrTok(m, p, d) == Tok(m, None, p)
  {
    assert SkipDelim(m, p, d) == p;
  }

  /** Cutting behind the token leaves the slots filled so far as they were. */
  lemma CutTokenRefs(m: seq<char>, n: seq<char>, p: nat, e: nat, t: Transport)
    requires p <= e < |m| && n == m[e := NUL] && Cut(m[e]) && RefsBefore(m, t, p)
    ensures Resolve(n, t) == Resolve(m, t) && RefsBefore(n, t, p)
  {
    assert OnlyCuts(m, n, e, e + 1);
    assert RefsBefore(m, t, e);
    ResolveKept(m, n, e, e + 1, t);
    RefsStay(m, n, t, p);
  }

  lemma RefsStay(m: seq<char>, n: seq<char>, t: Transport, lo: nat)
    requires RefsBefore(m, t, lo) && lo <= |n| == |m| && forall k :: 0 <= k < lo ==> n[k] == m[k]
    ensures RefsBefore(n, t, lo)
  {
    if t.mode.InBuf? {
      NulFromIs(n, t.mode.at, NulFrom(m, t.mode.at));
    }
    if t.transport.InBuf? {
      NulFromIs(n, t.transport.at, NulFrom(m, t.transport.at));
    }
  }

  lemma UnfoldOptions(m: seq<char>, p: nat, t: Transport, n: seq<char>, save: nat, text: string)
    requires p <= |m| && StrTok(m, p, ';') == Tok(n, Some(p), save) && p <= |n| && CStr(n, p) == text
    ensures save <= |n|
    ensures ParseOptions(m, p, t)
         == var o := ParseOption(t, text, p); if o.ok then ParseOptions(n, save, o.t) else SpecResult(n, o.t, false)
  {
    StrTokCuts(m, p, ';');
  }

  lemma NoMoreOptions(m: seq<char>, p: nat, t: Transport)
    requires p < |m| && m[p] == NUL
    ensures ParseOptions(m, p, t) == SpecResult(m, t, true)
  {
    assert SkipDelim(m, p, ';') == p;
  }

  /** One round of the loop over the options, with more to come. */
  lemma FirstOption(m: seq<char>, p: nat, o: Opt, rest: string, t: Transport)
    returns (n: seq<char>, save: nat, t': Transport)
    requires ValidOpt(o) && StringAt(m, p, PrintOpt(o) + [';'] + rest) && RefsBefore(m, t, p)
    ensures save == p + |PrintOpt(o)| + 1 && StringAt(n, save, rest)
    ensures ParseOptions(m, p, t) == if o.ORaw? then SpecResult(n, t', false) else ParseOptions(n, save, t')
    ensures Resolve(n, t') == Apply(Resolve(m, t), o) && RefsBefore(n, t', save)
  {
    hide *;
    var text := PrintOpt(o);
    PrintOptPlain(o);
    PlainFree(text);
    n := CutToken(m, p, text, ';', rest);
    save := p + |text| + 1;
    CutTokenRefs(m, n, p, p + |text|, t);
    t' := OptionMeaning(n, p, o, t);
    UnfoldOptions(m, p, t, n, save, text);
  }

  /** The last round. */
  lemma LastOption(m: seq<char>, p: nat, o: Opt, t: Transport)
    requires ValidOpt(o) && StringAt(m, p, PrintOpt(o)) && RefsBefore(m, t, p)
    ensures var r := ParseOptions(m, p, t);
            && r.ok == !o.ORaw? && r.m == m && Resolve(r.m, r.t) == Apply(Resolve(m, t), o)
            && RefsBefore(r.m, r.t, p + |PrintOpt(o)| + 1)
  {
    hide ParseOptions, ParseOption, PrintOpt, StrTok, CStr, NulFrom, Resolve;
    var text := PrintOpt(o);
    PrintOptPlain(o);
    PlainFree(text);
    LastToken(m, p, text, ';');
    var t' := OptionMeaning(m, p, o, t);
    UnfoldOptions(m, p, t, m, p + |text|, text);
    if o.ORaw? {
      return;
    }
    NoMoreOptions(m, p + |text|, t');
  }

  /** All options of a spec, cut and parsed one after the other. */
  lemma {:induction false} ParseOptionsPrinted(m: seq<char>, p: nat, opts: seq<Opt>, t: Transport)
    requires opts != [] && ValidOpts(opts)
    requires StringAt(m, p, PrintOpts(opts)) && RefsBefore(m, t, p)
    ensures var r := ParseOptions(m, p, t);
            && r.ok == Known(opts) && Resolve(r.m, r.t) == ApplyAll(Resolve(m, t), opts)
            && RefsBefore(r.m, r.t, p + |PrintOpts(opts)| + 1)
    decreases |opts|
  {
    hide ParseOptions, PrintOpt, Apply, Resolve, RefsBefore, StringAt, Known, ValidOpt, NulFrom;
    var o, rest := opts[0], opts[1..];
    KnownStep(opts);
    assert ValidOpt(o);
    if rest == [] {
      LastOption(m, p, o, t);
    } else {
      var n, save, t' := FirstOption(m, p, o, PrintOpts(rest), t);
      if o.ORaw? {
        RefsLater(n, t', save, PrintOpts(rest));
      } else {
        ParseOptionsPrinted(n, save, rest, t');
      }
    }
  }

  lemma RefsLater(m: seq<char>, t: Transport, p: nat, s: string)
    requires RefsBefore(m, t, p) && StringAt(m, p, s)
    ensures RefsBefore(m, t, p + |s| + 1)
  {
  }

  lemma IsStringAt(m: seq<char>, p: nat, s: string)
    requires At(m, p, s) && p + |s| < |m| && m[p + |s|] == NUL
    ensures StringAt(m, p, s)
  {
  }

  lemma KnownStep(opts: seq<Opt>)
    requires opts != []
    ensures Known(opts) <==> !opts[0].ORaw? && Known(opts[1..])
    ensures |opts| == 1 ==> Known(opts[1..])
  {
    assert forall i :: 0 < i < |opts| ==> opts[i] == opts[1..][i - 1];
  }

  // ---------------------------------------------------------------- the protocol part

  lemma UnfoldProtocol(m: seq<char>, p: nat, a: Tok, b: Tok, c: Tok)
    requires p < |m| && m[p] == 'R' && a == StrTok(m, p, '/')
    requires a.save <= |a.m| && b == StrTok(a.m, a.save, '/')
    requires b.save <= |b.m| && c == StrTok(b.m, b.save, '/')
    ensures ParseProtocol(m, p) == Protocol(c.m, CStr(a.m, p) == "RTP", c.tok)
  {
  }

  lemma ProtocolStart(m: seq<char>, p: nat, tail: string)
    requires StringAt(m, p, "RTP/" + tail)
    ensures m[p] == 'R' && StringAt(m, p, "RTP" + ['/'] + tail)
  {
    AtIndex(m, p, "RTP/" + tail, 0);
    assert "RTP/" + tail == "RTP" + ['/'] + tail;
  }

  /** RTP/profile, with nothing after it. */
  lemma ShortProtocol(m: seq<char>, p: nat, profile: string)
    requires Plain(profile) && profile != "" && StringAt(m, p, "RTP/" + profile)
    ensures m[p] == 'R'
    ensures var r := ParseProtocol(m, p); r.rtp && r.lower == None
  {
    ProtocolStart(m, p, profile);
    var n := CutToken(m, p, "RTP", '/', profile);
    var e := p + 4 + |profile|;
    LastToken(n, p + 4, profile, '/');
    NoToken(n, e, '/');
    UnfoldProtocol(m, p, Tok(n, Some(p), p + 4), Tok(n, Some(p + 4), e), Tok(n, None, e));
  }

  /** RTP/profile/lower; the tail is profile, slash, lower. */
  lemma LongProtocol(m: seq<char>, p: nat, profile: string, lower: string, tail: string)
    requires Plain(profile) && profile != "" && Plain(lower) && lower != ""
    requires tail == profile + ['/'] + lower && StringAt(m, p, "RTP/" + tail)
    ensures m[p] == 'R'
    ensures var r := ParseProtocol(m, p);
            var q := p + 5 + |profile|;
            r.rtp && r.lower == Some(q) && StringAt(r.m, q, lower)
  {
    hide StrTok, ParseProtocol, At, NulFrom;
    ProtocolStart(m, p, tail);
    var n := CutToken(m, p, "RTP", '/', tail);
    var n2 := CutToken(n, p + 4, profile, '/', lower);
    var q := p + 5 + |profile|;
    LastToken(n2, q, lower, '/');
    UnfoldProtocol(m, p, Tok(n, Some(p), p + 4), Tok(n2, Some(p + 4), q), Tok(n2, Some(q), q + |lower|));
  }

  lemma ProtocolPrinted(m: seq<char>, p: nat, s: Spec)
    requires PlainSpec(s) && StringAt(m, p, PrintProtocol(s))
    ensures m[p] == 'R' && ParseProtocol(m, p).rtp
    ensures var r := ParseProtocol(m, p);
            if s.lower.None? then r.lower == None
            else r.lower.Some? && r.lower.value + |s.lower.value| == p + |PrintProtocol(s)|
                 && StringAt(r.m, r.lower.value, s.lower.value)
  {
    hide StrTok, ParseProtocol, At, NulFrom;
    if s.lower.None? {
      ShortProtocol(m, p, s.profile);
    } else {
      LongProtocol(m, p, s.profile, s.lower.value, ProtocolTail(s));
    }
  }

  lemma ProtocolFree(s: Spec)
    requires PlainSpec(s)
    ensures FreeOf(PrintProtocol(s), ';') && PrintProtocol(s) != ""
  {
    if s.lower.Some? {
      FreeConcat(s.profile, ['/'], ';');
      FreeConcat(s.profile + ['/'], s.lower.value, ';');
    }
    FreeConcat("RTP/", ProtocolTail(s), ';');
  }

  lemma FreeConcat(a: string, b: string, d: char)
    ensures FreeOf(a + b, d) <==> FreeOf(a, d) && FreeOf(b, d)
  {
    assert forall c :: c in a + b <==> c in a || c in b;
  }

  lemma HeadParsed(k: seq<char>, p: nat, s: Spec, t0: Transport) returns (n: seq<char>, t: Transport)
    requires PlainSpec(s) && StringAt(k, p, PrintProtocol(s))
    ensures k[p] == 'R' && n == ParseProtocol(k, p).m && t == Stored(ParseProtocol(k, p), t0)
    ensures OnlyCuts(k, n, p, p + |PrintProtocol(s)|)
    ensures Resolve(n, t) == Base(s, t0) && RefsBefore(n, t, p + |PrintProtocol(s)| + 1)
  {
    ProtocolFree(s);
    StringAtEnd(k, p, PrintProtocol(s));
    ProtocolPrinted(k, p, s);
    n := ParseProtocol(k, p).m;
    t := StoreProtocol(k, n, p, s, t0);
  }

  function Stored(a: Protocol, t0: Transport): Transport {
    var t1 := Defaults(t0).(rtp := t0.rtp || a.rtp);
    if a.lower.Some? then t1.(transport := InBuf(a.lower.value)) else t1
  }

  lemma UnfoldSpec(m: seq<char>, p: nat, t0: Transport, k: Tok)
    requires p < |m| && m[p] == 'R' && k == StrTok(m, p, ';') && p < |k.m| && k.m[p] == 'R' && k.save <= |k.m|
    ensures ParseSpec(m, p, t0) == ParseOptions(ParseProtocol(k.m, p).m, k.save, Stored(ParseProtocol(k.m, p), t0))
  {
  }

  lemma StoreProtocol(m: seq<char>, n: seq<char>, p: nat, s: Spec, t0: Transport) returns (t: Transport)
    requires PlainSpec(s) && StringAt(m, p, PrintProtocol(s)) && m[p] == 'R'
    requires var a := ParseProtocol(m, p);
             && n == a.m && a.rtp
             && if s.lower.None? then a.lower == None
                else a.lower.Some? && a.lower.value + |s.lower.value| == p + |PrintProtocol(s)|
                     && StringAt(n, a.lower.value, s.lower.value)
    ensures t == Stored(ParseProtocol(m, p), t0)
    ensures Resolve(n, t) == Base(s, t0) && RefsBefore(n, t, p + |PrintProtocol(s)| + 1)
  {
    t := Defaults(t0).(rtp := true);
    if s.lower.Some? {
      var q := ParseProtocol(m, p).lower.value;
      StringAtEnd(n, q, s.lower.value);
      t := t.(transport := InBuf(q));
    }
  }

  /** One printed spec, parsed where it stands, gives its meaning. */
  lemma SpecPrinted(m: seq<char>, p: nat, s: Spec, t0: Transport)
    requires PlainSpec(s) && StringAt(m, p, PrintSpec(s))
    ensures p < |m| && m[p] == 'R'
    ensures var r := ParseSpec(m, p, t0);
            r.ok == Known(s.opts) && Resolve(r.m, r.t) == Meaning(s, t0) && RefsBefore(r.m, r.t, p + |PrintSpec(s)| + 1)
  {
    if s.opts == [] {
      SpecWithoutOptions(m, p, s, t0);
    } else {
      SpecWithOptions(m, p, s, t0, PrintOpts(s.opts));
    }
  }

  lemma SpecWithoutOptions(m: seq<char>, p: nat, s: Spec, t0: Transport)
    requires PlainSpec(s) && StringAt(m, p, PrintProtocol(s))
    ensures p < |m| && m[p] == 'R'
    ensures var r := ParseSpec(m, p, t0);
            r.ok && Resolve(r.m, r.t) == Base(s, t0) && RefsBefore(r.m, r.t, p + |PrintProtocol(s)| + 1)
  {
    var head := PrintProtocol(s);
    var e := p + |head|;
    ProtocolFree(s);
    LastToken(m, p, head, ';');
    var n, t := HeadParsed(m, p, s, t0);
    UnfoldSpec(m, p, t0, Tok(m, Some(p), e));
    NoMoreOptions(n, e, t);
  }

  lemma SpecWithOptions(m: seq<char>, p: nat, s: Spec, t0: Transport, rest: string)
    requires PlainSpec(s) && s.opts != [] && ValidOpts(s.opts) && rest == PrintOpts(s.opts)
    requires StringAt(m, p, PrintProtocol(s) + [';'] + rest)
    ensures p < |m| && m[p] == 'R'
    ensures var r := ParseSpec(m, p, t0);
            && r.ok == Known(s.opts) && Resolve(r.m, r.t) == ApplyAll(Base(s, t0), s.opts)
            && RefsBefore(r.m, r.t, p + |PrintProtocol(s)| + 1 + |rest| + 1)
  {
    hide *;
    var head := PrintProtocol(s);
    var e := p + |head|;
    ProtocolFree(s);
    var k := CutToken(m, p, head, ';', rest);
    var n, t := HeadParsed(k, p, s, t0);
    assert m[p] == k[p];
    UnfoldSpec(m, p, t0, Tok(k, Some(p), e + 1));
    AtKept(k, n, p, e, e + 1, rest);
    assert n[e + 1 + |rest|] == k[e + 1 + |rest|];
    IsStringAt(n, e + 1, rest);
    ParseOptionsPrinted(n, e + 1, s.opts, t);
  }
}
