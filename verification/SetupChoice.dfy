/** Which transport a printed SETUP gets (src/rtsp.cpp, parse_transport; src/rtsp_server.cpp, setup), said of what the
    client printed. */
module SetupChoice {
  import opened CStrings
  import opened TransportParsing
  import opened TransportGrammar
  import opened TransportRoundTrip
  import opened HeaderParsing
  import opened RequestParsing
  import opened RequestGrammar
  import opened Sessions

  // ---------------------------------------------------------------- what a spec asks for

  /** The options that are read: up to and including the first that is not understood. */
  function ReadOpts(opts: seq<Opt>): (r: seq<Opt>)
    ensures r <= opts
    ensures forall i :: 0 <= i < |r| - 1 ==> !r[i].ORaw?
    ensures r == opts || (r != [] && r[|r| - 1].ORaw?)
    decreases |opts|
  {
    if opts == [] then []
    else if opts[0].ORaw? then [opts[0]]
    else [opts[0]] + ReadOpts(opts[1..])
  }

  /** The last of unicast and multicast is unicast. */
  predicate AsksUnicast(opts: seq<Opt>) {
    exists i :: 0 <= i < |opts| && opts[i].OUnicast? && forall j :: i < j < |opts| ==> !opts[j].OMulticast?
  }

  /** There is no mode, or the last one is PLAY. */
  predicate AsksPlay(opts: seq<Opt>) {
    || (forall i :: 0 <= i < |opts| ==> !opts[i].OMode?)
    || (exists i :: 0 <= i < |opts| && opts[i] == OMode("PLAY") && forall j :: i < j < |opts| ==> !opts[j].OMode?)
  }

  /** The ports of the last client_port range, 0 and 0 without one. A range without its '-', which ends the options,
      still gives the first. */
  function ClientPorts(opts: seq<Opt>): (int, int) {
    if opts == [] then (0, 0)
    else
      var before := opts[..|opts| - 1];
      match opts[|opts| - 1]
      case ORange(ClientPort, a, b) => (a, b)
      case ORaw(s) => if HasPrefix(s, "client_port=") then (Number(s[12..]), ClientPorts(before).1) else ClientPorts(before)
      case _ => ClientPorts(before)
  }

  /** A spec this server can serve. */
  predicate Suits(s: Spec) {
    var opts := ReadOpts(s.opts);
    && AsksUnicast(opts) && AsksPlay(opts) && (s.lower == None || s.lower == Some("UDP"))
    && ClientPorts(opts).0 != 0 && ClientPorts(opts).1 != 0
  }

  /** The client port of a spec. */
  function PortOf(s: Spec): int {
    ClientPorts(ReadOpts(s.opts)).0
  }

  // ---------------------------------------------------------------- option by option

  lemma {:induction false} ReadIsAll(t: Transport, opts: seq<Opt>)
    ensures ApplyAll(t, opts) == ApplyAll(t, ReadOpts(opts))
    decreases |opts|
  {
    hide Apply;
    if opts != [] && !opts[0].ORaw? {
      var r := ReadOpts(opts);
      assert r[1..] == ReadOpts(opts[1..]);
      ReadIsAll(Apply(t, opts[0]), opts[1..]);
    }
  }

  /** Options before the last are applied one after the other. */
  lemma {:induction false} ApplySnoc(t: Transport, opts: seq<Opt>, o: Opt)
    requires Known(opts)
    ensures ApplyAll(t, opts + [o]) == Apply(ApplyAll(t, opts), o)
    decreases |opts|
  {
    hide Apply;
    var all := opts + [o];
    if opts == [] {
      assert all[1..] == [];
    } else {
      KnownStep(opts);
      assert all[0] == opts[0] && all[1..] == opts[1..] + [o];
      ApplySnoc(Apply(t, opts[0]), opts[1..], o);
    }
  }

  lemma CastSnoc(opts: seq<Opt>, o: Opt)
    ensures AsksUnicast(opts + [o]) <==> o.OUnicast? || (!o.OMulticast? && AsksUnicast(opts))
  {
    var all, n := opts + [o], |opts|;
    assert all[n] == o && forall i :: 0 <= i < n ==> all[i] == opts[i];
    if o.OUnicast? {
      assert all[n].OUnicast?;
    } else if !o.OMulticast? && AsksUnicast(opts) {
      var i :| 0 <= i < n && opts[i].OUnicast? && forall j :: i < j < n ==> !opts[j].OMulticast?;
      assert all[i].OUnicast?;
    }
    if i :| 0 <= i <= n && all[i].OUnicast? && forall j :: i < j <= n ==> !all[j].OMulticast? {
      assert i < n ==> opts[i].OUnicast?;
      assert i < n ==> !all[n].OMulticast?;
    }
  }

  lemma ModeSnoc(opts: seq<Opt>, o: Opt)
    ensures AsksPlay(opts + [o]) <==> if o.OMode? then o.text == "PLAY" else AsksPlay(opts)
  {
    var all, n := opts + [o], |opts|;
    assert all[n] == o && forall i :: 0 <= i < n ==> all[i] == opts[i];
    if o == OMode("PLAY") {
      assert all[n] == OMode("PLAY");
    }
    if i :| 0 <= i < n && opts[i] == OMode("PLAY") && forall j :: i < j < n ==> !opts[j].OMode? {
      assert all[i] == OMode("PLAY");
    }
    if i :| 0 <= i <= n && all[i] == OMode("PLAY") && forall j :: i < j <= n ==> !all[j].OMode? {
      assert i < n ==> opts[i] == OMode("PLAY");
    }
  }

  lemma PortsSnoc(opts: seq<Opt>, o: Opt)
    ensures ClientPorts(opts + [o])
         == match o
            case ORange(ClientPort, a, b) => (a, b)
            case ORaw(s) => if HasPrefix(s, "client_port=") then (Number(s[12..]), ClientPorts(opts).1) else ClientPorts(opts)
            case _ => ClientPorts(opts)
  {
    assert (opts + [o])[..|opts|] == opts;
  }

  /** What the options have made of a slot that held the defaults. */
  ghost predicate Follows(t: Transport, t0: Transport, opts: seq<Opt>) {
    && t.unicast == AsksUnicast(opts) && (t.mode == Literal("PLAY") <==> AsksPlay(opts))
    && t.clientPort == Pair(ClientPorts(opts).0, ClientPorts(opts).1)
    && t.rtp == t0.rtp && t.transport == t0.transport
  }

  lemma FollowsSnoc(t: Transport, t0: Transport, opts: seq<Opt>, o: Opt)
    requires Follows(t, t0, opts)
    ensures Follows(Apply(t, o), t0, opts + [o])
  {
    hide AsksUnicast, AsksPlay, ClientPorts, HasPrefix, Number, ParseAddr;
    CastSnoc(opts, o);
    ModeSnoc(opts, o);
    PortsSnoc(opts, o);
    match o
    case ORange(ClientPort, a, b) =>
    case ORange(ServerPort, a, b) =>
    case ORange(Interleaved, a, b) =>
    case ORange(Port, a, b) =>
    case ORaw(s) => SpoiledFollows(t, t0, opts, s);
    case _ =>
  }

  lemma SpoiledFollows(t: Transport, t0: Transport, opts: seq<Opt>, s: string)
    requires Follows(t, t0, opts)
    ensures var u := Spoiled(t, s);
            && u.unicast == t.unicast && u.mode == t.mode && u.rtp == t.rtp && u.transport == t.transport
            && u.clientPort == if HasPrefix(s, "client_port=") then Pair(Number(s[12..]), t.clientPort.second) else t.clientPort
  {
    hide AsksUnicast, AsksPlay, ClientPorts, HasPrefix, Number, ParseAddr;
  }

  lemma {:induction false} OptionsFollow(t: Transport, opts: seq<Opt>)
    requires !t.unicast && t.mode == Literal("PLAY") && t.clientPort == Pair(0, 0)
    requires forall i :: 0 <= i < |opts| - 1 ==> !opts[i].ORaw?
    ensures Follows(ApplyAll(t, opts), t, opts)
    decreases |opts|
  {
    hide Follows, Apply;
    if opts == [] {
      NothingFollows(t);
    } else {
      var before, o := opts[..|opts| - 1], opts[|opts| - 1];
      OptionsFollow(t, before);
      ApplySnoc(t, before, o);
      FollowsSnoc(ApplyAll(t, before), t, before, o);
      assert before + [o] == opts;
    }
  }

  lemma NothingFollows(t: Transport)
    requires !t.unicast && t.mode == Literal("PLAY") && t.clientPort == Pair(0, 0)
    ensures Follows(t, t, [])
  {
  }

  /** In a fresh slot, a spec is usable exactly when it suits. */
  lemma SuitsIff(s: Spec)
    ensures Usable(Meaning(s, ZERO)) <==> Suits(s)
    ensures Meaning(s, ZERO).clientPort.first == PortOf(s)
  {
    hide AsksUnicast, AsksPlay, ClientPorts, ApplyAll, ReadOpts;
    var b := Base(s, ZERO);
    ReadIsAll(b, s.opts);
    OptionsFollow(b, ReadOpts(s.opts));
  }

  // ---------------------------------------------------------------- the request

  /** The only Transport header of a request fills the slots. */
  lemma {:induction false} TransportOf(h: Header, ls: seq<HeaderText>, k: nat)
    requires k < |ls| && ls[k].HTransport? && forall j :: 0 <= j < |ls| && j != k ==> !ls[j].HTransport?
    ensures MeanHeaders(h, ls).transport == MeanSpecs(ls[k].specs, h.transport)
    decreases |ls|
  {
    hide MeanSpecs, TakesSdp, AllKnown;
    if k > 0 {
      assert forall j :: 0 <= j < |ls| - 1 ==> ls[1..][j] == ls[j + 1];
      TransportOf(MeanHeader(h, ls[0]), ls[1..], k - 1);
    } else {
      assert forall j :: 0 <= j < |ls| - 1 ==> ls[1..][j] == ls[j + 1];
      NoTransport(MeanHeader(h, ls[0]), ls[1..]);
    }
  }

  lemma {:induction false} NoTransport(h: Header, ls: seq<HeaderText>)
    requires forall j :: 0 <= j < |ls| ==> !ls[j].HTransport?
    ensures MeanHeaders(h, ls).transport == h.transport
    decreases |ls|
  {
    hide MeanSpecs, TakesSdp;
    if ls != [] {
      NoTransport(MeanHeader(h, ls[0]), ls[1..]);
    }
  }

  lemma EmptySlot()
    ensures !Usable(ZERO)
  {
  }

  /** k is the first of the first n specs that suits, n if none does. */
  predicate FirstThatSuits(specs: seq<Spec>, n: nat, k: nat)
    requires n <= |specs|
  {
    k <= n && (k < n ==> Suits(specs[k])) && forall i :: 0 <= i < k ==> !Suits(specs[i])
  }

  lemma SlotsIff(specs: seq<Spec>, ts: seq<Transport>)
    requires |specs| <= MAX_TRANSPORTS && ts == MeanSpecs(specs, [ZERO, ZERO, ZERO])
    ensures |ts| == MAX_TRANSPORTS
    ensures forall i :: 0 <= i < Taken(specs) ==> (Usable(ts[i]) <==> Suits(specs[i])) && ts[i].clientPort.first == PortOf(specs[i])
    ensures forall i :: Taken(specs) <= i < MAX_TRANSPORTS ==> !Usable(ts[i])
  {
    hide Usable, Suits, Meaning, Taken, PortOf, MeanSpecs;
    EmptySlot();
    forall i: nat | i < MAX_TRANSPORTS
      ensures i < Taken(specs) ==> (Usable(ts[i]) <==> Suits(specs[i])) && ts[i].clientPort.first == PortOf(specs[i])
      ensures i >= Taken(specs) ==> !Usable(ts[i])
    {
      SlotIs(specs, i);
      if i < Taken(specs) {
        SuitsIff(specs[i]);
      }
    }
  }

  lemma SlotIs(specs: seq<Spec>, i: nat)
    requires i < MAX_TRANSPORTS
    ensures MeanSpecs(specs, [ZERO, ZERO, ZERO])[i] == if i < Taken(specs) then Meaning(specs[i], ZERO) else ZERO
  {
    hide Meaning, Taken;
    var ts := [ZERO, ZERO, ZERO];
    assert ts[i] == ZERO;
  }

  /** A spec with an option the server does not understand behind the others still suits. */
  lemma AppendExample() returns (s: Spec)
    ensures s == Spec("AVP", None, [OUnicast, ORange(ClientPort, 5000, 5001), ORaw("append")])
    ensures ValidSpec(s) && !Known(s.opts) && Suits(s) && PortOf(s) == 5000
  {
    hide AsksUnicast, AsksPlay, ClientPorts, ReadOpts, ValidSpec, Known;
    var a, b, c := OUnicast, ORange(ClientPort, 5000, 5001), ORaw("append");
    s := Spec("AVP", None, [a, b, c]);
    ExampleValid(s);
    ExampleRead(s.opts);
    CastSnoc([], a);
    CastSnoc([a], b);
    CastSnoc([a, b], c);
    ModeSnoc([], a);
    ModeSnoc([a], b);
    ModeSnoc([a, b], c);
    NoMode();
    PortsSnoc([a], b);
    PortsSnoc([a, b], c);
    assert [] + [a] == [a] && [a] + [b] == [a, b] && [a, b] + [c] == [a, b, c];
    assert !HasPrefix("append", "client_port=");
  }

  lemma NoMode()
    ensures AsksPlay([])
  {
  }

  lemma ExampleRead(opts: seq<Opt>)
    requires opts == [OUnicast, ORange(ClientPort, 5000, 5001), ORaw("append")]
    ensures ReadOpts(opts) == opts && !Known(opts)
  {
    assert opts[2].ORaw?;
    assert opts[1..] == [ORange(ClientPort, 5000, 5001), ORaw("append")];
    assert opts[1..][1..] == [ORaw("append")];
  }

  lemma ExampleValid(s: Spec)
    requires s == Spec("AVP", None, [OUnicast, ORange(ClientPort, 5000, 5001), ORaw("append")])
    ensures ValidSpec(s)
  {
    hide Understood;
    NotUnderstood("append");
  }

  lemma NotUnderstood(s: string)
    requires s == "append"
    ensures !Understood(s)
  {
    assert RowByStart(s) == 13;
    assert !Matches(s, Table(13));
    forall k: nat | k < ROWS && Matches(s, Table(k))
      ensures k == 13
    {
      MatchDecides(s, k);
    }
  }

  /** A printed SETUP with one Transport header, read and answered: 200 if and only if a spec suits among those that
      are read, which are all up to the first with an option that is not understood; the client is then made for the
      client port of the first that suits. Otherwise the answer is 461 and nothing changes. */
  lemma SetupAnswered(m: seq<char>, s: State, r: RequestText, k: nat) returns (first: nat)
    requires s != Dead && ValidRequest(r) && At(m, 0, PrintRequest(r)) && r.name == "SETUP" && r.version == "RTSP/1.0"
    requires k < |r.headers| && r.headers[k].HTransport?
    requires forall j :: 0 <= j < |r.headers| && j != k ==> !r.headers[j].HTransport?
    ensures FirstThatSuits(r.headers[k].specs, Taken(r.headers[k].specs), first)
    ensures var specs := r.headers[k].specs;
            var d := Decide(s, ParseRequest(m, |PrintRequest(r)|).req);
            && d.reply.Some? && d.reply.value.cseq.Some?
            && (if first < Taken(specs)
                then d.reply.value.code == 200 && d.result == SETUP && d.action == Create(PortOf(specs[first]))
                else d.reply.value.code == 461 && d.result == UNKNOWN && d.action == NoAction)
  {
    hide Usable, Suits, ParseRequest, PrintRequest, MeanHeaders, MeanSpecs, Taken, PortOf, PrintHeader, Choose, PrintLine;
    var specs, h := r.headers[k].specs, NO_HEADER.(acceptSdp := true);
    assert ValidHeader(r.headers[k]);
    RequestRoundTrip(m, r);
    TransportOf(h, r.headers, k);
    var ts := MeanSpecs(specs, [ZERO, ZERO, ZERO]);
    SlotsIff(specs, ts);
    IsSetup(r);
    var c := Choose(ts, 0);
    first := if c.Some? then c.value else Taken(specs);
  }

  lemma IsSetup(r: RequestText)
    requires r.name == "SETUP" && r.version == "RTSP/1.0"
    ensures MeanRequest(r) == Request(SETUP, true, r.uri, MeanHeaders(NO_HEADER.(acceptSdp := true), r.headers))
  {
    hide MeanHeaders;
  }

  /** Without a Transport header the answer is 461. */
  lemma SetupWithout(m: seq<char>, s: State, r: RequestText)
    requires s != Dead && ValidRequest(r) && At(m, 0, PrintRequest(r)) && r.name == "SETUP" && r.version == "RTSP/1.0"
    requires forall j :: 0 <= j < |r.headers| ==> !r.headers[j].HTransport?
    ensures var d := Decide(s, ParseRequest(m, |PrintRequest(r)|).req);
            d.reply.Some? && d.reply.value.code == 461 && d.result == UNKNOWN && d.action == NoAction
  {
    hide Usable, ParseRequest, PrintRequest, MeanHeaders, Choose, PrintLine;
    RequestRoundTrip(m, r);
    NoTransport(NO_HEADER.(acceptSdp := true), r.headers);
    EmptySlot();
    IsSetup(r);
  }
}
