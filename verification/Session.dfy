/** Session (src/rtsp.cpp) and RTSP_Handler (src/rtsp_server.cpp): what a request does, and what is answered. */
module Sessions {
  import opened CStrings
  import opened LineParsing
  import opened TransportParsing
  import opened HeaderParsing
  import opened RequestParsing
  import opened Delivery
  import opened Rtp

  datatype State = Init | Ready | Play | Dead

  const E_OK := 200
  const E_BAD_REQUEST := 400
  const E_UNSUPPORTED_MEDIA_TYPE := 415
  const E_METHOD_NOT_VALID_IN_THIS_STATE := 455
  const E_UNSUPPORTED_TRANSPORT := 461
  const E_VERSION_NOT_SUPPORTED := 505

  // ---------------------------------------------------------------- decisions

  /** The lists of Session::allowable. PLAY has the same list as READY. */
  function Allowable(s: State): seq<Command>
    requires s != Dead
  {
    if s == Init then [SETUP, OPTIONS, DESCRIBE] else [TEARDOWN, SETUP, OPTIONS, DESCRIBE, PLAY, PAUSE]
  }

  /** A transport this server can use. */
  predicate Usable(t: Transport) {
    && t.unicast && t.rtp && t.mode == Literal("PLAY") && t.transport == Literal("UDP")
    && t.clientPort.first != 0 && t.clientPort.second != 0
  }

  /** The first usable transport from i on. */
  function Choose(ts: seq<Transport>, i: nat): (k: Option<nat>)
    requires i <= |ts|
    ensures k.Some? ==> i <= k.value < |ts| && Usable(ts[k.value]) && forall j :: i <= j < k.value ==> !Usable(ts[j])
    ensures k.None? ==> forall j :: i <= j < |ts| ==> !Usable(ts[j])
    decreases |ts| - i
  {
    if i == |ts| then None else if Usable(ts[i]) then Some(i) else Choose(ts, i + 1)
  }

  datatype Reply = Reply(code: int, cseq: Option<int>)

  /** What happens to the engine after the reply has been flushed. */
  datatype Action = NoAction | Create(port: int) | Start | Stop

  /** A command without a reply counts as 200. */
  function CodeOf(r: Option<Reply>): int {
    if r == None then E_OK else r.value.code
  }

  datatype Reaction = Reaction(reply: Option<Reply>, action: Action, result: Command)

  /** The handler's answer to a command that the session let through. */
  function Answer(cmd: Command, h: Header): Reaction {
    match cmd
    case DESCRIBE =>
      if h.acceptSdp then Done(cmd, h, NoAction) else Refused(h, E_UNSUPPORTED_MEDIA_TYPE)
    case SETUP =>
      var k := Choose(h.transport, 0);
      if k == None then Refused(h, E_UNSUPPORTED_TRANSPORT)
      else Done(cmd, h, Create(h.transport[k.value].clientPort.first))
    case PLAY => Done(cmd, h, Start)
    case PAUSE => Done(cmd, h, Stop)
    case TEARDOWN => Done(cmd, h, Stop)
    case _ => Done(cmd, h, NoAction)
  }

  function Done(cmd: Command, h: Header, a: Action): Reaction {
    Reaction(Some(Reply(E_OK, Some(h.cseq))), a, cmd)
  }

  function Refused(h: Header, code: int): Reaction {
    Reaction(Some(Reply(code, Some(h.cseq))), NoAction, UNKNOWN)
  }

  /** The error a command has earned before the handler sees it; a wrong version outranks a wrong state. */
  function EarlyError(s: State, cmd: Command, rightVersion: bool): int
    requires s != Dead
  {
    if !rightVersion then E_VERSION_NOT_SUPPORTED
    else if cmd !in Allowable(s) then E_METHOD_NOT_VALID_IN_THIS_STATE
    else E_OK
  }

  function Decide(s: State, req: Request): Reaction
    requires s != Dead
  {
    match req
    case Garbled => Reaction(Some(Reply(E_BAD_REQUEST, None)), NoAction, UNKNOWN)
    case Request(cmd, rightVersion, _, h) =>
      if cmd == KILL then React(cmd, h, E_OK)
      else if cmd == UNKNOWN then Reaction(Some(Reply(E_BAD_REQUEST, None)), NoAction, UNKNOWN)
      else React(cmd, h, EarlyError(s, cmd, rightVersion))
  }

  /** The handler on a command that comes with an error code. */
  function React(cmd: Command, h: Header, code: int): Reaction {
    if cmd == KILL then Reaction(None, Stop, KILL)
    else if code != E_OK then Refused(h, code)
    else Answer(cmd, h)
  }

  /** The command is passed on to the session exactly when no error came in and none was answered. */
  lemma ReactResult(cmd: Command, h: Header, code: int)
    ensures React(cmd, h, code).result == if cmd == KILL || (code == E_OK && CodeOf(React(cmd, h, code).reply) == E_OK) then cmd else UNKNOWN
  {
    hide Choose;
  }

  /** SETUP is refused with 461 exactly when no transport of the request is usable, and then nothing changes;
      otherwise the client is made for the first usable one. */
  lemma SetupIff(s: State, h: Header)
    requires s != Dead
    ensures var d := Decide(s, Request(SETUP, true, "", h));
            && ((forall k :: 0 <= k < |h.transport| ==> !Usable(h.transport[k])) <==>
                  d.reply == Some(Reply(E_UNSUPPORTED_TRANSPORT, Some(h.cseq))))
            && (d.reply.value.code != E_OK ==> d.reply.value.code == E_UNSUPPORTED_TRANSPORT)
            && (d.reply.value.code != E_OK ==> d.action == NoAction && NextState(s, d.result) == s)
            && (d.reply.value.code == E_OK ==>
                  exists k :: 0 <= k < |h.transport| && Usable(h.transport[k])
                    && (forall j :: 0 <= j < k ==> !Usable(h.transport[j]))
                    && d.action == Create(h.transport[k].clientPort.first))
  {
    hide Usable;
    var k := Choose(h.transport, 0);
    assert k.Some? ==> Usable(h.transport[k.value]);
  }

  /** The state that process leaves, given what parse returned. */
  function NextState(s: State, result: Command): State {
    if result == KILL || result == TEARDOWN then Dead
    else if s == Init && result == SETUP then Ready
    else if s == Ready && result == PLAY then Play
    else if s == Play && result == PAUSE then Ready
    else s
  }

  /** process hides a successful TEARDOWN from its caller. */
  function Returned(result: Command): Command {
    if result == TEARDOWN then UNKNOWN else result
  }

  /** What the action does to the playing list of the engine, c being the session's client. */
  function ListAfter<C(==)>(a: Action, playing: seq<C>, c: Option<C>): seq<C> {
    if c == None then playing
    else match a
      case NoAction => playing
      case Create(_) => RemoveFirst(playing, c.value)
      case Start => [c.value] + playing
      case Stop => RemoveFirst(playing, c.value)
  }

  // ---------------------------------------------------------------- replies

  function Reason(code: int): string {
    if code == 200 then "OK"
    else if code == 400 then "Bad Request"
    else if code == 415 then "Unsupported Media Type"
    else if code == 455 then "Method Not Valid in This State"
    else if code == 461 then "Unsupported Transport"
    else "RTSP Version Not Supported"
  }

  /** The values the handler prints into its replies. */
  datatype Info = Info(sessionId: nat, ip: string, sdp: string, rtpPort: int, rtcpPort: int)

  function StatusLine(code: int): string {
    "RTSP/1.0 " + Dec(code) + " " + Reason(code) + CRLF
  }

  function CSeqLine(n: int): string {
    "CSeq: " + Dec(n) + CRLF
  }

  /** common */
  function CommonText(info: Info, cseq: int, sid: bool): string {
    StatusLine(E_OK) + CSeqLine(cseq) + (if sid then "Session: " + Dec(ToInt32(info.sessionId)) + CRLF else "")
  }

  function ErrorText(r: Reply): string {
    StatusLine(r.code) + (if r.cseq.Some? then CSeqLine(r.cseq.value) else "") + CRLF
  }

  function DoneText(info: Info, cmd: Command, cseq: int): string {
    match cmd
    case DESCRIBE =>
      CommonText(info, cseq, false) + "Content-Type: application/sdp\r\n"
      + ("Content-Length: " + Dec(|info.sdp|) + CRLF) + CRLF + info.sdp
    case OPTIONS =>
      CommonText(info, cseq, false) + "Public: OPTIONS, DESCRIBE, SETUP, PAUSE, PLAY, TEARDOWN\r\n\r\n"
    case SETUP =>
      CommonText(info, cseq, true)
      + ("Transport: RTP/AVP;unicast;server_port=" + Dec(info.rtpPort) + "-" + Dec(info.rtcpPort)
         + ";session=" + Dec(ToInt32(info.sessionId)) + CRLF) + CRLF
    case PLAY =>
      CommonText(info, cseq, true)
      + ("RTP-Info: url=rtsp://" + info.ip + "/media/trackID=0;seq=1;rtptime=0\r\n") + CRLF
    case _ => CommonText(info, cseq, true) + CRLF
  }

  function ReplyText(info: Info, result: Command, r: Reply): string {
    if r.code == E_OK && r.cseq.Some? then DoneText(info, result, r.cseq.value) else ErrorText(r)
  }

  /** Every reply starts with its status and, when there is one, the CSeq of the request. */
  lemma ReplyStarts(info: Info, result: Command, r: Reply)
    ensures StatusLine(r.code) + (if r.cseq.Some? then CSeqLine(r.cseq.value) else "") <= ReplyText(info, result, r)
  {
    hide Reason, Dec;
    if r.code == E_OK && r.cseq.Some? {
      assert StatusLine(E_OK) + CSeqLine(r.cseq.value) <= CommonText(info, r.cseq.value, false);
      assert StatusLine(E_OK) + CSeqLine(r.cseq.value) <= CommonText(info, r.cseq.value, true);
    }
  }

  // ---------------------------------------------------------------- the handler

  class Socket {
    var sent: seq<string>

    constructor ()
      ensures sent == []
    {
      sent := [];
    }

    method Send(data: string)
      modifies this
      ensures sent == old(sent) + [data]
    {
      sent := sent + [data];
    }
  }

  class RtspHandler {
    const rtp: RtpEngine
    const socket: Socket
    const info: Info
    var out: string
    var lastError: int
    var rtpClient: RtpClient?

    /** The output buffer is empty between commands, and the client may be put on the playing list. */
    ghost predicate Valid()
      reads this, rtp, rtp.Packets(), rtp.clients, rtpClient
    {
      && out == "" && rtp.Valid() && info.rtpPort == rtp.rtpPort && info.rtcpPort == rtp.rtcpPort
      && (rtpClient != null ==> rtp.Ready(rtpClient))
    }

    constructor (r: RtpEngine, s: Socket, sid: nat, ip: string, sdp: string)
      requires r.Valid()
      ensures Valid() && rtp == r && socket == s && rtpClient == null && lastError == E_OK
      ensures info == Info(sid, ip, sdp, r.rtpPort, r.rtcpPort)
    {
      rtp, socket, info := r, s, Info(sid, ip, sdp, r.rtpPort, r.rtcpPort);
      out, lastError, rtpClient := "", E_OK, null;
    }

    method Flush()
      modifies `out, socket
      ensures socket.sent == old(socket.sent) + [old(out)] && out == ""
    {
      socket.Send(out);
      out := "";
    }

    method Common(cseq: int, sid: bool)
      modifies `out
      ensures out == old(out) + CommonText(info, cseq, sid)
    {
      hide Dec, Reason;
      ghost var before := out;
      out := out + StatusLine(E_OK);
      out := out + CSeqLine(cseq);
      assert out == before + (StatusLine(E_OK) + CSeqLine(cseq));
      if sid {
        out := out + ("Session: " + Dec(ToInt32(info.sessionId)) + CRLF);
      }
    }

    method SendError(cseq: Option<int>, code: int) returns (r: int)
      requires out == ""
      modifies `out, `lastError, socket
      ensures socket.sent == old(socket.sent) + [ErrorText(Reply(code, cseq))] && out == ""
      ensures r == code == lastError
    {
      hide Dec, Reason;
      out := out + StatusLine(code);
      if cseq != None {
        out := out + CSeqLine(cseq.value);
      }
      out := out + CRLF;
      assert out == ErrorText(Reply(code, cseq));
      Flush();
      lastError := code;
      return code;
    }

    method Describe(cseq: int)
      requires out == ""
      modifies `out, socket
      ensures socket.sent == old(socket.sent) + [DoneText(info, DESCRIBE, cseq)] && out == ""
    {
      hide Dec, CommonText;
      Common(cseq, false);
      assert out == CommonText(info, cseq, false);
      out := out + "Content-Type: application/sdp\r\n";
      out := out + ("Content-Length: " + Dec(|info.sdp|) + CRLF);
      out := out + CRLF;
      out := out + info.sdp;
      Flush();
    }

    method Options(cseq: int)
      requires out == ""
      modifies `out, socket
      ensures socket.sent == old(socket.sent) + [DoneText(info, OPTIONS, cseq)] && out == ""
    {
      hide Dec, CommonText;
      Common(cseq, false);
      assert out == CommonText(info, cseq, false);
      out := out + "Public: OPTIONS, DESCRIBE, SETUP, PAUSE, PLAY, TEARDOWN\r\n\r\n";
      Flush();
    }

    /** The search for a usable transport. */
    method FindTransport(ts: seq<Transport>) returns (k: Option<nat>)
      ensures k == Choose(ts, 0)
    {
      var i := 0;
      while i < |ts|
        invariant 0 <= i <= |ts| && Choose(ts, i) == Choose(ts, 0)
      {
        if Usable(ts[i]) {
          return Some(i);
        }
        i := i + 1;
      }
      return None;
    }

    ghost function Client(): Option<RtpClient>
      reads this
    {
      if rtpClient == null then None else Some(rtpClient)
    }

    /** The engine has done what the action asks for, and the handler has a new client exactly when it was to
        create one. */
    twostate predicate Acted(a: Action)
      reads this, rtp
    {
      && rtp.playing == ListAfter(a, old(rtp.playing), old(Client()))
      && rtp.pool == old(rtp.pool) && rtp.blocks == old(rtp.blocks)
      && (if a.Create? then rtpClient != null && fresh(rtpClient) && rtpClient.port == a.port else rtpClient == old(rtpClient))
    }

    /** The last error is the last reply other than 200. */
    twostate predicate Remembered(code: int)
      reads this
    {
      lastError == if code == E_OK then old(lastError) else code
    }

    /** Exactly this was flushed. */
    twostate predicate Flushed(text: string)
      reads socket
    {
      socket.sent == old(socket.sent) + [text]
    }

    method SetupReply(cseq: int)
      requires out == ""
      modifies `out, socket
      ensures Flushed(DoneText(info, SETUP, cseq)) && out == ""
    {
      hide CommonText, Dec;
      Common(cseq, true);
      assert out == CommonText(info, cseq, true);
      out := out + ("Transport: RTP/AVP;unicast;server_port=" + Dec(info.rtpPort) + "-" + Dec(info.rtcpPort)
                    + ";session=" + Dec(ToInt32(info.sessionId)) + CRLF);
      out := out + CRLF;
      Flush();
    }

    /** The reply goes out before the old client is taken off the list and replaced. */
    method SetupClient(h: Header) returns (code: int)
      requires Valid()
      modifies this, socket, rtp
      ensures Valid()
      ensures var r := Answer(SETUP, h);
              && Acted(r.action) && code == r.reply.value.code && Remembered(code)
              && Flushed(ReplyText(info, r.result, r.reply.value))
    {
      hide DoneText, ErrorText, Choose, RtpEngine.Valid;
      assert socket !in rtp.Packets() && this !in rtp.Packets();
      var k := FindTransport(h.transport);
      if k == None {
        code := SendError(Some(h.cseq), E_UNSUPPORTED_TRANSPORT);
        return;
      }
      SetupReply(h.cseq);
      rtp.Remove(rtpClient);
      rtpClient := new RtpClient(h.transport[k.value].clientPort.first);
      code := E_OK;
    }

    method PlayReply(cseq: int)
      requires out == ""
      modifies `out, socket
      ensures Flushed(DoneText(info, PLAY, cseq)) && out == ""
    {
      hide CommonText, Dec;
      Common(cseq, true);
      assert out == CommonText(info, cseq, true);
      out := out + ("RTP-Info: url=rtsp://" + info.ip + "/media/trackID=0;seq=1;rtptime=0\r\n");
      out := out + CRLF;
      Flush();
    }

    method StopReply(cmd: Command, cseq: int)
      requires out == "" && (cmd == PAUSE || cmd == TEARDOWN)
      modifies `out, socket
      ensures Flushed(DoneText(info, cmd, cseq)) && out == ""
    {
      hide CommonText, Dec;
      Common(cseq, true);
      assert out == CommonText(info, cseq, true);
      out := out + CRLF;
      Flush();
    }

    /** The source asserts that there is a client. */
    method PlayClient(h: Header) returns (code: int)
      requires Valid() && rtpClient != null
      modifies this, socket, rtp
      ensures Valid() && code == E_OK && Acted(Start) && Remembered(code) && Flushed(DoneText(info, PLAY, h.cseq))
    {
      hide DoneText, RtpEngine.Valid;
      assert socket !in rtp.Packets() && this !in rtp.Packets();
      PlayReply(h.cseq);
      rtp.Play(rtpClient);
      code := E_OK;
    }

    /** pause and teardown. */
    method StopClient(cmd: Command, h: Header) returns (code: int)
      requires Valid() && (cmd == PAUSE || cmd == TEARDOWN)
      modifies this, socket, rtp
      ensures Valid() && code == E_OK && Acted(Stop) && Remembered(code) && Flushed(DoneText(info, cmd, h.cseq))
    {
      hide DoneText, RtpEngine.Valid;
      assert socket !in rtp.Packets() && this !in rtp.Packets();
      StopReply(cmd, h.cseq);
      rtp.Remove(rtpClient);
      code := E_OK;
    }

    method Terminate()
      requires Valid()
      modifies rtp
      ensures Valid() && Acted(Stop)
    {
      rtp.Remove(rtpClient);
    }

    /** command: the errors that came in, the one check of its own, then the command. */
    method Command(cmd: Command, h: Header, errorCode: int) returns (code: int)
      requires Valid() && cmd != UNKNOWN && (cmd == PLAY && errorCode == E_OK ==> rtpClient != null)
      requires cmd == KILL ==> errorCode == E_OK
      modifies this, socket, rtp
      ensures Valid()
      ensures var r := React(cmd, h, errorCode);
              && Acted(r.action) && code == CodeOf(r.reply) && Remembered(code)
              && (r.reply == None ==> socket.sent == old(socket.sent))
              && (r.reply != None ==> Flushed(ReplyText(info, r.result, r.reply.value)))
    {
      hide DoneText, ErrorText, Dec, Reason, Choose, RtpEngine.Valid;
      assert socket !in rtp.Packets() && this !in rtp.Packets();
      if errorCode != E_OK {
        code := SendError(Some(h.cseq), errorCode);
        return;
      }
      match cmd
      case DESCRIBE =>
        if !h.acceptSdp {
          code := SendError(Some(h.cseq), E_UNSUPPORTED_MEDIA_TYPE);
          return;
        }
        Describe(h.cseq);
        code := E_OK;
      case OPTIONS =>
        Options(h.cseq);
        code := E_OK;
      case SETUP => code := SetupClient(h);
      case PLAY => code := PlayClient(h);
      case PAUSE => code := StopClient(PAUSE, h);
      case TEARDOWN => code := StopClient(TEARDOWN, h);
      case KILL =>
        Terminate();
        code := E_OK;
    }

    /** error: a reply without headers. */
    method Error(code: int) returns (cmd: Command)
      requires Valid()
      modifies this, socket
      ensures Valid() && cmd == UNKNOWN && Acted(NoAction) && Flushed(ErrorText(Reply(code, None))) && lastError == code
    {
      hide ErrorText, RtpEngine.Valid;
      assert socket !in rtp.Packets() && this !in rtp.Packets();
      var r := SendError(None, code);
      return UNKNOWN;
    }
  }

  // ---------------------------------------------------------------- the session

  /** is_allowable */
  method IsAllowable(list: seq<Command>, cmd: Command) returns (b: bool)
    ensures b == (cmd in list)
  {
    var i := 0;
    while i < |list|
      invariant 0 <= i <= |list| && cmd !in list[..i]
    {
      if list[i] == cmd {
        return true;
      }
      i := i + 1;
    }
    return false;
  }

  class Session {
    const handler: RtspHandler
    var state: State
    var trace: seq<State>  // every call of on_state

    /** A living session: there is a client from the first SETUP on. */
    ghost predicate Valid()
      reads this, handler, handler.rtp, handler.rtp.Packets(), handler.rtp.clients, handler.rtpClient
    {
      handler.Valid() && state != Dead && (state == Init <==> handler.rtpClient == null)
    }

    constructor (h: RtspHandler)
      requires h.Valid() && h.rtpClient == null
      ensures Valid() && handler == h && state == Init && trace == [Init]
    {
      handler := h;
      state, trace := Init, [Init];
    }

    method SetState(s: State)
      modifies this
      ensures state == s && trace == old(trace) + [s]
    {
      state := s;
      trace := trace + [s];
    }

    /** The end of Parser::parse: the handler is called once. */
    method Dispatch(req: Request) returns (result: Command)
      requires Valid()
      modifies handler, handler.socket, handler.rtp
      ensures handler.Valid()
      ensures var d := Decide(state, req);
              && result == d.result && handler.Acted(d.action) && handler.Remembered(CodeOf(d.reply))
              && (d.reply == None ==> handler.socket.sent == old(handler.socket.sent))
              && (d.reply != None ==> handler.Flushed(ReplyText(handler.info, d.result, d.reply.value)))
    {
      hide DoneText, ErrorText, React;
      match req
      case Garbled =>
        result := handler.Error(E_BAD_REQUEST);
      case Request(cmd, rightVersion, uri, h) =>
        if cmd == KILL {
          var code := handler.Command(KILL, h, E_OK);
          ReactResult(KILL, h, E_OK);
          return KILL;
        }
        if cmd == UNKNOWN {
          result := handler.Error(E_BAD_REQUEST);
          return;
        }
        var code := E_OK;
        var allowed := IsAllowable(Allowable(state), cmd);
        if !allowed {
          code := E_METHOD_NOT_VALID_IN_THIS_STATE;
        }
        if !rightVersion {
          code := E_VERSION_NOT_SUPPORTED;
        }
        var done := handler.Command(cmd, h, code);
        ReactResult(cmd, h, code);
        result := if done == E_OK && code == E_OK then cmd else UNKNOWN;
    }

    /** process, on a request buffer that is no packet of the engine. */
    method Process(buf: array<char>, sz: nat) returns (cmd: Command)
      requires Valid() && sz <= buf.Length && buf !in handler.rtp.Packets() && ParseRequest(buf[..], sz).defined
      modifies this, handler, handler.socket, handler.rtp, buf
      ensures handler.Valid() && (state != Dead ==> Valid()) && buf[..] == ParseRequest(old(buf[..]), sz).m
      ensures handler.rtp.pool == old(handler.rtp.pool)
      ensures var d := Decide(old(state), ParseRequest(old(buf[..]), sz).req);
              && handler.Acted(d.action) && handler.Remembered(CodeOf(d.reply))
              && cmd == Returned(d.result) == (if d.result == TEARDOWN then UNKNOWN else d.result)
              && state == NextState(old(state), d.result)
              && (d.result == TEARDOWN || d.result == KILL ==> state == Dead)
              && (d.result == SETUP && old(state) == Init ==> state == Ready)
              && (d.result == PLAY && old(state) == Ready ==> state == Play)
              && (d.result == PAUSE && old(state) == Play ==> state == Ready)
              && (state == old(state) <==>
                    !(d.result == TEARDOWN || d.result == KILL || (d.result == SETUP && old(state) == Init)
                      || (d.result == PLAY && old(state) == Ready) || (d.result == PAUSE && old(state) == Play)))
              && trace == old(trace) + (if state == old(state) then [] else [state])
              && (d.reply == None ==> handler.socket.sent == old(handler.socket.sent))
              && (d.reply != None ==> handler.Flushed(ReplyText(handler.info, d.result, d.reply.value)))
    {
      hide ParseRequest, ReplyText, RtpEngine.Valid, Choose;
      ghost var req := ParseRequest(buf[..], sz).req;
      assert buf !in handler.rtp.Packets() && this !in handler.rtp.Packets();
      var request := ParseRequestInPlace(buf, sz);
      assert request == req;
      var result := Dispatch(request);
      assert this !in handler.rtp.Packets();
      if result == KILL {
        SetState(Dead);
        return KILL;
      }
      if result == TEARDOWN {
        SetState(Dead);
        return UNKNOWN;
      }
      match state {
        case Init => if result == SETUP { SetState(Ready); }
        case Ready => if result == PLAY { SetState(Play); }
        case Play => if result == PAUSE { SetState(Ready); }
        case Dead =>
      }
      return result;
    }
  }
}
