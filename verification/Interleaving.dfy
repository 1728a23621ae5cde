/** Many sessions and the audio thread over one playing list (src/rtsp_server.cpp, src/rtsp.cpp, src/rtp.cpp),
    in any interleaving of their atomic steps. */
module Interleaving {
  import opened CStrings
  import opened HeaderParsing
  import opened RequestParsing
  import opened Delivery
  import opened Rtp
  import opened Sessions

  type Sid = nat
  type ClientId = nat

  /** Where the thread of a session is: waiting in recv, after the flush of its reply, after the operation on
      the list, out of the loop, or deleted. made is the client that a SETUP is about to create. */
  datatype Phase =
    | Waiting
    | Acting(d: Reaction, made: ClientId)
    | Finishing(d: Reaction, made: ClientId)
    | Ending
    | Gone

  datatype Sess = Sess(phase: Phase, state: State, client: Option<ClientId>)

  /** What can be seen from outside. */
  datatype Entry =
    | Answered(sid: Sid, result: Command, code: int, client: Option<ClientId>)
    | Changed(sid: Sid, state: State)
    | Packet(to: seq<ClientId>)

  datatype Server = Server(sessions: map<Sid, Sess>, playing: seq<ClientId>, owner: map<ClientId, Sid>, log: seq<Entry>)

  datatype Step =
    | Connect(sid: Sid)
    | Receive(sid: Sid, req: Request, made: ClientId)
    | Operate(sid: Sid)
    | Finish(sid: Sid)
    | Disconnect(sid: Sid)
    | Terminate(sid: Sid)
    | SendPacket

  const START: Server := Server(map[], [], map[], [])

  predicate Enabled(s: Server, t: Step) {
    match t
    case Connect(sid) => sid !in s.sessions
    case Receive(sid, _, made) =>
      sid in s.sessions && s.sessions[sid].phase == Waiting && s.sessions[sid].state != Dead && made !in s.owner
    case Operate(sid) => sid in s.sessions && s.sessions[sid].phase.Acting?
    case Finish(sid) => sid in s.sessions && s.sessions[sid].phase.Finishing?
    case Disconnect(sid) => sid in s.sessions && s.sessions[sid].phase == Waiting
    case Terminate(sid) => sid in s.sessions && s.sessions[sid].phase == Ending
    case SendPacket => true
  }

  function Put(s: Server, sid: Sid, x: Sess): Server {
    s.(sessions := s.sessions[sid := x])
  }

  /** The client a reply is about: the one to be created, or the current one. */
  function Concerned(x: Sess, d: Reaction, made: ClientId): Option<ClientId> {
    if d.action.Create? then Some(made) else x.client
  }

  /** The request is decided and its reply flushed. */
  function Received(s: Server, sid: Sid, d: Reaction, made: ClientId): Server
    requires sid in s.sessions
  {
    var x := s.sessions[sid];
    var log := if d.reply == None then s.log
               else s.log + [Answered(sid, d.result, d.reply.value.code, Concerned(x, d, made))];
    Put(s, sid, x.(phase := Acting(d, made)))
      .(log := log, owner := if d.action.Create? then s.owner[made := sid] else s.owner)
  }

  /** The handler's client and the session's state change; a dead session leaves the loop. */
  function Finished(x: Sess): Sess
    requires x.phase.Finishing?
  {
    var d := x.phase.d;
    var state := NextState(x.state, d.result);
    Sess(if state == Dead then Ending else Waiting, state,
         if d.action.Create? then Some(x.phase.made) else x.client)
  }

  function Next(s: Server, t: Step): Server
    requires Enabled(s, t)
  {
    match t
    case Connect(sid) => Put(s, sid, Sess(Waiting, Init, None)).(log := s.log + [Changed(sid, Init)])
    case Receive(sid, req, made) => Received(s, sid, Decide(s.sessions[sid].state, req), made)
    case Operate(sid) =>
      var x := s.sessions[sid];
      Put(s, sid, x.(phase := Finishing(x.phase.d, x.phase.made)))
        .(playing := ListAfter(x.phase.d.action, s.playing, x.client))
    case Finish(sid) =>
      var x := s.sessions[sid];
      var y := Finished(x);
      Put(s, sid, y).(log := if y.state == x.state then s.log else s.log + [Changed(sid, y.state)])
    case Disconnect(sid) => Put(s, sid, s.sessions[sid].(phase := Ending))
    case Terminate(sid) =>
      var x := s.sessions[sid];
      Put(s, sid, x.(phase := Gone))
        .(playing := ListAfter(Stop, s.playing, x.client), log := s.log + [Changed(sid, Dead)])
    case SendPacket => s.(log := s.log + [Packet(s.playing)])
  }

  predicate Listed(s: Server, sid: Sid) {
    sid in s.sessions && s.sessions[sid].client.Some? && s.sessions[sid].client.value in s.playing
  }

  /** play pushes a client that is not listed yet. */
  predicate PlaysOnce(s: Server, t: Step)
    requires Enabled(s, t)
  {
    t.Operate? && s.sessions[t.sid].phase.d.action == Start ==> !Listed(s, t.sid)
  }

  ghost predicate IsRun(run: seq<Server>, steps: seq<Step>) {
    && |run| == |steps| + 1 && run[0] == START
    && forall i :: 0 <= i < |steps| ==> Enabled(run[i], steps[i]) && run[i + 1] == Next(run[i], steps[i])
  }

  // ---------------------------------------------------------------- sessions and clients, in every run

  /** What a reaction can be in a given state. */
  predicate Sound(s: State, d: Reaction) {
    && (d.action.Create? <==> d.result == SETUP) && (d.action.Start? <==> d.result == PLAY)
    && (d.action.Stop? <==> d.result == PAUSE || d.result == TEARDOWN || d.result == KILL)
    && (d.reply == None <==> d.result == KILL)
    && (d.reply.Some? && d.reply.value.code != E_OK ==> d.result == UNKNOWN)
    && (s == Init ==> d.result != PLAY && d.result != PAUSE && d.result != TEARDOWN)
  }

  lemma DecideSound(s: State, req: Request)
    requires s != Dead
    ensures Sound(s, Decide(s, req))
  {
    hide Answer;
    if req.Request? && req.cmd in Allowable(s) {
      AnswerSound(s, req.cmd, req.header);
    }
  }

  lemma AnswerSound(s: State, cmd: Command, h: Header)
    requires s != Dead && cmd in Allowable(s)
    ensures Sound(s, Answer(cmd, h))
  {
    hide Choose;
  }

  /** The session's client belongs to it, and there is one exactly from the first SETUP on. */
  ghost predicate Coupled(x: Sess, sid: Sid, owner: map<ClientId, Sid>) {
    && (x.client.Some? ==> x.client.value in owner && owner[x.client.value] == sid)
    && (x.state == Init ==> x.client == None) && (x.state == Ready || x.state == Play ==> x.client.Some?)
    && (x.phase == Waiting ==> x.state != Dead)
    && (x.phase.Acting? || x.phase.Finishing? ==>
          && x.state != Dead && Sound(x.state, x.phase.d)
          && (x.phase.d.action.Create? ==>
                x.phase.made in owner && owner[x.phase.made] == sid && x.client != Some(x.phase.made)))
  }

  ghost predicate AllCoupled(s: Server) {
    forall sid :: sid in s.sessions ==> Coupled(s.sessions[sid], sid, s.owner)
  }

  lemma CoupledKept(s: Server, t: Step)
    requires AllCoupled(s) && Enabled(s, t)
    ensures AllCoupled(Next(s, t))
  {
    hide Decide, ListAfter, Sound;
    var n := Next(s, t);
    if t.Receive? {
      DecideSound(s.sessions[t.sid].state, t.req);
    }
    if t.Finish? {
      FinishCoupled(s.sessions[t.sid], t.sid, s.owner);
    }
    forall sid | sid in n.sessions
      ensures Coupled(n.sessions[sid], sid, n.owner)
    {
      assert sid in s.sessions ==> Coupled(s.sessions[sid], sid, s.owner);
    }
  }

  lemma FinishCoupled(x: Sess, sid: Sid, owner: map<ClientId, Sid>)
    requires x.phase.Finishing? && Coupled(x, sid, owner)
    ensures Coupled(Finished(x), sid, owner)
  {
  }

  // ---------------------------------------------------------------- the playing list, under the guard

  lemma {:induction false} RemoveIsExact(p: seq<ClientId>, c: ClientId)
    requires NoDuplicates(p)
    ensures NoDuplicates(RemoveFirst(p, c)) && c !in RemoveFirst(p, c)
    ensures forall d :: d != c ==> (d in RemoveFirst(p, c) <==> d in p)
    decreases |p|
  {
    if p != [] {
      var t := p[1..];
      assert p == [p[0]] + t;
      assert forall i, j :: 0 <= i < j < |t| ==> t[i] == p[i + 1] && t[j] == p[j + 1];
      assert p[0] !in t;
      if p[0] != c {
        RemoveIsExact(t, c);
        Prepended(RemoveFirst(t, c), p[0]);
      }
    }
  }

  lemma Prepended(p: seq<ClientId>, c: ClientId)
    requires NoDuplicates(p) && c !in p
    ensures NoDuplicates([c] + p) && forall d :: d in [c] + p <==> d == c || d in p
  {
    var q := [c] + p;
    forall i, j | 0 <= i < j < |q|
      ensures q[i] != q[j]
    {
      assert q[j] == p[j - 1] && (i > 0 ==> q[i] == p[i - 1]);
    }
  }

  /** Where the session's client may be listed: while the session is in PLAY, and from the moment its PLAY has
      pushed it; never once it has been taken off. */
  ghost predicate InStep(x: Sess, playing: seq<ClientId>) {
    var listed := x.client.Some? && x.client.value in playing;
    match x.phase
    case Finishing(d, _) =>
      if d.action == Start then listed
      else if d.action == NoAction then listed ==> x.state == Play
      else !listed
    case Gone => !listed
    case _ => listed ==> x.state == Play
  }

  /** An entry of the list is the current client of its owner. */
  ghost predicate Current(s: Server, c: ClientId) {
    c in s.owner && s.owner[c] in s.sessions && s.sessions[s.owner[c]].client == Some(c)
  }

  ghost predicate ListOk(s: Server) {
    && NoDuplicates(s.playing) && (forall c :: c in s.playing ==> Current(s, c))
    && forall sid :: sid in s.sessions ==> InStep(s.sessions[sid], s.playing)
  }

  /** The list operations concern the client of their own session only. */
  lemma ListAfterIsExact(a: Action, p: seq<ClientId>, c: Option<ClientId>)
    requires NoDuplicates(p) && (a == Start && c.Some? ==> c.value !in p)
    ensures var q := ListAfter(a, p, c);
            && NoDuplicates(q) && (forall d :: Some(d) != c ==> (d in q <==> d in p))
            && (c.Some? ==> (c.value in q <==> a == Start || (a == NoAction && c.value in p)))
  {
    hide RemoveFirst;
    if c.Some? {
      RemoveIsExact(p, c.value);
      if a == Start {
        Prepended(p, c.value);
      }
    }
  }

  lemma OperateKeeps(s: Server, sid: Sid)
    requires AllCoupled(s) && ListOk(s) && Enabled(s, Operate(sid)) && PlaysOnce(s, Operate(sid))
    ensures ListOk(Next(s, Operate(sid)))
  {
    hide ListAfter, Sound, NextState;
    var x, n := s.sessions[sid], Next(s, Operate(sid));
    assert Coupled(x, sid, s.owner);
    ListAfterIsExact(x.phase.d.action, s.playing, x.client);
    SoundPlays(x);
    if x.client == None {
      NoClientNoChange(x.phase.d.action, s.playing);
    }
    OthersInStep(s, n, sid);
  }

  lemma SoundPlays(x: Sess)
    requires x.phase.Acting? && Sound(x.state, x.phase.d) && x.state != Dead
    requires x.state == Ready || x.state == Play ==> x.client.Some?
    ensures x.phase.d.action == Start ==> x.client.Some?
  {
  }

  /** Sessions other than sid see no change of the list that concerns them. */
  lemma OthersInStep(s: Server, n: Server, sid: Sid)
    requires AllCoupled(s) && ListOk(s) && sid in s.sessions && sid in n.sessions
    requires n.sessions == s.sessions[sid := n.sessions[sid]] && n.owner == s.owner && n.sessions[sid].client == s.sessions[sid].client
    requires forall d :: Some(d) != s.sessions[sid].client ==> (d in n.playing <==> d in s.playing)
    requires InStep(n.sessions[sid], n.playing) && NoDuplicates(n.playing)
    requires s.sessions[sid].client == None ==> n.playing == s.playing
    ensures ListOk(n)
  {
    var c := s.sessions[sid].client;
    assert Coupled(s.sessions[sid], sid, s.owner);
    forall k | k in n.sessions
      ensures InStep(n.sessions[k], n.playing)
    {
      if k != sid {
        assert Coupled(s.sessions[k], k, s.owner);
        assert InStep(s.sessions[k], s.playing);
      }
    }
    forall d | d in n.playing
      ensures Current(n, d)
    {
      if Some(d) != c {
        assert Current(s, d);
      }
    }
  }

  lemma TerminateKeeps(s: Server, sid: Sid)
    requires AllCoupled(s) && ListOk(s) && Enabled(s, Terminate(sid))
    ensures ListOk(Next(s, Terminate(sid)))
  {
    hide ListAfter;
    var x, n := s.sessions[sid], Next(s, Terminate(sid));
    ListAfterIsExact(Stop, s.playing, x.client);
    if x.client == None {
      NoClientNoChange(Stop, s.playing);
    }
    OthersInStep(s, n, sid);
  }

  lemma NoClientNoChange(a: Action, p: seq<ClientId>)
    ensures ListAfter(a, p, None) == p
  {
  }

  lemma FinishKeeps(s: Server, sid: Sid)
    requires AllCoupled(s) && ListOk(s) && Enabled(s, Finish(sid))
    ensures ListOk(Next(s, Finish(sid)))
  {
    var x, n := s.sessions[sid], Next(s, Finish(sid));
    assert Coupled(x, sid, s.owner) && InStep(x, s.playing);
    var made := x.phase.made;
    assert x.phase.d.action.Create? ==> made !in s.playing by {
      if made in s.playing {
        assert Current(s, made);
      }
    }
    assert InStep(Finished(x), s.playing);
    forall k | k in n.sessions
      ensures InStep(n.sessions[k], n.playing)
    {
      assert InStep(s.sessions[k], s.playing);
    }
    forall d | d in n.playing
      ensures Current(n, d)
    {
      assert Current(s, d);
    }
  }

  lemma QuietKeeps(s: Server, t: Step)
    requires AllCoupled(s) && ListOk(s) && Enabled(s, t) && !t.Operate? && !t.Finish? && !t.Terminate?
    ensures ListOk(Next(s, t))
  {
    hide Decide;
    var n := Next(s, t);
    assert n.playing == s.playing;
    forall k | k in n.sessions
      ensures InStep(n.sessions[k], n.playing)
    {
      assert k in s.sessions ==> InStep(s.sessions[k], s.playing);
    }
    forall d | d in n.playing
      ensures Current(n, d)
    {
      assert Current(s, d);
    }
  }

  lemma ListKept(s: Server, t: Step)
    requires AllCoupled(s) && ListOk(s) && Enabled(s, t) && PlaysOnce(s, t)
    ensures ListOk(Next(s, t))
  {
    hide Next, ListOk, AllCoupled;
    match t
    case Operate(sid) => OperateKeeps(s, sid);
    case Finish(sid) => FinishKeeps(s, sid);
    case Terminate(sid) => TerminateKeeps(s, sid);
    case _ => QuietKeeps(s, t);
  }

  // ---------------------------------------------------------------- whole runs

  /** In every run the assertions of play and allowable hold: a request is decided in a living session only,
      and PLAY finds a client. */
  lemma {:induction false} AssertionsHold(run: seq<Server>, steps: seq<Step>, k: nat)
    requires IsRun(run, steps) && k < |run|
    ensures AllCoupled(run[k])
    ensures forall sid :: sid in run[k].sessions ==>
              var x := run[k].sessions[sid];
              && (x.phase == Waiting ==> x.state != Dead)
              && (x.phase.Acting? && x.phase.d.action == Start ==> x.client.Some?)
    decreases k
  {
    hide Next, Enabled, Sound;
    if k > 0 {
      AssertionsHold(run, steps, k - 1);
      CoupledKept(run[k - 1], steps[k - 1]);
    }
    forall sid | sid in run[k].sessions
      ensures var x := run[k].sessions[sid];
              && (x.phase == Waiting ==> x.state != Dead)
              && (x.phase.Acting? && x.phase.d.action == Start ==> x.client.Some?)
    {
      var x := run[k].sessions[sid];
      assert Coupled(x, sid, run[k].owner);
      if x.phase.Acting? {
        SoundPlays(x);
      }
    }
  }

  ghost predicate Guarded(run: seq<Server>, steps: seq<Step>, k: nat)
    requires IsRun(run, steps) && k < |run|
  {
    forall i :: 0 <= i < k ==> PlaysOnce(run[i], steps[i])
  }

  lemma {:induction false} GuardedList(run: seq<Server>, steps: seq<Step>, k: nat)
    requires IsRun(run, steps) && k < |run| && Guarded(run, steps, k)
    ensures ListOk(run[k])
    decreases k
  {
    hide Next, Enabled;
    if k > 0 {
      GuardedList(run, steps, k - 1);
      AssertionsHold(run, steps, k - 1);
      ListKept(run[k - 1], steps[k - 1]);
    }
  }

  // ---------------------------------------------------------------- which runs keep the list in order

  /** How one step changes whether a session's client is listed. */
  lemma ListedAfter(s: Server, t: Step, sid: Sid)
    requires AllCoupled(s) && ListOk(s) && Enabled(s, t) && PlaysOnce(s, t)
    ensures Listed(Next(s, t), sid) <==>
              if t == Operate(sid) && s.sessions[sid].phase.d.action != NoAction
              then s.sessions[sid].phase.d.action == Start
              else t != Terminate(sid) && Listed(s, sid)
  {
    hide Decide, ListAfter, Sound, NextState, NoDuplicates;
    match t
    case Operate(k) => OperateListed(s, k, sid);
    case Terminate(k) => TerminateListed(s, k, sid);
    case Finish(k) => FinishListed(s, k, sid);
    case _ =>
  }

  /** Two sessions never hold one client. */
  lemma OwnClients(s: Server, a: Sid, b: Sid)
    requires AllCoupled(s) && a in s.sessions && b in s.sessions && s.sessions[a].client.Some?
    requires s.sessions[a].client == s.sessions[b].client
    ensures a == b
  {
    assert Coupled(s.sessions[a], a, s.owner) && Coupled(s.sessions[b], b, s.owner);
  }

  lemma OperateListed(s: Server, k: Sid, sid: Sid)
    requires AllCoupled(s) && ListOk(s) && Enabled(s, Operate(k)) && PlaysOnce(s, Operate(k))
    ensures Listed(Next(s, Operate(k)), sid) <==>
              if k == sid && s.sessions[sid].phase.d.action != NoAction
              then s.sessions[sid].phase.d.action == Start
              else Listed(s, sid)
  {
    hide ListAfter, Sound, NoDuplicates, NextState;
    var x := s.sessions[k];
    assert Coupled(x, k, s.owner);
    ListAfterIsExact(x.phase.d.action, s.playing, x.client);
    SoundPlays(x);
    if x.client == None {
      NoClientNoChange(x.phase.d.action, s.playing);
    } else if sid != k && sid in s.sessions && s.sessions[sid].client == x.client {
      OwnClients(s, k, sid);
      assert false;
    }
  }

  lemma TerminateListed(s: Server, k: Sid, sid: Sid)
    requires AllCoupled(s) && ListOk(s) && Enabled(s, Terminate(k))
    ensures Listed(Next(s, Terminate(k)), sid) <==> sid != k && Listed(s, sid)
  {
    hide ListAfter, NoDuplicates;
    var x := s.sessions[k];
    ListAfterIsExact(Stop, s.playing, x.client);
    if x.client == None {
      NoClientNoChange(Stop, s.playing);
    } else if sid != k && sid in s.sessions && s.sessions[sid].client == x.client {
      OwnClients(s, k, sid);
      assert false;
    }
  }

  lemma FinishListed(s: Server, k: Sid, sid: Sid)
    requires AllCoupled(s) && ListOk(s) && Enabled(s, Finish(k))
    ensures Listed(Next(s, Finish(k)), sid) <==> Listed(s, sid)
  {
    hide NoDuplicates, NextState, Sound;
    var x := s.sessions[k];
    assert Coupled(x, k, s.owner) && InStep(x, s.playing);
    assert x.phase.d.action.Create? && x.phase.made in s.playing ==> Current(s, x.phase.made);
  }

  /** Of the session's requests that were accepted so far and do something to its client (SETUP, PLAY, PAUSE,
      TEARDOWN), the last was a PLAY. */
  ghost predicate PlayedLast(run: seq<Server>, steps: seq<Step>, k: nat, sid: Sid)
    requires IsRun(run, steps) && k < |run|
    decreases k
  {
    k > 0 &&
    var t := steps[k - 1];
    if t == Operate(sid) && run[k - 1].sessions[sid].phase.d.action != NoAction
    then run[k - 1].sessions[sid].phase.d.action == Start
    else t != Terminate(sid) && PlayedLast(run, steps, k - 1, sid)
  }

  /** Step i is a PLAY with no PAUSE or SETUP since the last one. */
  ghost predicate Repeats(run: seq<Server>, steps: seq<Step>, i: nat)
    requires IsRun(run, steps) && i < |steps|
  {
    steps[i].Operate? && run[i].sessions[steps[i].sid].phase.d.action == Start && PlayedLast(run, steps, i, steps[i].sid)
  }

  lemma {:induction false} ListedIffPlayed(run: seq<Server>, steps: seq<Step>, k: nat, sid: Sid)
    requires IsRun(run, steps) && k < |run| && Guarded(run, steps, k)
    ensures Listed(run[k], sid) <==> PlayedLast(run, steps, k, sid)
    decreases k
  {
    hide Next, Enabled, PlaysOnce, Listed, ListOk, AllCoupled;
    if k > 0 {
      ListedIffPlayed(run, steps, k - 1, sid);
      GuardedList(run, steps, k - 1);
      AssertionsHold(run, steps, k - 1);
      ListedAfter(run[k - 1], steps[k - 1], sid);
    } else {
      NobodyListed(sid);
    }
  }

  lemma NobodyListed(sid: Sid)
    ensures !Listed(START, sid)
  {
  }

  lemma RepeatsIff(run: seq<Server>, steps: seq<Step>, i: nat)
    requires IsRun(run, steps) && i < |steps| && Guarded(run, steps, i)
    ensures PlaysOnce(run[i], steps[i]) <==> !Repeats(run, steps, i)
  {
    hide Next, Enabled, Listed, Guarded;
    if steps[i].Operate? {
      ListedIffPlayed(run, steps, i, steps[i].sid);
    }
  }

  lemma {:induction false} GuardedIff(run: seq<Server>, steps: seq<Step>, k: nat)
    requires IsRun(run, steps) && k < |run|
    ensures Guarded(run, steps, k) <==> forall i :: 0 <= i < k ==> !Repeats(run, steps, i)
    decreases k
  {
    hide Next, Enabled, PlaysOnce, Repeats;
    if k > 0 {
      GuardedIff(run, steps, k - 1);
      assert Guarded(run, steps, k) <==> Guarded(run, steps, k - 1) && PlaysOnce(run[k - 1], steps[k - 1]);
      if Guarded(run, steps, k - 1) {
        RepeatsIff(run, steps, k - 1);
      }
    }
  }

  /** Up to any point of a run, the list has been free of duplicates all along if and only if no session was
      made to PLAY again without a PAUSE or a SETUP in between. */
  lemma NoDuplicatesIff(run: seq<Server>, steps: seq<Step>, k: nat)
    requires IsRun(run, steps) && k < |run|
    ensures (forall i :: 0 <= i <= k ==> NoDuplicates(run[i].playing)) <==> forall i :: 0 <= i < k ==> !Repeats(run, steps, i)
  {
    hide Next, Enabled, PlaysOnce, ListOk, NoDuplicates, Repeats;
    GuardedIff(run, steps, k);
    if Guarded(run, steps, k) {
      forall i | 0 <= i <= k
        ensures NoDuplicates(run[i].playing)
      {
        GuardedList(run, steps, i);
        ListOkNoDuplicates(run[i]);
      }
    } else {
      var i :| 0 <= i < k && !PlaysOnce(run[i], steps[i]);
      SecondPush(run[i], steps[i]);
      assert !NoDuplicates(run[i + 1].playing);
    }
  }

  lemma ListOkNoDuplicates(s: Server)
    requires ListOk(s)
    ensures NoDuplicates(s.playing)
  {
  }

  lemma SecondPush(s: Server, t: Step)
    requires Enabled(s, t) && !PlaysOnce(s, t)
    ensures !NoDuplicates(Next(s, t).playing)
  {
    var c := s.sessions[t.sid].client.value;
    var k :| 0 <= k < |s.playing| && s.playing[k] == c;
    var q := Next(s, t).playing;
    assert q == [c] + s.playing;
    assert q[0] == c && q[k + 1] == c;
  }

  /** In every run without a repeated PLAY, at every moment: an entry of the list is the current client of exactly one session,
      which is not deleted and plays, or is about to enter PLAY. So while that session waits for its next
      request it is in PLAY, and nothing in the list outlives its session. */
  lemma EntriesAreAlive(run: seq<Server>, steps: seq<Step>, k: nat, c: ClientId)
    requires IsRun(run, steps) && k < |run| && c in run[k].playing
    requires forall i :: 0 <= i < k ==> !Repeats(run, steps, i)
    ensures c in run[k].owner && run[k].owner[c] in run[k].sessions
    ensures var x := run[k].sessions[run[k].owner[c]];
            && x.client == Some(c) && x.phase != Gone
            && (x.state == Play || (x.phase.Finishing? && x.phase.d.action == Start))
    ensures forall sid :: sid in run[k].sessions && run[k].sessions[sid].client == Some(c) ==> sid == run[k].owner[c]
  {
    hide Next, Enabled, Sound, Guarded, NoDuplicates, Repeats;
    GuardedIff(run, steps, k);
    GuardedList(run, steps, k);
    AssertionsHold(run, steps, k);
    var s := run[k];
    assert Current(s, c);
    var sid := s.owner[c];
    assert Coupled(s.sessions[sid], sid, s.owner) && InStep(s.sessions[sid], s.playing);
    forall other | other in s.sessions && s.sessions[other].client == Some(c)
      ensures other == sid
    {
      assert Coupled(s.sessions[other], other, s.owner);
    }
  }

  // ---------------------------------------------------------------- a run that plays twice

  lemma Extend(run: seq<Server>, steps: seq<Step>, t: Step) returns (r: seq<Server>, ts: seq<Step>)
    requires IsRun(run, steps) && Enabled(run[|run| - 1], t)
    ensures IsRun(r, ts) && |r| > 0 && r[|r| - 1] == Next(run[|run| - 1], t)
  {
    hide Next, Enabled;
    r, ts := run + [Next(run[|run| - 1], t)], steps + [t];
    forall i | 0 <= i < |ts|
      ensures Enabled(r[i], ts[i]) && r[i + 1] == Next(r[i], ts[i])
    {
      assert i < |steps| ==> ts[i] == steps[i] && r[i] == run[i] && r[i + 1] == run[i + 1];
    }
  }

  /** One request, all the way through. */
  lemma Round(run: seq<Server>, steps: seq<Step>, sid: Sid, req: Request, made: ClientId)
    returns (r: seq<Server>, ts: seq<Step>)
    requires IsRun(run, steps)
    requires var s := run[|run| - 1];
             && Enabled(s, Receive(sid, req, made))
             && NextState(s.sessions[sid].state, Decide(s.sessions[sid].state, req).result) != Dead
    ensures IsRun(r, ts) && |r| > 0
    ensures var s := run[|run| - 1];
            var x := s.sessions[sid];
            var d := Decide(x.state, req);
            var e := r[|r| - 1];
            && e.playing == ListAfter(d.action, s.playing, x.client)
            && e.owner == (if d.action.Create? then s.owner[made := sid] else s.owner)
            && e.sessions == s.sessions[sid := Sess(Waiting, NextState(x.state, d.result),
                                                    if d.action.Create? then Some(made) else x.client)]
  {
    hide Decide, ListAfter, NextState, IsRun;
    r, ts := Extend(run, steps, Receive(sid, req, made));
    r, ts := Extend(r, ts, Operate(sid));
    r, ts := Extend(r, ts, Finish(sid));
  }

  lemma DecideRequest(s: State, cmd: Command, h: Header)
    requires |h.transport| > 0 && Usable(h.transport[0]) && s != Dead
    ensures Decide(s, Request(SETUP, true, "", h)) == Done(SETUP, h, Create(h.transport[0].clientPort.first))
    ensures s != Init ==> Decide(s, Request(PLAY, true, "", h)) == Done(PLAY, h, Start)
  {
    hide Usable;
  }

  /** A SETUP and two PLAYs on one connection. */
  lemma PlayedTwice(h: Header) returns (run: seq<Server>, steps: seq<Step>)
    requires |h.transport| > 0 && Usable(h.transport[0])
    ensures IsRun(run, steps) && |run| > 0
    ensures var s := run[|run| - 1];
            s.playing == [1, 1] && s.sessions == map[0 := Sess(Waiting, Play, Some(1))] && s.owner == map[1 := 0]
  {
    hide Decide, Usable, IsRun;
    run, steps := [START], [];
    StartIsRun();
    run, steps := Extend(run, steps, Connect(0));
    DecideRequest(Init, SETUP, h);
    run, steps := Round(run, steps, 0, Request(SETUP, true, "", h), 1);
    assert run[|run| - 1].sessions == map[0 := Sess(Waiting, Ready, Some(1))] && run[|run| - 1].owner == map[1 := 0];
    DecideRequest(Ready, PLAY, h);
    run, steps := Round(run, steps, 0, Request(PLAY, true, "", h), 2);
    assert run[|run| - 1].sessions == map[0 := Sess(Waiting, Play, Some(1))];
    DecideRequest(Play, PLAY, h);
    run, steps := Round(run, steps, 0, Request(PLAY, true, "", h), 2);
  }

  /** SETUP, PLAY and PLAY again, then the connection breaks: the session is deleted, and its client is still
      listed. So the guard is needed. */
  lemma StaleRun(h: Header) returns (run: seq<Server>, steps: seq<Step>)
    requires |h.transport| > 0 && Usable(h.transport[0])
    ensures IsRun(run, steps) && |run| > 0
    ensures var s := run[|run| - 1]; 0 in s.sessions && s.sessions[0].phase == Gone && s.sessions[0].client == Some(1) && 1 in s.playing
  {
    hide Decide, Usable, IsRun;
    run, steps := PlayedTwice(h);
    run, steps := Extend(run, steps, Disconnect(0));
    run, steps := Extend(run, steps, Terminate(0));
  }

  lemma StartIsRun()
    ensures IsRun([START], [])
  {
  }
}
