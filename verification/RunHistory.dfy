/** What a whole run of the server looks like from outside: the order of replies and packets, and the states of a
    session (Appendix A.2 of RFC 2326, with TEARDOWN ending the session). */
module RunHistory {
  import opened CStrings
  import opened RequestParsing
  import opened Delivery
  import opened Sessions
  import opened Interleaving

  // ---------------------------------------------------------------- replies come before packets

  /** The 200 to the SETUP that made c, and after it the 200 to a PLAY of c. */
  ghost predicate SetUp(log: seq<Entry>, sid: Sid, c: ClientId) {
    exists j :: 0 <= j < |log| && log[j] == Answered(sid, SETUP, E_OK, Some(c))
  }

  ghost predicate Played(log: seq<Entry>, sid: Sid, c: ClientId) {
    exists j, k :: 0 <= j < k < |log|
      && log[j] == Answered(sid, SETUP, E_OK, Some(c)) && log[k] == Answered(sid, PLAY, E_OK, Some(c))
  }

  lemma SetUpGrows(log: seq<Entry>, e: Entry, sid: Sid, c: ClientId)
    ensures SetUp(log, sid, c) ==> SetUp(log + [e], sid, c)
    ensures Played(log, sid, c) ==> Played(log + [e], sid, c)
    ensures e == Answered(sid, SETUP, E_OK, Some(c)) ==> SetUp(log + [e], sid, c)
    ensures SetUp(log, sid, c) && e == Answered(sid, PLAY, E_OK, Some(c)) ==> Played(log + [e], sid, c)
  {
    var n := log + [e];
    if SetUp(log, sid, c) {
      var j :| 0 <= j < |log| && log[j] == Answered(sid, SETUP, E_OK, Some(c));
      assert n[j] == log[j] && n[|log|] == e;
    }
    if Played(log, sid, c) {
      var j, k :| 0 <= j < k < |log|
        && log[j] == Answered(sid, SETUP, E_OK, Some(c)) && log[k] == Answered(sid, PLAY, E_OK, Some(c));
      assert n[j] == log[j] && n[k] == log[k];
    }
    assert n[|log|] == e;
  }

  /** What a session has been answered so far. */
  ghost predicate Promised(x: Sess, sid: Sid, log: seq<Entry>) {
    && (x.client.Some? ==> SetUp(log, sid, x.client.value))
    && (x.phase.Acting? || x.phase.Finishing? ==>
          && (x.phase.d.action.Create? ==> SetUp(log, sid, x.phase.made))
          && (x.phase.d.action == Start && x.client.Some? ==> Played(log, sid, x.client.value)))
  }

  ghost predicate Ordered(s: Server) {
    && (forall sid :: sid in s.sessions ==> Promised(s.sessions[sid], sid, s.log))
    && (forall c :: c in s.playing ==> c in s.owner && Played(s.log, s.owner[c], c))
    && (forall i, c :: 0 <= i < |s.log| && s.log[i].Packet? && c in s.log[i].to ==>
          exists sid :: Played(s.log[..i], sid, c))
  }

  lemma PromisedGrows(x: Sess, sid: Sid, log: seq<Entry>, e: Entry)
    requires Promised(x, sid, log)
    ensures Promised(x, sid, log + [e])
  {
    hide SetUp, Played;
    if x.client.Some? {
      SetUpGrows(log, e, sid, x.client.value);
    }
    if x.phase.Acting? || x.phase.Finishing? {
      SetUpGrows(log, e, sid, x.phase.made);
    }
  }

  /** An entry that is no packet, or a packet to what is playing, keeps the order. */
  lemma LogGrows(s: Server, e: Entry)
    requires Ordered(s) && (e.Packet? ==> e.to == s.playing)
    ensures Ordered(s.(log := s.log + [e]))
  {
    hide SetUp, Played, Promised;
    var n := s.log + [e];
    forall sid | sid in s.sessions
      ensures Promised(s.sessions[sid], sid, n)
    {
      PromisedGrows(s.sessions[sid], sid, s.log, e);
    }
    forall c | c in s.playing
      ensures Played(n, s.owner[c], c)
    {
      SetUpGrows(s.log, e, s.owner[c], c);
    }
    forall i, c | 0 <= i < |n| && n[i].Packet? && c in n[i].to
      ensures exists sid :: Played(n[..i], sid, c)
    {
      if i < |s.log| {
        assert n[..i] == s.log[..i] && n[i] == s.log[i];
      } else {
        assert n[..i] == s.log;
        assert Played(n[..i], s.owner[c], c);
      }
    }
  }

  /** Replacing one session, by one that was promised enough. */
  lemma PutOrdered(s: Server, sid: Sid, x: Sess)
    requires Ordered(s) && Promised(x, sid, s.log)
    ensures Ordered(Put(s, sid, x))
  {
    hide Promised, Played;
  }

  lemma ReceiveOrdered(s: Server, sid: Sid, d: Reaction, made: ClientId)
    requires Ordered(s) && AllCoupled(s) && sid in s.sessions && made !in s.owner
    requires Sound(s.sessions[sid].state, d)
    requires d.action != NoAction && d.result != KILL ==> d.reply.Some? && d.reply.value.code == E_OK
    ensures Ordered(Received(s, sid, d, made))
  {
    hide Promised, SetUp, Played, Sound;
    var x := s.sessions[sid];
    var y := x.(phase := Acting(d, made));
    var m := s;
    assert Promised(x, sid, s.log);
    if d.reply.Some? {
      var e := Answered(sid, d.result, d.reply.value.code, Concerned(x, d, made));
      LogGrows(s, e);
      m := s.(log := s.log + [e]);
      AnswerPromises(x, sid, s.log, d, made);
    } else {
      KillPromises(x, sid, s.log, d, made);
    }
    var o := if d.action.Create? then s.owner[made := sid] else s.owner;
    OwnerGrows(m, o);
    PutOrdered(m.(owner := o), sid, y);
  }

  lemma OwnerGrows(s: Server, o: map<ClientId, Sid>)
    requires Ordered(s) && forall c :: c in s.owner ==> c in o && o[c] == s.owner[c]
    ensures Ordered(s.(owner := o))
  {
    hide Promised, Played;
  }

  lemma AnswerPromises(x: Sess, sid: Sid, log: seq<Entry>, d: Reaction, made: ClientId)
    requires Promised(x, sid, log) && Sound(x.state, d) && d.reply.Some?
    requires d.action != NoAction && d.result != KILL ==> d.reply.value.code == E_OK
    ensures Promised(x.(phase := Acting(d, made)), sid,
                     log + [Answered(sid, d.result, d.reply.value.code, Concerned(x, d, made))])
  {
    hide SetUp, Played;
    var e := Answered(sid, d.result, d.reply.value.code, Concerned(x, d, made));
    SetUpGrows(log, e, sid, made);
    if x.client.Some? {
      SetUpGrows(log, e, sid, x.client.value);
    }
  }

  lemma KillPromises(x: Sess, sid: Sid, log: seq<Entry>, d: Reaction, made: ClientId)
    requires Promised(x, sid, log) && Sound(x.state, d) && d.reply == None
    ensures Promised(x.(phase := Acting(d, made)), sid, log)
  {
    hide SetUp, Played;
  }

  lemma DecideAnswers(s: State, req: Request)
    requires s != Dead
    ensures var d := Decide(s, req); d.action != NoAction && d.result != KILL ==> d.reply.Some? && d.reply.value.code == E_OK
  {
    hide Choose;
  }

  lemma {:induction false} RemoveSubset(p: seq<ClientId>, c: ClientId, d: ClientId)
    ensures d in RemoveFirst(p, c) ==> d in p
  {
    if p != [] && p[0] != c {
      RemoveSubset(p[1..], c, d);
    }
  }

  lemma ListAfterSubset(a: Action, p: seq<ClientId>, c: Option<ClientId>, d: ClientId)
    ensures d in ListAfter(a, p, c) ==> d in p || (a == Start && c == Some(d))
  {
    if c.Some? {
      RemoveSubset(p, c.value, d);
    }
  }

  lemma OperateOrdered(s: Server, sid: Sid)
    requires Ordered(s) && AllCoupled(s) && Enabled(s, Operate(sid))
    ensures Ordered(Next(s, Operate(sid)))
  {
    hide ListAfter, SetUp, Played;
    var x := s.sessions[sid];
    var n := Next(s, Operate(sid));
    assert Promised(x, sid, s.log) && Coupled(x, sid, s.owner);
    PutOrdered(s, sid, n.sessions[sid]);
    forall c | c in n.playing
      ensures c in n.owner && Played(n.log, n.owner[c], c)
    {
      ListAfterSubset(x.phase.d.action, s.playing, x.client, c);
    }
  }

  lemma FinishOrdered(s: Server, sid: Sid)
    requires Ordered(s) && Enabled(s, Finish(sid))
    ensures Ordered(Next(s, Finish(sid)))
  {
    hide SetUp, Played, NextState, Ordered;
    var x := s.sessions[sid];
    var y := Finished(x);
    assert Promised(x, sid, s.log) by { OrderedPromises(s, sid); }
    PutOrdered(s, sid, y);
    if y.state != x.state {
      LogGrows(Put(s, sid, y), Changed(sid, y.state));
    }
  }

  lemma OrderedPromises(s: Server, sid: Sid)
    requires Ordered(s) && sid in s.sessions
    ensures Promised(s.sessions[sid], sid, s.log)
  {
  }

  lemma TerminateOrdered(s: Server, sid: Sid)
    requires Ordered(s) && Enabled(s, Terminate(sid))
    ensures Ordered(Next(s, Terminate(sid)))
  {
    hide ListAfter, SetUp, Played;
    var x := s.sessions[sid];
    assert Promised(x, sid, s.log);
    var m := Put(s, sid, x.(phase := Gone));
    PutOrdered(s, sid, x.(phase := Gone));
    LogGrows(m, Changed(sid, Dead));
    var n := Next(s, Terminate(sid));
    forall c | c in n.playing
      ensures c in n.owner && Played(n.log, n.owner[c], c)
    {
      ListAfterSubset(Stop, s.playing, x.client, c);
    }
  }

  lemma OrderedKept(s: Server, t: Step)
    requires Ordered(s) && AllCoupled(s) && Enabled(s, t)
    ensures Ordered(Next(s, t))
  {
    hide Ordered, AllCoupled, Promised, Decide, Received;
    match t
    case Connect(sid) =>
      var m := s.(log := s.log + [Changed(sid, Init)]);
      LogGrows(s, Changed(sid, Init));
      NewPromised(sid, m.log);
      PutOrdered(m, sid, Sess(Waiting, Init, None));
    case Receive(sid, req, made) =>
      DecideSound(s.sessions[sid].state, req);
      DecideAnswers(s.sessions[sid].state, req);
      ReceiveOrdered(s, sid, Decide(s.sessions[sid].state, req), made);
    case Operate(sid) => OperateOrdered(s, sid);
    case Finish(sid) => FinishOrdered(s, sid);
    case Disconnect(sid) =>
      EndingPromised(s, sid);
      PutOrdered(s, sid, s.sessions[sid].(phase := Ending));
    case Terminate(sid) => TerminateOrdered(s, sid);
    case SendPacket => LogGrows(s, Packet(s.playing));
  }

  lemma NewPromised(sid: Sid, log: seq<Entry>)
    ensures Promised(Sess(Waiting, Init, None), sid, log)
  {
  }

  lemma EndingPromised(s: Server, sid: Sid)
    requires Ordered(s) && sid in s.sessions
    ensures Promised(s.sessions[sid].(phase := Ending), sid, s.log)
  {
    hide SetUp, Played;
    assert Promised(s.sessions[sid], sid, s.log);
  }

  lemma {:induction false} RunsAreOrdered(run: seq<Server>, steps: seq<Step>, k: nat)
    requires IsRun(run, steps) && k < |run|
    ensures Ordered(run[k])
    decreases k
  {
    hide Next, Enabled, Played, Promised;
    if k > 0 {
      RunsAreOrdered(run, steps, k - 1);
      AssertionsHold(run, steps, k - 1);
      OrderedKept(run[k - 1], steps[k - 1]);
    }
  }

  /** In every run, guarded or not: a packet reaches a client only after the 200 to the SETUP that made it and
      then the 200 to a PLAY of it have been flushed. */
  lemma RepliesComeFirst(run: seq<Server>, steps: seq<Step>, k: nat, i: nat, c: ClientId)
    requires IsRun(run, steps) && k < |run|
    requires i < |run[k].log| && run[k].log[i].Packet? && c in run[k].log[i].to
    ensures exists sid, a, b :: 0 <= a < b < i
              && run[k].log[a] == Answered(sid, SETUP, E_OK, Some(c)) && run[k].log[b] == Answered(sid, PLAY, E_OK, Some(c))
  {
    hide Next, Enabled, Promised;
    RunsAreOrdered(run, steps, k);
    var log := run[k].log;
    var sid :| Played(log[..i], sid, c);
    var a, b :| 0 <= a < b < |log[..i]| && log[..i][a] == Answered(sid, SETUP, E_OK, Some(c))
                && log[..i][b] == Answered(sid, PLAY, E_OK, Some(c));
    assert log[a] == log[..i][a] && log[b] == log[..i][b];
  }

  // ---------------------------------------------------------------- the states of a session

  /** The on_state calls of a session, in order. */
  function States(log: seq<Entry>, sid: Sid): seq<State> {
    if log == [] then []
    else
      var e := log[|log| - 1];
      States(log[..|log| - 1], sid) + (if e.Changed? && e.sid == sid then [e.state] else [])
  }

  /** The last thing that was seen of a session. */
  function Last(log: seq<Entry>, sid: Sid): Option<Entry> {
    if log == [] then None
    else
      var e := log[|log| - 1];
      if (e.Changed? || e.Answered?) && e.sid == sid then Some(e) else Last(log[..|log| - 1], sid)
  }

  predicate Move(a: State, b: State) {
    (a == Init && b == Ready) || (a == Ready && b == Play) || (a == Play && b == Ready) || b == Dead
  }

  ghost predicate Path(ss: seq<State>) {
    ss != [] && ss[0] == Init && forall i :: 0 <= i < |ss| - 1 ==> Move(ss[i], ss[i + 1])
  }

  /** A change to READY or PLAY is the first thing seen after the 200 that earned it. */
  ghost predicate Earned(log: seq<Entry>, i: nat)
    requires i < |log|
  {
    log[i].Changed? && (log[i].state == Ready || log[i].state == Play) ==>
      var e := Last(log[..i], log[i].sid);
      && e.Some? && e.value.Answered? && e.value.code == E_OK
      && (if log[i].state == Play then e.value.result == PLAY else e.value.result == SETUP || e.value.result == PAUSE)
  }

  /** The one request that takes a living session from one state to another, other than KILL. */
  function Cause(a: State, b: State): Command {
    if b == Dead then TEARDOWN else if b == Play then PLAY else if a == Init then SETUP else PAUSE
  }

  /** If this end of a request changes the state of its session, and the request was not KILL, then it is the one
      that causes this change, and the last thing seen of the session is a 200 to it. */
  ghost predicate EarnedBy200(s: Server, sid: Sid)
    requires Enabled(s, Finish(sid))
  {
    var x, y := s.sessions[sid], Finished(s.sessions[sid]);
    y.state != x.state && x.phase.d.result != KILL ==>
      && x.phase.d.result == Cause(x.state, y.state)
      && exists c :: Last(s.log, sid) == Some(Answered(sid, x.phase.d.result, E_OK, c))
  }

  ghost predicate StatesOk(x: Sess, sid: Sid, log: seq<Entry>) {
    var ss := States(log, sid);
    && Path(ss) && ss[|ss| - 1] == (if x.phase == Gone then Dead else x.state)
    && (x.phase.Acting? || x.phase.Finishing? ==>
          x.phase.d.reply.Some? ==>
            exists c :: Last(log, sid) == Some(Answered(sid, x.phase.d.result, x.phase.d.reply.value.code, c)))
  }

  ghost predicate Historic(s: Server) {
    && (forall sid :: sid in s.sessions ==> StatesOk(s.sessions[sid], sid, s.log))
    && (forall i :: 0 <= i < |s.log| ==> Earned(s.log, i))
    && (forall i :: 0 <= i < |s.log| && (s.log[i].Changed? || s.log[i].Answered?) ==> s.log[i].sid in s.sessions)
  }

  lemma LogSnoc(log: seq<Entry>, e: Entry, sid: Sid)
    ensures States(log + [e], sid) == States(log, sid) + (if e.Changed? && e.sid == sid then [e.state] else [])
    ensures Last(log + [e], sid) == if (e.Changed? || e.Answered?) && e.sid == sid then Some(e) else Last(log, sid)
  {
    assert (log + [e])[..|log|] == log;
  }

  lemma EarnedSnoc(log: seq<Entry>, e: Entry)
    requires forall i :: 0 <= i < |log| ==> Earned(log, i)
    requires Earned(log + [e], |log|)
    ensures forall i :: 0 <= i < |log + [e]| ==> Earned(log + [e], i)
  {
    hide Last;
    var n := log + [e];
    forall i | 0 <= i < |log|
      ensures Earned(n, i)
    {
      assert n[..i] == log[..i] && n[i] == log[i] && Earned(log, i);
    }
  }

  /** An entry about one session, which takes that session to x. */
  lemma EntryHistoric(s: Server, sid: Sid, x: Sess, e: Entry)
    requires Historic(s) && (e.Packet? || e.sid == sid)
    requires StatesOk(x, sid, s.log + [e]) && Earned(s.log + [e], |s.log|)
    ensures Historic(Put(s, sid, x).(log := s.log + [e]))
  {
    hide StatesOk, Earned;
    var n := s.log + [e];
    EarnedSnoc(s.log, e);
    forall k | k in s.sessions && k != sid
      ensures StatesOk(s.sessions[k], k, n)
    {
      SnocOther(s.sessions[k], k, s.log, e);
    }
    forall i | 0 <= i < |n| && (n[i].Changed? || n[i].Answered?)
      ensures n[i].sid == sid || n[i].sid in s.sessions
    {
      assert i < |s.log| ==> n[i] == s.log[i];
    }
  }

  lemma SnocOther(x: Sess, sid: Sid, log: seq<Entry>, e: Entry)
    requires StatesOk(x, sid, log) && (e.Packet? || e.sid != sid)
    ensures StatesOk(x, sid, log + [e])
  {
    hide Path, States, Last;
    LogSnoc(log, e, sid);
    assert States(log, sid) + [] == States(log, sid);
  }

  lemma PathSnoc(ss: seq<State>, b: State)
    requires Path(ss) && Move(ss[|ss| - 1], b)
    ensures Path(ss + [b])
  {
    hide Move;
    var n := ss + [b];
    forall i | 0 <= i < |n| - 1
      ensures Move(n[i], n[i + 1])
    {
      assert i < |ss| - 1 ==> n[i] == ss[i] && n[i + 1] == ss[i + 1];
    }
  }

  /** A session that changes without an entry. */
  lemma QuietHistoric(s: Server, sid: Sid, x: Sess)
    requires Historic(s) && sid in s.sessions && StatesOk(x, sid, s.log)
    ensures Historic(Put(s, sid, x))
  {
    hide StatesOk, Earned;
  }

  lemma {:induction false} NothingSeen(log: seq<Entry>, sid: Sid)
    requires forall i :: 0 <= i < |log| && (log[i].Changed? || log[i].Answered?) ==> log[i].sid != sid
    ensures States(log, sid) == []
    decreases |log|
  {
    if log != [] {
      NothingSeen(log[..|log| - 1], sid);
    }
  }

  lemma ConnectHistoric(s: Server, sid: Sid)
    requires Historic(s) && Enabled(s, Connect(sid))
    ensures Historic(Next(s, Connect(sid)))
  {
    hide Earned, States, Last;
    var e := Changed(sid, Init);
    NothingSeen(s.log, sid);
    LogSnoc(s.log, e, sid);
    assert Earned(s.log + [e], |s.log|) by { NotEarned(s.log, e); }
    EntryHistoric(s, sid, Sess(Waiting, Init, None), e);
  }

  lemma NotEarned(log: seq<Entry>, e: Entry)
    requires !(e.Changed? && (e.state == Ready || e.state == Play))
    ensures Earned(log + [e], |log|)
  {
  }

  lemma ReceiveHistoric(s: Server, sid: Sid, d: Reaction, made: ClientId)
    requires Historic(s) && sid in s.sessions && s.sessions[sid].phase == Waiting
    ensures Historic(Received(s, sid, d, made))
  {
    hide Earned, States, Last, Path;
    var x := s.sessions[sid];
    var y := x.(phase := Acting(d, made));
    assert StatesOk(x, sid, s.log);
    if d.reply == None {
      QuietHistoric(s, sid, y);
    } else {
      var e := Answered(sid, d.result, d.reply.value.code, Concerned(x, d, made));
      LogSnoc(s.log, e, sid);
      assert States(s.log, sid) + [] == States(s.log, sid);
      NotEarned(s.log, e);
      EntryHistoric(s, sid, y, e);
    }
  }

  lemma FinishHistoric(s: Server, sid: Sid)
    requires Historic(s) && AllCoupled(s) && Enabled(s, Finish(sid))
    ensures Historic(Next(s, Finish(sid)))
  {
    hide Earned, States, Last, Path, NextState, Historic;
    var x := s.sessions[sid];
    var y := Finished(x);
    assert StatesOk(x, sid, s.log) by { HistoricStates(s, sid); }
    assert Coupled(x, sid, s.owner);
    if y.state == x.state {
      QuietHistoric(s, sid, y);
    } else {
      var e := Changed(sid, y.state);
      LogSnoc(s.log, e, sid);
      FinishMoves(x, sid, s.log);
      PathSnoc(States(s.log, sid), y.state);
      EntryHistoric(s, sid, y, e);
    }
  }

  lemma HistoricStates(s: Server, sid: Sid)
    requires Historic(s) && sid in s.sessions
    ensures StatesOk(s.sessions[sid], sid, s.log)
  {
  }

  lemma FinishMoves(x: Sess, sid: Sid, log: seq<Entry>)
    requires x.phase.Finishing? && Sound(x.state, x.phase.d) && StatesOk(x, sid, log)
    requires Finished(x).state != x.state
    ensures Move(x.state, Finished(x).state) && Earned(log + [Changed(sid, Finished(x).state)], |log|)
  {
    hide Path, States, Last;
    assert (log + [Changed(sid, Finished(x).state)])[..|log|] == log;
  }

  lemma TerminateHistoric(s: Server, sid: Sid)
    requires Historic(s) && Enabled(s, Terminate(sid))
    ensures Historic(Next(s, Terminate(sid)))
  {
    hide Earned, States, Last, ListAfter, Path;
    var x := s.sessions[sid];
    var y := x.(phase := Gone);
    assert StatesOk(x, sid, s.log);
    var e := Changed(sid, Dead);
    LogSnoc(s.log, e, sid);
    PathSnoc(States(s.log, sid), Dead);
    NotEarned(s.log, e);
    EntryHistoric(s, sid, y, e);
  }

  lemma OthersHistoric(s: Server, t: Step)
    requires Historic(s) && Enabled(s, t) && (t.Operate? || t.Disconnect? || t.SendPacket?)
    ensures Historic(Next(s, t))
  {
    hide Earned, States, Last, ListAfter, Path, NextState;
    if t.SendPacket? {
      var e := Packet(s.playing);
      NotEarned(s.log, e);
      EarnedSnoc(s.log, e);
      forall k | k in s.sessions
        ensures StatesOk(s.sessions[k], k, s.log + [e])
      {
        SnocOther(s.sessions[k], k, s.log, e);
      }
    } else {
      var x := s.sessions[t.sid];
      assert StatesOk(x, t.sid, s.log);
    }
  }

  lemma HistoricKept(s: Server, t: Step)
    requires Historic(s) && AllCoupled(s) && Enabled(s, t)
    ensures Historic(Next(s, t))
  {
    hide Historic, AllCoupled, Decide, Received;
    match t
    case Connect(sid) => ConnectHistoric(s, sid);
    case Receive(sid, req, made) => ReceiveHistoric(s, sid, Decide(s.sessions[sid].state, req), made);
    case Finish(sid) => FinishHistoric(s, sid);
    case Terminate(sid) => TerminateHistoric(s, sid);
    case _ => OthersHistoric(s, t);
  }

  lemma {:induction false} RunsAreHistoric(run: seq<Server>, steps: seq<Step>, k: nat)
    requires IsRun(run, steps) && k < |run|
    ensures Historic(run[k])
    decreases k
  {
    hide Next, Enabled, StatesOk, Earned;
    if k > 0 {
      RunsAreHistoric(run, steps, k - 1);
      AssertionsHold(run, steps, k - 1);
      HistoricKept(run[k - 1], steps[k - 1]);
    }
  }

  /** What a request that was let through does to its session, once it is finished: TEARDOWN and KILL end it, SETUP
      leaves INIT, PLAY and PAUSE go to PLAY and back; every other request leaves the state. The change is reported,
      and only a change. */
  ghost predicate CarriedOut(s: Server, n: Server, sid: Sid)
    requires Enabled(s, Finish(sid)) && sid in n.sessions
  {
    var x, y := s.sessions[sid], n.sessions[sid];
    var r := x.phase.d.result;
    && (r == TEARDOWN || r == KILL ==> y.state == Dead)
    && (r == SETUP && x.state == Init ==> y.state == Ready)
    && (r == PLAY && x.state == Ready ==> y.state == Play)
    && (r == PAUSE && x.state == Play ==> y.state == Ready)
    && (y.state == x.state || r == TEARDOWN || r == KILL || (r == SETUP && x.state == Init)
        || (r == PLAY && x.state == Ready) || (r == PAUSE && x.state == Play))
    && y.phase == (if y.state == Dead then Ending else Waiting)
    && y.client == (if x.phase.d.action.Create? then Some(x.phase.made) else x.client)
    && n.log == (if y.state == x.state then s.log else s.log + [Changed(sid, y.state)])
  }

  /** In every run: a request that was answered and carried out has its effect on the state when it is finished. */
  lemma ResultsAreDone(run: seq<Server>, steps: seq<Step>, k: nat, sid: Sid)
    requires IsRun(run, steps) && k < |steps| && steps[k] == Finish(sid)
    ensures Enabled(run[k], Finish(sid)) && sid in run[k + 1].sessions && CarriedOut(run[k], run[k + 1], sid)
  {
    AssertionsHold(run, steps, k);
    assert Coupled(run[k].sessions[sid], sid, run[k].owner);
  }

  lemma FinishIsEarned(run: seq<Server>, steps: seq<Step>, i: nat)
    requires IsRun(run, steps) && i < |steps| && steps[i].Finish?
    ensures EarnedBy200(run[i], steps[i].sid)
  {
    hide Next, Earned, States, Last, Path;
    var s, sid := run[i], steps[i].sid;
    RunsAreHistoric(run, steps, i);
    AssertionsHold(run, steps, i);
    assert StatesOk(s.sessions[sid], sid, s.log) && Coupled(s.sessions[sid], sid, s.owner);
  }

  /** Only the end of a request changes the state of a session that is there. */
  lemma OnlyFinishChanges(s: Server, t: Step, sid: Sid)
    requires Enabled(s, t) && sid in s.sessions
    ensures sid in Next(s, t).sessions
    ensures Next(s, t).sessions[sid].state != s.sessions[sid].state ==> t == Finish(sid)
  {
    hide Decide, ListAfter, NextState;
  }

  /** In every run, the states of a session start at INIT, move only INIT to READY, READY to PLAY, PLAY to READY
      or anywhere to DEAD, and end at DEAD once the session is deleted. Every state change in a step before k,
      other than by KILL, directly follows a 200: to SETUP from INIT to READY, to PLAY into PLAY, to PAUSE from
      PLAY to READY, to TEARDOWN into DEAD. */
  lemma StateHistory(run: seq<Server>, steps: seq<Step>, k: nat, sid: Sid)
    requires IsRun(run, steps) && k < |run| && sid in run[k].sessions
    ensures var ss := States(run[k].log, sid);
            && Path(ss) && (run[k].sessions[sid].phase == Gone ==> ss[|ss| - 1] == Dead)
    ensures forall i :: 0 <= i < |run[k].log| ==> Earned(run[k].log, i)
    ensures forall i :: 0 <= i < k && sid in run[i].sessions ==> sid in run[i + 1].sessions
    ensures forall i :: 0 <= i < k && sid in run[i].sessions && run[i + 1].sessions[sid].state != run[i].sessions[sid].state ==>
              steps[i] == Finish(sid) && Enabled(run[i], Finish(sid)) && EarnedBy200(run[i], sid)
  {
    hide Next, Enabled, Earned, EarnedBy200, Finished;
    RunsAreHistoric(run, steps, k);
    assert StatesOk(run[k].sessions[sid], sid, run[k].log);
    forall i | 0 <= i < k && sid in run[i].sessions
      ensures sid in run[i + 1].sessions
      ensures run[i + 1].sessions[sid].state != run[i].sessions[sid].state ==>
                steps[i] == Finish(sid) && EarnedBy200(run[i], sid)
    {
      OnlyFinishChanges(run[i], steps[i], sid);
      if steps[i] == Finish(sid) {
        FinishIsEarned(run, steps, i);
      }
    }
  }
}
