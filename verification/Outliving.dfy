/** What a deleted session leaves on the playing list (src/rtsp_server.cpp, src/rtp.cpp), in every run, whatever its
    client asked for. */
module Outliving {
  import opened CStrings
  import opened HeaderParsing
  import opened RequestParsing
  import opened Delivery
  import opened Sessions
  import opened Interleaving

  // ---------------------------------------------------------------- how often a client is listed

  /** What one step does to the number of entries of c: PLAY adds one; PAUSE, SETUP, TEARDOWN, KILL and the end of
      the session that has c take one away, if there is one. */
  function Change(s: Server, t: Step, c: ClientId, n: nat): nat
    requires Enabled(s, t)
  {
    if t.Operate? && s.sessions[t.sid].client == Some(c) then
      match s.sessions[t.sid].phase.d.action
      case Start => n + 1
      case NoAction => n
      case _ => Less(n)
    else if t.Terminate? && s.sessions[t.sid].client == Some(c) then Less(n)
    else n
  }

  function Less(n: nat): nat {
    if n == 0 then 0 else n - 1
  }

  /** The changes of c up to step k, added up. The playing list is not looked at. */
  ghost function Balance(run: seq<Server>, steps: seq<Step>, k: nat, c: ClientId): nat
    requires IsRun(run, steps) && k < |run|
  {
    if k == 0 then 0 else Change(run[k - 1], steps[k - 1], c, Balance(run, steps, k - 1, c))
  }

  lemma StepCount(s: Server, t: Step, c: ClientId)
    requires Enabled(s, t)
    ensures Count(Next(s, t).playing, c) == Change(s, t, c, Count(s.playing, c))
  {
    hide Decide, NextState, RemoveFirst, Count;
    match t
    case Operate(sid) =>
      ListAfterCount(s.sessions[sid].phase.d.action, s.playing, s.sessions[sid].client, c);
    case Terminate(sid) =>
      ListAfterCount(Stop, s.playing, s.sessions[sid].client, c);
    case _ =>
  }

  lemma ListAfterCount(a: Action, p: seq<ClientId>, x: Option<ClientId>, c: ClientId)
    ensures Count(ListAfter(a, p, x), c)
         == if x != Some(c) || a == NoAction then Count(p, c) else if a == Start then Count(p, c) + 1 else Less(Count(p, c))
  {
    hide RemoveFirst;
    if x.Some? {
      CountRemove(p, x.value, c);
      assert ([x.value] + p)[1..] == p;
    }
  }

  /** In every run, the number of entries of a client is what its session's requests add up to. */
  lemma {:induction false} CountIsBalance(run: seq<Server>, steps: seq<Step>, k: nat, c: ClientId)
    requires IsRun(run, steps) && k < |run|
    ensures Count(run[k].playing, c) == Balance(run, steps, k, c)
    ensures c in run[k].playing <==> Balance(run, steps, k, c) > 0
    decreases k
  {
    hide Next, Enabled, Change, Count;
    CountIn(run[k].playing, c);
    if k > 0 {
      CountIsBalance(run, steps, k - 1, c);
      StepCount(run[k - 1], steps[k - 1], c);
    } else {
      NothingListed(c);
    }
  }

  lemma NothingListed(c: ClientId)
    ensures Count(START.playing, c) == 0
  {
  }

  // ---------------------------------------------------------------- what outlives a session

  predicate OwnedBy(s: Server, sid: Sid, c: ClientId) {
    c in s.owner && s.owner[c] == sid
  }

  /** terminate can take off as many entries of c: one of the current client, none of a client replaced by SETUP. */
  function Removable(s: Server, sid: Sid, c: ClientId): nat {
    if sid in s.sessions && s.sessions[sid].client == Some(c) then 1 else 0
  }

  predicate Alive(s: Server, c: ClientId) {
    c in s.owner && s.owner[c] in s.sessions && s.sessions[s.owner[c]].phase != Gone
  }

  /** Every entry of the list belongs to a session that is there. */
  ghost predicate Owned(s: Server) {
    forall c :: c in s.playing ==> c in s.owner && s.owner[c] in s.sessions
  }

  ghost predicate AllAlive(s: Server) {
    forall c :: c in s.playing ==> Alive(s, c)
  }

  /** No client of sid has more entries than terminate takes off. */
  ghost predicate Settled(s: Server, sid: Sid) {
    forall c :: OwnedBy(s, sid, c) ==> Count(s.playing, c) <= Removable(s, sid, c)
  }

  /** The end of a session: none of its clients stays listed if and only if none of them was listed more often than
      terminate takes off. */
  lemma TerminateIff(s: Server, sid: Sid)
    requires Enabled(s, Terminate(sid))
    ensures (forall c :: OwnedBy(s, sid, c) ==> c !in Next(s, Terminate(sid)).playing) <==> Settled(s, sid)
  {
    hide ListAfter, Count;
    var n := Next(s, Terminate(sid));
    forall c: ClientId
      ensures c in n.playing <==> Count(s.playing, c) > Removable(s, sid, c)
    {
      StepCount(s, Terminate(sid), c);
      CountIn(n.playing, c);
    }
  }

  lemma OperateOwned(s: Server, sid: Sid)
    requires AllCoupled(s) && Owned(s) && Enabled(s, Operate(sid))
    ensures Owned(Next(s, Operate(sid))) && (AllAlive(Next(s, Operate(sid))) <==> AllAlive(s))
  {
    hide Sound, NextState, Count, ListAfter;
    var x, n := s.sessions[sid], Next(s, Operate(sid));
    assert Coupled(x, sid, s.owner);
    forall c: ClientId
      ensures x.client != Some(c) ==> (c in n.playing <==> c in s.playing)
      ensures x.client == Some(c) ==> Alive(s, c) && Alive(n, c)
      ensures Alive(n, c) <==> Alive(s, c)
    {
      StepCount(s, Operate(sid), c);
      CountIn(n.playing, c);
      CountIn(s.playing, c);
    }
  }

  lemma TerminateOwned(s: Server, sid: Sid)
    requires AllCoupled(s) && Owned(s) && Enabled(s, Terminate(sid))
    ensures Owned(Next(s, Terminate(sid)))
    ensures AllAlive(Next(s, Terminate(sid))) <==> AllAlive(s) && Settled(s, sid)
  {
    hide Sound, Count, ListAfter, Settled;
    var x, n := s.sessions[sid], Next(s, Terminate(sid));
    TerminateIff(s, sid);
    assert Coupled(x, sid, s.owner);
    forall c: ClientId
      ensures c in n.playing ==> c in s.playing
      ensures !OwnedBy(s, sid, c) ==> (c in n.playing <==> c in s.playing) && (Alive(n, c) <==> Alive(s, c))
      ensures OwnedBy(s, sid, c) ==> Alive(s, c) && !Alive(n, c)
    {
      StepCount(s, Terminate(sid), c);
      CountIn(n.playing, c);
      CountIn(s.playing, c);
    }
  }

  /** The steps that do not touch the list. */
  lemma QuietOwned(s: Server, t: Step)
    requires AllCoupled(s) && Owned(s) && Enabled(s, t) && !t.Operate? && !t.Terminate?
    ensures Owned(Next(s, t)) && (AllAlive(Next(s, t)) <==> AllAlive(s))
  {
    hide Decide, NextState, Sound;
    var n := Next(s, t);
    assert n.playing == s.playing;
    forall c | c in s.playing
      ensures c in n.owner && n.owner[c] in n.sessions && (Alive(n, c) <==> Alive(s, c))
    {
    }
  }

  lemma StepOwned(s: Server, t: Step)
    requires AllCoupled(s) && Owned(s) && Enabled(s, t)
    ensures Owned(Next(s, t))
    ensures AllAlive(Next(s, t)) <==> AllAlive(s) && (t.Terminate? ==> Settled(s, t.sid))
  {
    hide Next, Owned, AllAlive, Settled;
    match t
    case Operate(sid) => OperateOwned(s, sid);
    case Terminate(sid) => TerminateOwned(s, sid);
    case _ => QuietOwned(s, t);
  }

  /** Step i is not the end of a session one of whose clients has been played more often than it was taken off. */
  ghost predicate EndsSettled(run: seq<Server>, steps: seq<Step>, i: nat)
    requires IsRun(run, steps) && i < |steps|
  {
    steps[i].Terminate? ==>
      forall c :: OwnedBy(run[i], steps[i].sid, c) ==> Balance(run, steps, i, c) <= Removable(run[i], steps[i].sid, c)
  }

  lemma SettledIff(run: seq<Server>, steps: seq<Step>, i: nat)
    requires IsRun(run, steps) && i < |steps|
    ensures EndsSettled(run, steps, i) <==> (steps[i].Terminate? ==> Settled(run[i], steps[i].sid))
  {
    hide Next, Enabled, Count, Balance;
    forall c: ClientId
      ensures Count(run[i].playing, c) == Balance(run, steps, i, c)
    {
      CountIsBalance(run, steps, i, c);
    }
  }

  lemma {:induction false} AliveSoFar(run: seq<Server>, steps: seq<Step>, k: nat)
    requires IsRun(run, steps) && k < |run|
    ensures Owned(run[k])
    ensures AllAlive(run[k]) <==> forall i :: 0 <= i < k ==> EndsSettled(run, steps, i)
    decreases k
  {
    hide Next, Enabled, EndsSettled, Settled, AllCoupled;
    if k > 0 {
      AliveSoFar(run, steps, k - 1);
      AssertionsHold(run, steps, k - 1);
      StepOwned(run[k - 1], steps[k - 1]);
      SettledIff(run, steps, k - 1);
    }
  }

  /** In every run, whatever the clients ask for: no entry of the list belongs to a deleted session if and only if
      every session that ended did so with its current client played at most once more than taken off, and every
      client that a SETUP had replaced not at all. */
  lemma NothingOutlivesIff(run: seq<Server>, steps: seq<Step>, k: nat)
    requires IsRun(run, steps) && k < |run|
    ensures (forall c :: c in run[k].playing ==> Alive(run[k], c)) <==> forall i :: 0 <= i < k ==> EndsSettled(run, steps, i)
  {
    hide Next, Enabled, EndsSettled, Owned;
    AliveSoFar(run, steps, k);
  }

  // ---------------------------------------------------------------- two runs

  lemma DecidePause(h: Header)
    ensures Decide(Play, Request(PAUSE, true, "", h)) == Done(PAUSE, h, Stop)
  {
  }

  lemma Removals()
    ensures RemoveFirst<ClientId>([1, 1], 1) == [1] && RemoveFirst<ClientId>([1], 2) == [1]
    ensures RemoveFirst<ClientId>([1], 1) == []
  {
    var one: seq<ClientId> := [1];
    assert one[1..] == [] && [one[0]] + RemoveFirst(one[1..], 2) == [1];
  }

  /** SETUP, PLAY, PLAY, SETUP and a broken connection: the first client stays listed though the current one never
      was. */
  lemma StaleAfterSetup(h: Header) returns (run: seq<Server>, steps: seq<Step>)
    requires |h.transport| > 0 && Usable(h.transport[0])
    ensures IsRun(run, steps) && |run| > 0
    ensures var s := run[|run| - 1];
            0 in s.sessions && s.sessions[0].phase == Gone && s.sessions[0].client == Some(2)
            && s.playing == [1] && OwnedBy(s, 0, 1)
  {
    hide Decide, Usable, IsRun, RemoveFirst;
    run, steps := PlayedTwice(h);
    DecideRequest(Play, SETUP, h);
    Removals();
    run, steps := Round(run, steps, 0, Request(SETUP, true, "", h), 2);
    assert run[|run| - 1].playing == [1] && run[|run| - 1].owner == map[1 := 0, 2 := 0];
    run, steps := Extend(run, steps, Disconnect(0));
    run, steps := Extend(run, steps, Terminate(0));
  }

  /** SETUP, PLAY, PLAY, PAUSE and a broken connection leave nothing: one entry went with PAUSE, one with the end. */
  lemma SettledAfterPause(h: Header) returns (run: seq<Server>, steps: seq<Step>)
    requires |h.transport| > 0 && Usable(h.transport[0])
    ensures IsRun(run, steps) && |run| > 0
    ensures var s := run[|run| - 1]; 0 in s.sessions && s.sessions[0].phase == Gone && s.playing == []
  {
    hide Decide, Usable, IsRun, RemoveFirst;
    run, steps := PlayedTwice(h);
    Removals();
    DecidePause(h);
    run, steps := Round(run, steps, 0, Request(PAUSE, true, "", h), 2);
    run, steps := Extend(run, steps, Disconnect(0));
    run, steps := Extend(run, steps, Terminate(0));
  }
}
