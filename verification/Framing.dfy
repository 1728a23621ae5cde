/** RtspClient::run (src/rtsp_server.cpp): collecting received bytes until a blank line ends the request. */
module Framing {
  import opened CStrings
  import opened Sequences

  const BLANK: string := "\r\n\r\n"
  const LENGTH: string := "Content-Length: "

  predicate PatAt(s: string, i: nat, pat: string) {
    i + |pat| <= |s| && s[i..i + |pat|] == pat
  }

  /** strstr from i on: the first place where pat stands. */
  function StrStr(s: string, i: nat, pat: string): (r: Option<nat>)
    ensures r.Some? ==> i <= r.value && PatAt(s, r.value, pat) && forall k :: i <= k < r.value ==> !PatAt(s, k, pat)
    ensures r.None? ==> forall k :: i <= k ==> !PatAt(s, k, pat)
    decreases |s| - i
  {
    if i + |pat| > |s| then None else if PatAt(s, i, pat) then Some(i) else StrStr(s, i + 1, pat)
  }

  predicate Contains(s: string, pat: string) {
    StrStr(s, 0, pat).Some?
  }

  /** The buffer after recv has stored a chunk at idx. */
  function Received(m: seq<char>, idx: nat, chunk: string): (r: seq<char>)
    requires idx + |chunk| <= |m|
    ensures |r| == |m|
  {
    m[..idx] + chunk + m[idx + |chunk|..]
  }

  /** What the loop does before process is called: process gets the first end bytes of the buffer, of which
      received have come in for this request. */
  datatype Frame = Closed | Aborted | Framed(end: nat, received: nat)

  datatype Run = Run(m: seq<char>, frame: Frame)

  /** The loop of run, on the results of successive recv calls: an empty one closes the connection. A request
      body is not implemented. What comes in stays below the last byte of the buffer, where strstr ends. */
  function NextFrame(m: seq<char>, idx: nat, chunks: seq<string>): (r: Run)
    requires idx + |Concat(chunks)| < |m|
    ensures |r.m| == |m|
    decreases |chunks|
  {
    if chunks == [] || chunks[0] == "" then Run(m, Closed)
    else
      var n := Received(m, idx, chunks[0]);
      var s := CStr(n, 0);
      var block := StrStr(s, 0, BLANK);
      if block.None? then NextFrame(n, idx + |chunks[0]|, chunks[1..])
      else if Contains(s, LENGTH) then Run(n, Aborted)
      else Run(n, Framed(block.value + 4, idx + |chunks[0]|))
  }

  // ---------------------------------------------------------------- the class

  class RtspClient {
    const buff: array<char>
    var idx: nat

    ghost predicate Valid()
      reads this, buff
    {
      idx < buff.Length && buff[buff.Length - 1] == NUL
    }

    constructor (sz: nat)
      requires sz > 0
      ensures Valid() && fresh(buff) && idx == 0 && buff.Length == sz
      ensures forall k :: 0 <= k < sz ==> buff[k] == NUL
    {
      buff := new char[sz](_ => NUL);
      idx := 0;
    }

    /** The loop up to the call of process. The bytes of a request stay below the last one of the buffer:
        strstr has no other end there. */
    method NextRequest(chunks: seq<string>) returns (frame: Frame)
      requires Valid() && idx + |Concat(chunks)| < buff.Length
      modifies this, buff
      ensures Run(buff[..], frame) == NextFrame(old(buff[..]), old(idx), chunks)
      ensures Valid()
    {
      hide StrStr, NulFrom, Concat, CStr, Received;
      var i := 0;
      while i < |chunks|
        invariant 0 <= i <= |chunks| && Valid() && idx + |Concat(chunks[i..])| < buff.Length
        invariant NextFrame(buff[..], idx, chunks[i..]) == NextFrame(old(buff[..]), old(idx), chunks)
      {
        ConcatStep(chunks, i);
        if chunks[i] == "" {
          return Closed;
        }
        var done := Take(chunks[i]);
        if done != None {
          return done.value;
        }
        i := i + 1;
      }
      return Closed;
    }

    /** One round: store what was received, then look for the end of the request. */
    method Take(chunk: string) returns (done: Option<Frame>)
      requires Valid() && idx + |chunk| < buff.Length
      modifies this, buff
      ensures Valid() && buff[..] == Received(old(buff[..]), old(idx), chunk)
      ensures var s := CStr(buff[..], 0);
              var block := StrStr(s, 0, BLANK);
              if block == None then done == None && idx == old(idx) + |chunk|
              else done == Some(if Contains(s, LENGTH) then Aborted else Framed(block.value + 4, idx + |chunk|))
                   && idx == old(idx)
    {
      hide StrStr, NulFrom;
      Store(chunk);
      var s := CStr(buff[..], 0);
      var block := StrStr(s, 0, BLANK);
      if block == None {
        idx := idx + |chunk|;
        return None;
      }
      if Contains(s, LENGTH) {
        return Some(Aborted);
      }
      return Some(Framed(block.value + 4, idx + |chunk|));
    }

    /** recv */
    method Store(chunk: string)
      requires idx + |chunk| <= buff.Length
      modifies buff
      ensures buff[..] == Received(old(buff[..]), idx, chunk)
    {
      for k := 0 to |chunk|
        invariant buff[..] == Received(old(buff[..]), idx, chunk[..k])
      {
        buff[idx + k] := chunk[k];
      }
      assert chunk[..|chunk|] == chunk;
    }
  }

  lemma ConcatStep(chunks: seq<string>, i: nat)
    requires i < |chunks|
    ensures chunks[i..][0] == chunks[i] && chunks[i..][1..] == chunks[i + 1..]
    ensures Concat(chunks[i..]) == chunks[i] + Concat(chunks[i + 1..])
  {
  }

  // ---------------------------------------------------------------- strstr

  lemma StrStrIs(s: string, k: nat, pat: string)
    requires PatAt(s, k, pat) && forall j :: 0 <= j < k ==> !PatAt(s, j, pat)
    ensures StrStr(s, 0, pat) == Some(k)
  {
    var r := StrStr(s, 0, pat);
    assert r.Some?;
    assert PatAt(s, r.value, pat);
  }

  lemma PatPrefix(a: string, b: string, k: nat, pat: string)
    ensures PatAt(a, k, pat) ==> PatAt(a + b, k, pat)
    ensures k + |pat| <= |a| && PatAt(a + b, k, pat) ==> PatAt(a, k, pat)
  {
    assert k + |pat| <= |a| ==> (a + b)[k..k + |pat|] == a[k..k + |pat|];
  }

  /** More text behind a match does not move the first match. */
  lemma FoundInPrefix(a: string, b: string, pat: string)
    requires Contains(a, pat)
    ensures StrStr(a + b, 0, pat) == StrStr(a, 0, pat)
  {
    hide PatAt;
    var k := StrStr(a, 0, pat).value;
    PatPrefix(a, b, k, pat);
    forall j | 0 <= j < k
      ensures !PatAt(a + b, j, pat)
    {
      PatPrefix(a, b, j, pat);
      PatFits(a, k, pat);
    }
    StrStrIs(a + b, k, pat);
  }

  lemma PatFits(s: string, k: nat, pat: string)
    requires PatAt(s, k, pat)
    ensures k + |pat| <= |s|
  {
  }

  /** A match that a has not got reaches beyond it. */
  lemma FoundBeyond(a: string, b: string, pat: string)
    requires !Contains(a, pat) && Contains(a + b, pat)
    ensures StrStr(a + b, 0, pat).value + |pat| > |a|
  {
    hide PatAt;
    var k := StrStr(a + b, 0, pat).value;
    PatPrefix(a, b, k, pat);
  }

  // ---------------------------------------------------------------- the buffer

  lemma ReceivedText(m: seq<char>, idx: nat, chunk: string)
    requires idx + |chunk| <= |m| && NUL !in m[..idx] + chunk
    ensures var n := Received(m, idx, chunk);
            var a := m[..idx] + chunk;
            && n[..|a|] == a && n[|a|..] == m[|a|..]
            && CStr(n, 0) == a + CStr(m, |a|)
  {
    var n := Received(m, idx, chunk);
    var a := m[..idx] + chunk;
    var e := NulFrom(m, |a|);
    assert n[..|a|] == a && n[|a|..] == m[|a|..];
    forall k | 0 <= k < e
      ensures n[k] != NUL
    {
      if k < |a| {
        assert n[k] == a[k];
        assert a[k] in a;
      } else {
        assert n[k] == m[k];
      }
    }
    assert e < |m| ==> n[e] == m[e];
    NulFromIs(n, 0, e);
    assert n[0..e] == n[..|a|] + m[|a|..e];
  }

  // ---------------------------------------------------------------- framing

  ghost predicate Nonempty(chunks: seq<string>) {
    forall k :: 0 <= k < |chunks| ==> chunks[k] != ""
  }

  /** process gets exactly the text up to and including the first blank line, all of it received. */
  ghost predicate Correct(r: Run, stream: string)
    requires Contains(stream, BLANK)
  {
    var end := StrStr(stream, 0, BLANK).value + 4;
    r.frame.Framed? && r.frame.end == end && end <= r.frame.received <= |r.m|
    && end <= |stream| && r.m[..end] == stream[..end]
  }

  /** What has come in for this request after j chunks. */
  function SoFar(m: seq<char>, idx: nat, chunks: seq<string>, j: nat): string
    requires idx <= |m| && j <= |chunks|
  {
    m[..idx] + Concat(chunks[..j])
  }

  /** What strstr sees then: that, and what the buffer held behind it from the start. */
  function Seen(m: seq<char>, idx: nat, chunks: seq<string>, j: nat): string
    requires idx <= |m| && j <= |chunks|
  {
    var a := SoFar(m, idx, chunks, j);
    if |a| <= |m| then a + CStr(m, |a|) else a
  }

  /** Until the request is complete, what is left over in the buffer never completes it. */
  ghost predicate Quiet(m: seq<char>, idx: nat, chunks: seq<string>)
    requires idx <= |m|
  {
    forall j :: 1 <= j <= |chunks| ==> Contains(SoFar(m, idx, chunks, j), BLANK) || !Contains(Seen(m, idx, chunks, j), BLANK)
  }

  /** When the request is complete, no Content-Length is in sight, be it received or left over. */
  ghost predicate NoBody(m: seq<char>, idx: nat, chunks: seq<string>)
    requires idx <= |m|
  {
    forall j :: 1 <= j <= |chunks| && Contains(SoFar(m, idx, chunks, j), BLANK) && !Contains(SoFar(m, idx, chunks, j - 1), BLANK) ==>
      !Contains(Seen(m, idx, chunks, j), LENGTH)
  }

  /** After the first chunk has been stored, the same texts are seen from there on. */
  lemma SeenLater(m: seq<char>, idx: nat, chunks: seq<string>, j: nat)
    requires 1 <= j <= |chunks| && idx + |chunks[0]| <= |m|
    ensures var n := Received(m, idx, chunks[0]);
            && SoFar(n, idx + |chunks[0]|, chunks[1..], j - 1) == SoFar(m, idx, chunks, j)
            && Seen(n, idx + |chunks[0]|, chunks[1..], j - 1) == Seen(m, idx, chunks, j)
  {
    hide NulFrom, Concat;
    var n := Received(m, idx, chunks[0]);
    ConcatFirst(chunks, j);
    assert chunks[1..][..j - 1] == chunks[1..j];
    assert n[..idx + |chunks[0]|] == m[..idx] + chunks[0];
    var a := SoFar(m, idx, chunks, j);
    assert SoFar(n, idx + |chunks[0]|, chunks[1..], j - 1) == a;
    if |a| <= |m| {
      assert n[|a|..] == m[|a|..];
      SameTail(m, n, |a|);
    }
  }

  lemma ConcatFirst(chunks: seq<string>, j: nat)
    requires 1 <= j <= |chunks|
    ensures Concat(chunks[..j]) == chunks[0] + Concat(chunks[1..j])
  {
    assert chunks[..j][1..] == chunks[1..j];
  }

  lemma SameTail(m: seq<char>, n: seq<char>, p: nat)
    requires |m| == |n| && p <= |m| && n[p..] == m[p..]
    ensures CStr(n, p) == CStr(m, p)
  {
    var e := NulFrom(m, p);
    assert forall k :: p <= k < |m| ==> n[k] == n[p..][k - p] == m[k];
    NulFromIs(n, p, e);
    assert n[p..e] == n[p..][..e - p] && m[p..e] == m[p..][..e - p];
  }

  lemma FirstSeen(m: seq<char>, idx: nat, chunks: seq<string>)
    requires chunks != [] && idx + |chunks[0]| <= |m|
    ensures SoFar(m, idx, chunks, 0) == m[..idx] && SoFar(m, idx, chunks, 1) == m[..idx] + chunks[0]
    ensures Seen(m, idx, chunks, 1) == m[..idx] + chunks[0] + CStr(m, idx + |chunks[0]|)
  {
    hide CStr;
    assert chunks[..1] == [chunks[0]] && chunks[..0] == [];
    assert Concat([chunks[0]]) == chunks[0] + Concat(chunks[..0]);
  }

  /** A first chunk that completes the request decides both conditions. */
  lemma CompleteAtOnce(m: seq<char>, idx: nat, chunks: seq<string>)
    requires chunks != [] && idx + |chunks[0]| <= |m|
    requires !Contains(m[..idx], BLANK) && Contains(m[..idx] + chunks[0], BLANK)
    ensures Quiet(m, idx, chunks)
    ensures NoBody(m, idx, chunks) <==> !Contains(m[..idx] + chunks[0] + CStr(m, idx + |chunks[0]|), LENGTH)
  {
    hide Contains, CStr, Seen, SoFar;
    FirstSeen(m, idx, chunks);
    forall j | 1 <= j <= |chunks|
      ensures Contains(SoFar(m, idx, chunks, j), BLANK)
    {
      GotGrows(m, idx, chunks, j);
      FoundInPrefix(m[..idx] + chunks[0], Concat(chunks[1..j]), BLANK);
      ContainedIff(SoFar(m, idx, chunks, j), m[..idx] + chunks[0]);
    }
  }

  lemma GotGrows(m: seq<char>, idx: nat, chunks: seq<string>, j: nat)
    requires idx <= |m| && 1 <= j <= |chunks|
    ensures SoFar(m, idx, chunks, j) == m[..idx] + chunks[0] + Concat(chunks[1..j])
  {
    hide Concat;
    ConcatFirst(chunks, j);
  }

  lemma ContainedIff(a: string, b: string)
    requires StrStr(a, 0, BLANK) == StrStr(b, 0, BLANK)
    ensures Contains(a, BLANK) == Contains(b, BLANK)
  {
  }

  /** A first chunk that completes nothing leaves both conditions to the others. */
  lemma ConditionsLater(m: seq<char>, idx: nat, chunks: seq<string>)
    requires chunks != [] && idx + |chunks[0]| <= |m|
    requires var a := m[..idx] + chunks[0]; !Contains(a, BLANK) && !Contains(a + CStr(m, |a|), BLANK)
    ensures var n := Received(m, idx, chunks[0]);
            && (Quiet(m, idx, chunks) <==> Quiet(n, idx + |chunks[0]|, chunks[1..]))
            && (NoBody(m, idx, chunks) <==> NoBody(n, idx + |chunks[0]|, chunks[1..]))
  {
    hide Contains, CStr, Seen, SoFar, Received;
    var n, p, rest := Received(m, idx, chunks[0]), idx + |chunks[0]|, chunks[1..];
    FirstSeen(m, idx, chunks);
    forall j | 1 <= j <= |chunks|
      ensures SoFar(n, p, rest, j - 1) == SoFar(m, idx, chunks, j) && Seen(n, p, rest, j - 1) == Seen(m, idx, chunks, j)
    {
      SeenLater(m, idx, chunks, j);
    }
    forall j | 1 <= j <= |rest|
      ensures SoFar(n, p, rest, j) == SoFar(m, idx, chunks, j + 1) && Seen(n, p, rest, j) == Seen(m, idx, chunks, j + 1)
    {
      SeenLater(m, idx, chunks, j + 1);
    }
  }

  lemma CompleteChunk(m: seq<char>, idx: nat, chunks: seq<string>, stream: string)
    requires chunks != [] && chunks[0] != "" && idx + |Concat(chunks)| < |m|
    requires stream == m[..idx] + Concat(chunks) && NUL !in stream && Contains(m[..idx] + chunks[0], BLANK)
    ensures Contains(stream, BLANK)
    ensures var r := NextFrame(m, idx, chunks);
            Correct(r, stream) <==> !Contains(m[..idx] + chunks[0] + CStr(m, idx + |chunks[0]|), LENGTH)
  {
    hide NulFrom, StrStr;
    var chunk, rest := chunks[0], Concat(chunks[1..]);
    var a := m[..idx] + chunk;
    assert stream == a + rest;
    FoundInPrefix(a, rest, BLANK);
    ReceivedText(m, idx, chunk);
    FoundInPrefix(a, CStr(m, |a|), BLANK);
    var b := StrStrFound(a);
    assert Received(m, idx, chunk)[..b + 4] == a[..b + 4] == stream[..b + 4];
  }

  lemma StrStrFound(s: string) returns (b: nat)
    requires Contains(s, BLANK)
    ensures StrStr(s, 0, BLANK) == Some(b) && b + 4 <= |s|
  {
    b := StrStr(s, 0, BLANK).value;
  }

  lemma EarlyChunk(m: seq<char>, idx: nat, chunks: seq<string>, stream: string)
    requires chunks != [] && chunks[0] != "" && idx + |Concat(chunks)| < |m|
    requires stream == m[..idx] + Concat(chunks) && NUL !in stream && Contains(stream, BLANK)
    requires !Contains(m[..idx] + chunks[0], BLANK) && Contains(CStr(Received(m, idx, chunks[0]), 0), BLANK)
    ensures !Correct(NextFrame(m, idx, chunks), stream)
  {
    hide NulFrom, StrStr, Contains, CStr, NextFrame, Received;
    var chunk, rest := chunks[0], Concat(chunks[1..]);
    var a := m[..idx] + chunk;
    assert stream == a + rest;
    assert NUL !in a;
    ReceivedText(m, idx, chunk);
    FoundBeyond(a, CStr(m, |a|), BLANK);
    StopsAt(m, idx, chunks);
  }

  lemma StopsAt(m: seq<char>, idx: nat, chunks: seq<string>)
    requires chunks != [] && chunks[0] != "" && idx + |Concat(chunks)| < |m|
    requires Contains(CStr(Received(m, idx, chunks[0]), 0), BLANK)
    ensures var s := CStr(Received(m, idx, chunks[0]), 0);
            var r := NextFrame(m, idx, chunks);
            StrStr(s, 0, BLANK).Some?
            && (r.frame == Aborted || r.frame == Framed(StrStr(s, 0, BLANK).value + 4, idx + |chunks[0]|))
  {
    hide CStr, StrStr, Received;
  }

  lemma UnfoldFrame(m: seq<char>, idx: nat, chunks: seq<string>)
    requires chunks != [] && chunks[0] != "" && idx + |Concat(chunks)| < |m|
    requires !Contains(CStr(Received(m, idx, chunks[0]), 0), BLANK)
    ensures NextFrame(m, idx, chunks) == NextFrame(Received(m, idx, chunks[0]), idx + |chunks[0]|, chunks[1..])
  {
    hide CStr, StrStr, Received;
  }

  /** Whatever the buffer held: what process is given ends in a blank line and holds no NUL. */
  lemma {:induction false} FrameIsText(m: seq<char>, idx: nat, chunks: seq<string>)
    requires idx + |Concat(chunks)| < |m|
    ensures var r := NextFrame(m, idx, chunks);
            r.frame.Framed? ==>
              && 4 <= r.frame.end <= |r.m| && NUL !in r.m[..r.frame.end]
              && r.m[r.frame.end - 4..r.frame.end] == BLANK
    decreases |chunks|
  {
    hide NulFrom, StrStr, Received, Concat;
    if chunks != [] && chunks[0] != "" {
      ConcatStep(chunks, 0);
      var n := Received(m, idx, chunks[0]);
      var s := CStr(n, 0);
      var block := StrStr(s, 0, BLANK);
      if block.None? {
        FrameIsText(n, idx + |chunks[0]|, chunks[1..]);
      } else {
        var end := block.value + 4;
        assert s == n[..NulFrom(n, 0)] && s[..end] == n[..end] && s[end - 4..end] == n[end - 4..end];
        assert NUL !in s;
      }
    }
  }

  /** For any buffer and any way the stream is cut into chunks: the request comes out right if and only if nothing
      left over in the buffer completes it early and no Content-Length is in sight when it is complete. */
  lemma {:induction false} FramingIff(m: seq<char>, idx: nat, chunks: seq<string>, stream: string)
    requires Nonempty(chunks) && idx + |Concat(chunks)| < |m| && stream == m[..idx] + Concat(chunks)
    requires NUL !in stream && Contains(stream, BLANK) && !Contains(m[..idx], BLANK)
    ensures Correct(NextFrame(m, idx, chunks), stream) <==> Quiet(m, idx, chunks) && NoBody(m, idx, chunks)
    decreases |chunks|
  {
    hide NulFrom, StrStr, Correct, CStr, Contains, Quiet, NoBody;
    assert m[..idx] + "" == m[..idx];
    if chunks != [] {
      var a, n := m[..idx] + chunks[0], Received(m, idx, chunks[0]);
      assert chunks[0] != "";
      assert stream == a + Concat(chunks[1..]);
      ReceivedText(m, idx, chunks[0]);
      if Contains(a, BLANK) {
        CompleteChunk(m, idx, chunks, stream);
        CompleteAtOnce(m, idx, chunks);
      } else if Contains(CStr(n, 0), BLANK) {
        EarlyChunk(m, idx, chunks, stream);
        NotQuiet(m, idx, chunks);
      } else {
        UnfoldFrame(m, idx, chunks);
        ConditionsLater(m, idx, chunks);
        assert n[..|a|] == a;
        assert Nonempty(chunks[1..]);
        FramingIff(n, idx + |chunks[0]|, chunks[1..], stream);
      }
    }
  }

  lemma NotQuiet(m: seq<char>, idx: nat, chunks: seq<string>)
    requires chunks != [] && idx + |chunks[0]| <= |m|
    requires var a := m[..idx] + chunks[0]; !Contains(a, BLANK) && Contains(a + CStr(m, |a|), BLANK)
    ensures !Quiet(m, idx, chunks)
  {
    hide Contains, CStr, Seen, SoFar;
    FirstSeen(m, idx, chunks);
  }

  /** The counterexamples: a later request whose first chunk ends in CRLF just where the end of an earlier request
      left its own CRLF. process is then called two bytes beyond what was received, with the rest of the request
      still to come. */
  lemma LeftoverCompletes(m: seq<char>, chunks: seq<string>, line: string)
    requires chunks != [] && chunks[0] == line + "\r\n" && |Concat(chunks)| < |m|
    requires NUL !in line && !Contains(chunks[0], BLANK) && |chunks[0]| + 2 <= |m|
    requires m[|chunks[0]|..|chunks[0]| + 2] == "\r\n"
    ensures NextFrame(m, 0, chunks).frame == Aborted || NextFrame(m, 0, chunks).frame == Framed(|chunks[0]| + 2, |chunks[0]|)
  {
    hide StrStr, NextFrame, Received, PatAt, CStr;
    var p := |chunks[0]|;
    assert m[..0] + chunks[0] == chunks[0];
    ReceivedText(m, 0, chunks[0]);
    var tail := LeftoverText(m, p);
    var s := chunks[0] + CStr(m, p);
    BlankAcross(s, line, tail);
    forall j | 0 <= j < |line|
      ensures !PatAt(s, j, BLANK)
    {
      NoEarlierBlank(chunks[0], CStr(m, p), j);
    }
    StrStrIs(s, |line|, BLANK);
    StopsAt(m, 0, chunks);
  }

  lemma LeftoverText(m: seq<char>, p: nat) returns (tail: string)
    requires p + 2 <= |m| && m[p..p + 2] == "\r\n"
    ensures CStr(m, p) == "\r\n" + tail
  {
    assert m[p] == m[p..p + 2][0] && m[p + 1] == m[p..p + 2][1];
    tail := CStr(m, p)[2..];
  }

  lemma BlankAcross(s: string, line: string, tail: string)
    requires s == line + "\r\n" + ("\r\n" + tail)
    ensures PatAt(s, |line|, BLANK)
  {
    assert s[|line|..|line| + 4] == BLANK;
  }

  /** A blank line across the end of a starts at its last CRLF, if a has none itself. */
  lemma NoEarlierBlank(a: string, b: string, j: nat)
    requires !Contains(a, BLANK) && |a| >= 2 && a[|a| - 2..] == "\r\n" && j < |a| - 2
    ensures !PatAt(a + b, j, BLANK)
  {
    if j + 4 <= |a| {
      PatPrefix(a, b, j, BLANK);
      assert !PatAt(a, j, BLANK);
    } else {
      assert (a + b)[j + 1] == a[|a| - 2..][0] == '\r';
    }
  }

  ghost predicate ZeroFrom(m: seq<char>, idx: nat) {
    forall k :: idx <= k < |m| ==> m[k] == NUL
  }

  lemma ZeroText(m: seq<char>, idx: nat, chunk: string)
    requires idx + |chunk| <= |m| && NUL !in m[..idx] + chunk && ZeroFrom(m, idx)
    ensures var n := Received(m, idx, chunk);
            && CStr(n, 0) == m[..idx] + chunk && ZeroFrom(n, idx + |chunk|)
            && n[..idx + |chunk|] == m[..idx] + chunk
  {
    hide NulFrom, Received, CStr;
    var a := m[..idx] + chunk;
    ReceivedText(m, idx, chunk);
    ZeroTail(m, |a|);
    var n := Received(m, idx, chunk);
    forall k | |a| <= k < |n|
      ensures n[k] == NUL
    {
      assert n[|a|..][k - |a|] == m[|a|..][k - |a|];
    }
  }

  lemma ZeroTail(m: seq<char>, p: nat)
    requires p <= |m| && ZeroFrom(m, p)
    ensures CStr(m, p) == ""
  {
    NulFromIs(m, p, p);
  }

  lemma NotContained(a: string, b: string, pat: string)
    requires !Contains(a + b, pat)
    ensures !Contains(a, pat)
  {
    if Contains(a, pat) {
      FoundInPrefix(a, b, pat);
    }
  }

  /** A buffer that holds zeroes shows nothing but what was received. */
  lemma ZeroSeen(m: seq<char>, idx: nat, chunks: seq<string>, j: nat)
    requires idx <= |m| && j <= |chunks| && ZeroFrom(m, idx)
    ensures Seen(m, idx, chunks, j) == SoFar(m, idx, chunks, j)
  {
    hide CStr;
    var a := SoFar(m, idx, chunks, j);
    if |a| <= |m| {
      ZeroTail(m, |a|);
    }
  }

  /** Over zeroes both conditions hold for every stream without a body. */
  lemma ZeroConditions(m: seq<char>, idx: nat, chunks: seq<string>, stream: string)
    requires idx <= |m| && stream == m[..idx] + Concat(chunks) && !Contains(stream, LENGTH) && ZeroFrom(m, idx)
    ensures Quiet(m, idx, chunks) && NoBody(m, idx, chunks)
  {
    hide Contains, Seen, ZeroFrom, SoFar, Concat;
    forall j | 1 <= j <= |chunks|
      ensures Seen(m, idx, chunks, j) == SoFar(m, idx, chunks, j) && !Contains(Seen(m, idx, chunks, j), LENGTH)
    {
      ZeroSeen(m, idx, chunks, j);
      GotIsPrefix(m, idx, chunks, j);
      NotContained(SoFar(m, idx, chunks, j), Concat(chunks[j..]), LENGTH);
    }
  }

  lemma {:induction false} GotIsPrefix(m: seq<char>, idx: nat, chunks: seq<string>, j: nat)
    requires idx <= |m| && j <= |chunks|
    ensures m[..idx] + Concat(chunks) == SoFar(m, idx, chunks, j) + Concat(chunks[j..])
  {
    if j == 0 {
      assert chunks[..0] == [] && chunks[0..] == chunks;
    } else {
      GotIsPrefix(m, idx, chunks, j - 1);
      assert chunks[..j] == chunks[..j - 1] + [chunks[j - 1]] && chunks[j - 1..][1..] == chunks[j..];
      ConcatSnoc(chunks[..j - 1], chunks[j - 1]);
      Associate(SoFar(m, idx, chunks, j - 1), chunks[j - 1], Concat(chunks[j..]));
      Associate(m[..idx], Concat(chunks[..j - 1]), chunks[j - 1]);
    }
  }

  /** While no blank line has come in over zeroes, the loop waits. */
  lemma {:induction false} ZeroFraming(m: seq<char>, idx: nat, chunks: seq<string>, stream: string)
    requires Nonempty(chunks) && idx + |Concat(chunks)| < |m| && stream == m[..idx] + Concat(chunks)
    requires NUL !in stream && !Contains(stream, BLANK) && ZeroFrom(m, idx)
    ensures NextFrame(m, idx, chunks).frame == Closed
    decreases |chunks|
  {
    hide NulFrom, StrStr, CStr, Contains, ZeroFrom;
    if chunks != [] {
      var a, n, rest := m[..idx] + chunks[0], Received(m, idx, chunks[0]), chunks[1..];
      assert stream == a + Concat(rest);
      assert chunks[0] != "" && NUL !in a && Nonempty(rest);
      ZeroText(m, idx, chunks[0]);
      NotContained(a, Concat(rest), BLANK);
      UnfoldFrame(m, idx, chunks);
      ZeroFraming(n, idx + |chunks[0]|, rest, stream);
    }
  }

  /** The first request of a connection: on the zeroed buffer, however the stream is cut into chunks, process
      gets the shortest prefix that ends in a blank line, and nothing while there is none. */
  lemma FirstFraming(m: seq<char>, chunks: seq<string>)
    requires Nonempty(chunks) && |Concat(chunks)| < |m| && ZeroFrom(m, 0)
    requires NUL !in Concat(chunks) && !Contains(Concat(chunks), LENGTH)
    ensures var r := NextFrame(m, 0, chunks);
            if Contains(Concat(chunks), BLANK) then Correct(r, Concat(chunks)) else r.frame == Closed
  {
    hide NulFrom, StrStr, NextFrame, Correct, Quiet, NoBody, Concat, ZeroFrom;
    var stream := Concat(chunks);
    assert m[..0] + stream == stream;
    if Contains(stream, BLANK) {
      ZeroConditions(m, 0, chunks, stream);
      EmptyHasNone(m[..0]);
      FramingIff(m, 0, chunks, stream);
    } else {
      ZeroFraming(m, 0, chunks, stream);
    }
  }

  lemma EmptyHasNone(s: string)
    requires s == ""
    ensures !Contains(s, BLANK)
  {
  }

  /** Two ways of cutting up one stream give process the same bytes. */
  lemma ChunksDoNotMatter(m: seq<char>, n: seq<char>, chunks: seq<string>, others: seq<string>)
    requires Nonempty(chunks) && Nonempty(others) && Concat(chunks) == Concat(others)
    requires |Concat(chunks)| < |m| && |Concat(chunks)| < |n| && ZeroFrom(m, 0) && ZeroFrom(n, 0)
    requires NUL !in Concat(chunks) && !Contains(Concat(chunks), LENGTH)
    ensures var r, q := NextFrame(m, 0, chunks), NextFrame(n, 0, others);
            if r.frame.Framed? then
              q.frame.Framed? && q.frame.end == r.frame.end <= |r.m| && q.frame.end <= |q.m|
              && r.m[..r.frame.end] == q.m[..q.frame.end]
            else r.frame == Closed == q.frame
  {
    hide NextFrame, StrStr, ZeroFrom, Concat, Contains;
    FirstFraming(m, chunks);
    FirstFraming(n, others);
  }
}
