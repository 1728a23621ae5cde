/** A Transport header is parsed from its own characters: where it stands in the buffer, and what stands around it,
    makes no difference to whether it is understood, and nothing outside it changes (src/rtsp.cpp). */
module Locality {
  import opened CStrings
  import opened TransportParsing
  import opened TransportGrammar

  // ---------------------------------------------------------------- the same text in two places

  /** n stands in m at p, and ends with a NUL or with m itself. */
  ghost predicate Window(m: seq<char>, p: nat, n: seq<char>) {
    At(m, p, n) && ((n != [] && n[|n| - 1] == NUL) || p + |n| == |m|)
  }

  /** A place in n; its end is one only if it is the end of m as well. */
  ghost predicate Inside(m: seq<char>, p: nat, n: seq<char>, i: nat) {
    i < |n| || (i == |n| && p + |n| == |m|)
  }

  lemma {:induction false} SkipShift(m: seq<char>, p: nat, n: seq<char>, i: nat, d: char)
    requires Window(m, p, n) && Inside(m, p, n, i) && d != NUL
    ensures SkipDelim(m, p + i, d) == p + SkipDelim(n, i, d) && Inside(m, p, n, SkipDelim(n, i, d))
    decreases |n| - i
  {
    if i < |n| && n[i] == d {
      SkipShift(m, p, n, i + 1, d);
    }
  }

  lemma {:induction false} TokShift(m: seq<char>, p: nat, n: seq<char>, i: nat, d: char)
    requires Window(m, p, n) && Inside(m, p, n, i)
    ensures TokEnd(m, p + i, d) == p + TokEnd(n, i, d) && Inside(m, p, n, TokEnd(n, i, d))
    decreases |n| - i
  {
    if i < |n| && n[i] != d && n[i] != NUL {
      TokShift(m, p, n, i + 1, d);
    }
  }

  lemma {:induction false} NulFromShift(m: seq<char>, p: nat, n: seq<char>, i: nat)
    requires Window(m, p, n) && Inside(m, p, n, i)
    ensures NulFrom(m, p + i) == p + NulFrom(n, i) && Inside(m, p, n, NulFrom(n, i))
    decreases |n| - i
  {
    if i < |n| && n[i] != NUL {
      NulFromShift(m, p, n, i + 1);
    }
  }

  lemma NulShift(m: seq<char>, p: nat, n: seq<char>, i: nat)
    requires Window(m, p, n) && Inside(m, p, n, i)
    ensures p + i <= |m| && NulFrom(m, p + i) == p + NulFrom(n, i) && CStr(m, p + i) == CStr(n, i)
    ensures Terminated(m, p + i) <==> Terminated(n, i)
  {
    NulFromShift(m, p, n, i);
    var e := NulFrom(n, i);
    forall k | 0 <= k < e - i
      ensures m[p + i..p + e][k] == n[i..e][k]
    {
      assert m[p + (i + k)] == n[i + k];
    }
    assert m[p + i..p + e] == n[i..e];
  }

  /** Two strtok_r results that correspond. */
  ghost predicate SameTok(a: Tok, p: nat, b: Tok) {
    && Window(a.m, p, b.m) && a.save == p + b.save && Inside(a.m, p, b.m, b.save) && a.save <= |a.m|
    && (a.tok.Some? <==> b.tok.Some?)
    && (b.tok.Some? ==> a.tok.value == p + b.tok.value && Inside(a.m, p, b.m, b.tok.value) && a.tok.value <= |a.m|)
  }

  lemma StrTokShift(m: seq<char>, p: nat, n: seq<char>, i: nat, d: char)
    requires Window(m, p, n) && Inside(m, p, n, i) && d != NUL
    ensures p + i <= |m| && SameTok(StrTok(m, p + i, d), p, StrTok(n, i, d)) && |StrTok(n, i, d).m| == |n|
    ensures |StrTok(m, p + i, d).m| == |m|
  {
    hide SkipDelim, TokEnd;
    SkipShift(m, p, n, i, d);
    var q := SkipDelim(n, i, d);
    assert q < |n| ==> m[p + q] == n[q];
    if q < |n| && n[q] != NUL {
      TokShift(m, p, n, q, d);
      var e := TokEnd(n, q, d);
      assert e < |n| ==> m[p + e] == n[e];
      if e < |n| && n[e] != NUL {
        CutShift(m, p, n, e);
      }
    }
  }

  lemma CutShift(m: seq<char>, p: nat, n: seq<char>, e: nat)
    requires Window(m, p, n) && e < |n|
    ensures Window(m[p + e := NUL], p, n[e := NUL])
  {
  }

  lemma OptionOkShift(t: Transport, u: Transport, s: string, p: nat, q: nat)
    ensures ParseOption(t, s, p).ok == ParseOption(u, s, q).ok
  {
    hide FindRow, StrToLL, ToInt32, Table, ParseAddr, ParseAddrPair;
  }

  lemma {:induction false} OptionsShift(m: seq<char>, p: nat, n: seq<char>, i: nat, t: Transport, u: Transport)
    requires Window(m, p, n) && Inside(m, p, n, i) && p + i <= |m|
    ensures var a, b := ParseOptions(m, p + i, t), ParseOptions(n, i, u);
            Window(a.m, p, b.m) && |b.m| == |n| && a.ok == b.ok
    decreases |n| - i
  {
    hide ParseOptions, ParseOption, StrTok, NulFrom, CStr, Window;
    StrTokShift(m, p, n, i, ';');
    UnfoldOptions(n, i, u);
    UnfoldOptions(m, p + i, t);
    var a, b := StrTok(m, p + i, ';'), StrTok(n, i, ';');
    if b.tok.Some? {
      NulShift(a.m, p, b.m, b.tok.value);
      var s := CStr(b.m, b.tok.value);
      OptionOkShift(t, u, s, a.tok.value, b.tok.value);
      if ParseOption(u, s, b.tok.value).ok {
        OptionsShift(a.m, p, b.m, b.save, ParseOption(t, s, a.tok.value).t, ParseOption(u, s, b.tok.value).t);
      }
    }
  }

  lemma UnfoldOptions(m: seq<char>, save: nat, t: Transport)
    requires save <= |m|
    ensures var k := StrTok(m, save, ';');
            && |k.m| == |m| && save <= k.save <= |m|
            && (k.tok.Some? ==> save < k.save && k.tok.value <= |m|)
            && (k.tok.None? ==> ParseOptions(m, save, t).m == k.m && ParseOptions(m, save, t).ok)
            && (k.tok.Some? ==>
                  var o := ParseOption(t, CStr(k.m, k.tok.value), k.tok.value);
                  if o.ok then ParseOptions(m, save, t) == ParseOptions(k.m, k.save, o.t)
                  else ParseOptions(m, save, t).m == k.m && !ParseOptions(m, save, t).ok)
  {
    hide ParseOption, StrTok, NulFrom;
    StrTokCuts(m, save, ';');
  }

  lemma ProtocolShift(m: seq<char>, p: nat, n: seq<char>, i: nat)
    requires Window(m, p, n) && i < |n| && n[i] == 'R' && p + i < |m| && m[p + i] == 'R'
    ensures Window(ParseProtocol(m, p + i).m, p, ParseProtocol(n, i).m) && |ParseProtocol(n, i).m| == |n|
  {
    hide StrTok, NulFrom, Window;
    StrTokShift(m, p, n, i, '/');
    var a, b := StrTok(m, p + i, '/'), StrTok(n, i, '/');
    StrTokShift(a.m, p, b.m, b.save, '/');
    var c, d := StrTok(a.m, a.save, '/'), StrTok(b.m, b.save, '/');
    StrTokShift(c.m, p, d.m, d.save, '/');
  }

  lemma SpecShift(m: seq<char>, p: nat, n: seq<char>, i: nat, t: Transport, u: Transport)
    requires Window(m, p, n) && i < |n| && n[i] == 'R' && p + i < |m| && m[p + i] == 'R'
    ensures var a, b := ParseSpec(m, p + i, t), ParseSpec(n, i, u);
            Window(a.m, p, b.m) && |b.m| == |n| && a.ok == b.ok
  {
    hide StrTok, NulFrom, Window, ParseSpec, ParseProtocol, ParseOptions;
    StrTokShift(m, p, n, i, ';');
    var t2 := UnfoldSpec(m, p + i, t);
    var u2 := UnfoldSpec(n, i, u);
    var a, b := StrTok(m, p + i, ';'), StrTok(n, i, ';');
    ProtocolShift(a.m, p, b.m, i);
    OptionsShift(ParseProtocol(a.m, p + i).m, p, ParseProtocol(b.m, i).m, b.save, t2, u2);
  }

  lemma UnfoldSpec(m: seq<char>, p: nat, t: Transport) returns (t2: Transport)
    requires p < |m| && m[p] == 'R'
    ensures var k := StrTok(m, p, ';');
            && p < |k.m| == |m| && k.m[p] == 'R' && |ParseProtocol(k.m, p).m| == |m| && k.save <= |m|
            && ParseSpec(m, p, t) == ParseOptions(ParseProtocol(k.m, p).m, k.save, t2)
  {
    hide StrTok, NulFrom, ParseProtocol, ParseOptions;
    StrTokCuts(m, p, ';');
    OptionsUntouched(m, p);
    var a := ParseProtocol(StrTok(m, p, ';').m, p);
    var t1 := Defaults(t).(rtp := t.rtp || a.rtp);
    t2 := if a.lower.Some? then t1.(transport := InBuf(a.lower.value)) else t1;
  }

  /** The same starts, seen from p on. */
  ghost predicate SameStarts(lines: seq<nat>, p: nat, starts: seq<nat>, len: nat) {
    |lines| == |starts| && forall k :: 0 <= k < |starts| ==> lines[k] == p + starts[k] && starts[k] < len
  }

  lemma {:induction false} SpecsShift(m: seq<char>, p: nat, n: seq<char>, lines: seq<nat>, starts: seq<nat>, i: nat,
                                      ts: seq<Transport>, us: seq<Transport>)
    requires Window(m, p, n) && SameStarts(lines, p, starts, |n|) && Starts(m, lines) && Starts(n, starts)
    requires i <= |lines| <= |ts| == |us|
    ensures var a, b := ParseSpecs(m, lines, i, ts), ParseSpecs(n, starts, i, us);
            a.ok == b.ok && Window(a.m, p, b.m) && |b.m| == |n|
    decreases |lines| - i
  {
    hide ParseSpecs, ParseSpec, Window, Starts;
    SameLength(lines, p, starts, |n|);
    if i < |lines| {
      var j, k := lines[i], starts[i];
      StartsAt(m, lines, i);
      StartsAt(n, starts, i);
      SpecShift(m, p, n, k, ts[i], us[i]);
      var a, b := ParseSpec(m, j, ts[i]), ParseSpec(n, k, us[i]);
      UnfoldSpecs(m, lines, i, ts, a);
      UnfoldSpecs(n, starts, i, us, b);
      if a.ok {
        SpecsShift(a.m, p, b.m, lines, starts, i + 1, ts[i := a.t], us[i := b.t]);
      }
    } else {
      NoSpecs(m, lines, ts);
      NoSpecs(n, starts, us);
    }
  }

  lemma StartsAt(m: seq<char>, lines: seq<nat>, i: nat)
    requires Starts(m, lines) && i < |lines|
    ensures lines[i] < |m| && m[lines[i]] == 'R'
  {
  }

  lemma NoSpecs(m: seq<char>, lines: seq<nat>, ts: seq<Transport>)
    requires |lines| <= |ts| && Starts(m, lines)
    ensures ParseSpecs(m, lines, |lines|, ts) == SpecsResult(m, ts, true)
  {
  }

  lemma SameLength(lines: seq<nat>, p: nat, starts: seq<nat>, len: nat)
    requires SameStarts(lines, p, starts, len)
    ensures |lines| == |starts|
  {
  }

  lemma UnfoldSpecs(m: seq<char>, lines: seq<nat>, i: nat, ts: seq<Transport>, a: SpecResult)
    requires i < |lines| <= |ts| && Starts(m, lines)
    requires lines[i] < |m| && m[lines[i]] == 'R' && a == ParseSpec(m, lines[i], ts[i])
    ensures |a.m| == |m| && Starts(a.m, lines)
    ensures a.ok ==> ParseSpecs(m, lines, i, ts) == ParseSpecs(a.m, lines, i + 1, ts[i := a.t])
    ensures !a.ok ==> ParseSpecs(m, lines, i, ts).m == a.m && !ParseSpecs(m, lines, i, ts).ok
  {
    hide ParseSpec;
  }

  lemma {:induction false} TrimShift(m: seq<char>, p: nat, n: seq<char>, k: nat, lo: nat)
    requires Window(m, p, n) && k < |n| && p + k < |m|
    ensures Window(TrimBack(m, p + k, p + lo), p, TrimBack(n, k, lo))
    decreases k
  {
    hide Window;
    AtWindow(m, p, n, k);
    if k > lo && (n[k] == ' ' || n[k] == ',') {
      CutShift(m, p, n, k);
      TrimShift(m[p + k := NUL], p, n[k := NUL], k - 1, lo);
    }
  }

  lemma AtWindow(m: seq<char>, p: nat, n: seq<char>, k: nat)
    requires Window(m, p, n) && k < |n|
    ensures p + k < |m| && m[p + k] == n[k]
  {
    AtIndex(m, p, n, k);
  }

  lemma RtpShift(m: seq<char>, p: nat, n: seq<char>, i: nat)
    requires Window(m, p, n) && i < |n|
    ensures RtpAt(m, p + i) == RtpAt(n, i)
  {
    if i + 4 <= |n| {
      AtIndex(m, p, n, i);
      AtIndex(m, p, n, i + 1);
      AtIndex(m, p, n, i + 2);
      AtIndex(m, p, n, i + 3);
    } else if p + |n| < |m| {
      AtIndex(m, p, n, |n| - 1);
    }
  }

  lemma {:induction false} ScanShift(m: seq<char>, p: nat, n: seq<char>, i: nat, end: nat, lines: seq<nat>, starts: seq<nat>)
    requires Window(m, p, n) && end <= |n| && |lines| <= MAX_TRANSPORTS && SameStarts(lines, p, starts, |n|)
    requires p + end <= |m| && Starts(m, lines) && Starts(n, starts) && forall k :: 0 <= k < |starts| ==> starts[k] < i
    ensures var a, b := ScanSpecs(m, p + i, p + end, lines), ScanSpecs(n, i, end, starts);
            Window(a.m, p, b.m) && SameStarts(a.lines, p, b.lines, |n|) && |b.m| == |n|
    decreases end - i
  {
    hide Window, RtpAt, TrimBack;
    if i < end && |lines| < MAX_TRANSPORTS {
      RtpShift(m, p, n, i);
      if RtpAt(n, i) {
        assert n[i] == 'R' && m[p + i] == 'R' by { RtpStarts(n, i); RtpStarts(m, p + i); }
        WindowFits(m, p, n);
        var a, b := TrimmedShift(m, p, n, i, lines, starts);
        hide SameStarts, Starts;
        ScanShift(a, p, b, i + 1, end, lines + [p + i], starts + [i]);
      } else {
        ScanShift(m, p, n, i + 1, end, lines, starts);
      }
    }
  }

  /** One spec more: the one before is trimmed in both places. */
  lemma TrimmedShift(m: seq<char>, p: nat, n: seq<char>, i: nat, lines: seq<nat>, starts: seq<nat>)
    returns (a: seq<char>, b: seq<char>)
    requires Window(m, p, n) && i < |n| && SameStarts(lines, p, starts, |n|) && Starts(m, lines) && Starts(n, starts)
    requires (forall k :: 0 <= k < |starts| ==> starts[k] < i) && p + i < |m| && m[p + i] == 'R' && n[i] == 'R'
    ensures |a| == |m| && |b| == |n| && Window(a, p, b)
    ensures SameStarts(lines + [p + i], p, starts + [i], |n|) && Starts(a, lines + [p + i]) && Starts(b, starts + [i])
    ensures var later := starts + [i]; forall k :: 0 <= k < |later| ==> later[k] < i + 1
    ensures var later := lines + [p + i]; forall k :: 0 <= k < |later| ==> later[k] < p + i + 1
    ensures a == if lines == [] then m else assert lines[|lines| - 1] == p + starts[|lines| - 1] < p + i; TrimBack(m, p + i - 1, lines[|lines| - 1])
    ensures b == if starts == [] then n else assert starts[|starts| - 1] < i; TrimBack(n, i - 1, starts[|starts| - 1])
  {
    hide Window, TrimBack;
    if starts == [] {
      a, b := m, n;
    } else {
      var last := |starts| - 1;
      assert starts[last] < i && lines[last] == p + starts[last];
      TrimShift(m, p, n, i - 1, starts[last]);
      a, b := TrimBack(m, p + i - 1, lines[last]), TrimBack(n, i - 1, starts[last]);
      StartsTrimmed(m, a, lines, p + i);
      StartsTrimmed(n, b, starts, i);
    }
  }

  lemma StartsTrimmed(m: seq<char>, a: seq<char>, lines: seq<nat>, i: nat)
    requires Starts(m, lines) && OnlyCuts(m, a, 0, |m|) && i < |m| && m[i] == 'R'
    ensures Starts(a, lines + [i])
  {
  }

  lemma WindowFits(m: seq<char>, p: nat, n: seq<char>)
    requires Window(m, p, n)
    ensures p + |n| <= |m|
  {
  }

  lemma RtpStarts(m: seq<char>, i: nat)
    requires RtpAt(m, i)
    ensures i < |m| && m[i] == 'R'
  {
  }

  /** The scan and the parse of a header value depend on what stands in the buffer from there on only: on the value
      itself when it has four characters, otherwise on the whole rest of the buffer. */
  lemma TransportShift(m: seq<char>, p: nat, n: seq<char>, i: nat, ts: seq<Transport>, us: seq<Transport>)
    requires Window(m, p, n) && Inside(m, p, n, i) && |ts| == MAX_TRANSPORTS == |us|
    requires |CStr(n, i)| >= 4 || p + |n| == |m|
    ensures p + i <= |m| && CStr(m, p + i) == CStr(n, i) && (Scannable(m, p + i) <==> Scannable(n, i))
    ensures Scannable(n, i) ==>
              var a, b := ParseTransport(m, p + i, ts), ParseTransport(n, i, us);
              a.ok == b.ok && Window(a.m, p, b.m) && |b.m| == |n|
  {
    hide Window, ScanSpecs, ParseSpecs, NulFrom, Scannable;
    WindowFits(m, p, n);
    NulShift(m, p, n, i);
    var end := ScanEnd(n, i);
    ScanShift(m, p, n, i, end, [], []);
    var a, b := ScanSpecs(m, p + i, p + end, []), ScanSpecs(n, i, end, []);
    SpecsShift(a.m, p, b.m, a.lines, b.lines, 0, ts, us);
    ScannableShift(m, p, n, i);
  }

  lemma ScannableShift(m: seq<char>, p: nat, n: seq<char>, i: nat)
    requires Window(m, p, n) && Inside(m, p, n, i) && p + i <= |m| && |CStr(m, p + i)| == |CStr(n, i)|
    requires |CStr(n, i)| >= 4 || p + |n| == |m|
    ensures Scannable(m, p + i) <==> Scannable(n, i)
  {
    hide Window, ScanSpecs, NulFrom, CStr, Terminated;
    if |CStr(n, i)| < 4 {
      ScanShift(m, p, n, i, |n|, [], []);
      var a, b := ScanSpecs(m, p + i, |m|, []), ScanSpecs(n, i, |n|, []);
      forall k | 0 <= k < |b.lines|
        ensures Terminated(a.m, a.lines[k]) <==> Terminated(b.m, b.lines[k])
      {
        NulShift(a.m, p, b.m, b.lines[k]);
      }
    }
  }

  // ---------------------------------------------------------------- what is changed

  lemma CutsChain(m: seq<char>, n: seq<char>, r: seq<char>, lo: nat, hi: nat)
    requires OnlyCuts(m, n, lo, hi) && OnlyCuts(n, r, lo, hi)
    ensures OnlyCuts(m, r, lo, hi)
  {
    forall k | 0 <= k < |m| && r[k] != m[k]
      ensures lo <= k < hi && r[k] == NUL && Cut(m[k])
    {
      assert n[k] == m[k] || n[k] == NUL;
    }
  }

  lemma {:induction false} ScanFrame(m: seq<char>, i: nat, end: nat, lines: seq<nat>, lo: nat)
    requires end <= |m| && |lines| <= MAX_TRANSPORTS && Starts(m, lines) && lo <= i
    requires forall k :: 0 <= k < |lines| ==> lo <= lines[k] < i
    ensures OnlyCuts(m, ScanSpecs(m, i, end, lines).m, lo, end)
    decreases end - i
  {
    hide RtpAt, TrimBack;
    if i < end && |lines| < MAX_TRANSPORTS {
      if RtpAt(m, i) {
        RtpStarts(m, i);
        var m1 := if lines == [] then m else assert lo <= lines[|lines| - 1] < i; TrimBack(m, i - 1, lines[|lines| - 1]);
        assert OnlyCuts(m, m1, lo, end);
        ScanFrame(m1, i + 1, end, lines + [i], lo);
        CutsChain(m, m1, ScanSpecs(m1, i + 1, end, lines + [i]).m, lo, end);
      } else {
        ScanFrame(m, i + 1, end, lines, lo);
      }
    }
  }

  lemma {:induction false} SpecsFrame(m: seq<char>, lines: seq<nat>, i: nat, ts: seq<Transport>, lo: nat, hi: nat)
    requires i <= |lines| <= |ts| && Starts(m, lines)
    requires forall k :: 0 <= k < |lines| ==> lo <= lines[k] && NulFrom(m, lines[k]) <= hi
    ensures OnlyCuts(m, ParseSpecs(m, lines, i, ts).m, lo, hi)
    decreases |lines| - i
  {
    hide ParseSpec;
    if i < |lines| {
      var r := ParseSpec(m, lines[i], ts[i]);
      assert OnlyCuts(m, r.m, lo, hi);
      if r.ok {
        forall k | 0 <= k < |lines|
          ensures NulFrom(r.m, lines[k]) <= hi
        {
          CutsShorten(m, r.m, lo, hi, lines[k]);
        }
        SpecsFrame(r.m, lines, i + 1, ts[i := r.t], lo, hi);
        CutsChain(m, r.m, ParseSpecs(r.m, lines, i + 1, ts[i := r.t]).m, lo, hi);
      }
    }
  }

  /** parse_transport changes nothing but the header value, up to its NUL; with fewer than four characters, nothing
      before it. */
  lemma TransportFrame(m: seq<char>, save: nat, ts: seq<Transport>)
    requires Scannable(m, save) && |ts| == MAX_TRANSPORTS
    ensures OnlyCuts(m, ParseTransport(m, save, ts).m, save, if |CStr(m, save)| >= 4 then NulFrom(m, save) else |m|)
  {
    hide ScanSpecs, ParseSpecs;
    var e := if |CStr(m, save)| >= 4 then NulFrom(m, save) else |m|;
    var end := ScanEnd(m, save);
    var s := ScanSpecs(m, save, end, []);
    ScanFrame(m, save, end, [], save);
    ScanInside(m, save, end, [], save);
    forall k | 0 <= k < |s.lines|
      ensures save <= s.lines[k] && NulFrom(s.m, s.lines[k]) <= e
    {
      if |CStr(m, save)| >= 4 {
        TerminatedLater(m, save, s.lines[k]);
        CutsShorten(m, s.m, save, e, s.lines[k]);
      }
    }
    SpecsFrame(s.m, s.lines, 0, ts, save, e);
    CutsChain(m, s.m, ParseSpecs(s.m, s.lines, 0, ts).m, save, e);
  }
}
