/** Which requests the parser reads without leaving the buffer or following a null pointer (src/rtsp.cpp), said of
    the text of the request. */
module RequestBounds {
  import opened CStrings
  import opened Sequences
  import opened LineParsing
  import opened TransportParsing
  import opened TransportGrammar
  import opened Locality
  import opened HeaderParsing
  import opened RequestParsing

  // ---------------------------------------------------------------- words

  function Blanks(s: string): (n: nat)
    ensures n <= |s|
    ensures forall k :: 0 <= k < n ==> s[k] == ' '
    ensures n < |s| ==> s[n] != ' '
  {
    if s == "" || s[0] != ' ' then 0 else 1 + Blanks(s[1..])
  }

  function WordLength(s: string): (n: nat)
    ensures n <= |s|
    ensures forall k :: 0 <= k < n ==> s[k] != ' '
    ensures n < |s| ==> s[n] == ' '
  {
    if s == "" || s[0] == ' ' then 0 else 1 + WordLength(s[1..])
  }

  /** The text behind the first word and the one blank that ends it. */
  function After(s: string): (r: string)
    ensures |r| <= |s| && (s != "" ==> |r| < |s|)
  {
    var t := s[Blanks(s)..];
    var e := WordLength(t);
    if e < |t| then t[e + 1..] else ""
  }

  /** The words between blanks. */
  function Words(s: string): seq<string>
    decreases |s|
  {
    var t := s[Blanks(s)..];
    if t == "" then [] else [t[..WordLength(t)]] + Words(After(s))
  }

  /** strtok_r on a text without NUL: its first word, and then the text behind it, up to the same NUL. */
  lemma TokenOfText(m: seq<char>, p: nat, s: string)
    requires StringAt(m, p, s) && NUL !in s
    ensures var k := StrTok(m, p, ' ');
            && (k.tok.None? <==> Words(s) == [])
            && (k.tok.Some? ==>
                  && k.tok.value <= |k.m| && CStr(k.m, k.tok.value) == Words(s)[0] && Words(s)[1..] == Words(After(s))
                  && StringAt(k.m, k.save, After(s)) && NUL !in After(s) && k.save + |After(s)| == p + |s|)
  {
    var q, t := p + Blanks(s), s[Blanks(s)..];
    SkipsBlanks(m, p, s);
    if t != "" {
      assert m[q] == t[0] by { AtIndex(m, p, s, Blanks(s)); }
      assert t[0] in s && t[0] != ' ';
      FirstToken(m, p, s, q, t);
    } else {
      assert m[q] == NUL;
    }
  }

  lemma SkipsBlanks(m: seq<char>, p: nat, s: string)
    requires StringAt(m, p, s) && NUL !in s
    ensures SkipDelim(m, p, ' ') == p + Blanks(s)
  {
    var n := Blanks(s);
    forall k | p <= k < p + n
      ensures m[k] == ' '
    {
      AtIndex(m, p, s, k - p);
    }
    assert m[p + n] != ' ' by {
      if n < |s| {
        AtIndex(m, p, s, n);
      }
    }
  }

  lemma FirstToken(m: seq<char>, p: nat, s: string, q: nat, t: string)
    requires StringAt(m, p, s) && NUL !in s && q == p + Blanks(s) && t == s[Blanks(s)..] && t != ""
    requires SkipDelim(m, p, ' ') == q && q < |m| && m[q] != NUL && m[q] != ' '
    ensures var k := StrTok(m, p, ' ');
            && k.tok == Some(q) && q <= |k.m| && CStr(k.m, q) == t[..WordLength(t)]
            && StringAt(k.m, k.save, After(s)) && NUL !in After(s) && k.save + |After(s)| == p + |s|
  {
    hide SkipDelim, Blanks, WordLength, StrTok, CStr, At;
    assert At(m, q, t) && q + |t| == p + |s| by { AtTail(m, p, s, Blanks(s)); }
    assert forall c :: c in t ==> c in s;
    SameFirst(m, p, q);
    WordIsToken(m, q, t);
  }

  /** The same, with no blank in front. */
  lemma WordIsToken(m: seq<char>, q: nat, t: string)
    requires StringAt(m, q, t) && NUL !in t && t != "" && m[q] != ' '
    ensures var e := WordLength(t);
            var rest := if e < |t| then t[e + 1..] else "";
            var k := StrTok(m, q, ' ');
            && k.tok == Some(q) && q <= |k.m| && CStr(k.m, q) == t[..e]
            && StringAt(k.m, k.save, rest) && NUL !in rest && k.save + |rest| == q + |t|
  {
    hide SkipDelim, WordLength, StrTok, CStr, At;
    var e := WordLength(t);
    AtIndex(m, q, t, 0);
    WordNotEmpty(t);
    WordInBuffer(m, q, t);
    StrTokFirst(m, q, ' ', q + e);
    if e < |t| {
      var n := m[q + e := NUL];
      AtTail(m, q, t, e + 1);
      AtKeptAbove(m, n, q + e + 1, t[e + 1..]);
    } else {
      AtNothing(m, q + e);
    }
  }

  lemma AtNothing(m: seq<char>, p: nat)
    requires p <= |m|
    ensures At(m, p, "")
  {
  }

  lemma WordInBuffer(m: seq<char>, q: nat, t: string)
    requires StringAt(m, q, t) && NUL !in t
    ensures var e := WordLength(t);
            && (forall k :: q <= k < q + e ==> m[k] != ' ' && m[k] != NUL)
            && m[q + e] == (if e < |t| then ' ' else NUL) && m[q..q + e] == t[..e]
  {
    hide WordLength, At;
    var e := WordLength(t);
    assert q + |t| < |m| by { AtFits(m, q, t); }
    forall k | 0 <= k < e
      ensures m[q + k] == t[k] && t[k] in t
    {
      AtIndex(m, q, t, k);
    }
    forall k | q <= k < q + e
      ensures m[k] != ' ' && m[k] != NUL
    {
      assert m[q + (k - q)] == t[k - q];
    }
    if e < |t| {
      AtIndex(m, q, t, e);
    }
  }

  lemma AtFits(m: seq<char>, p: nat, s: string)
    requires StringAt(m, p, s)
    ensures p + |s| < |m|
  {
  }

  lemma WordNotEmpty(t: string)
    requires t != "" && t[0] != ' '
    ensures WordLength(t) > 0
  {
  }

  /** Blanks in front make no difference to strtok_r. */
  lemma SameFirst(m: seq<char>, p: nat, q: nat)
    requires p <= q < |m| && SkipDelim(m, p, ' ') == q
    ensures StrTok(m, p, ' ') == StrTok(m, q, ' ')
  {
    assert SkipDelim(m, q, ' ') == q;
  }

  lemma AtTail(m: seq<char>, p: nat, s: string, n: nat)
    requires At(m, p, s) && n <= |s|
    ensures At(m, p + n, s[n..])
  {
    assert s == s[..n] + s[n..];
    AtConcat(m, p, s[..n], s[n..]);
  }

  lemma AtKeptAbove(m: seq<char>, n: seq<char>, p: nat, s: string)
    requires At(m, p, s) && |n| == |m| && forall k :: p <= k < |m| ==> n[k] == m[k]
    ensures At(n, p, s)
  {
  }

  // ---------------------------------------------------------------- specs in the buffer

  /** How many specs start in m at i or behind. */
  function SpecsFrom(m: seq<char>, i: nat): nat
    decreases |m| - i
  {
    if i >= |m| then 0 else (if RtpAt(m, i) then 1 else 0) + SpecsFrom(m, i + 1)
  }

  /** The count looks at the places of "RTP/" only. */
  lemma {:induction false} SameSpecs(m: seq<char>, n: seq<char>, i: nat)
    requires |m| == |n| && forall k :: i <= k < |m| ==> (RtpAt(m, k) <==> RtpAt(n, k))
    ensures SpecsFrom(m, i) == SpecsFrom(n, i)
    decreases |m| - i
  {
    hide RtpAt;
    if i < |m| {
      SameSpecs(m, n, i + 1);
    }
  }

  lemma {:induction false} SuffixSpecs(m: seq<char>, q: nat, i: nat)
    requires q <= |m|
    ensures SpecsFrom(m[q..], i) == SpecsFrom(m, q + i)
    decreases |m| - i
  {
    if q + i < |m| {
      SuffixSpecs(m, q, i + 1);
      assert forall k :: 0 <= k < |m| - q ==> m[q..][k] == m[q + k];
    }
  }

  /** Characters that became NULs make no spec, and take none away unless they belong to it. */
  lemma CutsKeepSpecs(m: seq<char>, n: seq<char>, i: nat)
    requires |n| == |m|
    requires forall k :: 0 <= k < |m| && n[k] != m[k] ==>
               n[k] == NUL && (k < i || (m[k] != 'R' && m[k] != 'T' && m[k] != 'P' && m[k] != '/'))
    ensures SpecsFrom(n, i) == SpecsFrom(m, i)
  {
    SameSpecs(m, n, i);
  }

  lemma {:induction false} ScanCount(m: seq<char>, i: nat, lines: seq<nat>)
    requires |lines| <= MAX_TRANSPORTS && Starts(m, lines) && forall k :: 0 <= k < |lines| ==> lines[k] < i
    ensures var n := |lines| + SpecsFrom(m, i);
            |ScanSpecs(m, i, |m|, lines).lines| == if n < MAX_TRANSPORTS then n else MAX_TRANSPORTS
    decreases |m| - i
  {
    hide TrimBack, RtpAt;
    if i < |m| && |lines| < MAX_TRANSPORTS {
      if RtpAt(m, i) {
        RtpStarts(m, i);
        var a := if lines == [] then m else assert lines[|lines| - 1] < i; TrimBack(m, i - 1, lines[|lines| - 1]);
        StartsTrimmed(m, a, lines, i);
        CutsKeepSpecs(m, a, i + 1);
        ScanCount(a, i + 1, lines + [i]);
      } else {
        ScanCount(m, i + 1, lines);
      }
    }
  }

  /** A value shorter than four characters: its scan stays in the buffer only if three specs stand there from the
      value on, and if the buffer ends with a NUL, as it does in run, exactly then. */
  lemma ScannableIff(m: seq<char>, save: nat)
    requires save <= |m| && |CStr(m, save)| < 4
    ensures Scannable(m, save) ==> SpecsFrom(m, save) >= 3
    ensures m != [] && m[|m| - 1] == NUL ==> (Scannable(m, save) <==> SpecsFrom(m, save) >= 3)
  {
    hide ScanSpecs, CStr;
    ScanCount(m, save, []);
    var s := ScanSpecs(m, save, |m|, []);
    if m != [] && m[|m| - 1] == NUL {
      forall k | 0 <= k < |s.lines|
        ensures Terminated(s.m, s.lines[k])
      {
        assert s.m[|m| - 1] == NUL;
      }
    }
  }

  // ---------------------------------------------------------------- header lines

  const NONE: seq<Transport> := [ZERO, ZERO, ZERO]

  /** Every option of the first three specs in the value is understood. */
  predicate OptionsUnderstood(value: string) {
    var n := value + [NUL];
    |CStr(n, 0)| >= 4 && ParseTransport(n, 0, NONE).ok
  }

  /** read_headers reads nothing after this line: it is blank, it lacks its number, or a transport option in it is
      not understood. */
  predicate Stops(line: string) {
    var ws := Words(line);
    ws == []
    || (if HasPrefixNoCase(ws[0], "CSeq:") || HasPrefixNoCase(ws[0], "Session:") then |ws| < 2
        else HasPrefixNoCase(ws[0], "Transport:") && !OptionsUnderstood(After(line)))
  }

  /** A Transport line with fewer than four characters behind the name and its blank. */
  predicate TooShort(line: string) {
    Words(line) != [] && HasPrefixNoCase(Words(line)[0], "Transport:") && |After(line)| < 4
  }

  /** Where the text behind the first word starts. */
  function ValueAt(line: string): (v: nat)
    ensures v <= |line|
  {
    |line| - |After(line)|
  }

  /** The header lines in the first size characters of t, with the rest of the buffer behind them. A line ends at its
      first NUL. One that is too short is scanned on, past its end, for three specs; if they are understood, reading
      goes on in what the scan has left. */
  ghost predicate HeadersInBounds(t: seq<char>, size: nat)
    requires size <= |t|
    decreases size
  {
    if size == 1 || NextLine(t[..size]).None? then true
    else
      var text := NextLine(t[..size]).value.text;
      var line, next := CStr(text, 0), |text| + 2;
      if TooShort(line) then
        var v := t[|text| := NUL][ValueAt(line)..];
        Scannable(v, 0) &&
        var r := ParseTransport(v, 0, NONE);
        r.ok ==> HeadersInBounds(r.m[next - ValueAt(line)..], size - next)
      else Stops(line) || HeadersInBounds(t[next..], size - next)
  }

  /** A first word that is neither a method of this server nor on its list of methods it does not support. */
  predicate NoMethod(word: string) {
    CommandOf(word) == UNKNOWN && !Unsupported(word)
  }

  /** A request of size characters at the front of the buffer t: the request line has three words or starts with one
      that is no method, and the headers that are read are in bounds. */
  ghost predicate InBounds(t: seq<char>, size: nat)
    requires size <= |t|
  {
    var text := SkipLeading(t[..size]);
    if |text| == 1 || NextLine(text).None? then true
    else
      var l := NextLine(text).value;
      var ws := Words(l.text);
      ws != [] &&
      (NoMethod(ws[0])
       || (|ws| >= 3 && (CommandOf(ws[0]) == UNKNOWN || HeadersInBounds(t[size - |l.rest|..], |l.rest|))))
  }

  lemma SuffixWindow(m: seq<char>, p: nat)
    requires p <= |m|
    ensures Window(m, p, m[p..])
  {
  }

  /** A value that is too short: scan and parse of it are those of the rest of the buffer. */
  lemma WrappedScan(m: seq<char>, p: nat, ts: seq<Transport>)
    requires p <= |m| && |ts| == MAX_TRANSPORTS
    ensures CStr(m, p) == CStr(m[p..], 0) && (Scannable(m, p) <==> Scannable(m[p..], 0))
    ensures Scannable(m, p) ==>
              var a, b := ParseTransport(m, p, ts), ParseTransport(m[p..], 0, NONE);
              a.ok == b.ok && |a.m| == |m| && a.m[p..] == b.m
  {
    hide Scannable, ParseTransport;
    var v := m[p..];
    SuffixWindow(m, p);
    TransportShift(m, p, v, 0, ts, NONE);
    if Scannable(m, p) {
      var a, b := ParseTransport(m, p, ts), ParseTransport(v, 0, NONE);
      forall i | 0 <= i < |v|
        ensures a.m[p..][i] == b.m[i]
      {
        AtIndex(a.m, p, b.m, i);
      }
    }
  }

  lemma UnderstoodAnywhere(m: seq<char>, p: nat, value: string, ts: seq<Transport>)
    requires StringAt(m, p, value) && NUL !in value && |value| >= 4 && |ts| == MAX_TRANSPORTS
    ensures CStr(m, p) == value && Scannable(m, p) && (ParseTransport(m, p, ts).ok <==> OptionsUnderstood(value))
  {
    hide ParseTransport, NulFrom, ScanSpecs;
    var n := value + [NUL];
    StringAtEnd(m, p, value);
    assert StringAt(n, 0, value);
    StringAtEnd(n, 0, value);
    assert At(m, p, n) by {
      AtSingle(m, p + |value|);
      AtConcat(m, p, value, [NUL]);
    }
    TransportShift(m, p, n, 0, ts, NONE);
  }

  lemma AtSingle(m: seq<char>, p: nat)
    requires p < |m| && m[p] == NUL
    ensures At(m, p, [NUL])
  {
  }

  /** The names that are looked for exclude one another. */
  lemma OneName(name: string)
    ensures HasPrefixNoCase(name, "Transport:") ==>
              !HasPrefixNoCase(name, "CSeq:") && !HasPrefixNoCase(name, "Session:") && !HasPrefixNoCase(name, "Accept:")
  {
    if HasPrefixNoCase(name, "Transport:") {
      assert Lower(name[0]) == Lower("Transport:"[0]) == 't';
    }
    assert HasPrefixNoCase(name, "CSeq:") ==> Lower(name[0]) == Lower("CSeq:"[0]);
    assert HasPrefixNoCase(name, "Session:") ==> Lower(name[0]) == Lower("Session:"[0]);
    assert HasPrefixNoCase(name, "Accept:") ==> Lower(name[0]) == Lower("Accept:"[0]);
  }

  /** A header line, wherever it stands. It is read within bounds if and only if it is not too short or the scan finds
      its three specs in the buffer. Reading goes on after it if and only if it does not stop; after one that is too
      short, if and only if those specs are understood, in the buffer their parse has left. */
  lemma HeaderLineIff(m: seq<char>, p: nat, line: string, h: Header)
    requires StringAt(m, p, line) && NUL !in line && |h.transport| == MAX_TRANSPORTS
    ensures var r, v := HeaderLine(m, p, h), m[p + ValueAt(line)..];
            && (r.defined <==> !TooShort(line) || Scannable(v, 0))
            && (!TooShort(line) ==> (r.go <==> !Stops(line)))
            && (TooShort(line) && Scannable(v, 0) ==>
                  var t := ParseTransport(v, 0, NONE);
                  (r.go <==> t.ok) && |r.m| == |m| && r.m[p + ValueAt(line)..] == t.m)
  {
    hide StrTok, Words, After, NulFrom, CStr, HasPrefixNoCase, HeaderValue, OptionsUnderstood, Scannable, ParseTransport;
    TokenOfText(m, p, line);
    var k := StrTok(m, p, ' ');
    if k.tok.Some? {
      HeaderValueIff(k.m, k.save, Words(line)[0], After(line), h);
      StrTokFrame(m, p, ' ', NulFrom(m, p));
      assert k.m[k.save..] == m[k.save..];
      assert |Words(line)| < 2 <==> Words(line)[1..] == [];
    }
  }

  lemma HeaderValueIff(m: seq<char>, save: nat, name: string, value: string, h: Header)
    requires StringAt(m, save, value) && NUL !in value && |h.transport| == MAX_TRANSPORTS
    ensures var r, short := HeaderValue(m, name, save, h), HasPrefixNoCase(name, "Transport:") && |value| < 4;
            && (r.defined <==> !short || Scannable(m[save..], 0))
            && (!short ==>
                  (r.go <==> if HasPrefixNoCase(name, "CSeq:") || HasPrefixNoCase(name, "Session:") then Words(value) != []
                             else HasPrefixNoCase(name, "Transport:") ==> OptionsUnderstood(value)))
            && (short && Scannable(m[save..], 0) ==>
                  var t := ParseTransport(m[save..], 0, NONE);
                  (r.go <==> t.ok) && |r.m| == |m| && r.m[save..] == t.m)
  {
    hide StrTok, Words, NulFrom, CStr, HasPrefixNoCase, OptionsUnderstood, ParseTransport, AcceptTokens, StrToLL, Scannable;
    OneName(name);
    StringAtEnd(m, save, value);
    TokenOfText(m, save, value);
    if HasPrefixNoCase(name, "Transport:") {
      if |value| >= 4 {
        UnderstoodAnywhere(m, save, value, h.transport);
      } else {
        WrappedScan(m, save, h.transport);
      }
    }
  }

  /** A header line changes nothing but its own characters, up to its NUL; a Transport line with fewer than four
      characters behind its name also what stands behind it in the buffer, where separators become NULs. */
  lemma HeaderLineFrame(m: seq<char>, p: nat, line: string, h: Header)
    requires StringAt(m, p, line) && NUL !in line && |h.transport| == MAX_TRANSPORTS
    ensures OnlyCuts(m, HeaderLine(m, p, h).m, p, if TooShort(line) then |m| else p + |line|)
  {
    hide StrTok, NulFrom, CStr, HasPrefixNoCase, ParseTransport, AcceptTokens, NumberValue, Scannable, Words, After;
    StringAtEnd(m, p, line);
    StrTokCuts(m, p, ' ');
    TokenOfText(m, p, line);
    var k := StrTok(m, p, ' ');
    var hi := if TooShort(line) then |m| else p + |line|;
    if k.tok.Some? {
      var name := CStr(k.m, k.tok.value);
      StringAtEnd(k.m, k.save, After(line));
      if HasPrefixNoCase(name, "Transport:") && Scannable(k.m, k.save) {
        TransportFrame(k.m, k.save, h.transport);
      }
      CutsChain(m, k.m, HeaderValue(k.m, name, k.save, h).m, p, hi);
    }
  }

  /** getline on a framed text: the line stands in the buffer as a string that ends at its first NUL, the rest is
      untouched. */
  lemma LineOfText(m: seq<char>, pos: nat, size: nat) returns (l: Line, line: string)
    requires pos + size <= |m| && Framed(m[pos..pos + size]) && m[pos..pos + size] != CRLF
    ensures size != 1 && NextLine(m[pos..pos + size]) == Some(l) && Framed(l.rest) && |l.text| + 2 + |l.rest| == size
    ensures line == CStr(l.text, 0) && NUL !in line && |line| <= |l.text| && (NUL !in l.text ==> line == l.text)
    ensures NUL !in m[pos..pos + size] ==> NUL !in l.text && NUL !in l.rest
    ensures var g := GetLineAt(m, pos, size);
            && g.line == Some(pos) && StringAt(g.m, pos, line) && g.pos == pos + |l.text| + 2 && g.size < size
            && g.m == m[pos + |l.text| := NUL] && g.m[g.pos..] == m[g.pos..] && g.m[g.pos..g.pos + g.size] == l.rest
  {
    hide NextLine, Framed, NulFrom;
    var s := m[pos..pos + size];
    FramedNext(s);
    FramedLength(s);
    l := NextLine(s).value;
    line := CStr(l.text, 0);
    PartsOf(m, pos, size, l.text, l.rest);
    FirstString(m[pos + |l.text| := NUL], pos, l.text);
  }

  lemma PartsOf(m: seq<char>, pos: nat, size: nat, a: string, b: string)
    requires pos + size <= |m| && m[pos..pos + size] == a + CRLF + b
    ensures NUL !in m[pos..pos + size] ==> NUL !in a && NUL !in b
    ensures |a| + 2 + |b| == size
    ensures var n := m[pos + |a| := NUL]; StringAt(n, pos, a) && n[pos + |a| + 2..pos + size] == b && n[pos + |a| + 2..] == m[pos + |a| + 2..]
  {
    var s, n := m[pos..pos + size], m[pos + |a| := NUL];
    assert |s| == |a| + 2 + |b|;
    forall i | 0 <= i < |a|
      ensures n[pos + i] == a[i] && a[i] in s
    {
      assert s[i] == a[i];
    }
    forall i | 0 <= i < |b|
      ensures n[pos + |a| + 2 + i] == b[i] && b[i] in s
    {
      assert s[|a| + 2 + i] == b[i];
    }
  }

  lemma FirstString(m: seq<char>, p: nat, a: string)
    requires StringAt(m, p, a)
    ensures var line := CStr(a, 0);
            StringAt(m, p, line) && NUL !in line && |line| <= |a| && (NUL !in a ==> line == a)
  {
    var e := NulFrom(a, 0);
    assert CStr(a, 0) == a[..e];
    assert e < |a| ==> a[e] == NUL && m[p + e] == a[e];
    forall i | 0 <= i < e
      ensures m[p + i] == a[..e][i]
    {
      assert m[p + i] == a[i];
    }
    if e < |a| {
      assert a[e] in a;
    }
  }

  lemma LinesStep(s: string, l: Line)
    requires |s| != 1 && NextLine(s) == Some(l)
    ensures Lines(s).lines == [l.text] + Lines(l.rest).lines
  {
    hide NextLine;
  }

  lemma NoLines(s: string)
    requires s == CRLF
    ensures NextLine(s) == None && Lines(s).lines == []
  {
    FramedNext(s);
  }

  // ---------------------------------------------------------------- the loop over the lines

  lemma {:induction false} ReadHeadersIff(m: seq<char>, pos: nat, size: nat, h: Header)
    requires pos + size <= |m| && Framed(m[pos..pos + size]) && |h.transport| == MAX_TRANSPORTS
    ensures ReadHeaders(m, pos, size, h).defined <==> HeadersInBounds(m[pos..], size)
    decreases size
  {
    hide NextLine, Framed, HeaderLine, Stops, TooShort, GetLineAt, NulFrom, OnlyCuts, CStr, ReadHeaders, HeadersInBounds, Scannable,
      ParseTransport, ValueAt, StringAt;
    var s, t := m[pos..pos + size], m[pos..];
    if s == CRLF {
      NothingToRead(m, pos, size, h);
    } else {
      var l, line := LineOfText(m, pos, size);
      var g := GetLineAt(m, pos, size);
      var r := HeaderLine(g.m, pos, h);
      UnfoldRead(m, pos, size, h);
      assert t[..size] == s;
      UnfoldBounds(t, size, l, line);
      if TooShort(line) {
        ShortStep(m, pos, l, line, h);
      } else {
        PlainStep(m, pos, l, line, h);
      }
      if r.defined && r.go {
        ReadHeadersIff(r.m, g.pos, g.size, r.h);
      }
    }
  }

  /** What one line that is not too short does to the rest of the text. */
  lemma PlainStep(m: seq<char>, pos: nat, l: Line, line: string, h: Header)
    requires pos + |l.text| + 2 + |l.rest| <= |m| && |line| <= |l.text| && Framed(l.rest) && |h.transport| == MAX_TRANSPORTS
    requires StringAt(m[pos + |l.text| := NUL], pos, line) && NUL !in line && !TooShort(line)
    requires m[pos + |l.text| + 2..][..|l.rest|] == l.rest
    ensures var r, next := HeaderLine(m[pos + |l.text| := NUL], pos, h), pos + |l.text| + 2;
            && r.defined && (r.go <==> !Stops(line)) && |r.m| == |m|
            && r.m[next..] == m[pos..][|l.text| + 2..] && Framed(r.m[next..next + |l.rest|])
  {
    hide Framed, HeaderLine, Stops, TooShort, StringAt, ValueAt, Scannable, ParseTransport;
    var n, next := m[pos + |l.text| := NUL], pos + |l.text| + 2;
    HeaderLineIff(n, pos, line, h);
    HeaderLineFrame(n, pos, line, h);
    var r := HeaderLine(n, pos, h);
    SuffixKept(n, r.m, pos, pos + |line|, next, |l.rest|);
    assert n[next..] == m[next..];
    assert r.m[next..next + |l.rest|] == r.m[next..][..|l.rest|];
  }

  /** What one line that is too short does to the rest of the text. */
  lemma ShortStep(m: seq<char>, pos: nat, l: Line, line: string, h: Header)
    requires pos + |l.text| + 2 + |l.rest| <= |m| && |line| <= |l.text| && Framed(l.rest) && |h.transport| == MAX_TRANSPORTS
    requires StringAt(m[pos + |l.text| := NUL], pos, line) && NUL !in line && TooShort(line)
    requires m[pos + |l.text| + 2..][..|l.rest|] == l.rest
    ensures var r, next := HeaderLine(m[pos + |l.text| := NUL], pos, h), pos + |l.text| + 2;
            var v := m[pos..][|l.text| := NUL][ValueAt(line)..];
            && (r.defined <==> Scannable(v, 0))
            && (r.defined ==>
                  var t := ParseTransport(v, 0, NONE);
                  && (r.go <==> t.ok) && |r.m| == |m| && Framed(r.m[next..next + |l.rest|])
                  && r.m[next..] == t.m[|l.text| + 2 - ValueAt(line)..])
  {
    hide Framed, HeaderLine, TooShort, StringAt, ValueAt, Scannable, ParseTransport, OnlyCuts;
    var n, next, at := m[pos + |l.text| := NUL], pos + |l.text| + 2, ValueAt(line);
    HeaderLineIff(n, pos, line, h);
    HeaderLineFrame(n, pos, line, h);
    assert n[pos + at..] == m[pos..][|l.text| := NUL][at..];
    var r := HeaderLine(n, pos, h);
    if r.defined {
      assert n[next..next + |l.rest|] == m[next..][..|l.rest|];
      FramedKept(n, r.m, pos, next, |l.rest|);
      assert r.m[next..] == r.m[pos + at..][|l.text| + 2 - at..];
    }
  }

  lemma UnfoldRead(m: seq<char>, pos: nat, size: nat, h: Header)
    requires pos + size <= |m| && |h.transport| == MAX_TRANSPORTS && size != 1 && GetLineAt(m, pos, size).line == Some(pos)
    requires pos <= |m|
    ensures var g := GetLineAt(m, pos, size);
            var r := HeaderLine(g.m, pos, h);
            && |r.m| == |m| && g.pos + g.size <= |r.m| && |r.h.transport| == MAX_TRANSPORTS
            && (ReadHeaders(m, pos, size, h).defined <==>
                  r.defined && (r.go ==> ReadHeaders(r.m, g.pos, g.size, r.h).defined))
  {
    hide GetLineAt, HeaderLine;
  }

  lemma UnfoldBounds(t: seq<char>, size: nat, l: Line, line: string)
    requires size <= |t| && size != 1 && NextLine(t[..size]) == Some(l) && line == CStr(l.text, 0) && |line| <= |l.text|
    requires |l.text| + 2 <= size
    ensures !TooShort(line) ==>
              (HeadersInBounds(t, size) <==> Stops(line) || HeadersInBounds(t[|l.text| + 2..], size - |l.text| - 2))
    ensures TooShort(line) ==>
              var v := t[|l.text| := NUL][ValueAt(line)..];
              HeadersInBounds(t, size) <==>
                && Scannable(v, 0)
                && var r := ParseTransport(v, 0, NONE);
                   (r.ok ==> HeadersInBounds(r.m[|l.text| + 2 - ValueAt(line)..], size - |l.text| - 2))
  {
    hide NextLine, TooShort, Stops, Scannable, ParseTransport, CStr, ValueAt;
  }

  lemma NothingToRead(m: seq<char>, pos: nat, size: nat, h: Header)
    requires pos + size <= |m| && m[pos..pos + size] == CRLF && |h.transport| == MAX_TRANSPORTS
    ensures ReadHeaders(m, pos, size, h).defined && HeadersInBounds(m[pos..], size)
  {
    hide NextLine;
    NoLines(m[pos..pos + size]);
    assert m[pos..][..size] == m[pos..pos + size];
  }

  /** Cuts leave every CRLF where it is. */
  lemma FramedKept(m: seq<char>, n: seq<char>, lo: nat, pos: nat, size: nat)
    requires OnlyCuts(m, n, lo, |m|) && pos + size <= |m| && Framed(m[pos..pos + size])
    ensures |n| == |m| && Framed(n[pos..pos + size])
  {
    var s, t := m[pos..pos + size], n[pos..pos + size];
    assert forall i :: 0 <= i < size && (s[i] == '\r' || s[i] == '\n') ==> t[i] == n[pos + i] == m[pos + i] == s[i];
    if s == CRLF {
      assert s[0] == '\r' && s[1] == '\n';
      assert t == CRLF;
    } else {
      assert CrlfAt(s, |s| - 4) && CrlfAt(s, |s| - 2);
      assert CrlfAt(t, |t| - 4) && CrlfAt(t, |t| - 2);
    }
  }

  lemma SuffixKept(m: seq<char>, n: seq<char>, lo: nat, hi: nat, pos: nat, size: nat)
    requires OnlyCuts(m, n, lo, hi) && hi <= pos && pos + size <= |m|
    ensures |n| == |m| && n[pos..] == m[pos..] && n[pos..pos + size] == m[pos..pos + size]
  {
  }

  // ---------------------------------------------------------------- the request

  lemma ParseLineIff(m: seq<char>, line: nat, text: string, pos: nat, size: nat)
    requires StringAt(m, line, text) && NUL !in text && pos + size <= |m| && line + |text| <= pos
    requires Framed(m[pos..pos + size])
    ensures var ws := Words(text);
            ParseLine(m, line, pos, size).defined <==>
              (ws != [] &&
               (NoMethod(ws[0]) || (|ws| >= 3 && (CommandOf(ws[0]) == UNKNOWN || HeadersInBounds(m[pos..], size)))))
  {
    hide StrTok, Words, After, NulFrom, CStr, CommandOf, Unsupported, Framed, HeadersInBounds, ParseRest, OnlyCuts, StringAt;
    TokenOfText(m, line, text);
    StringAtEnd(m, line, text);
    StrTokCuts(m, line, ' ');
    var a := StrTok(m, line, ' ');
    if a.tok.Some? {
      SuffixKept(m, a.m, line, NulFrom(m, line), pos, size);
      ParseRestIff(a.m, CommandOf(Words(text)[0]), a.save, After(text), pos, size);
    }
  }

  lemma ParseRestIff(m: seq<char>, cmd: Command, save: nat, text: string, pos: nat, size: nat)
    requires StringAt(m, save, text) && NUL !in text && pos + size <= |m| && save + |text| <= pos
    requires Framed(m[pos..pos + size])
    ensures ParseRest(m, cmd, save, pos, size).defined <==>
              |Words(text)| >= 2 && (cmd == UNKNOWN || HeadersInBounds(m[pos..], size))
  {
    hide StrTok, Words, After, NulFrom, CStr, Framed, HeadersInBounds, OnlyCuts, StringAt, ReadHeaders, ResolveHeader;
    TokenOfText(m, save, text);
    StringAtEnd(m, save, text);
    StrTokCuts(m, save, ' ');
    var b := StrTok(m, save, ' ');
    if b.tok.Some? {
      SuffixKept(m, b.m, save, NulFrom(m, save), pos, size);
      var t := After(text);
      TokenOfText(b.m, b.save, t);
      StringAtEnd(b.m, b.save, t);
      StrTokCuts(b.m, b.save, ' ');
      var c := StrTok(b.m, b.save, ' ');
      SuffixKept(b.m, c.m, b.save, NulFrom(b.m, b.save), pos, size);
      ReadHeadersIff(c.m, pos, size, NO_HEADER.(acceptSdp := true));
      assert |Words(text)| == 1 + |Words(t)|;
    }
  }

  /** For every request text as run hands it over - it ends in a blank line and holds no NUL - in any buffer: the
      parser keeps within bounds if and only if the request is in bounds. */
  lemma DefinedIff(m: seq<char>, sz: nat)
    requires sz <= |m| && EndsBlank(m[..sz]) && NUL !in m[..sz]
    ensures ParseRequest(m, sz).defined <==> InBounds(m, sz)
  {
    hide NextLine, SkipAt, Framed, GetLineAt, ParseLine, Words, CommandOf, Unsupported, NoMethod, HeadersInBounds, SkipLeading,
      NulFrom, CStr;
    var s := Skipped(m, sz);
    var g0 := SkipAt(m, 0, sz);
    if s == CRLF {
      NoLines(s);
      NoRequest(m, sz, g0);
    } else {
      var l, line := LineOfText(g0.m, g0.pos, g0.size);
      var g := GetLineAt(g0.m, g0.pos, g0.size);
      ParseLineIff(g.m, g0.pos, l.text, g.pos, g.size);
      assert m[g.pos..] == m[g0.pos..][g.pos - g0.pos..] == g0.m[g0.pos..][g.pos - g0.pos..] == g0.m[g.pos..];
    }
  }

  /** What the constructor leaves of such a text is such a text. */
  lemma Skipped(m: seq<char>, sz: nat) returns (s: string)
    requires sz <= |m| && EndsBlank(m[..sz]) && NUL !in m[..sz]
    ensures s == SkipLeading(m[..sz]) && Framed(s) && NUL !in s && sz > 0 && |s| != 1
    ensures var g := SkipAt(m, 0, sz);
            g.pos + g.size <= |g.m| && s == g.m[g.pos..g.pos + g.size] && g.pos + g.size == sz && g.m[g.pos..] == m[g.pos..]
  {
    hide SkipAt, SkipLeading, Framed;
    s := SkipLeading(m[..sz]);
    assert m[0..0 + sz] == m[..sz];
    BlankIsFramed(m[..sz]);
    SkipAtText(m, 0, sz);
    FramedSkip(m[..sz]);
    FramedLength(s);
    SkipKeepsText(m[..sz]);
  }

  lemma BlankIsFramed(s: string)
    requires EndsBlank(s)
    ensures Framed(s)
  {
  }

  lemma NoRequest(m: seq<char>, sz: nat, g0: Got)
    requires 0 < sz <= |m| && g0 == SkipAt(m, 0, sz) && g0.pos + g0.size <= |g0.m| && g0.m[g0.pos..g0.pos + g0.size] == CRLF
    ensures ParseRequest(m, sz).defined && ParseRequest(m, sz).req == Garbled
  {
    hide NextLine, SkipAt;
    NoLines(g0.m[g0.pos..g0.pos + g0.size]);
  }

  lemma SkipKeepsText(s: string)
    ensures forall c :: c in SkipLeading(s) ==> c in s
  {
    var n := SkipIsExact(s);
    assert s == Repeat(CRLF, n) + SkipLeading(s);
  }

  // ---------------------------------------------------------------- in terms of the lines

  /** Nothing stops the reading before line k, and no line before it is too short. */
  predicate Reached(lines: seq<string>, k: nat)
    requires k <= |lines|
  {
    forall j :: 0 <= j < k ==> !Stops(lines[j]) && !TooShort(lines[j])
  }

  lemma ReachedLater(line: string, rest: seq<string>, k: nat)
    requires k <= |rest|
    ensures Reached([line] + rest, k + 1) <==> !Stops(line) && !TooShort(line) && Reached(rest, k)
  {
    hide Stops, TooShort;
    var all := [line] + rest;
    assert all[0] == line && forall j :: 0 <= j < k ==> all[j + 1] == rest[j];
    if !Stops(line) && !TooShort(line) && Reached(rest, k) {
      forall j | 0 <= j < k + 1
        ensures !Stops(all[j]) && !TooShort(all[j])
      {
        assert j > 0 ==> all[j] == rest[j - 1];
      }
    }
  }

  lemma NothingBefore(lines: seq<string>)
    ensures Reached(lines, 0)
  {
  }

  /** When no line that is reached is too short, the headers are in bounds, whatever stands behind them. */
  lemma {:induction false} NoShortLine(t: seq<char>, size: nat)
    requires size <= |t| && Framed(t[..size]) && NUL !in t[..size]
    requires var ls := Lines(t[..size]).lines; forall k :: 0 <= k < |ls| && Reached(ls, k) ==> !TooShort(ls[k])
    ensures HeadersInBounds(t, size)
    decreases size
  {
    hide NextLine, Framed, Stops, TooShort, GetLineAt, NulFrom, CStr, HeadersInBounds, Reached, Lines;
    assert t[0..0 + size] == t[..size];
    if t[..size] == CRLF {
      NothingToRead(t, 0, size, NO_HEADER);
      assert t[0..] == t;
    } else {
      var l, line := LineOfText(t, 0, size);
      LinesStep(t[..size], l);
      var all, rest, next := Lines(t[..size]).lines, Lines(l.rest).lines, |l.text| + 2;
      NothingBefore(all);
      assert !TooShort(all[0]);
      UnfoldBounds(t, size, l, line);
      RestOfText(t, size, l);
      if !Stops(line) {
        forall k | 0 <= k < |rest| && Reached(rest, k)
          ensures !TooShort(rest[k])
        {
          ReachedLater(l.text, rest, k);
          assert all[k + 1] == rest[k];
        }
        NoShortLine(t[next..], size - next);
      }
    }
  }

  lemma RestOfText(t: seq<char>, size: nat, l: Line)
    requires size <= |t| && size != 1 && NextLine(t[..size]) == Some(l)
    ensures |l.text| + 2 <= size && t[|l.text| + 2..][..size - |l.text| - 2] == l.rest
  {
    hide NextLine;
    assert t[..size] == l.text + CRLF + l.rest;
    assert t[..size][|l.text| + 2..] == l.rest;
  }

  /** A framed text whose first line this is. */
  ghost predicate FirstLineIs(t: seq<char>, size: nat, line: string) {
    size <= |t| && size != 1 && Framed(t[..size]) && NextLine(t[..size]).Some? && NextLine(t[..size]).value.text == line
  }

  /** The place of line k. */
  function PlaceOf(lines: seq<string>, k: nat): nat
    requires k <= |lines|
  {
    |Join(lines[..k])|
  }

  lemma PlaceLater(line: string, rest: seq<string>, k: nat)
    requires k <= |rest|
    ensures PlaceOf([line] + rest, k + 1) == |line| + 2 + PlaceOf(rest, k)
  {
    var ls := [line] + rest;
    assert ls[..k + 1][0] == line && ls[..k + 1][1..] == rest[..k];
  }

  /** The first line that is reached and too short decides: up to it, the headers are in bounds. */
  lemma {:induction false} FirstShortLine(t: seq<char>, size: nat, k: nat)
    requires size <= |t| && Framed(t[..size]) && NUL !in t[..size]
    requires k < |Lines(t[..size]).lines| && Reached(Lines(t[..size]).lines, k) && TooShort(Lines(t[..size]).lines[k])
    ensures var ls := Lines(t[..size]).lines;
            var p := PlaceOf(ls, k);
            p <= size && FirstLineIs(t[p..], size - p, ls[k]) && (HeadersInBounds(t, size) <==> HeadersInBounds(t[p..], size - p))
    decreases k
  {
    hide NextLine, Framed, Stops, TooShort, GetLineAt, NulFrom, CStr, HeadersInBounds, Reached, Lines, PlaceOf;
    assert t[0..0 + size] == t[..size];
    var ls := Lines(t[..size]).lines;
    if t[..size] == CRLF {
      NoLines(t[..size]);
      assert false;
    }
    var l, line := LineOfText(t, 0, size);
    LinesStep(t[..size], l);
    if k == 0 {
      assert PlaceOf(ls, 0) == 0 by { PlaceOfFirst(ls); }
      assert t[0..] == t;
    } else {
      RestOfText(t, size, l);
      UnfoldBounds(t, size, l, line);
      var rest, next := Lines(l.rest).lines, |l.text| + 2;
      NothingBefore(rest);
      ReachedLater(l.text, rest, k - 1);
      PlaceLater(l.text, rest, k - 1);
      FirstShortLine(t[next..], size - next, k - 1);
      var q := PlaceOf(rest, k - 1);
      assert t[next..][q..] == t[next + q..];
    }
  }

  lemma PlaceOfFirst(lines: seq<string>)
    ensures PlaceOf(lines, 0) == 0
  {
  }

  /** And it is out of bounds if fewer than three specs stand in the buffer from its value on. */
  lemma ShortLineOut(t: seq<char>, size: nat, k: nat)
    requires size <= |t| && Framed(t[..size]) && NUL !in t[..size]
    requires k < |Lines(t[..size]).lines| && Reached(Lines(t[..size]).lines, k) && TooShort(Lines(t[..size]).lines[k])
    requires SpecsFrom(t, PlaceOf(Lines(t[..size]).lines, k) + ValueAt(Lines(t[..size]).lines[k])) < 3
    ensures !HeadersInBounds(t, size)
  {
    hide NextLine, Framed, Stops, TooShort, NulFrom, HeadersInBounds, Reached, Lines, ValueAt, SpecsFrom, PlaceOf, CStr, FirstLineIs;
    var line, p := Lines(t[..size]).lines[k], PlaceOf(Lines(t[..size]).lines, k);
    FirstShortLine(t, size, k);
    LineOut(t, size, p, line);
  }

  lemma LineOut(t: seq<char>, size: nat, p: nat, line: string)
    requires p <= size <= |t| && NUL !in t[..size] && FirstLineIs(t[p..], size - p, line) && TooShort(line)
    requires SpecsFrom(t, p + ValueAt(line)) < 3
    ensures !HeadersInBounds(t[p..], size - p)
  {
    hide TooShort, HeadersInBounds, ValueAt, SpecsFrom, FirstLineIs, Scannable, ParseTransport, Behind;
    NoNulBehind(t, size, p);
    FirstLineShort(t[p..], size - p, line);
    SuffixSpecs(t, p, ValueAt(line));
  }

  lemma NoNulBehind(t: seq<char>, size: nat, p: nat)
    requires p <= size <= |t| && NUL !in t[..size]
    ensures NUL !in t[p..][..size - p]
  {
    assert t[p..][..size - p] == t[..size][p..];
  }

  /** The buffer from the value of its first line on, that line being ended. */
  function Behind(u: seq<char>, line: string): (v: seq<char>)
    requires |line| < |u|
    ensures |v| == |u| - ValueAt(line)
  {
    u[|line| := NUL][ValueAt(line)..]
  }

  /** A first line that is too short: in bounds if and only if the scan finds its specs and, if they are understood,
      the rest is in bounds. In a buffer that ends with a NUL it finds them if and only if three stand there from the
      value on; in any buffer it needs three. */
  lemma FirstLineShort(u: seq<char>, size: nat, line: string)
    requires FirstLineIs(u, size, line) && NUL !in u[..size] && TooShort(line)
    ensures |line| + 2 <= size <= |u|
    ensures HeadersInBounds(u, size) <==>
              && Scannable(Behind(u, line), 0)
              && var r := ParseTransport(Behind(u, line), 0, NONE);
                 (r.ok ==> HeadersInBounds(r.m[|line| + 2 - ValueAt(line)..], size - |line| - 2))
    ensures Scannable(Behind(u, line), 0) ==> SpecsFrom(u, ValueAt(line)) >= 3
    ensures |line| + 1 < |u| && u[|u| - 1] == NUL ==> (Scannable(Behind(u, line), 0) <==> SpecsFrom(u, ValueAt(line)) >= 3)
  {
    hide NextLine, Framed, TooShort, NulFrom, HeadersInBounds, ValueAt, SpecsFrom, CStr, Scannable, ParseTransport;
    var l := NextLine(u[..size]).value;
    assert u[0..0 + size] == u[..size];
    if u[..size] == CRLF {
      NoLines(u[..size]);
      assert false;
    }
    var l2, line2 := LineOfText(u, 0, size);
    RestOfText(u, size, l);
    UnfoldBounds(u, size, l, line);
    LineFirst(u, size, l);
    ValueIsShort(u, line);
    ScannableIff(Behind(u, line), 0);
    SpecsInSuffix(u, line);
  }

  lemma LineFirst(u: seq<char>, size: nat, l: Line)
    requires size <= |u| && size != 1 && NextLine(u[..size]) == Some(l)
    ensures |l.text| < |u| && u[..|l.text|] == l.text && u[|l.text|] == '\r'
  {
    hide NextLine;
    var s := u[..size];
    assert s == l.text + CRLF + l.rest;
    assert s[..|l.text|] == l.text && s[|l.text|] == '\r';
  }

  lemma ValueIsShort(u: seq<char>, line: string)
    requires |line| < |u| && TooShort(line) && u[..|line|] == line
    ensures |CStr(u[|line| := NUL][ValueAt(line)..], 0)| < 4
  {
    hide Words, After;
    var v := u[|line| := NUL][ValueAt(line)..];
    assert v[|After(line)|] == NUL;
  }

  /** The NUL at the end of the line makes no difference to the specs behind it. */
  lemma SpecsInSuffix(u: seq<char>, line: string)
    requires |line| < |u| && u[|line|] == '\r'
    ensures SpecsFrom(u[|line| := NUL][ValueAt(line)..], 0) == SpecsFrom(u, ValueAt(line))
  {
    hide After;
    SuffixSpecs(u[|line| := NUL], ValueAt(line), 0);
    CutsKeepSpecs(u, u[|line| := NUL], ValueAt(line));
  }

  // ---------------------------------------------------------------- requests that are out of bounds

  /** A Transport header with fewer than four characters behind its blank. */
  lemma ShortValue(value: string)
    requires |value| < 4
    ensures After("Transport: " + value) == value && TooShort("Transport: " + value)
  {
    hide After, Words;
    FirstWord("Transport:", value);
    Associate("Transport:", [' '], value);
    assert "Transport: " == "Transport:" + [' '];
  }

  /** A Transport header without a blank behind the colon, however long. */
  lemma NoBlank(value: string)
    requires ' ' !in value
    ensures After("Transport:" + value) == "" && TooShort("Transport:" + value)
  {
    hide After, Words;
    OnlyWord("Transport:" + value);
    assert ("Transport:" + value)[..10] == "Transport:";
  }

  lemma FirstWord(word: string, rest: string)
    requires word != "" && ' ' !in word
    ensures After(word + ([' '] + rest)) == rest && Words(word + ([' '] + rest)) == [word] + Words(rest)
  {
    hide Blanks, WordLength;
    var s := word + ([' '] + rest);
    assert s[0] == word[0] && s[|word|] == ' ';
    assert Blanks(s) == 0;
    assert forall k :: 0 <= k < |word| ==> s[k] == word[k] && word[k] in word;
    assert WordLength(s) == |word|;
    assert s[0..] == s && s[|word| + 1..] == rest && s[..|word|] == word;
  }

  lemma OnlyWord(word: string)
    requires word != "" && ' ' !in word
    ensures After(word) == "" && Words(word) == [word]
  {
    hide Blanks, WordLength;
    assert word[0] in word;
    assert Blanks(word) == 0;
    assert forall k :: 0 <= k < |word| ==> word[k] in word;
    assert WordLength(word) == |word|;
    assert word[0..] == word && word[..|word|] == word;
    NoWords();
  }

  lemma NoWords()
    ensures Words("") == []
  {
  }
}
