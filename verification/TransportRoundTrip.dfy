/** parse_transport is the inverse of the printer: up to three printed specs come back in order. */
module TransportRoundTrip {
  import opened CStrings
  import opened TransportParsing
  import opened TransportGrammar

  // ---------------------------------------------------------------- where "RTP/" can stand

  lemma FreeOpts(opts: seq<Opt>, d: char)
    requires opts != [] && ValidOpts(opts) && Cut(d) && d != ';'
    ensures FreeOf(PrintOpts(opts), d)
    decreases |opts|
  {
    hide PrintOpt;
    PrintOptPlain(opts[0]);
    if |opts| > 1 {
      FreeOpts(opts[1..], d);
      FreeConcat(PrintOpt(opts[0]), [';'], d);
      FreeConcat(PrintOpt(opts[0]) + [';'], PrintOpts(opts[1..]), d);
    }
  }

  /** What follows the first four characters of a spec. */
  function SpecTail(s: Spec): string {
    if s.opts == [] then ProtocolTail(s) else ProtocolTail(s) + [';'] + PrintOpts(s.opts)
  }

  lemma SpecSplit(s: Spec)
    ensures PrintSpec(s) == "RTP/" + SpecTail(s)
  {
    hide ProtocolTail, PrintOpts;
    if s.opts != [] {
      var a, b, c := "RTP/", ProtocolTail(s), [';'] + PrintOpts(s.opts);
      assert a + b + [';'] + PrintOpts(s.opts) == a + b + c;
      assert b + [';'] + PrintOpts(s.opts) == b + c;
      assert (a + b) + c == a + (b + c);
    }
  }

  lemma FreeSpec(s: Spec, d: char)
    requires PlainSpec(s) && (d == ' ' || d == ',')
    ensures FreeOf(PrintSpec(s), d)
  {
    hide PrintOpts;
    FreeConcat(s.profile, ['/'], d);
    if s.lower.Some? {
      FreeConcat(s.profile + ['/'], s.lower.value, d);
    }
    FreeConcat("RTP/", ProtocolTail(s), d);
    if s.opts != [] {
      FreeOpts(s.opts, d);
      FreeConcat(PrintProtocol(s), [';'], d);
      FreeConcat(PrintProtocol(s) + [';'], PrintOpts(s.opts), d);
    }
  }

  lemma FoundBefore(a: string, b: string, d: char, x: nat)
    requires d !in b && x < |a + b| && (a + b)[x] == d
    ensures x < |a| && a[x] == d
  {
  }

  /** After the first four characters a spec has at most one more slash, before the lower transport. */
  lemma SlashAt(s: Spec, x: nat)
    requires PlainSpec(s) && x < |SpecTail(s)| && SpecTail(s)[x] == '/'
    ensures x == |s.profile| && s.lower.Some?
  {
    hide PrintOpts;
    if s.opts != [] {
      FreeOpts(s.opts, '/');
      FoundBefore(ProtocolTail(s) + [';'], PrintOpts(s.opts), '/', x);
      FoundBefore(ProtocolTail(s), [';'], '/', x);
    }
  }

  lemma ProfileChars(s: Spec, x: nat)
    requires x < |s.profile|
    ensures |s.profile| <= |SpecTail(s)| && SpecTail(s)[x] == s.profile[x]
  {
    hide PrintOpts;
  }

  /** Inside a spec, "RTP/" stands only at its start. */
  lemma NoRtpInside(m: seq<char>, i: nat, s: Spec, k: nat)
    requires ValidSpec(s) && At(m, i, "RTP/" + SpecTail(s)) && i < k && k + 3 < i + 4 + |SpecTail(s)|
    ensures !RtpAt(m, k)
  {
    hide SpecTail, PrintOpts;
    var t := "RTP/" + SpecTail(s);
    var x := k + 3 - i - 4;
    AtIndex(m, i, t, k + 3 - i);
    assert t[k + 3 - i] == SpecTail(s)[x];
    if SpecTail(s)[x] == '/' {
      SlashAt(s, x);
      var n := |s.profile|;
      AtIndex(m, i, t, k - i);
      if n >= 3 {
        AtIndex(m, i, t, k + 1 - i);
        AtIndex(m, i, t, k + 2 - i);
        ProfileChars(s, n - 3);
        ProfileChars(s, n - 2);
        ProfileChars(s, n - 1);
        assert m[k] == s.profile[n - 3] && m[k + 1] == s.profile[n - 2] && m[k + 2] == s.profile[n - 1];
        assert s.profile[n - 3..] == [m[k], m[k + 1], m[k + 2]];
      } else {
        assert k - i == 1 + n;
        assert t[k - i] == "RTP/"[k - i];
      }
    }
  }

  /** The text that the scan passes between one start and the next. */
  ghost predicate Quiet(m: seq<char>, i: nat, j: nat) {
    forall k :: i <= k < j ==> !RtpAt(m, k)
  }

  lemma QuietLast(m: seq<char>, i: nat, s: Spec)
    requires ValidSpec(s) && At(m, i, PrintSpec(s))
    ensures Quiet(m, i + 1, i + |PrintSpec(s)| - 3)
  {
    hide RtpAt, SpecTail, PrintSpec;
    SpecSplit(s);
    forall k | i < k < i + |PrintSpec(s)| - 3
      ensures !RtpAt(m, k)
    {
      NoRtpInside(m, i, s, k);
    }
  }

  lemma QuietGap(m: seq<char>, i: nat, s: Spec, next: string)
    requires ValidSpec(s) && At(m, i, PrintSpec(s) + [',', ' '] + ("RTP/" + next))
    ensures Quiet(m, i + 1, i + |PrintSpec(s)| + 2)
  {
    hide SpecTail, PrintSpec;
    var e := i + |PrintSpec(s)|;
    AtConcat(m, i, PrintSpec(s) + [',', ' '], "RTP/" + next);
    AtConcat(m, i, PrintSpec(s), [',', ' ']);
    AtConcat(m, e + 2, "RTP/", next);
    AtIndex(m, e, [',', ' '], 0);
    AtIndex(m, e, [',', ' '], 1);
    AtIndex(m, e + 2, "RTP/", 0);
    AtIndex(m, e + 2, "RTP/", 1);
    AtIndex(m, e + 2, "RTP/", 2);
    QuietLast(m, i, s);
  }

  // ---------------------------------------------------------------- the scan

  lemma {:induction false} ScanQuiet(m: seq<char>, i: nat, j: nat, end: nat, lines: seq<nat>)
    requires i <= j <= end <= |m| && |lines| <= MAX_TRANSPORTS && Starts(m, lines) && Quiet(m, i, j)
    requires forall k :: 0 <= k < |lines| ==> lines[k] < i
    ensures ScanSpecs(m, i, end, lines) == ScanSpecs(m, j, end, lines)
    decreases j - i
  {
    if i < j {
      ScanQuiet(m, i + 1, j, end, lines);
    }
  }

  function StartsOf(p: nat, specs: seq<Spec>): seq<nat>
    decreases |specs|
  {
    if specs == [] then [] else [p] + StartsOf(p + |PrintSpec(specs[0])| + 2, specs[1..])
  }

  predicate ValidSpecs(specs: seq<Spec>) {
    forall k :: 0 <= k < |specs| ==> ValidSpec(specs[k])
  }

  lemma ValidIsPlain(s: Spec)
    requires ValidSpec(s)
    ensures PlainSpec(s)
  {
  }

  /** Every spec stands at its start as a string of its own. */
  ghost predicate Laid(m: seq<char>, p: nat, specs: seq<Spec>)
    decreases |specs|
  {
    specs == []
    || (StringAt(m, p, PrintSpec(specs[0])) && Laid(m, p + |PrintSpec(specs[0])| + 2, specs[1..]))
  }

  lemma {:induction false} LaidKept(m: seq<char>, n: seq<char>, p: nat, specs: seq<Spec>)
    requires Laid(m, p, specs) && |n| == |m| && (forall k :: p <= k < |m| ==> n[k] == m[k])
    ensures Laid(n, p, specs)
    decreases |specs|
  {
    hide PrintSpec;
    if specs != [] {
      var e := p + |PrintSpec(specs[0])|;
      assert n[e] == m[e];
      LaidKept(m, n, e + 2, specs[1..]);
    }
  }

  /** Two separators stand before i, and a character that is kept before them. */
  ghost predicate Separated(m: seq<char>, last: nat, i: nat) {
    && last + 3 <= i <= |m| && m[i - 1] == ' ' && m[i - 2] == ','
    && m[i - 3] != ' ' && m[i - 3] != ','
  }

  lemma TrimSeparator(m: seq<char>, last: nat, i: nat)
    requires Separated(m, last, i)
    ensures TrimBack(m, i - 1, last) == m[i - 1 := NUL][i - 2 := NUL]
  {
    var m1 := m[i - 1 := NUL];
    assert TrimBack(m, i - 1, last) == TrimBack(m1, i - 2, last);
    var m2 := m1[i - 2 := NUL];
    assert TrimBack(m1, i - 2, last) == TrimBack(m2, i - 3, last);
    assert m2[i - 3] == m[i - 3];
    assert TrimBack(m2, i - 3, last) == m2;
  }

  lemma SpecStart(m: seq<char>, i: nat, s: Spec)
    requires PlainSpec(s) && At(m, i, PrintSpec(s))
    ensures |PrintSpec(s)| >= 5 && RtpAt(m, i)
    ensures m[i + |PrintSpec(s)| - 1] != ' ' && m[i + |PrintSpec(s)| - 1] != ','
  {
    hide PrintSpec, PlainSpec;
    FirstAndLast(s);
    var n := |PrintSpec(s)| - 1;
    AtIndex(m, i, PrintSpec(s), 0);
    AtIndex(m, i, PrintSpec(s), 1);
    AtIndex(m, i, PrintSpec(s), 2);
    AtIndex(m, i, PrintSpec(s), 3);
    AtIndex(m, i, PrintSpec(s), n);
  }

  lemma FirstAndLast(s: Spec)
    requires PlainSpec(s)
    ensures var t := PrintSpec(s);
            && |t| >= 5 && t[0] == 'R' && t[1] == 'T' && t[2] == 'P' && t[3] == '/' && t[|t| - 1] != ' ' && t[|t| - 1] != ','
  {
    hide PrintSpec, SpecTail;
    SpecSplit(s);
    TailNotEmpty(s);
    FreeSpec(s, ' ');
    FreeSpec(s, ',');
    var t := PrintSpec(s);
    assert t[|t| - 1] in t;
  }

  lemma TailNotEmpty(s: Spec)
    requires PlainSpec(s)
    ensures SpecTail(s) != ""
  {
    hide PrintOpts;
    ProfileChars(s, 0);
  }

  /** The separators before i cut, when a spec came before. */
  function Trimmed(m: seq<char>, i: nat, lines: seq<nat>): seq<char>
    requires lines != [] ==> 2 <= i <= |m|
  {
    if lines == [] then m else m[i - 1 := NUL][i - 2 := NUL]
  }

  lemma ScanStart(m: seq<char>, i: nat, end: nat, lines: seq<nat>)
    requires i < end <= |m| && |lines| < MAX_TRANSPORTS && Starts(m, lines) && RtpAt(m, i)
    requires forall k :: 0 <= k < |lines| ==> lines[k] < i
    requires lines != [] ==> Separated(m, lines[|lines| - 1], i)
    ensures Starts(Trimmed(m, i, lines), lines + [i])
    ensures ScanSpecs(m, i, end, lines) == ScanSpecs(Trimmed(m, i, lines), i + 1, end, lines + [i])
  {
    hide RtpAt, TrimBack;
    assert m[i] == 'R' by { RtpIsR(m, i); }
    if lines != [] {
      assert lines[|lines| - 1] < i;
      TrimSeparator(m, lines[|lines| - 1], i);
    }
    var n := Trimmed(m, i, lines);
    forall k | 0 <= k < |lines + [i]|
      ensures (lines + [i])[k] < |n| && n[(lines + [i])[k]] == 'R'
    {
      assert k < |lines| ==> m[lines[k]] == 'R';
    }
  }

  lemma RtpIsR(m: seq<char>, i: nat)
    requires RtpAt(m, i)
    ensures i < |m| && m[i] == 'R'
  {
  }

  /** What the scan leaves: the text of every spec, ended by a NUL, and the rest of the buffer. */
  ghost predicate Scanned(m: seq<char>, r: Specs, i: nat, lines: seq<nat>, specs: seq<Spec>, len: nat) {
    && |r.m| == |m| && r.lines == lines + StartsOf(i, specs) && Laid(r.m, i, specs)
    && (forall k :: 0 <= k < |m| && (k < i - 2 || (lines == [] && k < i) || i + len <= k) ==> r.m[k] == m[k])
    && (lines != [] ==> 2 <= i <= |m| && r.m[i - 2] == NUL)
  }

  lemma ScanLast(m: seq<char>, i: nat, lines: seq<nat>, s: Spec)
    requires |lines| < MAX_TRANSPORTS && ValidSpec(s) && StringAt(m, i, PrintSpec(s)) && |PrintSpec(s)| >= 4
    requires Starts(m, lines) && forall k :: 0 <= k < |lines| ==> lines[k] < i
    requires lines != [] ==> Separated(m, lines[|lines| - 1], i)
    ensures Scanned(m, ScanSpecs(m, i, i + |PrintSpec(s)| - 4, lines), i, lines, [s], |PrintSpec(s)|)
  {
    hide PrintSpec, RtpAt, ScanSpecs, Starts, ValidSpec, Scanned, StringAt, At, Trimmed, Quiet;
    var end := i + |PrintSpec(s)| - 4;
    LastFacts(m, i, s);
    ScanStart(m, i, end, lines);
    var n := Trimmed(m, i, lines);
    ScannedLast(m, n, i, lines, s);
    ScanQuiet(n, i + 1, end, end, lines + [i]);
    ScanEnds(n, end, lines + [i]);
  }

  lemma LastFacts(m: seq<char>, i: nat, s: Spec)
    requires ValidSpec(s) && StringAt(m, i, PrintSpec(s))
    ensures |PrintSpec(s)| >= 5 && RtpAt(m, i) && i + |PrintSpec(s)| < |m|
  {
    hide PrintSpec, RtpAt;
    ValidIsPlain(s);
    SpecStart(m, i, s);
  }

  lemma ScannedLast(m: seq<char>, n: seq<char>, i: nat, lines: seq<nat>, s: Spec)
    requires ValidSpec(s) && StringAt(m, i, PrintSpec(s)) && |PrintSpec(s)| >= 5
    requires lines != [] ==> Separated(m, lines[|lines| - 1], i)
    requires (lines != [] ==> 2 <= i <= |m|) && n == Trimmed(m, i, lines)
    ensures Scanned(m, Specs(n, lines + [i]), i, lines, [s], |PrintSpec(s)|)
    ensures Quiet(n, i + 1, i + |PrintSpec(s)| - 4)
  {
    hide PrintSpec, RtpAt;
    assert forall k :: i <= k < |m| ==> n[k] == m[k];
    AtSame(m, n, i, PrintSpec(s));
    QuietLast(n, i, s);
    assert StartsOf(i, [s]) == [i];
    assert Laid(n, i, [s]);
  }

  lemma ScanEnds(m: seq<char>, end: nat, lines: seq<nat>)
    requires end <= |m| && |lines| <= MAX_TRANSPORTS && Starts(m, lines)
    requires forall k :: 0 <= k < |lines| ==> lines[k] < end
    ensures ScanSpecs(m, end, end, lines) == Specs(m, lines)
  {
  }

  lemma AtSame(m: seq<char>, n: seq<char>, i: nat, s: string)
    requires |n| == |m| && At(m, i, s) && forall k :: i <= k < i + |s| ==> n[k] == m[k]
    ensures At(n, i, s)
  {
  }

  /** Up to three printed specs are found and cut apart. */
  lemma {:induction false} ScanPrinted(m: seq<char>, i: nat, lines: seq<nat>, specs: seq<Spec>, text: string)
    requires specs != [] && |lines| + |specs| <= MAX_TRANSPORTS && ValidSpecs(specs)
    requires text == PrintSpecs(specs) && StringAt(m, i, text)
    requires Starts(m, lines) && forall k :: 0 <= k < |lines| ==> lines[k] < i
    requires lines != [] ==> Separated(m, lines[|lines| - 1], i)
    ensures |text| >= 5 && Scanned(m, ScanSpecs(m, i, i + |text| - 4, lines), i, lines, specs, |text|)
    decreases |specs|
  {
    hide PrintSpec, RtpAt, ScanSpecs, Scanned, StartsOf, Laid, Separated, Starts;
    var s := specs[0];
    assert ValidSpec(s);
    if |specs| == 1 {
      SpecStart(m, i, s);
      ScanLast(m, i, lines, s);
      assert specs == [s];
    } else {
      var rest := PrintSpecs(specs[1..]);
      assert ValidSpecs(specs[1..]);
      ScanMore(m, i, lines, specs, rest);
    }
  }

  lemma {:induction false} ScanMore(m: seq<char>, i: nat, lines: seq<nat>, specs: seq<Spec>, rest: string)
    requires |specs| > 1 && |lines| + |specs| <= MAX_TRANSPORTS && ValidSpecs(specs)
    requires rest == PrintSpecs(specs[1..]) && StringAt(m, i, PrintSpec(specs[0]) + [',', ' '] + rest)
    requires Starts(m, lines) && forall k :: 0 <= k < |lines| ==> lines[k] < i
    requires lines != [] ==> Separated(m, lines[|lines| - 1], i)
    ensures var len := |PrintSpec(specs[0])| + 2 + |rest|;
            len >= 5 && Scanned(m, ScanSpecs(m, i, i + len - 4, lines), i, lines, specs, len)
    decreases |specs|, 0
  {
    hide PrintSpec, RtpAt, ScanSpecs, Scanned, StartsOf, Laid, PrintSpecs, Starts, ValidSpec, Quiet, StringAt, At, Separated, Trimmed;
    var s := specs[0];
    assert ValidSpec(s);
    var e := i + |PrintSpec(s)|;
    var next := SpecsSplit(specs[1..]);
    MoreFacts(m, i, lines, s, rest, next);
    var n, end := Trimmed(m, i, lines), e + 2 + |rest| - 4;
    ScanPrinted(n, e + 2, lines + [i], specs[1..], rest);
    ScanStart(m, i, end, lines);
    ScanQuiet(n, i + 1, e + 2, end, lines + [i]);
    ScannedMore(m, n, ScanSpecs(n, e + 2, end, lines + [i]), i, lines, specs, |rest|);
  }

  /** What the scan comes upon between the start of one spec and the start of the next. */
  lemma MoreFacts(m: seq<char>, i: nat, lines: seq<nat>, s: Spec, rest: string, next: string)
    requires ValidSpec(s) && |lines| < MAX_TRANSPORTS && rest == "RTP/" + next
    requires StringAt(m, i, PrintSpec(s) + [',', ' '] + rest)
    requires Starts(m, lines) && forall k :: 0 <= k < |lines| ==> lines[k] < i
    requires lines != [] ==> Separated(m, lines[|lines| - 1], i)
    ensures |PrintSpec(s)| >= 5 && RtpAt(m, i) && At(m, i, PrintSpec(s)) && (lines != [] ==> 2 <= i <= |m|)
    ensures var n, e := Trimmed(m, i, lines), i + |PrintSpec(s)|;
            && |n| == |m| && e + 2 + |rest| <= |m| && Starts(n, lines + [i]) && Separated(n, i, e + 2)
            && StringAt(n, e + 2, rest) && Quiet(n, i + 1, e + 2)
    ensures var later := lines + [i]; forall k :: 0 <= k < |later| ==> later[k] < i + 1
  {
    hide PrintSpec, RtpAt, ScanSpecs, Quiet;
    var n, e := Trimmed(m, i, lines), i + |PrintSpec(s)|;
    AtConcat(m, i, PrintSpec(s) + [',', ' '], rest);
    AtConcat(m, i, PrintSpec(s), [',', ' ']);
    ValidIsPlain(s);
    SpecStart(m, i, s);
    SeparatorAt(m, n, i, e, s, rest);
    ScanStart(m, i, e, lines);
    AtSame(m, n, i, PrintSpec(s) + [',', ' '] + rest);
    QuietGap(n, i, s, next);
  }

  lemma SpecsSplit(specs: seq<Spec>) returns (next: string)
    requires specs != []
    ensures PrintSpecs(specs) == "RTP/" + next
  {
    hide PrintSpec;
    SpecSplit(specs[0]);
    if |specs| == 1 {
      next := SpecTail(specs[0]);
    } else {
      var a, b, c := "RTP/", SpecTail(specs[0]), PrintSpecs(specs[1..]);
      next := b + [',', ' '] + c;
      assert (a + b) + [',', ' '] + c == a + next;
    }
  }

  lemma SeparatorAt(m: seq<char>, n: seq<char>, i: nat, e: nat, s: Spec, rest: string)
    requires ValidSpec(s) && e == i + |PrintSpec(s)| && |n| == |m| && forall k :: i <= k < |m| ==> n[k] == m[k]
    requires At(m, i, PrintSpec(s)) && At(m, e, [',', ' ']) && StringAt(m, e + 2, rest)
    ensures Separated(n, i, e + 2) && StringAt(n, e + 2, rest)
  {
    hide PrintSpec;
    SpecStart(m, i, s);
    AtIndex(m, e, [',', ' '], 0);
    AtIndex(m, e, [',', ' '], 1);
    AtSame(m, n, e + 2, rest);
  }

  /** The first spec is intact in front of the others. */
  lemma ScannedMore(m: seq<char>, n: seq<char>, r: Specs, i: nat, lines: seq<nat>, specs: seq<Spec>, len: nat)
    requires specs != [] && (lines != [] ==> 2 <= i <= |m|) && n == Trimmed(m, i, lines)
    requires var s := specs[0];
             var j := i + |PrintSpec(s)| + 2;
             At(m, i, PrintSpec(s)) && Scanned(n, r, j, lines + [i], specs[1..], len)
    ensures Scanned(m, r, i, lines, specs, |PrintSpec(specs[0])| + 2 + len)
  {
    hide PrintSpec;
    var s := specs[0];
    var e := i + |PrintSpec(s)|;
    assert lines + [i] != [];
    assert forall k :: 0 <= k < e && (lines == [] || i - 2 <= k) ==> r.m[k] == n[k];
    AtSame(m, r.m, i, PrintSpec(s));
    assert r.lines == lines + ([i] + StartsOf(e + 2, specs[1..]));
  }

  // ---------------------------------------------------------------- all specs

  lemma SpecEnd(m: seq<char>, p: nat, s: Spec)
    requires PlainSpec(s) && StringAt(m, p, PrintSpec(s))
    ensures NulFrom(m, p) == p + |PrintSpec(s)| && CStr(m, p) == PrintSpec(s)
  {
    hide PrintSpec;
    FreeSpec(s, ' ');
    StringAtEnd(m, p, PrintSpec(s));
  }

  lemma StartsKept(m: seq<char>, n: seq<char>, lines: seq<nat>, lo: nat, hi: nat)
    requires Starts(m, lines) && OnlyCuts(m, n, lo, hi)
    ensures Starts(n, lines)
  {
    forall k | 0 <= k < |lines|
      ensures lines[k] < |n| && n[lines[k]] == 'R'
    {
      assert m[lines[k]] == 'R';
    }
  }

  /** Every slot points only into the buffer before p. */
  ghost predicate AllBefore(m: seq<char>, ts: seq<Transport>, p: nat) {
    forall k :: 0 <= k < |ts| ==> RefsBefore(m, ts[k], p)
  }

  /** One step: slot i is filled, and every other slot means what it meant. */
  lemma OneSpec(m: seq<char>, p: nat, s: Spec, ts: seq<Transport>, i: nat) returns (n: seq<char>, t: Transport)
    requires i < |ts| && PlainSpec(s) && StringAt(m, p, PrintSpec(s)) && AllBefore(m, ts, p)
    ensures p < |m| && m[p] == 'R' && ParseSpec(m, p, ts[i]) == SpecResult(n, t, Known(s.opts))
    ensures OnlyCuts(m, n, p, p + |PrintSpec(s)|) && Resolve(n, t) == Meaning(s, ts[i])
    ensures RefsBefore(n, t, p + |PrintSpec(s)| + 1)
    ensures forall k :: 0 <= k < |ts| ==> Resolve(n, ts[k]) == Resolve(m, ts[k]) && RefsBefore(n, ts[k], p)
  {
    hide PrintSpec, Meaning, Resolve, ParseSpec, RefsBefore;
    SpecEnd(m, p, s);
    SpecPrinted(m, p, s, ts[i]);
    var r := ParseSpec(m, p, ts[i]);
    n, t := r.m, r.t;
    forall k | 0 <= k < |ts|
      ensures Resolve(n, ts[k]) == Resolve(m, ts[k]) && RefsBefore(n, ts[k], p)
    {
      RefsInside(m, ts[k], p);
      ResolveKept(m, n, p, p + |PrintSpec(s)|, ts[k]);
      RefsStay(m, n, ts[k], p);
    }
  }

  lemma RefsInside(m: seq<char>, t: Transport, p: nat)
    requires RefsBefore(m, t, p)
    ensures p <= |m|
  {
  }

  /** How many of the specs are parsed: all up to the first with an option that is not understood, and that one. */
  function Taken(specs: seq<Spec>): (n: nat)
    ensures n <= |specs| && (specs != [] ==> n > 0)
    decreases |specs|
  {
    if specs == [] then 0 else if Known(specs[0].opts) then 1 + Taken(specs[1..]) else 1
  }

  /** All options of all specs are understood. */
  predicate AllKnown(specs: seq<Spec>) {
    forall k :: 0 <= k < |specs| ==> Known(specs[k].opts)
  }

  lemma AllKnownStep(specs: seq<Spec>)
    requires specs != []
    ensures AllKnown(specs) <==> Known(specs[0].opts) && AllKnown(specs[1..])
    ensures |specs| == 1 ==> AllKnown(specs[1..])
  {
    hide Known;
    assert forall k :: 0 < k < |specs| ==> specs[k] == specs[1..][k - 1];
  }

  /** Taken, said of the specs themselves. */
  lemma {:induction false} TakenIs(specs: seq<Spec>)
    ensures forall k :: 0 <= k < Taken(specs) - 1 ==> Known(specs[k].opts)
    ensures AllKnown(specs) ==> Taken(specs) == |specs|
    ensures !AllKnown(specs) ==> Taken(specs) > 0 && !Known(specs[Taken(specs) - 1].opts)
    decreases |specs|
  {
    hide Known;
    if specs != [] {
      AllKnownStep(specs);
      TakenIs(specs[1..]);
      assert forall k :: 0 < k < |specs| ==> specs[k] == specs[1..][k - 1];
    }
  }

  /** The specs have been parsed from slot i on, up to the first that has an option which is not understood: their
      slots hold their meaning, the others what they held. */
  ghost predicate Meant(m: seq<char>, r: SpecsResult, ts: seq<Transport>, i: nat, specs: seq<Spec>, p: nat, end: nat) {
    && r.ok == AllKnown(specs) && |r.ts| == |ts| && OnlyCuts(m, r.m, p, end) && i + |specs| <= |ts|
    && (forall k :: 0 <= k < Taken(specs) ==> Resolve(r.m, r.ts[i + k]) == Meaning(specs[k], ts[i + k]))
    && (forall k :: 0 <= k < |ts| && (k < i || i + Taken(specs) <= k) ==> Resolve(r.m, r.ts[k]) == Resolve(m, ts[k]))
    && (forall k :: 0 <= k < |ts| ==> RefsBefore(r.m, r.ts[k], end + 1))
  }

  /** The last spec, or one that ends the parse. */
  lemma MeantLast(m: seq<char>, r: SpecsResult, ts: seq<Transport>, i: nat, specs: seq<Spec>, p: nat, t: Transport, end: nat)
    requires specs != [] && i + |specs| <= |ts| && (|specs| == 1 || !Known(specs[0].opts)) && end < |m|
    requires r == SpecsResult(r.m, ts[i := t], Known(specs[0].opts))
    requires p + |PrintSpec(specs[0])| <= end && OnlyCuts(m, r.m, p, p + |PrintSpec(specs[0])|)
    requires Resolve(r.m, t) == Meaning(specs[0], ts[i]) && RefsBefore(r.m, t, p + |PrintSpec(specs[0])| + 1)
    requires forall k :: 0 <= k < |ts| ==> Resolve(r.m, ts[k]) == Resolve(m, ts[k]) && RefsBefore(r.m, ts[k], p)
    ensures Meant(m, r, ts, i, specs, p, end)
  {
    hide PrintSpec, Meaning, Resolve, Known, AllKnown;
    AllKnownStep(specs);
    assert Taken(specs) == 1;
  }

  lemma MeantMore(m: seq<char>, n: seq<char>, r: SpecsResult, ts: seq<Transport>, i: nat, specs: seq<Spec>, p: nat,
                  t: Transport, end: nat)
    requires specs != [] && i < |ts| && Known(specs[0].opts)
    requires var e := p + |PrintSpec(specs[0])|;
             e + 2 <= end && OnlyCuts(m, n, p, e) && Meant(n, r, ts[i := t], i + 1, specs[1..], e + 2, end)
    requires Resolve(n, t) == Meaning(specs[0], ts[i])
    requires forall k :: 0 <= k < |ts| ==> Resolve(n, ts[k]) == Resolve(m, ts[k])
    ensures Meant(m, r, ts, i, specs, p, end)
  {
    hide PrintSpec, Meaning, Resolve, Known, AllKnown, RefsBefore;
    AllKnownStep(specs);
    forall k | 0 <= k < Taken(specs)
      ensures Resolve(r.m, r.ts[i + k]) == Meaning(specs[k], ts[i + k])
    {
      if k > 0 {
        assert specs[1..][k - 1] == specs[k] && (i + 1) + (k - 1) == i + k;
      }
    }
  }

  lemma UnfoldSpecs(m: seq<char>, lines: seq<nat>, i: nat, ts: seq<Transport>, n: seq<char>, t: Transport, ok: bool)
    requires i < |lines| <= |ts| && Starts(m, lines) && Starts(n, lines)
    requires ParseSpec(m, lines[i], ts[i]) == SpecResult(n, t, ok)
    ensures ParseSpecs(m, lines, i, ts) == if ok then ParseSpecs(n, lines, i + 1, ts[i := t]) else SpecsResult(n, ts[i := t], false)
  {
    hide ParseSpec;
  }

  lemma NoMoreSpecs(m: seq<char>, lines: seq<nat>, ts: seq<Transport>)
    requires |lines| <= |ts| && Starts(m, lines)
    ensures ParseSpecs(m, lines, |lines|, ts) == SpecsResult(m, ts, true)
  {
  }

  /** Specs that were laid out by the scan are parsed up to the first with an option that is not understood. */
  lemma {:induction false} ParseLaid(m: seq<char>, lines: seq<nat>, i: nat, ts: seq<Transport>, specs: seq<Spec>, p: nat)
    requires specs != [] && i + |specs| == |lines| <= |ts| && Starts(m, lines) && ValidSpecs(specs)
    requires lines[i..] == StartsOf(p, specs) && Laid(m, p, specs) && AllBefore(m, ts, p)
    ensures Meant(m, ParseSpecs(m, lines, i, ts), ts, i, specs, p, p + |PrintSpecs(specs)|)
    decreases |specs|
  {
    hide PrintSpec, ParseSpecs, ParseSpec, Meant, Meaning, ValidSpec, Resolve, RefsBefore, Known;
    var s := specs[0];
    assert ValidSpec(s);
    assert lines[i] == lines[i..][0] == p;
    ValidIsPlain(s);
    var n, t := OneSpec(m, p, s, ts, i);
    var e := p + |PrintSpec(s)|;
    StartsKept(m, n, lines, p, e);
    UnfoldSpecs(m, lines, i, ts, n, t, Known(s.opts));
    LaidEnd(m, p, specs);
    if |specs| == 1 || !Known(s.opts) {
      if Known(s.opts) {
        NoMoreSpecs(n, lines, ts[i := t]);
      }
      MeantLast(m, SpecsResult(n, ts[i := t], Known(s.opts)), ts, i, specs, p, t, p + |PrintSpecs(specs)|);
    } else {
      var rest := specs[1..];
      LaidKept(m, n, e + 2, rest);
      assert lines[i + 1..] == lines[i..][1..];
      BeforeLater(n, ts, i, p, e, t);
      ParseLaid(n, lines, i + 1, ts[i := t], rest, e + 2);
      MeantMore(m, n, ParseSpecs(n, lines, i + 1, ts[i := t]), ts, i, specs, p, t, p + |PrintSpecs(specs)|);
    }
  }

  lemma {:induction false} LaidEnd(m: seq<char>, p: nat, specs: seq<Spec>)
    requires specs != [] && Laid(m, p, specs)
    ensures p + |PrintSpecs(specs)| < |m| && |PrintSpec(specs[0])| <= |PrintSpecs(specs)|
    decreases |specs|
  {
    hide PrintSpec;
    if |specs| > 1 {
      LaidEnd(m, p + |PrintSpec(specs[0])| + 2, specs[1..]);
    }
  }

  lemma BeforeLater(n: seq<char>, ts: seq<Transport>, i: nat, p: nat, e: nat, t: Transport)
    requires i < |ts| && p <= e && e + 2 <= |n| && RefsBefore(n, t, e + 1)
    requires forall k :: 0 <= k < |ts| ==> RefsBefore(n, ts[k], p)
    ensures AllBefore(n, ts[i := t], e + 2)
  {
  }

  /** parse_transport on what the printer wrote at p, over slots that hold strings from before p: every printed spec,
      up to the first with an option that is not understood, comes back in its slot, that one with what stood before
      this option; the other slots mean what they meant, and nothing but the printed text has been cut. */
  lemma TransportRoundTrip(m: seq<char>, p: nat, specs: seq<Spec>, ts: seq<Transport>)
    requires 1 <= |specs| <= MAX_TRANSPORTS == |ts| && ValidSpecs(specs) && StringAt(m, p, PrintSpecs(specs))
    requires forall k :: 0 <= k < |ts| ==> RefsBefore(m, ts[k], p)
    ensures NulFrom(m, p) == p + |PrintSpecs(specs)| && |PrintSpecs(specs)| >= 5 && |CStr(m, p)| >= 4
    ensures Meant(m, ParseTransport(m, p, ts), ts, 0, specs, p, p + |PrintSpecs(specs)|)
  {
    hide PrintSpecs, ScanSpecs, ParseSpecs, ParseTransport, Meant, RefsBefore, Laid, NulFrom, CStr, Resolve, ValidSpecs, StringAt,
      OnlyCuts, StartsOf;
    var text := PrintSpecs(specs);
    assert At(m, p, text) by { StringIsAt(m, p, text); }
    SpecsEnd(m, p, specs);
    ScanPrinted(m, p, [], specs, text);
    UnfoldTransport(m, p, ts, |text|);
    var s := ScanSpecs(m, p, p + |text| - 4, []);
    assert s.lines == StartsOf(p, specs);
    StartsLength(p, specs);
    forall k | 0 <= k < |ts|
      ensures Resolve(s.m, ts[k]) == Resolve(m, ts[k]) && RefsBefore(s.m, ts[k], p)
    {
      ScanKeeps(m, s.m, p, ts[k]);
    }
    ParseLaid(s.m, s.lines, 0, ts, specs, p);
    MeantFrom(m, s.m, ParseSpecs(s.m, s.lines, 0, ts), ts, specs, p, text, p + |text| - 4);
  }

  lemma StringIsAt(m: seq<char>, p: nat, s: string)
    requires StringAt(m, p, s)
    ensures At(m, p, s)
  {
  }

  lemma UnfoldTransport(m: seq<char>, p: nat, ts: seq<Transport>, len: nat)
    requires p <= |m| && NulFrom(m, p) == p + len && len >= 4 && |ts| == MAX_TRANSPORTS
    ensures |CStr(m, p)| == len
    ensures ParseTransport(m, p, ts)
         == var s := ScanSpecs(m, p, p + len - 4, []); ParseSpecs(s.m, s.lines, 0, ts)
  {
    hide ScanSpecs, ParseSpecs;
  }

  lemma {:induction false} StartsLength(p: nat, specs: seq<Spec>)
    ensures |StartsOf(p, specs)| == |specs|
    decreases |specs|
  {
    if specs != [] {
      StartsLength(p + |PrintSpec(specs[0])| + 2, specs[1..]);
    }
  }

  lemma ScanKeeps(m: seq<char>, n: seq<char>, p: nat, t: Transport)
    requires RefsBefore(m, t, p) && |n| == |m| && forall k :: 0 <= k < p ==> n[k] == m[k]
    ensures Resolve(n, t) == Resolve(m, t) && RefsBefore(n, t, p)
  {
    RefsStay(m, n, t, p);
    RefSame(m, n, p, t.mode);
    RefSame(m, n, p, t.transport);
  }

  lemma RefSame(m: seq<char>, n: seq<char>, p: nat, r: Ref)
    requires RefBefore(m, r, p) && |n| == |m| && forall k :: 0 <= k < p ==> n[k] == m[k]
    ensures ResolveRef(n, r) == ResolveRef(m, r)
  {
    if r.InBuf? {
      var e := NulFrom(m, r.at);
      NulFromIs(n, r.at, e);
      assert n[r.at..e] == m[r.at..e];
    }
  }

  lemma SpecsEnd(m: seq<char>, p: nat, specs: seq<Spec>)
    requires specs != [] && ValidSpecs(specs) && StringAt(m, p, PrintSpecs(specs))
    ensures NulFrom(m, p) == p + |PrintSpecs(specs)|
  {
    hide PrintSpecs;
    NoNul(specs);
    StringAtEnd(m, p, PrintSpecs(specs));
  }

  lemma {:induction false} NoNul(specs: seq<Spec>)
    requires specs != [] && ValidSpecs(specs)
    ensures NUL !in PrintSpecs(specs)
    decreases |specs|
  {
    hide PrintSpec;
    FreeSpec(specs[0], ' ');
    if |specs| > 1 {
      NoNul(specs[1..]);
      FreeConcat(PrintSpec(specs[0]), [',', ' '], '/');
    }
  }

  lemma MeantFrom(m: seq<char>, n: seq<char>, r: SpecsResult, ts: seq<Transport>, specs: seq<Spec>, p: nat, text: string,
                  hi: nat)
    requires Meant(n, r, ts, 0, specs, p, p + |text|) 
    requires specs != [] && At(m, p, text) && text == PrintSpecs(specs)
    requires OnlyCuts(m, n, 0, hi) && forall k :: 0 <= k < |m| && (k < p || p + |text| <= k) ==> n[k] == m[k]
    requires forall k :: 0 <= k < |ts| ==> Resolve(n, ts[k]) == Resolve(m, ts[k])
    ensures Meant(m, r, ts, 0, specs, p, p + |text|)
  {
    hide PrintSpecs, Resolve, Meaning, RefsBefore;
  }

  // ---------------------------------------------------------------- a profile that ends in RTP

  /** A start that the scan comes to is found, unless it has three already. */
  lemma {:induction false} ScanFinds(m: seq<char>, i: nat, end: nat, lines: seq<nat>, q: nat)
    requires end <= |m| && |lines| < MAX_TRANSPORTS && Starts(m, lines) && forall k :: 0 <= k < |lines| ==> lines[k] < i
    requires i <= q < end && RtpAt(m, q)
    ensures |ScanSpecs(m, i, end, lines).lines| > |lines|
    decreases q - i
  {
    hide RtpAt, TrimBack;
    if RtpAt(m, i) {
      RtpIsR(m, i);
      var a := if lines == [] then m else assert lines[|lines| - 1] < i; TrimBack(m, i - 1, lines[|lines| - 1]);
      ScanGrows(a, i + 1, end, lines + [i]);
    } else {
      ScanFinds(m, i + 1, end, lines, q);
    }
  }

  lemma {:induction false} ScanGrows(m: seq<char>, i: nat, end: nat, lines: seq<nat>)
    requires end <= |m| && |lines| <= MAX_TRANSPORTS && Starts(m, lines) && forall k :: 0 <= k < |lines| ==> lines[k] < i
    ensures |ScanSpecs(m, i, end, lines).lines| >= |lines|
    decreases end - i
  {
    hide RtpAt, TrimBack;
    if i < end && |lines| < MAX_TRANSPORTS {
      if RtpAt(m, i) {
        RtpIsR(m, i);
        var a := if lines == [] then m else assert lines[|lines| - 1] < i; TrimBack(m, i - 1, lines[|lines| - 1]);
        ScanGrows(a, i + 1, end, lines + [i]);
      } else {
        ScanGrows(m, i + 1, end, lines);
      }
    }
  }

  /** The scan finds a second spec where the profile ends in RTP. */
  lemma ProfileMisread(m: seq<char>, p: nat, s: Spec)
    requires PlainSpec(s) && s.lower.Some? && EndsInRtp(s.profile) && StringAt(m, p, PrintSpec(s))
    ensures |PrintSpec(s)| >= 5 && |ScanSpecs(m, p, p + |PrintSpec(s)| - 4, []).lines| >= 2
  {
    hide PrintSpec, ScanSpecs, RtpAt;
    SpecStart(m, p, s);
    var q := SecondStart(m, p, s);
    var end := p + |PrintSpec(s)| - 4;
    ScanStart(m, p, end, []);
    assert |[p]| == 1 && m[p] == 'R' by { RtpIsR(m, p); }
    ScanFinds(m, p + 1, end, [] + [p], q);
  }

  lemma SecondStart(m: seq<char>, p: nat, s: Spec) returns (q: nat)
    requires PlainSpec(s) && s.lower.Some? && EndsInRtp(s.profile) && At(m, p, PrintSpec(s))
    ensures p < q < p + |PrintSpec(s)| - 4 && RtpAt(m, q)
  {
    hide PrintSpec, PrintOpts;
    SpecSplit(s);
    var t, n := PrintSpec(s), |s.profile|;
    q := p + 4 + n - 3;
    SlashBehindProfile(s);
    var e := s.profile[n - 3..];
    assert e[0] == s.profile[n - 3] && e[1] == s.profile[n - 2] && e[2] == s.profile[n - 1];
    ProfileChars(s, n - 3);
    ProfileChars(s, n - 2);
    ProfileChars(s, n - 1);
    assert t[n + 1] == SpecTail(s)[n - 3] && t[n + 2] == SpecTail(s)[n - 2] && t[n + 3] == SpecTail(s)[n - 1];
    assert t[n + 4] == SpecTail(s)[n];
    AtIndex(m, p, t, n + 1);
    AtIndex(m, p, t, n + 2);
    AtIndex(m, p, t, n + 3);
    AtIndex(m, p, t, n + 4);
  }

  lemma SlashBehindProfile(s: Spec)
    requires PlainSpec(s) && s.lower.Some?
    ensures |SpecTail(s)| > |s.profile| + 1 && SpecTail(s)[|s.profile|] == '/'
  {
    hide PrintOpts;
  }

  /** Every spec that was parsed has filled its slot. */
  lemma {:induction false} SlotsFilled(m: seq<char>, lines: seq<nat>, i: nat, ts: seq<Transport>, k: nat)
    requires i <= |lines| <= |ts| && Starts(m, lines) && k < |lines|
    requires k < i ==> ts[k].transport != Null
    ensures var r := ParseSpecs(m, lines, i, ts); r.ok ==> r.ts[k].transport != Null
    decreases |lines| - i
  {
    hide ParseSpec;
    if i < |lines| {
      var r := ParseSpec(m, lines[i], ts[i]);
      SpecFills(m, lines[i], ts[i]);
      if r.ok {
        SlotsFilled(r.m, lines, i + 1, ts[i := r.t], k);
      }
    }
  }

  lemma SpecFills(m: seq<char>, p: nat, t: Transport)
    requires p < |m| && m[p] == 'R'
    ensures ParseSpec(m, p, t).t.transport != Null
  {
    hide ParseOptions, ParseProtocol, StrTok, NulFrom;
    StrTokCuts(m, p, ';');
    OptionsUntouched(m, p);
    var k := StrTok(m, p, ';');
    var a := ParseProtocol(k.m, p);
    var t1 := Defaults(t).(rtp := t.rtp || a.rtp);
    var t2 := if a.lower.Some? then t1.(transport := InBuf(a.lower.value)) else t1;
    OptionsKeepLower(a.m, k.save, t2);
  }

  lemma {:induction false} OptionsKeepLower(m: seq<char>, save: nat, t: Transport)
    requires save <= |m|
    ensures ParseOptions(m, save, t).t.transport == t.transport
    decreases |m| - save
  {
    hide StrTok, NulFrom, ParseOption;
    StrTokCuts(m, save, ';');
    var k := StrTok(m, save, ';');
    if k.tok.Some? {
      OptionRefs(t, CStr(k.m, k.tok.value), k.tok.value);
      var o := ParseOption(t, CStr(k.m, k.tok.value), k.tok.value);
      if o.ok {
        OptionsKeepLower(k.m, k.save, o.t);
      }
    }
  }

  /** One printed spec into fresh slots comes back as what it means, with the other slots still empty, if and only if
      its profile does not end in RTP in front of a lower transport. */
  lemma OneSpecIff(m: seq<char>, p: nat, s: Spec)
    requires PlainSpec(s) && Known(s.opts) && StringAt(m, p, PrintSpec(s))
    ensures p <= |m| && Scannable(m, p)
    ensures Meant(m, ParseTransport(m, p, [ZERO, ZERO, ZERO]), [ZERO, ZERO, ZERO], 0, [s], p, p + |PrintSpec(s)|) <==> ValidSpec(s)
  {
    hide PrintSpec, ScanSpecs, ParseSpecs, ParseTransport, NulFrom, StringAt, ValidSpec, PlainSpec, Meant, CStr;
    var ts := [ZERO, ZERO, ZERO];
    OneSpecScannable(m, p, s);
    if ValidSpec(s) {
      OneMeant(m, p, s, ts);
    } else {
      NotValid(s);
      ProfileMisread(m, p, s);
      UnfoldTransport(m, p, ts, |PrintSpec(s)|);
      var scan := ScanSpecs(m, p, p + |PrintSpec(s)| - 4, []);
      SlotsFilled(scan.m, scan.lines, 0, ts, 1);
      NotMeant(m, ParseTransport(m, p, ts), s, p);
    }
  }

  lemma NotValid(s: Spec)
    requires PlainSpec(s) && !ValidSpec(s)
    ensures s.lower.Some? && EndsInRtp(s.profile)
  {
  }

  lemma OneSpecScannable(m: seq<char>, p: nat, s: Spec)
    requires PlainSpec(s) && StringAt(m, p, PrintSpec(s))
    ensures |PrintSpec(s)| >= 5 && p <= |m| && NulFrom(m, p) == p + |PrintSpec(s)| && Scannable(m, p)
  {
    hide PrintSpec, ScanSpecs;
    SpecStart(m, p, s);
    SpecEnd(m, p, s);
  }

  lemma OneMeant(m: seq<char>, p: nat, s: Spec, ts: seq<Transport>)
    requires ValidSpec(s) && StringAt(m, p, PrintSpec(s)) && ts == [ZERO, ZERO, ZERO] && p <= |m| && Scannable(m, p)
    ensures Meant(m, ParseTransport(m, p, ts), ts, 0, [s], p, p + |PrintSpec(s)|)
  {
    hide PrintSpec, ParseTransport, Meant, Scannable;
    assert PrintSpecs([s]) == PrintSpec(s);
    TransportRoundTrip(m, p, [s], ts);
  }

  lemma NotMeant(m: seq<char>, r: SpecsResult, s: Spec, p: nat)
    requires |r.ts| == MAX_TRANSPORTS && (r.ok ==> r.ts[1].transport != Null) && Known(s.opts)
    ensures !Meant(m, r, [ZERO, ZERO, ZERO], 0, [s], p, p + |PrintSpec(s)|)
  {
    hide PrintSpec, OnlyCuts, Meaning, RefsBefore;
  }
}
