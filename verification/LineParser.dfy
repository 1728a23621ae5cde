/** LineParser (src/rtsp.cpp): cutting a request into CRLF-terminated lines, in place. */
module LineParsing {
  import opened CStrings
  import opened Sequences

  const CRLF: string := "\r\n"

  predicate CrlfAt(s: string, i: nat) {
    i + 1 < |s| && s[i] == '\r' && s[i + 1] == '\n'
  }

  /** The first CRLF at or after i that the scan looks at, or |s| - 2, where it stops. */
  function LineEnd(s: string, i: nat): (e: nat)
    requires i + 2 <= |s|
    ensures i <= e <= |s| - 2
    ensures forall k :: i <= k < e ==> !CrlfAt(s, k)
    ensures e < |s| - 2 ==> CrlfAt(s, e)
    decreases |s| - i
  {
    if i == |s| - 2 || CrlfAt(s, i) then i else LineEnd(s, i + 1)
  }

  datatype Line = Line(text: string, rest: string)

  /** The line getline returns and the text that remains. With one character left the unsigned bound
      of the source's loop wraps, so that case is excluded here and shown to be unreachable below. */
  function NextLine(s: string): (r: Option<Line>)
    requires |s| != 1
    ensures r.Some? ==> |r.value.text| + 2 + |r.value.rest| == |s|
    ensures r.Some? ==> s == r.value.text + CRLF + r.value.rest
  {
    if s == "" then None
    else
      var e := LineEnd(s, 0);
      if e == |s| - 2 then None else Some(Line(s[..e], s[e + 2..]))
  }

  /** The constructor drops leading CRLFs while more than two characters remain. */
  function SkipLeading(s: string): (r: string)
    ensures |r| <= |s|
  {
    if |s| > 2 && CrlfAt(s, 0) then SkipLeading(s[2..]) else s
  }

  datatype Split = Split(lines: seq<string>, rest: string)

  /** The lines that successive getline calls return, and what is left when getline gives up. */
  function Lines(s: string): Split {
    if |s| == 1 then Split([], s)
    else match NextLine(s)
      case None => Split([], s)
      case Some(l) => var t := Lines(l.rest); Split([l.text] + t.lines, t.rest)
  }

  function Join(lines: seq<string>): string {
    if lines == [] then "" else lines[0] + CRLF + Join(lines[1..])
  }

  predicate EndsBlank(s: string) {
    |s| >= 4 && CrlfAt(s, |s| - 4) && CrlfAt(s, |s| - 2)
  }

  /** Between the calls the text that remains is the final CRLF or still ends in a blank line, so its size
      is never 1 or 3. */
  predicate Framed(s: string) {
    s == CRLF || EndsBlank(s)
  }

  lemma FramedNext(s: string)
    requires Framed(s)
    ensures NextLine(s).Some? <==> s != CRLF
    ensures NextLine(s).Some? ==> Framed(NextLine(s).value.rest)
  {
    if s != CRLF {
      var e := LineEnd(s, 0);
      assert CrlfAt(s, |s| - 4) && CrlfAt(s, |s| - 2);
      assert e <= |s| - 4;
      assert CrlfAt(s, e) && e != |s| - 5 && e != |s| - 3;
      var rest := s[e + 2..];
      if e < |s| - 4 {
        assert CrlfAt(rest, |rest| - 4) && CrlfAt(rest, |rest| - 2);
      } else {
        assert rest == CRLF;
      }
    }
  }

  lemma SkipStep(s: string)
    requires |s| > 2 && CrlfAt(s, 0)
    ensures s == CRLF + s[2..] && SkipLeading(s) == SkipLeading(s[2..])
    ensures NextLine(s) == Some(Line("", s[2..]))
  {
    assert s == CRLF + s[2..];
    LineAtStart(s);
  }

  lemma LineAtStart(s: string)
    requires |s| > 2 && CrlfAt(s, 0)
    ensures NextLine(s) == Some(Line("", s[2..]))
  {
    hide SkipLeading;
    assert LineEnd(s, 0) == 0;
    assert s[..0] == "";
  }

  lemma {:induction false} FramedSkip(s: string)
    requires Framed(s)
    ensures Framed(SkipLeading(s))
  {
    if |s| > 2 && CrlfAt(s, 0) {
      SkipStep(s);
      FramedNext(s);
      FramedSkip(s[2..]);
    }
  }

  /** Line splitting is exact: each line rejoined with CRLF, then the final CRLF, is the text itself. */
  lemma {:induction false} SplitIsExact(s: string)
    requires Framed(s)
    ensures Lines(s).rest == CRLF && s == Join(Lines(s).lines) + CRLF
    decreases |s|
  {
    hide NextLine, Framed;
    FramedNext(s);
    FramedLength(s);
    if NextLine(s).Some? {
      var l := NextLine(s).value;
      FramedLength(l.rest);
      SplitIsExact(l.rest);
      var t := Lines(l.rest).lines;
      assert Lines(s).lines == [l.text] + t;
      assert ([l.text] + t)[1..] == t;
      Associate(l.text + CRLF, Join(t), CRLF);
    }
  }

  lemma FramedLength(s: string)
    requires Framed(s)
    ensures |s| != 1
  {
  }

  /** No line contains a CRLF, whatever the text ends with. */
  lemma {:induction false} LinesHaveNoCrlf(s: string, k: nat, i: nat)
    requires k < |Lines(s).lines|
    ensures !CrlfAt(Lines(s).lines[k], i)
    decreases |s|
  {
    var l := NextLine(s).value;
    var t := Lines(l.rest).lines;
    assert Lines(s).lines == [l.text] + t;
    if k > 0 {
      LinesHaveNoCrlf(l.rest, k - 1, i);
      assert Lines(s).lines[k] == t[k - 1];
    } else {
      assert CrlfAt(l.text, i) ==> CrlfAt(s, i);
    }
  }

  function Repeat(s: string, n: nat): string {
    if n == 0 then "" else s + Repeat(s, n - 1)
  }

  /** The constructor removes nothing but whole CRLFs, and stops at a line that is not empty. */
  lemma {:induction false} SkipIsExact(s: string) returns (n: nat)
    ensures s == Repeat(CRLF, n) + SkipLeading(s)
    ensures |SkipLeading(s)| > 2 ==> !CrlfAt(SkipLeading(s), 0)
    decreases |s|
  {
    if |s| > 2 && CrlfAt(s, 0) {
      var t := s[2..];
      var k := SkipIsExact(t);
      n := k + 1;
      SkipStep(s);
      Associate(CRLF, Repeat(CRLF, k), SkipLeading(t));
    } else {
      n := 0;
    }
  }

  /** No getline call of the run over s starts with exactly one character left. */
  predicate StaysInBounds(s: string) {
    |s| != 1 && match NextLine(s)
                case None => true
                case Some(l) => StaysInBounds(l.rest)
  }

  predicate Overruns(s: string) {
    |s| == 1 || (|s| >= 3 && CrlfAt(s, |s| - 3))
  }

  lemma {:induction false} StaysInBoundsIff(s: string)
    ensures StaysInBounds(s) <==> !Overruns(s)
    decreases |s|
  {
    hide Overruns, NextLine;
    if |s| != 1 {
      match NextLine(s)
      case None => NoLineOverruns(s);
      case Some(l) =>
        LineOverruns(s, l);
        StaysInBoundsIff(l.rest);
    } else {
      OneOverruns(s);
    }
  }

  lemma OneOverruns(s: string)
    requires |s| == 1
    ensures Overruns(s)
  {
  }

  lemma NoLineOverruns(s: string)
    requires |s| != 1 && NextLine(s) == None
    ensures !Overruns(s)
  {
    assert |s| < 3 || !CrlfAt(s, |s| - 3);
  }

  lemma LineOverruns(s: string, l: Line)
    requires |s| != 1 && NextLine(s) == Some(l)
    ensures |l.rest| < |s| && (Overruns(s) <==> Overruns(l.rest))
  {
    var e := |l.text|;
    assert CrlfAt(s, e) && l.rest == s[e + 2..];
    assert |l.rest| >= 3 ==> l.rest[|l.rest| - 3] == s[|s| - 3] && l.rest[|l.rest| - 2] == s[|s| - 2];
    assert |l.rest| == 2 ==> s[|s| - 3] == '\n';
  }

  /** For every request the unsigned bound in getline wraps, in the constructor or later, exactly when a
      CRLF is followed by one last character. */
  lemma {:induction false} OverrunIff(b: string)
    ensures StaysInBounds(SkipLeading(b)) <==> !Overruns(b)
    decreases |b|
  {
    if |b| > 2 && CrlfAt(b, 0) {
      OverrunIff(b[2..]);
      assert |b| >= 5 ==> (CrlfAt(b[2..], |b| - 5) <==> CrlfAt(b, |b| - 3));
    } else {
      StaysInBoundsIff(b);
    }
  }

  // ---------------------------------------------------------------- the class

  datatype Got = Got(m: seq<char>, line: Option<nat>, pos: nat, size: nat)

  /** getline on the buffer: the NUL goes where the line's CR was. */
  function GetLineAt(m: seq<char>, pos: nat, size: nat): (g: Got)
    requires pos + size <= |m| && size != 1
    ensures |g.m| == |m| && g.pos + g.size == pos + size
    ensures g.line.Some? ==> g.size < size
  {
    match NextLine(m[pos..pos + size])
    case None => Got(m, None, pos, size)
    case Some(l) => Got(m[pos + |l.text| := NUL], Some(pos), pos + |l.text| + 2, size - |l.text| - 2)
  }

  /** The line that getline returns ends inside the buffer, before the text that remains. */
  lemma LineEnds(m: seq<char>, pos: nat, size: nat)
    requires pos + size <= |m| && size != 1 && GetLineAt(m, pos, size).line.Some?
    ensures var g := GetLineAt(m, pos, size); g.line == Some(pos) && NulFrom(g.m, pos) < g.pos <= |m|
  {
    hide NulFrom;
    var g := GetLineAt(m, pos, size);
    assert g.m[g.pos - 2] == NUL;
  }

  /** The constructor on the buffer. */
  function SkipAt(m: seq<char>, pos: nat, size: nat): (g: Got)
    requires pos + size <= |m|
    ensures |g.m| == |m| && g.pos + g.size == pos + size && g.size <= size
    decreases size
  {
    if size > 2 && CrlfAt(m[pos..pos + size], 0) then SkipAt(m[pos := NUL], pos + 2, size - 2)
    else Got(m, None, pos, size)
  }

  /** What the constructor leaves is the text without its leading CRLFs, untouched. */
  lemma {:induction false} SkipAtText(m: seq<char>, pos: nat, size: nat)
    requires pos + size <= |m|
    ensures var g := SkipAt(m, pos, size);
            g.pos <= |m| && g.m[g.pos..] == m[g.pos..] && g.m[g.pos..g.pos + g.size] == SkipLeading(m[pos..pos + size])
    decreases size
  {
    var s := m[pos..pos + size];
    if size > 2 && CrlfAt(s, 0) {
      var n := m[pos := NUL];
      SkipAtText(n, pos + 2, size - 2);
      SkipOne(m, n, pos, size, s);
    }
  }

  lemma SkipOne(m: seq<char>, n: seq<char>, pos: nat, size: nat, s: string)
    requires size > 2 && pos + size <= |m| && n == m[pos := NUL] && s == m[pos..pos + size] && CrlfAt(s, 0)
    ensures SkipAt(m, pos, size) == SkipAt(n, pos + 2, size - 2)
    ensures SkipLeading(s) == SkipLeading(n[pos + 2..pos + size])
    ensures forall k :: pos + 2 <= k <= |m| ==> n[k..] == m[k..]
  {
    SkipStep(s);
    assert n[pos + 2..pos + size] == s[2..];
  }

  class LineParser {
    const buf: array<char>
    var data: nat
    var size: nat

    ghost predicate Valid()
      reads this
    {
      data + size <= buf.Length
    }

    ghost function Text(): string
      reads this, buf
      requires Valid()
    {
      buf[data..data + size]
    }

    constructor (b: array<char>, s: nat)
      requires s <= b.Length
      modifies b
      ensures Valid() && buf == b && Got(b[..], None, data, size) == SkipAt(old(b[..]), 0, s)
    {
      buf := b;
      data := 0;
      size := s;
      new;
      while size > 2
        invariant Valid() && data + size == s
        invariant SkipAt(buf[..], data, size) == SkipAt(old(b[..]), 0, s)
        decreases size
      {
        if !(buf[data] == '\r' && buf[data + 1] == '\n') {
          break;
        }
        SkipStep(Text());
        var line := GetLine();
      }
    }

    method GetLine() returns (line: Option<nat>)
      requires Valid() && size != 1
      modifies this, buf
      ensures Valid() && Got(buf[..], line, data, size) == GetLineAt(old(buf[..]), old(data), old(size))
    {
      if size == 0 {
        return None;
      }
      ghost var s := Text();
      var i := 0;
      while i < size - 2
        invariant 0 <= i <= size - 2 && Valid()
        invariant LineEnd(s, i) == LineEnd(s, 0)
      {
        if buf[data + i] == '\r' && buf[data + i + 1] == '\n' {
          assert CrlfAt(s, i);
          var start := data;
          buf[data + i] := NUL;
          data := data + i + 2;
          size := size - (i + 2);
          return Some(start);
        }
        assert !CrlfAt(s, i);
        i := i + 1;
      }
      return None;
    }
  }
}
