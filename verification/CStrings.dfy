/** NUL-terminated text inside a character buffer, and the C library calls the RTSP parser makes on it.

    A buffer is a sequence of characters; a C pointer into it is an index. The end of the buffer counts as
    a terminator in the functions below; the methods that touch a real array ask for a NUL inside it. */
module CStrings {

  datatype Option<+T> = None | Some(value: T)

  const NUL: char := '\0'

  /** The first NUL at or after p, or the end of the buffer. */
  function NulFrom(m: seq<char>, p: nat): (e: nat)
    requires p <= |m|
    ensures p <= e <= |m|
    ensures forall k :: p <= k < e ==> m[k] != NUL
    ensures e < |m| ==> m[e] == NUL
    decreases |m| - p
  {
    if p == |m| || m[p] == NUL then p else NulFrom(m, p + 1)
  }

  /** The C string that starts at p. */
  function CStr(m: seq<char>, p: nat): string
    requires p <= |m|
  {
    m[p..NulFrom(m, p)]
  }

  /** Reading the string at p stays inside the buffer. */
  predicate Terminated(m: seq<char>, p: nat) {
    p <= |m| && NulFrom(m, p) < |m|
  }

  /** A terminator ends the search; no NUL before it moves the search on. */
  lemma {:induction false} NulFromIs(m: seq<char>, p: nat, e: nat)
    requires p <= e <= |m|
    requires forall k :: p <= k < e ==> m[k] != NUL
    requires e == |m| || m[e] == NUL
    ensures NulFrom(m, p) == e
  {
    var f := NulFrom(m, p);
    assert f == |m| || m[f] == NUL;
    assert e == |m| || m[e] == NUL;
  }

  /** strncmp(s, prefix, strlen(prefix)) == 0 */
  predicate HasPrefix(s: string, prefix: string) {
    |prefix| <= |s| && s[..|prefix|] == prefix
  }

  function Lower(c: char): char {
    if 'A' <= c <= 'Z' then c - 'A' + 'a' else c
  }

  /** strncasecmp(s, prefix, strlen(prefix)) == 0 */
  predicate HasPrefixNoCase(s: string, prefix: string) {
    |prefix| <= |s| && forall i :: 0 <= i < |prefix| ==> Lower(s[i]) == Lower(prefix[i])
  }

  // ---------------------------------------------------------------- strtok_r

  function SkipDelim(m: seq<char>, p: nat, d: char): (q: nat)
    requires p <= |m|
    ensures p <= q <= |m|
    ensures forall k :: p <= k < q ==> m[k] == d
    ensures q < |m| ==> m[q] != d
    decreases |m| - p
  {
    if p == |m| || m[p] != d then p else SkipDelim(m, p + 1, d)
  }

  function TokEnd(m: seq<char>, p: nat, d: char): (e: nat)
    requires p <= |m|
    ensures p <= e <= |m|
    ensures forall k :: p <= k < e ==> m[k] != d && m[k] != NUL
    ensures e < |m| ==> m[e] == d || m[e] == NUL
    decreases |m| - p
  {
    if p == |m| || m[p] == d || m[p] == NUL then p else TokEnd(m, p + 1, d)
  }

  datatype Tok = Tok(m: seq<char>, tok: Option<nat>, save: nat)

  /** One strtok_r call: the buffer it leaves, the token it returns and the saved position. */
  function StrTok(m: seq<char>, p: nat, d: char): Tok
    requires p <= |m|
  {
    var q := SkipDelim(m, p, d);
    if q == |m| || m[q] == NUL then Tok(m, None, q)
    else
      var e := TokEnd(m, q, d);
      if e == |m| || m[e] == NUL then Tok(m, Some(q), e) else Tok(m[e := NUL], Some(q), e + 1)
  }

  /** strtok_r stays between p and the terminator e, keeps that terminator, changes nothing after the saved
      position and overwrites delimiters only. */
  lemma StrTokFrame(m: seq<char>, p: nat, d: char, e: nat)
    requires p <= |m| && d != NUL && e == NulFrom(m, p)
    ensures var r := StrTok(m, p, d);
            && |r.m| == |m|
            && p <= r.save <= e
            && (r.tok.Some? ==> p <= r.tok.value < r.save && r.m[r.tok.value] == m[r.tok.value] != d
                                && m[r.tok.value] != NUL)
            && NulFrom(r.m, r.save) == e
            && (forall k :: 0 <= k < |m| && (k < p || r.save <= k) ==> r.m[k] == m[k])
            && (forall k :: 0 <= k < |m| && r.m[k] != m[k] ==> r.m[k] == NUL && m[k] == d)
  {
    var q := SkipDelim(m, p, d);
    assert e == |m| || m[e] == NUL;
    assert q == |m| || m[q] != d;
    var t := TokEnd(m, q, d);
    assert t == |m| || m[t] == d || m[t] == NUL;
    var r := StrTok(m, p, d);
    NulFromIs(r.m, r.save, e);
  }

  /** A token is the text up to the next delimiter. */
  lemma StrTokFirst(m: seq<char>, p: nat, d: char, e: nat)
    requires p < e < |m| && d != NUL && m[p] != d
    requires forall k :: p <= k < e ==> m[k] != d && m[k] != NUL
    requires m[e] == d || m[e] == NUL
    ensures StrTok(m, p, d) == if m[e] == NUL then Tok(m, Some(p), e) else Tok(m[e := NUL], Some(p), e + 1)
    ensures CStr(StrTok(m, p, d).m, p) == m[p..e]
  {
    assert SkipDelim(m, p, d) == p;
    var t := TokEnd(m, p, d);
    assert t == |m| || m[t] == d || m[t] == NUL;
    assert m[e] == d || m[e] == NUL;
    assert t == e;
    NulFromIs(StrTok(m, p, d).m, p, e);
  }

  /** The strtok_r loops, in place. */
  method StrTokR(buf: array<char>, p: nat, d: char) returns (tok: Option<nat>, save: nat)
    requires Terminated(buf[..], p) && d != NUL
    modifies buf
    ensures Tok(buf[..], tok, save) == StrTok(old(buf[..]), p, d)
  {
    ghost var e := NulFrom(buf[..], p);
    var q := p;
    while buf[q] == d
      invariant p <= q <= e && SkipDelim(buf[..], q, d) == SkipDelim(buf[..], p, d)
      decreases e - q
    {
      q := q + 1;
    }
    if buf[q] == NUL {
      return None, q;
    }
    var t := q;
    while buf[t] != d && buf[t] != NUL
      invariant q <= t <= e && TokEnd(buf[..], t, d) == TokEnd(buf[..], q, d)
      decreases e - t
    {
      t := t + 1;
    }
    if buf[t] == NUL {
      return Some(q), t;
    }
    buf[t] := NUL;
    return Some(q), t + 1;
  }

  // ---------------------------------------------------------------- strtoll

  predicate IsSpace(c: char) {
    c == ' ' || c == '\t' || c == '\n' || c == '\r' || c == 11 as char || c == 12 as char
  }

  /** The value of a digit, 99 for any other character. */
  function DigitVal(c: char): nat {
    if '0' <= c <= '9' then (c - '0') as int
    else if 'a' <= c <= 'z' then (c - 'a') as int + 10
    else if 'A' <= c <= 'Z' then (c - 'A') as int + 10
    else 99
  }

  function SkipSpace(s: string, i: nat): (j: nat)
    requires i <= |s|
    ensures i <= j <= |s|
    decreases |s| - i
  {
    if i < |s| && IsSpace(s[i]) then SkipSpace(s, i + 1) else i
  }

  datatype Num = Num(value: int, end: nat)

  /** The digits from i on, added to acc. */
  function Digits(s: string, i: nat, base: nat, acc: nat): (r: Num)
    requires i <= |s|
    ensures i <= r.end <= |s| && r.value >= 0
    decreases |s| - i
  {
    if i < |s| && DigitVal(s[i]) < base then Digits(s, i + 1, base, acc * base + DigitVal(s[i])) else Num(acc, i)
  }

  const LLONG_MAX: int := 0x7fff_ffff_ffff_ffff

  function Clamp(v: int): int {
    if v > LLONG_MAX then LLONG_MAX else if v < -LLONG_MAX - 1 then -LLONG_MAX - 1 else v
  }

  /** strtoll(s, &end, base) for base 10 and for base 0, with end as an offset into s. */
  function StrToLL(s: string, base: nat): (r: Num)
    ensures r.end <= |s|
  {
    var i := SkipSpace(s, 0);
    var neg := i < |s| && s[i] == '-';
    var j := if i < |s| && (s[i] == '-' || s[i] == '+') then i + 1 else i;
    var hex := base == 0 && j + 2 < |s| && s[j] == '0' && (s[j + 1] == 'x' || s[j + 1] == 'X') && DigitVal(s[j + 2]) < 16;
    var radix := if base != 0 then base else if hex then 16 else if j < |s| && s[j] == '0' then 8 else 10;
    var first := if hex then j + 2 else j;
    var d := Digits(s, first, radix, 0);
    if d.end == first then Num(0, 0) else Num(Clamp(if neg then -d.value else d.value), d.end)
  }

  /** The conversion of a long long to a 32-bit int. */
  function ToInt32(v: int): (r: int)
    ensures -0x8000_0000 <= r < 0x8000_0000
    ensures -0x8000_0000 <= v < 0x8000_0000 ==> r == v
  {
    (v + 0x8000_0000) % 0x1_0000_0000 - 0x8000_0000
  }

  // ---------------------------------------------------------------- printf("%d")

  function DecNat(n: nat): (s: string)
    ensures |s| > 0 && forall i :: 0 <= i < |s| ==> '0' <= s[i] <= '9'
  {
    if n < 10 then ['0' + n as char] else DecNat(n / 10) + ['0' + (n % 10) as char]
  }

  function Dec(n: int): (s: string)
    ensures |s| > 0 && forall i :: 0 <= i < |s| ==> s[i] == '-' || '0' <= s[i] <= '9'
  {
    if n < 0 then "-" + DecNat(-n) else DecNat(n)
  }

  predicate EndsNumber(s: string, i: nat) {
    i == |s| || (i < |s| && DigitVal(s[i]) >= 10)
  }

  /** acc followed by the decimal digits of n. */
  function Followed(acc: nat, n: nat): nat {
    if n < 10 then acc * 10 + n else Followed(acc, n / 10) * 10 + n % 10
  }

  lemma {:induction false} FollowedZero(n: nat)
    ensures Followed(0, n) == n
  {
    if n >= 10 {
      FollowedZero(n / 10);
    }
  }

  lemma OneDigit(s: string, i: nat, acc: nat, k: nat)
    requires i < |s| && k < 10 && s[i] == '0' + k as char
    ensures Digits(s, i, 10, acc) == Digits(s, i + 1, 10, acc * 10 + k)
  {
    assert DigitVal(s[i]) == k;
  }

  /** Reading the printed digits of n from i on continues the number with n. */
  lemma {:induction false} DigitsOfDec(s: string, i: nat, n: nat, acc: nat)
    requires i + |DecNat(n)| <= |s| && s[i..i + |DecNat(n)|] == DecNat(n)
    ensures Digits(s, i, 10, acc) == Digits(s, i + |DecNat(n)|, 10, Followed(acc, n))
  {
    hide Digits, DigitVal;
    var t := DecNat(n);
    if n < 10 {
      OneDigit(s, i, acc, n);
    } else {
      var h := DecNat(n / 10);
      assert s[i..i + |h|] == s[i..i + |t|][..|h|] == h;
      DigitsOfDec(s, i, n / 10, acc);
      assert s[i + |h|] == s[i..i + |t|][|h|] == t[|h|];
      OneDigit(s, i + |h|, Followed(acc, n / 10), n % 10);
    }
  }

  /** strtoll gives back any printed int, and stops at the first character after it. */
  lemma {:induction false} NumberRoundTrip(s: string, n: int)
    requires |Dec(n)| <= |s| && s[..|Dec(n)|] == Dec(n) && EndsNumber(s, |Dec(n)|)
    requires -LLONG_MAX <= n <= LLONG_MAX
    ensures StrToLL(s, 10) == Num(n, |Dec(n)|)
  {
    var t := Dec(n);
    var j := if n < 0 then 1 else 0;
    var k := if n < 0 then -n else n;
    assert s[0] == t[0];
    assert SkipSpace(s, 0) == 0;
    assert s[j..j + |DecNat(k)|] == DecNat(k) by {
      assert t[j..] == DecNat(k);
      assert s[j..|t|] == s[..|t|][j..];
    }
    DigitsOfDec(s, j, k, 0);
    FollowedZero(k);
    assert Digits(s, j, 10, 0) == Num(k, |t|);
  }
}
