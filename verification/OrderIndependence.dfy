/** The order of options in a Transport spec, and of header lines in a request, does not matter. */
module OrderIndependence {
  import opened TransportParsing
  import opened TransportGrammar
  import opened TransportRoundTrip
  import opened HeaderParsing
  import opened RequestParsing
  import opened RequestGrammar

  // ---------------------------------------------------------------- folds of commuting steps

  function Fold<S, T>(f: (S, T) -> S, s: S, xs: seq<T>): S
    decreases |xs|
  {
    if xs == [] then s else Fold(f, f(s, xs[0]), xs[1..])
  }

  ghost predicate Commute<S(!new), T>(f: (S, T) -> S, a: T, b: T) {
    forall s :: f(f(s, a), b) == f(f(s, b), a)
  }

  ghost predicate AllCommute<S(!new), T>(f: (S, T) -> S, xs: seq<T>) {
    forall i, j :: 0 <= i < |xs| && 0 <= j < |xs| && i != j ==> Commute(f, xs[i], xs[j])
  }

  lemma {:induction false} MoveToFront<S(!new), T>(f: (S, T) -> S, s: S, xs: seq<T>, k: nat)
    requires k < |xs| && forall i :: 0 <= i < k ==> Commute(f, xs[i], xs[k])
    ensures Fold(f, s, xs) == Fold(f, f(s, xs[k]), xs[..k] + xs[k + 1..])
    decreases k
  {
    var rest := xs[..k] + xs[k + 1..];
    if k == 0 {
      assert rest == xs[1..];
    } else {
      var t := xs[1..];
      MoveToFront(f, f(s, xs[0]), t, k - 1);
      assert Commute(f, xs[0], xs[k]);
      assert t[..k - 1] + t[k..] == rest[1..];
    }
  }

  lemma RemoveAt<T>(xs: seq<T>, k: nat)
    requires k < |xs|
    ensures multiset(xs[..k] + xs[k + 1..]) == multiset(xs) - multiset{xs[k]}
  {
    assert xs == xs[..k] + [xs[k]] + xs[k + 1..];
  }

  lemma IndexOf<T>(xs: seq<T>, y: T, ys: seq<T>) returns (k: nat)
    requires multiset(xs) == multiset(ys) && y in ys
    ensures k < |xs| && xs[k] == y
  {
    assert y in multiset(ys);
    k :| 0 <= k < |xs| && xs[k] == y;
  }

  lemma FindFirst<T>(xs: seq<T>, ys: seq<T>) returns (k: nat)
    requires multiset(xs) == multiset(ys) && ys != []
    ensures k < |xs| && xs[k] == ys[0] && multiset(xs[..k] + xs[k + 1..]) == multiset(ys[1..])
  {
    k := IndexOf(xs, ys[0], ys);
    RemoveAt(xs, k);
    assert ys == [ys[0]] + ys[1..];
  }

  lemma RestCommutes<S(!new), T>(f: (S, T) -> S, xs: seq<T>, k: nat, rest: seq<T>)
    requires k < |xs| && AllCommute(f, xs) && rest == xs[..k] + xs[k + 1..]
    ensures AllCommute(f, rest)
  {
    hide Commute;
    forall i, j | 0 <= i < |rest| && 0 <= j < |rest| && i != j
      ensures Commute(f, rest[i], rest[j])
    {
      var i', j' := if i < k then i else i + 1, if j < k then j else j + 1;
      assert Commute(f, xs[i'], xs[j']);
    }
  }

  /** Steps that commute give the same result in any order. */
  lemma {:induction false} Permuted<S(!new), T>(f: (S, T) -> S, s: S, xs: seq<T>, ys: seq<T>)
    requires multiset(xs) == multiset(ys) && AllCommute(f, xs)
    ensures Fold(f, s, xs) == Fold(f, s, ys)
    decreases |ys|
  {
    hide Commute;
    if ys == [] {
      assert |multiset(xs)| == 0;
    } else {
      var k := FindFirst(xs, ys);
      MoveToFront(f, s, xs, k);
      var rest := xs[..k] + xs[k + 1..];
      RestCommutes(f, xs, k, rest);
      Permuted(f, f(s, ys[0]), rest, ys[1..]);
    }
  }

  // ---------------------------------------------------------------- options

  /** The field an option writes. */
  datatype Field = Unicasting | Muxing | Range(f: RangeField) | Moding | Nothing

  function FieldOf(o: Opt): Field {
    match o
    case OUnicast => Unicasting
    case OMulticast => Unicasting
    case ORtcpMux => Muxing
    case ORange(f, _, _) => Range(f)
    case OMode(_) => Moding
    case ORaw(_) => Nothing
  }

  lemma RangesCommute(t: Transport, f: RangeField, g: RangeField, p: Pair, q: Pair)
    requires f != g
    ensures SetRange(SetRange(t, f, p), g, q) == SetRange(SetRange(t, g, q), f, p)
  {
  }

  lemma RangeAndOther(t: Transport, f: RangeField, p: Pair, o: Opt)
    requires !o.ORange? && !o.ORaw?
    ensures SetRange(Apply(t, o), f, p) == Apply(SetRange(t, f, p), o)
  {
    match f
    case ClientPort =>
    case ServerPort =>
    case Interleaved =>
    case Port =>
  }

  lemma OptionsCommute(a: Opt, b: Opt)
    requires FieldOf(a) != FieldOf(b) && !a.ORaw? && !b.ORaw?
    ensures Commute(Apply, a, b)
  {
    forall t
      ensures Apply(Apply(t, a), b) == Apply(Apply(t, b), a)
    {
      hide SetRange;
      if a.ORange? && b.ORange? {
        RangesCommute(t, a.field, b.field, Pair(a.first, a.second), Pair(b.first, b.second));
      } else if a.ORange? {
        RangeAndOther(t, a.field, Pair(a.first, a.second), b);
      } else if b.ORange? {
        RangeAndOther(t, b.field, Pair(b.first, b.second), a);
      }
    }
  }

  lemma {:induction false} ApplyAllIsFold(t: Transport, opts: seq<Opt>)
    requires Known(opts)
    ensures ApplyAll(t, opts) == Fold(Apply, t, opts)
    decreases |opts|
  {
    hide Apply;
    if opts != [] {
      KnownStep(opts);
      ApplyAllIsFold(Apply(t, opts[0]), opts[1..]);
    }
  }

  ghost predicate DistinctFields(opts: seq<Opt>) {
    forall i, j :: 0 <= i < |opts| && 0 <= j < |opts| && i != j ==> FieldOf(opts[i]) != FieldOf(opts[j])
  }

  lemma KnownPermuted(opts: seq<Opt>, others: seq<Opt>)
    requires Known(opts) && multiset(opts) == multiset(others)
    ensures Known(others)
  {
    forall i | 0 <= i < |others|
      ensures !others[i].ORaw?
    {
      assert others[i] in multiset(others);
      assert others[i] in opts;
    }
  }

  /** Options that write different fields may come in any order. */
  lemma OptionOrder(s: Spec, opts: seq<Opt>, t: Transport)
    requires DistinctFields(s.opts) && Known(s.opts) && multiset(s.opts) == multiset(opts)
    ensures Meaning(s, t) == Meaning(s.(opts := opts), t) && Known(opts)
  {
    KnownPermuted(s.opts, opts);
    forall i, j | 0 <= i < |s.opts| && 0 <= j < |s.opts| && i != j
      ensures Commute(Apply, s.opts[i], s.opts[j])
    {
      OptionsCommute(s.opts[i], s.opts[j]);
    }
    var b := Base(s, t);
    assert Base(s.(opts := opts), t) == b;
    Permuted(Apply, b, s.opts, opts);
    ApplyAllIsFold(b, s.opts);
    ApplyAllIsFold(b, opts);
  }

  // ---------------------------------------------------------------- header lines

  /** Two lines that do not carry the same header; headers the server does not read never clash. */
  predicate Different(a: HeaderText, b: HeaderText) {
    match a
    case HCSeq(_) => !b.HCSeq?
    case HSession(_) => !b.HSession?
    case HAccept(_) => !b.HAccept?
    case HTransport(_) => !b.HTransport?
    case HOther(_, _) => true
  }

  lemma HeadersCommute(a: HeaderText, b: HeaderText)
    requires Different(a, b)
    ensures Commute(MeanHeader, a, b)
  {
    hide MeanSpecs, TakesSdp;
    forall h
      ensures MeanHeader(MeanHeader(h, a), b) == MeanHeader(MeanHeader(h, b), a)
    {
    }
  }

  lemma {:induction false} MeanHeadersIsFold(h: Header, ls: seq<HeaderText>)
    requires NoneStops(ls)
    ensures MeanHeaders(h, ls) == Fold(MeanHeader, h, ls)
    decreases |ls|
  {
    hide MeanHeader, StopsReading;
    if ls != [] {
      NoneStopsStep(ls);
      MeanHeadersIsFold(MeanHeader(h, ls[0]), ls[1..]);
    }
  }

  ghost predicate AllDifferent(ls: seq<HeaderText>) {
    forall i, j :: 0 <= i < |ls| && 0 <= j < |ls| && i != j ==> Different(ls[i], ls[j])
  }

  lemma NoneStopsPermuted(ls: seq<HeaderText>, ks: seq<HeaderText>)
    requires NoneStops(ls) && multiset(ls) == multiset(ks)
    ensures NoneStops(ks)
  {
    hide StopsReading;
    forall k | 0 <= k < |ks|
      ensures !StopsReading(ks[k])
    {
      assert ks[k] in multiset(ks);
      assert ks[k] in ls;
    }
  }

  lemma HeaderOrder(h: Header, ls: seq<HeaderText>, ks: seq<HeaderText>)
    requires AllDifferent(ls) && NoneStops(ls) && multiset(ls) == multiset(ks)
    ensures MeanHeaders(h, ls) == MeanHeaders(h, ks)
  {
    NoneStopsPermuted(ls, ks);
    forall i, j | 0 <= i < |ls| && 0 <= j < |ls| && i != j
      ensures Commute(MeanHeader, ls[i], ls[j])
    {
      HeadersCommute(ls[i], ls[j]);
    }
    Permuted(MeanHeader, h, ls, ks);
    MeanHeadersIsFold(h, ls);
    MeanHeadersIsFold(h, ks);
  }

  lemma ValidPermuted(r: RequestText, headers: seq<HeaderText>)
    requires ValidRequest(r) && multiset(r.headers) == multiset(headers)
    ensures ValidRequest(r.(headers := headers))
  {
    hide ValidHeader, PrintHeader;
    forall k | 0 <= k < |headers|
      ensures ValidHeader(headers[k]) && '\r' !in PrintHeader(headers[k])
    {
      assert headers[k] in multiset(headers);
      assert headers[k] in r.headers;
    }
  }

  /** Printing the header lines in another order changes nothing of what the parser returns. */
  lemma RequestOrder(m: seq<char>, n: seq<char>, r: RequestText, headers: seq<HeaderText>)
    requires ValidRequest(r) && AllDifferent(r.headers) && NoneStops(r.headers) && multiset(r.headers) == multiset(headers)
    requires At(m, 0, PrintRequest(r)) && (ValidPermuted(r, headers); At(n, 0, PrintRequest(r.(headers := headers))))
    ensures (ValidPermuted(r, headers);
             ParseRequest(m, |PrintRequest(r)|).req == ParseRequest(n, |PrintRequest(r.(headers := headers))|).req)
  {
    hide ParseRequest, PrintRequest, ValidRequest, At, AllDifferent, NoneStops, CommandOf, MeanHeaders;
    ValidPermuted(r, headers);
    RequestRoundTrip(m, r);
    RequestRoundTrip(n, r.(headers := headers));
    HeaderOrder(NO_HEADER.(acceptSdp := true), r.headers, headers);
  }

  /** The request whose Transport header k prints the options of its spec j as opts. */
  function WithOptions(r: RequestText, k: nat, j: nat, opts: seq<Opt>): RequestText
    requires k < |r.headers| && r.headers[k].HTransport? && j < |r.headers[k].specs|
  {
    var specs := r.headers[k].specs;
    r.(headers := r.headers[k := HTransport(specs[j := specs[j].(opts := opts)])])
  }

  /** Printing the options of a spec in another order changes nothing of what the parser returns. */
  lemma RequestOptionOrder(m: seq<char>, n: seq<char>, r: RequestText, k: nat, j: nat, opts: seq<Opt>)
    requires ValidRequest(r) && k < |r.headers| && r.headers[k].HTransport? && j < |r.headers[k].specs|
    requires var before := r.headers[k].specs[j].opts; DistinctFields(before) && Known(before) && multiset(before) == multiset(opts)
    requires ValidRequest(WithOptions(r, k, j, opts))
    requires At(m, 0, PrintRequest(r)) && At(n, 0, PrintRequest(WithOptions(r, k, j, opts)))
    ensures ParseRequest(m, |PrintRequest(r)|).req == ParseRequest(n, |PrintRequest(WithOptions(r, k, j, opts))|).req
  {
    hide ParseRequest, PrintRequest, ValidRequest, At, CommandOf, MeanHeaders, MeanSpecs, DistinctFields, Known;
    var w := WithOptions(r, k, j, opts);
    RequestRoundTrip(m, r);
    RequestRoundTrip(n, w);
    SameMeaning(r.headers[k].specs, j, opts);
    SameHeaders(NO_HEADER.(acceptSdp := true), r.headers, k, w.headers[k]);
  }

  lemma SameMeaning(specs: seq<Spec>, j: nat, opts: seq<Opt>)
    requires j < |specs| && DistinctFields(specs[j].opts) && Known(specs[j].opts) && multiset(specs[j].opts) == multiset(opts)
    ensures forall ts :: MeanSpecs(specs, ts) == MeanSpecs(specs[j := specs[j].(opts := opts)], ts)
    ensures AllKnown(specs) == AllKnown(specs[j := specs[j].(opts := opts)])
  {
    hide DistinctFields, Meaning, Known;
    OptionOrder(specs[j], opts, ZERO);
    SameTaken(specs, j, opts);
    forall ts
      ensures MeanSpecs(specs, ts) == MeanSpecs(specs[j := specs[j].(opts := opts)], ts)
    {
      if j < |ts| {
        OptionOrder(specs[j], opts, ts[j]);
      }
    }
  }

  lemma {:induction false} SameTaken(specs: seq<Spec>, j: nat, opts: seq<Opt>)
    requires j < |specs| && Known(specs[j].opts) && Known(opts)
    ensures Taken(specs) == Taken(specs[j := specs[j].(opts := opts)])
    ensures AllKnown(specs) == AllKnown(specs[j := specs[j].(opts := opts)])
    decreases |specs|
  {
    hide Known, AllKnown;
    var ss := specs[j := specs[j].(opts := opts)];
    AllKnownStep(specs);
    AllKnownStep(ss);
    if j == 0 {
      assert ss[1..] == specs[1..];
    } else {
      assert ss[0] == specs[0] && ss[1..] == specs[1..][j - 1 := specs[1..][j - 1].(opts := opts)];
      SameTaken(specs[1..], j - 1, opts);
    }
  }

  /** A header line may be replaced by one of the same meaning. */
  lemma {:induction false} SameHeaders(h: Header, ls: seq<HeaderText>, k: nat, l: HeaderText)
    requires k < |ls| && StopsReading(ls[k]) == StopsReading(l) && forall g :: MeanHeader(g, ls[k]) == MeanHeader(g, l)
    ensures MeanHeaders(h, ls) == MeanHeaders(h, ls[k := l])
    decreases |ls|
  {
    hide MeanHeader, StopsReading;
    var ms := ls[k := l];
    if k == 0 {
      assert ms[1..] == ls[1..];
    } else {
      assert ms[0] == ls[0] && ms[1..] == ls[1..][k - 1 := l];
      SameHeaders(MeanHeader(h, ls[0]), ls[1..], k - 1, l);
    }
  }
}
