/** Which packets reach which client: the history of an engine, and what it means (src/rtp.cpp). */
module Delivery {
  import opened RtpHeader
  import opened Sequences

  /** What happens to an engine: its list of playing clients changes, or a packet is sent to all of them. */
  datatype Event<C> = Joined(client: C) | Left(client: C) | Sent(packet: seq<bv8>, samples: nat)

  /** List::remove */
  function RemoveFirst<C(==)>(s: seq<C>, c: C): seq<C> {
    if s == [] then [] else if s[0] == c then s[1..] else [s[0]] + RemoveFirst(s[1..], c)
  }

  function Count<C(==)>(s: seq<C>, c: C): nat {
    if s == [] then 0 else (if s[0] == c then 1 else 0) + Count(s[1..], c)
  }

  function Listed<C(==)>(s: seq<C>, e: Event<C>): seq<C> {
    match e
    case Joined(c) => [c] + s
    case Left(c) => RemoveFirst(s, c)
    case Sent(_, _) => s
  }

  /** The playing list. */
  function Playing<C(==)>(h: seq<Event<C>>): seq<C> {
    if h == [] then [] else Listed(Playing(h[..|h| - 1]), h[|h| - 1])
  }

  function Copies(p: seq<bv8>, n: nat): seq<seq<bv8>> {
    if n == 0 then [] else [p] + Copies(p, n - 1)
  }

  /** Everything handed to the socket of c: one copy of a packet for each place c has in the list. */
  function Delivered<C(==)>(h: seq<Event<C>>, c: C): seq<seq<bv8>> {
    if h == [] then []
    else
      var before := h[..|h| - 1];
      var e := h[|h| - 1];
      Delivered(before, c) + (if e.Sent? then Copies(e.packet, Count(Playing(before), c)) else [])
  }

  /** The log of all packets. */
  function Packets<C>(h: seq<Event<C>>): seq<seq<bv8>> {
    if h == [] then []
    else Packets(h[..|h| - 1]) + (if h[|h| - 1].Sent? then [h[|h| - 1].packet] else [])
  }

  function Samples<C>(h: seq<Event<C>>): nat {
    if h == [] then 0
    else Samples(h[..|h| - 1]) + (if h[|h| - 1].Sent? then h[|h| - 1].samples else 0)
  }

  // ---------------------------------------------------------------- the list

  lemma {:induction false} CountRemove<C>(s: seq<C>, c: C, d: C)
    ensures Count(RemoveFirst(s, c), d) == if c == d && Count(s, c) > 0 then Count(s, d) - 1 else Count(s, d)
  {
    if s != [] && s[0] != c {
      CountRemove(s[1..], c, d);
    }
  }

  lemma {:induction false} CountIn<C>(s: seq<C>, c: C)
    ensures c in s <==> Count(s, c) > 0
  {
    if s != [] {
      CountIn(s[1..], c);
    }
  }

  // ---------------------------------------------------------------- one playing period

  /** c neither joins nor leaves. */
  ghost predicate Steady<C>(g: seq<Event<C>>, c: C) {
    forall i :: 0 <= i < |g| ==> g[i] != Joined(c) && g[i] != Left(c)
  }

  lemma Snoc<T>(h: seq<T>, g: seq<T>)
    requires g != []
    ensures (h + g)[..|h + g| - 1] == h + g[..|g| - 1] && (h + g)[|h + g| - 1] == g[|g| - 1]
  {
  }

  lemma {:induction false} SteadyCount<C>(h: seq<Event<C>>, g: seq<Event<C>>, c: C)
    requires Steady(g, c)
    ensures Count(Playing(h + g), c) == Count(Playing(h), c)
    decreases |g|
  {
    if g == [] {
      assert h + g == h;
    } else {
      Snoc(h, g);
      SteadyCount(h, g[..|g| - 1], c);
      var e, s := g[|g| - 1], Playing(h + g[..|g| - 1]);
      if e.Left? {
        CountRemove(s, e.client, c);
      }
      assert e.Joined? ==> ([e.client] + s)[1..] == s;
    }
  }

  function Each(ps: seq<seq<bv8>>, n: nat): seq<seq<bv8>> {
    if ps == [] then [] else Each(ps[..|ps| - 1], n) + Copies(ps[|ps| - 1], n)
  }

  /** While c neither joins nor leaves it gets every packet as often as it is listed. */
  lemma {:induction false} SteadyDelivery<C>(h: seq<Event<C>>, g: seq<Event<C>>, c: C)
    requires Steady(g, c)
    ensures Delivered(h + g, c) == Delivered(h, c) + Each(Packets(g), Count(Playing(h), c))
    decreases |g|
  {
    var n := Count(Playing(h), c);
    if g == [] {
      assert h + g == h;
    } else {
      hide *;
      Snoc(h, g);
      var before, e := g[..|g| - 1], g[|g| - 1];
      SteadyPrefix(g, c);
      SteadyDelivery(h, before, c);
      SteadyCount(h, before, c);
      DeliveredLast(h + g, c);
      PacketsLast(g, n);
      if e.Sent? {
        Associate(Delivered(h, c), Each(Packets(before), n), Copies(e.packet, n));
      }
    }
  }

  lemma SteadyPrefix<C>(g: seq<Event<C>>, c: C)
    requires Steady(g, c) && g != []
    ensures Steady(g[..|g| - 1], c)
  {
  }

  lemma DeliveredLast<C>(h: seq<Event<C>>, c: C)
    requires h != []
    ensures var before, e := h[..|h| - 1], h[|h| - 1];
            Delivered(h, c)
            == if e.Sent? then Delivered(before, c) + Copies(e.packet, Count(Playing(before), c)) else Delivered(before, c)
  {
    hide Playing, Count, Copies;
  }

  lemma PacketsLast<C>(g: seq<Event<C>>, n: nat)
    requires g != []
    ensures var before, e := g[..|g| - 1], g[|g| - 1];
            Each(Packets(g), n)
            == if e.Sent? then Each(Packets(before), n) + Copies(e.packet, n) else Each(Packets(before), n)
  {
    hide Copies;
    var ps, e := Packets(g[..|g| - 1]), g[|g| - 1];
    if e.Sent? {
      assert Packets(g) == ps + [e.packet];
      assert (ps + [e.packet])[..|ps|] == ps;
    } else {
      assert Packets(g) == ps;
    }
  }

  lemma {:induction false} PacketsConcat<C>(h: seq<Event<C>>, g: seq<Event<C>>)
    ensures Packets(h + g) == Packets(h) + Packets(g)
    decreases |g|
  {
    if g == [] {
      assert h + g == h;
    } else {
      Snoc(h, g);
      PacketsConcat(h, g[..|g| - 1]);
    }
  }

  lemma {:induction false} EachOnce(ps: seq<seq<bv8>>)
    ensures Each(ps, 1) == ps
    decreases |ps|
  {
    if ps != [] {
      EachOnce(ps[..|ps| - 1]);
      assert Copies(ps[|ps| - 1], 1) == [ps[|ps| - 1]];
      assert ps == ps[..|ps| - 1] + [ps[|ps| - 1]];
    }
  }

  lemma {:induction false} EachLength(ps: seq<seq<bv8>>, n: nat)
    ensures |Each(ps, n)| == |ps| * n
    decreases |ps|
  {
    if ps != [] {
      EachLength(ps[..|ps| - 1], n);
      CopiesLength(ps[|ps| - 1], n);
      assert |ps| * n == (|ps| - 1) * n + n;
    }
  }

  lemma {:induction false} CopiesLength(p: seq<bv8>, n: nat)
    ensures |Copies(p, n)| == n
  {
    if n > 0 {
      CopiesLength(p, n - 1);
    }
  }

  /** From the moment c joins, while it neither joins again nor leaves, it gets exactly the packets that the
      engine sends in that time, a contiguous piece of the log - if and only if it was not listed already. */
  lemma PlayingPeriod<C>(h: seq<Event<C>>, c: C, g: seq<Event<C>>)
    requires Steady(g, c)
    ensures var all := h + [Joined(c)] + g;
            && Packets(all) == Packets(h) + Packets(g)
            && (Delivered(all, c) == Delivered(h, c) + Packets(all)[|Packets(h)|..]
                <==> c !in Playing(h) || Packets(g) == [])
  {
    hide Delivered, Packets, Playing, Count, Each, Copies;
    var j := h + [Joined(c)];
    var n := Count(Playing(h), c);
    JoinedLast(h, c);
    PacketsConcat(j, g);
    SteadyDelivery(j, g, c);
    CountIn(Playing(h), c);
    var ps := Packets(g);
    assert (Packets(h) + ps)[|Packets(h)|..] == ps;
    if n == 0 {
      EachOnce(ps);
    } else {
      EachLength(ps, n + 1);
      Longer(|ps|, n);
    }
  }

  lemma JoinedLast<C>(h: seq<Event<C>>, c: C)
    ensures var j := h + [Joined(c)];
            && Delivered(j, c) == Delivered(h, c) && Packets(j) == Packets(h)
            && Count(Playing(j), c) == Count(Playing(h), c) + 1
  {
    var j := h + [Joined(c)];
    assert j[..|j| - 1] == h;
    assert ([c] + Playing(h))[1..] == Playing(h);
  }

  lemma Longer(k: nat, n: nat)
    requires n > 0
    ensures k * (n + 1) == k <==> k == 0
  {
    assert k * (n + 1) == k * n + k;
    assert k > 0 ==> k * n >= k;
  }

  /** A client that has left gets nothing until it joins again. */
  lemma AfterLeaving<C>(h: seq<Event<C>>, c: C, g: seq<Event<C>>)
    requires Steady(g, c) && Count(Playing(h), c) <= 1
    ensures Delivered(h + [Left(c)] + g, c) == Delivered(h, c)
  {
    var j := h + [Left(c)];
    assert j[..|j| - 1] == h;
    CountRemove(Playing(h), c, c);
    SteadyDelivery(j, g, c);
    EachNone(Packets(g));
  }

  lemma {:induction false} EachNone(ps: seq<seq<bv8>>)
    ensures Each(ps, 0) == []
    decreases |ps|
  {
    if ps != [] {
      EachNone(ps[..|ps| - 1]);
    }
  }

  // ---------------------------------------------------------------- numbering

  /** Every packet carries the wrapped counters of the moment it was sent. */
  ghost predicate Stamped<C>(h: seq<Event<C>>) {
    forall i :: 0 <= i < |h| && h[i].Sent? ==>
      && |h[i].packet| >= HEADER
      && SequenceNumber(h[i].packet) == (1 + |Packets(h[..i])|) % 0x1_0000
      && Timestamp(h[i].packet) == Samples(h[..i]) % 0x1_0000_0000
  }

  /** Packet k of the log carries number 1 + k and, with s samples in each packet, the time k * s, both wrapped. */
  lemma {:induction false} PacketNumbers<C>(h: seq<Event<C>>, k: nat, s: nat)
    requires Stamped(h) && k < |Packets(h)| && forall i :: 0 <= i < |h| && h[i].Sent? ==> h[i].samples == s
    ensures |Packets(h)[k]| >= HEADER
    ensures SequenceNumber(Packets(h)[k]) == (1 + k) % 0x1_0000
    ensures Timestamp(Packets(h)[k]) == k * s % 0x1_0000_0000
    decreases |h|
  {
    var n := |h| - 1;
    var before := h[..n];
    if k < |Packets(before)| {
      assert forall i :: 0 <= i < n ==> before[i] == h[i] && before[..i] == h[..i];
      PacketNumbers(before, k, s);
    } else {
      SamplesAre(before, s);
    }
  }

  lemma {:induction false} SamplesAre<C>(h: seq<Event<C>>, s: nat)
    requires forall i :: 0 <= i < |h| && h[i].Sent? ==> h[i].samples == s
    ensures Samples(h) == |Packets(h)| * s
    decreases |h|
  {
    if h != [] {
      var before := h[..|h| - 1];
      SamplesAre(before, s);
      assert h[|h| - 1].Sent? ==> |Packets(h)| * s == |Packets(before)| * s + s;
    }
  }
}
