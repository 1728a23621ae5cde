/** RTP_Client and RTP_Engine (src/rtp.cpp, src/rtp.h): a pool of packets and the clients they are sent to. */
module Rtp {
  import opened RtpHeader
  import opened Delivery

  class RtpClient {
    const port: int  // where its socket sends to
    var numPackets: nat
    var numErrors: nat
    ghost var received: seq<seq<bv8>>  // everything handed to the socket
    ghost var answers: seq<int>        // what the socket said to it

    constructor (p: int)
      ensures port == p && numPackets == 0 && numErrors == 0 && received == [] && answers == []
    {
      port := p;
      numPackets, numErrors, received, answers := 0, 0, [], [];
    }

    /** Every packet is counted and answered; the errors are those that the socket did not take whole. */
    ghost predicate Counted()
      reads this
    {
      numPackets == |received| == |answers| && numErrors == Failures(received, answers)
    }

    /** The socket's answer is arbitrary. */
    method Send(data: array<bv8>, len: nat) returns (sent: int)
      requires len <= data.Length
      modifies this
      ensures numPackets == old(numPackets) + 1 && numErrors == old(numErrors)
      ensures received == old(received) + [data[..len]] && answers == old(answers) + [sent]
    {
      numPackets := numPackets + 1;
      sent := *;
      received := received + [data[..len]];
      answers := answers + [sent];
    }

    method Error()
      modifies this
      ensures numErrors == old(numErrors) + 1 && numPackets == old(numPackets)
      ensures received == old(received) && answers == old(answers)
    {
      numErrors := numErrors + 1;
    }
  }

  class Block {
    const packet: array<bv8>
    const maxPayload: nat

    constructor (p: array<bv8>, n: nat)
      ensures packet == p && maxPayload == n
    {
      packet := p;
      maxPayload := n;
    }
  }

  /** The sizes a codec reports. */
  datatype Codec = Codec(samplesPerPacket: nat, numChans: nat, sampleSize: nat, maxPayload: nat, payloadType: bv8)

  ghost predicate NoDuplicates<T>(s: seq<T>) {
    forall i, j :: 0 <= i < j < |s| ==> s[i] != s[j]
  }

  // ---------------------------------------------------------------- counting errors

  function Failures(received: seq<seq<bv8>>, answers: seq<int>): nat {
    if received == [] || |received| != |answers| then 0
    else
      var n := |received| - 1;
      Failures(received[..n], answers[..n]) + if answers[n] != |received[n]| then 1 else 0
  }

  lemma OneMoreAnswer(received: seq<seq<bv8>>, answers: seq<int>, p: seq<bv8>, sent: int)
    requires |received| == |answers|
    ensures Failures(received + [p], answers + [sent]) == Failures(received, answers) + if sent != |p| then 1 else 0
  {
    assert (received + [p])[..|received|] == received && (answers + [sent])[..|answers|] == answers;
  }

  /** The packets that the socket did not take whole. */
  ghost function FailedAt(received: seq<seq<bv8>>, answers: seq<int>): set<nat>
    requires |received| == |answers|
  {
    set k: nat | k < |received| && answers[k] != |received[k]|
  }

  lemma {:induction false} FailuresCount(received: seq<seq<bv8>>, answers: seq<int>)
    requires |received| == |answers|
    ensures Failures(received, answers) == |FailedAt(received, answers)|
  {
    if received == [] {
      assert FailedAt(received, answers) == {};
    } else {
      var n := |received| - 1;
      FailuresCount(received[..n], answers[..n]);
      var before := FailedAt(received[..n], answers[..n]);
      assert FailedAt(received, answers) == before + if answers[n] != |received[n]| then {n} else {};
    }
  }

  // ---------------------------------------------------------------- counting copies

  lemma {:induction false} CountSnoc<C>(s: seq<C>, x: C, c: C)
    ensures Count(s + [x], c) == Count(s, c) + (if x == c then 1 else 0)
  {
    if s == [] {
      assert s + [x] == [x];
    } else {
      assert (s + [x])[1..] == s[1..] + [x];
      CountSnoc(s[1..], x, c);
    }
  }

  lemma {:induction false} CopiesSnoc(p: seq<bv8>, n: nat)
    ensures Copies(p, n + 1) == Copies(p, n) + [p]
  {
    if n == 0 {
      assert Copies(p, 1) == [p] + Copies(p, 0);
    } else {
      CopiesSnoc(p, n - 1);
      assert [p] + (Copies(p, n - 1) + [p]) == ([p] + Copies(p, n - 1)) + [p];
    }
  }

  lemma CountNothing<C>(cs: set<C>, p: seq<bv8>)
    ensures forall c :: c in cs ==> Count([], c) == 0
    ensures Copies(p, 0) == []
  {
  }

  /** A client that never joined has received nothing, whatever was removed in its name. */
  lemma {:induction false} NeverJoined<C>(h: seq<Event<C>>, c: C)
    requires forall i :: 0 <= i < |h| ==> h[i] != Joined(c)
    ensures Count(Playing(h), c) == 0 && Delivered(h, c) == []
    decreases |h|
  {
    if h != [] {
      var before, e := h[..|h| - 1], h[|h| - 1];
      NeverJoined(before, c);
      if e.Left? {
        CountRemove(Playing(before), e.client, c);
      }
      assert e.Joined? ==> ([e.client] + Playing(before))[1..] == Playing(before);
    }
  }

  lemma NoEvents<C>()
    ensures Playing<C>([]) == [] && Packets<C>([]) == [] && Samples<C>([]) == 0 && Stamped<C>([])
  {
  }

  /** Joining and leaving change the list and nothing else. */
  lemma ListEvent<C>(h: seq<Event<C>>, e: Event<C>, cs: set<C>)
    requires !e.Sent?
    ensures var g := h + [e];
            && Playing(g) == Listed(Playing(h), e) && Packets(g) == Packets(h) && Samples(g) == Samples(h)
            && (Stamped(h) ==> Stamped(g)) && (forall c :: c in cs ==> Delivered(g, c) == Delivered(h, c))
  {
    var g := h + [e];
    assert g[..|g| - 1] == h;
    forall i | 0 <= i < |h|
      ensures g[i] == h[i] && g[..i] == h[..i]
    {
    }
  }

  /** Sending adds one packet to the log and gives every client its copies. */
  lemma SentEvent<C>(h: seq<Event<C>>, p: seq<bv8>, samples: nat, cs: set<C>)
    requires Stamped(h) && |p| >= HEADER
    requires SequenceNumber(p) == (1 + |Packets(h)|) % 0x1_0000 && Timestamp(p) == Samples(h) % 0x1_0000_0000
    ensures var g := h + [Sent(p, samples)];
            && Playing(g) == Playing(h) && |Packets(g)| == |Packets(h)| + 1 && Samples(g) == Samples(h) + samples
            && Stamped(g) && (forall c :: c in cs ==> Delivered(g, c) == Delivered(h, c) + Copies(p, Count(Playing(h), c)))
  {
    hide *;
    SentLast(h, p, samples, cs);
    StampedSnoc(h, Sent(p, samples));
  }

  lemma SentLast<C>(h: seq<Event<C>>, p: seq<bv8>, samples: nat, cs: set<C>)
    ensures var g := h + [Sent(p, samples)];
            && Playing(g) == Playing(h) && |Packets(g)| == |Packets(h)| + 1 && Samples(g) == Samples(h) + samples
            && (forall c :: c in cs ==> Delivered(g, c) == Delivered(h, c) + Copies(p, Count(Playing(h), c)))
  {
    hide Copies, Count;
    var g := h + [Sent(p, samples)];
    assert g[..|g| - 1] == h;
  }

  lemma StampedSnoc<C>(h: seq<Event<C>>, e: Event<C>)
    requires Stamped(h) && e.Sent? && |e.packet| >= HEADER
    requires SequenceNumber(e.packet) == (1 + |Packets(h)|) % 0x1_0000 && Timestamp(e.packet) == Samples(h) % 0x1_0000_0000
    ensures Stamped(h + [e])
  {
    hide SequenceNumber, Timestamp, Packets, Samples;
    var g := h + [e];
    assert g[..|h|] == h;
    assert forall i :: 0 <= i < |h| ==> g[i] == h[i] && g[..i] == h[..i];
  }

  lemma WrapTime(total: nat, samples: nat)
    ensures (total % 0x1_0000_0000 + samples % 0x1_0000_0000) % 0x1_0000_0000 == (total + samples) % 0x1_0000_0000
  {
  }

  lemma WrapNumber(n: nat)
    ensures ((1 + n) % 0x1_0000 + 1) % 0x1_0000 == (1 + (n + 1)) % 0x1_0000
  {
  }

  /** What is handed to the sockets. */
  function Outgoing(packet: seq<bv8>, number: nat, time: nat, bytes: nat): (p: seq<bv8>)
    requires HEADER + bytes <= |packet|
    ensures |p| == HEADER + bytes
  {
    Stamp(packet, number, time)[..HEADER + bytes]
  }

  lemma OutgoingFields(packet: seq<bv8>, number: nat, time: nat, bytes: nat, payloadType: bv8)
    requires HEADER + bytes <= |packet| && FixedFields(packet, payloadType)
    ensures var p := Outgoing(packet, number, time, bytes);
            && SequenceNumber(p) == number % 0x1_0000 && Timestamp(p) == time % 0x1_0000_0000
            && FixedFields(p, payloadType) && p[HEADER..] == packet[HEADER..HEADER + bytes]
            && FixedFields(Stamp(packet, number, time), payloadType)
  {
    StampRoundTrip(packet, number, time, payloadType);
    var r := Stamp(packet, number, time);
    assert r[..HEADER + bytes][HEADER..] == r[HEADER..][..bytes] == packet[HEADER..][..bytes];
  }

  // ---------------------------------------------------------------- the engine

  ghost function Elements<T>(s: seq<T>): set<T> {
    set x | x in s
  }

  lemma {:induction false} ElementsSize<T>(s: seq<T>)
    requires NoDuplicates(s)
    ensures |Elements(s)| == |s|
    decreases |s|
  {
    if s != [] {
      var t := s[1..];
      assert forall i, j :: 0 <= i < j < |t| ==> t[i] == s[i + 1] && t[j] == s[j + 1];
      ElementsSize(t);
      assert Elements(s) == {s[0]} + Elements(t);
    }
  }

  class RtpEngine {
    const codec: Codec
    const rtpPort: int
    const rtcpPort: int
    var playing: seq<RtpClient>
    var packetSeq: nat
    var timestamp: nat
    var blocks: seq<Block>  // the free list
    ghost var pool: set<Block>  // every block the constructor allocated
    ghost var clients: set<RtpClient>  // every client that ever joined
    ghost var history: seq<Event<RtpClient>>

    ghost function Packets(): set<object>
      reads `pool
    {
      set b | b in pool :: b.packet
    }

    /** Every pooled packet carries the fields the constructor wrote, on bytes of its own. */
    ghost predicate PoolOk()
      reads `blocks, `pool, Packets()
    {
      && NoDuplicates(blocks) && (forall k :: 0 <= k < |blocks| ==> blocks[k] in pool)
      && (forall b :: b in pool ==>
            && b.maxPayload == codec.maxPayload && b.packet.Length == HEADER + codec.maxPayload
            && FixedFields(b.packet[..], codec.payloadType))
      && (forall a, b :: a in pool && b in pool && a != b ==> a.packet != b.packet)
    }

    /** The blocks taken from the free list and not yet given back. */
    ghost function InFlight(): set<Block>
      reads this
    {
      set b | b in pool && b !in blocks
    }

    /** The fields agree with what has happened. */
    ghost predicate CountersOk()
      reads `playing, `packetSeq, `timestamp, `clients, `history
    {
      && playing == Playing(history) && Stamped(history)
      && packetSeq == (1 + |Delivery.Packets(history)|) % 0x1_0000
      && timestamp == Samples(history) % 0x1_0000_0000
      && (forall k :: 0 <= k < |playing| ==> playing[k] in clients)
      && (forall i :: 0 <= i < |history| && history[i].Joined? ==> history[i].client in clients)
    }

    /** Each client has been given what the history says, and counted it. */
    ghost predicate ClientsOk()
      reads `clients, `history, clients
    {
      forall c :: c in clients ==>
        c.received == Delivered(history, c) && c.Counted()
    }

    ghost predicate Valid()
      reads this, Packets(), clients
    {
      PoolOk() && CountersOk() && ClientsOk()
    }

    constructor (c: Codec, rtp: int, rtcp: int, numBuffers: nat)
      ensures Valid() && fresh(pool) && fresh(Packets())
      ensures codec == c && rtpPort == rtp && rtcpPort == rtcp
      ensures |blocks| == |pool| == numBuffers && playing == [] && history == [] && clients == {}
    {
      hide FixedFields, Delivery.Playing, Delivered, Samples, Delivery.Packets, Stamped;
      codec, rtpPort, rtcpPort := c, rtp, rtcp;
      playing, packetSeq, timestamp, blocks := [], 1, 0, [];
      pool, clients, history := {}, {}, [];
      new;
      NoEvents<RtpClient>();
      for i := 0 to numBuffers
        invariant Valid() && |blocks| == |pool| == i
        invariant fresh(pool) && fresh(Packets())
        invariant playing == [] && history == [] && clients == {}
      {
        var block := NewBlock(c);
        AddBlock(block);
      }
    }

    static method NewBlock(c: Codec) returns (block: Block)
      ensures fresh(block) && fresh(block.packet) && block.maxPayload == c.maxPayload
      ensures block.packet.Length == HEADER + c.maxPayload && FixedFields(block.packet[..], c.payloadType)
    {
      var packet := new bv8[HEADER + c.maxPayload](_ => 0);
      ghost var p := packet[..];
      SetVersion(packet, 2);
      SetPayloadType(packet, c.payloadType);
      SetU32(packet, 4, 0);
      SetU32(packet, 8, 0);
      NewPacketFields(p, c.payloadType);
      block := new Block(packet, c.maxPayload);
    }

    method AddBlock(block: Block)
      requires Valid() && block !in pool && (forall b :: b in pool ==> b.packet != block.packet)
      requires block.maxPayload == codec.maxPayload && block.packet.Length == HEADER + codec.maxPayload
      requires FixedFields(block.packet[..], codec.payloadType)
      modifies this
      ensures Valid() && pool == old(pool) + {block} && blocks == [block] + old(blocks)
      ensures playing == old(playing) && history == old(history) && clients == old(clients)
      ensures Packets() == old(Packets()) + {block.packet}
    {
      hide CountersOk, ClientsOk, FixedFields;
      blocks := [block] + blocks;
      pool := pool + {block};
    }

    /** The destructor gives back what is on the free list. */
    method Destroy() returns (freed: seq<Block>)
      requires Valid()
      modifies this
      ensures blocks == [] && freed == old(blocks)
      ensures NoDuplicates(freed) && forall k :: 0 <= k < |freed| ==> freed[k] in pool
      ensures old(InFlight()) == {} ==> forall b :: b in pool ==> b in freed
    {
      assert forall b :: b in pool && b !in blocks ==> b in InFlight();
      freed := [];
      while blocks != []
        invariant freed + blocks == old(blocks) && pool == old(pool)
        decreases |blocks|
      {
        freed := freed + [blocks[0]];
        blocks := blocks[1..];
      }
    }

    method GetFree() returns (block: Block?)
      requires Valid()
      modifies this
      ensures Valid() && playing == old(playing) && history == old(history) && clients == old(clients)
      ensures pool == old(pool) && packetSeq == old(packetSeq) && timestamp == old(timestamp)
      ensures if old(blocks) == [] then block == null && blocks == []
              else block == old(blocks)[0] && blocks == old(blocks)[1..] && block in pool && block !in blocks
    {
      hide CountersOk, ClientsOk;
      if blocks == [] {
        return null;
      }
      block := blocks[0];
      blocks := blocks[1..];
    }

    method PutFree(block: Block)
      requires Valid() && block in pool && block !in blocks
      modifies this
      ensures Valid() && blocks == [block] + old(blocks)
      ensures playing == old(playing) && history == old(history) && clients == old(clients)
      ensures pool == old(pool) && packetSeq == old(packetSeq) && timestamp == old(timestamp)
    {
      hide CountersOk, ClientsOk;
      blocks := [block] + blocks;
    }

    /** Free blocks and blocks in flight always make up the whole pool. */
    lemma PoolConserved()
      requires PoolOk()
      ensures |blocks| + |InFlight()| == |pool|
    {
      ElementsSize(blocks);
      var free := Elements(blocks);
      assert free <= pool by {
        forall b | b in free
          ensures b in pool
        {
          var k :| 0 <= k < |blocks| && blocks[k] == b;
        }
      }
      assert InFlight() == pool - free;
    }

    // -------------------------------------------------------------- the playing list

    /** c may join: the engine knows it, or nothing has been sent to it. */
    ghost predicate Ready(c: RtpClient)
      reads this, c
    {
      c in clients || (c.received == [] && c.Counted())
    }

    method Play(client: RtpClient?)
      requires Valid() && (client != null ==> Ready(client))
      modifies this
      ensures Valid() && pool == old(pool) && blocks == old(blocks)
      ensures playing == (if client == null then old(playing) else [client] + old(playing))
      ensures history == (if client == null then old(history) else old(history) + [Joined(client)])
      ensures clients == (if client == null then old(clients) else old(clients) + {client})
    {
      hide Delivery.Playing, Delivered, Samples, Delivery.Packets, Stamped;
      if client != null {
        playing := [client] + playing;
        history := history + [Joined(client)];
        clients := clients + {client};
        ListEvent(old(history), Joined(client), clients);
        assert PoolOk() && CountersOk();
        if client !in old(clients) {
          NeverJoined(old(history), client);
        }
      }
    }

    method Remove(client: RtpClient?)
      requires Valid()
      modifies this
      ensures Valid() && pool == old(pool) && blocks == old(blocks) && clients == old(clients)
      ensures playing == (if client == null then old(playing) else RemoveFirst<RtpClient>(old(playing), client))
      ensures history == (if client == null then old(history) else old(history) + [Left(client)])
    {
      hide Delivery.Playing, Delivered, Samples, Delivery.Packets, Stamped, RemoveFirst;
      if client != null {
        var c: RtpClient := client;
        playing := RemoveFirst(playing, c);
        history := history + [Left(c)];
        ListEvent(old(history), Left(c), clients);
        RemoveKeeps(old(playing), c);
        assert PoolOk() && CountersOk();
      }
    }

    // -------------------------------------------------------------- sending

    /** send_packet for each playing client; a send that does not take the whole packet is counted as an error. */
    method Visit(packet: array<bv8>, len: nat)
      requires len <= packet.Length && ClientsOk() && forall k :: 0 <= k < |playing| ==> playing[k] in clients
      modifies clients
      ensures forall c :: c in clients ==>
                && c.received == old(c.received) + Copies(packet[..len], Count(playing, c))
                && c.Counted() && old(c.answers) <= c.answers
    {
      hide Count, Copies, Delivered, Failures;
      ghost var p := packet[..len];
      CountNothing(clients, p);
      for i := 0 to |playing|
        invariant forall c :: c in clients ==>
                    && c.received == old(c.received) + Copies(p, Count(playing[..i], c))
                    && c.Counted() && old(c.answers) <= c.answers
      {
        var client := playing[i];
        ghost var seen := playing[..i];
        assert playing[..i + 1] == seen + [client];
        CountSnoc(seen, client, client);
        CopiesSnoc(p, Count(seen, client));
        ghost var received, answers := client.received, client.answers;
        var sent := client.Send(packet, len);
        OneMoreAnswer(received, answers, p, sent);
        if sent != len {
          client.Error();
        }
        forall c | c in clients && c != client
          ensures Count(playing[..i + 1], c) == Count(seen, c)
        {
          CountSnoc(seen, client, c);
        }
      }
      assert playing[..|playing|] == playing;
    }

    /** The counters go into the header and move on, wrapping as uint16_t and uint32_t do. */
    method StampBlock(block: Block, samples: nat)
      requires block.packet.Length >= HEADER
      modifies `packetSeq, `timestamp, block.packet
      ensures block.packet[..] == Stamp(old(block.packet[..]), old(packetSeq), old(timestamp))
      ensures packetSeq == (old(packetSeq) + 1) % 0x1_0000
      ensures timestamp == (old(timestamp) + samples % 0x1_0000_0000) % 0x1_0000_0000
    {
      hide PutU16, PutU32;
      SetU16(block.packet, 2, packetSeq);
      packetSeq := (packetSeq + 1) % 0x1_0000;
      SetU32(block.packet, 4, timestamp);
      timestamp := (timestamp + samples % 0x1_0000_0000) % 0x1_0000_0000;
    }

    /** RTP_Engine::send: the block is stamped, sent to every playing client and put back on the free list. */
    method Send(block: Block, bytes: nat, samples: nat)
      requires Valid() && block in pool && block !in blocks && bytes <= block.maxPayload
      modifies this, block.packet, clients
      ensures Valid() && playing == old(playing) && clients == old(clients)
      ensures pool == old(pool) && blocks == [block] + old(blocks)
      ensures history == old(history)
                + [Sent(Outgoing(old(block.packet[..]), old(packetSeq), old(timestamp), bytes), samples)]
    {
      hide FixedFields, Delivered, Samples, Delivery.Packets, Delivery.Playing, Stamped, Count, Copies, Stamp,
        SequenceNumber, Timestamp;
      ghost var h, number, time, packet := history, packetSeq, timestamp, block.packet[..];
      ghost var p := Outgoing(packet, number, time, bytes);
      OutgoingFields(packet, number, time, bytes, codec.payloadType);
      SentEvent(h, p, samples, clients);
      StampBlock(block, samples);
      Visit(block.packet, HEADER + bytes);
      history := history + [Sent(p, samples)];
      WrapTime(Samples(h), samples);
      WrapNumber(|Delivery.Packets(h)|);
      PutFree(block);
    }
  }

  lemma {:induction false} RemoveKeeps<C>(s: seq<C>, c: C)
    ensures forall k :: 0 <= k < |RemoveFirst(s, c)| ==> RemoveFirst(s, c)[k] in s
  {
    if s != [] && s[0] != c {
      RemoveKeeps(s[1..], c);
      var r := RemoveFirst(s[1..], c);
      forall k | 0 <= k < |[s[0]] + r|
        ensures ([s[0]] + r)[k] in s
      {
        assert k > 0 ==> ([s[0]] + r)[k] == r[k - 1];
      }
    }
  }
}
