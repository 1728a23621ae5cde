/** audio_copy (src/utils.cpp) with the PCM codec (src/audio_codec_pcm.cpp), reader polled in the same thread. */
module AudioCopying {
  import opened RtpHeader
  import opened Delivery
  import opened Rtp
  import opened AudioReading
  import opened Sequences

  /** PcmCodec: 360 stereo samples of two bytes, dynamic payload type. */
  const PCM: Codec := Codec(360, 2, 2, 1440, 96)

  /** rx_bytes */
  function RxBytes(c: Codec): nat {
    EncodedBytes(c, c.samplesPerPacket)
  }

  /** samples_per_packet() and the others, multiplied; samples are as many as the caller says. */
  function EncodedBytes(c: Codec, samples: nat): nat {
    samples * c.numChans * c.sampleSize
  }

  /** memcpy */
  method Copy(src: array<bv8>, dst: array<bv8>, at: nat, size: nat)
    requires size <= src.Length && at + size <= dst.Length && src != dst
    modifies dst
    ensures dst[..] == old(dst[..])[..at] + src[..size] + old(dst[..])[at + size..]
  {
    for k := 0 to size
      invariant dst[..] == old(dst[..])[..at] + src[..k] + old(dst[..])[at + k..]
    {
      dst[at + k] := src[k];
    }
  }

  /** PcmCodec::encode: the samples are copied as they are. */
  method Encode(c: Codec, src: array<bv8>, samples: nat, dst: array<bv8>, at: nat, obytes: nat) returns (size: nat)
    requires EncodedBytes(c, samples) <= obytes && EncodedBytes(c, samples) <= src.Length
    requires at + EncodedBytes(c, samples) <= dst.Length && src != dst
    modifies dst
    ensures size == EncodedBytes(c, samples)
    ensures dst[..] == old(dst[..])[..at] + src[..size] + old(dst[..])[at + size..]
  {
    hide EncodedBytes;
    size := EncodedBytes(c, samples);
    Copy(src, dst, at, size);
  }

  // ---------------------------------------------------------------- other threads

  /** What the threads that serve the clients do to the playing list. */
  datatype ListOp = Add(client: RtpClient) | Drop(client: RtpClient)

  function ApplyOp(p: seq<RtpClient>, op: ListOp): seq<RtpClient> {
    match op
    case Add(c) => [c] + p
    case Drop(c) => RemoveFirst(p, c)
  }

  function ApplyOps(p: seq<RtpClient>, ops: seq<ListOp>): seq<RtpClient>
    decreases |ops|
  {
    if ops == [] then p else ApplyOps(ApplyOp(p, ops[0]), ops[1..])
  }

  function OpClients(ops: seq<ListOp>): set<RtpClient> {
    set i | 0 <= i < |ops| :: ops[i].client
  }

  /** From h to g, every packet that was sent stands for this many samples. */
  ghost predicate Paced(h: seq<Event<RtpClient>>, g: seq<Event<RtpClient>>, samples: nat) {
    h <= g && forall i :: |h| <= i < |g| && g[i].Sent? ==> g[i].samples == samples
  }

  lemma PacedSelf(h: seq<Event<RtpClient>>, samples: nat)
    ensures Paced(h, h, samples)
  {
  }

  lemma PacedMore(h: seq<Event<RtpClient>>, g: seq<Event<RtpClient>>, e: Event<RtpClient>, samples: nat)
    requires Paced(h, g, samples) && (e.Sent? ==> e.samples == samples)
    ensures Paced(h, g + [e], samples)
  {
  }

  lemma PacedChain(h: seq<Event<RtpClient>>, g: seq<Event<RtpClient>>, k: seq<Event<RtpClient>>, samples: nat)
    requires Paced(h, g, samples) && Paced(g, k, samples)
    ensures Paced(h, k, samples)
  {
  }

  /** One call of play or remove. */
  method OtherThread(engine: RtpEngine, op: ListOp, ghost samples: nat)
    requires engine.Valid() && engine.Ready(op.client)
    modifies engine
    ensures engine.Valid() && engine.playing == ApplyOp(old(engine.playing), op)
    ensures Packets(engine.history) == Packets(old(engine.history))
    ensures engine.pool == old(engine.pool) && engine.blocks == old(engine.blocks)
    ensures old(engine.clients) <= engine.clients <= old(engine.clients) + {op.client}
    ensures Paced(old(engine.history), engine.history, samples)
  {
    hide RtpEngine.Valid, RtpEngine.Ready, RemoveFirst, Packets, Paced;
    ghost var h, e := engine.history, if op.Add? then Joined(op.client) else Left(op.client);
    ListEvent(h, e, {});
    PacedSelf(h, samples);
    PacedMore(h, h, e, samples);
    match op {
      case Add(c) => engine.Play(c);
      case Drop(c) => engine.Remove(c);
    }
  }

  /** Any number of such calls. */
  method OtherThreads(engine: RtpEngine, ops: seq<ListOp>, ghost samples: nat)
    requires engine.Valid() && forall c :: c in OpClients(ops) ==> engine.Ready(c)
    modifies engine
    ensures engine.Valid() && engine.playing == ApplyOps(old(engine.playing), ops)
    ensures Packets(engine.history) == Packets(old(engine.history)) && old(engine.clients) <= engine.clients
    ensures engine.pool == old(engine.pool) && engine.blocks == old(engine.blocks)
    ensures engine.clients <= old(engine.clients) + OpClients(ops)
    ensures Paced(old(engine.history), engine.history, samples)
  {
    hide RtpEngine.PoolOk, RtpEngine.CountersOk, RtpEngine.ClientsOk, RemoveFirst, Paced, ApplyOp, Packets;
    var i := 0;
    PacedSelf(engine.history, samples);
    while i < |ops|
      invariant 0 <= i <= |ops| && engine.Valid()
      invariant ApplyOps(engine.playing, ops[i..]) == ApplyOps(old(engine.playing), ops)
      invariant Packets(engine.history) == Packets(old(engine.history)) && old(engine.clients) <= engine.clients
      invariant engine.pool == old(engine.pool) && engine.blocks == old(engine.blocks)
      invariant engine.clients <= old(engine.clients) + OpClients(ops)
      invariant Paced(old(engine.history), engine.history, samples)
    {
      assert ops[i..][0] == ops[i] && ops[i..][1..] == ops[i + 1..];
      assert ops[i].client in OpClients(ops);
      ghost var h := engine.history;
      OtherThread(engine, ops[i], samples);
      PacedChain(old(engine.history), h, engine.history, samples);
      i := i + 1;
    }
  }

  // ---------------------------------------------------------------- one round

  datatype Round = Round(read: seq<bv8>, block: seq<bv8>, heard: bool)

  /** What other threads do in one round: before the clients are looked for, and before the packet is sent. */
  datatype Others = Others(before: seq<ListOp>, between: seq<ListOp>)

  function OtherClients(o: Others): set<RtpClient> {
    OpClients(o.before) + OpClients(o.between)
  }

  /** The parts fit together: blocks, payloads and the ring buffers have one size, and share no memory. */
  ghost predicate Fits(engine: RtpEngine, reader: Reader)
    reads reader, engine`pool, engine.Packets()
  {
    && reader.Valid() && reader.queue == []
    && reader.size == RxBytes(engine.codec) == engine.codec.maxPayload
    && forall i :: 0 <= i < |reader.data| ==> reader.data[i] !in engine.Packets()
  }

  function Payload(p: seq<bv8>): seq<bv8> {
    if |p| >= HEADER then p[HEADER..] else []
  }

  /** The payloads of the packets handed to send. */
  function Payloads(ps: seq<seq<bv8>>): seq<seq<bv8>> {
    seq(|ps|, i requires 0 <= i < |ps| => Payload(ps[i]))
  }

  /** The codec writes the payload of a block that is off the free list. */
  method EncodeBlock(engine: RtpEngine, block: Block, audio: array<bv8>) returns (size: nat)
    requires engine.Valid() && block in engine.pool && audio !in engine.Packets()
    requires audio.Length == RxBytes(engine.codec) == engine.codec.maxPayload
    modifies block.packet
    ensures engine.Valid() && size == audio.Length && HEADER + size == block.packet.Length
    ensures block.packet[HEADER..] == audio[..]
  {
    hide FixedFields;
    assert block.packet in engine.Packets();
    ghost var before := block.packet[..];
    size := Encode(engine.codec, audio, engine.codec.samplesPerPacket, block.packet, HEADER, RxBytes(engine.codec));
    EncodeKeepsHeader(before, block.packet[..], engine.codec.payloadType);
    assert audio[..size] == audio[..];
  }

  /** Encode into a free block and send it. */
  method EncodeAndSend(engine: RtpEngine, block: Block, audio: array<bv8>)
    requires engine.Valid() && block in engine.pool && block !in engine.blocks && audio !in engine.Packets()
    requires audio.Length == RxBytes(engine.codec) == engine.codec.maxPayload
    modifies engine, block.packet, engine.clients
    ensures engine.Valid() && engine.playing == old(engine.playing) && engine.clients == old(engine.clients)
    ensures engine.pool == old(engine.pool) && engine.blocks == [block] + old(engine.blocks)
    ensures Payloads(Packets(engine.history)) == Payloads(Packets(old(engine.history))) + [old(audio[..])]
    ensures Paced(old(engine.history), engine.history, engine.codec.samplesPerPacket)
  {
    hide FixedFields, Packets, Payloads, RtpEngine.CountersOk, RtpEngine.ClientsOk, Outgoing, RxBytes, Paced;
    assert block.packet in engine.Packets();
    var size := EncodeBlock(engine, block, audio);
    ghost var h, packet, number, time := engine.history, block.packet[..], engine.packetSeq, engine.timestamp;
    OutgoingFields(packet, number, time, size, engine.codec.payloadType);
    PayloadsSent(h, Outgoing(packet, number, time, size), engine.codec.samplesPerPacket);
    assert packet[HEADER..HEADER + size] == packet[HEADER..];
    PacedSelf(h, engine.codec.samplesPerPacket);
    PacedMore(h, h, Sent(Outgoing(packet, number, time, size), engine.codec.samplesPerPacket), engine.codec.samplesPerPacket);
    engine.Send(block, size, engine.codec.samplesPerPacket);
  }

  lemma EncodeKeepsHeader(p: seq<bv8>, q: seq<bv8>, payloadType: bv8)
    requires FixedFields(p, payloadType) && |q| == |p| && q[..HEADER] == p[..HEADER]
    ensures FixedFields(q, payloadType)
  {
    assert forall k :: 0 <= k < HEADER ==> q[k] == q[..HEADER][k] == p[..HEADER][k] == p[k];
  }

  lemma PayloadsSent(h: seq<Event<RtpClient>>, p: seq<bv8>, samples: nat)
    requires |p| >= HEADER
    ensures Payloads(Packets(h + [Sent(p, samples)])) == Payloads(Packets(h)) + [p[HEADER..]]
  {
    var g := h + [Sent(p, samples)];
    assert g[..|g| - 1] == h;
  }

  /** One pass of the loop. It ends the loop when the source has run dry. Clients that may still join stay ready. */
  method OneRound(engine: RtpEngine, reader: Reader, o: Others, ghost all: set<RtpClient>)
    returns (go: bool, ghost round: Round)
    requires engine.Valid() && Fits(engine, reader) && OtherClients(o) <= all
    requires forall c :: c in all ==> engine.Ready(c)
    modifies engine, reader, reader.src, engine.clients, all, engine.Packets(), reader.data
    ensures engine.Valid() && reader.Valid() && (forall c :: c in all ==> engine.Ready(c))
    ensures engine.pool == old(engine.pool) && |engine.blocks| == |old(engine.blocks)|
    ensures old(engine.clients) <= engine.clients <= old(engine.clients) + all
    ensures var r := FullRead(old(reader.src.pending), reader.size, reader.maxRead);
            && reader.src.pending == r.rest && go == (r.data != [])
            && (go ==> Fits(engine, reader) && round.read == r.data && |round.block| == reader.size
                       && r.data <= round.block)
    ensures !go ==> engine.playing == old(engine.playing) && Packets(engine.history) == Packets(old(engine.history))
    ensures go ==>
              var p := ApplyOps(old(engine.playing), o.before);
              var sends := p != [] && old(engine.blocks) != [];
              && round.heard == (p != [])
              && engine.playing == (if sends then ApplyOps(p, o.between) else p)
              && Payloads(Packets(engine.history))
                 == Payloads(Packets(old(engine.history))) + (if sends then [round.block] else [])
    ensures Paced(old(engine.history), engine.history, engine.codec.samplesPerPacket)
  {
    hide FixedFields, Packets, Payloads, RtpEngine.PoolOk, RtpEngine.CountersOk, RtpEngine.ClientsOk, FullRead, ApplyOps, RxBytes,
      Paced;
    round := Round([], [], false);
    ghost var h0, spp := engine.history, engine.codec.samplesPerPacket;
    PacedSelf(h0, spp);
    ghost var read := FullRead(reader.src.pending, reader.size, reader.maxRead).data;
    var buff := reader.data[reader.idx];
    go := reader.Acquire();
    if !go {
      return;
    }
    var audio := reader.Read();
    assert audio == Message(buff, |read|);
    round := Round(read, buff[..], false);
    OtherThreads(engine, o.before, spp);
    if engine.playing == [] {
      return;
    }
    round := round.(heard := true);
    var block := engine.GetFree();
    if block == null {
      return;
    }
    ghost var h1 := engine.history;
    OtherThreads(engine, o.between, spp);
    ghost var h2 := engine.history;
    EncodeAndSend(engine, block, audio.data);
    PacedChain(h0, h1, h2, spp);
    PacedChain(h0, h2, engine.history, spp);
  }

  // ---------------------------------------------------------------- the whole run

  /** The clients a script may add. */
  function ScriptClients(script: seq<Others>): set<RtpClient> {
    set k, c | 0 <= k < |script| && c in OtherClients(script[k]) :: c
  }

  /** The playing list when round n starts. */
  function ListAt(p: seq<RtpClient>, script: seq<Others>, n: nat, hasBlocks: bool): seq<RtpClient>
    requires n <= |script|
  {
    if n == 0 then p
    else
      var q := ApplyOps(ListAt(p, script, n - 1, hasBlocks), script[n - 1].before);
      if q != [] && hasBlocks then ApplyOps(q, script[n - 1].between) else q
  }

  /** Some client was in the list when round k looked. */
  predicate HeardAt(p: seq<RtpClient>, script: seq<Others>, k: nat, hasBlocks: bool)
    requires k < |script|
  {
    ApplyOps(ListAt(p, script, k, hasBlocks), script[k].before) != []
  }

  /** Round k took the k-th full read of the source, into a block that starts with it. */
  ghost predicate RoundOk(r: Round, k: nat, pending: seq<seq<bv8>>, size: nat, maxRead: nat) {
    && r.read == FullRead(RestAfter(pending, k, size, maxRead), size, maxRead).data
    && |r.block| == size && r.read <= r.block
  }

  /** The blocks that somebody was there to hear. */
  function Heard(rounds: seq<Round>): seq<seq<bv8>> {
    if rounds == [] then []
    else
      var r := rounds[|rounds| - 1];
      Heard(rounds[..|rounds| - 1]) + (if r.heard then [r.block] else [])
  }

  /** What the rounds so far have come to: left is what the source still has, now all that was sent, sent what had
      been sent before. */
  ghost predicate Copied(rounds: seq<Round>, script: seq<Others>, list: seq<RtpClient>, any: bool, pending: seq<seq<bv8>>,
                         size: nat, maxRead: nat, sent: seq<seq<bv8>>,
                         playing: seq<RtpClient>, left: seq<seq<bv8>>, now: seq<seq<bv8>>) {
    && |rounds| <= |script| && left == RestAfter(pending, |rounds|, size, maxRead)
    && (forall k :: 0 <= k < |rounds| ==> RoundOk(rounds[k], k, pending, size, maxRead))
    && (forall k :: 0 <= k < |rounds| ==> rounds[k].heard == HeardAt(list, script, k, any))
    && playing == ListAt(list, script, |rounds|, any)
    && now == sent + (if any then Heard(rounds) else [])
  }

  lemma CopiedStart(script: seq<Others>, list: seq<RtpClient>, any: bool, pending: seq<seq<bv8>>, size: nat, maxRead: nat,
                    sent: seq<seq<bv8>>)
    ensures Copied([], script, list, any, pending, size, maxRead, sent, list, pending, sent)
  {
    assert sent + [] == sent;
  }

  lemma CopiedSoFar(rounds: seq<Round>, script: seq<Others>, list: seq<RtpClient>, any: bool, pending: seq<seq<bv8>>,
                    size: nat, maxRead: nat, sent: seq<seq<bv8>>,
                    playing: seq<RtpClient>, left: seq<seq<bv8>>, now: seq<seq<bv8>>)
    requires Copied(rounds, script, list, any, pending, size, maxRead, sent, playing, left, now)
    ensures left == RestAfter(pending, |rounds|, size, maxRead)
    ensures (forall k :: 0 <= k < |rounds| ==> RoundOk(rounds[k], k, pending, size, maxRead))
         && (forall k :: 0 <= k < |rounds| ==> k < |script| && rounds[k].heard == HeardAt(list, script, k, any))
         && now == sent + (if any then Heard(rounds) else [])
  {
  }

  /** One more round. */
  lemma CopiedStep(rounds: seq<Round>, script: seq<Others>, list: seq<RtpClient>, any: bool, pending: seq<seq<bv8>>,
                   size: nat, maxRead: nat, sent: seq<seq<bv8>>,
                   playing: seq<RtpClient>, left: seq<seq<bv8>>, now: seq<seq<bv8>>, round: Round)
    requires Copied(rounds, script, list, any, pending, size, maxRead, sent, playing, left, now) && |rounds| < |script|
    requires var r := FullRead(left, size, maxRead); round.read == r.data && |round.block| == size && r.data <= round.block
    requires round.heard == (ApplyOps(playing, script[|rounds|].before) != [])
    ensures var p := ApplyOps(playing, script[|rounds|].before);
            var sends := p != [] && any;
            Copied(rounds + [round], script, list, any, pending, size, maxRead, sent,
                   if sends then ApplyOps(p, script[|rounds|].between) else p,
                   FullRead(left, size, maxRead).rest,
                   now + (if sends then [round.block] else []))
  {
    hide FullRead, ApplyOps;
    var n, all := |rounds|, rounds + [round];
    assert all[..n] == rounds && all[n] == round;
    assert forall k :: 0 <= k < n ==> all[k] == rounds[k];
    assert Heard(all) == Heard(rounds) + (if round.heard then [round.block] else []);
    if any && round.heard {
      Associate(sent, Heard(rounds), [round.block]);
    } else {
      assert now + [] == now;
    }
  }

  /** audio_copy in polled mode, until the flag is set after |script| rounds or the source runs dry. */
  method AudioCopy(engine: RtpEngine, reader: Reader, script: seq<Others>) returns (loops: nat, ghost rounds: seq<Round>)
    requires engine.Valid() && Fits(engine, reader) && forall c :: c in ScriptClients(script) ==> engine.Ready(c)
    modifies engine, reader, reader.src, engine.clients, ScriptClients(script), engine.Packets(), reader.data
    ensures engine.Valid() && loops == |rounds| <= |script|
    ensures engine.pool == old(engine.pool) && |engine.blocks| == |old(engine.blocks)|
    ensures var pending := old(reader.src.pending);
            && (forall k :: 0 <= k < |rounds| ==> RoundOk(rounds[k], k, pending, reader.size, reader.maxRead))
            && (loops < |script| ==> FullRead(RestAfter(pending, loops, reader.size, reader.maxRead),
                                              reader.size, reader.maxRead).data == [])
    ensures forall k :: 0 <= k < |rounds| ==>
              rounds[k].heard == HeardAt(old(engine.playing), script, k, old(engine.blocks) != [])
    ensures Payloads(Packets(engine.history))
         == Payloads(Packets(old(engine.history))) + (if old(engine.blocks) == [] then [] else Heard(rounds))
    ensures Paced(old(engine.history), engine.history, engine.codec.samplesPerPacket)
  {
    hide FixedFields, Packets, Payloads, RtpEngine.PoolOk, RtpEngine.CountersOk, RtpEngine.ClientsOk, FullRead, ApplyOps,
      RxBytes, OtherClients, Copied, RoundOk, HeardAt, Heard, RestAfter, Paced;
    ghost var all, pending, list, any := ScriptClients(script), reader.src.pending, engine.playing, engine.blocks != [];
    ghost var sent := Payloads(Packets(engine.history));
    loops, rounds := 0, [];
    PacedSelf(engine.history, engine.codec.samplesPerPacket);
    CopiedStart(script, list, any, pending, reader.size, reader.maxRead, sent);
    while loops < |script|
      invariant loops == |rounds| <= |script| && engine.Valid() && Fits(engine, reader)
      invariant (forall c :: c in all ==> engine.Ready(c)) && engine.clients <= old(engine.clients) + all
      invariant engine.pool == old(engine.pool) && |engine.blocks| == |old(engine.blocks)|
      invariant Paced(old(engine.history), engine.history, engine.codec.samplesPerPacket)
      invariant Copied(rounds, script, list, any, pending, reader.size, reader.maxRead, sent,
                       engine.playing, reader.src.pending, Payloads(Packets(engine.history)))
    {
      RoundClients(script, loops);
      ghost var playing, left, now := engine.playing, reader.src.pending, Payloads(Packets(engine.history));
      ghost var round;
      ghost var h := engine.history;
      var go;
      go, round := OneRound(engine, reader, script[loops], all);
      PacedChain(old(engine.history), h, engine.history, engine.codec.samplesPerPacket);
      CopiedSoFar(rounds, script, list, any, pending, reader.size, reader.maxRead, sent, playing, left, now);
      if !go {
        break;
      }
      CopiedStep(rounds, script, list, any, pending, reader.size, reader.maxRead, sent, playing, left, now, round);
      rounds := rounds + [round];
      loops := loops + 1;
    }
    if loops == |script| {
      CopiedSoFar(rounds, script, list, any, pending, reader.size, reader.maxRead, sent,
                  engine.playing, reader.src.pending, Payloads(Packets(engine.history)));
    }
  }

  lemma RoundClients(script: seq<Others>, k: nat)
    requires k < |script|
    ensures OtherClients(script[k]) <= ScriptClients(script)
  {
    hide OtherClients;
    forall c | c in OtherClients(script[k])
      ensures c in ScriptClients(script)
    {
    }
  }

  function AllRead(rounds: seq<Round>): seq<bv8> {
    if rounds == [] then [] else AllRead(rounds[..|rounds| - 1]) + rounds[|rounds| - 1].read
  }

  /** A block holds exactly what was read for it if and only if the read filled it. */
  lemma BlockIsRead(r: Round, k: nat, pending: seq<seq<bv8>>, size: nat, maxRead: nat)
    requires RoundOk(r, k, pending, size, maxRead)
    ensures r.block == r.read <==> |r.read| == size
  {
    hide FullRead, RestAfter;
    assert |r.read| == size ==> r.block[..size] == r.block;
  }

  /** What was read in the rounds that somebody was there to hear. */
  function HeardReads(rounds: seq<Round>): seq<seq<bv8>> {
    if rounds == [] then []
    else
      var r := rounds[|rounds| - 1];
      HeardReads(rounds[..|rounds| - 1]) + (if r.heard then [r.read] else [])
  }

  /** Every read that was heard filled its block. */
  ghost predicate AllFull(rounds: seq<Round>, size: nat) {
    forall k :: 0 <= k < |rounds| && rounds[k].heard ==> |rounds[k].read| == size
  }

  /** The payloads are exactly the reads made while the engine had clients, in order and unchanged, if and only if
      each of those reads filled its block; a short one brings along what the buffer held before. */
  lemma {:induction false} HeardExactIff(rounds: seq<Round>, pending: seq<seq<bv8>>, size: nat, maxRead: nat)
    requires forall k :: 0 <= k < |rounds| ==> RoundOk(rounds[k], k, pending, size, maxRead)
    ensures |Heard(rounds)| == |HeardReads(rounds)|
    ensures Heard(rounds) == HeardReads(rounds) <==> AllFull(rounds, size)
    decreases |rounds|
  {
    hide RoundOk, AllFull;
    if rounds == [] {
      NothingHeard(size);
    } else {
      var n := |rounds| - 1;
      var before, r := rounds[..n], rounds[n];
      HeardExactIff(before, pending, size, maxRead);
      BlockIsRead(r, n, pending, size, maxRead);
      if r.heard {
        SameSnoc(Heard(before), HeardReads(before), r.block, r.read);
      }
      FullBefore(rounds, size);
      assert !r.heard ==> Heard(rounds) == Heard(before) && HeardReads(rounds) == HeardReads(before);
    }
  }

  lemma NothingHeard(size: nat)
    ensures AllFull([], size)
  {
  }

  lemma FullBefore(rounds: seq<Round>, size: nat)
    requires rounds != []
    ensures var n := |rounds| - 1;
            AllFull(rounds, size) <==> AllFull(rounds[..n], size) && (rounds[n].heard ==> |rounds[n].read| == size)
  {
    var n := |rounds| - 1;
    assert forall k :: 0 <= k < n ==> rounds[..n][k] == rounds[k];
  }

  lemma SameSnoc<T>(a: seq<T>, b: seq<T>, x: T, y: T)
    requires |a| == |b|
    ensures a + [x] == b + [y] <==> a == b && x == y
  {
    assert (a + [x])[..|a|] == a && (b + [y])[..|b|] == b;
    assert (a + [x])[|a|] == x && (b + [y])[|b|] == y;
  }

  /** Nothing of the source is lost, repeated or reordered between the rounds. */
  lemma {:induction false} RoundsConserve(rounds: seq<Round>, pending: seq<seq<bv8>>, size: nat, maxRead: nat)
    requires forall k :: 0 <= k < |rounds| ==> RoundOk(rounds[k], k, pending, size, maxRead)
    ensures Concat(pending) == AllRead(rounds) + Concat(RestAfter(pending, |rounds|, size, maxRead))
    decreases |rounds|
  {
    hide FullRead;
    if rounds == [] {
    } else {
      var n := |rounds| - 1;
      RoundsConserve(rounds[..n], pending, size, maxRead);
      var rest := RestAfter(pending, n, size, maxRead);
      FullReadConserves(rest, size, maxRead);
      var r := FullRead(rest, size, maxRead);
      assert RoundOk(rounds[n], n, pending, size, maxRead);
      assert AllRead(rounds[..n]) + (r.data + Concat(r.rest)) == (AllRead(rounds[..n]) + r.data) + Concat(r.rest);
    }
  }

  /** End to end: when every read filled its block and somebody listened throughout, the payloads handed to
      send, one after the other, are the stream of the source. */
  lemma {:induction false} EndToEnd(rounds: seq<Round>, pending: seq<seq<bv8>>, size: nat, maxRead: nat)
    requires forall k :: 0 <= k < |rounds| ==>
               RoundOk(rounds[k], k, pending, size, maxRead) && |rounds[k].read| == size && rounds[k].heard
    ensures |Heard(rounds)| == |rounds|
    ensures Concat(pending) == Concat(Heard(rounds)) + Concat(RestAfter(pending, |rounds|, size, maxRead))
  {
    hide FullRead, RestAfter, RoundOk;
    RoundsConserve(rounds, pending, size, maxRead);
    HeardIsRead(rounds, pending, size, maxRead);
  }

  lemma {:induction false} HeardIsRead(rounds: seq<Round>, pending: seq<seq<bv8>>, size: nat, maxRead: nat)
    requires forall k :: 0 <= k < |rounds| ==>
               RoundOk(rounds[k], k, pending, size, maxRead) && |rounds[k].read| == size && rounds[k].heard
    ensures |Heard(rounds)| == |rounds| && Concat(Heard(rounds)) == AllRead(rounds)
    decreases |rounds|
  {
    hide RoundOk;
    if rounds != [] {
      var n := |rounds| - 1;
      HeardIsRead(rounds[..n], pending, size, maxRead);
      BlockIsRead(rounds[n], n, pending, size, maxRead);
      ConcatSnoc(Heard(rounds[..n]), rounds[n].block);
    }
  }

  /** With the PCM codec a block is one payload, so a reader with blocks of 1440 bytes fits the engine. */
  lemma PcmFits(engine: RtpEngine, reader: Reader)
    requires engine.codec == PCM && reader.Valid() && reader.queue == [] && reader.size == 1440
    requires forall i :: 0 <= i < |reader.data| ==> reader.data[i] !in engine.Packets()
    ensures Fits(engine, reader)
  {
  }
}
