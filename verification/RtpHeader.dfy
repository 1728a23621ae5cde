/** The RTP fixed header (src/rtp.h, section 5.1 of RFC 3550): setters on the bytes of a packet. */
module RtpHeader {

  const HEADER := 12

  /** set_u8: the bits under mask, shifted into place, are replaced. */
  function SetU8(head: bv8, data: bv8, mask: bv8, shift: nat): bv8
    requires shift <= 8
  {
    (head & !(mask << shift)) | ((data & mask) << shift)
  }

  lemma Shifted(h: bv8)
    requires h as int < 128
    ensures (h << 1) as int == 2 * h as int && ((h << 1) | 1) as int == 2 * h as int + 1
  {
    assert h < 128;
  }

  /** A number as an octet, from its highest bit down. */
  function Byte(x: nat): (b: bv8)
    requires x < 256
    ensures b as int == x
  {
    if x == 0 then 0
    else
      var h := Byte(x / 2);
      Shifted(h);
      if x % 2 == 0 then h << 1 else (h << 1) | 1
  }

  /** uint8_t(x) */
  function Low8(x: nat): (b: bv8)
    ensures b as int == x % 256
  {
    Byte(x % 256)
  }

  /** set_u16 and set_u32, at an offset into the header: most significant byte first. */
  function PutU16(p: seq<bv8>, at: nat, data: nat): (r: seq<bv8>)
    requires at + 2 <= |p|
    ensures |r| == |p|
  {
    p[at := Low8(data / 0x100)][at + 1 := Low8(data)]
  }

  function PutU32(p: seq<bv8>, at: nat, data: nat): (r: seq<bv8>)
    requires at + 4 <= |p|
    ensures |r| == |p|
  {
    p[at := Low8(data / 0x100_0000)][at + 1 := Low8(data / 0x1_0000)][at + 2 := Low8(data / 0x100)][at + 3 := Low8(data)]
  }

  /** What a receiver reads. */
  function GetU16(p: seq<bv8>, at: nat): nat
    requires at + 2 <= |p|
  {
    p[at] as int * 0x100 + p[at + 1] as int
  }

  function GetU32(p: seq<bv8>, at: nat): nat
    requires at + 4 <= |p|
  {
    GetU16(p, at) * 0x1_0000 + GetU16(p, at + 2)
  }

  lemma Split16(d: nat)
    ensures d / 0x100 % 0x100 * 0x100 + d % 0x100 == d % 0x1_0000
  {
    var q, r := d / 0x100, d % 0x100;
    var h, l := q / 0x100, q % 0x100;
    assert d == h * 0x1_0000 + (l * 0x100 + r);
  }

  lemma Split32(d: nat)
    ensures d / 0x1_0000 % 0x1_0000 * 0x1_0000 + d % 0x1_0000 == d % 0x1_0000_0000
    ensures d / 0x1_0000 / 0x100 == d / 0x100_0000
  {
    var q, r := d / 0x1_0000, d % 0x1_0000;
    var h, l := q / 0x1_0000, q % 0x1_0000;
    assert d == h * 0x1_0000_0000 + (l * 0x1_0000 + r);
  }

  lemma U16RoundTrip(p: seq<bv8>, at: nat, data: nat)
    requires at + 2 <= |p|
    ensures GetU16(PutU16(p, at, data), at) == data % 0x1_0000
  {
    hide Low8;
    Split16(data);
  }

  lemma U32RoundTrip(p: seq<bv8>, at: nat, data: nat)
    requires at + 4 <= |p|
    ensures GetU32(PutU32(p, at, data), at) == data % 0x1_0000_0000
  {
    hide Low8, PutU16, PutU32;
    var q := data / 0x1_0000;
    U32AsPairs(p, at, data);
    U16RoundTrip(p, at, q);
    U16RoundTrip(PutU16(p, at, q), at + 2, data);
    Split32(data);
    U16Kept(PutU16(p, at, q), at, data);
  }

  /** set_u32 writes the two halves. */
  lemma U32AsPairs(p: seq<bv8>, at: nat, data: nat)
    requires at + 4 <= |p|
    ensures PutU32(p, at, data) == PutU16(PutU16(p, at, data / 0x1_0000), at + 2, data)
  {
    hide Low8;
    Split32(data);
  }

  lemma U16Kept(p: seq<bv8>, at: nat, data: nat)
    requires at + 4 <= |p|
    ensures GetU16(PutU16(p, at + 2, data), at) == GetU16(p, at)
  {
    hide Low8;
  }

  /** set_u8 stores the field and leaves the other bits of the byte alone. */
  lemma FieldRoundTrip(head: bv8, data: bv8, mask: bv8, shift: nat)
    requires shift <= 8
    ensures SetU8(head, data, mask, shift) & (mask << shift) == (data & mask) << shift
    ensures SetU8(head, data, mask, shift) & !(mask << shift) == head & !(mask << shift)
  {
  }

  function Version(p: seq<bv8>): bv8
    requires |p| >= HEADER
  {
    p[0] >> 6
  }

  /** The padding and extension bits and the CSRC count. */
  function Flags(p: seq<bv8>): bv8
    requires |p| >= HEADER
  {
    p[0] & 0x3f
  }

  function Marker(p: seq<bv8>): bv8
    requires |p| >= HEADER
  {
    p[1] >> 7
  }

  function PayloadType(p: seq<bv8>): bv8
    requires |p| >= HEADER
  {
    p[1] & 0x7f
  }

  function SequenceNumber(p: seq<bv8>): nat
    requires |p| >= HEADER
  {
    GetU16(p, 2)
  }

  function Timestamp(p: seq<bv8>): nat
    requires |p| >= HEADER
  {
    GetU32(p, 4)
  }

  function Ssrc(p: seq<bv8>): nat
    requires |p| >= HEADER
  {
    GetU32(p, 8)
  }

  /** The fields that never change once the pool has been set up. */
  predicate FixedFields(p: seq<bv8>, payloadType: bv8) {
    && |p| >= HEADER && Version(p) == 2 && Flags(p) == 0 && Marker(p) == 0
    && PayloadType(p) == payloadType & 0x7f && Ssrc(p) == 0
  }

  /** A packet fresh from the constructor. */
  lemma NewPacketFields(p: seq<bv8>, payloadType: bv8)
    requires |p| >= HEADER && forall k :: 0 <= k < |p| ==> p[k] == 0
    ensures var a := p[0 := SetU8(p[0], 2, 3, 6)];
            var b := a[1 := SetU8(a[1], payloadType, 0x7f, 0)];
            FixedFields(PutU32(PutU32(b, 4, 0), 8, 0), payloadType)
  {
    var a := p[0 := SetU8(p[0], 2, 3, 6)];
    var b := a[1 := SetU8(a[1], payloadType, 0x7f, 0)];
    var c := PutU32(b, 4, 0);
    FirstByte(p[0]);
    SecondByte(p[1], payloadType);
    U32RoundTrip(c, 8, 0);
  }

  lemma FirstByte(h: bv8)
    requires h == 0
    ensures SetU8(h, 2, 3, 6) >> 6 == 2 && SetU8(h, 2, 3, 6) & 0x3f == 0
  {
  }

  lemma SecondByte(h: bv8, payloadType: bv8)
    requires h == 0
    ensures SetU8(h, payloadType, 0x7f, 0) >> 7 == 0 && SetU8(h, payloadType, 0x7f, 0) & 0x7f == payloadType & 0x7f
  {
  }

  // ---------------------------------------------------------------- the setters, in place

  method SetVersion(p: array<bv8>, v: bv8)
    requires p.Length >= HEADER
    modifies p
    ensures p[..] == old(p[..])[0 := SetU8(old(p[0]), v, 3, 6)]
  {
    p[0] := SetU8(p[0], v, 3, 6);
  }

  method SetPayloadType(p: array<bv8>, pt: bv8)
    requires p.Length >= HEADER
    modifies p
    ensures p[..] == old(p[..])[1 := SetU8(old(p[1]), pt, 0x7f, 0)]
  {
    p[1] := SetU8(p[1], pt, 0x7f, 0);
  }

  method SetU16(p: array<bv8>, at: nat, data: nat)
    requires at + 2 <= p.Length
    modifies p
    ensures p[..] == PutU16(old(p[..]), at, data)
  {
    p[at] := Low8(data / 0x100);
    p[at + 1] := Low8(data);
  }

  method SetU32(p: array<bv8>, at: nat, data: nat)
    requires at + 4 <= p.Length
    modifies p
    ensures p[..] == PutU32(old(p[..]), at, data)
  {
    p[at] := Low8(data / 0x100_0000);
    p[at + 1] := Low8(data / 0x1_0000);
    p[at + 2] := Low8(data / 0x100);
    p[at + 3] := Low8(data);
  }

  /** A packet with its sequence number and timestamp. */
  function Stamp(p: seq<bv8>, number: nat, time: nat): (r: seq<bv8>)
    requires |p| >= HEADER
    ensures |r| == |p|
  {
    PutU32(PutU16(p, 2, number), 4, time)
  }

  /** Stamping a pooled packet writes those two fields and nothing else a receiver reads. */
  lemma StampRoundTrip(p: seq<bv8>, number: nat, time: nat, payloadType: bv8)
    requires FixedFields(p, payloadType)
    ensures var r := Stamp(p, number, time);
            && FixedFields(r, payloadType)
            && SequenceNumber(r) == number % 0x1_0000 && Timestamp(r) == time % 0x1_0000_0000
            && r[HEADER..] == p[HEADER..]
  {
    hide Low8;
    var a := PutU16(p, 2, number);
    U16RoundTrip(p, 2, number);
    U32RoundTrip(a, 4, time);
    assert Stamp(p, number, time)[2] == a[2] && Stamp(p, number, time)[3] == a[3];
  }
}
