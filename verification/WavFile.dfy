/** The WAV sink and source (src/wav_file.cpp): a header written first and patched on close, and the reader that
    has to accept it. What the C library may refuse or cut short is a parameter of each operation. */
module WavFile {
  import opened RtpHeader
  import opened Sequences

  type Word = x: nat | x < 0x1_0000
  type Long = x: nat | x < 0x1_0000_0000

  datatype WavFileHeader = WavFileHeader(
    riffChunk: seq<bv8>, chunkSize: Long, fileFormat: seq<bv8>, formatChunk: seq<bv8>, formatSize: Long,
    pcmFlags: Word, channels: Word, sampleRate: Long, byteRate: Long, blockAlign: Word, bitDepth: Word,
    dataChunk: seq<bv8>, dataSize: Long)
  {
    predicate Tags() {
      |riffChunk| == |fileFormat| == |formatChunk| == |dataChunk| == 4
    }
  }

  /** sizeof(struct WavFileHeader), and where the two patched fields are. */
  const SIZE := 44
  const CHUNK_SIZE := 4
  const DATA_SIZE := 40

  const RIFF: seq<bv8> := [0x52, 0x49, 0x46, 0x46]
  const WAVE: seq<bv8> := [0x57, 0x41, 0x56, 0x45]
  const FMT: seq<bv8> := [0x66, 0x6d, 0x74, 0x20]
  const DATA: seq<bv8> := [0x64, 0x61, 0x74, 0x61]

  // ---------------------------------------------------------------- bytes

  function Le16(x: nat): (r: seq<bv8>)
    ensures |r| == 2
  {
    [Low8(x), Low8(x / 0x100)]
  }

  function Le32(x: nat): (r: seq<bv8>)
    ensures |r| == 4
  {
    Le16(x) + Le16(x / 0x1_0000)
  }

  function Word16(f: seq<bv8>): (x: Word)
    requires |f| == 2
  {
    f[0] as int + f[1] as int * 0x100
  }

  function Word32(f: seq<bv8>): (x: Long)
    requires |f| == 4
  {
    Word16(f[..2]) + Word16(f[2..]) * 0x1_0000
  }

  lemma Le16RoundTrip(x: nat)
    ensures Word16(Le16(x)) == x % 0x1_0000
  {
    Split16(x);
  }

  lemma Le32RoundTrip(x: nat)
    ensures Word32(Le32(x)) == x % 0x1_0000_0000
  {
    hide Le16, Word16;
    Le16RoundTrip(x);
    Le16RoundTrip(x / 0x1_0000);
    assert Le32(x)[..2] == Le16(x) && Le32(x)[2..] == Le16(x / 0x1_0000);
    Split32(x);
  }

  /** The struct as it lies in memory, and back. */
  function Encode(h: WavFileHeader): (f: seq<bv8>)
    requires h.Tags()
    ensures |f| == SIZE
  {
    h.riffChunk + Le32(h.chunkSize) + (h.fileFormat + h.formatChunk + Le32(h.formatSize))
    + (Le16(h.pcmFlags) + Le16(h.channels) + Le32(h.sampleRate) + Le32(h.byteRate) + Le16(h.blockAlign) + Le16(h.bitDepth)
       + h.dataChunk) + Le32(h.dataSize)
  }

  function Decode(f: seq<bv8>): (h: WavFileHeader)
    requires |f| == SIZE
    ensures h.Tags()
  {
    WavFileHeader(f[..4], Word32(f[4..8]), f[8..12], f[12..16], Word32(f[16..20]),
                  Word16(f[20..22]), Word16(f[22..24]), Word32(f[24..28]), Word32(f[28..32]),
                  Word16(f[32..34]), Word16(f[34..36]), f[36..40], Word32(f[40..]))
  }

  lemma HeaderRoundTrip(h: WavFileHeader)
    requires h.Tags()
    ensures Decode(Encode(h)) == h
  {
    hide Le16, Le32, Word16, Word32;
    var f := Encode(h);
    Le32RoundTrip(h.chunkSize);
    Le32RoundTrip(h.formatSize);
    Le32RoundTrip(h.sampleRate);
    Le32RoundTrip(h.byteRate);
    Le32RoundTrip(h.dataSize);
    Le16RoundTrip(h.pcmFlags);
    Le16RoundTrip(h.channels);
    Le16RoundTrip(h.blockAlign);
    Le16RoundTrip(h.bitDepth);
    assert f[4..8] == Le32(h.chunkSize) && f[16..20] == Le32(h.formatSize) && f[40..] == Le32(h.dataSize);
    assert f[24..28] == Le32(h.sampleRate) && f[28..32] == Le32(h.byteRate);
    assert f[20..22] == Le16(h.pcmFlags) && f[22..24] == Le16(h.channels);
    assert f[32..34] == Le16(h.blockAlign) && f[34..36] == Le16(h.bitDepth);
  }

  // ---------------------------------------------------------------- stdio

  function Zeros(n: nat): (z: seq<bv8>)
    ensures |z| == n
  {
    seq(n, _ => 0)
  }

  /** What fwrite leaves: a position behind the end of the file leaves a gap of zeros. */
  function Overwrite(f: seq<bv8>, at: nat, data: seq<bv8>): (r: seq<bv8>)
    ensures |r| == if at + |data| > |f| then at + |data| else |f|
  {
    var padded := if |f| < at then f + Zeros(at - |f|) else f;
    padded[..at] + data + if at + |data| < |f| then f[at + |data|..] else []
  }

  function ReadAt(f: seq<bv8>, at: nat, want: nat): (r: seq<bv8>)
    requires at <= |f|
    ensures |r| == if at + want > |f| then |f| - at else want
  {
    f[at..if at + want > |f| then |f| else at + want]
  }

  /** FILE */
  class File {
    var bytes: seq<bv8>
    var pos: nat
    var eof: bool
    var closed: bool

    constructor (bytes: seq<bv8>)
      ensures this.bytes == bytes && pos == 0 && !eof && !closed
    {
      this.bytes, pos, eof, closed := bytes, 0, false, false;
    }

    method Write(data: seq<bv8>, taken: nat) returns (n: nat)
      requires taken <= |data| && !closed
      modifies this`bytes, this`pos
      ensures n == taken && pos == old(pos) + taken
      ensures bytes == Overwrite(old(bytes), old(pos), data[..taken])
    {
      bytes := Overwrite(bytes, pos, data[..taken]);
      pos := pos + taken;
      n := taken;
    }

    method Read(dest: array<bv8>, want: nat) returns (n: nat)
      requires want <= dest.Length && pos <= |bytes| && !closed
      modifies this`pos, this`eof, dest
      ensures n == |ReadAt(bytes, old(pos), want)| && pos == old(pos) + n
      ensures dest[..] == ReadAt(bytes, old(pos), want) + old(dest[n..])
      ensures eof == (old(eof) || n < want)
    {
      var got := ReadAt(bytes, pos, want);
      n := |got|;
      forall i | 0 <= i < n {
        dest[i] := got[i];
      }
      pos := pos + n;
      eof := eof || n < want;
    }
  }

  lemma WriteAtEnd(f: seq<bv8>, data: seq<bv8>)
    ensures Overwrite(f, |f|, data) == f + data
  {
  }

  // ---------------------------------------------------------------- the sink

  const NEW: WavFileHeader := WavFileHeader(RIFF, 0, WAVE, FMT, 16, 1, 2, 48000, 48000 * 2 * 2, 4, 16, DATA, 0)

  /** What the C library grants to close: which calls succeed, how many bytes of each field it takes. */
  datatype Closing = Closing(flush: bool, seekChunk: bool, chunk: nat, seekData: bool, data: nat, seekEnd: bool, close: bool)

  function Patched(f: seq<bv8>, written: nat, c: Closing): seq<bv8>
    requires c.chunk <= 4 && c.data <= 4
  {
    if !c.flush || !c.seekChunk then f
    else
      var g := Overwrite(f, CHUNK_SIZE, Le32(written + SIZE - 8)[..c.chunk]);
      if c.chunk < 4 || !c.seekData then g else Overwrite(g, DATA_SIZE, Le32(written)[..c.data])
  }

  predicate Granted(c: Closing) {
    c.flush && c.seekChunk && c.chunk == 4 && c.seekData && c.data == 4 && c.seekEnd && c.close
  }

  /** One call of write: what it was given, and how much of that the library took. */
  datatype WriteCall = WriteCall(data: seq<bv8>, taken: nat)
  {
    predicate Valid() {
      taken <= |data|
    }
    predicate Complete() {
      taken == |data|
    }
  }

  predicate AllValid(ws: seq<WriteCall>) {
    forall k :: 0 <= k < |ws| ==> ws[k].Valid()
  }

  /** The audio that calls of write leave in the file, and what they count. */
  function Recorded(ws: seq<WriteCall>): (audio: seq<bv8>)
    requires AllValid(ws)
  {
    if ws == [] then []
    else var w := ws[|ws| - 1]; assert w.Valid(); Recorded(ws[..|ws| - 1]) + w.data[..w.taken]
  }

  function Counted(ws: seq<WriteCall>): nat {
    if ws == [] then 0
    else var w := ws[|ws| - 1]; Counted(ws[..|ws| - 1]) + if w.Complete() then |w.data| else 0
  }

  lemma OneMore(ws: seq<WriteCall>, w: WriteCall)
    requires AllValid(ws) && w.Valid()
    ensures AllValid(ws + [w]) && Recorded(ws + [w]) == Recorded(ws) + w.data[..w.taken]
    ensures Counted(ws + [w]) == Counted(ws) + if w.Complete() then |w.data| else 0
  {
    assert (ws + [w])[..|ws|] == ws;
  }

  /** The count is the length of the audio if and only if every call took everything or nothing. */
  lemma {:induction false} CountedIff(ws: seq<WriteCall>)
    requires AllValid(ws)
    ensures Counted(ws) <= |Recorded(ws)|
    ensures Counted(ws) == |Recorded(ws)| <==> forall k :: 0 <= k < |ws| ==> ws[k].Complete() || ws[k].taken == 0
  {
    if ws != [] {
      var n := |ws| - 1;
      CountedIff(ws[..n]);
      assert forall k :: 0 <= k < n ==> ws[..n][k] == ws[k];
    }
  }

  class WavSink {
    var written: nat
    var file: File?

    constructor ()
      ensures written == 0 && file == null
    {
      written, file := 0, null;
    }

    /** After these calls of write: the header as open wrote it, then their audio; the position is at the end. */
    ghost predicate Recording(ws: seq<WriteCall>)
      reads this, file
    {
      && AllValid(ws) && file != null && !file.closed && file.pos == |file.bytes|
      && file.bytes == Encode(NEW) + Recorded(ws) && written == Counted(ws)
    }

    /** disk is what fopen returns, null on failure; "wb" empties it. */
    method Open(disk: File?, taken: nat) returns (ok: bool)
      requires disk != null ==> !disk.closed
      requires taken <= SIZE && written == 0
      modifies this`file, disk
      ensures file == disk && ok == (disk != null && taken == SIZE)
      ensures disk != null ==> disk.bytes == Encode(NEW)[..taken] && !disk.closed
      ensures ok ==> Recording([])
    {
      file := disk;
      if file == null {
        return false;
      }
      file.bytes, file.pos := [], 0;
      var n := file.Write(Encode(NEW), taken);
      ok := n == SIZE;
    }

    /** A short write leaves its bytes in the file but is not counted. */
    method Write(data: seq<bv8>, taken: nat, ghost ws: seq<WriteCall>) returns (ok: bool)
      requires taken <= |data| && Recording(ws)
      modifies this`written, file
      ensures ok == (taken == |data|)
      ensures Recording(ws + [WriteCall(data, taken)])
    {
      hide Encode, Overwrite, Recorded, Counted;
      var n := file.Write(data, taken);
      ghost var audio := Recorded(ws);
      WriteAtEnd(Encode(NEW) + audio, data[..taken]);
      Associate(Encode(NEW), audio, data[..taken]);
      OneMore(ws, WriteCall(data, taken));
      if n != |data| {
        return false;
      }
      written := written + n;
      ok := true;
    }

    method WriteHeader(offset: nat, data: nat, seek: bool, taken: nat) returns (ok: bool)
      requires file != null && !file.closed && taken <= 4
      modifies file
      ensures ok == (seek && taken == 4)
      ensures file.bytes == if seek then Overwrite(old(file.bytes), offset, Le32(data)[..taken]) else old(file.bytes)
      ensures !file.closed
    {
      if !seek {
        return false;
      }
      file.pos := offset;
      var n := file.Write(Le32(data), taken);
      ok := n == 4;
    }

    method Close(c: Closing) returns (ok: bool)
      requires c.chunk <= 4 && c.data <= 4
      requires file != null ==> !file.closed
      modifies this`file, file
      ensures old(file) == null ==> ok && file == null
      ensures old(file) != null ==>
                && ok == Granted(c) && file == (if ok then null else old(file))
                && old(file).bytes == Patched(old(file.bytes), written, c)
                && (ok ==> old(file).closed)
    {
      if file == null {
        return true;
      }
      if !c.flush {
        return false;
      }
      ok := WriteHeader(CHUNK_SIZE, written + SIZE - 8, c.seekChunk, c.chunk);
      if !ok {
        return;
      }
      ok := WriteHeader(DATA_SIZE, written, c.seekData, c.data);
      if !ok {
        return;
      }
      if !c.seekEnd {
        return false;
      }
      file.pos := |file.bytes|;
      file.closed := true;
      if !c.close {
        return false;
      }
      file := null;
    }
  }

  // ---------------------------------------------------------------- the source

  /** The fields open looks at; the sizes and the block alignment are not among them. */
  predicate Accepts(f: seq<bv8>) {
    |f| >= SIZE &&
    var h := Decode(f[..SIZE]);
    && h.riffChunk == RIFF && h.fileFormat == WAVE && h.formatChunk == FMT && h.dataChunk == DATA
    && h.formatSize == 16 && h.channels == 2 && h.sampleRate == 48000 && h.byteRate == 4 * 48000
    && h.pcmFlags == 1 && h.bitDepth == 16
  }

  class WavSource {
    var size: nat
    var file: File?
    var onDone: bool
    var calls: nat    // of on_done

    constructor (onDone: bool)
      ensures size == 0 && file == null && this.onDone == onDone && calls == 0
    {
      size, file, calls := 0, null, 0;
      this.onDone := onDone;
    }

    ghost predicate Valid()
      reads this, file
    {
      file != null ==> !file.closed && file.pos <= |file.bytes|
    }

    /** stat is whether stat succeeds, disk what fopen returns. */
    method Open(stat: bool, path: seq<bv8>, disk: File?) returns (ok: bool)
      requires file == null
      requires disk != null ==> disk.bytes == path && disk.pos == 0 && !disk.closed
      modifies this`size, this`file, disk
      ensures ok == (stat && disk != null && Accepts(path))
      ensures stat ==> size == |path| && file == disk
      ensures !stat ==> size == old(size) && file == null
      ensures disk != null ==> disk.bytes == path
      ensures Valid()
      ensures ok ==> file.pos == SIZE && file.eof == old(disk.eof)
    {
      if !stat {
        return false;
      }
      size := |path|;
      file := disk;
      if file == null {
        return false;
      }
      var header := new bv8[SIZE];
      var n := file.Read(header, SIZE);
      if n != SIZE {
        return false;
      }
      var h := Decode(header[..]);
      assert header[..] == path[..SIZE];
      if h.riffChunk != RIFF || h.fileFormat != WAVE || h.formatChunk != FMT || h.dataChunk != DATA {
        return false;
      }
      if h.formatSize != 16 {
        return false;
      }
      if h.channels != 2 || h.sampleRate != 48000 || h.byteRate != 4 * 48000 || h.pcmFlags != 1 || h.bitDepth != 16 {
        return false;
      }
      ok := true;
    }

    method Done() returns (r: bool)
      ensures r == (file == null || file.eof)
    {
      r := if file != null then file.eof else true;
    }

    method Read(dest: array<bv8>, bytes: nat) returns (n: nat)
      requires file != null && Valid() && bytes <= dest.Length
      modifies this`calls, file`pos, file`eof, dest
      ensures Valid() && n == |ReadAt(file.bytes, old(file.pos), bytes)| && file.pos == old(file.pos) + n
      ensures dest[..] == ReadAt(file.bytes, old(file.pos), bytes) + old(dest[n..])
      ensures file.eof == (old(file.eof) || n < bytes)
      ensures calls == old(calls) + if onDone && old(file.eof) then 1 else 0
    {
      if onDone {
        var done := Done();
        if done {
          calls := calls + 1;
        }
      }
      n := file.Read(dest, bytes);
    }
  }

  // ---------------------------------------------------------------- round trip

  lemma OverwriteInside(h: seq<bv8>, audio: seq<bv8>, at: nat, data: seq<bv8>)
    requires at + |data| <= |h|
    ensures Overwrite(h + audio, at, data) == h[..at] + data + h[at + |data|..] + audio
  {
    assert (h + audio)[..at] == h[..at];
    assert (h + audio)[at + |data|..] == h[at + |data|..] + audio;
  }

  /** Patching one size changes that field of the header and nothing else, audio included. */
  lemma ChunkPatched(h: WavFileHeader, audio: seq<bv8>, x: Long)
    requires h.Tags()
    ensures Overwrite(Encode(h) + audio, CHUNK_SIZE, Le32(x)) == Encode(h.(chunkSize := x)) + audio
  {
    hide Le16, Le32, Overwrite;
    var f, g := Encode(h), Encode(h.(chunkSize := x));
    OverwriteInside(f, audio, CHUNK_SIZE, Le32(x));
    assert f[..4] == g[..4] == h.riffChunk;
    assert f[8..] == g[8..];
    assert g[4..8] == Le32(x);
    assert g == g[..4] + g[4..8] + g[8..];
  }

  lemma DataPatched(h: WavFileHeader, audio: seq<bv8>, x: Long)
    requires h.Tags()
    ensures Overwrite(Encode(h) + audio, DATA_SIZE, Le32(x)) == Encode(h.(dataSize := x)) + audio
  {
    hide Le16, Le32, Overwrite;
    var f, g := Encode(h), Encode(h.(dataSize := x));
    OverwriteInside(f, audio, DATA_SIZE, Le32(x));
    assert f[..40] == g[..40];
    assert f[44..] == [];
    assert g[40..] == Le32(x);
    assert g == g[..40] + g[40..];
  }

  lemma LowBits(x: nat)
    ensures Le32(x) == Le32(x % 0x1_0000_0000)
  {
    var q, r := x / 0x1_0000_0000, x % 0x1_0000_0000;
    assert x == (q * 0x1_0000) * 0x1_0000 + r && x / 0x1_0000 == q * 0x1_0000 + r / 0x1_0000;
    Low16(x, q * 0x1_0000, r);
    Low16(x / 0x1_0000, q, r / 0x1_0000);
  }

  lemma Low16(x: nat, q: nat, r: nat)
    requires x == q * 0x1_0000 + r
    ensures Le16(x) == Le16(r)
  {
    assert x == (q * 0x100) * 0x100 + r && x / 0x100 == q * 0x100 + r / 0x100;
    SameLow8(x, q * 0x100, r);
    SameLow8(x / 0x100, q, r / 0x100);
  }

  lemma SameLow8(x: nat, q: nat, r: nat)
    requires x == q * 0x100 + r
    ensures Low8(x) == Low8(r)
  {
    assert x % 0x100 == r % 0x100;
  }

  /** What close makes of the header. */
  function Closed(written: nat): WavFileHeader {
    NEW.(chunkSize := (written + SIZE - 8) % 0x1_0000_0000, dataSize := written % 0x1_0000_0000)
  }

  lemma PatchedHeader(audio: seq<bv8>, written: nat, c: Closing)
    requires Granted(c)
    ensures Patched(Encode(NEW) + audio, written, c) == Encode(Closed(written)) + audio
  {
    hide Le32, Le16, Encode, Overwrite;
    var x, y := (written + SIZE - 8) % 0x1_0000_0000, written % 0x1_0000_0000;
    LowBits(written + SIZE - 8);
    LowBits(written);
    ChunkPatched(NEW, audio, x);
    DataPatched(NEW.(chunkSize := x), audio, y);
    assert Le32(written)[..4] == Le32(written) && Le32(written + SIZE - 8)[..4] == Le32(written + SIZE - 8);
  }

  /** Only the two sizes may differ between f and g. */
  predicate SameButSizes(f: seq<bv8>, g: seq<bv8>) {
    |f| == |g| >= SIZE && f[..4] == g[..4] && f[8..40] == g[8..40] && f[44..] == g[44..]
  }

  lemma OverwriteKeeps(f: seq<bv8>, at: nat, data: seq<bv8>)
    requires |f| >= SIZE && |data| <= 4 && (at == CHUNK_SIZE || at == DATA_SIZE)
    ensures SameButSizes(f, Overwrite(f, at, data))
  {
    var g := Overwrite(f, at, data);
    assert forall i :: 0 <= i < |f| && !(at <= i < at + |data|) ==> g[i] == f[i];
  }

  lemma PatchedKeeps(f: seq<bv8>, written: nat, c: Closing)
    requires c.chunk <= 4 && c.data <= 4 && |f| >= SIZE
    ensures SameButSizes(f, Patched(f, written, c))
  {
    hide Overwrite, Le32;
    if c.flush && c.seekChunk {
      var g := Overwrite(f, CHUNK_SIZE, Le32(written + SIZE - 8)[..c.chunk]);
      OverwriteKeeps(f, CHUNK_SIZE, Le32(written + SIZE - 8)[..c.chunk]);
      OverwriteKeeps(g, DATA_SIZE, Le32(written)[..c.data]);
    }
  }

  lemma Part(f: seq<bv8>, g: seq<bv8>, from: nat, to: nat, i: nat, j: nat)
    requires from <= i <= j <= to <= |f| == |g| && f[from..to] == g[from..to]
    ensures f[i..j] == g[i..j]
  {
    forall k | i <= k < j
      ensures f[k] == g[k]
    {
      assert f[from..to][k - from] == f[k] && g[from..to][k - from] == g[k];
    }
  }

  lemma AcceptsKept(f: seq<bv8>, g: seq<bv8>)
    requires SameButSizes(f, g)
    ensures Accepts(f) == Accepts(g)
  {
    hide Word16, Word32;
    var a, b := f[..SIZE], g[..SIZE];
    assert a[8..40] == f[8..40] && b[8..40] == g[8..40];
    assert a[..4] == f[..4] && b[..4] == g[..4];
    Part(a, b, 8, 40, 8, 12);
    Part(a, b, 8, 40, 12, 16);
    Part(a, b, 8, 40, 16, 20);
    Part(a, b, 8, 40, 20, 22);
    Part(a, b, 8, 40, 22, 24);
    Part(a, b, 8, 40, 24, 28);
    Part(a, b, 8, 40, 28, 32);
    Part(a, b, 8, 40, 34, 36);
    Part(a, b, 8, 40, 36, 40);
  }

  lemma HeaderAccepted(h: WavFileHeader, audio: seq<bv8>)
    requires h.Tags()
    ensures var f := Encode(h) + audio;
            |f| == SIZE + |audio| && Decode(f[..SIZE]) == h && f[SIZE..] == audio
  {
    hide Encode, Decode;
    HeaderRoundTrip(h);
    assert (Encode(h) + audio)[..SIZE] == Encode(h);
  }

  /** Whatever close is refused, or if it is never reached, the file stays one that open accepts, with all of its
      audio. */
  lemma AlwaysReadable(audio: seq<bv8>, written: nat, c: Closing)
    requires c.chunk <= 4 && c.data <= 4
    ensures var f := Patched(Encode(NEW) + audio, written, c);
            Accepts(Encode(NEW) + audio) && Accepts(f) && |f| == SIZE + |audio| && f[SIZE..] == audio
  {
    hide Encode, Decode, Patched;
    HeaderAccepted(NEW, audio);
    PatchedKeeps(Encode(NEW) + audio, written, c);
    AcceptsKept(Encode(NEW) + audio, Patched(Encode(NEW) + audio, written, c));
  }

  /** After a close that succeeds both sizes are right exactly when every write succeeded and the file is within
      32 bits. */
  lemma SizesIff(audio: seq<bv8>, written: nat, c: Closing)
    requires Granted(c) && written <= |audio|
    ensures var f := Patched(Encode(NEW) + audio, written, c);
            && |f| == SIZE + |audio|
            && var h := Decode(f[..SIZE]);
               && h == Closed(written)
               && (h.chunkSize == |f| - 8 && h.dataSize == |audio| <==> written == |audio| && |audio| + 36 < 0x1_0000_0000)
  {
    hide Encode, Decode, Patched;
    PatchedHeader(audio, written, c);
    HeaderAccepted(Closed(written), audio);
  }

  /** Successive reads of the given sizes, from a position on. */
  function Reads(f: seq<bv8>, at: nat, sizes: seq<nat>): (r: seq<seq<bv8>>)
    requires at <= |f|
    decreases |sizes|
  {
    if sizes == [] then []
    else
      var x := ReadAt(f, at, sizes[0]);
      [x] + Reads(f, at + |x|, sizes[1..])
  }

  function Total(sizes: seq<nat>): nat {
    if sizes == [] then 0 else sizes[0] + Total(sizes[1..])
  }

  lemma ReadTwice(f: seq<bv8>, at: nat, n: nat, k: nat)
    requires at <= |f|
    ensures var x := ReadAt(f, at, n); ReadAt(f, at, n + k) == x + ReadAt(f, at + |x|, k)
  {
  }

  lemma {:induction false} ReadsAreContiguous(f: seq<bv8>, at: nat, sizes: seq<nat>)
    requires at <= |f|
    ensures Concat(Reads(f, at, sizes)) == ReadAt(f, at, Total(sizes))
    decreases |sizes|
  {
    hide ReadAt;
    if sizes != [] {
      var x := ReadAt(f, at, sizes[0]);
      var rest := Reads(f, at + |x|, sizes[1..]);
      ReadsAreContiguous(f, at + |x|, sizes[1..]);
      ReadTwice(f, at, sizes[0], Total(sizes[1..]));
      assert ([x] + rest)[1..] == rest;
    }
  }

  /** From open to the end of reading. A file that open has begun, any calls of write, each cut short or not, and a
      close that may fail anywhere: the source accepts it, and reads of any sizes return what the writes left in it,
      up to where they stop. After a close that succeeds both sizes are right if and only if every write took
      everything or nothing and the file is within 32 bits. */
  lemma WavRoundTrip(ws: seq<WriteCall>, c: Closing, sizes: seq<nat>)
    requires AllValid(ws) && c.chunk <= 4 && c.data <= 4
    ensures var audio := Recorded(ws);
            var f := Patched(Encode(NEW) + audio, Counted(ws), c);
            && Accepts(f) && |f| == SIZE + |audio|
            && Concat(Reads(f, SIZE, sizes)) == (if Total(sizes) < |audio| then audio[..Total(sizes)] else audio)
            && (Granted(c) ==>
                  var h := Decode(f[..SIZE]);
                  (h.chunkSize == |f| - 8 && h.dataSize == |audio| <==>
                     (forall k :: 0 <= k < |ws| ==> ws[k].Complete() || ws[k].taken == 0) && |audio| + 36 < 0x1_0000_0000))
  {
    hide Encode, Decode, Patched, Concat, Reads, Accepts, Recorded, Counted, Total;
    var audio := Recorded(ws);
    CountedIff(ws);
    ReadBack(audio, Counted(ws), c, sizes);
    if Granted(c) {
      SizesIff(audio, Counted(ws), c);
    }
  }

  lemma ReadBack(audio: seq<bv8>, written: nat, c: Closing, sizes: seq<nat>)
    requires c.chunk <= 4 && c.data <= 4
    ensures var f := Patched(Encode(NEW) + audio, written, c);
            && Accepts(f) && |f| == SIZE + |audio|
            && Concat(Reads(f, SIZE, sizes)) == if Total(sizes) < |audio| then audio[..Total(sizes)] else audio
  {
    hide Encode, Patched, Concat, Reads, Accepts;
    var f := Patched(Encode(NEW) + audio, written, c);
    AlwaysReadable(audio, written, c);
    ReadsAreContiguous(f, SIZE, sizes);
    var n := Total(sizes);
    if n < |audio| {
      assert f[SIZE..SIZE + n] == f[SIZE..][..n];
    } else {
      assert f[SIZE..|f|] == f[SIZE..];
    }
  }
}
