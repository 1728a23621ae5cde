/** _Reader (src/utils.cpp): blocks of audio, read in pieces into a ring of buffers and queued. */
module AudioReading {
  import opened Sequences

  datatype Piece = Piece(data: seq<bv8>, rest: seq<seq<bv8>>)

  /** One read of the source, which hands out its data in pieces of its own choosing; an empty piece, or no
      piece at all, reads as nothing. */
  function SourceRead(pending: seq<seq<bv8>>, len: nat): (r: Piece)
    ensures |r.data| <= len
  {
    if pending == [] then Piece([], [])
    else
      var p := pending[0];
      if |p| <= len then Piece(p, pending[1..]) else Piece(p[..len], [p[len..]] + pending[1..])
  }

  lemma SourceReadConserves(pending: seq<seq<bv8>>, len: nat)
    ensures var r := SourceRead(pending, len); Concat(pending) == r.data + Concat(r.rest)
  {
    if pending != [] && |pending[0]| > len {
      var p, t := pending[0], pending[1..];
      assert ([p[len..]] + t)[1..] == t;
      assert p == p[..len] + p[len..];
    }
  }

  /** The loop of acquire: read until the block is full or the source has nothing. */
  function FullRead(pending: seq<seq<bv8>>, todo: nat, maxRead: nat): (r: Piece)
    ensures |r.data| <= todo
    decreases todo
  {
    if todo == 0 then Piece([], pending)
    else
      var a := SourceRead(pending, if todo > maxRead then maxRead else todo);
      if a.data == [] then Piece([], a.rest)
      else
        var b := FullRead(a.rest, todo - |a.data|, maxRead);
        Piece(a.data + b.data, b.rest)
  }

  /** What the source still has after n full reads. */
  function RestAfter(pending: seq<seq<bv8>>, n: nat, size: nat, maxRead: nat): seq<seq<bv8>> {
    if n == 0 then pending else FullRead(RestAfter(pending, n - 1, size, maxRead), size, maxRead).rest
  }

  /** Nothing the source handed out is lost or reordered. */
  lemma {:induction false} FullReadConserves(pending: seq<seq<bv8>>, todo: nat, maxRead: nat)
    ensures var r := FullRead(pending, todo, maxRead); Concat(pending) == r.data + Concat(r.rest)
    decreases todo
  {
    if todo > 0 {
      var len := if todo > maxRead then maxRead else todo;
      var a := SourceRead(pending, len);
      SourceReadConserves(pending, len);
      if a.data != [] {
        FullReadConserves(a.rest, todo - |a.data|, maxRead);
      }
    }
  }

  function Appended(got: seq<bv8>, r: Piece): Piece {
    Piece(got + r.data, r.rest)
  }

  /** One round of the loop moves a piece from what is still to be read to what has been got. */
  lemma ReadStep(got: seq<bv8>, pending: seq<seq<bv8>>, todo: nat, maxRead: nat)
    requires todo > 0
    ensures var a := SourceRead(pending, if todo > maxRead then maxRead else todo);
            Appended(got, FullRead(pending, todo, maxRead))
            == if a.data == [] then Piece(got, a.rest)
               else Appended(got + a.data, FullRead(a.rest, todo - |a.data|, maxRead))
  {
    hide SourceRead;
    var a := SourceRead(pending, if todo > maxRead then maxRead else todo);
    if a.data == [] {
      assert got + [] == got;
    } else {
      var b := FullRead(a.rest, todo - |a.data|, maxRead).data;
      assert got + (a.data + b) == (got + a.data) + b;
    }
  }

  lemma NothingAppended(r: Piece)
    ensures Appended([], r) == r
  {
    assert [] + r.data == r.data;
  }

  lemma ReadDone(got: seq<bv8>, pending: seq<seq<bv8>>, maxRead: nat)
    ensures Appended(got, FullRead(pending, 0, maxRead)) == Piece(got, pending)
  {
    assert got + [] == got;
  }

  lemma Overwritten(now: seq<bv8>, before: seq<bv8>, got: seq<bv8>, piece: seq<bv8>)
    requires |got| + |piece| <= |before| && now == got + before[|got|..]
    ensures now[..|got|] + piece + now[|got| + |piece|..] == (got + piece) + before[|got| + |piece|..]
  {
    assert now[|got| + |piece|..] == before[|got| + |piece|..];
  }

  /** Half way through acquire: the buffer starts with what has been got, and with what the source still gives that
      makes the whole read. */
  ghost predicate Filling(now: seq<bv8>, before: seq<bv8>, got: seq<bv8>, size: nat, pending: seq<seq<bv8>>, maxRead: nat, all: Piece) {
    && |before| == size && |got| <= size && now == got + before[|got|..]
    && Appended(got, FullRead(pending, size - |got|, maxRead)) == all
  }

  lemma FillStart(before: seq<bv8>, size: nat, pending: seq<seq<bv8>>, maxRead: nat)
    requires |before| == size
    ensures Filling(before, before, [], size, pending, maxRead, FullRead(pending, size, maxRead))
  {
    hide FullRead;
    NothingAppended(FullRead(pending, size, maxRead));
  }

  /** One read: it ends the block, or brings it a piece further. */
  lemma FillStep(now: seq<bv8>, before: seq<bv8>, got: seq<bv8>, size: nat, pending: seq<seq<bv8>>, maxRead: nat, all: Piece)
    requires Filling(now, before, got, size, pending, maxRead, all) && |got| < size
    ensures var todo, total := size - |got|, |got|;
            var a := SourceRead(pending, if todo > maxRead then maxRead else todo);
            && total + |a.data| <= |now|
            && var after := now[..total] + a.data + now[total + |a.data|..];
               if a.data == [] then all == Piece(got, a.rest) && after == got + before[total..]
               else Filling(after, before, got + a.data, size, a.rest, maxRead, all)
  {
    hide FullRead, SourceRead, Appended;
    var todo := size - |got|;
    var a := SourceRead(pending, if todo > maxRead then maxRead else todo);
    ReadStep(got, pending, todo, maxRead);
    Overwritten(now, before, got, a.data);
  }

  lemma FillEnd(now: seq<bv8>, before: seq<bv8>, got: seq<bv8>, size: nat, pending: seq<seq<bv8>>, maxRead: nat, all: Piece)
    requires Filling(now, before, got, size, pending, maxRead, all) && |got| == size
    ensures all == Piece(got, pending) && now == got + before[size..]
  {
    hide FullRead;
    ReadDone(got, pending, maxRead);
  }

  class AudioSource {
    var pending: seq<seq<bv8>>

    constructor (p: seq<seq<bv8>>)
      ensures pending == p
    {
      pending := p;
    }

    method Read(dest: array<bv8>, at: nat, len: nat) returns (rd: nat)
      requires at + len <= dest.Length
      modifies this, dest
      ensures var r := SourceRead(old(pending), len);
              && rd == |r.data| && pending == r.rest
              && dest[..] == old(dest[..])[..at] + r.data + old(dest[..])[at + rd..]
    {
      var r := SourceRead(pending, len);
      for k := 0 to |r.data|
        invariant pending == old(pending)
        invariant dest[..] == old(dest[..])[..at] + r.data[..k] + old(dest[..])[at + k..]
      {
        dest[at + k] := r.data[k];
      }
      assert r.data[..|r.data|] == r.data;
      rd := |r.data|;
      pending := r.rest;
    }
  }

  /** struct Block of src/utils.h: a ring buffer and how much of it was filled. */
  datatype Message = Message(data: array<bv8>, bytes: nat)

  class Reader {
    const src: AudioSource
    const size: nat
    const maxRead: nat
    const data: seq<array<bv8>>
    var idx: nat
    var queue: seq<Message>

    /** The ring has at least one buffer, and its buffers are different arrays of the block size. */
    ghost predicate Valid()
      reads this
    {
      && |data| > 0 && idx < |data|
      && (forall i :: 0 <= i < |data| ==> data[i].Length == size)
      && (forall i, j :: 0 <= i < j < |data| ==> data[i] != data[j])
    }

    constructor (s: AudioSource, sz: nat, maxRd: nat, buffers: seq<array<bv8>>)
      requires |buffers| > 0 && (forall i :: 0 <= i < |buffers| ==> buffers[i].Length == sz)
      requires forall i, j :: 0 <= i < j < |buffers| ==> buffers[i] != buffers[j]
      ensures Valid() && src == s && size == sz && maxRead == maxRd && data == buffers && idx == 0 && queue == []
    {
      src, size, maxRead, data := s, sz, maxRd, buffers;
      idx, queue := 0, [];
    }

    /** acquire; the queue has room. What the block held before stays behind a short read. */
    method Acquire() returns (ok: bool)
      requires Valid() && |queue| < |data|
      modifies this, src, data[idx]
      ensures var r := FullRead(old(src.pending), size, maxRead);
              var buff := data[old(idx)];
              && Valid() && idx == (old(idx) + 1) % |data| && src.pending == r.rest
              && queue == old(queue) + [Message(buff, |r.data|)] && ok == (r.data != [])
              && buff[..] == r.data + old(data[idx][..])[|r.data|..]
    {
      var buff := data[idx];
      idx := (idx + 1) % |data|;
      var total := Fill(buff);
      queue := queue + [Message(buff, total)];
      ok := total != 0;
    }

    /** The loop of acquire. */
    method Fill(buff: array<bv8>) returns (total: nat)
      requires buff.Length == size
      modifies src, buff
      ensures var r := FullRead(old(src.pending), size, maxRead);
              && total == |r.data| && src.pending == r.rest
              && buff[..] == r.data + old(buff[..])[total..]
    {
      hide SourceRead, FullRead, Filling;
      ghost var before, all := buff[..], FullRead(src.pending, size, maxRead);
      ghost var got: seq<bv8> := [];
      FillStart(before, size, src.pending, maxRead);
      total := 0;
      while total < size
        invariant total == |got| <= size && Filling(buff[..], before, got, size, src.pending, maxRead, all)
      {
        var todo := size - total;
        var block := if todo > maxRead then maxRead else todo;
        ghost var now, pending := buff[..], src.pending;
        var rd := src.Read(buff, total, block);
        FillStep(now, before, got, size, pending, maxRead, all);
        if rd == 0 {
          return;
        }
        got := got + SourceRead(pending, block).data;
        total := total + rd;
      }
      FillEnd(buff[..], before, got, size, src.pending, maxRead, all);
    }

    /** read; the queue is not empty, so there is no wait. */
    method Read() returns (block: Message)
      requires queue != []
      modifies `queue
      ensures block == old(queue)[0] && queue == old(queue)[1..]
    {
      block := queue[0];
      queue := queue[1..];
    }
  }
}
