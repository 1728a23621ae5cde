/** The reader thread and the encoder thread (src/utils.cpp): a ring of buffers handed over through a queue,
    step by step, in any interleaving. */
module ReaderRing {
  import opened CStrings
  import opened AudioReading

  /** taken, blocks and encoded are the history: what each finished acquire read, what its buffer held when it was
      queued, and what the codec was given. got is what the acquire in progress has read so far. */
  datatype Ring = Ring(
    size: nat, bufs: seq<seq<bv8>>, idx: nat,
    cur: nat, filling: bool, got: seq<bv8>, started: nat,
    queue: seq<nat>, holding: Option<nat>,
    taken: seq<seq<bv8>>, blocks: seq<seq<bv8>>, encoded: seq<seq<bv8>>)

  /** The atomic steps: the reader takes the next buffer, stores a piece, queues the buffer; the encoder takes a
      buffer from the queue, encodes it. */
  datatype Step = Start | StorePiece(data: seq<bv8>) | Finish | Get | Encode

  /** An acquire that read nothing ends the reader. */
  predicate Stopped(r: Ring) {
    r.taken != [] && r.taken[|r.taken| - 1] == []
  }

  predicate Enabled(r: Ring, s: Step) {
    match s
    case Start => !r.filling && !Stopped(r) && r.idx < |r.bufs|
    case StorePiece(d) => r.filling && d != [] && |r.got| + |d| <= r.size && r.cur < |r.bufs| && |r.bufs[r.cur]| == r.size
    case Finish => r.filling && r.cur < |r.bufs|
    case Get => r.holding == None && r.queue != []
    case Encode => r.holding.Some? && r.holding.value < |r.bufs|
  }

  function Next(r: Ring, s: Step): Ring
    requires Enabled(r, s)
  {
    match s
    case Start => r.(cur := r.idx, idx := (r.idx + 1) % |r.bufs|, filling := true, got := [], started := r.started + 1)
    case StorePiece(d) =>
      var b := r.bufs[r.cur];
      r.(bufs := r.bufs[r.cur := b[..|r.got|] + d + b[|r.got| + |d|..]], got := r.got + d)
    case Finish =>
      r.(queue := r.queue + [r.cur], filling := false, taken := r.taken + [r.got], blocks := r.blocks + [r.bufs[r.cur]])
    case Get => r.(holding := Some(r.queue[0]), queue := r.queue[1..])
    case Encode => r.(holding := None, encoded := r.encoded + [r.bufs[r.holding.value]])
  }

  /** Nothing is stored into a buffer whose last block is still to be encoded. */
  predicate Guarded(r: Ring, s: Step) {
    s.StorePiece? ==> |r.taken| < |r.encoded| + |r.bufs|
  }

  /** Stricter: acquire number k + n starts only after block k has been encoded. */
  predicate Disciplined(r: Ring, s: Step) {
    s.Start? ==> r.started < |r.encoded| + |r.bufs|
  }

  function Initial(size: nat, bufs: seq<seq<bv8>>): Ring {
    Ring(size, bufs, 0, 0, false, [], 0, [], None, [], [], [])
  }

  function Held(r: Ring): nat {
    if r.holding.Some? then 1 else 0
  }

  /** Block k lives in buffer k mod n. */
  function Slot(k: nat, n: nat): (s: nat)
    requires n > 0
    ensures s < n
  {
    k % n
  }

  predicate Sized(bufs: seq<seq<bv8>>, size: nat) {
    forall i :: 0 <= i < |bufs| ==> |bufs[i]| == size
  }

  /** The bookkeeping, in every run: who holds which block. */
  ghost predicate Shape(r: Ring) {
    && |r.bufs| > 0 && Sized(r.bufs, r.size) && Sized(r.blocks, r.size) && |r.blocks| == |r.taken|
    && r.started == |r.taken| + (if r.filling then 1 else 0)
    && |r.taken| == |r.encoded| + Held(r) + |r.queue|
    && r.idx == Slot(r.started, |r.bufs|)
    && (r.filling ==> r.cur == Slot(|r.taken|, |r.bufs|) && |r.got| <= r.size && !Stopped(r))
    && (forall j :: 0 <= j < |r.queue| ==> r.queue[j] == Slot(|r.encoded| + Held(r) + j, |r.bufs|))
    && (r.holding.Some? ==> r.holding.value == Slot(|r.encoded|, |r.bufs|))
  }

  /** Every block was encoded as it was queued. */
  ghost predicate Faithful(r: Ring) {
    |r.encoded| <= |r.blocks| && forall k :: 0 <= k < |r.encoded| ==> r.encoded[k] == r.blocks[k]
  }

  /** Every block starts with what was read for it, and every block that waits to be encoded is still in its
      buffer. A reader that is a full ring ahead has not stored anything. */
  ghost predicate Contents(r: Ring)
    requires Shape(r)
  {
    && |r.taken| <= |r.encoded| + |r.bufs| + (if Stopped(r) then 1 else 0)
    && (forall k :: 0 <= k < |r.taken| ==> r.taken[k] <= r.blocks[k])
    && (forall k :: |r.encoded| <= k < |r.taken| ==> r.blocks[k] == r.bufs[Slot(k, |r.bufs|)])
    && (r.filling ==> r.got <= r.bufs[r.cur] && (|r.taken| == |r.encoded| + |r.bufs| ==> r.got == []))
  }

  ghost predicate Inv(r: Ring) {
    Shape(r) && Contents(r) && Faithful(r)
  }

  // ---------------------------------------------------------------- slots

  lemma ModShift(j: nat, d: nat, n: nat)
    requires 0 < d < n
    ensures (j + d) % n != j % n
  {
    var q, r := j / n, j % n;
    assert j == q * n + r;
    if r + d < n {
      ModIs(j + d, q, r + d, n);
    } else {
      assert j + d == (q + 1) * n + (r + d - n);
      ModIs(j + d, q + 1, r + d - n, n);
    }
  }

  lemma ModIs(x: nat, q: nat, r: nat, n: nat)
    requires 0 <= r < n && x == q * n + r
    ensures x % n == r
  {
    var a, b := x / n, x % n;
    SameQuotient(a, b, q, r, n);
  }

  lemma SameQuotient(a: nat, b: nat, q: nat, r: nat, n: nat)
    requires b < n && r < n && a * n + b == q * n + r
    ensures b == r
  {
    if a < q {
      Apart(a, q, n);
    } else if q < a {
      Apart(q, a, n);
    }
  }

  lemma Apart(a: nat, q: nat, n: nat)
    requires a < q
    ensures q * n >= a * n + n
  {
    assert q * n == (a + 1) * n + (q - a - 1) * n;
  }

  /** Blocks less than one ring apart are in different buffers. */
  lemma SlotsDiffer(r: Ring, j: nat, k: nat)
    requires j < k < j + |r.bufs|
    ensures Slot(j, |r.bufs|) != Slot(k, |r.bufs|)
  {
    ModShift(j, k - j, |r.bufs|);
  }

  lemma NextSlot(k: nat, n: nat)
    requires n > 0
    ensures (k % n + 1) % n == (k + 1) % n
  {
    var q, r := k / n, k % n;
    if r + 1 < n {
      ModIs(k + 1, q, r + 1, n);
      ModIs(r + 1, 0, r + 1, n);
    } else {
      assert k + 1 == (q + 1) * n + 0;
      ModIs(k + 1, q + 1, 0, n);
      ModIs(n, 1, 0, n);
    }
  }

  lemma WholeTurn(k: nat, n: nat)
    requires n > 0
    ensures Slot(k + n, n) == Slot(k, n)
  {
    ModIs(k + n, k / n + 1, k % n, n);
  }

  // ---------------------------------------------------------------- what every step keeps

  lemma ShapeKept(r: Ring, s: Step)
    requires Shape(r) && Enabled(r, s)
    ensures Shape(Next(r, s))
  {
    match s
    case Start => NextSlot(r.started, |r.bufs|);
    case Get => GetShape(r);
    case _ =>
      hide Slot;
  }

  lemma GetShape(r: Ring)
    requires Shape(r) && Enabled(r, Get)
    ensures Shape(Next(r, Get))
  {
    hide Slot;
    var n := Next(r, Get);
    assert Slot(|r.encoded| + Held(r) + 0, |r.bufs|) == r.queue[0];
    forall j | 0 <= j < |n.queue|
      ensures n.queue[j] == Slot(|n.encoded| + Held(n) + j, |r.bufs|)
    {
      assert n.queue[j] == r.queue[j + 1];
    }
  }

  lemma PieceKeeps(r: Ring, d: seq<bv8>)
    requires Inv(r) && Enabled(r, StorePiece(d)) && Guarded(r, StorePiece(d))
    ensures Inv(Next(r, StorePiece(d)))
  {
    ShapeKept(r, StorePiece(d));
    hide Slot;
    var n := Next(r, StorePiece(d));
    assert n.bufs[r.cur][..|n.got|] == n.got;
    forall k | |r.encoded| <= k < |r.taken|
      ensures n.bufs[Slot(k, |n.bufs|)] == r.bufs[Slot(k, |r.bufs|)]
    {
      SlotsDiffer(r, k, |r.taken|);
    }
  }

  lemma FinishKeeps(r: Ring)
    requires Inv(r) && Enabled(r, Finish)
    ensures Inv(Next(r, Finish))
  {
    ShapeKept(r, Finish);
    hide Slot;
    var n := Next(r, Finish);
    assert forall k :: 0 <= k < |r.taken| ==> n.taken[k] == r.taken[k] && n.blocks[k] == r.blocks[k];
  }

  lemma OthersKeep(r: Ring, s: Step)
    requires Inv(r) && Enabled(r, s) && !s.StorePiece? && !s.Finish?
    ensures Inv(Next(r, s))
  {
    ShapeKept(r, s);
    hide Slot;
  }

  lemma StepKeeps(r: Ring, s: Step)
    requires Inv(r) && Enabled(r, s) && Guarded(r, s)
    ensures Inv(Next(r, s))
  {
    hide Inv, Next, Enabled, Guarded;
    match s
    case StorePiece(d) => PieceKeeps(r, d);
    case Finish => FinishKeeps(r);
    case _ => OthersKeep(r, s);
  }

  // ---------------------------------------------------------------- whole runs

  ghost predicate IsRun(run: seq<Ring>, steps: seq<Step>) {
    && |run| == |steps| + 1
    && forall i :: 0 <= i < |steps| ==> Enabled(run[i], steps[i]) && run[i + 1] == Next(run[i], steps[i])
  }

  /** The run begins with empty hands and at least one buffer. */
  ghost predicate Begins(run: seq<Ring>) {
    run != [] && |run[0].bufs| > 0 && run[0] == Initial(run[0].size, run[0].bufs) && Sized(run[0].bufs, run[0].size)
  }

  lemma InitialInv(size: nat, bufs: seq<seq<bv8>>)
    requires |bufs| > 0 && Sized(bufs, size)
    ensures Inv(Initial(size, bufs))
  {
    assert Slot(0, |bufs|) == 0;
  }

  lemma {:induction false} GuardedInv(run: seq<Ring>, steps: seq<Step>, k: nat)
    requires IsRun(run, steps) && k < |run| && Begins(run) && forall i :: 0 <= i < k ==> Guarded(run[i], steps[i])
    ensures Inv(run[k]) && |run[k].bufs| == |run[0].bufs| && run[k].size == run[0].size
    decreases k
  {
    hide Inv, Guarded;
    if k == 0 {
      InitialInv(run[0].size, run[0].bufs);
    } else {
      GuardedInv(run, steps, k - 1);
      StepKeeps(run[k - 1], steps[k - 1]);
    }
  }

  /** In every interleaving that keeps the guard: each block is encoded exactly as it was queued, and a read that
      filled its block exactly as it was read. The queue holds at most one message for each buffer, and one more
      only when the source has ended. */
  lemma RingIsFaithful(run: seq<Ring>, steps: seq<Step>, k: nat)
    requires IsRun(run, steps) && k < |run| && Begins(run) && forall i :: 0 <= i < k ==> Guarded(run[i], steps[i])
    ensures Inv(run[k]) && |run[k].queue| <= |run[0].bufs| + (if Stopped(run[k]) then 1 else 0)
    ensures forall b :: 0 <= b < |run[k].encoded| ==>
              && b < |run[k].taken| && run[k].taken[b] <= run[k].encoded[b]
              && (|run[k].taken[b]| == run[k].size ==> run[k].encoded[b] == run[k].taken[b])
  {
    hide Next, Slot, Enabled;
    GuardedInv(run, steps, k);
    var r := run[k];
    forall b | 0 <= b < |r.encoded| && |r.taken[b]| == r.size
      ensures r.encoded[b] == r.taken[b]
    {
      assert r.encoded[b][..r.size] == r.encoded[b];
    }
  }

  /** The stricter discipline keeps the guard, and the queue within the number of buffers. */
  lemma {:induction false} DisciplineSuffices(run: seq<Ring>, steps: seq<Step>, k: nat)
    requires IsRun(run, steps) && k < |run| && Begins(run) && forall i :: 0 <= i < k ==> Disciplined(run[i], steps[i])
    ensures Inv(run[k]) && run[k].started <= |run[k].encoded| + |run[k].bufs|
    ensures forall i :: 0 <= i < k ==> Guarded(run[i], steps[i])
    ensures |run[k].queue| <= |run[k].bufs|
    decreases k
  {
    hide Slot, Contents, Faithful;
    if k == 0 {
      InitialInv(run[0].size, run[0].bufs);
    } else {
      DisciplineSuffices(run, steps, k - 1);
      StepKeeps(run[k - 1], steps[k - 1]);
    }
  }

  // ---------------------------------------------------------------- what breaking the guard does

  lemma Extend(run: seq<Ring>, steps: seq<Step>, s: Step) returns (r: seq<Ring>, ss: seq<Step>)
    requires IsRun(run, steps) && run != [] && Shape(run[|run| - 1]) && Enabled(run[|run| - 1], s)
    ensures IsRun(r, ss) && r != [] && r[0] == run[0] && r[|r| - 1] == Next(run[|run| - 1], s) && Shape(r[|r| - 1])
  {
    hide Next, Enabled, Shape;
    ShapeKept(run[|run| - 1], s);
    r, ss := run + [Next(run[|run| - 1], s)], steps + [s];
    forall i | 0 <= i < |ss|
      ensures Enabled(r[i], ss[i]) && r[i + 1] == Next(r[i], ss[i])
    {
      assert i < |steps| ==> ss[i] == steps[i] && r[i] == run[i] && r[i + 1] == run[i + 1];
    }
  }

  /** The encoder takes the next block and encodes it. */
  lemma EncodeOne(run: seq<Ring>, steps: seq<Step>) returns (r: seq<Ring>, ss: seq<Step>)
    requires IsRun(run, steps) && run != [] && Shape(run[|run| - 1]) && |run[|run| - 1].encoded| < |run[|run| - 1].taken|
    ensures IsRun(r, ss) && r != [] && r[0] == run[0] && Shape(r[|r| - 1])
    ensures var a, b := run[|run| - 1], r[|r| - 1];
            && b.encoded == a.encoded + [a.bufs[Slot(|a.encoded|, |a.bufs|)]]
            && b.bufs == a.bufs && b.size == a.size && b.taken == a.taken && b.blocks == a.blocks && b.filling == a.filling
            && b.got == a.got
  {
    hide Slot, IsRun;
    r, ss := run, steps;
    var a := run[|run| - 1];
    if a.holding == None {
      r, ss := Extend(r, ss, Get);
    }
    r, ss := Extend(r, ss, Encode);
  }

  /** A reader that is a full ring ahead, and a byte that differs from the block that is encoded next. */
  lemma Smash(run: seq<Ring>, steps: seq<Step>) returns (r: seq<Ring>, ss: seq<Step>)
    requires IsRun(run, steps) && run != []
    requires var a := run[|run| - 1];
             Shape(a) && a.filling && |a.got| < a.size && |a.taken| == |a.encoded| + |a.bufs|
    ensures IsRun(r, ss) && r != [] && r[0] == run[0] && !Faithful(r[|r| - 1])
  {
    hide Slot, IsRun, Faithful;
    var a := run[|run| - 1];
    var e, p := |a.encoded|, |a.got|;
    var x: bv8 := if a.blocks[e][p] == 0 then 1 else 0;
    WholeTurn(e, |a.bufs|);
    r, ss := Extend(run, steps, StorePiece([x]));
    var b := r[|r| - 1];
    assert b.bufs[Slot(e, |b.bufs|)][p] == x;
    r, ss := EncodeOne(r, ss);
    var c := r[|r| - 1];
    assert c.encoded[e][p] == x && c.blocks[e] == a.blocks[e];
    NotFaithful(c, e);
  }

  lemma NotFaithful(r: Ring, k: nat)
    requires k < |r.encoded| && k < |r.blocks| && r.encoded[k] != r.blocks[k]
    ensures !Faithful(r)
  {
  }

  /** The guard is exact: whatever is stored against it, even the very bytes that were there, the run can go on so
      that a block is encoded with other bytes than were queued. */
  lemma UnguardedCorrupts(r: Ring, s: Step) returns (run: seq<Ring>, steps: seq<Step>)
    requires Inv(r) && Enabled(r, s) && !Guarded(r, s)
    ensures IsRun(run, steps) && run != [] && run[0] == Next(r, s) && !Faithful(run[|run| - 1])
  {
    hide Slot, IsRun, Faithful, Contents;
    ShapeKept(r, s);
    var a := Next(r, s);
    FullRing(r);
    run, steps := [a], [];
    OneState(a);
    if |a.got| == a.size {
      run, steps := Extend(run, steps, Finish);
      run, steps := EncodeOne(run, steps);
      run, steps := Extend(run, steps, Start);
    }
    run, steps := Smash(run, steps);
  }

  lemma OneState(r: Ring)
    ensures IsRun([r], [])
  {
  }

  lemma FullRing(r: Ring)
    requires Inv(r) && r.filling
    ensures |r.taken| <= |r.encoded| + |r.bufs|
  {
  }

  /** n acquires of one piece each, with nobody encoding. */
  lemma {:induction false} FillRing(size: nat, bufs: seq<seq<bv8>>, n: nat) returns (run: seq<Ring>, steps: seq<Step>)
    requires 0 < size && 0 < |bufs| && n <= |bufs| && Sized(bufs, size)
    ensures IsRun(run, steps) && run != [] && run[0] == Initial(size, bufs)
    ensures var r := run[|run| - 1];
            Inv(r) && r.size == size && |r.bufs| == |bufs| && !r.filling && |r.taken| == n && r.encoded == [] && !Stopped(r)
    decreases n
  {
    hide IsRun, Inv, Slot;
    if n == 0 {
      run, steps := [Initial(size, bufs)], [];
      OneState(run[0]);
      InitialInv(size, bufs);
    } else {
      run, steps := FillRing(size, bufs, n - 1);
      run, steps := FillOne(run, steps);
    }
  }

  lemma FillOne(run: seq<Ring>, steps: seq<Step>) returns (r: seq<Ring>, ss: seq<Step>)
    requires IsRun(run, steps) && run != []
    requires var a := run[|run| - 1];
             0 < a.size && Inv(a) && !a.filling && !Stopped(a) && |a.taken| < |a.encoded| + |a.bufs|
    ensures IsRun(r, ss) && r != [] && r[0] == run[0]
    ensures var a, b := run[|run| - 1], r[|r| - 1];
            && Inv(b) && b.size == a.size && |b.bufs| == |a.bufs| && !b.filling && |b.taken| == |a.taken| + 1
            && b.encoded == a.encoded && !Stopped(b)
  {
    hide *;
    var a := run[|run| - 1];
    var d := FillStates(a);
    r, ss := Extend(run, steps, Start);
    r, ss := Extend(r, ss, StorePiece(d));
    r, ss := Extend(r, ss, Finish);
  }

  lemma FillStates(a: Ring) returns (d: seq<bv8>)
    requires 0 < a.size && Inv(a) && !a.filling && !Stopped(a) && |a.taken| < |a.encoded| + |a.bufs|
    ensures Shape(a) && Enabled(a, Start)
    ensures var b := Next(a, Start);
            && Enabled(b, StorePiece(d))
            && var c := Next(b, StorePiece(d));
               && Enabled(c, Finish)
               && var e := Next(c, Finish);
                  && Inv(e) && e.size == a.size && |e.bufs| == |a.bufs| && !e.filling && |e.taken| == |a.taken| + 1
                  && e.encoded == a.encoded && !Stopped(e)
  {
    hide Contents, Faithful, Slot;
    d := seq(a.size, i => 0 as bv8);
    StepKeeps(a, Start);
    var b := Next(a, Start);
    StepKeeps(b, StorePiece(d));
    var c := Next(b, StorePiece(d));
    StepKeeps(c, Finish);
  }

  /** Such a run from the start, for every ring: the reader fills it, takes the first buffer again before the
      encoder has come to it, and the encoder gets bytes that were never queued for that block. */
  lemma OverrunCorrupts(size: nat, bufs: seq<seq<bv8>>) returns (run: seq<Ring>, steps: seq<Step>)
    requires 0 < size && 0 < |bufs| && Sized(bufs, size)
    ensures IsRun(run, steps) && Begins(run) && run[0] == Initial(size, bufs) && !Faithful(run[|run| - 1])
  {
    hide IsRun, Contents, Faithful, Slot;
    run, steps := FillRing(size, bufs, |bufs|);
    run, steps := Extend(run, steps, Start);
    run, steps := Smash(run, steps);
  }

  // ---------------------------------------------------------------- the source

  function Todo(r: Ring, maxRead: nat): nat {
    if |r.got| > r.size then 0 else if r.size - |r.got| > maxRead then maxRead else r.size - |r.got|
  }

  /** The pieces come from a source, which at run[i] still has src[i]; an acquire ends when the block is full or
      the source has nothing. */
  ghost predicate Sourced(run: seq<Ring>, steps: seq<Step>, src: seq<seq<seq<bv8>>>, maxRead: nat)
    requires IsRun(run, steps)
  {
    && |src| == |run|
    && forall i :: 0 <= i < |steps| ==> SourceStep(run[i], steps[i], src[i], src[i + 1], maxRead)
  }

  predicate SourceStep(r: Ring, s: Step, before: seq<seq<bv8>>, after: seq<seq<bv8>>, maxRead: nat) {
    var a := SourceRead(before, Todo(r, maxRead));
    match s
    case StorePiece(d) => d == a.data && after == a.rest
    case Finish => if |r.got| == r.size then after == before else a.data == [] && after == a.rest
    case _ => after == before
  }

  ghost predicate InStep(r: Ring, start: seq<seq<bv8>>, left: seq<seq<bv8>>, maxRead: nat) {
    var now := RestAfter(start, |r.taken|, r.size, maxRead);
    && (forall k :: 0 <= k < |r.taken| ==> r.taken[k] == FullRead(RestAfter(start, k, r.size, maxRead), r.size, maxRead).data)
    && (if r.filling then |r.got| <= r.size && Appended(r.got, FullRead(left, r.size - |r.got|, maxRead)) == FullRead(now, r.size, maxRead)
        else left == now)
  }

  lemma SourceStepKeeps(r: Ring, s: Step, start: seq<seq<bv8>>, before: seq<seq<bv8>>, after: seq<seq<bv8>>, maxRead: nat)
    requires Enabled(r, s) && InStep(r, start, before, maxRead) && SourceStep(r, s, before, after, maxRead)
    ensures InStep(Next(r, s), start, after, maxRead)
  {
    hide FullRead, SourceRead, Stopped;
    match s
    case Start =>
      var all := FullRead(before, r.size, maxRead);
      assert [] + all.data == all.data;
    case StorePiece(d) =>
      ReadStep(r.got, before, r.size - |r.got|, maxRead);
    case Finish =>
      if |r.got| == r.size {
        ReadDone(r.got, before, maxRead);
      } else {
        ReadStep(r.got, before, r.size - |r.got|, maxRead);
      }
    case _ =>
  }

  /** In every run over a source, acquire number k takes exactly the k-th full read of it. */
  lemma {:induction false} TakenAreReads(run: seq<Ring>, steps: seq<Step>, src: seq<seq<seq<bv8>>>, maxRead: nat, k: nat)
    requires IsRun(run, steps) && k < |run| && Begins(run) && Sourced(run, steps, src, maxRead)
    ensures InStep(run[k], src[0], src[k], maxRead) && run[k].size == run[0].size
    decreases k
  {
    hide Enabled, SourceStep, FullRead;
    if k > 0 {
      TakenAreReads(run, steps, src, maxRead, k - 1);
      SourceStepKeeps(run[k - 1], steps[k - 1], src[0], src[k - 1], src[k], maxRead);
    }
  }

  /** Both together: over any source and in any guarded interleaving, block b is encoded as a block that starts with
      the b-th full read, and is that read if it filled the block. */
  lemma EncodedAreReads(run: seq<Ring>, steps: seq<Step>, src: seq<seq<seq<bv8>>>, maxRead: nat, k: nat, b: nat)
    requires IsRun(run, steps) && k < |run| && Begins(run) && forall i :: 0 <= i < k ==> Guarded(run[i], steps[i])
    requires Sourced(run, steps, src, maxRead) && b < |run[k].encoded|
    ensures var read := FullRead(RestAfter(src[0], b, run[0].size, maxRead), run[0].size, maxRead).data;
            read <= run[k].encoded[b] && (|read| == run[0].size ==> run[k].encoded[b] == read)
  {
    hide Enabled, Next, Sourced, Guarded, FullRead, RestAfter, Inv;
    RingIsFaithful(run, steps, k);
    TakenAreReads(run, steps, src, maxRead, k);
  }
}
