/**
  Every step of every thread keeps the invariant of the ring machine.
 */
module RingSafety {
  import opened Words
  import opened RingMachine
  import opened RingInvariant

  // ----- what a step leaves to the other threads

  /** Counters and histories only grow; the configuration is fixed. */
  ghost predicate Grows(sh: Shared, g: History, sh': Shared, g': History) {
    && sh'.size == sh.size && sh'.sp == sh.sp && sh'.sc == sh.sc && |sh'.slots| == |sh.slots|
    && g.ph <= g'.ph && g.pt <= g'.pt && g.ch <= g'.ch && g.ct <= g'.ct
    && g.hist <= g'.hist && g.powner <= g'.powner && g.cowner <= g'.cowner
    && (g'.default ==> g.default)
  }

  /** The step does not touch what a thread at `pc` relies on. */
  ghost predicate Spares(sh: Shared, g: History, sh': Shared, g': History, pc: Pc, mark: Mark)
    requires sh.size >= 1 && |sh.slots| == sh.size && sh'.size == sh.size && |sh'.slots| == sh.size
  {
    && (ProdReserved(pc) ==>
          && g'.pt <= mark.head && (pc.PPublish? ==> g'.pt == g.pt)
          && forall k :: mark.head <= k < mark.head + |pc.objs| ==> sh'.slots[SlotFor(k, sh.size)] == sh.slots[SlotFor(k, sh.size)])
    && (ConsReserved(pc) ==> g'.ct <= mark.head && (pc.CPublish? ==> g'.ct == g.ct))
    && (sh.sp && (pc.PReadTail? || pc.PReserve?) ==> g'.ph == g.ph)
    && (sh.sc && (pc.CReadTail? || pc.CReserve?) ==> g'.ch == g.ch)
  }

  lemma ThreadSpared(sh: Shared, g: History, sh': Shared, g': History, u: nat, pc: Pc, mark: Mark)
    requires sh.size >= 1 && |sh.slots| == sh.size
    requires Grows(sh, g, sh', g') && Spares(sh, g, sh', g', pc, mark)
    requires g'.ph <= |g'.hist| && g'.pt <= |g'.hist| && g'.ph <= |g'.powner| && g'.ch <= |g'.cowner|
    requires ThreadOk(sh, g, u, pc, mark)
    ensures ThreadOk(sh', g', u, pc, mark)
  {
    if ProdReserved(pc) {
      ProducerSpared(sh, g, sh', g', u, pc, mark);
    } else if ConsReserved(pc) {
      ConsumerSpared(sh, g, sh', g', u, pc, mark);
    }
  }

  lemma ProducerSpared(sh: Shared, g: History, sh': Shared, g': History, u: nat, pc: Pc, mark: Mark)
    requires sh.size >= 1 && |sh.slots| == sh.size
    requires Grows(sh, g, sh', g') && Spares(sh, g, sh', g', pc, mark)
    requires g'.ph <= |g'.hist| && g'.pt <= |g'.hist| && g'.ph <= |g'.powner|
    requires ThreadOk(sh, g, u, pc, mark) && ProdReserved(pc)
    ensures ThreadOk(sh', g', u, pc, mark)
  {
  }

  lemma ConsumerSpared(sh: Shared, g: History, sh': Shared, g': History, u: nat, pc: Pc, mark: Mark)
    requires sh.size >= 1 && |sh.slots| == sh.size
    requires Grows(sh, g, sh', g') && Spares(sh, g, sh', g', pc, mark)
    requires g'.pt <= |g'.hist| && g'.ch <= |g'.cowner|
    requires ThreadOk(sh, g, u, pc, mark) && ConsReserved(pc)
    ensures ThreadOk(sh', g', u, pc, mark)
  {
  }

  /** The invariant of the other threads and their hold on positions carry over. */
  lemma OthersKept(s: State, s': State, t: nat)
    requires Inv(s) && Shape(s') && t < |s.m.pcs| && |s'.m.pcs| == |s.m.pcs|
    requires Grows(s.m.sh, s.g, s'.m.sh, s'.g)
    requires s'.m.pcs == s.m.pcs[t := s'.m.pcs[t]] && s'.g.marks == s.g.marks[t := s'.g.marks[t]]
    requires s'.g.pt <= |s'.g.hist|
    requires forall u :: 0 <= u < |s.m.pcs| && u != t ==> Spares(s.m.sh, s.g, s'.m.sh, s'.g, s.m.pcs[u], s.g.marks[u])
    ensures forall u :: 0 <= u < |s.m.pcs| && u != t ==> ThreadOk(s'.m.sh, s'.g, u, s'.m.pcs[u], s'.g.marks[u])
    ensures forall k :: s.g.pt <= k < s.g.ph && s.g.powner[k] != t ==> ProdOwner(s', k)
    ensures forall k :: s.g.ct <= k < s.g.ch && s.g.cowner[k] != t ==> ConsOwner(s', k)
  {
    forall u | 0 <= u < |s.m.pcs| && u != t
      ensures ThreadOk(s'.m.sh, s'.g, u, s'.m.pcs[u], s'.g.marks[u])
    {
      ThreadSpared(s.m.sh, s.g, s'.m.sh, s'.g, u, s.m.pcs[u], s.g.marks[u]);
    }
    forall k | s.g.pt <= k < s.g.ph && s.g.powner[k] != t
      ensures ProdOwner(s', k)
    {
      assert ProdOwner(s, k);
    }
    forall k | s.g.ct <= k < s.g.ch && s.g.cowner[k] != t
      ensures ConsOwner(s', k)
    {
      assert ConsOwner(s, k);
    }
  }

  /** Two reserved positions, or a reserved and an unread one, never share a slot. */
  lemma SlotsApart(g: History, size: int, j: nat, k: nat)
    requires size >= 1 && Order(g, size)
    requires g.ct <= j < k < g.ph
    ensures SlotFor(j, size) != SlotFor(k, size)
  {
    SlotsDiffer(j, k, size);
  }

  // ----- single-producer and single-consumer discipline

  // Thread t is inside an operation afterwards only if it was before, or entry was allowed.
  lemma SingleKept(s: State, s': State, t: nat, call: Call)
    requires Inv(s) && Allowed(s, t, call)
    requires s'.m.sh.sp == s.m.sh.sp && s'.m.sh.sc == s.m.sh.sc
    requires |s'.m.pcs| == |s.m.pcs| && s'.m.pcs == s.m.pcs[t := s'.m.pcs[t]]
    requires IsProducing(s'.m.pcs[t]) ==> IsProducing(s.m.pcs[t]) || (s.m.pcs[t].Idle? && call.Enqueue?)
    requires IsConsuming(s'.m.pcs[t]) ==> IsConsuming(s.m.pcs[t]) || (s.m.pcs[t].Idle? && call.Dequeue?)
    ensures Single(s')
  {
    if s.m.sh.sp {
      forall i, j | 0 <= i < j < |s.m.pcs|
        ensures !(IsProducing(s'.m.pcs[i]) && IsProducing(s'.m.pcs[j]))
      {
        assert !(IsProducing(s.m.pcs[i]) && IsProducing(s.m.pcs[j]));
      }
    }
    if s.m.sh.sc {
      forall i, j | 0 <= i < j < |s.m.pcs|
        ensures !(IsConsuming(s'.m.pcs[i]) && IsConsuming(s'.m.pcs[j]))
      {
        assert !(IsConsuming(s.m.pcs[i]) && IsConsuming(s.m.pcs[j]));
      }
    }
  }

  /** While one thread is producing on a single-producer ring, no other is. */
  lemma SoleProducer(s: State, t: nat, u: nat)
    requires Single(s) && s.m.sh.sp && t < |s.m.pcs| && u < |s.m.pcs| && t != u
    ensures !(IsProducing(s.m.pcs[t]) && IsProducing(s.m.pcs[u]))
  {
    if t < u {
      assert 0 <= t < u < |s.m.pcs|;
    }
  }

  lemma SoleConsumer(s: State, t: nat, u: nat)
    requires Single(s) && s.m.sh.sc && t < |s.m.pcs| && u < |s.m.pcs| && t != u
    ensures !(IsConsuming(s.m.pcs[t]) && IsConsuming(s.m.pcs[u]))
  {
    if t < u {
      assert 0 <= t < u < |s.m.pcs|;
    }
  }

  // ----- steps that leave indices and slots alone

  /** What thread t holds, before and after a step that moves no index. */
  ghost predicate SameHold(pc: Pc, mark: Mark, pc': Pc, mark': Mark) {
    && ProdReserved(pc) == ProdReserved(pc') && ConsReserved(pc) == ConsReserved(pc')
    && (ProdReserved(pc) ==> pc'.objs == pc.objs && mark' == mark)
    && (ConsReserved(pc) ==> pc'.n == pc.n && mark' == mark)
  }

  lemma QuietStep(s: State, s': State, t: nat, call: Call)
    requires Inv(s) && Allowed(s, t, call)
    requires |s'.m.pcs| == |s.m.pcs| && s'.m.pcs == s.m.pcs[t := s'.m.pcs[t]]
    requires |s'.g.marks| == |s.g.marks|
    requires s'.m.sh == s.m.sh.(watermark := s'.m.sh.watermark)
    requires s'.g == s.g.(marks := s'.g.marks, default := s'.g.default)
    requires s'.g.marks == s.g.marks[t := s'.g.marks[t]]
    requires s'.m.sh.watermark <= s.m.sh.size && (s'.g.default ==> s.g.default && s'.m.sh.watermark == s.m.sh.size)
    requires SameHold(s.m.pcs[t], s.g.marks[t], s'.m.pcs[t], s'.g.marks[t])
    requires IsProducing(s'.m.pcs[t]) ==> IsProducing(s.m.pcs[t]) || (s.m.pcs[t].Idle? && call.Enqueue?)
    requires IsConsuming(s'.m.pcs[t]) ==> IsConsuming(s.m.pcs[t]) || (s.m.pcs[t].Idle? && call.Dequeue?)
    requires ThreadOk(s'.m.sh, s'.g, t, s'.m.pcs[t], s'.g.marks[t])
    ensures Inv(s')
  {
    forall u | 0 <= u < |s.m.pcs| && u != t
      ensures Spares(s.m.sh, s.g, s'.m.sh, s'.g, s.m.pcs[u], s.g.marks[u])
    {
      assert ThreadOk(s.m.sh, s.g, u, s.m.pcs[u], s.g.marks[u]);
    }
    OthersKept(s, s', t);
    SingleKept(s, s', t, call);
    QuietTiles(s, s', t);
  }

  lemma QuietTiles(s: State, s': State, t: nat)
    requires Inv(s) && Shape(s') && t < |s.m.pcs| && |s'.m.pcs| == |s.m.pcs|
    requires s'.m.pcs == s.m.pcs[t := s'.m.pcs[t]] && s'.g.marks == s.g.marks[t := s'.g.marks[t]]
    requires s'.g == s.g.(marks := s'.g.marks, default := s'.g.default)
    requires SameHold(s.m.pcs[t], s.g.marks[t], s'.m.pcs[t], s'.g.marks[t])
    ensures Tiled(s')
  {
    forall k | s'.g.pt <= k < s'.g.ph
      ensures ProdOwner(s', k)
    {
      assert ProdOwner(s, k);
    }
    forall k | s'.g.ct <= k < s'.g.ch
      ensures ConsOwner(s', k)
    {
      assert ConsOwner(s, k);
    }
  }

  lemma StepIdle(s: State, t: nat, call: Call)
    requires Inv(s) && Allowed(s, t, call) && s.m.pcs[t].Idle?
    ensures Inv(Next(s, t, call))
  {
    QuietStep(s, Next(s, t, call), t, call);
  }

  lemma StepPReadHead(s: State, t: nat, call: Call)
    requires Inv(s) && Allowed(s, t, call) && s.m.pcs[t].PReadHead?
    ensures Inv(Next(s, t, call))
  {
    assert ThreadOk(s.m.sh, s.g, t, s.m.pcs[t], s.g.marks[t]);
    QuietStep(s, Next(s, t, call), t, call);
  }

  /** The 32-bit room computation is the wrapped difference of the unbounded counters. */
  lemma RoomWord(size: int, tail: nat, head: nat)
    ensures Wrap(size - 1 + Wrap(tail) - Wrap(head)) == Wrap(size - 1 + tail - head)
  {
    WrapSub(size - 1, tail, head);
  }

  lemma StepPReadTail(s: State, t: nat, call: Call)
    requires Inv(s) && Allowed(s, t, call) && s.m.pcs[t].PReadTail?
    ensures Inv(Next(s, t, call))
  {
    PReadTailOk(s, t, call);
    QuietStep(s, Next(s, t, call), t, call);
  }

  lemma PReadTailOk(s: State, t: nat, call: Call)
    requires Inv(s) && Allowed(s, t, call) && s.m.pcs[t].PReadTail?
    ensures var s' := Next(s, t, call);
            1 <= s'.m.sh.size && ThreadOk(s'.m.sh, s'.g, t, s'.m.pcs[t], s'.g.marks[t])
  {
    assert ThreadOk(s.m.sh, s.g, t, s.m.pcs[t], s.g.marks[t]);
    RoomWord(s.m.sh.size, s.g.ct, s.g.marks[t].head);
  }

  /** `(mask + 1) - free_entries + n` counts the positions in use after the enqueue, plus one. */
  lemma UsedWord(size: int, n: nat, free: int, head: nat, tail: nat)
    requires 1 <= size <= 0x8000_0000 && n <= free <= size - 1 && free == size - 1 + tail - head
    ensures Wrap(size - free + n) == (head + n) - tail + 1 <= size
  {
  }

  lemma StepPReadMark(s: State, t: nat, call: Call)
    requires Inv(s) && Allowed(s, t, call) && s.m.pcs[t].PReadMark?
    ensures Inv(Next(s, t, call))
  {
    var pc := s.m.pcs[t];
    assert ThreadOk(s.m.sh, s.g, t, pc, s.g.marks[t]);
    UsedWord(s.m.sh.size, |pc.objs|, pc.free, s.g.marks[t].head, s.g.marks[t].tail);
    QuietStep(s, Next(s, t, call), t, call);
  }

  /** The owner of the first unpublished position starts exactly there. */
  lemma ProdAtTail(s: State)
    requires Inv(s) && s.g.pt < s.g.ph
    ensures s.g.powner[s.g.pt] < |s.m.pcs|
    ensures ProdReserved(s.m.pcs[s.g.powner[s.g.pt]]) && s.g.marks[s.g.powner[s.g.pt]].head == s.g.pt
  {
    assert ProdOwner(s, s.g.pt);
    var t := s.g.powner[s.g.pt];
    assert ThreadOk(s.m.sh, s.g, t, s.m.pcs[t], s.g.marks[t]);
  }

  lemma ConsAtTail(s: State)
    requires Inv(s) && s.g.ct < s.g.ch
    ensures s.g.cowner[s.g.ct] < |s.m.pcs|
    ensures ConsReserved(s.m.pcs[s.g.cowner[s.g.ct]]) && s.g.marks[s.g.cowner[s.g.ct]].head == s.g.ct
  {
    assert ConsOwner(s, s.g.ct);
    var t := s.g.cowner[s.g.ct];
    assert ThreadOk(s.m.sh, s.g, t, s.m.pcs[t], s.g.marks[t]);
  }

  /** The tail test, made on wrapped words, passes exactly when the reservation starts at the tail. */
  lemma TailTestExact(s: State, t: nat)
    requires Inv(s) && t < |s.m.pcs|
    ensures s.m.pcs[t].PAwait? ==>
              (s.m.sh.sp || s.m.sh.prodTail == s.m.pcs[t].head <==> s.g.marks[t].head == s.g.pt)
    ensures s.m.pcs[t].CAwait? ==>
              (s.m.sh.sc || s.m.sh.consTail == s.m.pcs[t].head <==> s.g.marks[t].head == s.g.ct)
  {
    assert ThreadOk(s.m.sh, s.g, t, s.m.pcs[t], s.g.marks[t]);
    if s.m.pcs[t].PAwait? {
      WrapInjective(s.g.pt, s.g.marks[t].head);
      if s.m.sh.sp {
        ProdAtTail(s);
        var u := s.g.powner[s.g.pt];
        if u != t {
          SoleProducer(s, t, u);
        }
      }
    }
    if s.m.pcs[t].CAwait? {
      WrapInjective(s.g.ct, s.g.marks[t].head);
      if s.m.sh.sc {
        ConsAtTail(s);
        var u := s.g.cowner[s.g.ct];
        if u != t {
          SoleConsumer(s, t, u);
        }
      }
    }
  }

  lemma StepAwait(s: State, t: nat, call: Call)
    requires Inv(s) && Allowed(s, t, call) && (s.m.pcs[t].PAwait? || s.m.pcs[t].CAwait?)
    ensures Inv(Next(s, t, call))
  {
    assert ThreadOk(s.m.sh, s.g, t, s.m.pcs[t], s.g.marks[t]);
    TailTestExact(s, t);
    QuietStep(s, Next(s, t, call), t, call);
  }

  lemma StepCReadHead(s: State, t: nat, call: Call)
    requires Inv(s) && Allowed(s, t, call) && s.m.pcs[t].CReadHead?
    ensures Inv(Next(s, t, call))
  {
    assert ThreadOk(s.m.sh, s.g, t, s.m.pcs[t], s.g.marks[t]);
    QuietStep(s, Next(s, t, call), t, call);
  }

  lemma StepCReadTail(s: State, t: nat, call: Call)
    requires Inv(s) && Allowed(s, t, call) && s.m.pcs[t].CReadTail?
    ensures Inv(Next(s, t, call))
  {
    CReadTailOk(s, t, call);
    QuietStep(s, Next(s, t, call), t, call);
  }

  lemma CReadTailOk(s: State, t: nat, call: Call)
    requires Inv(s) && Allowed(s, t, call) && s.m.pcs[t].CReadTail?
    ensures var s' := Next(s, t, call);
            1 <= s'.m.sh.size && ThreadOk(s'.m.sh, s'.g, t, s'.m.pcs[t], s'.g.marks[t])
  {
    EntriesSeen(s, t);
  }

  // The 32-bit entry count a dequeue computes is the wrapped difference of the unbounded counters.
  lemma EntriesSeen(s: State, t: nat)
    requires Inv(s) && t < |s.m.pcs| && s.m.pcs[t].CReadTail?
    ensures ThreadOk(s.m.sh, s.g, t, s.m.pcs[t], s.g.marks[t])
    ensures Wrap(s.m.sh.prodTail - s.m.pcs[t].head) == Wrap(s.g.pt - s.g.marks[t].head) && s.g.marks[t].head <= s.g.pt
  {
    assert ThreadOk(s.m.sh, s.g, t, s.m.pcs[t], s.g.marks[t]);
    WrapSub(0, s.g.pt, s.g.marks[t].head);
  }

  /** The slot a consumer copies holds the object of the position it claimed. */
  lemma CopiedObject(s: State, t: nat)
    requires Inv(s) && t < |s.m.pcs| && s.m.pcs[t].CRead? && |s.m.pcs[t].buf| < s.m.pcs[t].n
    ensures var pc, lo := s.m.pcs[t], s.g.marks[t].head;
            lo + |pc.buf| < |s.g.hist|
            && s.m.sh.slots[Slot(s.m.sh, pc.head + |pc.buf|)] == s.g.hist[lo + |pc.buf|]
  {
    var pc, lo := s.m.pcs[t], s.g.marks[t].head;
    ReaderAt(s, t);
    SlotOfCounter(s.m.sh, lo, pc.head, |pc.buf|);
    StoredAt(s.m.sh, s.g, s.g.ct, s.g.pt, lo + |pc.buf|);
  }

  // The next position a consumer copies is published and not free yet.
  lemma ReaderAt(s: State, t: nat)
    requires Inv(s) && t < |s.m.pcs| && s.m.pcs[t].CRead? && |s.m.pcs[t].buf| < s.m.pcs[t].n
    ensures var p := s.g.marks[t].head + |s.m.pcs[t].buf|; s.g.ct <= p < s.g.pt <= |s.g.hist|
    ensures s.m.pcs[t].head == Wrap(s.g.marks[t].head)
  {
    assert ThreadOk(s.m.sh, s.g, t, s.m.pcs[t], s.g.marks[t]);
  }

  lemma StoredAt(sh: Shared, g: History, lo: nat, hi: nat, p: nat)
    requires sh.size >= 1 && |sh.slots| == sh.size && Stored(sh, g, lo, hi) && lo <= p < hi
    ensures sh.slots[SlotFor(p, sh.size)] == g.hist[p]
  {
  }

  lemma SliceGrows(h: seq<Obj>, lo: nat, n: nat)
    requires lo + n < |h|
    ensures h[lo..lo + n] + [h[lo + n]] == h[lo..lo + (n + 1)]
  {
  }

  lemma StepCRead(s: State, t: nat, call: Call)
    requires Inv(s) && Allowed(s, t, call) && s.m.pcs[t].CRead?
    ensures Inv(Next(s, t, call))
  {
    CReadOk(s, t, call);
    QuietStep(s, Next(s, t, call), t, call);
  }

  lemma CReadOk(s: State, t: nat, call: Call)
    requires Inv(s) && Allowed(s, t, call) && s.m.pcs[t].CRead?
    ensures var s' := Next(s, t, call);
            && 1 <= s'.m.sh.size && ThreadOk(s'.m.sh, s'.g, t, s'.m.pcs[t], s'.g.marks[t])
            && SameHold(s.m.pcs[t], s.g.marks[t], s'.m.pcs[t], s'.g.marks[t])
  {
    var pc := s.m.pcs[t];
    ReadOn(s.m.sh, s.g, t, pc.n, pc.head, pc.buf, s.g.marks[t]);
    ReadStep(s, t, call);
  }

  // What the step makes of the thread, with the object it reads named by its position.
  lemma ReadStep(s: State, t: nat, call: Call)
    requires Inv(s) && Allowed(s, t, call) && s.m.pcs[t].CRead?
    ensures var pc, s', k := s.m.pcs[t], Next(s, t, call), s.g.marks[t].head + |s.m.pcs[t].buf|;
            && s'.m.sh == s.m.sh && s'.g == s.g
            && (|pc.buf| < pc.n ==> k < |s.g.hist| && s'.m.pcs[t] == CRead(pc.n, pc.head, pc.buf + [s.g.hist[k]]))
            && (|pc.buf| >= pc.n ==> s'.m.pcs[t] == CAwait(pc.n, pc.head, pc.buf))
  {
    assert ThreadOk(s.m.sh, s.g, t, s.m.pcs[t], s.g.marks[t]);
    if |s.m.pcs[t].buf| < s.m.pcs[t].n {
      CopiedObject(s, t);
    }
  }

  // With one more object read, or none left to read.
  lemma ReadOn(sh: Shared, g: History, t: nat, n: int, head: u32, buf: seq<Obj>, mark: Mark)
    requires sh.size >= 1 && |sh.slots| == sh.size && ThreadOk(sh, g, t, CRead(n, head, buf), mark)
    ensures mark.head + |buf| <= |g.hist|
    ensures |buf| < n ==> mark.head + |buf| < |g.hist|
    ensures |buf| < n ==> ThreadOk(sh, g, t, CRead(n, head, buf + [g.hist[mark.head + |buf|]]), mark)
    ensures |buf| >= n ==> ThreadOk(sh, g, t, CAwait(n, head, buf), mark)
  {
    if |buf| < n {
      SliceGrows(g.hist, mark.head, |buf|);
    }
  }

  // ----- reserving

  /** A thread outside an enqueue's copy phase owns no unpublished position; same for dequeues. */
  lemma OwnsNothing(s: State, t: nat)
    requires Inv(s) && t < |s.m.pcs|
    ensures !ProdReserved(s.m.pcs[t]) ==> forall k :: s.g.pt <= k < s.g.ph ==> s.g.powner[k] != t
    ensures !ConsReserved(s.m.pcs[t]) ==> forall k :: s.g.ct <= k < s.g.ch ==> s.g.cowner[k] != t
  {
    forall k | s.g.pt <= k < s.g.ph
      ensures !ProdReserved(s.m.pcs[t]) ==> s.g.powner[k] != t
    {
      assert ProdOwner(s, k);
    }
    forall k | s.g.ct <= k < s.g.ch
      ensures !ConsReserved(s.m.pcs[t]) ==> s.g.cowner[k] != t
    {
      assert ConsOwner(s, k);
    }
  }

  /**
    A compare-and-set that succeeds in time saw the current head, so the room it computed from
    a possibly stale tail is exact and still there.
   */
  lemma ReserveExact(s: State, t: nat, call: Call)
    requires Inv(s) && Allowed(s, t, call) && s.m.pcs[t].PReserve?
    requires s.m.sh.sp || s.m.sh.prodHead == s.m.pcs[t].head
    ensures var pc, mark := s.m.pcs[t], s.g.marks[t];
            mark.head == s.g.ph && ExactFree(s.m.sh, s.g, mark, pc.objs, pc.free)
  {
    assert ThreadOk(s.m.sh, s.g, t, s.m.pcs[t], s.g.marks[t]);
    HeadSeen(s.g.marks[t].head, s.g.ph);
  }

  lemma ClaimExact(s: State, t: nat, call: Call)
    requires Inv(s) && Allowed(s, t, call) && s.m.pcs[t].CReserve?
    requires s.m.sh.sc || s.m.sh.consHead == s.m.pcs[t].head
    ensures var pc, mark := s.m.pcs[t], s.g.marks[t];
            mark.head == s.g.ch && Wrap(mark.tail - mark.head) == mark.tail - mark.head < s.m.sh.size
            && s.g.ch + pc.n <= s.g.pt
  {
    assert ThreadOk(s.m.sh, s.g, t, s.m.pcs[t], s.g.marks[t]);
    HeadSeen(s.g.marks[t].head, s.g.ch);
  }

  lemma StepPReserve(s: State, t: nat, call: Call)
    requires Inv(s) && Allowed(s, t, call) && s.m.pcs[t].PReserve?
    ensures Inv(Next(s, t, call))
  {
    OneReserve(s, t, call);
    if s.m.sh.sp || s.m.sh.prodHead == s.m.pcs[t].head {
      ReserveExact(s, t, call);
      ReserveStep(s, Next(s, t, call), t, call);
    } else {
      QuietStep(s, Next(s, t, call), t, call);
    }
  }

  // What a compare-and-set leaves behind.
  lemma OneReserve(s: State, t: nat, call: Call)
    requires Inv(s) && Allowed(s, t, call) && s.m.pcs[t].PReserve?
    ensures ThreadOk(s.m.sh, s.g, t, s.m.pcs[t], s.g.marks[t])
    ensures s.m.sh.sp || s.m.sh.prodHead == s.m.pcs[t].head ==>
              var pc := s.m.pcs[t];
              Next(s, t, call) ==
                State(Machine(s.m.sh.(prodHead := Wrap(pc.head + |pc.objs|)), s.m.pcs[t := PWrite(pc.objs, pc.head, pc.free, 0)]),
                  s.g.(ph := s.g.ph + |pc.objs|, hist := s.g.hist + pc.objs, powner := s.g.powner + Fill(t, |pc.objs|)))
    ensures !(s.m.sh.sp || s.m.sh.prodHead == s.m.pcs[t].head) ==>
              Next(s, t, call) == State(Machine(s.m.sh, s.m.pcs[t := PReadHead(s.m.pcs[t].objs)]), s.g)
  {
  }

  lemma ReserveStep(s: State, s': State, t: nat, call: Call)
    requires Inv(s) && Allowed(s, t, call) && s.m.pcs[t].PReserve?
    requires ThreadOk(s.m.sh, s.g, t, s.m.pcs[t], s.g.marks[t]) && s.g.marks[t].head == s.g.ph
    requires var pc := s.m.pcs[t]; ExactFree(s.m.sh, s.g, s.g.marks[t], pc.objs, pc.free)
    requires var pc := s.m.pcs[t];
             && s'.m == Machine(s.m.sh.(prodHead := Wrap(pc.head + |pc.objs|)), s.m.pcs[t := PWrite(pc.objs, pc.head, pc.free, 0)])
             && s'.g == s.g.(ph := s.g.ph + |pc.objs|, hist := s.g.hist + pc.objs, powner := s.g.powner + Fill(t, |pc.objs|))
    ensures Inv(s')
  {
    var pc := s.m.pcs[t];
    WrapAdd(s.g.ph, |pc.objs|);
    assert Shape(s');
    forall u | 0 <= u < |s.m.pcs| && u != t
      ensures Spares(s.m.sh, s.g, s'.m.sh, s'.g, s.m.pcs[u], s.g.marks[u])
    {
      ReserveSpares(s, s', t, u);
    }
    assert s'.g.marks == s.g.marks[t := s'.g.marks[t]];
    OthersKept(s, s', t);
    SingleKept(s, s', t, call);
    OwnsNothing(s, t);
    assert Logs(s'.g);
    ReserverOk(s.m.sh, s'.m.sh, s.g, s'.g, t, pc, s.g.marks[t]);
  }

  // The thread holds what it has just reserved.
  lemma ReserverOk(sh: Shared, sh': Shared, g: History, g': History, t: nat, pc: Pc, mark: Mark)
    requires sh.size >= 1 && |sh.slots| == sh.size && |g.hist| == |g.powner| == g.ph && g.pt <= g.ph
    requires pc.PReserve? && ThreadOk(sh, g, t, pc, mark) && mark.head == g.ph && ExactFree(sh, g, mark, pc.objs, pc.free)
    requires sh' == sh.(prodHead := sh'.prodHead)
    requires g' == g.(ph := g.ph + |pc.objs|, hist := g.hist + pc.objs, powner := g.powner + Fill(t, |pc.objs|))
    ensures ThreadOk(sh', g', t, PWrite(pc.objs, pc.head, pc.free, 0), mark)
  {
  }

  lemma ReserveSpares(s: State, s': State, t: nat, u: nat)
    requires Inv(s) && t < |s.m.pcs| && u < |s.m.pcs| && u != t && s.m.pcs[t].PReserve?
    requires s'.m.sh == s.m.sh.(prodHead := s'.m.sh.prodHead)
    requires s'.g == s.g.(ph := s'.g.ph, hist := s'.g.hist, powner := s'.g.powner)
    ensures Spares(s.m.sh, s.g, s'.m.sh, s'.g, s.m.pcs[u], s.g.marks[u])
  {
    assert ThreadOk(s.m.sh, s.g, u, s.m.pcs[u], s.g.marks[u]);
    if s.m.sh.sp {
      SoleProducer(s, t, u);
    }
  }

  lemma StepCReserve(s: State, t: nat, call: Call)
    requires Inv(s) && Allowed(s, t, call) && s.m.pcs[t].CReserve?
    ensures Inv(Next(s, t, call))
  {
    OneClaim(s, t, call);
    if s.m.sh.sc || s.m.sh.consHead == s.m.pcs[t].head {
      ClaimExact(s, t, call);
      ClaimStep(s, Next(s, t, call), t, call);
    } else {
      QuietStep(s, Next(s, t, call), t, call);
    }
  }

  // What a compare-and-set leaves behind.
  lemma OneClaim(s: State, t: nat, call: Call)
    requires Inv(s) && Allowed(s, t, call) && s.m.pcs[t].CReserve?
    ensures ThreadOk(s.m.sh, s.g, t, s.m.pcs[t], s.g.marks[t])
    ensures s.m.sh.sc || s.m.sh.consHead == s.m.pcs[t].head ==>
              var pc := s.m.pcs[t];
              Next(s, t, call) ==
                State(Machine(s.m.sh.(consHead := Wrap(pc.head + pc.n)), s.m.pcs[t := CRead(pc.n, pc.head, [])]),
                  s.g.(ch := s.g.ch + pc.n, cowner := s.g.cowner + Fill(t, pc.n)))
    ensures !(s.m.sh.sc || s.m.sh.consHead == s.m.pcs[t].head) ==>
              Next(s, t, call) == State(Machine(s.m.sh, s.m.pcs[t := CReadHead(s.m.pcs[t].n)]), s.g)
  {
  }

  lemma ClaimStep(s: State, s': State, t: nat, call: Call)
    requires Inv(s) && Allowed(s, t, call) && s.m.pcs[t].CReserve?
    requires ThreadOk(s.m.sh, s.g, t, s.m.pcs[t], s.g.marks[t]) && s.g.marks[t].head == s.g.ch
    requires s.g.ch + s.m.pcs[t].n <= s.g.pt
    requires var pc := s.m.pcs[t];
             && s'.m == Machine(s.m.sh.(consHead := Wrap(pc.head + pc.n)), s.m.pcs[t := CRead(pc.n, pc.head, [])])
             && s'.g == s.g.(ch := s.g.ch + pc.n, cowner := s.g.cowner + Fill(t, pc.n))
    ensures Inv(s')
  {
    var pc := s.m.pcs[t];
    WrapAdd(s.g.ch, pc.n);
    assert Shape(s');
    forall u | 0 <= u < |s.m.pcs| && u != t
      ensures Spares(s.m.sh, s.g, s'.m.sh, s'.g, s.m.pcs[u], s.g.marks[u])
    {
      ClaimSpares(s, s', t, u);
    }
    assert s'.g.marks == s.g.marks[t := s'.g.marks[t]];
    OthersKept(s, s', t);
    SingleKept(s, s', t, call);
    OwnsNothing(s, t);
  }

  lemma ClaimSpares(s: State, s': State, t: nat, u: nat)
    requires Inv(s) && t < |s.m.pcs| && u < |s.m.pcs| && u != t && s.m.pcs[t].CReserve?
    requires s'.m.sh == s.m.sh.(consHead := s'.m.sh.consHead)
    requires s'.g == s.g.(ch := s'.g.ch, cowner := s'.g.cowner)
    ensures Spares(s.m.sh, s.g, s'.m.sh, s'.g, s.m.pcs[u], s.g.marks[u])
  {
    assert ThreadOk(s.m.sh, s.g, u, s.m.pcs[u], s.g.marks[u]);
    if s.m.sh.sc {
      SoleConsumer(s, t, u);
    }
  }

  // ----- writing a slot

  /** Writing one reserved slot leaves every other live position's slot as it was. */
  lemma WriteIsLocal(s: State, t: nat)
    requires Inv(s) && t < |s.m.pcs| && s.m.pcs[t].PWrite? && s.m.pcs[t].i < |s.m.pcs[t].objs|
    ensures var pc, lo, size := s.m.pcs[t], s.g.marks[t].head, s.m.sh.size;
            && lo + pc.i < s.g.ph && Slot(s.m.sh, pc.head + pc.i) == SlotFor(lo + pc.i, size)
            && forall k :: s.g.ct <= k < s.g.ph && k != lo + pc.i ==> SlotFor(k, size) != SlotFor(lo + pc.i, size)
  {
    WriterAt(s, t);
    WriterSlot(s, t);
    LiveSlotsApart(s.g, s.m.sh.size, s.g.marks[t].head + s.m.pcs[t].i);
  }

  lemma WriterSlot(s: State, t: nat)
    requires Inv(s) && t < |s.m.pcs| && s.m.pcs[t].PWrite? && s.m.pcs[t].i < |s.m.pcs[t].objs|
    ensures var pc, lo := s.m.pcs[t], s.g.marks[t].head;
            Slot(s.m.sh, pc.head + pc.i) == SlotFor(lo + pc.i, s.m.sh.size)
  {
    WriterAt(s, t);
    SlotOfCounter(s.m.sh, s.g.marks[t].head, s.m.pcs[t].head, s.m.pcs[t].i);
  }

  lemma WriterAt(s: State, t: nat)
    requires Inv(s) && t < |s.m.pcs| && s.m.pcs[t].PWrite? && s.m.pcs[t].i < |s.m.pcs[t].objs|
    ensures s.g.pt <= s.g.marks[t].head && s.g.marks[t].head + s.m.pcs[t].i < s.g.ph
    ensures s.m.pcs[t].head == Wrap(s.g.marks[t].head)
  {
    assert ThreadOk(s.m.sh, s.g, t, s.m.pcs[t], s.g.marks[t]);
  }

  lemma LiveSlotsApart(g: History, size: int, p: nat)
    requires size >= 1 && Order(g, size) && g.ct <= p < g.ph
    ensures forall k :: g.ct <= k < g.ph && k != p ==> SlotFor(k, size) != SlotFor(p, size)
  {
    forall k | g.ct <= k < g.ph && k != p
      ensures SlotFor(k, size) != SlotFor(p, size)
    {
      if k < p {
        SlotsApart(g, size, k, p);
      } else {
        SlotsApart(g, size, p, k);
      }
    }
  }

  lemma StepPWrite(s: State, t: nat, call: Call)
    requires Inv(s) && Allowed(s, t, call) && s.m.pcs[t].PWrite?
    ensures Inv(Next(s, t, call))
  {
    if s.m.pcs[t].i < |s.m.pcs[t].objs| {
      WriteIsLocal(s, t);
      OneWrite(s, t, call);
      WriteStep(s, t, call);
    } else {
      LastWrite(s, t, call);
      QuietStep(s, Next(s, t, call), t, call);
    }
  }

  /** A step of the copy loop, with the slot it writes named by its position. */
  function AfterWrite(s: State, t: nat): State
    requires Sized(s) && t < |s.m.pcs| && s.m.pcs[t].PWrite? && s.m.pcs[t].i < |s.m.pcs[t].objs|
  {
    var pc, p := s.m.pcs[t], SlotFor(s.g.marks[t].head + s.m.pcs[t].i, s.m.sh.size);
    State(Machine(s.m.sh.(slots := s.m.sh.slots[p := pc.objs[pc.i]]),
                  s.m.pcs[t := PWrite(pc.objs, pc.head, pc.free, pc.i + 1)]), s.g)
  }

  lemma OneWrite(s: State, t: nat, call: Call)
    requires Inv(s) && Allowed(s, t, call) && s.m.pcs[t].PWrite? && s.m.pcs[t].i < |s.m.pcs[t].objs|
    ensures ThreadOk(s.m.sh, s.g, t, s.m.pcs[t], s.g.marks[t])
    ensures Next(s, t, call) == AfterWrite(s, t)
  {
    WriterSlot(s, t);
  }

  // The step that leaves the loop.
  lemma LastWrite(s: State, t: nat, call: Call)
    requires Inv(s) && Allowed(s, t, call) && s.m.pcs[t].PWrite? && s.m.pcs[t].i >= |s.m.pcs[t].objs|
    ensures var s' := Next(s, t, call);
            && s'.m.sh == s.m.sh && s'.g == s.g && ThreadOk(s'.m.sh, s'.g, t, s'.m.pcs[t], s'.g.marks[t])
            && SameHold(s.m.pcs[t], s.g.marks[t], s'.m.pcs[t], s'.g.marks[t])
  {
    assert ThreadOk(s.m.sh, s.g, t, s.m.pcs[t], s.g.marks[t]);
  }

  /** The position the thread is about to write is reserved, and no other live one has its slot. */
  ghost predicate Writes(s: State, t: nat)
    requires Sized(s) && t < |s.m.pcs|
  {
    && s.m.pcs[t].PWrite? && s.m.pcs[t].i < |s.m.pcs[t].objs|
    && ThreadOk(s.m.sh, s.g, t, s.m.pcs[t], s.g.marks[t])
    && var p := s.g.marks[t].head + s.m.pcs[t].i;
       p < s.g.ph && forall k :: s.g.ct <= k < s.g.ph && k != p ==> SlotFor(k, s.m.sh.size) != SlotFor(p, s.m.sh.size)
  }

  lemma WriteStep(s: State, t: nat, call: Call)
    requires Inv(s) && Allowed(s, t, call) && Writes(s, t)
    ensures Inv(AfterWrite(s, t))
  {
    WriteBase(s, t);
    WriteThreads(s, t);
    SingleKept(s, AfterWrite(s, t), t, call);
    TilesKept(s, AfterWrite(s, t), t);
  }

  lemma WriteBase(s: State, t: nat)
    requires Inv(s) && t < |s.m.pcs| && Writes(s, t)
    ensures var s' := AfterWrite(s, t);
            && Shape(s') && Residues(s'.m.sh, s'.g) && Order(s'.g, s'.m.sh.size) && Logs(s'.g)
            && Stored(s'.m.sh, s'.g, s'.g.ct, s'.g.pt)
  {
    var pc := s.m.pcs[t];
    WriteSpared(s.m.sh, AfterWrite(s, t).m.sh, s.g, s.g.marks[t].head + pc.i, pc.objs[pc.i]);
  }

  lemma WriteThreads(s: State, t: nat)
    requires Inv(s) && t < |s.m.pcs| && Writes(s, t) && Shape(AfterWrite(s, t))
    ensures ThreadsOk(AfterWrite(s, t))
  {
    OtherSlotsKept(s, t);
    WriteOthers(s, AfterWrite(s, t), t);
    OwnWrite(s, t);
  }

  lemma OtherSlotsKept(s: State, t: nat)
    requires Inv(s) && t < |s.m.pcs| && Writes(s, t)
    ensures var p, size := s.g.marks[t].head + s.m.pcs[t].i, s.m.sh.size;
            forall k :: s.g.ct <= k < s.g.ph && k != p ==> AfterWrite(s, t).m.sh.slots[SlotFor(k, size)] == s.m.sh.slots[SlotFor(k, size)]
  {
    var pc := s.m.pcs[t];
    WriteSpared(s.m.sh, AfterWrite(s, t).m.sh, s.g, s.g.marks[t].head + pc.i, pc.objs[pc.i]);
  }

  lemma OwnWrite(s: State, t: nat)
    requires Inv(s) && t < |s.m.pcs| && Writes(s, t)
    ensures var s' := AfterWrite(s, t); s'.m.sh.size >= 1 && ThreadOk(s'.m.sh, s'.g, t, s'.m.pcs[t], s'.g.marks[t])
  {
    WriterKept(s.m.sh, AfterWrite(s, t).m.sh, s.g, t, s.m.pcs[t], s.g.marks[t]);
  }

  // The slots of all other live positions are as they were.
  lemma WriteSpared(sh: Shared, sh': Shared, g: History, p: nat, x: Obj)
    requires sh.size >= 1 && |sh.slots| == sh.size && sh' == sh.(slots := sh.slots[SlotFor(p, sh.size) := x])
    requires g.pt <= p < g.ph && Stored(sh, g, g.ct, g.pt)
    requires forall k :: g.ct <= k < g.ph && k != p ==> SlotFor(k, sh.size) != SlotFor(p, sh.size)
    ensures forall k :: g.ct <= k < g.ph && k != p ==> sh'.slots[SlotFor(k, sh.size)] == sh.slots[SlotFor(k, sh.size)]
    ensures Stored(sh', g, g.ct, g.pt)
  {
  }

  lemma WriteOthers(s: State, s': State, t: nat)
    requires Inv(s) && Shape(s') && t < |s.m.pcs| && s.m.pcs[t].PWrite? && s.m.pcs[t].i < |s.m.pcs[t].objs|
    requires ThreadOk(s.m.sh, s.g, t, s.m.pcs[t], s.g.marks[t])
    requires s'.m.sh == s.m.sh.(slots := s'.m.sh.slots) && s'.g == s.g && s'.m.pcs == s.m.pcs[t := s'.m.pcs[t]] && |s'.m.pcs| == |s.m.pcs|
    requires var p, size := s.g.marks[t].head + s.m.pcs[t].i, s.m.sh.size;
             forall k :: s.g.ct <= k < s.g.ph && k != p ==> s'.m.sh.slots[SlotFor(k, size)] == s.m.sh.slots[SlotFor(k, size)]
    ensures forall u :: 0 <= u < |s.m.pcs| && u != t ==> ThreadOk(s'.m.sh, s'.g, u, s'.m.pcs[u], s'.g.marks[u])
  {
    var p := s.g.marks[t].head + s.m.pcs[t].i;
    assert s.g.powner[p] == t;
    forall u | 0 <= u < |s.m.pcs| && u != t
      ensures Spares(s.m.sh, s.g, s'.m.sh, s'.g, s.m.pcs[u], s.g.marks[u])
    {
      WriteSpares(s, s', p, u);
    }
    assert s'.g.marks == s.g.marks[t := s'.g.marks[t]];
    OthersKept(s, s', t);
  }

  lemma WriteSpares(s: State, s': State, p: nat, u: nat)
    requires Inv(s) && u < |s.m.pcs| && p < s.g.ph && s.g.powner[p] != u
    requires |s'.m.sh.slots| == s.m.sh.size && s'.m.sh == s.m.sh.(slots := s'.m.sh.slots) && s'.g == s.g
    requires forall k :: s.g.ct <= k < s.g.ph && k != p ==> s'.m.sh.slots[SlotFor(k, s.m.sh.size)] == s.m.sh.slots[SlotFor(k, s.m.sh.size)]
    ensures Spares(s.m.sh, s.g, s'.m.sh, s'.g, s.m.pcs[u], s.g.marks[u])
  {
    assert ThreadOk(s.m.sh, s.g, u, s.m.pcs[u], s.g.marks[u]);
  }

  lemma WriterKept(sh: Shared, sh': Shared, g: History, t: nat, pc: Pc, mark: Mark)
    requires sh.size >= 1 && |sh.slots| == sh.size
    requires pc.PWrite? && pc.i < |pc.objs| && ThreadOk(sh, g, t, pc, mark)
    requires sh' == sh.(slots := sh.slots[SlotFor(mark.head + pc.i, sh.size) := pc.objs[pc.i]])
    requires forall k :: mark.head <= k < mark.head + pc.i ==> SlotFor(k, sh.size) != SlotFor(mark.head + pc.i, sh.size)
    ensures ThreadOk(sh', g, t, PWrite(pc.objs, pc.head, pc.free, pc.i + 1), mark)
  {
  }

  /** Tiling carries over when thread t keeps its hold and no index moves. */
  lemma TilesKept(s: State, s': State, t: nat)
    requires Inv(s) && Shape(s') && t < |s.m.pcs|
    requires |s'.m.pcs| == |s.m.pcs| && s'.m.pcs == s.m.pcs[t := s'.m.pcs[t]] && s'.g == s.g
    requires SameHold(s.m.pcs[t], s.g.marks[t], s'.m.pcs[t], s'.g.marks[t])
    ensures Tiled(s')
  {
    forall k | s'.g.pt <= k < s'.g.ph
      ensures ProdOwner(s', k)
    {
      assert ProdOwner(s, k);
    }
    forall k | s'.g.ct <= k < s'.g.ch
      ensures ConsOwner(s', k)
    {
      assert ConsOwner(s, k);
    }
  }

  // ----- publishing

  lemma StepPPublish(s: State, t: nat, call: Call)
    requires Inv(s) && Allowed(s, t, call) && s.m.pcs[t].PPublish?
    ensures Inv(Next(s, t, call))
  {
    var pc := s.m.pcs[t];
    assert ThreadOk(s.m.sh, s.g, t, pc, s.g.marks[t]);
    PublishStep(s, Next(s, t, call), t, call);
  }

  lemma PublishStep(s: State, s': State, t: nat, call: Call)
    requires Inv(s) && Allowed(s, t, call) && s.m.pcs[t].PPublish?
    requires ThreadOk(s.m.sh, s.g, t, s.m.pcs[t], s.g.marks[t])
    requires var pc := s.m.pcs[t];
             && s'.m == Machine(s.m.sh.(prodTail := Wrap(pc.head + |pc.objs|)), s.m.pcs[t := Idle(pc.status, [])])
             && s'.g == s.g.(pt := s.g.pt + |pc.objs|, sent := s.g.sent + pc.objs)
    ensures Inv(s')
  {
    var pc := s.m.pcs[t];
    WrapAdd(s.g.pt, |pc.objs|);
    assert s.g.hist[..s'.g.pt] == s.g.hist[..s.g.pt] + pc.objs;
    forall u | 0 <= u < |s.m.pcs| && u != t
      ensures Spares(s.m.sh, s.g, s'.m.sh, s'.g, s.m.pcs[u], s.g.marks[u])
    {
      PublishSpares(s, s', t, u);
    }
    assert s'.g.marks == s.g.marks[t := s'.g.marks[t]];
    OthersKept(s, s', t);
    SingleKept(s, s', t, call);
    forall k | s'.g.pt <= k < s.g.ph
      ensures s.g.powner[k] != t
    {
      assert ProdOwner(s, k);
    }
    forall k | s.g.ct <= k < s.g.ch
      ensures s.g.cowner[k] != t
    {
      assert ConsOwner(s, k);
    }
  }

  lemma StepCPublish(s: State, t: nat, call: Call)
    requires Inv(s) && Allowed(s, t, call) && s.m.pcs[t].CPublish?
    ensures Inv(Next(s, t, call))
  {
    var pc := s.m.pcs[t];
    assert ThreadOk(s.m.sh, s.g, t, pc, s.g.marks[t]);
    FreeStep(s, Next(s, t, call), t, call);
  }

  lemma FreeStep(s: State, s': State, t: nat, call: Call)
    requires Inv(s) && Allowed(s, t, call) && s.m.pcs[t].CPublish?
    requires ThreadOk(s.m.sh, s.g, t, s.m.pcs[t], s.g.marks[t])
    requires var pc := s.m.pcs[t];
             && s'.m == Machine(s.m.sh.(consTail := Wrap(pc.head + pc.n)), s.m.pcs[t := Idle(0, pc.buf)])
             && s'.g == s.g.(ct := s.g.ct + pc.n, received := s.g.received + pc.buf)
    ensures Inv(s')
  {
    var pc := s.m.pcs[t];
    WrapAdd(s.g.ct, pc.n);
    assert s.g.hist[..s'.g.ct] == s.g.hist[..s.g.ct] + pc.buf;
    forall u | 0 <= u < |s.m.pcs| && u != t
      ensures Spares(s.m.sh, s.g, s'.m.sh, s'.g, s.m.pcs[u], s.g.marks[u])
    {
      FreeSpares(s, s', t, u);
    }
    assert s'.g.marks == s.g.marks[t := s'.g.marks[t]];
    OthersKept(s, s', t);
    SingleKept(s, s', t, call);
    forall k | s.g.pt <= k < s.g.ph
      ensures s.g.powner[k] != t
    {
      assert ProdOwner(s, k);
    }
    forall k | s'.g.ct <= k < s.g.ch
      ensures s.g.cowner[k] != t
    {
      assert ConsOwner(s, k);
    }
  }

  // Other reservations start behind the published range.
  lemma PublishSpares(s: State, s': State, t: nat, u: nat)
    requires Inv(s) && t < |s.m.pcs| && u < |s.m.pcs| && u != t && s.m.pcs[t].PPublish?
    requires s'.m.sh == s.m.sh.(prodTail := s'.m.sh.prodTail)
    requires s'.g == s.g.(pt := s.g.pt + |s.m.pcs[t].objs|, sent := s'.g.sent)
    ensures Spares(s.m.sh, s.g, s'.m.sh, s'.g, s.m.pcs[u], s.g.marks[u])
  {
    assert ThreadOk(s.m.sh, s.g, t, s.m.pcs[t], s.g.marks[t]);
    assert ThreadOk(s.m.sh, s.g, u, s.m.pcs[u], s.g.marks[u]);
    if ProdReserved(s.m.pcs[u]) {
      assert s.g.powner[s.g.marks[u].head] == u;
      assert s.g.powner[s.g.pt] == t;
    }
  }

  lemma FreeSpares(s: State, s': State, t: nat, u: nat)
    requires Inv(s) && t < |s.m.pcs| && u < |s.m.pcs| && u != t && s.m.pcs[t].CPublish?
    requires s'.m.sh == s.m.sh.(consTail := s'.m.sh.consTail)
    requires s'.g == s.g.(ct := s.g.ct + s.m.pcs[t].n, received := s'.g.received)
    ensures Spares(s.m.sh, s.g, s'.m.sh, s'.g, s.m.pcs[u], s.g.marks[u])
  {
    assert ThreadOk(s.m.sh, s.g, t, s.m.pcs[t], s.g.marks[t]);
    assert ThreadOk(s.m.sh, s.g, u, s.m.pcs[u], s.g.marks[u]);
    if ConsReserved(s.m.pcs[u]) {
      assert s.g.cowner[s.g.marks[u].head] == u;
      assert s.g.cowner[s.g.ct] == t;
    }
  }

  // ----- every step

  lemma StepKeepsInv(s: State, t: nat, call: Call)
    requires Inv(s) && Allowed(s, t, call)
    ensures Inv(Next(s, t, call))
  {
    match s.m.pcs[t]
    case Idle(_, _) => StepIdle(s, t, call);
    case PReadHead(_) => StepPReadHead(s, t, call);
    case PReadTail(_, _) => StepPReadTail(s, t, call);
    case PReserve(_, _, _) => StepPReserve(s, t, call);
    case PWrite(_, _, _, _) => StepPWrite(s, t, call);
    case PReadMark(_, _, _) => StepPReadMark(s, t, call);
    case PAwait(_, _, _) => StepAwait(s, t, call);
    case PPublish(_, _, _) => StepPPublish(s, t, call);
    case CReadHead(_) => StepCReadHead(s, t, call);
    case CReadTail(_, _) => StepCReadTail(s, t, call);
    case CReserve(_, _) => StepCReserve(s, t, call);
    case CRead(_, _, _) => StepCRead(s, t, call);
    case CAwait(_, _, _) => StepAwait(s, t, call);
    case CPublish(_, _, _) => StepCPublish(s, t, call);
  }
}
