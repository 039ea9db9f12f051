/**
  The queries of the ring while other threads move: prod.tail is read first, cons.tail later.
 */
module RingMotion {
  import opened Words
  import opened RingInvariant
  import opened RingSafety
  import opened RingRuns
  import opened RingObservers

  lemma {:induction false} TailsGrow(s: State, moves: seq<Move>)
    requires Inv(s) && AllowedRun(s, moves)
    ensures Inv(Exec(s, moves)) && s.g.pt <= Exec(s, moves).g.pt && s.g.ct <= Exec(s, moves).g.ct
    decreases |moves|
  {
    if moves != [] {
      StepKeepsInv(s, moves[0].t, moves[0].call);
      TailGrows(s, moves[0].t, moves[0].call);
      TailsGrow(Next(s, moves[0].t, moves[0].call), moves[1..]);
    }
  }

  lemma TailGrows(s: State, t: nat, call: RingMachine.Call)
    requires Inv(s) && Allowed(s, t, call)
    ensures s.g.pt <= Next(s, t, call).g.pt && s.g.ct <= Next(s, t, call).g.ct
  {
  }

  // What the two reads see.
  lemma TailsSeen(s: State, moves: seq<Move>)
    requires Inv(s) && AllowedRun(s, moves)
    ensures Seen(s, Exec(s, moves)) && IsRingSize(s.m.sh.size)
  {
    TailsGrow(s, moves);
    RingSizeBounds(s.m.sh.size);
  }

  // ----- two tails of two moments

  // With pt - ct below the size, the count modulo the size is exact iff it is not negative.
  lemma CountOfTwo(pt: nat, ct: nat, size: int)
    requires IsRingSize(size) && size >= 1 && pt - ct < size
    ensures CountWord(Wrap(pt), Wrap(ct), size) == (pt - ct) % size
    ensures CountWord(Wrap(pt), Wrap(ct), size) == pt - ct <==> ct <= pt
  {
    CountIsMod(pt, ct, size);
    if ct <= pt {
      DivModUnique(pt - ct, size, 0, pt - ct);
    }
  }

  lemma FreeOfTwo(pt: nat, ct: nat, size: int)
    requires IsRingSize(size) && size >= 1 && pt - ct < size
    ensures FreeCountWord(Wrap(pt), Wrap(ct), size) == (ct - pt - 1) % size
    ensures FreeCountWord(Wrap(pt), Wrap(ct), size) == size - 1 - (pt - ct) <==> ct <= pt
  {
    FreeCountIsMod(pt, ct, size);
    if ct <= pt {
      DivModUnique(ct - pt - 1, size, -1, size + ct - pt - 1);
    }
  }

  lemma EmptyOfTwo(pt: nat, ct: nat)
    ensures EmptyWord(Wrap(pt), Wrap(ct)) <==> (ct - pt) % TWO32 == 0
    ensures -TWO32 < ct - pt < TWO32 ==> (EmptyWord(Wrap(pt), Wrap(ct)) <==> pt == ct)
  {
    SameWord(pt, ct);
    if pt <= ct < pt + TWO32 {
      WrapInjective(pt, ct);
    } else if ct <= pt < ct + TWO32 {
      WrapInjective(ct, pt);
    }
  }

  /** The number of published objects whose slots are not free yet. */
  function Held(s: State): int {
    s.g.pt - s.g.ct
  }

  /** What the two tails of a count or of an emptiness test are, one of each state. */
  predicate Seen(s: State, end: State) {
    && s.m.sh.prodTail == Wrap(s.g.pt) && end.m.sh.consTail == Wrap(end.g.ct)
    && s.g.ct <= end.g.ct && s.g.pt <= end.g.pt && s.g.pt - s.g.ct < s.m.sh.size < TWO32 && s.m.sh.size >= 1
  }

  /**
    The count is exact modulo the size, and plainly iff consumers have not passed the producer
    tail that was read; it is then at most the true count at either moment.
   */
  predicate CountRight(s: State, end: State)
    requires s.m.sh.size >= 1
  {
    var size, between := s.m.sh.size, s.g.pt - end.g.ct;
    var count := CountWord(s.m.sh.prodTail, end.m.sh.consTail, size);
    && count == between % size && (count == between <==> between >= 0)
    && between <= Held(s) && between <= Held(end)
  }

  /** The same for the free count, which is then at least the true one. */
  predicate FreeCountRight(s: State, end: State)
    requires s.m.sh.size >= 1
  {
    var size, between := s.m.sh.size, s.g.pt - end.g.ct;
    var free := FreeCountWord(s.m.sh.prodTail, end.m.sh.consTail, size);
    && free == (-between - 1) % size && (free == size - 1 - between <==> between >= 0)
    && size - 1 - between >= size - 1 - Held(s) && size - 1 - between >= size - 1 - Held(end)
  }

  /**
    The ring is called empty iff consumers have reached exactly the producer tail that was read,
    or passed it by a multiple of 2^32.
   */
  predicate EmptyRight(s: State, end: State) {
    var yes, passed := EmptyWord(s.m.sh.prodTail, end.m.sh.consTail), end.g.ct - s.g.pt;
    && (yes <==> passed % TWO32 == 0) && (passed < TWO32 ==> (yes <==> passed == 0))
  }

  lemma SeenCount(s: State, end: State)
    requires Seen(s, end) && IsRingSize(s.m.sh.size)
    ensures CountRight(s, end)
  {
    CountOfTwo(s.g.pt, end.g.ct, s.m.sh.size);
  }

  lemma SeenFree(s: State, end: State)
    requires Seen(s, end) && IsRingSize(s.m.sh.size)
    ensures FreeCountRight(s, end)
  {
    FreeOfTwo(s.g.pt, end.g.ct, s.m.sh.size);
  }

  lemma SeenEmpty(s: State, end: State)
    requires Seen(s, end)
    ensures EmptyRight(s, end)
  {
    EmptyOfTwo(s.g.pt, end.g.ct);
  }

  /** rte_ring_count, with any steps of any threads between its reads. */
  lemma CountInMotion(s: State, moves: seq<Move>)
    requires Inv(s) && AllowedRun(s, moves)
    ensures CountRight(s, Exec(s, moves))
  {
    TailsSeen(s, moves);
    SeenCount(s, Exec(s, moves));
  }

  /** rte_ring_free_count */
  lemma FreeCountInMotion(s: State, moves: seq<Move>)
    requires Inv(s) && AllowedRun(s, moves)
    ensures FreeCountRight(s, Exec(s, moves))
  {
    TailsSeen(s, moves);
    SeenFree(s, Exec(s, moves));
  }

  /** rte_ring_empty */
  lemma EmptyInMotion(s: State, moves: seq<Move>)
    requires Inv(s) && AllowedRun(s, moves)
    ensures EmptyRight(s, Exec(s, moves))
  {
    TailsSeen(s, moves);
    SeenEmpty(s, Exec(s, moves));
  }
}
