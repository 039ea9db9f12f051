/**
  What the invariant of the ring machine means to its users: exclusive slots, justified
  refusals, return codes.
 */
module RingProperties {
  import opened Words
  import opened RingMachine
  import opened RingInvariant
  import opened RingSafety
  import opened RingRuns

  // ----- exclusive slots

  /** Unpublished reservations tile [prod.tail, prod.head), unfinished claims [cons.tail, cons.head). */
  lemma HoldersExact(s: State, t: nat, k: nat)
    requires Inv(s) && t < |s.m.pcs|
    ensures ProdHolds(s.m.pcs[t], s.g.marks[t], k) <==> s.g.pt <= k < s.g.ph && s.g.powner[k] == t
    ensures ConsHolds(s.m.pcs[t], s.g.marks[t], k) <==> s.g.ct <= k < s.g.ch && s.g.cowner[k] == t
  {
    assert ThreadOk(s.m.sh, s.g, t, s.m.pcs[t], s.g.marks[t]);
    if s.g.pt <= k < s.g.ph {
      assert ProdOwner(s, k);
    }
    if s.g.ct <= k < s.g.ch {
      assert ConsOwner(s, k);
    }
  }

  predicate Holds(s: State, t: nat, k: nat)
    requires t < |s.m.pcs| == |s.g.marks|
  {
    ProdHolds(s.m.pcs[t], s.g.marks[t], k) || ConsHolds(s.m.pcs[t], s.g.marks[t], k)
  }

  /** No two threads are ever inside the same slot, and no thread holds one slot twice. */
  lemma ExclusiveSlots(s: State, t: nat, j: nat, u: nat, k: nat)
    requires Inv(s) && t < |s.m.pcs| && u < |s.m.pcs|
    requires Holds(s, t, j) && Holds(s, u, k) && (t != u || j != k)
    ensures SlotFor(j, s.m.sh.size) != SlotFor(k, s.m.sh.size)
  {
    HoldersExact(s, t, j);
    HoldersExact(s, u, k);
    LiveSlotsApart(s.g, s.m.sh.size, k);
  }

  // ----- failures

  /** The room check, for a bulk of `n`. */
  predicate Refuses(n: int, word: int) {
    n > word
  }

  /** No bulk count is refused while that much is there. */
  ghost predicate RefusalsRight(word: int, room: int) {
    forall n: int :: Refuses(n, word) ==> n > room
  }

  /** The check of a head read `late` positions ago is right iff its word did not wrap once more. */
  lemma RefusalsRightIff(room: nat, late: nat)
    requires room < TWO32
    ensures RefusalsRight(Wrap(room + late), room) <==> room + Wrap(late) < TWO32
  {
    var word := Wrap(room + late);
    WrapAdd(late, room);
    if room + Wrap(late) >= TWO32 {
      DivModUnique(room + Wrap(late), TWO32, 1, room + Wrap(late) - TWO32);
      assert Refuses(room, word) && !(room > room);
    } else {
      DivModUnique(room + Wrap(late), TWO32, 0, room + Wrap(late));
    }
  }

  /** Slots no producer has reserved. */
  function Room(s: State): int {
    s.m.sh.size - 1 - (s.g.ph - s.g.ct)
  }

  /** Published objects no consumer has claimed. */
  function Available(s: State): int {
    s.g.pt - s.g.ch
  }

  lemma RoomSeen(s: State, t: nat)
    requires Inv(s) && t < |s.m.pcs| && s.m.pcs[t].PReadTail?
    ensures s.g.marks[t].head <= s.g.ph && 0 <= Room(s) < s.m.sh.size < TWO32
    ensures Wrap(s.m.sh.size - 1 + s.m.sh.consTail - s.m.pcs[t].head) == Wrap(Room(s) + (s.g.ph - s.g.marks[t].head))
  {
    assert ThreadOk(s.m.sh, s.g, t, s.m.pcs[t], s.g.marks[t]);
    RoomWord(s.m.sh.size, s.g.ct, s.g.marks[t].head);
  }

  lemma AvailableSeen(s: State, t: nat)
    requires Inv(s) && t < |s.m.pcs| && s.m.pcs[t].CReadTail?
    ensures s.g.marks[t].head <= s.g.ch && 0 <= Available(s) < s.m.sh.size < TWO32
    ensures Wrap(s.m.sh.prodTail - s.m.pcs[t].head) == Wrap(Available(s) + (s.g.ch - s.g.marks[t].head))
  {
    assert ThreadOk(s.m.sh, s.g, t, s.m.pcs[t], s.g.marks[t]);
    WrapSub(0, s.g.pt, s.g.marks[t].head);
  }

  // The step that reads the other tail refuses or goes on, and changes nothing shared.
  lemma RoomCheck(s: State, t: nat, call: Call)
    requires Sized(s) && t < |s.m.pcs| && s.m.pcs[t].PReadTail?
    ensures Next(s, t, call).m.sh == s.m.sh
    ensures Next(s, t, call).m.pcs[t].Idle? <==>
            |s.m.pcs[t].objs| > Wrap(s.m.sh.size - 1 + s.m.sh.consTail - s.m.pcs[t].head)
  {
  }

  lemma EntriesCheck(s: State, t: nat, call: Call)
    requires Sized(s) && t < |s.m.pcs| && s.m.pcs[t].CReadTail?
    ensures Next(s, t, call).m.sh == s.m.sh
    ensures Next(s, t, call).m.pcs[t].Idle? <==> s.m.pcs[t].n > Wrap(s.m.sh.prodTail - s.m.pcs[t].head)
  {
  }

  // What a refusal of n says, when the room was `room` and the head read `late` positions old.
  lemma RefusalMeaning(room: nat, late: nat, size: int, n: int)
    requires room < size < TWO32
    ensures RefusalsRight(Wrap(room + late), room) <==> room + Wrap(late) < TWO32
    ensures n > Wrap(room + late) && Wrap(late) < TWO32 - size ==> n > room
  {
    RefusalsRightIff(room, late);
    if Wrap(late) < TWO32 - size {
      assert RefusalsRight(Wrap(room + late), room);
      assert n > Wrap(room + late) ==> Refuses(n, Wrap(room + late));
    }
  }

  /**
    An enqueue is refused at its read of cons.tail iff it asks for more than the wrapped room.
    Refusals of all bulk counts are justified by the room at that instant iff the room and the
    reservations made since its read of prod.head, as words, do not wrap.
   */
  lemma EnqueueRefusal(s: State, t: nat, call: Call)
    requires Inv(s) && Allowed(s, t, call) && s.m.pcs[t].PReadTail?
    ensures var late, n := s.g.ph - s.g.marks[t].head, |s.m.pcs[t].objs|;
            && late >= 0 && Room(s) >= 0
            && (Next(s, t, call).m.pcs[t].Idle? <==> n > Wrap(Room(s) + late))
            && (RefusalsRight(Wrap(Room(s) + late), Room(s)) <==> Room(s) + Wrap(late) < TWO32)
            && (Next(s, t, call).m.pcs[t].Idle? && Wrap(late) < TWO32 - s.m.sh.size ==> n > Room(s))
            && (Next(s, t, call).m.pcs[t].Idle? ==> Next(s, t, call).m.sh == s.m.sh)
  {
    RoomSeen(s, t);
    RoomCheck(s, t, call);
    RefusalMeaning(Room(s), s.g.ph - s.g.marks[t].head, s.m.sh.size, |s.m.pcs[t].objs|);
  }

  /** The same for a dequeue, with the published objects nobody has claimed. */
  lemma DequeueRefusal(s: State, t: nat, call: Call)
    requires Inv(s) && Allowed(s, t, call) && s.m.pcs[t].CReadTail?
    ensures var late, n := s.g.ch - s.g.marks[t].head, s.m.pcs[t].n;
            && late >= 0 && Available(s) >= 0
            && (Next(s, t, call).m.pcs[t].Idle? <==> n > Wrap(Available(s) + late))
            && (RefusalsRight(Wrap(Available(s) + late), Available(s)) <==> Available(s) + Wrap(late) < TWO32)
            && (Next(s, t, call).m.pcs[t].Idle? && Wrap(late) < TWO32 - s.m.sh.size ==> n > Available(s))
            && (Next(s, t, call).m.pcs[t].Idle? ==> Next(s, t, call).m.sh == s.m.sh)
  {
    AvailableSeen(s, t);
    EntriesCheck(s, t, call);
    RefusalMeaning(Available(s), s.g.ch - s.g.marks[t].head, s.m.sh.size, s.m.pcs[t].n);
  }

  // ----- return codes

  /** The status of a stored bulk is -1 iff it leaves at least `watermark` positions in use. */
  lemma StatusMeaning(s: State, t: nat, call: Call)
    requires Inv(s) && Allowed(s, t, call) && s.m.pcs[t].PReadMark?
    ensures var pc, mark := s.m.pcs[t], s.g.marks[t];
            && mark.tail <= s.g.ct
            && Wrap(s.m.sh.size - pc.free + |pc.objs|) == s.m.sh.size - pc.free + |pc.objs|
            && Next(s, t, call).m.pcs[t].PAwait?
            && (Next(s, t, call).m.pcs[t].status == -1 <==> mark.head + |pc.objs| - mark.tail >= s.m.sh.watermark)
  {
    assert ThreadOk(s.m.sh, s.g, t, s.m.pcs[t], s.g.marks[t]);
    UsedWord(s.m.sh.size, |s.m.pcs[t].objs|, s.m.pcs[t].free, s.g.marks[t].head, s.g.marks[t].tail);
  }

  /**
    An enqueue returns either by refusing, with -1 and the queue as it was, or by publishing,
    with the status of its watermark test and all its objects appended; with the default
    watermark it returns 0 iff it published.
   */
  lemma EnqueueReturn(s: State, t: nat, call: Call)
    requires Inv(s) && Allowed(s, t, call)
    requires IsProducing(s.m.pcs[t]) && Next(s, t, call).m.pcs[t].Idle?
    ensures Inv(Next(s, t, call))
    ensures var pc, s' := s.m.pcs[t], Next(s, t, call);
            && (pc.PReadTail? || pc.PPublish?)
            && Content(s'.g) == Content(s.g) + (if pc.PPublish? then pc.objs else [])
            && (pc.PReadTail? ==> s'.m.pcs[t].ret == -1)
            && (pc.PPublish? ==> s'.m.pcs[t].ret == pc.status && (pc.status == 0 || pc.status == -1))
            && s'.m.pcs[t].out == []
            && (s.g.default ==> (s'.m.pcs[t].ret == 0 <==> pc.PPublish?))
  {
    StepKeepsInv(s, t, call);
    assert ThreadOk(s.m.sh, s.g, t, s.m.pcs[t], s.g.marks[t]);
    if s.m.pcs[t].PPublish? {
      PublishRefines(s, t, call);
    } else {
      assert Content(s.g) + [] == Content(s.g);
    }
  }

  /** Between the watermark test and the return the status and the objects stay as they are. */
  lemma StatusKept(s: State, t: nat, call: Call)
    requires Sized(s) && t < |s.m.pcs| && s.m.pcs[t].PAwait?
    ensures var pc, next := s.m.pcs[t], Next(s, t, call).m.pcs[t];
            (next.PAwait? || next.PPublish?) && next.objs == pc.objs && next.head == pc.head && next.status == pc.status
  {
  }

  /**
    A dequeue returns either by refusing, with -1, no objects and the queue as it was, or by
    storing the tail, with 0 and the objects it has copied; it returns 0 iff it took any.
   */
  lemma DequeueReturn(s: State, t: nat, call: Call)
    requires Inv(s) && Allowed(s, t, call)
    requires IsConsuming(s.m.pcs[t]) && Next(s, t, call).m.pcs[t].Idle?
    ensures Inv(Next(s, t, call))
    ensures var pc, s' := s.m.pcs[t], Next(s, t, call);
            && (pc.CReadTail? || pc.CPublish?)
            && Content(s'.g) == Content(s.g)
            && (s'.m.pcs[t].ret == 0 <==> pc.CPublish?)
            && (pc.CReadTail? ==> s'.m.pcs[t].ret == -1 && s'.m.pcs[t].out == [])
            && (pc.CPublish? ==> s'.m.pcs[t].out == pc.buf && |pc.buf| == pc.n)
  {
    StepKeepsInv(s, t, call);
    assert ThreadOk(s.m.sh, s.g, t, s.m.pcs[t], s.g.marks[t]);
  }

  // ----- the watermark

  /**
    rte_ring_set_water_mark in the machine: counts from the size on are refused and change
    nothing; zero sets the mark to the size, any other count to itself.
   */
  lemma MarkSet(s: State, t: nat, count: u32)
    requires Inv(s) && t < |s.m.pcs| && s.m.pcs[t].Idle?
    ensures var sh, s' := s.m.sh, Next(s, t, SetWaterMark(count));
            && (count >= sh.size ==> s'.m.sh == sh && s'.m.pcs[t] == Idle(-1, []))
            && (count == 0 ==> s'.m.sh == sh.(watermark := sh.size) && s'.m.pcs[t] == Idle(0, []))
            && (0 < count < sh.size ==> s'.m.sh == sh.(watermark := count) && s'.m.pcs[t] == Idle(0, []))
  {
  }

  /** A mark at the size is out of reach: no stored bulk returns -1 on its account. */
  lemma MarkDisabled(s: State, t: nat, call: Call)
    requires Inv(s) && Allowed(s, t, call) && s.m.pcs[t].PReadMark? && s.m.sh.watermark == s.m.sh.size
    ensures Next(s, t, call).m.pcs[t].PAwait? && Next(s, t, call).m.pcs[t].status == 0
  {
    StatusMeaning(s, t, call);
    assert ThreadOk(s.m.sh, s.g, t, s.m.pcs[t], s.g.marks[t]);
  }

  /** The watermark stays at its default unless someone sets a smaller one. */
  lemma {:induction false} DefaultKept(s: State, moves: seq<Move>)
    requires Inv(s) && AllowedRun(s, moves) && s.g.default
    requires forall i :: 0 <= i < |moves| ==> moves[i].call.SetWaterMark? ==> moves[i].call.count == 0
    ensures Inv(Exec(s, moves)) && Exec(s, moves).g.default
    decreases |moves|
  {
    if moves != [] {
      StepKeepsInv(s, moves[0].t, moves[0].call);
      DefaultKept(Next(s, moves[0].t, moves[0].call), moves[1..]);
    }
  }
}
