/**
  The ring as an object: creation, watermark, the single-producer and single-consumer bulk
  operations and the queries, each against the queue of objects the ring holds.
 */
module RingObject {
  import opened Words
  import opened RingObservers

  /** The objects between two counters, read off the slots. */
  function QueueOf(slots: seq<Obj>, lo: nat, hi: nat): (q: seq<Obj>)
    requires lo <= hi && |slots| >= 1
    ensures |q| == hi - lo
  {
    seq(hi - lo, i requires 0 <= i < hi - lo => slots[SlotFor(lo + i, |slots|)])
  }

  /** One more object behind a queue that leaves room for it. */
  lemma QueuePut(slots: seq<Obj>, lo: nat, hi: nat, x: Obj)
    requires lo <= hi < lo + |slots|
    ensures QueueOf(slots[SlotFor(hi, |slots|) := x], lo, hi + 1) == QueueOf(slots, lo, hi) + [x]
  {
    var after := slots[SlotFor(hi, |slots|) := x];
    forall i | 0 <= i < hi + 1 - lo
      ensures QueueOf(after, lo, hi + 1)[i] == (QueueOf(slots, lo, hi) + [x])[i]
    {
      if lo + i < hi {
        SlotsDiffer(lo + i, hi, |slots|);
      }
    }
  }

  // One turn of the copy loop, behind a queue q.
  lemma PutNext(slots: seq<Obj>, lo: nat, hi: nat, i: nat, q: seq<Obj>, objs: seq<Obj>)
    requires lo <= hi && i < |objs| && hi + i < lo + |slots|
    requires QueueOf(slots, lo, hi + i) == q + objs[..i]
    ensures QueueOf(slots[SlotFor(hi + i, |slots|) := objs[i]], lo, hi + (i + 1)) == q + objs[..i + 1]
  {
    QueuePut(slots, lo, hi + i, objs[i]);
    assert q + objs[..i] + [objs[i]] == q + objs[..i + 1];
  }

  lemma QueueNext(slots: seq<Obj>, lo: nat, hi: nat)
    requires lo <= hi && |slots| >= 1
    ensures QueueOf(slots, lo, hi + 1) == QueueOf(slots, lo, hi) + [slots[SlotFor(hi, |slots|)]]
  {
  }

  /** The first n objects of a queue, and the others. */
  lemma QueueSplit(slots: seq<Obj>, lo: nat, n: nat, hi: nat)
    requires lo + n <= hi && |slots| >= 1
    ensures QueueOf(slots, lo, hi)[..n] == QueueOf(slots, lo, lo + n)
    ensures QueueOf(slots, lo, hi)[n..] == QueueOf(slots, lo + n, hi)
  {
    forall i | 0 <= i < hi - lo - n
      ensures QueueOf(slots, lo, hi)[n..][i] == QueueOf(slots, lo + n, hi)[i]
    {
      assert lo + (n + i) == lo + n + i;
    }
  }

  class Ring {
    const size: nat
    var watermark: u32
    var prodHead: u32
    var prodTail: u32
    var consHead: u32
    var consTail: u32
    const slots: array<Obj>

    // The two free-running counters behind the indices.
    ghost var pt: nat
    ghost var ct: nat

    ghost predicate Valid()
      reads this, slots
    {
      && IsRingSize(size) && 1 <= size && slots.Length == size && watermark <= size
      && prodHead == prodTail == Wrap(pt) && consHead == consTail == Wrap(ct)
      && ct <= pt <= ct + size - 1
    }

    /** The queue: oldest object first. */
    ghost function Contents(): (q: seq<Obj>)
      requires Valid()
      reads this, slots
      ensures |q| == pt - ct
    {
      QueueOf(slots[..], ct, pt)
    }

    constructor Fresh(count: u32)
      ensures size == count && slots.Length == count && watermark == count && fresh(slots)
      ensures prodHead == prodTail == consHead == consTail == 0
      ensures IsRingSize(count) ==> Valid() && Contents() == []
    {
      size := count;
      slots := new Obj[count];
      watermark := count;
      prodHead, prodTail, consHead, consTail := 0, 0, 0, 0;
      pt, ct := 0, 0;
      new;
      if IsRingSize(count) {
        RingSizeBounds(count);
      }
    }

    /**
      rte_ring_create: no ring for a count that is neither a power of two nor zero.  With the
      count zero the test passes too, and what comes out has no slots and is no valid ring.
     */
    static method Create(count: u32) returns (r: Ring?)
      ensures r == null <==> count != 0 && !IsRingSize(count)
      ensures r != null ==> fresh(r) && fresh(r.slots)
      ensures r != null ==> r.size == count && r.slots.Length == count && r.watermark == count
      ensures r != null ==> r.prodHead == r.prodTail == r.consHead == r.consTail == 0
      ensures r != null && count != 0 ==> r.Valid() && r.Contents() == []
      ensures r != null && count == 0 ==> !r.Valid()
    {
      PowerOfTwoTestMeaning(count);
      if !PowerOfTwoTest(count) {
        return null;
      }
      r := new Ring.Fresh(count);
    }

    /** rte_ring_set_water_mark: counts below the size only; zero disables the mark. */
    method SetWaterMark(count: u32) returns (ret: int)
      requires Valid()
      modifies this`watermark
      ensures Valid() && Contents() == old(Contents())
      ensures ret == if count < size then 0 else -1
      ensures watermark == if count >= size then old(watermark) else if count == 0 then size else count
    {
      RingSizeBounds(size);
      if count >= size {
        return -1;
      }
      watermark := if count == 0 then size else count;
      return 0;
    }

    /**
      rte_ring_sp_enqueue_bulk: all objects or none, behind the ones already there.  -1 means
      "no room" or "stored, and at least `watermark` objects are now held".
     */
    method SpEnqueueBulk(objs: seq<Obj>) returns (ret: int)
      requires Valid() && 1 <= |objs| < TWO32
      modifies this`prodHead, this`prodTail, this`pt, slots
      ensures Valid() && watermark == old(watermark)
      ensures |objs| <= size - 1 - |old(Contents())| ==>
                Contents() == old(Contents()) + objs && ret == (if |Contents()| >= watermark then -1 else 0)
      ensures |objs| > size - 1 - |old(Contents())| ==>
                Contents() == old(Contents()) && slots[..] == old(slots[..]) && ret == -1
    {
      RingSizeBounds(size);
      EnqueueWords(pt, ct, size, |objs|);
      var free := Wrap(size - 1 + consTail - prodHead);
      if |objs| > free {
        return -1;
      }
      var head, next := prodHead, Wrap(prodHead + |objs|);
      prodHead := next;
      CopyIn(head, objs, ct, pt);
      ret := if Wrap(size - free + |objs|) > watermark then -1 else 0;
      prodTail := next;
      pt := pt + |objs|;
    }

    // (head + i) & mask is the slot of counter c + i, when head is the index of counter c.
    method SlotAt(head: u32, i: nat, ghost c: nat) returns (k: nat)
      requires IsRingSize(size) && 1 <= size && head == Wrap(c)
      ensures k == SlotFor(c + i, size)
    {
      SlotIndex(c, i, size);
      SlotForIsMod(c + i, size);
      k := And(Wrap(head + i), size - 1);
    }

    // The copy loop of an enqueue at counter `hi`, while positions from `lo` on are in use.
    method CopyIn(head: u32, objs: seq<Obj>, ghost lo: nat, ghost hi: nat)
      requires IsRingSize(size) && 1 <= size == slots.Length && head == Wrap(hi)
      requires lo <= hi && hi + |objs| <= lo + size
      modifies slots
      ensures QueueOf(slots[..], lo, hi + |objs|) == QueueOf(old(slots[..]), lo, hi) + objs
    {
      var i := 0;
      while i < |objs|
        invariant 0 <= i <= |objs|
        invariant QueueOf(slots[..], lo, hi + i) == QueueOf(old(slots[..]), lo, hi) + objs[..i]
      {
        PutNext(slots[..], lo, hi, i, QueueOf(old(slots[..]), lo, hi), objs);
        var at := SlotAt(head, i, hi);
        ghost var before := slots[..];
        slots[at] := objs[i];
        assert slots[..] == before[at := objs[i]];
        i := i + 1;
      }
    }

    /**
      rte_ring_sc_dequeue_bulk: the `n` oldest objects, in order, into the front of `table`; or
      nothing at all.
     */
    method ScDequeueBulk(table: array<Obj>, n: nat) returns (ret: int)
      requires Valid() && 1 <= n < TWO32 && n <= table.Length && table != slots
      modifies this`consHead, this`consTail, this`ct, table
      ensures Valid()
      ensures n <= |old(Contents())| ==>
                && ret == 0
                && table[..n] == old(Contents())[..n] && table[n..] == old(table[n..])
                && Contents() == old(Contents())[n..]
      ensures n > |old(Contents())| ==>
                ret == -1 && Contents() == old(Contents()) && table[..] == old(table[..])
    {
      RingSizeBounds(size);
      EntriesThere(pt, ct, size);
      var entries := Wrap(prodTail - consHead);
      if n > entries {
        return -1;
      }
      var head, next := consHead, Wrap(consHead + n);
      WrapAdd(ct, n);
      consHead := next;
      CopyOut(head, table, n, ct);
      consTail := next;
      QueueSplit(slots[..], ct, n, pt);
      ct := ct + n;
      ret := 0;
    }

    // The copy loop of a dequeue at counter `lo`.
    method CopyOut(head: u32, table: array<Obj>, n: nat, ghost lo: nat)
      requires IsRingSize(size) && 1 <= size == slots.Length && head == Wrap(lo)
      requires n <= table.Length && table != slots
      modifies table
      ensures table[..n] == QueueOf(slots[..], lo, lo + n) && table[n..] == old(table[n..])
    {
      var i := 0;
      while i < n
        invariant 0 <= i <= n
        invariant table[..i] == QueueOf(slots[..], lo, lo + i) && table[n..] == old(table[n..])
      {
        QueueNext(slots[..], lo, lo + i);
        var at := SlotAt(head, i, lo);
        table[i] := slots[at];
        i := i + 1;
      }
    }

    // ----- queries

    method Count() returns (r: int)
      requires Valid()
      ensures r == |Contents()|
    {
      ObserversExact(pt, ct, size);
      r := CountWord(prodTail, consTail, size);
    }

    method FreeCount() returns (r: int)
      requires Valid()
      ensures r == size - 1 - |Contents()|
    {
      ObserversExact(pt, ct, size);
      r := FreeCountWord(prodTail, consTail, size);
    }

    method IsEmpty() returns (r: bool)
      requires Valid()
      ensures r <==> Contents() == []
    {
      ObserversExact(pt, ct, size);
      r := EmptyWord(prodTail, consTail);
    }

    /** rte_ring_full answers for the queue only while the consumer index is below the size. */
    method IsFull() returns (r: bool)
      requires Valid()
      ensures r <==> consTail < size && |Contents()| == size - 1
    {
      FullTest(pt, ct, size);
      r := FullWord(prodTail, consTail, size);
    }
  }

  /** The 32-bit computations of an enqueue of n objects on a valid ring. */
  lemma EnqueueWords(pt: nat, ct: nat, size: int, n: nat)
    requires 1 <= size <= 0x8000_0000 && ct <= pt <= ct + size - 1
    ensures Wrap(size - 1 + Wrap(ct) - Wrap(pt)) == size - 1 - (pt - ct)
    ensures Wrap(Wrap(pt) + n) == Wrap(pt + n)
    ensures n <= size - 1 - (pt - ct) ==> Wrap(1 + (pt - ct) + n) == 1 + (pt - ct) + n
  {
    WrapSub(size - 1, ct, pt);
    WrapAdd(pt, n);
  }

  lemma EntriesThere(pt: nat, ct: nat, size: int)
    requires 1 <= size <= 0x8000_0000 && ct <= pt <= ct + size - 1
    ensures Wrap(Wrap(pt) - Wrap(ct)) == pt - ct
  {
    WrapSub(0, pt, ct);
  }
}
