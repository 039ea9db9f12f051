/**
  The read-only queries of rte_ring.h, on wrapped indices.
 */
module RingObservers {
  import opened Words

  function CountWord(prodTail: u32, consTail: u32, size: int): int
    requires size >= 1
  {
    And(Wrap(prodTail - consTail), size - 1)
  }

  function FreeCountWord(prodTail: u32, consTail: u32, size: int): int
    requires size >= 1
  {
    And(Wrap(consTail - prodTail - 1), size - 1)
  }

  predicate EmptyWord(prodTail: u32, consTail: u32) {
    consTail == prodTail
  }

  /** The masked producer index is compared with the consumer index as it stands, unmasked. */
  predicate FullWord(prodTail: u32, consTail: u32, size: int)
    requires size >= 1
  {
    And(Wrap(prodTail + 1), size - 1) == consTail
  }

  /** Count, free count and emptiness are exact for every pair of wrapped tails. */
  lemma ObserversExact(pt: nat, ct: nat, size: int)
    requires IsRingSize(size) && size >= 1 && ct <= pt <= ct + size - 1
    ensures CountWord(Wrap(pt), Wrap(ct), size) == pt - ct
    ensures FreeCountWord(Wrap(pt), Wrap(ct), size) == size - 1 - (pt - ct)
    ensures EmptyWord(Wrap(pt), Wrap(ct)) <==> pt == ct
  {
    CountExact(pt, ct, size);
    FreeCountExact(pt, ct, size);
    RingSizeBounds(size);
    WrapInjective(ct, pt);
  }

  lemma CountExact(pt: nat, ct: nat, size: int)
    requires IsRingSize(size) && size >= 1 && ct <= pt <= ct + size - 1
    ensures CountWord(Wrap(pt), Wrap(ct), size) == pt - ct
  {
    CountIsMod(pt, ct, size);
    DivModUnique(pt - ct, size, 0, pt - ct);
  }

  lemma FreeCountExact(pt: nat, ct: nat, size: int)
    requires IsRingSize(size) && size >= 1 && ct <= pt <= ct + size - 1
    ensures FreeCountWord(Wrap(pt), Wrap(ct), size) == size - 1 - (pt - ct)
  {
    FreeCountIsMod(pt, ct, size);
    DivModUnique(ct - pt - 1, size, -1, size + ct - pt - 1);
  }

  // Masking, on words.
  lemma FreeCountMasks(p: u32, c: u32, size: int)
    requires IsRingSize(size) && size >= 1
    ensures FreeCountWord(p, c, size) == Wrap(c - p - 1) % size
  {
    MaskIsMod(Wrap(c - p - 1), size);
  }

  lemma CountMasks(p: u32, c: u32, size: int)
    requires IsRingSize(size) && size >= 1
    ensures CountWord(p, c, size) == Wrap(p - c) % size
  {
    MaskIsMod(Wrap(p - c), size);
  }

  /** For any two counters the free count is the distance back from the producers, modulo the size. */
  lemma FreeCountIsMod(pt: nat, ct: nat, size: int)
    requires IsRingSize(size) && size >= 1
    ensures FreeCountWord(Wrap(pt), Wrap(ct), size) == (ct - pt - 1) % size
  {
    FreeCountMasks(Wrap(pt), Wrap(ct), size);
    BehindWord(pt, ct);
    WrapThenMod(ct - pt - 1, size);
  }

  lemma BehindWord(pt: nat, ct: nat)
    ensures Wrap(Wrap(ct) - Wrap(pt) - 1) == Wrap(ct - pt - 1)
  {
    WrapSub(-1, ct, pt);
  }

  lemma CountIsMod(pt: nat, ct: nat, size: int)
    requires IsRingSize(size) && size >= 1
    ensures CountWord(Wrap(pt), Wrap(ct), size) == (pt - ct) % size
  {
    CountMasks(Wrap(pt), Wrap(ct), size);
    WrapSub(0, pt, ct);
    WrapThenMod(pt - ct, size);
  }

  /**
    The fullness test agrees with a free count of zero exactly while the consumer index has not
    reached the size; from there on it always answers no.
   */
  lemma FullTest(pt: nat, ct: nat, size: int)
    requires IsRingSize(size) && size >= 1 && ct <= pt <= ct + size - 1
    ensures FullWord(Wrap(pt), Wrap(ct), size) <==> Wrap(ct) < size && pt - ct == size - 1
  {
    RingSizeBounds(size);
    WrapAdd(pt, 1);
    MaskIsMod(Wrap(pt + 1), size);
    WrapThenMod(pt + 1, size);
    WrapThenMod(ct, size);
    if Wrap(ct) < size {
      DivModUnique(Wrap(ct), size, 0, Wrap(ct));
      if pt + 1 < ct + size {
        ModDistinct(ct, pt + 1, size);
      } else {
        ModAddMultiple(ct, 1, size);
      }
    }
  }
}
