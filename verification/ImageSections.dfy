/** A kernel file through the writer and the loader: every allocated section is where it belongs. */
module ImageSections {
  import opened Words
  import opened ImageWriter
  import opened ImageLoader
  import opened ImageRoundTrip

  /** The state of the writer: merge sections that wait, sections still to come. */
  predicate Queued(pending: seq<Segment>, rest: seq<Segment>) {
    (forall i :: 0 <= i < |pending| ==> pending[i].merge) &&
    (forall i :: 0 <= i < |rest| ==> rest[i].alloc) &&
    Ascending(pending + rest)
  }

  /** The same, laid out as the writer expects it. */
  predicate Laid(pending: seq<Segment>, rest: seq<Segment>) {
    Queued(pending, rest) && Contiguous(pending + rest) && Closed(pending + rest)
  }

  lemma QueuedTake(pending: seq<Segment>, rest: seq<Segment>)
    requires Queued(pending, rest) && rest != [] && rest[0].merge
    ensures Queued(pending + [rest[0]], rest[1..])
    ensures pending + [rest[0]] + rest[1..] == pending + rest
  {
    assert pending + [rest[0]] + rest[1..] == pending + rest;
  }

  lemma QueuedFlush(pending: seq<Segment>, rest: seq<Segment>)
    requires Queued(pending, rest) && rest != []
    ensures Queued([], rest[1..]) && Ascending(pending)
    ensures forall i :: 0 <= i < |pending| ==> pending[i].addr + pending[i].size <= rest[0].addr
    ensures forall i :: 1 <= i < |rest| ==> rest[0].addr + rest[0].size <= rest[i].addr
    ensures [] + rest[1..] == rest[1..] == (pending + rest)[|pending| + 1..]
  {
    var all := pending + rest;
    assert [] + rest[1..] == all[|pending| + 1..];
    assert forall i :: 0 <= i < |pending| ==> pending[i] == all[i];
    assert forall i :: 0 <= i < |rest| ==> rest[i] == all[|pending| + i];
  }

  lemma LaidFlush(pending: seq<Segment>, rest: seq<Segment>)
    requires Laid(pending, rest) && rest != [] && !rest[0].merge
    ensures Laid([], rest[1..]) && Chain(pending)
  {
    var all := pending + rest;
    QueuedFlush(pending, rest);
    forall i | 0 < i < |pending|
      ensures Follows(pending[i - 1], pending[i])
    {
      assert all[i - 1].merge && all[i].merge;
    }
  }

  lemma LaidEnd(pending: seq<Segment>)
    requires Laid(pending, [])
    ensures pending == []
  {
    assert pending + [] == pending;
  }

  ghost predicate Covered(pieces: seq<Segment>, s: Segment) {
    exists k :: 0 <= k < |pieces| && Holds(pieces[k], s)
  }

  lemma CoveredMore(front: seq<Segment>, pieces: seq<Segment>, s: Segment)
    ensures Covered(pieces, s) ==> Covered(front + pieces, s)
    ensures Covered(front, s) ==> Covered(front + pieces, s)
  {
    if Covered(pieces, s) {
      var k :| 0 <= k < |pieces| && Holds(pieces[k], s);
      assert (front + pieces)[|front| + k] == pieces[k];
    }
    if Covered(front, s) {
      var k :| 0 <= k < |front| && Holds(front[k], s);
      assert (front + pieces)[k] == front[k];
    }
  }

  // The pieces written when a section without the flag comes.
  function Flush(pending: seq<Segment>, s: Segment): seq<Segment> {
    (if pending != [] then [Combine(pending)] else []) + [s]
  }

  lemma FlushHolds(pending: seq<Segment>, s: Segment, i: nat)
    requires Ascending(pending) && Chain(pending) && i <= |pending|
    ensures Covered(Flush(pending, s), if i < |pending| then pending[i] else s)
  {
    if i < |pending| {
      CombineIff(pending);
      assert Holds(Flush(pending, s)[0], pending[i]);
    } else {
      assert Holds(Flush(pending, s)[|Flush(pending, s)| - 1], s);
    }
  }

  /** Every section is held by a piece. */
  lemma {:induction false} EveryCovered(pending: seq<Segment>, rest: seq<Segment>, i: nat)
    requires Laid(pending, rest) && i < |pending| + |rest|
    ensures Covered(Emitted(rest, pending), (pending + rest)[i])
    decreases |rest|
  {
    if rest == [] {
      LaidEnd(pending);
    } else if rest[0].merge {
      QueuedTake(pending, rest);
      EveryCovered(pending + [rest[0]], rest[1..], i);
    } else {
      LaidFlush(pending, rest);
      EmittedFlush(pending, rest);
      if i <= |pending| {
        FrontCovered(pending, rest, i);
      } else {
        EveryCovered([], rest[1..], i - |pending| - 1);
        BehindCovered(pending, rest, i);
      }
    }
  }

  lemma FrontCovered(pending: seq<Segment>, rest: seq<Segment>, i: nat)
    requires Queued(pending, rest) && Chain(pending) && rest != [] && i <= |pending|
    ensures Covered(Flush(pending, rest[0]) + Emitted(rest[1..], []), (pending + rest)[i])
  {
    QueuedFlush(pending, rest);
    FlushHolds(pending, rest[0], i);
    CoveredMore(Flush(pending, rest[0]), Emitted(rest[1..], []), (pending + rest)[i]);
  }

  lemma BehindCovered(pending: seq<Segment>, rest: seq<Segment>, i: nat)
    requires rest != [] && |pending| < i < |pending| + |rest|
    requires Covered(Emitted(rest[1..], []), ([] + rest[1..])[i - |pending| - 1])
    ensures Covered(Flush(pending, rest[0]) + Emitted(rest[1..], []), (pending + rest)[i])
  {
    CoveredMore(Flush(pending, rest[0]), Emitted(rest[1..], []), (pending + rest)[i]);
  }

  /** Addresses from `low` on and below `high`. */
  predicate Within(segs: seq<Segment>, low: nat, high: nat) {
    forall i :: 0 <= i < |segs| ==> low <= segs[i].addr && segs[i].addr + segs[i].size <= high
  }

  lemma FlushWithin(pending: seq<Segment>, s: Segment, low: nat)
    requires Ascending(pending) && Within(pending, low, s.addr) && low <= s.addr
    ensures Within(Flush(pending, s), low, s.addr + s.size) && Ascending(Flush(pending, s))
    ensures pending != [] ==> Flush(pending, s) == [Combine(pending), s] && Combine(pending).addr + Combine(pending).size <= s.addr
  {
    if pending != [] {
      TotalBound(pending);
      assert Flush(pending, s) == [Combine(pending), s];
    }
  }

  lemma AscendingJoin(a: seq<Segment>, b: seq<Segment>, low: nat, mid: nat, high: nat)
    requires Ascending(a) && Within(a, low, mid)
    requires Ascending(b) && Within(b, mid, high)
    requires low <= mid <= high
    ensures Ascending(a + b) && Within(a + b, low, high)
  {
  }

  /** Pieces ascend, as the sections do, and stay within their bounds, however the sections are laid out. */
  lemma {:induction false} PiecesWithin(pending: seq<Segment>, rest: seq<Segment>, low: nat, high: nat)
    requires Queued(pending, rest) && Within(pending + rest, low, high)
    ensures Ascending(Emitted(rest, pending)) && Within(Emitted(rest, pending), low, high)
    decreases |rest|
  {
    if rest == [] {
    } else if rest[0].merge {
      QueuedTake(pending, rest);
      PiecesWithin(pending + [rest[0]], rest[1..], low, high);
    } else {
      QueuedFlush(pending, rest);
      var mid := rest[0].addr + rest[0].size;
      WithinParts(pending, rest, low, high);
      FlushWithin(pending, rest[0], low);
      PiecesWithin([], rest[1..], mid, high);
      AscendingJoin(Flush(pending, rest[0]), Emitted(rest[1..], []), low, mid, high);
      assert Emitted(rest, pending) == Flush(pending, rest[0]) + Emitted(rest[1..], []);
    }
  }

  lemma WithinParts(pending: seq<Segment>, rest: seq<Segment>, low: nat, high: nat)
    requires Within(pending + rest, low, high) && rest != []
    requires forall i :: 0 <= i < |pending| ==> pending[i].addr + pending[i].size <= rest[0].addr
    requires forall i :: 1 <= i < |rest| ==> rest[0].addr + rest[0].size <= rest[i].addr
    ensures Within(pending, low, rest[0].addr)
    ensures Within([] + rest[1..], rest[0].addr + rest[0].size, high)
    ensures low <= rest[0].addr && rest[0].addr + rest[0].size <= high
  {
    var all := pending + rest;
    assert forall i :: 0 <= i < |pending| ==> pending[i] == all[i];
    assert [] + rest[1..] == all[|pending| + 1..];
    assert all[|pending|] == rest[0];
  }

  predicate EndsIn(segs: seq<Segment>, len: nat) {
    forall i :: 0 <= i < |segs| ==> segs[i].offset + segs[i].size <= len
  }

  /** Pieces of sections without gaps lie inside the file, as the sections do. */
  lemma {:induction false} PiecesInFile(pending: seq<Segment>, rest: seq<Segment>, len: nat)
    requires Laid(pending, rest) && EndsIn(pending + rest, len)
    ensures EndsIn(Emitted(rest, pending), len)
    decreases |rest|
  {
    if rest == [] {
    } else if rest[0].merge {
      QueuedTake(pending, rest);
      PiecesInFile(pending + [rest[0]], rest[1..], len);
    } else {
      LaidFlush(pending, rest);
      PartsInFile(pending, rest, len);
      FlushInFile(pending, rest[0], len);
      PiecesInFile([], rest[1..], len);
      EmittedFlush(pending, rest);
      JoinInFile(Flush(pending, rest[0]), Emitted(rest[1..], []), len);
    }
  }

  lemma PartsInFile(pending: seq<Segment>, rest: seq<Segment>, len: nat)
    requires EndsIn(pending + rest, len) && rest != []
    ensures EndsIn(pending, len) && rest[0].offset + rest[0].size <= len && EndsIn([] + rest[1..], len)
  {
    var all := pending + rest;
    assert all[|pending|] == rest[0];
    assert pending == all[..|pending|] && [] + rest[1..] == all[|pending| + 1..];
  }

  lemma JoinInFile(a: seq<Segment>, b: seq<Segment>, len: nat)
    requires EndsIn(a, len) && EndsIn(b, len)
    ensures EndsIn(a + b, len)
  {
  }

  lemma FlushInFile(pending: seq<Segment>, s: Segment, len: nat)
    requires Chain(pending) && EndsIn(pending, len) && s.offset + s.size <= len
    ensures EndsIn(Flush(pending, s), len)
  {
    if pending != [] {
      ChainPlaces(pending, |pending| - 1);
      assert pending[..|pending|] == pending;
      assert Flush(pending, s) == [Combine(pending), s];
    }
  }

  // ----- what is covered

  predicate NoneEmpty(segs: seq<Segment>) {
    forall i :: 0 <= i < |segs| ==> segs[i].size > 0
  }

  // A section in front of s can be held by the combined piece only, one behind it by the pieces behind.
  lemma CoveredFront(pending: seq<Segment>, s: Segment, tail: seq<Segment>, high: nat, t: Segment)
    requires Ascending(pending) && Within(pending, 0, s.addr) && Within(tail, s.addr + s.size, high)
    requires t.size > 0 && t.addr + t.size <= s.addr && Covered(Flush(pending, s) + tail, t)
    ensures pending != [] && Holds(Combine(pending), t)
  {
    FlushWithin(pending, s, 0);
    var pieces := Flush(pending, s) + tail;
    var k :| 0 <= k < |pieces| && Holds(pieces[k], t);
    FrontOrTail(Flush(pending, s), tail, k);
  }

  lemma FrontOrTail(front: seq<Segment>, tail: seq<Segment>, k: nat)
    requires k < |front + tail|
    ensures (front + tail)[k] == if k < |front| then front[k] else tail[k - |front|]
  {
  }

  lemma CoveredBehind(pending: seq<Segment>, s: Segment, tail: seq<Segment>, t: Segment)
    requires Ascending(pending) && Within(pending, 0, s.addr)
    requires t.size > 0 && s.addr + s.size <= t.addr && Covered(Flush(pending, s) + tail, t)
    ensures Covered(tail, t)
  {
    FlushWithin(pending, s, 0);
    var pieces := Flush(pending, s) + tail;
    var k :| 0 <= k < |pieces| && Holds(pieces[k], t);
    FrontOrTail(Flush(pending, s), tail, k);
  }

  ghost predicate AllCovered(pieces: seq<Segment>, segs: seq<Segment>) {
    forall i :: 0 <= i < |segs| ==> Covered(pieces, segs[i])
  }

  // When everything is covered, the sections in front of s form a chain and those behind are covered by themselves.
  lemma FlushCovered(pending: seq<Segment>, rest: seq<Segment>, high: nat)
    requires Queued(pending, rest) && rest != [] && NoneEmpty(pending + rest) && Within(pending + rest, 0, high)
    requires AllCovered(Flush(pending, rest[0]) + Emitted(rest[1..], []), pending + rest)
    ensures Chain(pending) && AllCovered(Emitted(rest[1..], []), rest[1..])
  {
    var all, s, tail := pending + rest, rest[0], Emitted(rest[1..], []);
    QueuedFlush(pending, rest);
    WithinParts(pending, rest, 0, high);
    PiecesWithin([], rest[1..], s.addr + s.size, high);
    forall i | 0 <= i < |pending|
      ensures Holds(Combine(pending), pending[i])
    {
      assert pending[i] == all[i];
      CoveredFront(pending, s, tail, high, pending[i]);
    }
    forall i | 0 <= i < |rest| - 1
      ensures Covered(tail, rest[1..][i])
    {
      assert rest[1..][i] == all[|pending| + 1 + i];
      CoveredBehind(pending, s, tail, rest[1..][i]);
    }
    if pending != [] {
      CombineIff(pending);
    }
  }

  lemma JoinLaid(pending: seq<Segment>, rest: seq<Segment>)
    requires rest != [] && !rest[0].merge && Chain(pending)
    requires Contiguous(rest[1..]) && Closed(rest[1..])
    ensures Contiguous(pending + rest) && Closed(pending + rest)
  {
    var all := pending + rest;
    forall i | 0 < i < |all| && all[i - 1].merge && all[i].merge
      ensures Follows(all[i - 1], all[i])
    {
      if i < |pending| {
        assert Follows(pending[i - 1], pending[i]);
      } else {
        assert i > |pending| + 1;
        var j := i - |pending| - 1;
        assert rest[1..][j - 1] == all[i - 1] && rest[1..][j] == all[i];
      }
    }
  }

  lemma NoneCovered(segs: seq<Segment>)
    ensures segs != [] ==> !AllCovered([], segs)
  {
    if segs != [] {
      assert !Covered([], segs[0]);
    }
  }

  lemma EmittedFlush(pending: seq<Segment>, rest: seq<Segment>)
    requires rest != [] && rest[0].alloc && !rest[0].merge
    ensures Emitted(rest, pending) == Flush(pending, rest[0]) + Emitted(rest[1..], [])
  {
  }

  lemma BehindFlush(pending: seq<Segment>, rest: seq<Segment>, high: nat)
    requires Queued(pending, rest) && rest != [] && NoneEmpty(pending + rest) && Within(pending + rest, 0, high)
    ensures Queued([], rest[1..]) && [] + rest[1..] == rest[1..]
    ensures NoneEmpty(rest[1..]) && Within(rest[1..], 0, high)
  {
    QueuedFlush(pending, rest);
    assert forall i :: 0 <= i < |rest| ==> rest[i] == (pending + rest)[|pending| + i];
  }

  /** When every section is covered, merge groups have no gaps and each is closed by another section. */
  lemma {:induction false} CoveredMeansLaid(pending: seq<Segment>, rest: seq<Segment>, high: nat)
    requires Queued(pending, rest) && NoneEmpty(pending + rest) && Within(pending + rest, 0, high)
    requires AllCovered(Emitted(rest, pending), pending + rest)
    ensures Contiguous(pending + rest) && Closed(pending + rest)
    decreases |rest|
  {
    if rest == [] {
      NoneCovered(pending + rest);
    } else if rest[0].merge {
      QueuedTake(pending, rest);
      CoveredMeansLaid(pending + [rest[0]], rest[1..], high);
    } else {
      EmittedFlush(pending, rest);
      FlushCovered(pending, rest, high);
      BehindFlush(pending, rest, high);
      CoveredMeansLaid([], rest[1..], high);
      JoinLaid(pending, rest);
    }
  }

  /** The pieces the writer makes of a kernel. */
  function Pieces(segs: seq<Segment>): seq<Segment> {
    Emitted(segs, [])
  }

  function High(segs: seq<Segment>): nat {
    if segs == [] then 0 else segs[|segs| - 1].addr + segs[|segs| - 1].size
  }

  lemma AllQueued(segs: seq<Segment>)
    requires Ascending(Alloc(segs))
    ensures Queued([], Alloc(segs)) && [] + Alloc(segs) == Alloc(segs) && Pieces(segs) == Emitted(Alloc(segs), [])
    ensures Within(Alloc(segs), 0, High(Alloc(segs)))
  {
    OnlyAlloc(segs, []);
    NothingInFront(Alloc(segs));
    BelowHigh(Alloc(segs));
  }

  lemma NothingInFront(segs: seq<Segment>)
    ensures [] + segs == segs
  {
  }

  lemma BelowHigh(segs: seq<Segment>)
    requires Ascending(segs)
    ensures Within(segs, 0, High(segs))
  {
    forall i | 0 <= i < |segs|
      ensures segs[i].addr + segs[i].size <= High(segs)
    {
      if i < |segs| - 1 {
        assert segs[i].addr + segs[i].size <= segs[|segs| - 1].addr;
      }
    }
  }

  /**
    Every allocated section is held, at its place, by a piece the writer writes iff merge
    groups have no gaps and each of them is followed by a section without the flag.
   */
  lemma CoveredIff(segs: seq<Segment>)
    requires Ascending(Alloc(segs)) && NoneEmpty(Alloc(segs))
    ensures AllCovered(Pieces(segs), Alloc(segs)) <==> Contiguous(Alloc(segs)) && Closed(Alloc(segs))
  {
    var a := Alloc(segs);
    AllQueued(segs);
    if Contiguous(a) && Closed(a) {
      LaidCovered(segs);
    }
    if AllCovered(Pieces(segs), a) {
      CoveredMeansLaid([], a, High(a));
    }
  }

  lemma LaidCovered(segs: seq<Segment>)
    requires Ascending(Alloc(segs)) && Contiguous(Alloc(segs)) && Closed(Alloc(segs))
    ensures AllCovered(Pieces(segs), Alloc(segs))
  {
    AllQueued(segs);
    forall i | 0 <= i < |Alloc(segs)|
      ensures Covered(Pieces(segs), Alloc(segs)[i])
    {
      EveryCovered([], Alloc(segs), i);
    }
  }

  // ----- the round trip

  lemma PiecesAscend(segs: seq<Segment>, high: nat)
    requires Ascending(Alloc(segs)) && Within(Alloc(segs), 0, high)
    ensures Ascending(Pieces(segs)) && Within(Pieces(segs), 0, high)
  {
    AllQueued(segs);
    PiecesWithin([], Alloc(segs), 0, high);
  }

  /** Section s of the kernel file is in memory, at its address. */
  ghost predicate InPlace(mem: map<nat, u8>, kernel: seq<u8>, s: Segment) {
    s.offset + s.size <= |kernel| &&
    forall a: nat :: s.addr <= a < s.addr + s.size ==> a in mem && mem[a] == kernel[s.offset + (a - s.addr)]
  }

  ghost predicate AllInPlace(mem: map<nat, u8>, kernel: seq<u8>, segs: seq<Segment>) {
    forall i :: 0 <= i < |segs| ==> InPlace(mem, kernel, segs[i])
  }

  lemma PieceByte(kernel: seq<u8>, p: Segment, j: nat)
    requires j < p.size && p.offset + j < |kernel|
    ensures j < |SegmentBytes(kernel, p)| && SegmentBytes(kernel, p)[j] == kernel[p.offset + j]
  {
  }

  lemma PieceInPlace(mem: map<nat, u8>, kernel: seq<u8>, pieces: seq<Segment>, s: Segment)
    requires Ascending(pieces) && s.offset + s.size <= |kernel| && Covered(pieces, s)
    ensures InPlace(Placed(mem, kernel, pieces), kernel, s)
  {
    var k :| 0 <= k < |pieces| && Holds(pieces[k], s);
    forall a: nat | s.addr <= a < s.addr + s.size
      ensures a in Placed(mem, kernel, pieces) && Placed(mem, kernel, pieces)[a] == kernel[s.offset + (a - s.addr)]
    {
      ByteInPlace(mem, kernel, pieces, k, a);
    }
  }

  predicate Around(p: Segment, a: nat) {
    p.addr <= a < p.addr + p.size
  }

  lemma ByteInPlace(mem: map<nat, u8>, kernel: seq<u8>, pieces: seq<Segment>, k: nat, a: nat)
    requires Ascending(pieces) && k < |pieces| && Around(pieces[k], a)
    requires pieces[k].offset + (a - pieces[k].addr) < |kernel|
    ensures a in Placed(mem, kernel, pieces)
    ensures Placed(mem, kernel, pieces)[a] == kernel[pieces[k].offset + (a - pieces[k].addr)]
  {
    PieceByte(kernel, pieces[k], a - pieces[k].addr);
    PlacedAt(mem, kernel, pieces, k, a - pieces[k].addr);
  }

  lemma CoveredInPlace(mem: map<nat, u8>, kernel: seq<u8>, segs: seq<Segment>)
    requires Ascending(Alloc(segs)) && InFile(kernel, Alloc(segs)) && AllCovered(Pieces(segs), Alloc(segs))
    ensures AllInPlace(Placed(mem, kernel, Pieces(segs)), kernel, Alloc(segs))
  {
    AllQueued(segs);
    PiecesAscend(segs, High(Alloc(segs)));
    forall i | 0 <= i < |Alloc(segs)|
      ensures InPlace(Placed(mem, kernel, Pieces(segs)), kernel, Alloc(segs)[i])
    {
      PieceInPlace(mem, kernel, Pieces(segs), Alloc(segs)[i]);
    }
  }

  /**
    Loading what the writer wrote succeeds iff what is read for every piece starts a page or
    stays within one.  Then the sections are in place if merge groups have no gaps and are
    closed; CoveredIff and ImageRightIff say that otherwise they are not.
   */
  lemma SectionsRoundTrip(l: Loading, kernel: seq<u8>, segs: seq<Segment>)
    requires Ascending(Alloc(segs)) && InFile(kernel, Alloc(segs)) && Addressable(Alloc(segs))
    ensures var r := LoadLines(l, TextOf(kernel, Pieces(segs)));
            (r.Some? <==> AllFit(kernel, Pieces(segs))) &&
            (r.Some? && Contiguous(Alloc(segs)) && Closed(Alloc(segs)) ==> AllInPlace(MemOf(r), kernel, Alloc(segs)))
  {
    var pieces := Pieces(segs);
    PiecesAscend(segs, TWO32 - 1);
    TextBack(l, kernel, pieces);
    if Contiguous(Alloc(segs)) && Closed(Alloc(segs)) {
      LaidCovered(segs);
      CoveredInPlace(l.mem, kernel, segs);
    }
  }

  /** With such a layout nothing is cut off: what is read for a piece is as long as the piece. */
  lemma FitsBySize(kernel: seq<u8>, segs: seq<Segment>)
    requires Ascending(Alloc(segs)) && Contiguous(Alloc(segs)) && Closed(Alloc(segs)) && InFile(kernel, Alloc(segs))
    ensures AllFit(kernel, Pieces(segs)) <==> forall k :: 0 <= k < |Pieces(segs)| ==> Fits(Pieces(segs)[k].addr, Pieces(segs)[k].size)
  {
    AllQueued(segs);
    PiecesInFile([], Alloc(segs), |kernel|);
    WholePieces(kernel, Pieces(segs));
  }

  lemma WholePieces(kernel: seq<u8>, pieces: seq<Segment>)
    requires EndsIn(pieces, |kernel|)
    ensures AllFit(kernel, pieces) <==> forall k :: 0 <= k < |pieces| ==> Fits(pieces[k].addr, pieces[k].size)
  {
    forall k | 0 <= k < |pieces|
      ensures |SegmentBytes(kernel, pieces[k])| == pieces[k].size
    {
    }
  }

  /** Nothing is written but the pieces and the zeroes up to the end of their last lines. */
  lemma {:induction false} OutsideKept(mem: map<nat, u8>, kernel: seq<u8>, pieces: seq<Segment>, a: nat)
    requires forall k :: 0 <= k < |pieces| ==>
               !(pieces[k].addr <= a < pieces[k].addr + Round16(|SegmentBytes(kernel, pieces[k])|))
    ensures a in Placed(mem, kernel, pieces) <==> a in mem
    ensures a in mem ==> Placed(mem, kernel, pieces)[a] == mem[a]
    decreases |pieces|
  {
    if pieces != [] {
      var padded := ZeroPad(SegmentBytes(kernel, pieces[0]));
      PokeAt(mem, pieces[0].addr, padded, a);
      OutsideKept(Poke(mem, pieces[0].addr, padded), kernel, pieces[1..], a);
    }
  }

  lemma {:induction false} TailIgnored(segs: seq<Segment>, tail: seq<Segment>, pending: seq<Segment>)
    requires forall i :: 0 <= i < |tail| ==> tail[i].merge || !tail[i].alloc
    ensures Emitted(segs + tail, pending) == Emitted(segs, pending)
    decreases |segs| + |tail|
  {
    if segs == [] {
      assert segs + tail == tail;
      if tail != [] {
        assert segs + tail[1..] == tail[1..];
        TailIgnored(segs, tail[1..], if tail[0].alloc then pending + [tail[0]] else pending);
      }
    } else {
      assert (segs + tail)[1..] == segs[1..] + tail;
      TailIgnored(segs[1..], tail, pending);
      if segs[0].alloc {
        TailIgnored(segs[1..], tail, if segs[0].merge then pending + [segs[0]] else []);
      }
    }
  }

  lemma {:induction false} AllocJoin(a: seq<Segment>, b: seq<Segment>)
    ensures Alloc(a + b) == Alloc(a) + Alloc(b)
    decreases |a|
  {
    if a == [] {
      assert a + b == b;
    } else {
      assert (a + b)[1..] == a[1..] + b;
      AllocJoin(a[1..], b);
    }
  }

  /**
    Merge sections with no other section behind them are never written: the pieces are those of
    the sections in front of them, and none of these reaches a section of the tail.
   */
  lemma TrailingMergeLost(segs: seq<Segment>, tail: seq<Segment>, i: nat)
    requires forall j :: 0 <= j < |tail| ==> tail[j].merge || !tail[j].alloc
    requires Ascending(Alloc(segs + tail)) && i < |Alloc(tail)| && Alloc(tail)[i].size > 0
    ensures Pieces(segs + tail) == Pieces(segs) && !Covered(Pieces(segs + tail), Alloc(tail)[i])
    ensures forall k :: 0 <= k < |Pieces(segs)| ==> Pieces(segs)[k].addr + Pieces(segs)[k].size <= Alloc(tail)[i].addr
  {
    TailIgnored(segs, tail, []);
    AllocJoin(segs, tail);
    var all, t := Alloc(segs + tail), Alloc(tail)[i];
    assert all[|Alloc(segs)| + i] == t;
    assert forall j :: 0 <= j < |Alloc(segs)| ==> Alloc(segs)[j] == all[j];
    PiecesAscend(segs, t.addr);
  }
}
