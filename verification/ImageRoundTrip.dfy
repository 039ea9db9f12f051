/** What the loader makes of the writer's text: the bytes of every section, at their addresses. */
module ImageRoundTrip {
  import opened Words
  import opened ImageText
  import opened ImageWriter
  import opened ImageLoader

  // ----- one page of lines

  function Round16(n: nat): (m: nat)
    ensures n <= m < n + 16 && m % 16 == 0
  {
    (n + 15) / 16 * 16
  }

  /** Zeroes up to a whole line. */
  function ZeroPad(bytes: seq<u8>): (padded: seq<u8>)
    ensures |padded| == Round16(|bytes|) && padded[..|bytes|] == bytes
  {
    bytes + seq(Round16(|bytes|) - |bytes|, _ => 0)
  }

  lemma ParsedLine(bytes: seq<u8>)
    requires 0 < |bytes| <= 16
    ensures Parsed(HexLine(bytes), 16) == ZeroPad(bytes)
  {
    forall i | 0 <= i < 16
      ensures Parsed(HexLine(bytes), 16)[i] == ZeroPad(bytes)[i]
    {
      ParsedAt(HexLine(bytes), 16, i);
      LineBack(bytes, i);
    }
  }

  lemma LoadHexLine(l: Loading, bytes: seq<u8>)
    requires 0 < |bytes| <= 16
    ensures LoadLine(l, HexLine(bytes)) ==
            if l.page.None? || l.off + 16 > PAGE then None
            else Some(Loading(l.page, l.off + 16, Poke(l.mem, l.page.value + l.off, ZeroPad(bytes))))
  {
    LineIsNotOrigin(bytes);
    ParsedLine(bytes);
  }

  lemma PadSplit(bytes: seq<u8>)
    requires |bytes| > 16
    ensures ZeroPad(bytes) == bytes[..16] + ZeroPad(bytes[16..])
    ensures ZeroPad(bytes[..16]) == bytes[..16]
    ensures Round16(|bytes|) == 16 + Round16(|bytes| - 16)
  {
    assert (|bytes| + 15) / 16 == (|bytes| - 16 + 15) / 16 + 1;
    assert bytes == bytes[..16] + bytes[16..];
  }

  lemma LoadOne(l: Loading, line: string)
    ensures LoadLines(l, [line]) == LoadLine(l, line)
  {
    assert [line][1..] == [];
  }

  /** The lines of n bytes load iff they stay inside the mapped page. */
  lemma {:induction false} LoadData(l: Loading, bytes: seq<u8>)
    requires l.page.Some? && bytes != []
    ensures LoadLines(l, DataLines(bytes)) ==
            if l.off + Round16(|bytes|) > PAGE then None
            else Some(Loading(l.page, l.off + Round16(|bytes|), Poke(l.mem, l.page.value + l.off, ZeroPad(bytes))))
    decreases |bytes|
  {
    if |bytes| <= 16 {
      LoadHexLine(l, bytes);
      LoadOne(l, HexLine(bytes));
    } else {
      LoadHexLine(l, bytes[..16]);
      PadSplit(bytes);
      var first := LoadLine(l, HexLine(bytes[..16]));
      assert DataLines(bytes)[1..] == DataLines(bytes[16..]);
      assert DataLines(bytes)[0] == HexLine(bytes[..16]);
      if first.Some? {
        LoadData(first.value, bytes[16..]);
        PokeAppend(l.mem, l.page.value + l.off, bytes[..16], ZeroPad(bytes[16..]));
      }
    }
  }

  // ----- one segment

  /** A segment loads from page boundaries, or from within one page. */
  predicate Fits(addr: nat, n: nat) {
    addr % PAGE == 0 || addr % PAGE + Round16(n) <= PAGE
  }

  lemma LoadOrigin(l: Loading, a: u32)
    ensures LoadLine(l, OriginLine(a)) == Some(Loading(Some(a - a % PAGE), a % PAGE, l.mem))
  {
    OriginBack(a);
  }

  lemma LoadHeaded(l: Loading, a: u32, lines: seq<string>)
    ensures LoadLines(l, [OriginLine(a)] + lines) == LoadLines(Loading(Some(a - a % PAGE), a % PAGE, l.mem), lines)
  {
    LoadOrigin(l, a);
    assert ([OriginLine(a)] + lines)[1..] == lines;
  }

  function MemOf(r: Option<Loading>): map<nat, u8>
    requires r.Some?
  {
    r.value.mem
  }

  /** The text of one segment loads iff the segment fits, and then stores its bytes, zero-padded. */
  lemma {:induction false} SegmentBack(l: Loading, addr: nat, bytes: seq<u8>)
    requires addr + |bytes| < TWO32
    ensures var r := LoadLines(l, FileText(addr, bytes));
            (r.Some? <==> Fits(addr, |bytes|)) && (r.Some? ==> MemOf(r) == Poke(l.mem, addr, ZeroPad(bytes)))
    decreases |bytes|
  {
    if |bytes| <= 4096 {
      ShortBack(l, addr, bytes);
    } else {
      LoadPage(l, addr, bytes);
      if addr % PAGE == 0 {
        SegmentBack(Loading(Some(addr), PAGE, Poke(l.mem, addr, bytes[..4096])), addr + 4096, bytes[4096..]);
        PagePad(bytes);
        PokeAppend(l.mem, addr, bytes[..4096], ZeroPad(bytes[4096..]));
        assert (addr + 4096) % PAGE == 0;
      }
    }
  }

  lemma ShortBack(l: Loading, addr: nat, bytes: seq<u8>)
    requires addr + |bytes| < TWO32 && |bytes| <= 4096
    ensures var r := LoadLines(l, FileText(addr, bytes));
            (r.Some? <==> Fits(addr, |bytes|)) && (r.Some? ==> MemOf(r) == Poke(l.mem, addr, ZeroPad(bytes)))
  {
    LoadHeaded(l, addr, DataLines(bytes));
    if bytes != [] {
      LoadData(Loading(Some(addr - addr % PAGE), addr % PAGE, l.mem), bytes);
    }
  }

  lemma PagePad(bytes: seq<u8>)
    requires |bytes| > 4096
    ensures ZeroPad(bytes) == bytes[..4096] + ZeroPad(bytes[4096..])
    ensures ZeroPad(bytes[..4096]) == bytes[..4096]
  {
    assert (|bytes| + 15) / 16 == (|bytes| - 4096 + 15) / 16 + 256;
    assert bytes == bytes[..4096] + bytes[4096..];
  }

  // The first page of a longer segment.
  lemma LoadPage(l: Loading, addr: nat, bytes: seq<u8>)
    requires addr + |bytes| < TWO32 && |bytes| > 4096
    ensures LoadLines(l, FileText(addr, bytes)) ==
            if addr % PAGE != 0 then None
            else LoadLines(Loading(Some(addr), PAGE, Poke(l.mem, addr, bytes[..4096])), FileText(addr + 4096, bytes[4096..]))
  {
    var base := Loading(Some(addr - addr % PAGE), addr % PAGE, l.mem);
    var page, rest := DataLines(bytes[..4096]), FileText(addr + 4096, bytes[4096..]);
    assert FileText(addr, bytes) == [OriginLine(addr)] + (page + rest);
    LoadHeaded(l, addr, page + rest);
    LoadAppend(base, page, rest);
    LoadData(base, bytes[..4096]);
    PagePad(bytes);
  }

  // ----- a list of segments

  function Placed(mem: map<nat, u8>, kernel: seq<u8>, segs: seq<Segment>): map<nat, u8>
    decreases |segs|
  {
    if segs == [] then mem
    else Placed(Poke(mem, segs[0].addr, ZeroPad(SegmentBytes(kernel, segs[0]))), kernel, segs[1..])
  }

  predicate AllFit(kernel: seq<u8>, segs: seq<Segment>) {
    forall i :: 0 <= i < |segs| ==> Fits(segs[i].addr, |SegmentBytes(kernel, segs[i])|)
  }

  predicate Addressable(segs: seq<Segment>) {
    forall i :: 0 <= i < |segs| ==> segs[i].addr + segs[i].size < TWO32
  }

  /** The text of a list of segments loads iff each fits. */
  lemma {:induction false} TextBack(l: Loading, kernel: seq<u8>, segs: seq<Segment>)
    requires Addressable(segs)
    ensures var r := LoadLines(l, TextOf(kernel, segs));
            (r.Some? <==> AllFit(kernel, segs)) && (r.Some? ==> MemOf(r) == Placed(l.mem, kernel, segs))
    decreases |segs|
  {
    if segs != [] {
      var bytes := SegmentBytes(kernel, segs[0]);
      var text := FileText(segs[0].addr, bytes);
      LoadAppend(l, text, TextOf(kernel, segs[1..]));
      SegmentBack(l, segs[0].addr, bytes);
      var first := LoadLines(l, text);
      if first.Some? {
        TextBack(first.value, kernel, segs[1..]);
        assert AllFit(kernel, segs) <==> AllFit(kernel, segs[1..]);
      }
    }
  }

  predicate Ascending(segs: seq<Segment>) {
    forall i, j :: 0 <= i < j < |segs| ==> segs[i].addr + segs[i].size <= segs[j].addr
  }

  lemma {:induction false} PlacedBelow(mem: map<nat, u8>, kernel: seq<u8>, segs: seq<Segment>, a: nat)
    requires forall i :: 0 <= i < |segs| ==> a < segs[i].addr
    requires a in mem
    ensures a in Placed(mem, kernel, segs) && Placed(mem, kernel, segs)[a] == mem[a]
    decreases |segs|
  {
    if segs != [] {
      var padded := ZeroPad(SegmentBytes(kernel, segs[0]));
      PokeAt(mem, segs[0].addr, padded, a);
      PlacedBelow(Poke(mem, segs[0].addr, padded), kernel, segs[1..], a);
    }
  }

  /** Padding never survives on a byte of a later segment, and never falls on an earlier one. */
  lemma {:induction false} PlacedAt(mem: map<nat, u8>, kernel: seq<u8>, segs: seq<Segment>, i: nat, j: nat)
    requires Ascending(segs) && i < |segs| && j < |SegmentBytes(kernel, segs[i])|
    ensures segs[i].addr + j in Placed(mem, kernel, segs)
    ensures Placed(mem, kernel, segs)[segs[i].addr + j] == SegmentBytes(kernel, segs[i])[j]
    decreases |segs|
  {
    var bytes := SegmentBytes(kernel, segs[0]);
    var next := Poke(mem, segs[0].addr, ZeroPad(bytes));
    if i == 0 {
      PokeAt(mem, segs[0].addr, ZeroPad(bytes), segs[0].addr + j);
      assert ZeroPad(bytes)[j] == ZeroPad(bytes)[..|bytes|][j];
      PlacedBelow(next, kernel, segs[1..], segs[0].addr + j);
    } else {
      PlacedAt(next, kernel, segs[1..], i - 1, j);
    }
  }

  // ----- sections and merge groups

  /** The sections the writer looks at. */
  function Alloc(segs: seq<Segment>): (a: seq<Segment>)
    ensures forall i :: 0 <= i < |a| ==> a[i].alloc
    decreases |segs|
  {
    if segs == [] then [] else (if segs[0].alloc then [segs[0]] else []) + Alloc(segs[1..])
  }

  lemma {:induction false} OnlyAlloc(segs: seq<Segment>, pending: seq<Segment>)
    ensures Emitted(segs, pending) == Emitted(Alloc(segs), pending)
    decreases |segs|
  {
    if segs != [] {
      assert ([segs[0]] + Alloc(segs[1..]))[1..] == Alloc(segs[1..]);
      assert [] + Alloc(segs[1..]) == Alloc(segs[1..]);
      if segs[0].alloc && segs[0].merge {
        OnlyAlloc(segs[1..], pending + [segs[0]]);
      } else if segs[0].alloc {
        OnlyAlloc(segs[1..], []);
      } else {
        OnlyAlloc(segs[1..], pending);
      }
    }
  }

  predicate Follows(s: Segment, t: Segment) {
    t.addr == s.addr + s.size && t.offset == s.offset + s.size
  }

  /** Neighbours among merge sections are neighbours in memory and in the file. */
  predicate Contiguous(segs: seq<Segment>) {
    forall i :: 0 < i < |segs| && segs[i - 1].merge && segs[i].merge ==> Follows(segs[i - 1], segs[i])
  }

  /** Every run of merge sections is followed by one without the flag. */
  predicate Closed(segs: seq<Segment>) {
    segs != [] ==> !segs[|segs| - 1].merge
  }

  predicate InFile(kernel: seq<u8>, segs: seq<Segment>) {
    forall i :: 0 <= i < |segs| ==> segs[i].offset + segs[i].size <= |kernel|
  }

  /** Piece p holds section s at the right place. */
  predicate Holds(p: Segment, s: Segment) {
    p.addr <= s.addr && s.addr + s.size <= p.addr + p.size && s.addr - p.addr == s.offset - p.offset
  }

  predicate Chain(segs: seq<Segment>) {
    forall i :: 0 < i < |segs| ==> Follows(segs[i - 1], segs[i])
  }

  lemma {:induction false} ChainPlaces(segs: seq<Segment>, i: nat)
    requires Chain(segs) && i < |segs|
    ensures segs[i].addr == segs[0].addr + TotalSize(segs[..i])
    ensures segs[i].offset == segs[0].offset + TotalSize(segs[..i])
    ensures TotalSize(segs[..i + 1]) == TotalSize(segs[..i]) + segs[i].size
    ensures TotalSize(segs[..i + 1]) <= TotalSize(segs)
    decreases i
  {
    assert segs[..i + 1][..i] == segs[..i];
    TotalGrows(segs, i + 1);
    if i > 0 {
      ChainPlaces(segs, i - 1);
      assert Follows(segs[i - 1], segs[i]);
    }
  }

  lemma {:induction false} TotalGrows(segs: seq<Segment>, i: nat)
    requires i <= |segs|
    ensures TotalSize(segs[..i]) <= TotalSize(segs)
    decreases |segs|
  {
    if i < |segs| {
      TotalGrows(segs[..|segs| - 1], i);
      assert segs[..|segs| - 1][..i] == segs[..i];
    } else {
      assert segs[..i] == segs;
    }
  }

  // With gaps between the sections the sum of their sizes falls short.
  lemma {:induction false} TotalBound(segs: seq<Segment>)
    requires Ascending(segs) && segs != []
    ensures segs[0].addr + TotalSize(segs) <= segs[|segs| - 1].addr + segs[|segs| - 1].size
    ensures segs[0].addr + TotalSize(segs) == segs[|segs| - 1].addr + segs[|segs| - 1].size ==>
              forall i :: 0 < i < |segs| ==> segs[i].addr == segs[i - 1].addr + segs[i - 1].size
    decreases |segs|
  {
    var front := segs[..|segs| - 1];
    if front != [] {
      TotalBound(front);
      assert front[|front| - 1] == segs[|segs| - 2];
      assert forall i :: 0 <= i < |front| ==> front[i] == segs[i];
    } else {
      assert TotalSize(segs) == TotalSize(front) + segs[0].size;
    }
  }

  /** combine holds all its sections at their places iff each follows the one before it. */
  lemma CombineIff(segs: seq<Segment>)
    requires Ascending(segs) && segs != []
    ensures Chain(segs) <==> forall i :: 0 <= i < |segs| ==> Holds(Combine(segs), segs[i])
  {
    if Chain(segs) {
      forall i | 0 <= i < |segs|
        ensures Holds(Combine(segs), segs[i])
      {
        ChainPlaces(segs, i);
      }
    }
    if forall i :: 0 <= i < |segs| ==> Holds(Combine(segs), segs[i]) {
      TotalBound(segs);
      assert Holds(Combine(segs), segs[|segs| - 1]);
      forall i | 0 < i < |segs|
        ensures Follows(segs[i - 1], segs[i])
      {
        assert Holds(Combine(segs), segs[i - 1]) && Holds(Combine(segs), segs[i]);
      }
    }
  }
}
