/**
  The other half of the image round trip: with gaps in a merge group, or a merge group at the
  end of the section table, what is loaded is wrong.
 */
module ImageExact {
  import opened Words
  import opened ImageWriter
  import opened ImageLoader
  import opened ImageRoundTrip
  import opened ImageSections

  // No value but zero comes from anywhere else than a piece.
  ghost predicate FromPiece(kernel: seq<u8>, pieces: seq<Segment>, a: nat, v: u8) {
    exists k :: 0 <= k < |pieces| && ComesFrom(kernel, pieces[k], a, v)
  }

  ghost predicate ComesFrom(kernel: seq<u8>, p: Segment, a: nat, v: u8) {
    p.addr <= a < p.addr + p.size && p.offset + (a - p.addr) < |kernel| && kernel[p.offset + (a - p.addr)] == v
  }

  lemma {:induction false} PlacedSource(mem: map<nat, u8>, kernel: seq<u8>, pieces: seq<Segment>, a: nat)
    requires a in Placed(mem, kernel, pieces) && Placed(mem, kernel, pieces)[a] != 0
    ensures FromPiece(kernel, pieces, a, Placed(mem, kernel, pieces)[a])
         || (a in mem && mem[a] == Placed(mem, kernel, pieces)[a])
    decreases |pieces|
  {
    if pieces != [] {
      var bytes := SegmentBytes(kernel, pieces[0]);
      var next, v := Poke(mem, pieces[0].addr, ZeroPad(bytes)), Placed(mem, kernel, pieces)[a];
      PlacedSource(next, kernel, pieces[1..], a);
      if FromPiece(kernel, pieces[1..], a, v) {
        var k :| 0 <= k < |pieces[1..]| && ComesFrom(kernel, pieces[1..][k], a, v);
        assert ComesFrom(kernel, pieces[k + 1], a, v);
      } else {
        PokeAt(mem, pieces[0].addr, ZeroPad(bytes), a);
        if pieces[0].addr <= a < pieces[0].addr + |ZeroPad(bytes)| {
          PaddedSource(kernel, pieces[0], a - pieces[0].addr);
          assert ComesFrom(kernel, pieces[0], a, v);
        }
      }
    }
  }

  lemma PaddedSource(kernel: seq<u8>, p: Segment, j: nat)
    requires j < |ZeroPad(SegmentBytes(kernel, p))| && ZeroPad(SegmentBytes(kernel, p))[j] != 0
    ensures j < p.size && p.offset + j < |kernel| && kernel[p.offset + j] == ZeroPad(SegmentBytes(kernel, p))[j]
  {
  }

  /** A kernel file of ones, and one with a single one in it. */
  function Ones(len: nat): (kernel: seq<u8>) {
    seq(len, _ => 1)
  }

  function Single(len: nat, at: nat): (kernel: seq<u8>) {
    seq(len, i => if i == at then 1 else 0)
  }

  /** Two kernel files tell whether a section is held by one piece, unless a piece starts inside it. */
  lemma InPlaceMeansCovered(pieces: seq<Segment>, len: nat, s: Segment)
    requires Ascending(pieces) && s.size > 0
    requires forall k :: 0 <= k < |pieces| ==> !(s.addr < pieces[k].addr < s.addr + s.size)
    requires InPlace(Placed(map[], Ones(len), pieces), Ones(len), s)
    requires InPlace(Placed(map[], Single(len, s.offset), pieces), Single(len, s.offset), s)
    ensures Covered(pieces, s)
  {
    var k := FirstSource(pieces, len, s);
    var j := LastSource(pieces, len, s);
    OnePiece(pieces, j, k, s.addr);
    assert Holds(pieces[k], s);
  }

  // The first byte, where only the byte at its own place in the file is not zero.
  lemma FirstSource(pieces: seq<Segment>, len: nat, s: Segment) returns (k: nat)
    requires s.size > 0 && InPlace(Placed(map[], Single(len, s.offset), pieces), Single(len, s.offset), s)
    ensures k < |pieces| && Around(pieces[k], s.addr) && s.addr - pieces[k].addr == s.offset - pieces[k].offset
  {
    var kernel := Single(len, s.offset);
    PlacedSource(map[], kernel, pieces, s.addr);
    k :| 0 <= k < |pieces| && ComesFrom(kernel, pieces[k], s.addr, 1);
  }

  // The last byte, where no byte of the file is zero: its piece starts in front of the section.
  lemma LastSource(pieces: seq<Segment>, len: nat, s: Segment) returns (j: nat)
    requires s.size > 0 && InPlace(Placed(map[], Ones(len), pieces), Ones(len), s)
    requires forall k :: 0 <= k < |pieces| ==> !(s.addr < pieces[k].addr < s.addr + s.size)
    ensures j < |pieces| && Around(pieces[j], s.addr) && s.addr + s.size <= pieces[j].addr + pieces[j].size
  {
    var a := s.addr + s.size - 1;
    PlacedSource(map[], Ones(len), pieces, a);
    j :| 0 <= j < |pieces| && ComesFrom(Ones(len), pieces[j], a, 1);
  }

  lemma OnePiece(pieces: seq<Segment>, j: nat, k: nat, a: nat)
    requires Ascending(pieces) && j < |pieces| && k < |pieces|
    requires Around(pieces[j], a) && Around(pieces[k], a)
    ensures j == k
  {
  }

  predicate StartsAt(segs: seq<Segment>, p: Segment) {
    exists i :: 0 <= i < |segs| && segs[i].addr == p.addr
  }

  /** Every piece begins where a section does. */
  lemma {:induction false} PieceStarts(pending: seq<Segment>, rest: seq<Segment>, k: nat)
    requires (forall i :: 0 <= i < |rest| ==> rest[i].alloc) && k < |Emitted(rest, pending)|
    ensures StartsAt(pending + rest, Emitted(rest, pending)[k])
    decreases |rest|
  {
    var all := pending + rest;
    if rest[0].merge {
      assert pending + [rest[0]] + rest[1..] == all;
      PieceStarts(pending + [rest[0]], rest[1..], k);
    } else {
      var front, tail := Flush(pending, rest[0]), Emitted(rest[1..], []);
      assert Emitted(rest, pending) == front + tail;
      assert all[|pending|] == rest[0];
      if k >= |front| {
        PieceStarts([], rest[1..], k - |front|);
        var i :| 0 <= i < |[] + rest[1..]| && ([] + rest[1..])[i].addr == tail[k - |front|].addr;
        assert all[|pending| + 1 + i].addr == tail[k - |front|].addr;
      } else if pending != [] {
        assert all[0] == pending[0];
      }
    }
  }

  // So no piece begins inside a section.
  lemma NoStartInside(segs: seq<Segment>, k: nat, i: nat)
    requires Ascending(Alloc(segs)) && NoneEmpty(Alloc(segs)) && k < |Pieces(segs)| && i < |Alloc(segs)|
    ensures var s := Alloc(segs)[i]; !(s.addr < Pieces(segs)[k].addr < s.addr + s.size)
  {
    var a := Alloc(segs);
    AllQueued(segs);
    PieceStarts([], a, k);
    var j :| 0 <= j < |a| && a[j].addr == Pieces(segs)[k].addr;
    if j < i {
      assert a[j].addr + a[j].size <= a[i].addr;
    } else if i < j {
      assert a[i].addr + a[i].size <= a[j].addr;
    }
  }

  /** The image of every kernel file of this length and layout. */
  ghost predicate AlwaysRight(segs: seq<Segment>, len: nat) {
    forall kernel: seq<u8> :: |kernel| == len ==> AllInPlace(Placed(map[], kernel, Pieces(segs)), kernel, Alloc(segs))
  }

  /**
    What is loaded is right, whatever the kernel file holds, iff merge groups have no gaps and
    each of them is followed by a section without the flag.
   */
  lemma ImageRightIff(segs: seq<Segment>, len: nat)
    requires Ascending(Alloc(segs)) && NoneEmpty(Alloc(segs)) && EndsIn(Alloc(segs), len)
    ensures AlwaysRight(segs, len) <==> Contiguous(Alloc(segs)) && Closed(Alloc(segs))
  {
    CoveredIff(segs);
    if Contiguous(Alloc(segs)) && Closed(Alloc(segs)) {
      forall kernel: seq<u8> | |kernel| == len
        ensures AllInPlace(Placed(map[], kernel, Pieces(segs)), kernel, Alloc(segs))
      {
        CoveredInPlace(map[], kernel, segs);
      }
    }
    if AlwaysRight(segs, len) {
      forall i | 0 <= i < |Alloc(segs)|
        ensures Covered(Pieces(segs), Alloc(segs)[i])
      {
        RightMeansCovered(segs, len, i);
      }
    }
  }

  lemma RightMeansCovered(segs: seq<Segment>, len: nat, i: nat)
    requires Ascending(Alloc(segs)) && NoneEmpty(Alloc(segs)) && AlwaysRight(segs, len) && i < |Alloc(segs)|
    ensures Covered(Pieces(segs), Alloc(segs)[i])
  {
    var s := Alloc(segs)[i];
    AllQueued(segs);
    PiecesAscend(segs, High(Alloc(segs)));
    forall k | 0 <= k < |Pieces(segs)|
      ensures !(s.addr < Pieces(segs)[k].addr < s.addr + s.size)
    {
      NoStartInside(segs, k, i);
    }
    assert AllInPlace(Placed(map[], Ones(len), Pieces(segs)), Ones(len), Alloc(segs));
    assert AllInPlace(Placed(map[], Single(len, s.offset), Pieces(segs)), Single(len, s.offset), Alloc(segs));
    InPlaceMeansCovered(Pieces(segs), len, s);
  }

  // ----- two layouts that lose bytes

  const TRAILING: seq<Segment> := [Segment(0, 0, 1, true, false), Segment(16, 1, 1, true, true)]

  /** A merge section at the end of the table is missing from memory. */
  lemma TrailingExample()
    ensures Ascending(Alloc(TRAILING)) && !Closed(Alloc(TRAILING))
    ensures var r := LoadLines(Loading(None, 0, map[]), TextOf([7, 9], Pieces(TRAILING)));
            r.Some? && !InPlace(MemOf(r), [7, 9], TRAILING[1])
  {
    assert TRAILING[1..] == [TRAILING[1]] && TRAILING[1..][1..] == [];
    assert Alloc(TRAILING) == TRAILING;
    var pieces := Pieces(TRAILING);
    assert pieces == [TRAILING[0]];
    var l := Loading(None, 0, map[]);
    TextBack(l, [7, 9], pieces);
    OutsideKept(map[], [7, 9], pieces, 16);
  }

  const GAP: seq<Segment> :=
    [Segment(0, 0, 1, true, true), Segment(4, 1, 1, true, true), Segment(8, 2, 1, true, false)]

  /** Two merge sections with a gap between them: the second one is written behind the first, not at its address. */
  lemma GapExample()
    ensures Ascending(Alloc(GAP)) && !Contiguous(Alloc(GAP))
    ensures var r := LoadLines(Loading(None, 0, map[]), TextOf([7, 8, 9], Pieces(GAP)));
            r.Some? && !InPlace(MemOf(r), [7, 8, 9], GAP[1])
  {
    assert GAP[1..] == [GAP[1], GAP[2]] && GAP[1..][1..] == [GAP[2]] && GAP[1..][1..][1..] == [];
    assert Alloc(GAP) == GAP;
    assert !Follows(GAP[0], GAP[1]);
    GapPieces();
    var l, kernel, pieces := Loading(None, 0, map[]), [7, 8, 9], [Segment(0, 0, 2, true, false), GAP[2]];
    TextBack(l, kernel, pieces);
    var placed := Placed(map[], kernel, pieces);
    if InPlace(placed, kernel, GAP[1]) {
      assert placed[4] == 8;
      PlacedSource(map[], kernel, pieces, 4);
      assert false;
    }
  }

  lemma GapPieces()
    ensures Pieces(GAP) == [Segment(0, 0, 2, true, false), GAP[2]]
  {
    assert GAP[1..] == [GAP[1], GAP[2]] && GAP[1..][1..] == [GAP[2]] && GAP[1..][1..][1..] == [];
    var merge := [] + [GAP[0]] + [GAP[1]];
    assert merge == [GAP[0], GAP[1]] && merge[..1] == [GAP[0]] && merge[..1][..0] == [];
    assert merge[..|merge| - 1] == [GAP[0]] && [GAP[0]][..0] == [];
    assert TotalSize([]) == 0;
    assert TotalSize([GAP[0]]) == 1;
    assert TotalSize(merge) == 2;
    assert Combine(merge) == Segment(0, 0, 2, true, false);
    assert Emitted([], []) == [];
    assert Emitted([GAP[2]], merge) == [Combine(merge)] + [GAP[2]] + [];
  }
}
