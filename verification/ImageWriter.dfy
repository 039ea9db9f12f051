/**
  scripts/parser.py: turns the allocated sections of a kernel file into image text.
 */
module ImageWriter {
  import opened Words
  import opened ImageText

  /** The columns of a section header the writer uses; `merge` and `alloc` are its M and A flags. */
  datatype Segment = Segment(addr: nat, offset: nat, size: nat, alloc: bool, merge: bool)

  /** Sixteen bytes to a line, the rest on the last one. */
  function DataLines(bytes: seq<u8>): (lines: seq<string>)
    ensures |lines| == (|bytes| + 15) / 16
    decreases |bytes|
  {
    if |bytes| == 0 then []
    else if |bytes| <= 16 then [HexLine(bytes)]
    else [HexLine(bytes[..16])] + DataLines(bytes[16..])
  }

  /** A page of 256 lines after each origin line; the last origin takes what is left. */
  function FileText(addr: nat, bytes: seq<u8>): (lines: seq<string>)
    decreases |bytes|
  {
    [OriginLine(addr)] +
    if |bytes| <= 4096 then DataLines(bytes)
    else DataLines(bytes[..4096]) + FileText(addr + 4096, bytes[4096..])
  }

  function Min(a: nat, b: nat): nat {
    if a <= b then a else b
  }

  /** What hexdump -s offset -n size reads: up to the end of the file. */
  function SegmentBytes(kernel: seq<u8>, s: Segment): (bytes: seq<u8>)
    ensures s.offset + s.size <= |kernel| ==> bytes == kernel[s.offset..s.offset + s.size]
    ensures |bytes| <= s.size
  {
    kernel[Min(s.offset, |kernel|)..Min(s.offset + s.size, |kernel|)]
  }

  function TextOf(kernel: seq<u8>, segs: seq<Segment>): seq<string> {
    if segs == [] then []
    else FileText(segs[0].addr, SegmentBytes(kernel, segs[0])) + TextOf(kernel, segs[1..])
  }

  lemma {:induction false} TextOfAppend(kernel: seq<u8>, a: seq<Segment>, s: Segment)
    ensures TextOf(kernel, a + [s]) == TextOf(kernel, a) + FileText(s.addr, SegmentBytes(kernel, s))
    decreases |a|
  {
    if a == [] {
      assert [s][1..] == [];
    } else {
      assert (a + [s])[1..] == a[1..] + [s];
      TextOfAppend(kernel, a[1..], s);
    }
  }

  function TotalSize(segs: seq<Segment>): nat {
    if segs == [] then 0 else TotalSize(segs[..|segs| - 1]) + segs[|segs| - 1].size
  }

  /** binary.combine: the place of the first section, the sizes of all of them. */
  function Combine(segs: seq<Segment>): Segment
    requires segs != []
  {
    Segment(segs[0].addr, segs[0].offset, TotalSize(segs), true, false)
  }

  /** The pieces process writes, with `pending` merge sections waiting. */
  function Emitted(segs: seq<Segment>, pending: seq<Segment>): seq<Segment>
    decreases |segs|
  {
    if segs == [] then []
    else if !segs[0].alloc then Emitted(segs[1..], pending)
    else if segs[0].merge then Emitted(segs[1..], pending + [segs[0]])
    else (if pending != [] then [Combine(pending)] else []) + [segs[0]] + Emitted(segs[1..], [])
  }

  // ----- the header list of a segment and its data, line by line

  function Origins(addr: nat, count: nat): (hs: seq<string>)
    ensures |hs| == count
  {
    if count == 0 then [] else Origins(addr, count - 1) + [OriginLine(addr + (count - 1) * 4096)]
  }

  /** Segmant.getHeader: one origin for up to 256 lines, else one per started page of lines. */
  method GetHeader(addr: nat, lines: nat) returns (header: seq<string>)
    ensures header == Origins(addr, if lines <= 256 then 1 else (lines + 255) / 256)
  {
    if lines <= 256 {
      header := [OriginLine(addr)];
      assert Origins(addr, 0) == [];
    } else {
      var count := 0;
      header := [];
      var final := lines / 256 + if lines % 256 == 0 then 0 else 1;
      while count < final
        invariant 0 <= count <= final && header == Origins(addr, count)
      {
        header := header + [OriginLine(addr + count * 4096)];
        count := count + 1;
      }
    }
  }

  /** What toFile writes once `count` headers and their pages are out. */
  function Rest(header: seq<string>, data: seq<string>, count: nat): seq<string>
    requires count < |header| && 256 * count <= |data|
    requires 256 * (|header| - 1) <= |data|
    decreases |header| - count
  {
    if count == |header| - 1 then [header[count]] + data[count * 256..]
    else [header[count]] + data[count * 256..(count + 1) * 256] + Rest(header, data, count + 1)
  }

  lemma LinesSplit(bytes: seq<u8>, pages: nat)
    requires 4096 * pages <= |bytes|
    ensures DataLines(bytes)[..256 * pages] == DataLines(bytes[..4096 * pages])
    ensures DataLines(bytes)[256 * pages..] == DataLines(bytes[4096 * pages..])
  {
    LinesPart(bytes[..4096 * pages], bytes[4096 * pages..], 256 * pages);
    assert bytes[..4096 * pages] + bytes[4096 * pages..] == bytes;
  }

  lemma LinesPart(front: seq<u8>, back: seq<u8>, n: nat)
    requires |front| == 16 * n
    ensures n <= |DataLines(front + back)|
    ensures DataLines(front + back)[..n] == DataLines(front) && DataLines(front + back)[n..] == DataLines(back)
  {
    LinesJoin(front, back, n);
    JoinSplit(DataLines(front), DataLines(back));
  }

  lemma JoinSplit(a: seq<string>, b: seq<string>)
    ensures (a + b)[..|a|] == a && (a + b)[|a|..] == b
  {
  }

  /** Whole lines in front stay lines of their own. */
  lemma {:induction false} LinesJoin(a: seq<u8>, b: seq<u8>, n: nat)
    requires |a| == 16 * n
    ensures |DataLines(a)| == n && DataLines(a + b) == DataLines(a) + DataLines(b)
    decreases n
  {
    if n == 0 {
      assert a + b == b;
    } else {
      LinesJoin(a[16..], b, n - 1);
      FirstLine(a);
      FirstOfBoth(a, b);
      LineInFront(HexLine(a[..16]), DataLines(a[16..]), DataLines(b));
    }
  }

  lemma FirstOfBoth(a: seq<u8>, b: seq<u8>)
    requires |a| >= 16
    ensures DataLines(a + b) == [HexLine(a[..16])] + DataLines(a[16..] + b)
  {
    assert (a + b)[..16] == a[..16] && (a + b)[16..] == a[16..] + b;
    FirstLine(a + b);
  }

  lemma LineInFront(line: string, a: seq<string>, b: seq<string>)
    ensures [line] + (a + b) == [line] + a + b
  {
  }

  lemma FirstLine(bytes: seq<u8>)
    requires |bytes| >= 16
    ensures DataLines(bytes) == [HexLine(bytes[..16])] + DataLines(bytes[16..])
  {
    if |bytes| == 16 {
      assert bytes[..16] == bytes;
    }
  }

  /** How many origin lines a segment of n bytes gets. */
  function Pages(n: nat): nat {
    if n <= 4096 then 1 else (n + 4095) / 4096
  }

  lemma {:induction false} OriginAt(addr: nat, count: nat, i: nat)
    requires i < count
    ensures Origins(addr, count)[i] == OriginLine(addr + i * 4096)
  {
    if i < count - 1 {
      OriginAt(addr, count - 1, i);
    }
  }

  lemma PagesBound(n: nat, count: nat)
    requires count < Pages(n)
    ensures 4096 * count <= n && 256 * count <= (n + 15) / 16
    ensures count == Pages(n) - 1 <==> n - 4096 * count <= 4096
    ensures Pages(n) == if (n + 15) / 16 <= 256 then 1 else ((n + 15) / 16 + 255) / 256
  {
  }

  lemma TextStep(addr: nat, bytes: seq<u8>)
    requires |bytes| > 4096
    ensures FileText(addr, bytes) == [OriginLine(addr)] + DataLines(bytes[..4096]) + FileText(addr + 4096, bytes[4096..])
  {
  }

  // The page that starts at byte 4096 * count.
  lemma PageOfData(bytes: seq<u8>, count: nat)
    requires 4096 * (count + 1) <= |bytes| && 256 * (count + 1) <= |DataLines(bytes)|
    ensures DataLines(bytes)[count * 256..(count + 1) * 256] == DataLines(bytes[4096 * count..][..4096])
    ensures bytes[4096 * count..][4096..] == bytes[4096 * (count + 1)..]
  {
    PageAt(bytes, 4096 * count, 256 * count);
    assert bytes[4096 * count..][4096..] == bytes[4096 * count + 4096..];
  }

  lemma PageAt(bytes: seq<u8>, at: nat, n: nat)
    requires at == 16 * n && at + 4096 <= |bytes| && n + 256 <= |DataLines(bytes)|
    ensures DataLines(bytes)[n..n + 256] == DataLines(bytes[at..][..4096])
  {
    var back := bytes[at..];
    LinesPart(bytes[..at], back, n);
    assert bytes[..at] + back == bytes;
    LinesPart(back[..4096], back[4096..], 256);
    assert back[..4096] + back[4096..] == back;
    PageOf(DataLines(bytes), n, n + 256);
  }

  lemma PageOf(data: seq<string>, lo: nat, hi: nat)
    requires hi == lo + 256 <= |data|
    ensures data[lo..hi] == data[lo..][..256]
  {
  }

  // A page in front of the text of the pages behind it.
  lemma PageThenText(addr: nat, bytes: seq<u8>, header: seq<string>, count: nat)
    requires count < |header| - 1 && 4096 * (count + 1) < |bytes| && 256 * (|header| - 1) <= |DataLines(bytes)|
    requires header[count] == OriginLine(addr + 4096 * count)
    requires Rest(header, DataLines(bytes), count + 1) == FileText(addr + 4096 * (count + 1), bytes[4096 * (count + 1)..])
    ensures Rest(header, DataLines(bytes), count) == FileText(addr + 4096 * count, bytes[4096 * count..])
  {
    PageOfData(bytes, count);
    TextStep(addr + 4096 * count, bytes[4096 * count..]);
    RestUnfold(header, DataLines(bytes), count);
  }

  // The last page.
  lemma LastText(addr: nat, bytes: seq<u8>, header: seq<string>, count: nat)
    requires count == |header| - 1 && 4096 * count <= |bytes| <= 4096 * (count + 1) && 256 * count <= |DataLines(bytes)|
    requires header[count] == OriginLine(addr + 4096 * count)
    ensures Rest(header, DataLines(bytes), count) == FileText(addr + 4096 * count, bytes[4096 * count..])
  {
    LinesSplit(bytes, count);
  }

  lemma PageFacts(n: nat, pages: nat, count: nat)
    requires pages == Pages(n) && count < pages
    ensures 4096 * count <= n && 256 * count <= (n + 15) / 16
    ensures count < pages - 1 ==> 4096 * (count + 1) < n && 256 * (count + 1) <= (n + 15) / 16
    ensures count == pages - 1 ==> n <= 4096 * (count + 1)
  {
  }

  // With the arithmetic of pages settled, the text from page `count` on, given the text behind that page.
  lemma RestNext(addr: nat, bytes: seq<u8>, header: seq<string>, count: nat)
    requires header == Origins(addr, |header|) && count < |header| - 1 && 256 * (|header| - 1) <= |DataLines(bytes)|
    requires 4096 * (count + 1) < |bytes|
    requires Rest(header, DataLines(bytes), count + 1) == FileText(addr + 4096 * (count + 1), bytes[4096 * (count + 1)..])
    ensures Rest(header, DataLines(bytes), count) == FileText(addr + 4096 * count, bytes[4096 * count..])
  {
    OriginAt(addr, |header|, count);
    PageThenText(addr, bytes, header, count);
  }

  lemma RestEnd(addr: nat, bytes: seq<u8>, header: seq<string>, count: nat)
    requires header == Origins(addr, |header|) && count == |header| - 1 && 256 * count <= |DataLines(bytes)|
    requires 4096 * count <= |bytes| <= 4096 * (count + 1)
    ensures Rest(header, DataLines(bytes), count) == FileText(addr + 4096 * count, bytes[4096 * count..])
  {
    OriginAt(addr, |header|, count);
    LastText(addr, bytes, header, count);
  }

  /** Writing header by header gives the text of the segment. */
  lemma {:induction false} RestIsText(addr: nat, bytes: seq<u8>, header: seq<string>, count: nat)
    requires header == Origins(addr, Pages(|bytes|)) && count < |header|
    requires 256 * (|header| - 1) <= |DataLines(bytes)|
    ensures 4096 * count <= |bytes| && 256 * count <= |DataLines(bytes)|
    ensures Rest(header, DataLines(bytes), count) == FileText(addr + 4096 * count, bytes[4096 * count..])
    decreases |header| - count
  {
    PageFacts(|bytes|, |header|, count);
    if count < |header| - 1 {
      RestIsText(addr, bytes, header, count + 1);
      RestNext(addr, bytes, header, count);
    } else {
      RestEnd(addr, bytes, header, count);
    }
  }

  lemma RestFromStart(addr: nat, bytes: seq<u8>, header: seq<string>)
    requires header == Origins(addr, if |DataLines(bytes)| <= 256 then 1 else (|DataLines(bytes)| + 255) / 256)
    ensures |header| >= 1 && 256 * (|header| - 1) <= |DataLines(bytes)|
    ensures Rest(header, DataLines(bytes), 0) == FileText(addr, bytes)
  {
    PagesBound(|bytes|, 0);
    PagesBound(|bytes|, Pages(|bytes|) - 1);
    RestIsText(addr, bytes, header, 0);
    assert bytes[0..] == bytes;
  }

  lemma RestUnfold(header: seq<string>, data: seq<string>, count: nat)
    requires count < |header| - 1 && 256 * (|header| - 1) <= |data|
    ensures Rest(header, data, count)
         == [header[count]] + data[count * 256..(count + 1) * 256] + Rest(header, data, count + 1)
  {
  }

  lemma RestStep(header: seq<string>, data: seq<string>, count: nat, out: seq<string>)
    requires count < |header| - 1 && 256 * (|header| - 1) <= |data|
    ensures 256 * (count + 1) <= |data|
    ensures out + Rest(header, data, count)
         == out + [header[count]] + data[count * 256..(count + 1) * 256] + Rest(header, data, count + 1)
  {
    var page := data[count * 256..(count + 1) * 256];
    assert Rest(header, data, count) == [header[count]] + page + Rest(header, data, count + 1);
  }

  lemma RestLast(header: seq<string>, data: seq<string>, count: nat, out: seq<string>)
    requires count == |header| - 1 && 256 * (|header| - 1) <= |data|
    ensures out + Rest(header, data, count) == out + [header[count]] + data[count * 256..]
  {
    assert Rest(header, data, count) == [header[count]] + data[count * 256..];
  }

  lemma Assoc(a: seq<string>, b: seq<string>, c: seq<string>)
    ensures a + b + c == a + (b + c)
  {
  }

  class Binary {
    const kernel: seq<u8>
    // The output file, opened for appending, line by line.
    var out: seq<string>

    constructor (kernel: seq<u8>)
      ensures this.kernel == kernel && out == []
    {
      this.kernel := kernel;
      out := [];
    }

    /** binary.toFile */
    method ToFile(s: Segment)
      modifies this
      ensures out == old(out) + FileText(s.addr, SegmentBytes(kernel, s))
    {
      var bytes := SegmentBytes(kernel, s);
      var data := DataLines(bytes);
      var header := GetHeader(s.addr, |data|);
      RestFromStart(s.addr, bytes, header);
      var count := 0;
      while count < |header| - 1
        invariant 0 <= count <= |header| - 1
        invariant out + Rest(header, data, count) == old(out) + FileText(s.addr, bytes)
      {
        RestStep(header, data, count, out);
        out := out + [header[count]] + data[count * 256..(count + 1) * 256];
        count := count + 1;
      }
      RestLast(header, data, count, out);
      out := out + [header[count]] + data[count * 256..];
    }

    // The call of toFile for the next piece, when `done` is already written behind `start`.
    method Append(s: Segment, ghost done: seq<Segment>, ghost start: seq<string>)
      requires out == start + TextOf(kernel, done)
      modifies this
      ensures out == start + TextOf(kernel, done + [s])
    {
      TextOfAppend(kernel, done, s);
      Assoc(start, TextOf(kernel, done), FileText(s.addr, SegmentBytes(kernel, s)));
      ToFile(s);
    }

    /** binary.process: merge sections are collected until a section without the flag comes. */
    method Process(segs: seq<Segment>)
      modifies this
      ensures out == old(out) + TextOf(kernel, Emitted(segs, []))
    {
      var merge: seq<Segment> := [];
      var i := 0;
      ghost var done: seq<Segment> := [];
      while i < |segs|
        invariant 0 <= i <= |segs|
        invariant done + Emitted(segs[i..], merge) == Emitted(segs, [])
        invariant out == old(out) + TextOf(kernel, done)
      {
        var s := segs[i];
        EmittedStep(segs, i, merge, done);
        if s.alloc {
          if s.merge {
            merge := merge + [s];
          } else {
            if merge != [] {
              Append(Combine(merge), done, old(out));
              done := done + [Combine(merge)];
              merge := [];
            }
            Append(s, done, old(out));
            done := done + [s];
          }
        }
        i := i + 1;
      }
      assert done + [] == done;
    }
  }

  // One turn of the loop in process.
  lemma EmittedStep(segs: seq<Segment>, i: nat, merge: seq<Segment>, done: seq<Segment>)
    requires i < |segs|
    ensures done + Emitted(segs[i..], merge) ==
            if !segs[i].alloc then done + Emitted(segs[i + 1..], merge)
            else if segs[i].merge then done + Emitted(segs[i + 1..], merge + [segs[i]])
            else if merge != [] then done + [Combine(merge)] + [segs[i]] + Emitted(segs[i + 1..], [])
            else done + [segs[i]] + Emitted(segs[i + 1..], [])
  {
    assert segs[i..][1..] == segs[i + 1..];
    if segs[i].alloc && !segs[i].merge {
      var tail := Emitted(segs[i + 1..], []);
      assert done + ([Combine0(merge)] + [segs[i]] + tail) == done + [Combine0(merge)] + [segs[i]] + tail;
      assert done + ([] + [segs[i]] + tail) == done + [segs[i]] + tail;
    }
  }

  ghost function Combine0(merge: seq<Segment>): Segment {
    if merge == [] then Segment(0, 0, 0, true, false) else Combine(merge)
  }
}
