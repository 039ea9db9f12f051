/**
  linux_boot/bootloader.c: reads image text and stores it in physical memory, through a mapping
  of the page that the last origin line named.
 */
module ImageLoader {
  import opened Words
  import opened ImageText

  const PAGE: int := 4096

  /** The mapped page, where the write pointer stands in it, and physical memory. */
  datatype Loading = Loading(page: Option<nat>, off: nat, mem: map<nat, u8>)

  function Poke(mem: map<nat, u8>, at: nat, bytes: seq<u8>): map<nat, u8>
    decreases |bytes|
  {
    if bytes == [] then mem else Poke(mem[at := bytes[0]], at + 1, bytes[1..])
  }

  /** Poke changes exactly the bytes it names. */
  lemma {:induction false} PokeAt(mem: map<nat, u8>, at: nat, bytes: seq<u8>, a: nat)
    ensures a in Poke(mem, at, bytes) <==> a in mem || at <= a < at + |bytes|
    ensures at <= a < at + |bytes| ==> Poke(mem, at, bytes)[a] == bytes[a - at]
    ensures a in mem && !(at <= a < at + |bytes|) ==> Poke(mem, at, bytes)[a] == mem[a]
    decreases |bytes|
  {
    if bytes != [] {
      PokeAt(mem[at := bytes[0]], at + 1, bytes[1..], a);
    }
  }

  lemma {:induction false} PokeAppend(mem: map<nat, u8>, at: nat, a: seq<u8>, b: seq<u8>)
    ensures Poke(Poke(mem, at, a), at + |a|, b) == Poke(mem, at, a + b)
    decreases |a|
  {
    if a == [] {
      assert a + b == b;
    } else {
      assert (a + b)[1..] == a[1..] + b;
      PokeAppend(mem[at := a[0]], at + 1, a[1..], b);
    }
  }

  // ----- what a file of lines does

  /** The first n fields of a line. */
  function Parsed(line: string, n: nat): (bytes: seq<u8>)
    requires 3 * n <= |line| + 1
    ensures |bytes| == n
  {
    if n == 0 then [] else Parsed(line, n - 1) + [FieldOf(line, n - 1)]
  }

  lemma {:induction false} ParsedAt(line: string, n: nat, i: nat)
    requires i < n && 3 * n <= |line| + 1
    ensures Parsed(line, n)[i] == FieldOf(line, i)
  {
    if i < n - 1 {
      ParsedAt(line, n - 1, i);
    }
  }

  /**
    One line of the file.  None: the store has no mapping, or runs out of the mapped page, or the
    line is too short for its sixteen fields.
   */
  function LoadLine(l: Loading, line: string): Option<Loading> {
    if IsOrigin(line) then
      Some(Loading(Some(OriginOf(line) - OriginOf(line) % PAGE), OriginOf(line) % PAGE, l.mem))
    else if |line| < 47 || l.page.None? || l.off + 16 > PAGE then None
    else Some(Loading(l.page, l.off + 16, Poke(l.mem, l.page.value + l.off, Parsed(line, 16))))
  }

  function LoadLines(l: Loading, lines: seq<string>): Option<Loading>
    decreases |lines|
  {
    if lines == [] then Some(l)
    else match LoadLine(l, lines[0])
      case None => None
      case Some(next) => LoadLines(next, lines[1..])
  }

  lemma {:induction false} LoadAppend(l: Loading, a: seq<string>, b: seq<string>)
    ensures LoadLines(l, a + b) ==
            match LoadLines(l, a) { case None => None case Some(next) => LoadLines(next, b) }
    decreases |a|
  {
    if a == [] {
      assert a + b == b;
    } else {
      assert (a + b)[1..] == a[1..] + b;
      var first := LoadLine(l, a[0]);
      if first.Some? {
        LoadAppend(first.value, a[1..], b);
      }
    }
  }

  // ----- the loops that do it

  function FieldWord(line: string, i: nat): u32
    requires i < 4 && |line| >= 47
  {
    Word32(FieldOf(line, 4 * i), FieldOf(line, 4 * i + 1), FieldOf(line, 4 * i + 2), FieldOf(line, 4 * i + 3))
  }

  /** The inner loop: four fields, then the word they make. */
  method WordOf(line: string, i: nat) returns (data: u32)
    requires i < 4 && |line| >= 47
    ensures data == FieldWord(line, i)
  {
    var parsed := new u8[4];
    var j := 0;
    while j < 4
      invariant 0 <= j <= 4
      invariant forall k :: 0 <= k < j ==> parsed[k] == FieldOf(line, 4 * i + k)
    {
      parsed[j] := FieldOf(line, 4 * i + j);
      j := j + 1;
    }
    data := Word32(parsed[0], parsed[1], parsed[2], parsed[3]);
  }

  class Loader {
    var page: Option<nat>
    var off: nat
    var mem: map<nat, u8>

    constructor (mem: map<nat, u8>)
      ensures State() == Loading(None, 0, mem)
    {
      this.page := None;
      this.off := 0;
      this.mem := mem;
    }

    ghost function State(): Loading
      reads this
    {
      Loading(page, off, mem)
    }

    /** *log_phy_addr++ = data, on a little-endian machine. */
    method StoreWord(data: u32) returns (ok: bool)
      modifies this
      ensures ok == (old(page).Some? && old(off) + 4 <= PAGE)
      ensures !ok ==> State() == old(State())
      ensures ok ==> State() == Loading(old(page), old(off) + 4, Poke(old(mem), old(page).value + old(off), Bytes32(data)))
    {
      ok := page.Some? && off + 4 <= PAGE;
      if ok {
        mem := Poke(mem, page.value + off, Bytes32(data));
        off := off + 4;
      }
    }

    /** One data line: four words of four fields each. */
    method StoreLine(line: string) returns (ok: bool)
      requires |line| >= 47
      modifies this
      ensures ok == (old(page).Some? && old(off) + 16 <= PAGE)
      ensures ok ==> State() == Loading(old(page), old(off) + 16,
                                        Poke(old(mem), old(page).value + old(off), Parsed(line, 16)))
    {
      var i := 0;
      ok := true;
      ghost var at := if page.None? then 0 else page.value + off;
      while i < 4 && ok
        invariant 0 <= i <= 4
        invariant ok ==> page == old(page) && off == old(off) + 4 * i
        invariant ok ==> mem == Poke(old(mem), at, Parsed(line, 4 * i))
        invariant ok && i > 0 ==> page.Some? && off <= PAGE
        invariant !ok ==> old(page).None? || old(off) + 4 * i > PAGE
      {
        var data := WordOf(line, i);
        FourMore(line, i, old(mem), at);
        ok := StoreWord(data);
        i := i + 1;
      }
    }

    /** The fgets loop of main. */
    method Load(lines: seq<string>) returns (ok: bool)
      modifies this
      ensures ok == LoadLines(old(State()), lines).Some?
      ensures ok ==> State() == LoadLines(old(State()), lines).value
    {
      ok := true;
      var k := 0;
      while k < |lines|
        invariant 0 <= k <= |lines|
        invariant ok
        invariant LoadLines(old(State()), lines) == LoadLines(State(), lines[k..])
      {
        var buf := lines[k];
        assert lines[k..][1..] == lines[k + 1..];
        if IsOrigin(buf) {
          var physicaladdress := OriginOf(buf);
          page := Some(physicaladdress - physicaladdress % PAGE);
          off := physicaladdress % PAGE;
        } else if |buf| < 47 {
          ok := false;
          return;
        } else {
          ok := StoreLine(buf);
          if !ok {
            return;
          }
        }
        k := k + 1;
      }
    }
  }

  lemma ParsedFour(line: string, n: nat)
    requires 3 * (n + 4) <= |line| + 1
    ensures Parsed(line, n + 4)
         == Parsed(line, n) + [FieldOf(line, n), FieldOf(line, n + 1), FieldOf(line, n + 2), FieldOf(line, n + 3)]
  {
    assert Parsed(line, n + 2) == Parsed(line, n) + [FieldOf(line, n), FieldOf(line, n + 1)];
    assert Parsed(line, n + 4) == Parsed(line, n + 2) + [FieldOf(line, n + 2), FieldOf(line, n + 3)];
  }

  // The word of four fields, as bytes, extends what is stored by these fields.
  lemma FourMore(line: string, i: nat, mem: map<nat, u8>, at: nat)
    requires i < 4 && |line| >= 47
    ensures Poke(Poke(mem, at, Parsed(line, 4 * i)), at + 4 * i, Bytes32(FieldWord(line, i)))
         == Poke(mem, at, Parsed(line, 4 * (i + 1)))
  {
    var a, b, c, d := FieldOf(line, 4 * i), FieldOf(line, 4 * i + 1), FieldOf(line, 4 * i + 2), FieldOf(line, 4 * i + 3);
    BytesRoundTrip(a, b, c, d);
    PokeAppend(mem, at, Parsed(line, 4 * i), [a, b, c, d]);
    ParsedFour(line, 4 * i);
  }
}
