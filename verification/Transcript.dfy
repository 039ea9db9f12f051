/**
  What a string looks like on an unbounded page of 80 columns: the page the text console shows
  the last 25 rows of.
 */
module Transcript {
  import opened Words

  // The screen has 25 rows of 80 columns, 2000 cells.

  /** What vga_clear fills the screen with: its character and attribute are in one byte. */
  const CLEARED: u16 := 0x002f
  /** What vga_scroll fills the last row with: a space, white on black. */
  const SCROLLED: u16 := 0x0f20

  predicate IsNewline(ch: u8) {
    ch == 10 || ch == 13
  }

  /** A character with its attribute. */
  function Glyph(attr: u8, ch: u8): u16 {
    attr * 0x100 + ch
  }

  /** Where the next character goes, counting cells from the top of the page. */
  function Pos(text: seq<u8>): nat {
    if text == [] then 0
    else
      var p := Pos(text[..|text| - 1]);
      if IsNewline(text[|text| - 1]) then (p / 80 + 1) * 80 else p + 1
  }

  /** The cells that have been written. */
  function Cells(text: seq<u8>, attr: u8): map<nat, u16> {
    if text == [] then map[]
    else
      var init, ch := text[..|text| - 1], text[|text| - 1];
      if IsNewline(ch) then Cells(init, attr) else Cells(init, attr)[Pos(init) := Glyph(attr, ch)]
  }

  /** Any cell of the page: the first 25 rows were cleared, later ones scrolled in. */
  function CellAt(text: seq<u8>, attr: u8, q: nat): u16 {
    var cells := Cells(text, attr);
    if q in cells then cells[q] else if q < 2000 then CLEARED else SCROLLED
  }

  /** The first row of the page on the screen. */
  function Top(text: seq<u8>): nat {
    if Pos(text) / 80 >= 25 then Pos(text) / 80 - 24 else 0
  }

  /** Nothing is written at or behind the position of the next character. */
  lemma {:induction false} CellsBehind(text: seq<u8>, attr: u8)
    ensures forall q :: q in Cells(text, attr) ==> q < Pos(text)
  {
    if text != [] {
      CellsBehind(text[..|text| - 1], attr);
    }
  }

  // ----- the page is the text

  function Visible(text: seq<u8>): seq<u8> {
    if text == [] then []
    else Visible(text[..|text| - 1]) + if IsNewline(text[|text| - 1]) then [] else [text[|text| - 1]]
  }

  /** Every character that is not a newline has a cell of its own. */
  lemma {:induction false} CellsCount(text: seq<u8>, attr: u8)
    ensures |Cells(text, attr)| == |Visible(text)|
  {
    if text != [] {
      CellsCount(text[..|text| - 1], attr);
      CellsBehind(text[..|text| - 1], attr);
    }
  }

  /** Without newlines the text simply fills the page, 80 cells a row. */
  lemma {:induction false} PlainText(text: seq<u8>, attr: u8)
    requires forall i :: 0 <= i < |text| ==> !IsNewline(text[i])
    ensures Pos(text) == |text|
    ensures forall q :: q in Cells(text, attr) <==> 0 <= q < |text|
    ensures forall q :: 0 <= q < |text| ==> Cells(text, attr)[q] % 0x100 == text[q] && Cells(text, attr)[q] / 0x100 == attr
  {
    if text != [] {
      PlainText(text[..|text| - 1], attr);
      GlyphBytes(attr, text[|text| - 1]);
    }
  }

  /** The character is the low byte of its cell, the attribute the high one. */
  lemma GlyphBytes(attr: u8, ch: u8)
    ensures Glyph(attr, ch) % 0x100 == ch && Glyph(attr, ch) / 0x100 == attr
  {
    DivModUnique(attr * 0x100 + ch, 0x100, attr, ch);
  }

  /** The first cell of the row below the one the text ends in. */
  function NextRow(a: seq<u8>): nat {
    (Pos(a) / 80 + 1) * 80
  }

  lemma RowsDown(m: nat, p: nat)
    ensures (m * 80 + p) / 80 == m + p / 80
  {
  }

  lemma PosInit(text: seq<u8>, init: seq<u8>, ch: u8)
    requires text == init + [ch]
    ensures Pos(text) == if IsNewline(ch) then (Pos(init) / 80 + 1) * 80 else Pos(init) + 1
  {
    assert text[..|text| - 1] == init;
  }

  lemma {:induction false} PosAfterNewline(a: seq<u8>, nl: u8, b: seq<u8>)
    requires IsNewline(nl)
    ensures Pos(a + [nl] + b) == NextRow(a) + Pos(b)
    decreases |b|
  {
    if b == [] {
      assert a + [nl] + [] == a + [nl];
      PosInit(a + [nl], a, nl);
    } else {
      var init, ch := b[..|b| - 1], b[|b| - 1];
      PosAfterNewline(a, nl, init);
      assert a + [nl] + b == (a + [nl] + init) + [ch];
      PosInit(a + [nl] + b, a + [nl] + init, ch);
      RowsDown(Pos(a) / 80 + 1, Pos(init));
    }
  }

  /** What follows a newline is printed as on a fresh page, from the next row on. */
  lemma {:induction false} AfterNewline(a: seq<u8>, nl: u8, b: seq<u8>, attr: u8, q: nat)
    requires IsNewline(nl)
    ensures var page, start := Cells(a + [nl] + b, attr), NextRow(a);
            && (q in Cells(a, attr) ==> q < start && q in page && page[q] == Cells(a, attr)[q])
            && (q < start && q !in Cells(a, attr) ==> q !in page)
            && (q >= start ==> (q in page <==> q - start in Cells(b, attr)))
            && (q >= start && q in page ==> page[q] == Cells(b, attr)[q - start])
    decreases |b|
  {
    var text := a + [nl] + b;
    CellsBehind(a, attr);
    if b == [] {
      assert text[..|text| - 1] == a;
    } else {
      var init := b[..|b| - 1];
      AfterNewline(a, nl, init, attr, q);
      PosAfterNewline(a, nl, init);
      assert text[..|text| - 1] == a + [nl] + init && text[|text| - 1] == b[|b| - 1];
    }
  }

  // ----- the window

  /** The 25 rows of the page from row Top on. */
  function Screen(text: seq<u8>, attr: u8): (cells: seq<u16>)
    ensures |cells| == 2000
    ensures forall k :: 0 <= k < 2000 ==> cells[k] == CellAt(text, attr, Top(text) * 80 + k)
  {
    seq<u16>(2000, k requires 0 <= k => CellAt(text, attr, Top(text) * 80 + k))
  }

  /** The screen with every row moved up and the last one blanked. */
  function Scrolled(cells: seq<u16>): seq<u16>
    requires |cells| == 2000
  {
    cells[80..] + seq(80, _ => SCROLLED)
  }

  lemma CellStep(text: seq<u8>, attr: u8, ch: u8, q: nat)
    ensures CellAt(text + [ch], attr, q) ==
            if !IsNewline(ch) && q == Pos(text) then Glyph(attr, ch) else CellAt(text, attr, q)
  {
    assert (text + [ch])[..|text|] == text;
  }

  lemma PosStep(text: seq<u8>, ch: u8)
    ensures Pos(text + [ch]) == if IsNewline(ch) then (Pos(text) / 80 + 1) * 80 else Pos(text) + 1
    ensures Top(text + [ch]) == Top(text) || (Top(text + [ch]) == Top(text) + 1 && Pos(text + [ch]) % 80 == 0
                                              && Pos(text + [ch]) == (Top(text) + 25) * 80)
  {
    assert (text + [ch])[..|text|] == text;
  }

  /** The screen after the character is written and before anything moves. */
  function Written(text: seq<u8>, attr: u8, ch: u8): (cells: seq<u16>)
    requires Top(text) * 80 <= Pos(text) < Top(text) * 80 + 2000
    ensures |cells| == 2000
  {
    if IsNewline(ch) then Screen(text, attr)
    else Screen(text, attr)[Pos(text) - Top(text) * 80 := Glyph(attr, ch)]
  }

  lemma PosOnScreen(text: seq<u8>)
    ensures Top(text) * 80 <= Pos(text) < Top(text) * 80 + 2000
  {
  }

  lemma WrittenAt(text: seq<u8>, attr: u8, ch: u8, k: nat)
    requires k < 2000 && Top(text) * 80 <= Pos(text) < Top(text) * 80 + 2000
    ensures Written(text, attr, ch)[k] == CellAt(text + [ch], attr, Top(text) * 80 + k)
  {
    CellStep(text, attr, ch, Top(text) * 80 + k);
  }

  // A row that scrolls in has never been written.
  lemma BlankBehind(text: seq<u8>, attr: u8, q: nat)
    requires q >= Pos(text) && q >= 2000
    ensures CellAt(text, attr, q) == SCROLLED
  {
    CellsBehind(text, attr);
  }

  lemma SameTop(text: seq<u8>, text': seq<u8>, attr: u8, ch: u8, k: nat)
    requires text' == text + [ch] && k < 2000 && Top(text') == Top(text)
    requires Top(text) * 80 <= Pos(text) < Top(text) * 80 + 2000
    ensures Screen(text', attr)[k] == Written(text, attr, ch)[k]
  {
    WrittenAt(text, attr, ch, k);
  }

  lemma NextTop(text: seq<u8>, text': seq<u8>, attr: u8, ch: u8, k: nat)
    requires text' == text + [ch] && k < 2000 && Top(text') == Top(text) + 1
    requires Pos(text') == (Top(text) + 25) * 80
    requires Top(text) * 80 <= Pos(text) < Top(text) * 80 + 2000
    ensures Screen(text', attr)[k] == Scrolled(Written(text, attr, ch))[k]
  {
    if k < 1920 {
      WrittenAt(text, attr, ch, k + 80);
    } else {
      BlankBehind(text', attr, Top(text') * 80 + k);
    }
  }

  /** Printing a character writes its cell and scrolls if the page moves on. */
  lemma ScreenStep(text: seq<u8>, attr: u8, ch: u8)
    ensures Top(text) * 80 <= Pos(text) < Top(text) * 80 + 2000
    ensures Screen(text + [ch], attr) ==
            if Top(text + [ch]) == Top(text) then Written(text, attr, ch) else Scrolled(Written(text, attr, ch))
  {
    PosOnScreen(text);
    PosStep(text, ch);
    var text' := text + [ch];
    var expected := if Top(text') == Top(text) then Written(text, attr, ch) else Scrolled(Written(text, attr, ch));
    forall k | 0 <= k < 2000
      ensures Screen(text', attr)[k] == expected[k]
    {
      if Top(text') == Top(text) {
        SameTop(text, text', attr, ch, k);
      } else {
        NextTop(text, text', attr, ch, k);
      }
    }
    assert |expected| == 2000;
  }
}
