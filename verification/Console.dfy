/**
  The text console of video.c: 25 rows of 80 cells, scrolled in place.
 */
module Console {
  import opened Words
  import opened Transcript

  class VgaConsole {
    var row: int
    var col: int
    const attr: u8
    const video: array<u16>
    // The cursor location registers of the video controller.
    var cursorHigh: u8
    var cursorLow: u8

    /**
      The cells after a character: at `place`, if it is written, the character below the
      attribute; all rows one up and a blank one below them, if the screen scrolled; the others
      as they were.
     */
    predicate CellsAfter(before: seq<u16>, after: seq<u16>, written: bool, place: int, ch: u8, scrolled: bool) {
      && |before| == |after| == 2000
      && forall k :: 0 <= k < 2000 ==>
           var j := if scrolled then k + 80 else k;
           if j >= 2000 then after[k] == 0x0f20
           else if written && j == place then after[k] % 0x100 == ch && after[k] / 0x100 == attr
           else after[k] == before[j]
    }

    // Everything printed since the screen was last cleared.
    ghost var text: seq<u8>

    /**
      The screen shows the last 25 rows of the page, and the position is the page's.  The
      controller's cursor lags exactly behind a character that filled the last column.
     */
    ghost predicate Valid()
      reads this, video
    {
      && video.Length == 2000
      && (CursorShown() <==> text == [] || IsNewline(text[|text| - 1]) || col != 0)
      && row == Pos(text) / 80 - Top(text) && col == Pos(text) % 80
      && video[..] == Screen(text, attr)
    }

    /** The controller's cursor stands where the next character goes. */
    predicate CursorShown()
      reads this
    {
      cursorHigh * 0x100 + cursorLow == row * 80 + col
    }

    constructor (attr: u8)
      ensures fresh(video) && video.Length == 2000 && this.attr == attr
    {
      this.attr := attr;
      video := new u16[2000];
      row, col := 0, 0;
      cursorHigh, cursorLow := 0, 0;
      text := [];
    }

    /** vga_movecursor: positions off the screen fall back to row or column 0. */
    method MoveCursor(r: int, c: int)
      modifies this`row, this`col, this`cursorHigh, this`cursorLow
      ensures row == (if 0 <= r < 25 then r else 0) && col == (if 0 <= c < 80 then c else 0)
      ensures CursorShown()
    {
      row, col := r, c;
      if !(0 <= row < 25) {
        row := 0;
      }
      if !(0 <= col < 80) {
        col := 0;
      }
      var location := row * 80 + col;
      cursorHigh := location / 0x100;
      cursorLow := location % 0x100;
    }

    /** vga_scroll: rows above `at` move up by one, ascending in place; row `at - 1` is blanked. */
    method Scroll(at: nat)
      requires video.Length == 2000 && at <= 25
      modifies video
      ensures at == 0 ==> video[..] == old(video[..])
      ensures at > 0 ==>
                video[..] == old(video[80..at * 80]) + seq(80, _ => 0x0f20) + old(video[at * 80..])
    {
      if at == 0 {
        return;
      }
      var k := 0;
      while k < (at - 1) * 80
        invariant 0 <= k <= (at - 1) * 80
        invariant forall j :: 0 <= j < k ==> video[j] == old(video[j + 80])
        invariant forall j :: k <= j < video.Length ==> video[j] == old(video[j])
      {
        video[k] := video[k + 80];
        k := k + 1;
      }
      while k < at * 80
        invariant (at - 1) * 80 <= k <= at * 80
        invariant forall j :: 0 <= j < (at - 1) * 80 ==> video[j] == old(video[j + 80])
        invariant forall j :: (at - 1) * 80 <= j < k ==> video[j] == SCROLLED
        invariant forall j :: at * 80 <= j < video.Length ==> video[j] == old(video[j])
      {
        video[k] := SCROLLED;
        k := k + 1;
      }
    }

    /** vga_clear */
    method Clear()
      requires video.Length == 2000
      modifies this, video
      ensures Valid() && text == [] && CursorShown() && row == 0 && col == 0
      ensures forall k :: 0 <= k < 2000 ==> video[k] == 0x002f
    {
      var k := 0;
      while k < 2000
        invariant 0 <= k <= 2000
        invariant forall j :: 0 <= j < k ==> video[j] == CLEARED
      {
        video[k] := CLEARED;
        k := k + 1;
      }
      row, col := 0, 0;
      MoveCursor(row, col);
      text := [];
    }

    /**
      vga_update_pos, after a newline or after a character in the cell at (row, col).  The cursor
      registers are left alone when a character fills the last column.
     */
    method UpdatePos(newline: bool)
      requires video.Length == 2000 && 0 <= row < 25 && 0 <= col < 80
      modifies this`row, this`col, this`cursorHigh, this`cursorLow, video
      ensures var down := newline || old(col) == 79;
              && col == (if down then 0 else old(col) + 1)
              && row == (if down && old(row) < 24 then old(row) + 1 else old(row))
              && video[..] == (if down && old(row) == 24
                               then Scrolled(old(video[..])) else old(video[..]))
      ensures if newline || old(col) < 79 then CursorShown()
              else cursorHigh == old(cursorHigh) && cursorLow == old(cursorLow)
    {
      if newline {
        if row == 24 {
          col := 0;
          Scroll(25);
          MoveCursor(row, col);
          return;
        } else {
          col := 0;
          row := row + 1;
          MoveCursor(row, col);
          return;
        }
      }
      if row == 24 && col == 79 {
        Scroll(25);
        col := 0;
        return;
      }
      if col == 79 {
        col := 0;
        row := row + 1;
        return;
      }
      col := col + 1;
      MoveCursor(row, col);
    }
 
    /**
      vga_putchar: the screen goes on showing the page.  The controller's cursor follows, except
      when the character fills the last column of a row.
     */
    method PutChar(ch: u8)
      requires Valid()
      modifies this`row, this`col, this`cursorHigh, this`cursorLow, this`text, video
      ensures Valid() && text == old(text) + [ch]
      ensures CursorShown() <==> ch == 10 || ch == 13 || old(col) < 79
      ensures var newline := ch == 10 || ch == 13;
              var down := newline || old(col) == 79;
              && col == (if down then 0 else old(col) + 1)
              && row == (if down && old(row) < 24 then old(row) + 1 else old(row))
              && CellsAfter(old(video[..]), video[..], !newline, old(row) * 80 + old(col), ch, down && old(row) == 24)
    {
      GlyphBytes(attr, ch);
      ScreenStep(text, attr, ch);
      PosStep(text, ch);
      if IsNewline(ch) {
        UpdatePos(true);
        text := text + [ch];
        return;
      }
      var index := row * 80 + col;
      video[index] := Glyph(attr, ch);
      UpdatePos(false);
      text := text + [ch];
    }

    /** printStr of utilities.c: the characters up to the terminating zero. */
    method PrintStr(str: seq<u8>)
      requires Valid() && 0 in str
      modifies this`row, this`col, this`cursorHigh, this`cursorLow, this`text, video
      ensures Valid()
      ensures CursorShown() <==> text == [] || IsNewline(text[|text| - 1]) || col != 0
      ensures exists n :: 0 <= n < |str| && str[n] == 0 && 0 !in str[..n] && text == old(text) + str[..n]
    {
      var k := 0;
      while str[k] != 0
        invariant 0 <= k < |str| && 0 !in str[..k] && 0 in str[k..]
        invariant Valid() && text == old(text) + str[..k]
        decreases |str| - k
      {
        PutChar(str[k]);
        assert old(text) + str[..k] + [str[k]] == old(text) + str[..k + 1];
        k := k + 1;
      }
    }
  }
}
