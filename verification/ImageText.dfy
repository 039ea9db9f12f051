/**
  The text format between scripts/parser.py and linux_boot/bootloader.c: origin lines and lines
  of sixteen two-digit hexadecimal fields.  A line is kept with its newline.
 */
module ImageText {
  import opened Words

  // ----- printing

  function UpperDigit(d: nat): char
    requires d < 16
  {
    if d < 10 then ('0' as int + d) as char else ('A' as int + (d - 10)) as char
  }

  function LowerDigit(d: nat): char
    requires d < 16
  {
    if d < 10 then ('0' as int + d) as char else ('a' as int + (d - 10)) as char
  }

  /** %02X and a space. */
  function Field(b: u8): (s: string)
    ensures |s| == 3
  {
    [UpperDigit(b / 16), UpperDigit(b % 16), ' ']
  }

  const BLANK: string := "   "

  /** One line of hexdump: fields for the bytes, blanks up to sixteen fields. */
  function Fields(bytes: seq<u8>, n: nat): (s: string)
    ensures |s| == 3 * n
  {
    if n == 0 then ""
    else Fields(bytes, n - 1) + if n - 1 < |bytes| then Field(bytes[n - 1]) else BLANK
  }

  // hexdump drops the blank behind the last field of a line.
  function HexLine(bytes: seq<u8>): (s: string)
    ensures |s| == 48
  {
    Fields(bytes, 16)[..47] + "\n"
  }

  /** %0nx: at least n digits. */
  function Padded(a: nat, n: nat): (s: string)
    ensures |s| >= n
    decreases a + n
  {
    if a == 0 && n == 0 then "" else Padded(a / 16, if n == 0 then 0 else n - 1) + [LowerDigit(a % 16)]
  }

  const ORIGIN: string := "/origin"

  function OriginLine(a: nat): (s: string)
    ensures |s| >= 17
  {
    ORIGIN + " " + Padded(a, 8) + "\n"
  }

  // ----- scanning

  function DigitValue(c: char): int {
    if '0' <= c <= '9' then c as int - '0' as int
    else if 'a' <= c <= 'f' then c as int - 'a' as int + 10
    else if 'A' <= c <= 'F' then c as int - 'A' as int + 10
    else -1
  }

  function Scan(s: string, acc: nat): nat {
    if s == [] || DigitValue(s[0]) < 0 then acc else Scan(s[1..], acc * 16 + DigitValue(s[0]))
  }

  /** strtol and strtoul in base 16, on text without signs and 0x prefixes. */
  function StrToL(s: string): nat {
    if s != [] && s[0] == ' ' then StrToL(s[1..]) else Scan(s, 0)
  }

  predicate IsOrigin(line: string) {
    |line| >= 16 && line[..7] == ORIGIN
  }

  function OriginOf(line: string): nat
    requires |line| >= 16
  {
    StrToL(line[8..16])
  }

  /** The i-th field of a line, as the low byte of what strtol makes of it. */
  function FieldOf(line: string, i: nat): u8
    requires 3 * i + 2 <= |line|
  {
    StrToL(line[3 * i..3 * i + 2]) % 256
  }

  /** Seven characters decide. */
  lemma NearlyOrigin()
    ensures IsOrigin("/origin 00100000\n") && !IsOrigin("/origim 00100000\n") && !IsOrigin("xorigin 00100000\n")
  {
    assert "/origin 00100000\n"[..7] == ORIGIN;
    assert "/origim 00100000\n"[6] == 'm' && ORIGIN[6] == 'n';
    assert "xorigin 00100000\n"[0] == 'x' && ORIGIN[0] == '/';
  }

  // ----- scanning undoes printing

  lemma DigitsBack(d: nat)
    requires d < 16
    ensures DigitValue(UpperDigit(d)) == d && DigitValue(LowerDigit(d)) == d
    ensures UpperDigit(d) != ' ' && UpperDigit(d) != '/' && LowerDigit(d) != ' '
  {
  }

  /** Bytes are printed in upper-case letters, addresses and numbers in lower-case ones. */
  lemma DigitLetters(d: nat)
    requires d < 16
    ensures UpperDigit(d) == "0123456789ABCDEF"[d] && LowerDigit(d) == "0123456789abcdef"[d]
  {
  }

  lemma FieldBack(b: u8)
    ensures StrToL(Field(b)[..2]) == b
  {
    var s := Field(b)[..2];
    DigitsBack(b / 16);
    DigitsBack(b % 16);
    assert s[1..] == [UpperDigit(b % 16)];
    assert s[1..][1..] == [];
    assert Scan(s[1..], b / 16) == b / 16 * 16 + b % 16;
  }

  lemma BlankBack()
    ensures StrToL(BLANK[..2]) == 0
  {
    assert BLANK[..2][1..] == " ";
    assert " "[1..] == "";
  }

  lemma {:induction false} FieldsAt(bytes: seq<u8>, n: nat, i: nat)
    requires i < n
    ensures Fields(bytes, n)[3 * i..3 * i + 2] == (if i < |bytes| then Field(bytes[i]) else BLANK)[..2]
    decreases n
  {
    if i < n - 1 {
      FieldsAt(bytes, n - 1, i);
      assert Fields(bytes, n)[..3 * (n - 1)] == Fields(bytes, n - 1);
      assert Fields(bytes, n)[3 * i..3 * i + 2] == Fields(bytes, n - 1)[3 * i..3 * i + 2];
    } else {
      var last := if i < |bytes| then Field(bytes[i]) else BLANK;
      assert Fields(bytes, n) == Fields(bytes, i) + last;
      assert (Fields(bytes, i) + last)[3 * i..3 * i + 2] == last[..2];
    }
  }

  /** A field reads back as its byte, a blank one as zero. */
  lemma LineBack(bytes: seq<u8>, i: nat)
    requires i < 16
    ensures FieldOf(HexLine(bytes), i) == if i < |bytes| then bytes[i] else 0
  {
    FieldsAt(bytes, 16, i);
    assert HexLine(bytes)[3 * i..3 * i + 2] == Fields(bytes, 16)[3 * i..3 * i + 2];
    if i < |bytes| {
      FieldBack(bytes[i]);
    } else {
      BlankBack();
    }
  }

  /** A line of data never looks like an origin line. */
  lemma LineIsNotOrigin(bytes: seq<u8>)
    ensures !IsOrigin(HexLine(bytes))
  {
    FieldsAt(bytes, 16, 0);
    var s := Fields(bytes, 16);
    assert HexLine(bytes)[0] == s[0] == s[0..2][0];
    if |bytes| > 0 {
      DigitsBack(bytes[0] / 16);
    }
    assert ORIGIN[0] == '/';
  }

  lemma {:induction false} ScanAppend(s: string, c: char, acc: nat)
    requires forall i :: 0 <= i < |s| ==> DigitValue(s[i]) >= 0
    requires DigitValue(c) >= 0
    ensures Scan(s + [c], acc) == Scan(s, acc) * 16 + DigitValue(c)
    decreases |s|
  {
    if s == [] {
      assert (s + [c])[1..] == [];
    } else {
      assert (s + [c])[1..] == s[1..] + [c];
      ScanAppend(s[1..], c, acc * 16 + DigitValue(s[0]));
    }
  }

  function Pow16(n: nat): (p: nat)
    ensures p >= 1
  {
    if n == 0 then 1 else 16 * Pow16(n - 1)
  }

  lemma {:induction false} PaddedBack(a: nat, n: nat)
    requires a < Pow16(n)
    ensures |Padded(a, n)| == n
    ensures forall i :: 0 <= i < n ==> DigitValue(Padded(a, n)[i]) >= 0
    ensures Scan(Padded(a, n), 0) == a
    decreases n
  {
    if n > 0 {
      PaddedBack(a / 16, n - 1);
      DigitsBack(a % 16);
      ScanAppend(Padded(a / 16, n - 1), LowerDigit(a % 16), 0);
    }
  }

  /** An origin line reads back as its address. */
  lemma OriginBack(a: u32)
    ensures IsOrigin(OriginLine(a)) && OriginOf(OriginLine(a)) == a
  {
    var line := OriginLine(a);
    assert line[..7] == ORIGIN;
    assert Pow16(8) == TWO32 by {
      assert Pow16(4) == 0x1_0000;
      assert Pow16(5) == 0x10_0000 && Pow16(6) == 0x100_0000 && Pow16(7) == 0x1000_0000;
    }
    PaddedBack(a, 8);
    assert line[8..16] == Padded(a, 8);
    assert DigitValue(Padded(a, 8)[0]) >= 0;
    assert Padded(a, 8)[0] != ' ';
  }

  /** Each byte of a line: two upper-case digits. */
  lemma LineLetters(bytes: seq<u8>, i: nat)
    requires i < 16 && i < |bytes|
    ensures HexLine(bytes)[3 * i] == "0123456789ABCDEF"[bytes[i] / 16] && HexLine(bytes)[3 * i + 1] == "0123456789ABCDEF"[bytes[i] % 16]
    ensures HexLine(bytes)[47] == '\n'
  {
    FieldsAt(bytes, 16, i);
    var field := HexLine(bytes)[3 * i..3 * i + 2];
    assert field == Fields(bytes, 16)[3 * i..3 * i + 2] == Field(bytes[i])[..2];
    assert field[0] == HexLine(bytes)[3 * i] && field[1] == HexLine(bytes)[3 * i + 1];
    DigitLetters(bytes[i] / 16);
    DigitLetters(bytes[i] % 16);
  }

  lemma {:induction false} PaddedLetters(a: nat, n: nat, i: nat)
    requires a < Pow16(n) && i < n
    ensures |Padded(a, n)| == n
    ensures Padded(a, n)[n - 1 - i] == "0123456789abcdef"[a / Pow16(i) % 16]
    decreases n
  {
    PaddedBack(a, n);
    if i == 0 {
      DigitLetters(a % 16);
    } else {
      PaddedBack(a / 16, n - 1);
      PaddedLetters(a / 16, n - 1, i - 1);
      DivTwice(a, Pow16(i - 1));
    }
  }

  /** Dividing by 16 and then by m. */
  lemma DivTwice(n: nat, m: nat)
    requires m >= 1
    ensures n / (16 * m) == n / m / 16 == n / 16 / m
  {
    var q := n / m;
    SplitTwice(n, m, q, n % m, q / 16, q % 16);
    DivModUnique(n, 16 * m, q / 16, (q % 16) * m + n % m);
    var p := n / 16;
    assert n == 16 * m * (p / m) + (16 * (p % m) + n % 16) by {
      assert p == m * (p / m) + p % m;
      assert 16 * (m * (p / m)) == 16 * m * (p / m);
    }
    DivModUnique(n, 16 * m, p / m, 16 * (p % m) + n % 16);
  }

  lemma SplitTwice(n: nat, m: nat, q: nat, r: nat, h: nat, d: nat)
    requires n == m * q + r && r < m && q == 16 * h + d && d < 16
    ensures n == 16 * m * h + (d * m + r) && 0 <= d * m + r < 16 * m
  {
    assert m * q == m * (16 * h) + m * d;
    assert m * (16 * h) == 16 * m * h;
    assert d * m <= 15 * m;
  }

  /** An origin line: the word, a blank, eight lower-case digits from the top. */
  lemma OriginLetters(a: u32, i: nat)
    requires i < 8
    ensures |OriginLine(a)| == 17 && OriginLine(a)[..8] == "/origin " && OriginLine(a)[16] == '\n'
    ensures OriginLine(a)[15 - i] == "0123456789abcdef"[a / Pow16(i) % 16]
  {
    AddressWidth();
    PaddedLetters(a, 8, i);
    Between("/origin ", Padded(a, 8), "\n", 7 - i);
  }

  lemma AddressWidth()
    ensures Pow16(8) == TWO32
  {
    assert Pow16(4) == 0x1_0000;
  }

  lemma Between(a: string, b: string, c: string, i: nat)
    requires i < |b|
    ensures (a + b + c)[|a| + i] == b[i] && (a + b + c)[..|a|] == a && (c != "" ==> (a + b + c)[|a| + |b|] == c[0])
  {
  }
}
