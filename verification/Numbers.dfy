/** Numbers as text in utilities.c: itoa, strrev, strlen and atoi, over zero-terminated buffers. */
module Numbers {
  import opened Words
  import opened ImageText

  // ----- digits, most significant first, without leading zeroes

  function Digits(n: nat, base: nat): (s: string)
    requires 2 <= base <= 16
    ensures s != ""
    decreases n
  {
    if n < base then [LowerDigit(n)] else Smaller(n, base); Digits(n / base, base) + [LowerDigit(n % base)]
  }

  lemma Smaller(n: nat, base: nat)
    requires base >= 2
    ensures n == n / base * base + n % base && 0 <= n % base < base
    ensures n >= base ==> 1 <= n / base < n
  {
    var q := n / base;
    Twice(q, base);
    if q == 0 {
      assert n == n % base;
    }
  }

  lemma Twice(q: nat, base: nat)
    requires base >= 2
    ensures q * base >= 2 * q
  {
  }

  /** The number a string of digits stands for. */
  function ValueOf(s: string, base: nat): int
    decreases |s|
  {
    if s == "" then 0 else ValueOf(s[..|s| - 1], base) * base + DigitValue(s[|s| - 1])
  }

  predicate AllDigits(s: string, base: nat) {
    forall i :: 0 <= i < |s| ==> 0 <= DigitValue(s[i]) < base
  }

  /** Digits is the one string of digits without leading zeroes that has the value n. */
  lemma {:induction false} DigitsMeaning(n: nat, base: nat)
    requires 10 <= base <= 16
    ensures AllDigits(Digits(n, base), base) && ValueOf(Digits(n, base), base) == n
    ensures Digits(n, base)[0] == '0' ==> n == 0
    ensures Digits(n, base)[0] == '0' ==> Digits(n, base) == "0"
    decreases n
  {
    if n >= base {
      Smaller(n, base);
      DigitsMeaning(n / base, base);
      DigitsBack(n % base);
      DigitMore(Digits(n / base, base), LowerDigit(n % base), base);
    } else {
      DigitsBack(n);
      DigitMore("", LowerDigit(n), base);
      assert "" + [LowerDigit(n)] == [LowerDigit(n)];
    }
  }

  /** Digits above nine are lower-case letters. */
  lemma {:induction false} DigitsLetters(n: nat, base: nat, i: nat)
    requires 10 <= base <= 16 && i < |Digits(n, base)|
    ensures Digits(n, base)[i] in "0123456789abcdef"
    decreases n
  {
    Smaller(n, base);
    DigitLetters(n % base);
    if n < base {
      DigitLetters(n);
    } else if i < |Digits(n, base)| - 1 {
      DigitsLetters(n / base, base, i);
    }
  }

  lemma DigitMore(s: string, c: char, base: nat)
    requires AllDigits(s, base) && 0 <= DigitValue(c) < base
    ensures AllDigits(s + [c], base) && ValueOf(s + [c], base) == ValueOf(s, base) * base + DigitValue(c)
  {
    assert (s + [c])[..|s|] == s;
  }

  lemma {:induction false} DigitsFew(n: nat, base: nat, k: nat)
    requires 10 <= base <= 16 && n < Power10(k) && k >= 1
    ensures |Digits(n, base)| <= k
    decreases k
  {
    if n >= base {
      assert n / base <= n / 10;
      assert k != 1;
      DigitsFew(n / base, base, k - 1);
    }
  }

  function Power10(k: nat): (p: nat) {
    if k == 0 then 1 else 10 * Power10(k - 1)
  }

  lemma WordDigitsFew(n: u32, base: nat)
    requires 10 <= base <= 16
    ensures |Digits(n, base)| <= 10
  {
    assert Power10(5) == 100000;
    assert Power10(10) == 10_000_000_000;
    DigitsFew(n, base, 10);
  }

  // ----- zero-terminated strings

  predicate Terminated(a: seq<char>) {
    exists k :: 0 <= k < |a| && a[k] == '\0'
  }

  /** The string a buffer holds: up to its first zero. */
  function CString(a: seq<char>): (s: string)
    requires Terminated(a)
    ensures |s| < |a| && a[|s|] == '\0' && s == a[..|s|]
    ensures forall i :: 0 <= i < |s| ==> s[i] != '\0'
  {
    if a[0] == '\0' then ""
    else
      assert exists k :: 0 <= k < |a[1..]| && a[1..][k] == '\0' by {
        var k :| 0 <= k < |a| && a[k] == '\0';
        assert a[1..][k - 1] == '\0';
      }
      [a[0]] + CString(a[1..])
  }

  lemma CStringIs(a: seq<char>, n: nat)
    requires n < |a| && a[n] == '\0' && forall i :: 0 <= i < n ==> a[i] != '\0'
    ensures Terminated(a) && CString(a) == a[..n]
  {
  }

  method StrLen(str: array<char>) returns (indx: nat)
    requires Terminated(str[..])
    ensures indx == |CString(str[..])|
  {
    indx := 0;
    ghost var n := |CString(str[..])|;
    assert forall i :: 0 <= i < n ==> str[..][i] != '\0';
    while str[indx] != '\0'
      invariant 0 <= indx <= n
      decreases n - indx
    {
      indx := indx + 1;
    }
  }

  function Reversed(s: string): (r: string)
    ensures |r| == |s|
    ensures forall i :: 0 <= i < |s| ==> r[i] == s[|s| - 1 - i]
  {
    seq(|s|, i requires 0 <= i < |s| => s[|s| - 1 - i])
  }

  /** A buffer after text was written at a place of it. */
  function Written(buf: seq<char>, at: nat, text: string): (r: seq<char>)
    requires at + |text| <= |buf|
    ensures |r| == |buf|
  {
    buf[..at] + text + buf[at + |text|..]
  }

  lemma WrittenMore(buf: seq<char>, at: nat, text: string, c: char)
    requires at + |text| < |buf|
    ensures Written(buf, at, text)[at + |text| := c] == Written(buf, at, text + [c])
  {
  }

  // One turn of the copying loop.
  lemma ReverseStep(buf: seq<char>, at: nat, text: string, n: nat)
    requires n < |text| && at + |text| <= |buf|
    ensures Written(buf, at, Reversed(text)[..n])[at + n := text[|text| - 1 - n]] == Written(buf, at, Reversed(text)[..n + 1])
  {
    WrittenMore(buf, at, Reversed(text)[..n], text[|text| - 1 - n]);
    assert Reversed(text)[..n + 1] == Reversed(text)[..n] + [text[|text| - 1 - n]];
  }

  /** strrev: `dst` points to element `at` of its buffer. */
  method StrRev(src: array<char>, dst: array<char>, at: nat)
    requires src != dst && Terminated(src[..]) && src.Length < TWO32
    requires at + |CString(src[..])| < dst.Length
    modifies dst
    ensures dst[..] == Written(old(dst[..]), at, Reversed(CString(src[..])) + ['\0'])
  {
    var len := StrLen(src);
    var dIndx := CopyBack(src, dst, at, len);
    WrittenMore(old(dst[..]), at, Reversed(CString(src[..])), '\0');
    dst[at + dIndx] := '\0';
  }

  /** The copying loop of strrev. */
  method CopyBack(src: array<char>, dst: array<char>, at: nat, n: nat) returns (dIndx: nat)
    requires src != dst && n <= src.Length < TWO32 && at + n <= dst.Length
    modifies dst
    ensures dIndx == n && dst[..] == Written(old(dst[..]), at, Reversed(src[..n]))
  {
    ghost var text := src[..n];
    var len, sIndx: u32 := n, Wrap(n as int - 1);
    dIndx := 0;
    while len != 0
      invariant 0 <= len && len + dIndx == n && (len != 0 ==> sIndx == len - 1)
      invariant dst[..] == Written(old(dst[..]), at, Reversed(text)[..dIndx])
    {
      ReverseStep(old(dst[..]), at, text, dIndx);
      dst[at + dIndx] := src[sIndx];
      sIndx := Wrap(sIndx - 1);
      dIndx := dIndx + 1;
      len := len - 1;
    }
    assert Reversed(text)[..n] == Reversed(text);
  }

  // ----- itoa

  function Divisor(base: char): nat {
    if base == 'x' then 16 else 10
  }

  predicate Negative(base: char, d: s32) {
    base == 'd' && d < 0
  }

  /** Where itoa starts to write, and what: a minus sign comes out behind the digits. */
  function Start(base: char, d: s32): nat {
    if Negative(base, d) then 1 else 0
  }

  function Sign(base: char, d: s32): string {
    if Negative(base, d) then "-" else ""
  }

  function Magnitude(base: char, d: s32): u32 {
    if Negative(base, d) then Wrap(-(d as int)) else Wrap(d)
  }

  /** The magnitude of every negative decimal, the lowest included; the word itself otherwise. */
  lemma MagnitudeMeaning(base: char, d: s32)
    ensures base == 'd' && d < 0 ==> Magnitude(base, d) == -(d as int)
    ensures d >= 0 ==> Magnitude(base, d) == d
    ensures base != 'd' && d < 0 ==> Magnitude(base, d) == d as int + TWO32
  {
    if d < 0 {
      DivModUnique(d, TWO32, -1, d as int + TWO32);
    }
  }

  function Printed(base: char, d: s32): string {
    Digits(Magnitude(base, d), Divisor(base)) + Sign(base, d)
  }

  method Itoa(buf: array<char>, base: char, d: s32)
    requires buf.Length > Start(base, d) + |Printed(base, d)|
    modifies buf
    ensures buf[..] == Written(old(buf[..]), Start(base, d), Printed(base, d) + ['\0'])
  {
    var ud: u32, divisor, p, at := Wrap(d), 10, 0, 0;
    var tmp := new char[32];
    if base == 'd' && d < 0 {
      tmp[p] := '-';
      p := p + 1;
      at := 1;
      ud := Wrap(-(d as int));
    } else if base == 'x' {
      divisor := 16;
    }
    assert tmp[..p] == Sign(base, d);
    assert Reversed(tmp[..p]) == Sign(base, d);
    p := PutDigits(tmp, p, ud, divisor);
    tmp[p] := '\0';
    CStringIs(tmp[..], p);
    assert tmp[..][..p] == tmp[..p];
    StrRev(tmp, buf, at);
  }

  /** The division loop of itoa: digits go out last one first. */
  method PutDigits(tmp: array<char>, start: nat, number: u32, divisor: nat) returns (p: nat)
    requires tmp.Length == 32 && start <= 1 && (forall i :: 0 <= i < start ==> tmp[i] != '\0')
    requires 10 <= divisor <= 16
    modifies tmp
    ensures start < p <= 11 && Reversed(tmp[..p]) == Digits(number, divisor) + Reversed(old(tmp[..start]))
    ensures forall i :: 0 <= i < p ==> tmp[i] != '\0'
  {
    var ud: nat := number;
    p := start;
    ghost var all := Digits(number, divisor) + Reversed(old(tmp[..start]));
    WordDigitsFew(number, divisor);
    var more := true;
    while more
      invariant start <= p <= |all| <= 11 && (more ==> p < |all|) && (!more ==> p > start)
      invariant more ==> Digits(ud, divisor) + Reversed(tmp[..p]) == all
      invariant !more ==> Reversed(tmp[..p]) == all
      invariant forall i :: 0 <= i < p ==> tmp[i] != '\0'
      decreases more, ud
    {
      var remainder := ud % divisor;
      ghost var before := tmp[..p];
      Smaller(ud, divisor);
      DigitsBack(remainder);
      DigitOut(ud, divisor, before);
      tmp[p] := LowerDigit(remainder);
      assert tmp[..p + 1] == before + [LowerDigit(remainder)];
      p := p + 1;
      ud := ud / divisor;
      more := ud != 0;
    }
  }

  // One division: a digit moves from the number to the reversed text.
  lemma DigitOut(n: nat, base: nat, before: string)
    requires 10 <= base <= 16
    ensures n % base < 16
    ensures var after := Reversed(before + [LowerDigit(n % base)]);
            if n / base == 0 then Digits(n, base) + Reversed(before) == after
            else Digits(n, base) + Reversed(before) == Digits(n / base, base) + after && n / base < n
  {
    Smaller(n, base);
    ReversedSnoc(before, LowerDigit(n % base));
    if n < base {
      assert n / base == 0 && n % base == n;
    }
  }

  lemma ReversedSnoc(s: string, c: char)
    ensures Reversed(s + [c]) == [c] + Reversed(s)
  {
  }

  // ----- atoi

  /** How atoi reads on: a character that is no digit repeats the last digit's value. */
  function Accumulate(s: string, base: nat, val: u32, tval: u8): u32
    decreases |s|
  {
    if s == "" then val
    else
      var t: u8 := if DigitValue(s[0]) >= 0 then DigitValue(s[0]) else tval;
      Accumulate(s[1..], base, Shifted(val, base, t), t)
  }

  function Shifted(val: u32, base: nat, t: u8): u32 {
    Wrap(val * base + t)
  }

  /** The conversion from character i on. */
  function Converted(s: string, i: nat, base: nat, val: u32, tval: u8): u32 {
    if i < |s| then Accumulate(s[i..], base, val, tval) else val
  }

  // One turn of the loop.
  lemma ConvertedStep(s: string, i: nat, base: nat, val: u32, tval: u8, t: u8)
    requires i < |s| && t == if DigitValue(s[i]) >= 0 then DigitValue(s[i]) else tval
    ensures Converted(s, i, base, val, tval) == Converted(s, i + 1, base, Wrap(Wrap(val * base) + t), t)
  {
    WrapAdd(val * base, t);
    assert s[i..][1..] == s[i + 1..];
  }

  /** The first character atoi converts. */
  function Skipped(a: seq<char>): nat
    requires |a| >= 2
  {
    (if a[0] == '0' && (a[1] == 'x' || a[1] == 'X') then 2 else 0) + (if a[0] == '-' then 1 else 0) + (if a[1] == '+' then 1 else 0)
  }

  /** What atoi returns; `tval` is the value its variable happens to hold on entry. */
  function AtoiOf(a: seq<char>, base: nat, tval: u8): u32
    requires |a| >= 2 && Terminated(a)
  {
    var val := Converted(CString(a), Skipped(a), base, 0, tval);
    if a[0] == '-' then Wrap(-(val as int)) else val
  }

  method Atoi(str: array<char>, base: nat, stale: u8) returns (r: u32)
    requires str.Length >= 2 && Terminated(str[..])
    ensures r == AtoiOf(str[..], base, stale)
  {
    var len := StrLen(str);
    var indx, negFlag: int := 0, 1;
    if str[0] == '0' && (str[1] == 'x' || str[1] == 'X') {
      indx := indx + 2;
    }
    if str[0] == '-' {
      negFlag := -1;
      indx := indx + 1;
    }
    if str[1] == '+' {
      indx := indx + 1;
    }
    var val := ConvertFrom(str, indx, len, base, stale);
    r := Wrap(val * negFlag);
  }

  /** The loop of atoi. */
  method ConvertFrom(str: array<char>, start: nat, len: nat, base: nat, stale: u8) returns (val: u32)
    requires Terminated(str[..]) && len == |CString(str[..])|
    ensures val == Converted(CString(str[..]), start, base, 0, stale)
  {
    ghost var s := CString(str[..]);
    var tval: u8, indx := stale, start;
    val := 0;
    while indx < len
      invariant Converted(s, indx, base, val, tval) == Converted(s, start, base, 0, stale)
    {
      var ch := str[indx];
      assert ch == s[indx];
      ghost var held := tval;
      if '0' <= ch <= '9' {
        tval := ch as int - '0' as int;
      } else if 'A' <= ch <= 'F' {
        tval := ch as int - 'A' as int + 10;
      } else if 'a' <= ch <= 'f' {
        tval := ch as int - 'a' as int + 10;
      }
      ConvertedStep(s, indx, base, val, held, tval);
      val := Wrap(val * base);
      val := Wrap(val + tval);
      indx := indx + 1;
    }
  }

  // ----- the round trip

  lemma {:induction false} AccumulateAppend(s: string, c: char, base: nat, val: u32, tval: u8)
    requires AllDigits(s, base) && 0 <= DigitValue(c) < base <= 16
    ensures Accumulate(s + [c], base, val, tval) == Shifted(Accumulate(s, base, val, tval), base, DigitValue(c))
    decreases |s|
  {
    if s == "" {
      assert (s + [c])[1..] == "";
      assert (s + [c])[0] == c;
    } else {
      assert (s + [c])[1..] == s[1..] + [c];
      assert (s + [c])[0] == s[0];
      AccumulateAppend(s[1..], c, base, Shifted(val, base, DigitValue(s[0])), DigitValue(s[0]));
    }
  }

  lemma {:induction false} AccumulateValue(s: string, base: nat, tval: u8)
    requires AllDigits(s, base) && base <= 16
    ensures Accumulate(s, base, 0, tval) == Wrap(ValueOf(s, base))
    decreases |s|
  {
    if s != "" {
      var front, c := s[..|s| - 1], s[|s| - 1];
      assert s == front + [c];
      AccumulateValue(front, base, tval);
      AccumulateAppend(front, c, base, 0, tval);
      WrapStep(ValueOf(front, base), base, DigitValue(c));
    }
  }

  lemma WrapStep(v: int, base: nat, t: int)
    ensures Wrap(Wrap(v) * base + t) == Wrap(v * base + t)
  {
    var q := v / TWO32;
    assert v == q * TWO32 + Wrap(v);
    assert v * base + t == Wrap(v) * base + t + (q * base) * TWO32 by {
      assert (q * TWO32) * base == (q * base) * TWO32;
    }
    ModAddMultiple(Wrap(v) * base + t, q * base, TWO32);
  }

  lemma NothingSkipped(a: seq<char>, base: nat)
    requires |a| >= 2 && Terminated(a) && base <= 16
    requires AllDigits(CString(a), base) && CString(a) != "" && (CString(a)[0] == '0' ==> CString(a) == "0")
    ensures Skipped(a) == 0 && a[0] != '-'
  {
    var s := CString(a);
    assert a[0] == s[0];
    if |s| >= 2 {
      assert a[1] == s[1];
    } else {
      assert a[1] == '\0';
    }
  }

  /** What itoa leaves behind is a string: the text it prints. */
  lemma ItoaLeavesText(buf: seq<char>, base: char, d: s32)
    requires Start(base, d) + |Printed(base, d)| < |buf|
    ensures var a := Written(buf, Start(base, d), Printed(base, d) + ['\0'])[Start(base, d)..];
            Terminated(a) && CString(a) == Printed(base, d)
  {
    PrintedHasNoZero(base, d);
    WrittenText(buf, Start(base, d), Printed(base, d));
  }

  lemma PrintedHasNoZero(base: char, d: s32)
    ensures '\0' !in Printed(base, d)
  {
    DigitsMeaning(Magnitude(base, d), Divisor(base));
  }

  lemma WrittenText(buf: seq<char>, at: nat, text: string)
    requires at + |text| < |buf| && '\0' !in text
    ensures var a := Written(buf, at, text + ['\0'])[at..]; Terminated(a) && CString(a) == text
  {
    var a := Written(buf, at, text + ['\0'])[at..];
    assert a[..|text|] == text && a[|text|] == '\0';
    CStringIs(a, |text|);
  }

  /** atoi reads back what itoa left in a buffer, for every value itoa prints without a sign. */
  lemma AtoiUndoesItoa(buf: seq<char>, base: char, d: s32, tval: u8)
    requires |Printed(base, d)| < |buf| && !Negative(base, d)
    ensures var a := Written(buf, 0, Printed(base, d) + ['\0']);
            |a| >= 2 && Terminated(a) && AtoiOf(a, Divisor(base), tval) == Wrap(d)
  {
    var a := Written(buf, 0, Printed(base, d) + ['\0']);
    ItoaLeavesText(buf, base, d);
    assert a[0..] == a;
    assert Printed(base, d) == Digits(Wrap(d), Divisor(base));
    AtoiUndoesDigits(a, Divisor(base), Wrap(d), tval);
  }

  /** The two functions together. */
  method PrintAndRead(buf: array<char>, base: char, d: s32, stale: u8) returns (r: u32)
    requires |Printed(base, d)| < buf.Length && !Negative(base, d)
    modifies buf
    ensures r == Wrap(d)
  {
    AtoiUndoesItoa(buf[..], base, d, stale);
    Itoa(buf, base, d);
    r := Atoi(buf, Divisor(base), stale);
  }

  /** atoi reads d back from what itoa leaves in this buffer. */
  predicate ReadsBack(buf: seq<char>, base: char, d: s32, tval: u8)
    requires Start(base, d) + |Printed(base, d)| < |buf|
  {
    var a := Written(buf, Start(base, d), Printed(base, d) + ['\0']);
    |a| >= 2 && Terminated(a) && AtoiOf(a, Divisor(base), tval) == Wrap(d)
  }

  /** Whatever the buffer held, the number comes back iff it is printed without a sign. */
  lemma ReadsBackIff(base: char, d: s32, tval: u8)
    ensures (forall buf :: Start(base, d) + |Printed(base, d)| < |buf| ==> ReadsBack(buf, base, d, tval)) <==> !Negative(base, d)
  {
    if Negative(base, d) {
      NegativeFails(base, d, tval);
    } else {
      forall buf | Start(base, d) + |Printed(base, d)| < |buf|
        ensures ReadsBack(buf, base, d, tval)
      {
        AtoiUndoesItoa(buf, base, d, tval);
      }
    }
  }

  /** A buffer that held zeroes: itoa leaves the first one in front of a negative number. */
  function Zeroes(n: nat): (buf: seq<char>)
    ensures |buf| == n
  {
    seq(n, _ => '\0')
  }

  lemma NegativeFails(base: char, d: s32, tval: u8)
    requires Negative(base, d)
    ensures !ReadsBack(Zeroes(Start(base, d) + |Printed(base, d)| + 1), base, d, tval)
  {
    var text := Printed(base, d) + ['\0'];
    var a := Written(Zeroes(|text| + 1), 1, text);
    assert a[0] == '\0' && a[1] == text[0];
    CStringIs(a, 0);
    DigitsMeaning(Magnitude(base, d), Divisor(base));
    assert text[0] == Digits(Magnitude(base, d), Divisor(base))[0] && DigitValue(text[0]) >= 0;
  }

  /** Some numbers come back from no buffer at all: minus one is never read back, whatever the byte in front held. */
  lemma MinusOneFails(buf: seq<char>, tval: u8)
    requires |buf| >= 4
    ensures Negative('d', -1) && Start('d', -1) + |Printed('d', -1)| < |buf|
    ensures var a := Written(buf, 1, Printed('d', -1) + ['\0']);
            Terminated(a) && AtoiOf(a, 10, tval) != Wrap(-1)
  {
    assert Digits(1, 10) == ['1'];
    var a := Written(buf, 1, Printed('d', -1) + ['\0']);
    assert a[1] == '1' && a[2] == '-' && a[3] == '\0';
    MinusOneText(a);
    if a[0] != '\0' {
      OneDashValue(a[0], tval);
      var s := CString(a);
      assert s[0..] == s && s[1..] == ['1', '-'];
    }
  }

  // A digit one and a character that is no digit, by themselves and behind another character.
  lemma OneDashValue(c: char, tval: u8)
    ensures Accumulate(['1', '-'], 10, 0, tval) == 11
    ensures 0 <= Accumulate([c, '1', '-'], 10, 0, tval) <= 25511
  {
    var v: u8 := if DigitValue(c) >= 0 then DigitValue(c) else tval;
    OneDashOn(0, tval);
    OneDashOn(v, v);
    assert [c, '1', '-'][1..] == ['1', '-'];
    assert Shifted(0, 10, v) == v;
  }

  lemma OneDashOn(val: u8, tval: u8)
    ensures Accumulate(['1', '-'], 10, val, tval) == 100 * val + 11
  {
    assert ['1', '-'][1..] == ['-'] && ['-'][1..] == "";
    assert Shifted(val, 10, 1) == 10 * val + 1;
    assert Shifted(10 * val + 1, 10, 1) == 100 * val + 11;
    assert Accumulate(['-'], 10, 10 * val + 1, 1) == 100 * val + 11;
  }

  lemma MinusOneText(a: seq<char>)
    requires |a| >= 4 && a[1] == '1' && a[2] == '-' && a[3] == '\0'
    ensures Terminated(a) && CString(a) == if a[0] == '\0' then "" else [a[0], '1', '-']
  {
    if a[0] == '\0' {
      CStringIs(a, 0);
    } else {
      CStringIs(a, 3);
    }
  }

  lemma AtoiUndoesDigits(a: seq<char>, base: nat, n: u32, tval: u8)
    requires |a| >= 2 && Terminated(a) && 10 <= base <= 16 && CString(a) == Digits(n, base)
    ensures AtoiOf(a, base, tval) == n
  {
    DigitsMeaning(n, base);
    NothingSkipped(a, base);
    AtoiPlain(a, base, tval);
    AccumulateValue(CString(a), base, tval);
  }

  /** A minus sign in front negates. */
  lemma AtoiNegates(a: seq<char>, base: nat, n: u32, tval: u8)
    requires |a| >= 2 && Terminated(a) && 10 <= base <= 16 && CString(a) == "-" + Digits(n, base)
    ensures AtoiOf(a, base, tval) == Wrap(-(n as int))
  {
    var s := Digits(n, base);
    DigitsMeaning(n, base);
    MinusInFront(a, s, base, tval);
    AccumulateValue(s, base, tval);
    WrapOfWord(n);
  }

  lemma WrapOfWord(n: u32)
    ensures Wrap(n) == n
  {
  }

  lemma MinusInFront(a: seq<char>, s: string, base: nat, tval: u8)
    requires |a| >= 2 && Terminated(a) && CString(a) == "-" + s && s != "" && DigitValue(s[0]) >= 0
    ensures AtoiOf(a, base, tval) == Wrap(-(Accumulate(s, base, 0, tval) as int))
  {
    FrontOfMinus(a, s);
    Suffix(CString(a), "-", s);
  }

  lemma Suffix(whole: string, front: string, s: string)
    requires whole == front + s
    ensures whole[|front|..] == s
  {
  }

  lemma FrontOfMinus(a: seq<char>, s: string)
    requires |a| >= 2 && Terminated(a) && CString(a) == "-" + s && s != "" && DigitValue(s[0]) >= 0
    ensures a[0] == '-' && Skipped(a) == 1 && |CString(a)| > 1
  {
    assert a[0] == CString(a)[0] && a[1] == CString(a)[1];
  }

  /** A plus sign behind it is skipped. */
  lemma AtoiSkipsPlus(a: seq<char>, base: nat, n: u32, tval: u8)
    requires |a| >= 2 && Terminated(a) && 10 <= base <= 16 && CString(a) == "-+" + Digits(n, base)
    ensures AtoiOf(a, base, tval) == Wrap(-(n as int))
  {
    var s := Digits(n, base);
    DigitsMeaning(n, base);
    FrontOfPlus(a, s);
    Suffix(CString(a), "-+", s);
    AccumulateValue(s, base, tval);
    WrapOfWord(n);
  }

  lemma FrontOfPlus(a: seq<char>, s: string)
    requires |a| >= 2 && Terminated(a) && CString(a) == "-+" + s && s != ""
    ensures a[0] == '-' && Skipped(a) == 2 && |CString(a)| > 2
  {
    assert a[0] == CString(a)[0] && a[1] == CString(a)[1];
  }

  /** A 0x or 0X in front is skipped. */
  lemma AtoiSkipsPrefix(a: seq<char>, x: char, n: u32, tval: u8)
    requires |a| >= 2 && Terminated(a) && (x == 'x' || x == 'X') && CString(a) == ['0', x] + Digits(n, 16)
    ensures AtoiOf(a, 16, tval) == n
  {
    var s := Digits(n, 16);
    DigitsMeaning(n, 16);
    PrefixInFront(a, x, s);
    Suffix(CString(a), ['0', x], s);
    AccumulateValue(s, 16, tval);
    WrapOfWord(n);
  }

  lemma PrefixInFront(a: seq<char>, x: char, s: string)
    requires |a| >= 2 && Terminated(a) && (x == 'x' || x == 'X') && CString(a) == ['0', x] + s && s != ""
    ensures a[0] != '-' && Skipped(a) == 2 && |CString(a)| > 2
  {
    assert a[0] == CString(a)[0] && a[1] == CString(a)[1];
  }

  lemma AtoiPlain(a: seq<char>, base: nat, tval: u8)
    requires |a| >= 2 && Terminated(a) && Skipped(a) == 0 && a[0] != '-' && CString(a) != ""
    ensures AtoiOf(a, base, tval) == Accumulate(CString(a), base, 0, tval)
  {
    assert CString(a)[0..] == CString(a);
  }
}
