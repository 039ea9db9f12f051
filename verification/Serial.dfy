/** The serial printer: printStr, printHex, printDec and serial_printf, without its lock. */
module Serial {
  import opened Words
  import opened ImageText
  import opened Numbers

  datatype Arg = Number(n: u32) | Character(c: char) | Text(s: seq<char>)

  // ----- what comes out

  /** The port gets a carriage return before every line feed. */
  function Cooked(s: string): string {
    if s == "" then "" else (if s[0] == '\n' then "\r\n" else [s[0]]) + Cooked(s[1..])
  }

  lemma {:induction false} CookedAppend(a: string, b: string)
    ensures Cooked(a + b) == Cooked(a) + Cooked(b)
    decreases |a|
  {
    if a == "" {
      assert a + b == b;
    } else {
      assert (a + b)[1..] == a[1..] + b;
      CookedAppend(a[1..], b);
    }
  }

  function Newlines(s: string): nat {
    if s == "" then 0 else Newlines(s[1..]) + if s[0] == '\n' then 1 else 0
  }

  /**
    What the port gets for character i stands behind the bytes of the characters in front of it:
    a line feed with a carriage return directly before it, any other character by itself.
   */
  lemma {:induction false} CookedAt(s: string, i: nat)
    requires i < |s|
    ensures |Cooked(s)| == |s| + Newlines(s)
    ensures var at := i + Newlines(s[..i]);
            if s[i] == '\n' then at + 1 < |Cooked(s)| && Cooked(s)[at] == '\r' && Cooked(s)[at + 1] == '\n'
            else at < |Cooked(s)| && Cooked(s)[at] == s[i]
    decreases |s|
  {
    CookedLength(s);
    CookedLength(s[..i]);
    CookedAppend(s[..i], s[i..]);
    assert s[..i] + s[i..] == s;
    assert s[i..][0] == s[i];
  }

  lemma {:induction false} CookedLength(s: string)
    ensures |Cooked(s)| == |s| + Newlines(s)
    decreases |s|
  {
    if s != "" {
      CookedLength(s[1..]);
    }
  }

  /** printDec takes its argument for signed and prints nothing for what is then negative. */
  function Decimal(n: u32): string {
    if n < 0x8000_0000 then Digits(n, 10) else ""
  }

  /** One conversion; None where the argument is missing or of another type. */
  function Convert(c: char, args: seq<Arg>): Option<(string, seq<Arg>)> {
    if c == 'd' then
      if args != [] && args[0].Number? then Some((Decimal(args[0].n), args[1..])) else None
    else if c == 'x' then
      if args != [] && args[0].Number? then Some((Digits(args[0].n, 16), args[1..])) else None
    else if c == 'c' then
      if args != [] && args[0].Character? then Some(([args[0].c], args[1..])) else None
    else if c == 's' then
      if args != [] && args[0].Text? && Terminated(args[0].s) then Some((CString(args[0].s), args[1..])) else None
    else Some(("", args))
  }

  /** What a format makes of its arguments; a format that ends in a percent sign runs past its end. */
  function Rendered(fmt: string, args: seq<Arg>): Option<string>
    decreases |fmt|
  {
    if fmt == "" then Some("")
    else if fmt[0] != '%' then Joined([fmt[0]], Rendered(fmt[1..], args))
    else if |fmt| == 1 then None
    else match Convert(fmt[1], args)
      case None => None
      case Some(c) => Joined(c.0, Rendered(fmt[2..], c.1))
  }

  /** A format without conversions comes out as it stands, and needs no argument. */
  lemma {:induction false} PlainFormat(fmt: string, args: seq<Arg>)
    requires '%' !in fmt
    ensures Rendered(fmt, args) == Some(fmt)
    decreases |fmt|
  {
    if fmt != "" {
      PlainFormat(fmt[1..], args);
      assert [fmt[0]] + fmt[1..] == fmt;
    }
  }

  /** Characters in front of a conversion come out as they stand. */
  lemma {:induction false} FirstConversion(before: string, c: char, after: string, args: seq<Arg>)
    requires '%' !in before
    ensures Rendered(before + ['%', c] + after, args) ==
            match Convert(c, args) { case None => None case Some(r) => Joined(before + r.0, Rendered(after, r.1)) }
    decreases |before|
  {
    var fmt := before + ['%', c] + after;
    if before == "" {
      assert fmt[2..] == after && fmt[1] == c;
      if Convert(c, args).Some? {
        assert before + Convert(c, args).value.0 == Convert(c, args).value.0;
      }
    } else {
      assert fmt[1..] == before[1..] + ['%', c] + after;
      FirstConversion(before[1..], c, after, args);
      if Convert(c, args).Some? {
        var r := Convert(c, args).value;
        JoinedTwice([before[0]], before[1..] + r.0, Rendered(after, r.1));
        assert [before[0]] + (before[1..] + r.0) == before + r.0;
      }
    }
  }

  /** A percent sign at the end leads behind the format. */
  lemma {:induction false} TrailingPercent(before: string, args: seq<Arg>)
    requires '%' !in before
    ensures Rendered(before + "%", args) == None
    decreases |before|
  {
    if before == "" {
      assert before + "%" == "%";
    } else {
      assert (before + "%")[1..] == before[1..] + "%";
      TrailingPercent(before[1..], args);
    }
  }

  /** %x: the hexadecimal digits of the number. */
  lemma HexInFormat(before: string, n: u32, after: string, args: seq<Arg>)
    requires '%' !in before
    ensures Rendered(before + "%x" + after, [Number(n)] + args) == Joined(before + Digits(n, 16), Rendered(after, args))
  {
    FirstConversion(before, 'x', after, [Number(n)] + args);
    assert ([Number(n)] + args)[1..] == args;
  }

  /** %d: the decimal digits of a number below 2^31, nothing for others. */
  lemma DecimalInFormat(before: string, n: u32, after: string, args: seq<Arg>)
    requires '%' !in before
    ensures Rendered(before + "%d" + after, [Number(n)] + args)
         == Joined(before + (if n < 0x8000_0000 then Digits(n, 10) else ""), Rendered(after, args))
  {
    FirstConversion(before, 'd', after, [Number(n)] + args);
    assert ([Number(n)] + args)[1..] == args;
  }

  /** %c: the character. */
  lemma CharacterInFormat(before: string, c: char, after: string, args: seq<Arg>)
    requires '%' !in before
    ensures Rendered(before + "%c" + after, [Character(c)] + args) == Joined(before + [c], Rendered(after, args))
  {
    FirstConversion(before, 'c', after, [Character(c)] + args);
    assert ([Character(c)] + args)[1..] == args;
  }

  /** %s: the string up to its zero. */
  lemma TextInFormat(before: string, text: string, rest: seq<char>, after: string, args: seq<Arg>)
    requires '%' !in before && '\0' !in text
    ensures Rendered(before + "%s" + after, [Text(text + ['\0'] + rest)] + args) == Joined(before + text, Rendered(after, args))
  {
    var a := text + ['\0'] + rest;
    assert a[..|text|] == text && a[|text|] == '\0';
    CStringIs(a, |text|);
    FirstConversion(before, 's', after, [Text(a)] + args);
    assert ([Text(a)] + args)[1..] == args;
  }

  /** A percent sign and any other letter: nothing, and no argument is used. */
  lemma OtherInFormat(before: string, c: char, after: string, args: seq<Arg>)
    requires '%' !in before && c != 'd' && c != 'x' && c != 'c' && c != 's'
    ensures Rendered(before + ['%', c] + after, args) == Joined(before, Rendered(after, args))
  {
    FirstConversion(before, c, after, args);
    assert before + "" == before;
  }

  function Joined(front: string, back: Option<string>): Option<string> {
    if back.None? then None else Some(front + back.value)
  }

  // ----- hexadecimal digits from the top

  function Quotient(n: nat, m: nat): nat
    requires m >= 1
  {
    n / m
  }

  function Hex(n: nat, i: nat): nat {
    Quotient(n, Pow16(i))
  }

  // The digits in front of the i last ones; none where they are zeroes.
  function Leading(n: nat, i: nat): string {
    if Hex(n, i) == 0 then "" else Digits(Hex(n, i), 16)
  }

  lemma HexStep(n: nat, i: nat)
    requires i > 0
    ensures Hex(n, i) == Hex(n, i - 1) / 16
  {
    var m := Pow16(i - 1);
    DivTwice(n, m);
  }

  lemma HexTop(n: u32)
    ensures Hex(n, 8) == 0 && Hex(n, 0) == n
  {
    assert Pow16(4) == 0x1_0000;
    assert Pow16(8) == TWO32;
  }

  lemma LeadingStep(n: nat, i: nat)
    requires i > 0
    ensures Hex(n, i - 1) % 16 == 0 && Hex(n, i) == 0 ==> Hex(n, i - 1) == 0
    ensures Hex(n, i) != 0 || Hex(n, i - 1) % 16 != 0 || i == 1 ==>
              AllLeading(n, i - 1) == Leading(n, i) + [LowerDigit(Hex(n, i - 1) % 16)]
  {
    HexStep(n, i);
  }

  function AllLeading(n: nat, i: nat): string {
    Digits(Hex(n, i), 16)
  }

  class Port {
    var sent: string

    constructor ()
      ensures sent == ""
    {
      sent := "";
    }

    /** serial_putchar */
    method PutChar(a: char)
      modifies this
      ensures sent == old(sent) + Cooked([a])
      ensures sent == old(sent) + if a == '\n' then "\r\n" else [a]
    {
      assert [a][1..] == "";
      if a == '\n' {
        sent := sent + ['\r'];
      }
      sent := sent + [a];
    }

    method PrintStr(str: seq<char>)
      requires Terminated(str)
      modifies this
      ensures sent == old(sent) + Cooked(CString(str))
    {
      var ptr := 0;
      ghost var s := CString(str);
      assert s[..0] == "";
      while str[ptr] != '\0'
        invariant 0 <= ptr <= |s|
        invariant sent == old(sent) + Cooked(s[..ptr])
        decreases |s| - ptr
      {
        CookedAppend(s[..ptr], [str[ptr]]);
        assert s[..ptr + 1] == s[..ptr] + [str[ptr]];
        PutChar(str[ptr]);
        ptr := ptr + 1;
      }
      assert s[..|s|] == s;
    }

    /** printHex prints the digits itoa would. */
    method PrintHex(n: u32)
      modifies this
      ensures sent == old(sent) + Cooked(Digits(n, 16))
    {
      var noZeroes := true;
      var i := 7;
      HexTop(n);
      while i > 0
        invariant 0 <= i <= 7
        invariant noZeroes == (Hex(n, i + 1) == 0)
        invariant sent == old(sent) + Cooked(Leading(n, i + 1))
        decreases i
      {
        var tmp := Hex(n, i) % 16;
        LeadingStep(n, i + 1);
        if !(tmp == 0 && noZeroes) {
          noZeroes := false;
          CookedAppend(Leading(n, i + 1), [LowerDigit(tmp)]);
          HexStep(n, i + 1);
          PutChar(LowerDigit(tmp));
        }
        i := i - 1;
      }
      LeadingStep(n, 1);
      CookedAppend(Leading(n, 1), [LowerDigit(n % 16)]);
      PutChar(LowerDigit(n % 16));
    }

    /** printDec prints the digits itoa would, below 2^31. */
    method PrintDec(n: u32)
      modifies this
      ensures sent == old(sent) + Cooked(if n < 0x8000_0000 then Digits(n, 10) else "")
    {
      if n == 0 {
        PutChar('0');
        return;
      }
      var c, i := LastFirst(n);
      var c2 := Mirrored(c, i);
      DecimalHasNoZero(n);
      CStringIs(c2[..], i);
      assert c2[..][..i] == c2[..i];
      PrintStr(c2[..]);
    }

    /** One conversion of serial_printf, for the character behind the percent sign. */
    method PrintArg(ch: char, args: seq<Arg>) returns (left: seq<Arg>)
      requires Convert(ch, args).Some?
      modifies this
      ensures sent == old(sent) + Cooked(Convert(ch, args).value.0) && left == Convert(ch, args).value.1
    {
      left := args;
      if ch == 'd' {
        PrintDec(args[0].n);
        left := args[1..];
      } else if ch == 'x' {
        PrintHex(args[0].n);
        left := args[1..];
      } else if ch == 'c' {
        PutChar(args[0].c);
        left := args[1..];
      } else if ch == 's' {
        PrintStr(args[0].s);
        left := args[1..];
      }
    }

    /** serial_printf between taking the lock and giving it back. */
    method Printf(fmt: string, args: seq<Arg>)
      requires Rendered(fmt, args).Some?
      modifies this
      ensures sent == old(sent) + Cooked(Rendered(fmt, args).value)
    {
      var i, left := 0, args;
      ghost var done := "";
      RenderedStart(fmt, args);
      while i < |fmt|
        invariant 0 <= i <= |fmt|
        invariant sent == old(sent) + Cooked(done)
        invariant Joined(done, Rendered(fmt[i..], left)) == Rendered(fmt, args)
      {
        RenderedStep(fmt, i, left, done);
        if fmt[i] != '%' {
          CookedAppend(done, [fmt[i]]);
          done := done + [fmt[i]];
          PutChar(fmt[i]);
        } else {
          i := i + 1;
          CookedAppend(done, Convert(fmt[i], left).value.0);
          done := done + Convert(fmt[i], left).value.0;
          left := PrintArg(fmt[i], left);
        }
        i := i + 1;
      }
      assert done + "" == done;
    }
  }

  lemma RenderedStart(fmt: string, args: seq<Arg>)
    ensures Joined("", Rendered(fmt[0..], args)) == Rendered(fmt, args)
  {
    assert fmt[0..] == fmt;
    var r := Rendered(fmt, args);
    if r.Some? {
      assert "" + r.value == r.value;
    }
  }

  /** The first loop of printDec. */
  method LastFirst(n: u32) returns (c: array<char>, i: nat)
    requires n > 0
    ensures c.Length == 32 && i == |Decimal(n)| <= 10 && Reversed(c[..i]) == Decimal(n)
  {
    var acc := if n < 0x8000_0000 then n else n as int - TWO32;
    c := new char[32];
    i := 0;
    WordDigitsFew(n, 10);
    while acc > 0
      invariant 0 <= i <= |Decimal(n)| && (acc > 0 ==> i < |Decimal(n)|)
      invariant acc > 0 ==> Digits(acc, 10) + Reversed(c[..i]) == Decimal(n)
      invariant acc <= 0 ==> Reversed(c[..i]) == Decimal(n)
    {
      ghost var before := c[..i];
      DigitOut(acc, 10, before);
      c[i] := ('0' as int + acc % 10) as char;
      assert c[..i + 1] == before + [LowerDigit(acc % 10)];
      acc := acc / 10;
      i := i + 1;
    }
  }

  /** The second loop of printDec. */
  method Mirrored(c: array<char>, n: nat) returns (c2: array<char>)
    requires c.Length == 32 && n < 32
    ensures c2.Length == 32 && c2[..n] == Reversed(c[..n]) && c2[n] == '\0'
  {
    c2 := new char[32];
    var i, j := n, 0;
    c2[i] := '\0';
    i := i - 1;
    while i >= 0
      invariant -1 <= i < n && j == n - 1 - i
      invariant c2[n] == '\0'
      invariant forall k :: i < k < n ==> c2[k] == c[..n][n - 1 - k]
    {
      c2[i] := c[j];
      i := i - 1;
      j := j + 1;
    }
  }

  lemma DecimalHasNoZero(n: u32)
    ensures forall i :: 0 <= i < |Decimal(n)| ==> Decimal(n)[i] != '\0'
  {
    DigitsMeaning(n, 10);
  }

  // One turn of the loop in serial_printf.
  lemma RenderedStep(fmt: string, i: nat, args: seq<Arg>, done: string)
    requires i < |fmt| && Rendered(fmt[i..], args).Some?
    ensures fmt[i] != '%' ==>
              Joined(done, Rendered(fmt[i..], args)) == Joined(done + [fmt[i]], Rendered(fmt[i + 1..], args))
    ensures fmt[i] == '%' ==>
              i + 1 < |fmt| && Convert(fmt[i + 1], args).Some? &&
              Joined(done, Rendered(fmt[i..], args))
              == Joined(done + Convert(fmt[i + 1], args).value.0, Rendered(fmt[i + 2..], Convert(fmt[i + 1], args).value.1))
  {
    assert fmt[i..][1..] == fmt[i + 1..];
    if i + 1 < |fmt| {
      assert fmt[i..][2..] == fmt[i + 2..];
    }
    if fmt[i] != '%' {
      JoinedTwice(done, [fmt[i]], Rendered(fmt[i + 1..], args));
    } else {
      JoinedTwice(done, Convert(fmt[i + 1], args).value.0, Rendered(fmt[i + 2..], Convert(fmt[i + 1], args).value.1));
    }
  }

  lemma JoinedTwice(a: string, b: string, c: Option<string>)
    ensures Joined(a, Joined(b, c)) == Joined(a + b, c)
  {
    if c.Some? {
      assert a + (b + c.value) == a + b + c.value;
    }
  }
}
