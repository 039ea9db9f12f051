/**
  The code generator of benchmark 502: a long run of relative calls into a table of small
  functions, an addition after each call, and a final return.
 */
module LinearCode {
  import opened Words
  import opened Congruential

  // ----- what is emitted

  /** C's remainder takes the sign of its left operand. */
  function Remainder(x: int, n: int): int
    requires n != 0
  {
    if x >= 0 then x % n else -((-x) % n)
  }

  /** The quotient is truncated toward zero: what is left has the sign of x and is smaller than n. */
  lemma RemainderMeaning(x: int, n: int) returns (q: int)
    requires n != 0
    ensures x == n * q + Remainder(x, n)
    ensures if n > 0 then -n < Remainder(x, n) < n else n < Remainder(x, n) < -n
    ensures if x >= 0 then Remainder(x, n) >= 0 else Remainder(x, n) <= 0
  {
    if x >= 0 {
      q := x / n;
    } else {
      q := -(-x / n);
      Negated(n, -x / n);
    }
  }

  lemma Negated(n: int, q: int)
    ensures n * -q == -(n * q)
  {
  }

  /** C := (A * C + B) % N, in wrapping 32-bit arithmetic. */
  function NextIndex(n: int, a: int, b: int, c: int): int
    requires n != 0
  {
    Remainder(SignedWrap(a * c + b), n)
  }

  /** The value C has when call i is emitted. */
  function TargetIndex(n: int, a: int, b: int, i: nat): int
    requires n != 0
  {
    if i == 0 then b else NextIndex(n, a, b, TargetIndex(n, a, b, i - 1))
  }

  /** Step i divides by n: the most negative number has no quotient by -1. */
  predicate StepDefined(n: int, a: int, b: int, i: nat) {
    n != 0 && (n == -1 ==> SignedWrap(a * TargetIndex(n, a, b, i) + b) != -0x8000_0000)
  }

  /** Arguments without signs, with which A * C + B stays in the range of an int. */
  predicate Plain(n: int, a: int, b: int) {
    n > 0 && 0 <= a && 0 <= b && a * (n - 1) + b < 0x8000_0000 && a * b + b < 0x8000_0000
  }

  /** The first calls of main's program go to functions 509 and 5638. */
  lemma FirstTargets()
    ensures TargetIndex(8192, 509, 509, 0) == 509 && TargetIndex(8192, 509, 509, 1) == 5638
  {
  }

  lemma NoOverflow(n: int, a: int, b: int, c: int)
    requires Plain(n, a, b) && 0 <= c && (c < n || c == b)
    ensures 0 <= a * c + b < 0x8000_0000 && SignedWrap(a * c + b) == a * c + b
  {
    if c < n {
      assert a * c <= a * (n - 1);
    }
    assert 0 <= a * c;
    DivModUnique(a * c + b, TWO32, 0, a * c + b);
  }

  /** Without a sign and without overflow the targets are the congruential sequence. */
  lemma {:induction false} TargetIsLcg(n: int, a: int, b: int, i: nat)
    requires Plain(n, a, b)
    ensures TargetIndex(n, a, b, i) == Lcg(n, a, b, b, i) >= 0
    ensures TargetIndex(n, a, b, i) < n || TargetIndex(n, a, b, i) == b
  {
    if i > 0 {
      TargetIsLcg(n, a, b, i - 1);
      NoOverflow(n, a, b, TargetIndex(n, a, b, i - 1));
    }
  }

  /** Where call i is meant to go. */
  function Target(functionsAt: int, n: int, a: int, b: int, i: nat): int
    requires n != 0
  {
    functionsAt + 64 * TargetIndex(n, a, b, i)
  }

  /** The displacement stored in call i, as an unsigned word; addresses lose their upper halves. */
  function Displacement(callsAt: int, functionsAt: int, c: int, i: nat): u32 {
    Wrap(functionsAt - callsAt + c * 64 - 5 - 10 * i)
  }

  /** CALL rel32; ADD EAX, 0x02a474b3. */
  function CallBlock(displacement: u32): (bs: seq<u8>)
    ensures |bs| == 10
  {
    [0xe8] + Bytes32(displacement) + [0x05, 0xb3, 0x74, 0xa4, 0x02]
  }

  const INCREMENT: u32 := 0x02a4_74b3

  function Calls(callsAt: int, functionsAt: int, n: int, a: int, b: int, len: nat): (bs: seq<u8>)
    requires n != 0
    ensures |bs| == 10 * len
  {
    if len == 0 then []
    else Calls(callsAt, functionsAt, n, a, b, len - 1) +
         CallBlock(Displacement(callsAt, functionsAt, TargetIndex(n, a, b, len - 1), len - 1))
  }

  lemma CallsMore(callsAt: int, functionsAt: int, n: int, a: int, b: int, len: nat)
    requires n != 0
    ensures Calls(callsAt, functionsAt, n, a, b, len + 1)
         == Calls(callsAt, functionsAt, n, a, b, len) + CallBlock(Displacement(callsAt, functionsAt, TargetIndex(n, a, b, len), len))
  {
  }

  // The code in front grows by what stands at `at`; what stands behind stays.
  lemma OneBlock(before: seq<u8>, after: seq<u8>, at: nat, next: nat, end: nat)
    requires at <= next <= end <= |before| == |after|
    requires after[..at] == before[..at] && after[next..] == before[next..]
    ensures after[..next] == before[..at] + after[at..next] && after[end..] == before[end..]
  {
    assert after[end..] == after[next..][end - next..];
    assert before[end..] == before[next..][end - next..];
  }

  lemma NextTarget(n: int, a: int, b: int, i: nat, c: int)
    requires n != 0 && c == TargetIndex(n, a, b, i)
    ensures NextIndex(n, a, b, c) == TargetIndex(n, a, b, i + 1)
  {
  }

  /** A whole program: the calls and a RET. */
  function Program(callsAt: int, functionsAt: int, n: int, a: int, b: int, len: nat): (bs: seq<u8>)
    requires n != 0
    ensures |bs| == 10 * len + 1
  {
    Calls(callsAt, functionsAt, n, a, b, len) + [0xc3]
  }

  /** One function: 48 C7 C1 imm32 C3, with the address of its data as immediate. */
  function FunctionBytes(dataAt: int, i: nat): (bs: seq<u8>)
    ensures |bs| == 8
  {
    [0x48, 0xc7, 0xc1] + Bytes32(Wrap(dataAt + 8 * i)) + [0xc3]
  }

  // ----- the generator

  method StoreWord(bytes: array<u8>, at: nat, w: u32)
    requires at + 4 <= bytes.Length
    modifies bytes
    ensures bytes[..] == old(bytes[..at]) + Bytes32(w) + old(bytes[at + 4..])
  {
    bytes[at] := w % 256;
    bytes[at + 1] := w / 0x100 % 256;
    bytes[at + 2] := w / 0x1_0000 % 256;
    bytes[at + 3] := w / 0x100_0000;
  }

  /** build_calls.  `calls` is loaded at callsAt and the function table at functionsAt. */
  method BuildCalls(calls: array<u8>, callsAt: int, functionsAt: int, len: nat, n: s32, a: s32, b: s32)
    requires n != 0 && forall i: nat :: i < len ==> StepDefined(n, a, b, i)
    requires 10 * len + 1 <= calls.Length
    modifies calls
    ensures calls[..10 * len + 1] == Program(callsAt, functionsAt, n, a, b, len)
    ensures calls[10 * len + 1..] == old(calls[10 * len + 1..])
  {
    var c: int := b;
    var i := 0;
    while i < len
      invariant 0 <= i <= len
      invariant c == TargetIndex(n, a, b, i)
      invariant calls[..10 * i] == Calls(callsAt, functionsAt, n, a, b, i)
      invariant calls[10 * len..] == old(calls[10 * len..])
    {
      CallsMore(callsAt, functionsAt, n, a, b, i);
      NextTarget(n, a, b, i, c);
      ghost var before := calls[..];
      EmitBlock(calls, 10 * i, Displacement(callsAt, functionsAt, c, i));
      OneBlock(before, calls[..], 10 * i, 10 * i + 10, 10 * len);
      c := NextIndex(n, a, b, c);
      i := i + 1;
    }
    calls[len * 10] := 0xc3;
  }

  /** The body of the emission loop. */
  method EmitBlock(calls: array<u8>, at: nat, displacement: u32)
    requires at + 10 <= calls.Length
    modifies calls
    ensures calls[..at] == old(calls[..at])
    ensures calls[at..at + 10] == CallBlock(displacement)
    ensures calls[at + 10..] == old(calls[at + 10..])
  {
    calls[at] := 0xe8;
    StoreWord(calls, at + 1, displacement);
    EmitAdd(calls, at + 5);
  }

  method EmitAdd(calls: array<u8>, at: nat)
    requires at + 5 <= calls.Length
    modifies calls
    ensures calls[..] == old(calls[..at]) + [0x05, 0xb3, 0x74, 0xa4, 0x02] + old(calls[at + 5..])
  {
    calls[at] := 0x05;
    calls[at + 1] := 0xb3;
    calls[at + 2] := 0x74;
    calls[at + 3] := 0xa4;
    calls[at + 4] := 0x02;
  }

  /** The loop in main: one function per 64 bytes, each with the address of its own data. */
  method FillFunctions(functions: array<u8>, dataAt: int, count: nat)
    requires 64 * count <= functions.Length
    modifies functions
    ensures forall f :: 0 <= f < count ==> functions[64 * f..64 * f + 8] == FunctionBytes(dataAt, f)
    ensures functions[64 * count..] == old(functions[64 * count..])
  {
    var i := 0;
    while i < count
      invariant 0 <= i <= count
      invariant forall f :: 0 <= f < i ==> functions[64 * f..64 * f + 8] == FunctionBytes(dataAt, f)
      invariant functions[64 * count..] == old(functions[64 * count..])
    {
      ghost var before := functions[..];
      EmitFunction(functions, 64 * i, Wrap(dataAt + 8 * i));
      forall f | 0 <= f < i
        ensures functions[64 * f..64 * f + 8] == before[64 * f..64 * f + 8]
      {
        assert 64 * f + 8 <= 64 * i;
        assert functions[64 * f..64 * f + 8] == functions[..64 * i][64 * f..64 * f + 8];
      }
      i := i + 1;
    }
  }

  /** Copy the template, then patch its immediate. */
  method EmitFunction(functions: array<u8>, at: nat, word: u32)
    requires at + 8 <= functions.Length
    modifies functions
    ensures functions[..at] == old(functions[..at])
    ensures functions[at..at + 8] == [0x48, 0xc7, 0xc1] + Bytes32(word) + [0xc3]
    ensures functions[at + 8..] == old(functions[at + 8..])
  {
    var template: seq<u8> := [0x48, 0xc7, 0xc1, 0x11, 0x11, 0x11, 0x11, 0xc3];
    var k := 0;
    while k < 8
      invariant 0 <= k <= 8
      invariant functions[..at] == old(functions[..at])
      invariant functions[at..at + k] == template[..k]
      invariant functions[at + 8..] == old(functions[at + 8..])
    {
      functions[at + k] := template[k];
      k := k + 1;
    }
    ghost var mid := functions[..];
    assert mid[at..at + 8] == template;
    StoreWord(functions, at + 3, word);
    assert functions[at..at + 8] == mid[at..at + 3] + Bytes32(word) + mid[at + 7..at + 8];
    assert mid[at..at + 3] == template[..3] && mid[at + 7..at + 8] == template[7..];
  }
}
