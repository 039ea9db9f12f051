/**
  The few x86 instructions benchmark 502 emits, in 32-bit and in 64-bit mode.  Encodings: Intel
  64 and IA-32 Architectures Software Developer's Manual, volume 2, entries CALL (E8 cd), ADD
  (05 id), MOV (C7 /0 id), DEC (48+rd, 32-bit mode), the REX.W prefix (48, 64-bit mode), RET (C3).
 */
module X86 {
  import opened Words

  datatype Mode = Bits32 | Bits64

  function Space(mode: Mode): int {
    match mode case Bits32 => TWO32 case Bits64 => TWO32 * TWO32
  }

  /**
    The part of the processor the code uses.  `ax` is EAX, `cx` is ECX or RCX.  The stack is the
    list of pushed return addresses, last one first.  `called` records the targets of calls.
   */
  datatype Cpu = Cpu(ip: int, ax: u32, cx: int, stack: seq<int>, called: seq<int>)

  type Memory = map<int, u8>

  predicate ByteIs(mem: Memory, a: int, b: u8) {
    a in mem && mem[a] == b
  }

  ghost predicate Loaded(mem: Memory, base: int, bytes: seq<u8>) {
    forall k :: 0 <= k < |bytes| ==> ByteIs(mem, base + k, bytes[k])
  }

  lemma ByteAt(mem: Memory, base: int, bytes: seq<u8>, k: nat)
    requires Loaded(mem, base, bytes) && k < |bytes|
    ensures base + k in mem && mem[base + k] == bytes[k]
  {
    assert ByteIs(mem, base + k, bytes[k]);
  }

  /** Four bytes are there from address a on. */
  predicate Has4(mem: Memory, a: int) {
    a in mem && a + 1 in mem && a + 2 in mem && a + 3 in mem
  }

  // ----- words in memory

  /** An immediate or displacement, sign-extended. */
  function SignExtend(w: u32): int {
    if w < 0x8000_0000 then w else w - TWO32
  }

  function WordAt(mem: Memory, a: int): u32
    requires Has4(mem, a)
  {
    Word32(mem[a], mem[a + 1], mem[a + 2], mem[a + 3])
  }

  // Four loaded bytes read back as the word they were made from.
  lemma WordLoaded(mem: Memory, base: int, w: u32)
    requires Loaded(mem, base, Bytes32(w))
    ensures Has4(mem, base) && WordAt(mem, base) == w
  {
    ByteAt(mem, base, Bytes32(w), 0);
    ByteAt(mem, base, Bytes32(w), 1);
    ByteAt(mem, base, Bytes32(w), 2);
    ByteAt(mem, base, Bytes32(w), 3);
    WordRoundTrip(w);
  }

  lemma LoadedPart(mem: Memory, base: int, bytes: seq<u8>, lo: nat, part: seq<u8>)
    requires Loaded(mem, base, bytes) && lo + |part| <= |bytes| && bytes[lo..lo + |part|] == part
    ensures Loaded(mem, base + lo, part)
  {
    forall k | 0 <= k < |part|
      ensures ByteIs(mem, base + lo + k, part[k])
    {
      assert bytes[lo..lo + |part|][k] == bytes[lo + k];
      ByteAt(mem, base, bytes, lo + k);
    }
  }

  // ----- one instruction

  datatype Instr =
    | CallRel(displacement: u32)
    | AddEax(imm: u32)
    | MovEcx(imm: u32)
    | MovRcx(imm: u32)
    | DecEax
    | Ret

  function Length(i: Instr): nat {
    match i
    case CallRel(_) => 5 case AddEax(_) => 5 case MovEcx(_) => 6 case MovRcx(_) => 7
    case DecEax => 1 case Ret => 1
  }

  function Decode(mode: Mode, mem: Memory, ip: int): Option<Instr> {
    if ip !in mem then None
    else if mem[ip] == 0xe8 && Has4(mem, ip + 1) then Some(CallRel(WordAt(mem, ip + 1)))
    else if mem[ip] == 0x05 && Has4(mem, ip + 1) then Some(AddEax(WordAt(mem, ip + 1)))
    else if mem[ip] == 0xc7 && ip + 1 in mem && mem[ip + 1] == 0xc1 && Has4(mem, ip + 2) then Some(MovEcx(WordAt(mem, ip + 2)))
    else if mem[ip] == 0x48 && mode == Bits32 then Some(DecEax)
    else if mem[ip] == 0x48 && ip + 1 in mem && mem[ip + 1] == 0xc7 && ip + 2 in mem && mem[ip + 2] == 0xc1 && Has4(mem, ip + 3) then
      Some(MovRcx(WordAt(mem, ip + 3)))
    else if mem[ip] == 0xc3 then Some(Ret)
    else None
  }

  /** An address, as wide as the mode has them. */
  function Address(mode: Mode, x: int): int {
    x % Space(mode)
  }

  lemma SmallAddress(mode: Mode, x: int)
    requires 0 <= x < Space(mode)
    ensures Address(mode, x) == x
  {
  }

  function Execute(mode: Mode, cpu: Cpu, i: Instr): Option<Cpu> {
    var next := Address(mode, cpu.ip + Length(i));
    match i
    case CallRel(d) =>
      var target := Address(mode, cpu.ip + 5 + SignExtend(d));
      Some(cpu.(ip := target, stack := [next] + cpu.stack, called := cpu.called + [target]))
    case AddEax(imm) => Some(cpu.(ip := next, ax := Wrap(cpu.ax + imm)))
    case MovEcx(imm) => Some(cpu.(ip := next, cx := imm))
    case MovRcx(imm) => Some(cpu.(ip := next, cx := Address(mode, SignExtend(imm))))
    case DecEax => Some(cpu.(ip := next, ax := Wrap(cpu.ax - 1)))
    case Ret => if |cpu.stack| > 0 then Some(cpu.(ip := cpu.stack[0], stack := cpu.stack[1..])) else None
  }

  function Step(mode: Mode, mem: Memory, cpu: Cpu): Option<Cpu> {
    match Decode(mode, mem, cpu.ip)
    case None => None
    case Some(i) => Execute(mode, cpu, i)
  }

  function Run(mode: Mode, mem: Memory, cpu: Cpu, steps: nat): Option<Cpu>
    decreases steps
  {
    if steps == 0 then Some(cpu)
    else match Step(mode, mem, cpu)
      case None => None
      case Some(cpu') => Run(mode, mem, cpu', steps - 1)
  }

  lemma {:induction false} RunCompose(mode: Mode, mem: Memory, cpu: Cpu, i: nat, j: nat)
    requires Run(mode, mem, cpu, i).Some?
    ensures Run(mode, mem, cpu, i + j) == Run(mode, mem, Run(mode, mem, cpu, i).value, j)
    decreases i
  {
    if i > 0 {
      RunCompose(mode, mem, Step(mode, mem, cpu).value, i - 1, j);
    }
  }
}
