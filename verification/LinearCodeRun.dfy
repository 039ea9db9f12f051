/**
  What the emitted program does when it is run.
 */
module LinearCodeRun {
  import opened Words
  import opened X86
  import opened Congruential
  import opened LinearCode

  /** Where things are, how many functions there are, and what the emission was asked for. */
  datatype Layout = Layout(mode: Mode, callsAt: nat, functionsAt: nat, dataAt: nat, count: nat, n: int, a: int, b: int)

  /** The function table is in memory. */
  ghost predicate TableLoaded(mem: Memory, l: Layout) {
    && l.functionsAt + 64 * l.count <= Space(l.mode)
    && forall f :: 0 <= f < l.count ==> FunctionLoaded(mem, l, f)
  }

  /** Every call goes to a function of the table. */
  ghost predicate InTable(l: Layout, len: nat)
    requires l.n != 0
  {
    forall i: nat :: i < len ==> 0 <= TargetIndex(l.n, l.a, l.b, i) < l.count
  }

  ghost predicate FunctionLoaded(mem: Memory, l: Layout, f: nat) {
    Loaded(mem, l.functionsAt + 64 * f, FunctionBytes(l.dataAt, f))
  }

  ghost predicate ProgramLoaded(mem: Memory, l: Layout, len: nat)
    requires l.n != 0
  {
    && l.callsAt + 10 * len + 1 <= Space(l.mode)
    && Loaded(mem, l.callsAt, Program(l.callsAt, l.functionsAt, l.n, l.a, l.b, len))
  }

  /** A 32-bit displacement spans the distance d, in a space of 2^64 addresses. */
  predicate Near(d: int) {
    d % Space(Bits64) < 0x8000_0000 || d % Space(Bits64) >= Space(Bits64) - 0x8000_0000
  }

  function Distance(l: Layout, c: int, i: nat): int {
    l.functionsAt + 64 * c - (l.callsAt + 10 * i + 5)
  }

  /** From call i to the function with index c. */
  predicate Reaches(l: Layout, c: int, i: nat) {
    Near(Distance(l, c, i))
  }

  /** In 32-bit mode addresses wrap and every call arrives; in 64-bit mode it has to reach. */
  ghost predicate AllReach(l: Layout, len: nat)
    requires l.n != 0
  {
    l.mode == Bits64 ==> forall i :: 0 <= i < len ==> Reaches(l, TargetIndex(l.n, l.a, l.b, i), i)
  }

  function Landing(l: Layout, c: int, i: nat): int {
    Address(l.mode, l.callsAt + 10 * i + 5 + SignExtend(Displacement(l.callsAt, l.functionsAt, c, i)))
  }

  // A sign-extended displacement is its distance minus a multiple of 2^32.
  lemma DisplacementOf(l: Layout, c: int, i: nat) returns (k: int)
    ensures Distance(l, c, i) == SignExtend(Displacement(l.callsAt, l.functionsAt, c, i)) + TWO32 * k
  {
    var q := Distance(l, c, i) / TWO32;
    k := if Wrap(Distance(l, c, i)) < 0x8000_0000 then q else q + 1;
  }

  // It is near iff that multiple is one of 2^64, too.
  lemma NearIff(e: int, k: int)
    requires -0x8000_0000 <= e < 0x8000_0000
    ensures Near(e + TWO32 * k) <==> k % TWO32 == 0
  {
    var q, r := k / TWO32, k % TWO32;
    var low := e + TWO32 * r;
    assert e + TWO32 * k == low + Space(Bits64) * q;
    if low >= 0 {
      DivModUnique(e + TWO32 * k, Space(Bits64), q, low);
    } else {
      DivModUnique(e + TWO32 * k, Space(Bits64), q - 1, low + Space(Bits64));
    }
  }

  // Adding e and adding e + 2^32 * k leads to the same address iff 2^64 divides the difference.
  lemma LandsIff(base: int, e: int, k: int)
    requires 0 <= base + e + TWO32 * k < Space(Bits64)
    ensures Address(Bits64, base + e) == base + e + TWO32 * k <==> k % TWO32 == 0
  {
    var target, q, r := base + e + TWO32 * k, k / TWO32, k % TWO32;
    assert base + e == target - TWO32 * r - Space(Bits64) * q;
    if target >= TWO32 * r {
      DivModUnique(base + e, Space(Bits64), -q, target - TWO32 * r);
    } else {
      DivModUnique(base + e, Space(Bits64), -q - 1, target - TWO32 * r + Space(Bits64));
    }
  }

  lemma LandsIn32(base: int, e: int, k: int)
    requires 0 <= base + e + TWO32 * k < TWO32
    ensures Address(Bits32, base + e) == base + e + TWO32 * k
  {
    DivModUnique(base + e, TWO32, -k, base + e + TWO32 * k);
  }

  /** Where an emitted call lands: always right in 32-bit mode, in 64-bit mode iff it reaches. */
  lemma LandingExact(l: Layout, c: int, i: nat)
    requires 0 <= l.functionsAt + 64 * c < Space(l.mode)
    ensures l.mode == Bits32 ==> Landing(l, c, i) == l.functionsAt + 64 * c
    ensures l.mode == Bits64 ==> (Landing(l, c, i) == l.functionsAt + 64 * c <==> Reaches(l, c, i))
  {
    var k := DisplacementOf(l, c, i);
    var e, base := SignExtend(Displacement(l.callsAt, l.functionsAt, c, i)), l.callsAt + 10 * i + 5;
    assert base + e + TWO32 * k == l.functionsAt + 64 * c;
    match l.mode
    case Bits32 => LandsIn32(base, e, k);
    case Bits64 =>
      NearIff(e, k);
      LandsIff(base, e, k);
  }

  // ----- reading the program back

  lemma {:induction false} BlockInCalls(l: Layout, len: nat, i: nat)
    requires l.n != 0 && i < len
    ensures Calls(l.callsAt, l.functionsAt, l.n, l.a, l.b, len)[10 * i..10 * i + 10]
         == CallBlock(Displacement(l.callsAt, l.functionsAt, TargetIndex(l.n, l.a, l.b, i), i))
    decreases len
  {
    if i < len - 1 {
      BlockInCalls(l, len - 1, i);
      var all, init := Calls(l.callsAt, l.functionsAt, l.n, l.a, l.b, len), Calls(l.callsAt, l.functionsAt, l.n, l.a, l.b, len - 1);
      assert all[..10 * (len - 1)] == init;
      assert all[10 * i..10 * i + 10] == init[10 * i..10 * i + 10];
    }
  }

  lemma BlockLoaded(mem: Memory, l: Layout, len: nat, i: nat)
    requires l.n != 0 && ProgramLoaded(mem, l, len) && i < len
    ensures Loaded(mem, l.callsAt + 10 * i, CallBlock(Displacement(l.callsAt, l.functionsAt, TargetIndex(l.n, l.a, l.b, i), i)))
  {
    var code := Program(l.callsAt, l.functionsAt, l.n, l.a, l.b, len);
    BlockInCalls(l, len, i);
    assert code[..10 * len] == Calls(l.callsAt, l.functionsAt, l.n, l.a, l.b, len);
    assert code[10 * i..10 * i + 10] == code[..10 * len][10 * i..10 * i + 10];
    LoadedPart(mem, l.callsAt, code, 10 * i, CallBlock(Displacement(l.callsAt, l.functionsAt, TargetIndex(l.n, l.a, l.b, i), i)));
  }

  // ----- one instruction at a time

  lemma CallDecodes(mem: Memory, mode: Mode, at: int, w: u32)
    requires Loaded(mem, at, CallBlock(w))
    ensures Decode(mode, mem, at) == Some(CallRel(w))
  {
    ByteAt(mem, at, CallBlock(w), 0);
    LoadedPart(mem, at, CallBlock(w), 1, Bytes32(w));
    WordLoaded(mem, at + 1, w);
  }

  lemma AddDecodes(mem: Memory, mode: Mode, at: int, w: u32)
    requires Loaded(mem, at, CallBlock(w))
    ensures Decode(mode, mem, at + 5) == Some(AddEax(INCREMENT))
  {
    assert Bytes32(INCREMENT) == [0xb3, 0x74, 0xa4, 0x02];
    ByteAt(mem, at, CallBlock(w), 5);
    LoadedPart(mem, at, CallBlock(w), 6, Bytes32(INCREMENT));
    WordLoaded(mem, at + 6, INCREMENT);
  }

  lemma CallStep(mem: Memory, l: Layout, c: int, i: nat, cpu: Cpu)
    requires Loaded(mem, l.callsAt + 10 * i, CallBlock(Displacement(l.callsAt, l.functionsAt, c, i)))
    requires cpu.ip == l.callsAt + 10 * i && l.callsAt + 10 * i + 10 < Space(l.mode)
    ensures Step(l.mode, mem, cpu) ==
            Some(cpu.(ip := Landing(l, c, i), stack := [l.callsAt + 10 * i + 5] + cpu.stack, called := cpu.called + [Landing(l, c, i)]))
  {
    CallDecodes(mem, l.mode, cpu.ip, Displacement(l.callsAt, l.functionsAt, c, i));
    SmallAddress(l.mode, cpu.ip + 5);
  }

  lemma AddStep(mem: Memory, mode: Mode, at: int, w: u32, cpu: Cpu)
    requires Loaded(mem, at, CallBlock(w)) && cpu.ip == at + 5 && 0 <= at && at + 10 < Space(mode)
    ensures Step(mode, mem, cpu) == Some(cpu.(ip := at + 10, ax := Wrap(cpu.ax + INCREMENT)))
  {
    AddDecodes(mem, mode, at, w);
    SmallAddress(mode, at + 10);
  }

  /** Instructions in one function: 48 is an instruction of its own in 32-bit mode. */
  function FunctionSteps(mode: Mode): nat {
    match mode case Bits32 => 3 case Bits64 => 2
  }

  /** What one round trip adds to EAX: in 32-bit mode the function decrements it first. */
  function PerCall(mode: Mode): int {
    match mode case Bits32 => INCREMENT - 1 case Bits64 => INCREMENT
  }

  function DataWord(l: Layout, f: nat): u32 {
    Wrap(l.dataAt + 8 * f)
  }

  function DataRegister(l: Layout, f: nat): int {
    match l.mode
    case Bits32 => DataWord(l, f)
    case Bits64 => Address(Bits64, SignExtend(DataWord(l, f)))
  }

  lemma FunctionDecodes(mem: Memory, l: Layout, f: nat)
    requires FunctionLoaded(mem, l, f)
    ensures var at := l.functionsAt + 64 * f;
            && Decode(Bits32, mem, at) == Some(DecEax)
            && Decode(Bits32, mem, at + 1) == Some(MovEcx(DataWord(l, f)))
            && Decode(Bits64, mem, at) == Some(MovRcx(DataWord(l, f)))
            && Decode(l.mode, mem, at + 7) == Some(Ret)
  {
    FunctionRead(mem, l, f);
  }

  // The bytes of a function, one by one, and the word in it.
  lemma FunctionRead(mem: Memory, l: Layout, f: nat)
    requires FunctionLoaded(mem, l, f)
    ensures var at := l.functionsAt + 64 * f;
            && at in mem && mem[at] == 0x48 && at + 1 in mem && mem[at + 1] == 0xc7
            && at + 2 in mem && mem[at + 2] == 0xc1 && at + 7 in mem && mem[at + 7] == 0xc3
            && Has4(mem, at + 3) && WordAt(mem, at + 3) == DataWord(l, f)
  {
    var at, bs := l.functionsAt + 64 * f, FunctionBytes(l.dataAt, f);
    ByteAt(mem, at, bs, 0);
    ByteAt(mem, at, bs, 1);
    ByteAt(mem, at, bs, 2);
    ByteAt(mem, at, bs, 7);
    LoadedPart(mem, at, bs, 3, Bytes32(DataWord(l, f)));
    WordLoaded(mem, at + 3, DataWord(l, f));
  }

  /** Below 2^31 a function leaves the address of its own data, eight bytes to a function. */
  lemma DataAddress(l: Layout, f: nat)
    requires l.dataAt + 8 * f < 0x8000_0000
    ensures DataRegister(l, f) == l.dataAt + 8 * f
  {
    SmallAddress(Bits64, l.dataAt + 8 * f);
  }

  // The steps of a run, one after the other.
  lemma TwoSteps(mode: Mode, mem: Memory, c0: Cpu, c1: Cpu, c2: Cpu)
    requires Step(mode, mem, c0) == Some(c1) && Step(mode, mem, c1) == Some(c2)
    ensures Run(mode, mem, c0, 2) == Some(c2)
  {
    assert Run(mode, mem, c1, 1) == Run(mode, mem, c2, 0);
    assert Run(mode, mem, c0, 2) == Run(mode, mem, c1, 1);
  }

  lemma ThreeSteps(mode: Mode, mem: Memory, c0: Cpu, c1: Cpu, c2: Cpu, c3: Cpu)
    requires Step(mode, mem, c0) == Some(c1) && Step(mode, mem, c1) == Some(c2) && Step(mode, mem, c2) == Some(c3)
    ensures Run(mode, mem, c0, 3) == Some(c3)
  {
    TwoSteps(mode, mem, c1, c2, c3);
    assert Run(mode, mem, c0, 3) == Run(mode, mem, c1, 2);
  }

  function AfterFunction(l: Layout, f: nat, cpu: Cpu): Cpu
    requires |cpu.stack| > 0
  {
    cpu.(ip := cpu.stack[0], stack := cpu.stack[1..], cx := DataRegister(l, f),
         ax := match l.mode case Bits32 => Wrap(cpu.ax - 1) case Bits64 => cpu.ax)
  }

  lemma DecStep(mem: Memory, cpu: Cpu)
    requires Decode(Bits32, mem, cpu.ip) == Some(DecEax) && 0 <= cpu.ip && cpu.ip + 1 < TWO32
    ensures Step(Bits32, mem, cpu) == Some(cpu.(ip := cpu.ip + 1, ax := Wrap(cpu.ax - 1)))
  {
    SmallAddress(Bits32, cpu.ip + 1);
  }

  lemma MovStep(mem: Memory, l: Layout, f: nat, cpu: Cpu)
    requires Decode(Bits32, mem, cpu.ip) == Some(MovEcx(DataWord(l, f))) && l.mode == Bits32
    requires 0 <= cpu.ip && cpu.ip + 6 < TWO32
    ensures Step(Bits32, mem, cpu) == Some(cpu.(ip := cpu.ip + 6, cx := DataRegister(l, f)))
  {
    SmallAddress(Bits32, cpu.ip + 6);
  }

  lemma FunctionRuns32(mem: Memory, l: Layout, f: nat, cpu: Cpu)
    requires FunctionLoaded(mem, l, f) && l.mode == Bits32
    requires cpu.ip == l.functionsAt + 64 * f && cpu.ip + 8 < Space(l.mode) && |cpu.stack| > 0
    ensures Run(Bits32, mem, cpu, 3) == Some(AfterFunction(l, f, cpu))
  {
    FunctionDecodes(mem, l, f);
    var c1 := cpu.(ip := cpu.ip + 1, ax := Wrap(cpu.ax - 1));
    var c2 := c1.(ip := cpu.ip + 7, cx := DataRegister(l, f));
    DecStep(mem, cpu);
    MovStep(mem, l, f, c1);
    ThreeSteps(Bits32, mem, cpu, c1, c2, AfterFunction(l, f, cpu));
  }

  lemma FunctionRuns64(mem: Memory, l: Layout, f: nat, cpu: Cpu)
    requires FunctionLoaded(mem, l, f) && l.mode == Bits64
    requires cpu.ip == l.functionsAt + 64 * f && cpu.ip + 8 < Space(l.mode) && |cpu.stack| > 0
    ensures Run(Bits64, mem, cpu, 2) == Some(AfterFunction(l, f, cpu))
  {
    FunctionDecodes(mem, l, f);
    SmallAddress(Bits64, cpu.ip + 7);
    var c1 := cpu.(ip := cpu.ip + 7, cx := DataRegister(l, f));
    TwoSteps(Bits64, mem, cpu, c1, AfterFunction(l, f, cpu));
  }

  /** A function runs to its return and leaves its own data address behind. */
  lemma FunctionRuns(mem: Memory, l: Layout, f: nat, cpu: Cpu)
    requires FunctionLoaded(mem, l, f)
    requires cpu.ip == l.functionsAt + 64 * f && cpu.ip + 8 < Space(l.mode) && |cpu.stack| > 0
    ensures Run(l.mode, mem, cpu, FunctionSteps(l.mode)) == Some(AfterFunction(l, f, cpu))
  {
    match l.mode
    case Bits32 => FunctionRuns32(mem, l, f, cpu);
    case Bits64 => FunctionRuns64(mem, l, f, cpu);
  }

  // ----- blocks and programs

  function BlockSteps(mode: Mode): nat {
    FunctionSteps(mode) + 2
  }

  function AfterBlock(l: Layout, c: nat, i: nat, cpu: Cpu): Cpu {
    cpu.(ip := l.callsAt + 10 * i + 10, ax := Wrap(cpu.ax + PerCall(l.mode)), cx := DataRegister(l, c),
         called := cpu.called + [l.functionsAt + 64 * c])
  }

  lemma CallArrives(mem: Memory, l: Layout, c: nat, i: nat, cpu: Cpu)
    requires Loaded(mem, l.callsAt + 10 * i, CallBlock(Displacement(l.callsAt, l.functionsAt, c, i)))
    requires cpu.ip == l.callsAt + 10 * i && l.callsAt + 10 * i + 10 < Space(l.mode)
    requires l.functionsAt + 64 * c < Space(l.mode) && (l.mode == Bits64 ==> Reaches(l, c, i))
    ensures Step(l.mode, mem, cpu) ==
            Some(cpu.(ip := l.functionsAt + 64 * c, stack := [l.callsAt + 10 * i + 5] + cpu.stack,
                      called := cpu.called + [l.functionsAt + 64 * c]))
  {
    CallStep(mem, l, c, i, cpu);
    LandingExact(l, c, i);
  }

  // The addition behind the call, after the function has returned to it.
  lemma AddArrives(mem: Memory, l: Layout, c: nat, i: nat, cpu: Cpu, back: Cpu)
    requires Loaded(mem, l.callsAt + 10 * i, CallBlock(Displacement(l.callsAt, l.functionsAt, c, i)))
    requires l.callsAt + 10 * i + 10 < Space(l.mode)
    requires back == AfterFunction(l, c, cpu.(ip := l.functionsAt + 64 * c, stack := [l.callsAt + 10 * i + 5] + cpu.stack,
                                              called := cpu.called + [l.functionsAt + 64 * c]))
    ensures Step(l.mode, mem, back) == Some(AfterBlock(l, c, i, cpu))
  {
    AddStep(mem, l.mode, l.callsAt + 10 * i, Displacement(l.callsAt, l.functionsAt, c, i), back);
    AddAfter(l, c, i, cpu);
  }

  /** One block calls its function once and comes back to the next block. */
  lemma BlockRuns(mem: Memory, l: Layout, c: nat, i: nat, cpu: Cpu)
    requires Loaded(mem, l.callsAt + 10 * i, CallBlock(Displacement(l.callsAt, l.functionsAt, c, i)))
    requires FunctionLoaded(mem, l, c) && l.functionsAt + 64 * c + 8 < Space(l.mode)
    requires cpu.ip == l.callsAt + 10 * i && l.callsAt + 10 * i + 10 < Space(l.mode)
    requires l.mode == Bits64 ==> Reaches(l, c, i)
    ensures Run(l.mode, mem, cpu, BlockSteps(l.mode)) == Some(AfterBlock(l, c, i, cpu))
  {
    var c1 := cpu.(ip := l.functionsAt + 64 * c, stack := [l.callsAt + 10 * i + 5] + cpu.stack,
                   called := cpu.called + [l.functionsAt + 64 * c]);
    var c2 := AfterFunction(l, c, c1);
    assert Step(l.mode, mem, cpu) == Some(c1) by {
      CallArrives(mem, l, c, i, cpu);
    }
    assert Run(l.mode, mem, c1, FunctionSteps(l.mode)) == Some(c2) by {
      FunctionRuns(mem, l, c, c1);
    }
    AddArrives(mem, l, c, i, cpu, c2);
    ThreeRuns(l.mode, mem, cpu, c1, c2, AfterBlock(l, c, i, cpu), FunctionSteps(l.mode), BlockSteps(l.mode));
  }

  // Decrement, if any, and addition together are one addition.
  lemma AddAfter(l: Layout, c: nat, i: nat, cpu: Cpu)
    ensures var c1 := cpu.(ip := l.functionsAt + 64 * c, stack := [l.callsAt + 10 * i + 5] + cpu.stack,
                           called := cpu.called + [l.functionsAt + 64 * c]);
            var c2 := AfterFunction(l, c, c1);
            c2.(ip := l.callsAt + 10 * i + 10, ax := Wrap(c2.ax + INCREMENT)) == AfterBlock(l, c, i, cpu)
            && c2.ip == l.callsAt + 10 * i + 5
  {
    WrapAdd(cpu.ax - 1, INCREMENT);
  }

  // A step, a run and a step make one run.
  lemma ThreeRuns(mode: Mode, mem: Memory, c0: Cpu, c1: Cpu, c2: Cpu, c3: Cpu, k: nat, n: nat)
    requires Step(mode, mem, c0) == Some(c1) && Run(mode, mem, c1, k) == Some(c2) && Step(mode, mem, c2) == Some(c3)
    requires n == k + 2
    ensures Run(mode, mem, c0, n) == Some(c3)
  {
    OneStep(mode, mem, c0, c1);
    OneStep(mode, mem, c2, c3);
    RunCompose(mode, mem, c1, k, 1);
    RunCompose(mode, mem, c0, 1, k + 1);
  }

  lemma OneStep(mode: Mode, mem: Memory, c0: Cpu, c1: Cpu)
    requires Step(mode, mem, c0) == Some(c1)
    ensures Run(mode, mem, c0, 1) == Some(c1)
  {
    assert Run(mode, mem, c1, 0) == Some(c1);
  }

  // ----- the whole program

  /** Targets of the first k calls, in order. */
  function Targets(l: Layout, k: nat): (ts: seq<int>)
    requires l.n != 0
    ensures |ts| == k
  {
    if k == 0 then [] else Targets(l, k - 1) + [Target(l.functionsAt, l.n, l.a, l.b, k - 1)]
  }

  lemma {:induction false} TargetsAt(l: Layout, k: nat, i: nat)
    requires l.n != 0 && i < k
    ensures Targets(l, k)[i] == l.functionsAt + 64 * TargetIndex(l.n, l.a, l.b, i)
  {
    if i < k - 1 {
      TargetsAt(l, k - 1, i);
    }
  }

  /** Steps of the first k blocks. */
  function StepsOf(mode: Mode, k: nat): nat {
    if k == 0 then 0 else StepsOf(mode, k - 1) + BlockSteps(mode)
  }

  /** What k calls have added to EAX. */
  function Added(mode: Mode, ax: u32, k: nat): u32 {
    if k == 0 then ax else Wrap(Added(mode, ax, k - 1) + PerCall(mode))
  }

  lemma {:induction false} AddedTotal(mode: Mode, ax: u32, k: nat)
    ensures Added(mode, ax, k) == Wrap(ax + k * PerCall(mode))
  {
    if k == 0 {
      DivModUnique(ax, TWO32, 0, ax);
    } else {
      AddedTotal(mode, ax, k - 1);
      WrapAdd(ax + (k - 1) * PerCall(mode), PerCall(mode));
    }
  }

  /** The state in front of block k, whatever is in the data register. */
  ghost predicate AtBlock(l: Layout, k: nat, cpu: Cpu, cpu': Cpu)
    requires l.n != 0
  {
    cpu' == cpu.(ip := l.callsAt + 10 * k, ax := Added(l.mode, cpu.ax, k), cx := cpu'.cx,
                 called := cpu.called + Targets(l, k))
  }

  lemma BlockInPlace(mem: Memory, l: Layout, len: nat, i: nat, cpu: Cpu)
    requires l.n != 0 && TableLoaded(mem, l) && ProgramLoaded(mem, l, len) && AllReach(l, len) && InTable(l, len) && i < len
    requires cpu.ip == l.callsAt + 10 * i
    ensures TargetIndex(l.n, l.a, l.b, i) >= 0
    ensures Run(l.mode, mem, cpu, BlockSteps(l.mode)) == Some(AfterBlock(l, TargetIndex(l.n, l.a, l.b, i), i, cpu))
  {
    BlockLoaded(mem, l, len, i);
    assert FunctionLoaded(mem, l, TargetIndex(l.n, l.a, l.b, i));
    BlockRuns(mem, l, TargetIndex(l.n, l.a, l.b, i), i, cpu);
  }

  lemma NextBlock(l: Layout, k: nat, cpu: Cpu, before: Cpu, after: Cpu)
    requires l.n != 0 && k > 0 && AtBlock(l, k - 1, cpu, before) && TargetIndex(l.n, l.a, l.b, k - 1) >= 0
    requires after == AfterBlock(l, TargetIndex(l.n, l.a, l.b, k - 1), k - 1, before)
    ensures AtBlock(l, k, cpu, after)
  {
    assert cpu.called + (Targets(l, k - 1) + [Target(l.functionsAt, l.n, l.a, l.b, k - 1)])
        == (cpu.called + Targets(l, k - 1)) + [Target(l.functionsAt, l.n, l.a, l.b, k - 1)];
  }

  lemma OneMore(mem: Memory, l: Layout, len: nat, k: nat, cpu: Cpu, before: Cpu) returns (after: Cpu)
    requires l.n != 0 && TableLoaded(mem, l) && ProgramLoaded(mem, l, len) && AllReach(l, len) && InTable(l, len)
    requires 0 < k <= len && AtBlock(l, k - 1, cpu, before)
    ensures Run(l.mode, mem, before, BlockSteps(l.mode)) == Some(after) && AtBlock(l, k, cpu, after)
  {
    BlockInPlace(mem, l, len, k - 1, before);
    after := AfterBlock(l, TargetIndex(l.n, l.a, l.b, k - 1), k - 1, before);
    NextBlock(l, k, cpu, before, after);
  }

  lemma {:induction false} BlocksRun(mem: Memory, l: Layout, len: nat, k: nat, cpu: Cpu) returns (cpu': Cpu)
    requires l.n != 0 && TableLoaded(mem, l) && ProgramLoaded(mem, l, len) && AllReach(l, len) && InTable(l, len) && k <= len
    requires cpu.ip == l.callsAt
    ensures Run(l.mode, mem, cpu, StepsOf(l.mode, k)) == Some(cpu') && AtBlock(l, k, cpu, cpu')
    decreases k
  {
    if k == 0 {
      cpu' := cpu;
      NoBlocks(mem, l, cpu);
    } else {
      var before := BlocksRun(mem, l, len, k - 1, cpu);
      cpu' := OneMore(mem, l, len, k, cpu, before);
      OneMoreStep(mem, l, k, cpu, before, cpu');
    }
  }

  lemma OneMoreStep(mem: Memory, l: Layout, k: nat, cpu: Cpu, before: Cpu, after: Cpu)
    requires k > 0 && Run(l.mode, mem, cpu, StepsOf(l.mode, k - 1)) == Some(before)
    requires Run(l.mode, mem, before, BlockSteps(l.mode)) == Some(after)
    ensures Run(l.mode, mem, cpu, StepsOf(l.mode, k)) == Some(after)
  {
    TwoRuns(l.mode, mem, cpu, before, after, StepsOf(l.mode, k - 1), BlockSteps(l.mode), StepsOf(l.mode, k));
  }

  lemma NoBlocks(mem: Memory, l: Layout, cpu: Cpu)
    requires l.n != 0 && cpu.ip == l.callsAt
    ensures Run(l.mode, mem, cpu, StepsOf(l.mode, 0)) == Some(cpu) && AtBlock(l, 0, cpu, cpu)
  {
    assert cpu.called + [] == cpu.called;
  }

  lemma TwoRuns(mode: Mode, mem: Memory, c0: Cpu, c1: Cpu, c2: Cpu, i: nat, j: nat, n: nat)
    requires Run(mode, mem, c0, i) == Some(c1) && Run(mode, mem, c1, j) == Some(c2) && n == i + j
    ensures Run(mode, mem, c0, n) == Some(c2)
  {
    RunCompose(mode, mem, c0, i, j);
  }

  lemma FinalReturn(mem: Memory, l: Layout, len: nat, cpu: Cpu)
    requires l.n != 0 && ProgramLoaded(mem, l, len) && cpu.ip == l.callsAt + 10 * len && |cpu.stack| > 0
    ensures Run(l.mode, mem, cpu, 1) == Some(cpu.(ip := cpu.stack[0], stack := cpu.stack[1..]))
  {
    ByteAt(mem, l.callsAt, Program(l.callsAt, l.functionsAt, l.n, l.a, l.b, len), 10 * len);
    OneStep(l.mode, mem, cpu, cpu.(ip := cpu.stack[0], stack := cpu.stack[1..]));
  }

  /**
    Called like a C function, the emitted program makes exactly `len` calls, the i-th one to the
    function with index C_i, adds `len` times the increment to EAX (one less each time in 32-bit
    mode) and returns to its caller with the caller's stack.
   */
  lemma ProgramRuns(mem: Memory, l: Layout, len: nat, cpu: Cpu) returns (cpu': Cpu)
    requires l.n != 0 && TableLoaded(mem, l) && ProgramLoaded(mem, l, len) && AllReach(l, len) && InTable(l, len)
    requires cpu.ip == l.callsAt && |cpu.stack| > 0
    ensures Run(l.mode, mem, cpu, StepsOf(l.mode, len) + 1) == Some(cpu')
    ensures cpu'.ip == cpu.stack[0] && cpu'.stack == cpu.stack[1..]
    ensures cpu'.called == cpu.called + Targets(l, len)
    ensures cpu'.ax == Wrap(cpu.ax + len * PerCall(l.mode))
  {
    var last := BlocksRun(mem, l, len, len, cpu);
    FinalReturn(mem, l, len, last);
    RunCompose(l.mode, mem, cpu, StepsOf(l.mode, len), 1);
    AddedTotal(l.mode, cpu.ax, len);
    cpu' := last.(ip := last.stack[0], stack := last.stack[1..]);
  }

  // ----- from the generator's arrays to the run

  lemma FunctionIsLoaded(mem: Memory, l: Layout, functions: seq<u8>, f: nat)
    requires 64 * f + 8 <= |functions| && Loaded(mem, l.functionsAt, functions)
    requires functions[64 * f..64 * f + 8] == FunctionBytes(l.dataAt, f)
    ensures FunctionLoaded(mem, l, f)
  {
    LoadedPart(mem, l.functionsAt, functions, 64 * f, FunctionBytes(l.dataAt, f));
  }

  lemma ProgramIsLoaded(mem: Memory, l: Layout, calls: seq<u8>, len: nat)
    requires l.n != 0 && 10 * len + 1 <= |calls| && l.callsAt + 10 * len + 1 <= Space(l.mode) && Loaded(mem, l.callsAt, calls)
    requires calls[..10 * len + 1] == Program(l.callsAt, l.functionsAt, l.n, l.a, l.b, len)
    ensures ProgramLoaded(mem, l, len)
  {
    var code := Program(l.callsAt, l.functionsAt, l.n, l.a, l.b, len);
    assert calls[0..0 + |code|] == code;
    LoadedPart(mem, l.callsAt, calls, 0, code);
  }

  ghost predicate InMemory(mem: Memory, l: Layout, calls: seq<u8>, functions: seq<u8>) {
    Loaded(mem, l.callsAt, calls) && Loaded(mem, l.functionsAt, functions)
  }

  ghost predicate RunsAsMeant(mem: Memory, l: Layout, len: nat, cpu: Cpu)
    requires l.n != 0 && |cpu.stack| > 0
  {
    var end := Run(l.mode, mem, cpu, StepsOf(l.mode, len) + 1);
    end.Some? && end.value.ip == cpu.stack[0] && end.value.stack == cpu.stack[1..] &&
    end.value.called == cpu.called + Targets(l, len) && end.value.ax == Wrap(cpu.ax + len * PerCall(l.mode))
  }

  /** The arguments are C ints, and every division of the emission is defined. */
  ghost predicate Arguments(l: Layout, len: nat) {
    && -0x8000_0000 <= l.n < 0x8000_0000 && -0x8000_0000 <= l.a < 0x8000_0000 && -0x8000_0000 <= l.b < 0x8000_0000
    && l.n != 0
    && forall i: nat :: i < len ==> StepDefined(l.n, l.a, l.b, i)
  }

  /** Without signs and overflow, as main calls it, all of this holds and the targets are the sequence. */
  lemma PlainArguments(l: Layout, len: nat)
    requires l.b < l.n <= l.count && l.n < 0x8000_0000 && l.a < 0x8000_0000 && Plain(l.n, l.a, l.b)
    ensures Arguments(l, len) && InTable(l, len)
    ensures forall i: nat :: i < len ==> TargetIndex(l.n, l.a, l.b, i) == Lcg(l.n, l.a, l.b, l.b, i)
  {
    forall i: nat | i < len
      ensures 0 <= TargetIndex(l.n, l.a, l.b, i) < l.n
      ensures TargetIndex(l.n, l.a, l.b, i) == Lcg(l.n, l.a, l.b, l.b, i)
    {
      TargetIsLcg(l.n, l.a, l.b, i);
    }
  }

  /**
    The generating part of main: patch the function table, then build the calls.  Wherever the
    two arrays lie, calling the second one runs as meant.
   */
  method Generate(l: Layout, calls: array<u8>, functions: array<u8>, len: nat)
    requires calls != functions && 10 * len + 1 <= calls.Length && 64 * l.count <= functions.Length
    requires Arguments(l, len) && InTable(l, len) && AllReach(l, len)
    requires l.functionsAt + 64 * l.count <= Space(l.mode) && l.callsAt + 10 * len + 1 <= Space(l.mode)
    modifies calls, functions
    ensures forall mem: Memory, cpu: Cpu :: InMemory(mem, l, calls[..], functions[..]) && cpu.ip == l.callsAt && |cpu.stack| > 0 ==>
              RunsAsMeant(mem, l, len, cpu)
  {
    FillFunctions(functions, l.dataAt, l.count);
    BuildCalls(calls, l.callsAt, l.functionsAt, len, l.n, l.a, l.b);
    forall mem: Memory, cpu: Cpu | InMemory(mem, l, calls[..], functions[..]) && cpu.ip == l.callsAt && |cpu.stack| > 0
      ensures RunsAsMeant(mem, l, len, cpu)
    {
      forall f: nat | f < l.count
        ensures FunctionLoaded(mem, l, f)
      {
        assert functions[..][64 * f..64 * f + 8] == functions[64 * f..64 * f + 8];
        FunctionIsLoaded(mem, l, functions[..], f);
      }
      assert calls[..][..10 * len + 1] == calls[..10 * len + 1];
      ProgramIsLoaded(mem, l, calls[..], len);
      var end := ProgramRuns(mem, l, len, cpu);
    }
  }

  // ----- how often each function is called

  function Occurrences(ts: seq<int>, t: int): nat {
    if ts == [] then 0 else Occurrences(ts[..|ts| - 1], t) + if ts[|ts| - 1] == t then 1 else 0
  }

  lemma {:induction false} CallsOf(l: Layout, k: nat, f: nat)
    requires Plain(l.n, l.a, l.b)
    ensures Occurrences(Targets(l, k), l.functionsAt + 64 * f) == Hits(l.n, l.a, l.b, l.b, 0, k, f)
  {
    if k > 0 {
      CallsOf(l, k - 1, f);
      TargetIsLcg(l.n, l.a, l.b, k - 1);
      assert Targets(l, k)[..k - 1] == Targets(l, k - 1);
    }
  }

  /** main's program calls each of its 8192 functions exactly 128 times. */
  lemma MainCallsEvenly(l: Layout, f: nat)
    requires l.n == 8192 && l.a == 509 && l.b == 509 && f < 8192
    ensures Occurrences(Targets(l, 1024 * 1024), l.functionsAt + 64 * f) == 128
  {
    CallsOf(l, 1024 * 1024, f);
    MainUse(f);
  }
}
