/** Threads that call serial_printf: one memory access or one byte to the port at a step. */
module SerialLock {
  import opened Words
  import opened Serial

  /** A call, and the bytes the port gets for it. */
  datatype Call = Call(fmt: string, args: seq<Arg>)

  predicate ValidCall(c: Call) {
    Rendered(c.fmt, c.args).Some?
  }

  function Message(c: Call): string {
    if ValidCall(c) then Cooked(Rendered(c.fmt, c.args).value) else ""
  }

  /** What a caller sends that has the port for itself. */
  method PrintAlone(port: Port, call: Call)
    requires ValidCall(call)
    modifies port
    ensures port.sent == old(port.sent) + Message(call)
  {
    port.Printf(call.fmt, call.args);
  }

  /**
    Where a thread stands.  `eax` is the register the lock swaps with memory; it is loaded with 1
    once, and afterwards holds whatever the last exchange brought back.
   */
  datatype Thread =
    | Away
    | Swap(call: Call, eax: u32)
    | Spin(call: Call, eax: u32)
    | Print(call: Call, k: nat)

  /** `granted`: the calls that got the lock, in that order. */
  datatype State = State(locked: u32, threads: seq<Thread>, port: string, granted: seq<Call>)

  predicate Enabled(s: State, t: nat) {
    t < |s.threads| && (s.threads[t].Print? ==> s.threads[t].k <= |Message(s.threads[t].call)|)
  }

  /** A step of thread t; a thread that is away calls serial_printf, as it chooses. */
  function Step(s: State, t: nat, choice: Call): State
    requires Enabled(s, t)
  {
    match s.threads[t]
    case Away => s.(threads := s.threads[t := Swap(choice, 1)])
    case Swap(call, eax) =>
      if s.locked == 0 then
        s.(locked := eax, threads := s.threads[t := Print(call, 0)], granted := s.granted + [call])
      else
        s.(locked := eax, threads := s.threads[t := Spin(call, s.locked)])
    case Spin(call, eax) =>
      if s.locked != 0 then s else s.(threads := s.threads[t := Swap(call, eax)])
    case Print(call, k) =>
      if k < |Message(call)| then
        s.(port := s.port + [Message(call)[k]], threads := s.threads[t := Print(call, k + 1)])
      else
        s.(locked := 0, threads := s.threads[t := Away])
  }

  /** Whole messages, one behind the other. */
  function Flat(calls: seq<Call>): string {
    if calls == [] then "" else Flat(calls[..|calls| - 1]) + Message(calls[|calls| - 1])
  }

  predicate Holder(s: State, t: nat) {
    t < |s.threads| && s.threads[t].Print?
  }

  predicate Printing(s: State, t: nat)
    requires Holder(s, t)
  {
    var th := s.threads[t];
    th.k <= |Message(th.call)| && s.granted != [] && s.granted[|s.granted| - 1] == th.call &&
    s.port == Flat(s.granted[..|s.granted| - 1]) + Message(th.call)[..th.k]
  }

  /** The invariant: a free lock means no holder and whole messages; a holder is alone, in the last message. */
  ghost predicate Inv(s: State) {
    (forall t :: 0 <= t < |s.threads| ==> (s.threads[t].Swap? || s.threads[t].Spin?) ==> s.threads[t].eax != 0) &&
    (forall t: nat, u: nat :: Holder(s, t) && Holder(s, u) ==> t == u) &&
    (s.locked == 0 ==> s.port == Flat(s.granted) && forall t: nat :: !Holder(s, t)) &&
    (s.locked != 0 ==> exists t: nat :: Holder(s, t)) &&
    (forall t: nat :: Holder(s, t) ==> Printing(s, t))
  }

  predicate Fresh(s: State) {
    s.locked == 0 && s.port == "" && s.granted == [] && forall t :: 0 <= t < |s.threads| ==> s.threads[t] == Away
  }

  // A step that leaves the lock, the port and who holds the lock alone.
  lemma WaitKeepsInv(s: State, t: nat, th: Thread)
    requires Inv(s) && t < |s.threads| && !s.threads[t].Print? && !th.Print?
    requires (th.Swap? || th.Spin?) ==> th.eax != 0
    ensures Inv(s.(threads := s.threads[t := th]))
  {
    var next := s.(threads := s.threads[t := th]);
    assert forall u: nat :: Holder(next, u) <==> Holder(s, u);
  }

  // A failing exchange leaves some other nonzero value in the lock.
  lemma FailKeepsInv(s: State, t: nat)
    requires Inv(s) && t < |s.threads| && s.threads[t].Swap? && s.locked != 0
    ensures Inv(Step(s, t, Call("", [])))
  {
    var th := s.threads[t];
    WaitKeepsInv(s, t, Spin(th.call, s.locked));
    var mid, next := s.(threads := s.threads[t := Spin(th.call, s.locked)]), Step(s, t, Call("", []));
    assert forall u: nat :: Holder(mid, u) <==> Holder(next, u);
    assert forall u: nat :: Holder(next, u) ==> Holder(mid, u) && Printing(mid, u);
  }

  lemma GrantKeepsInv(s: State, t: nat)
    requires Inv(s) && t < |s.threads| && s.threads[t].Swap? && s.locked == 0
    ensures Inv(Step(s, t, Call("", [])))
  {
    var th, next := s.threads[t], Step(s, t, Call("", []));
    assert forall u: nat :: u != t ==> Holder(next, u) == Holder(s, u);
    assert next.granted[..|next.granted| - 1] == s.granted;
    assert s.port + Message(th.call)[..0] == s.port;
    assert Holder(next, t) && Printing(next, t);
  }

  lemma PrintKeepsInv(s: State, t: nat)
    requires Inv(s) && t < |s.threads| && s.threads[t].Print?
    ensures Enabled(s, t) && Inv(Step(s, t, Call("", [])))
  {
    assert Holder(s, t) && Printing(s, t);
    var th := s.threads[t];
    if th.k < |Message(th.call)| {
      ByteKeepsInv(s, t, Message(th.call));
    } else {
      ReleaseKeepsInv(s, t, Message(th.call));
    }
  }

  // One more byte of a message.
  lemma ByteKeepsInv(s: State, t: nat, msg: string)
    requires Inv(s) && Holder(s, t) && Printing(s, t) && msg == Message(s.threads[t].call) && s.threads[t].k < |msg|
    ensures Inv(s.(port := s.port + [msg[s.threads[t].k]], threads := s.threads[t := Print(s.threads[t].call, s.threads[t].k + 1)]))
  {
    var th := s.threads[t];
    var next := s.(port := s.port + [msg[th.k]], threads := s.threads[t := Print(th.call, th.k + 1)]);
    assert forall u: nat :: Holder(next, u) == Holder(s, u);
    LongerFront(Flat(s.granted[..|s.granted| - 1]), msg, th.k);
    assert Holder(next, t);
  }

  lemma LongerFront(front: string, msg: string, k: nat)
    requires k < |msg|
    ensures front + msg[..k] + [msg[k]] == front + msg[..k + 1]
  {
  }

  // The message is complete, and the lock is free.
  lemma ReleaseKeepsInv(s: State, t: nat, msg: string)
    requires Inv(s) && Holder(s, t) && Printing(s, t) && msg == Message(s.threads[t].call) && s.threads[t].k >= |msg|
    ensures Inv(s.(locked := 0, threads := s.threads[t := Away]))
  {
    var next := s.(locked := 0, threads := s.threads[t := Away]);
    assert msg[..s.threads[t].k] == msg;
    assert forall u: nat :: u != t ==> Holder(next, u) == Holder(s, u);
    assert !Holder(next, t);
  }

  lemma StepKeepsInv(s: State, t: nat, choice: Call)
    requires Inv(s) && t < |s.threads|
    ensures Enabled(s, t) && Inv(Step(s, t, choice))
  {
    match s.threads[t]
    case Away => WaitKeepsInv(s, t, Swap(choice, 1));
    case Swap(call, eax) =>
      if s.locked == 0 {
        GrantKeepsInv(s, t);
      } else {
        FailKeepsInv(s, t);
      }
    case Spin(call, eax) => WaitKeepsInv(s, t, Swap(call, eax));
    case Print(call, k) => PrintKeepsInv(s, t);
  }

  // ----- runs

  datatype Move = Move(thread: nat, call: Call)

  ghost predicate Run(s: State, moves: seq<Move>, final: State)
    decreases |moves|
  {
    if moves == [] then final == s
    else
      && Enabled(s, moves[0].thread)
      && (s.threads[moves[0].thread].Away? ==> ValidCall(moves[0].call))
      && Run(Step(s, moves[0].thread, moves[0].call), moves[1..], final)
  }

  lemma {:induction false} RunKeepsInv(s: State, moves: seq<Move>, final: State)
    requires Inv(s) && Run(s, moves, final)
    ensures Inv(final)
    decreases |moves|
  {
    if moves != [] {
      StepKeepsInv(s, moves[0].thread, moves[0].call);
      RunKeepsInv(Step(s, moves[0].thread, moves[0].call), moves[1..], final);
    }
  }

  /**
    After any run the port has received whole messages, in the order in which their callers got
    the lock, but for the last one, of which it has a beginning while its caller still prints.
   */
  lemma WholeMessages(s: State, moves: seq<Move>, final: State)
    requires Fresh(s) && Run(s, moves, final)
    ensures forall t: nat, u: nat :: Holder(final, t) && Holder(final, u) ==> t == u
    ensures (forall t: nat :: !Holder(final, t)) ==> final.port == Flat(final.granted)
    ensures forall t: nat :: Holder(final, t) ==>
              var call, k := final.threads[t].call, final.threads[t].k;
              && final.granted != [] && final.granted[|final.granted| - 1] == call && k <= |Message(call)|
              && final.port == Flat(final.granted[..|final.granted| - 1]) + Message(call)[..k]
  {
    assert forall t: nat :: !Holder(s, t);
    RunKeepsInv(s, moves, final);
  }

  // ----- every call is answered

  /** The calls made in a run, in the order of their beginning. */
  ghost function Asked(s: State, moves: seq<Move>, final: State): seq<Call>
    requires Run(s, moves, final)
    decreases |moves|
  {
    if moves == [] then []
    else Started(s, moves[0].thread, moves[0].call) +
         Asked(Step(s, moves[0].thread, moves[0].call), moves[1..], final)
  }

  /** How many threads wait for the lock with call c. */
  function Waiting(threads: seq<Thread>, c: Call): nat {
    if threads == [] then 0 else Waiting(threads[..|threads| - 1], c) + Wants(threads[|threads| - 1], c)
  }

  function Wants(th: Thread, c: Call): nat {
    if (th.Swap? || th.Spin?) && th.call == c then 1 else 0
  }

  lemma {:induction false} WaitingChanges(threads: seq<Thread>, t: nat, th: Thread, c: Call)
    requires t < |threads|
    ensures Waiting(threads[t := th], c) + Wants(threads[t], c) == Waiting(threads, c) + Wants(th, c)
    decreases |threads|
  {
    var n := |threads| - 1;
    if t < n {
      assert threads[t := th][..n] == threads[..n][t := th];
      WaitingChanges(threads[..n], t, th, c);
    } else {
      assert threads[t := th][..n] == threads[..n];
    }
  }

  function Count(calls: seq<Call>, c: Call): nat {
    multiset(calls)[c]
  }

  lemma CountJoin(a: seq<Call>, b: seq<Call>, c: Call)
    ensures Count(a + b, c) == Count(a, c) + Count(b, c)
  {
  }

  lemma CountOne(d: Call, c: Call)
    ensures Count([d], c) == if d == c then 1 else 0
  {
  }

  // The call a step starts.
  function Started(s: State, t: nat, choice: Call): seq<Call>
    requires t < |s.threads|
  {
    if s.threads[t].Away? then [choice] else []
  }

  lemma StepAnswers(s: State, t: nat, choice: Call, c: Call)
    requires Enabled(s, t)
    ensures var next := Step(s, t, choice);
            Count(next.granted, c) + Waiting(next.threads, c)
            == Count(s.granted, c) + Waiting(s.threads, c) + Count(Started(s, t, choice), c)
  {
    var next, th := Step(s, t, choice), s.threads[t];
    WaitingChanges(s.threads, t, next.threads[t], c);
    CountOne(choice, c);
    if th.Swap? {
      CountJoin(s.granted, [th.call], c);
      CountOne(th.call, c);
    }
    if th.Spin? && s.locked != 0 {
      assert s.threads[t := s.threads[t]] == s.threads;
    }
  }

  lemma {:induction false} RunAnswers(s: State, moves: seq<Move>, final: State, c: Call)
    requires Run(s, moves, final)
    ensures Count(final.granted, c) + Waiting(final.threads, c)
         == Count(s.granted, c) + Waiting(s.threads, c) + Count(Asked(s, moves, final), c)
    decreases |moves|
  {
    if moves != [] {
      var t, call := moves[0].thread, moves[0].call;
      var next := Step(s, t, call);
      StepAnswers(s, t, call, c);
      RunAnswers(next, moves[1..], final, c);
      CountJoin(Started(s, t, call), Asked(next, moves[1..], final), c);
    }
  }

  lemma {:induction false} NobodyWaits(threads: seq<Thread>, c: Call)
    requires forall t :: 0 <= t < |threads| ==> threads[t].Away?
    ensures Waiting(threads, c) == 0
  {
    if threads != [] {
      NobodyWaits(threads[..|threads| - 1], c);
    }
  }

  /** After any run each call has got the lock, or waits for it, as often as it was made. */
  lemma EveryCallAnswered(s: State, moves: seq<Move>, final: State, c: Call)
    requires Fresh(s) && Run(s, moves, final)
    ensures Count(final.granted, c) + Waiting(final.threads, c) == Count(Asked(s, moves, final), c)
  {
    NobodyWaits(s.threads, c);
    RunAnswers(s, moves, final, c);
  }

  /** When all threads are away, the port has received the messages of all calls that were made, each once. */
  lemma AllPrinted(s: State, moves: seq<Move>, final: State)
    requires Fresh(s) && Run(s, moves, final)
    requires forall t :: 0 <= t < |final.threads| ==> final.threads[t].Away?
    ensures final.port == Flat(final.granted) && multiset(final.granted) == multiset(Asked(s, moves, final))
  {
    forall c
      ensures multiset(final.granted)[c] == multiset(Asked(s, moves, final))[c]
    {
      EveryCallAnswered(s, moves, final, c);
      NobodyWaits(final.threads, c);
    }
    WholeMessages(s, moves, final);
    assert forall t: nat :: !Holder(final, t);
  }
}
