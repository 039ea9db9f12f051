/**
  Stale reads.  The comment on the room check of an enqueue says its result always lies between
  0 and size - 1; it does not when other threads have used the ring since prod.head was read,
  and then the compare-and-set fails.
 */
module RingStale {
  import opened Words
  import opened RingMachine
  import opened RingInvariant
  import opened RingSafety
  import opened RingRuns
  import opened RingObservers

  /**
    The room an attempt computed exceeds size - 1 iff consumers, as far as words tell, have
    passed the head it started from, and the sum does not wrap; such an attempt starts over and
    changes nothing.
   */
  lemma StaleRoomIff(s: State, t: nat, call: Call)
    requires Inv(s) && Allowed(s, t, call) && s.m.pcs[t].PReserve?
    ensures var passed, size := Wrap(s.g.marks[t].tail - s.g.marks[t].head), s.m.sh.size;
            s.m.pcs[t].free > size - 1 <==> 0 < passed && size - 1 + passed < TWO32
    ensures s.m.pcs[t].free > s.m.sh.size - 1 ==>
              && s.g.marks[t].tail > s.g.marks[t].head
              && Next(s, t, call).m.pcs[t] == PReadHead(s.m.pcs[t].objs) && Next(s, t, call).m.sh == s.m.sh
  {
    var lo, tail, size := s.g.marks[t].head, s.g.marks[t].tail, s.m.sh.size;
    assert ThreadOk(s.m.sh, s.g, t, s.m.pcs[t], s.g.marks[t]);
    RoomExcess(size, (tail as int) - lo);
    HeadSeen(lo, s.g.ph);
  }

  lemma RoomExcess(size: int, d: int)
    requires 1 <= size < TWO32 && -size < d
    ensures Wrap(size - 1 + d) > size - 1 <==> 0 < Wrap(d) && size - 1 + Wrap(d) < TWO32
    ensures Wrap(size - 1 + d) > size - 1 ==> d > 0
  {
    WrapAdd(d, size - 1);
    WordOfSum(Wrap(d) + size - 1);
    if d < 0 {
      DivModUnique(d, TWO32, -1, d + TWO32);
    }
  }

  lemma WordOfSum(x: int)
    requires 0 <= x < 2 * TWO32
    ensures Wrap(x) == if x < TWO32 then x else x - TWO32
  {
    DivModUnique(x, TWO32, if x < TWO32 then 0 else 1, if x < TWO32 then x else x - TWO32);
  }

  /**
    The entries an attempt of a dequeue computed exceed size - 1 iff its read of prod.tail came
    a whole ring or more behind its head, as far as words tell; such an attempt starts over and
    changes nothing.
   */
  lemma StaleEntriesIff(s: State, t: nat, call: Call)
    requires Inv(s) && Allowed(s, t, call) && s.m.pcs[t].CReserve?
    ensures var behind, size := s.g.marks[t].tail - s.g.marks[t].head, s.m.sh.size;
            && behind >= 0
            && (Wrap(behind) > size - 1 <==> behind % TWO32 >= size)
            && (behind < TWO32 ==> (Wrap(behind) > size - 1 <==> behind >= size))
            && (Wrap(behind) > size - 1 ==> behind >= size)
    ensures Wrap(s.g.marks[t].tail - s.g.marks[t].head) > s.m.sh.size - 1 ==>
              Next(s, t, call).m.pcs[t] == CReadHead(s.m.pcs[t].n) && Next(s, t, call).m.sh == s.m.sh
  {
    var lo, tail := s.g.marks[t].head, s.g.marks[t].tail;
    assert ThreadOk(s.m.sh, s.g, t, s.m.pcs[t], s.g.marks[t]);
    WordAtMost(tail - lo);
    HeadSeen(lo, s.g.ch);
  }

  lemma WordAtMost(x: nat)
    ensures Wrap(x) <= x && (x < TWO32 ==> Wrap(x) == x)
  {
    if x < TWO32 {
      DivModUnique(x, TWO32, 0, x);
    }
  }

  // ----- late compare-and-sets

  /**
    A reservation keeps the invariant iff its index tells whether it moved: at any distance but
    the positive multiples of 2^32.
   */
  lemma ReserveSafeIff(s: State, t: nat, call: Call)
    requires Inv(s) && t < |s.m.pcs| && s.m.pcs[t].PReserve?
    ensures Inv(Next(s, t, call)) <==> Telling(s.g.marks[t].head, s.g.ph)
  {
    if Telling(s.g.marks[t].head, s.g.ph) {
      StepKeepsInv(s, t, call);
    } else {
      LateReserve(s, t, call);
    }
  }

  lemma LateReserve(s: State, t: nat, call: Call)
    requires Inv(s) && t < |s.m.pcs| && s.m.pcs[t].PReserve? && !Telling(s.g.marks[t].head, s.g.ph)
    ensures !Inv(Next(s, t, call))
    ensures Order(Next(s, t, call).g, s.m.sh.size) <==> |s.m.pcs[t].objs| <= s.m.sh.size - 1 - (s.g.ph - s.g.ct)
  {
    var s', lo := Next(s, t, call), s.g.marks[t].head;
    assert ThreadOk(s.m.sh, s.g, t, s.m.pcs[t], s.g.marks[t]);
    SameWord(lo, s.g.ph);
    FarBack(lo, s.g.ph);
    assert s'.m.pcs[t] == PWrite(s.m.pcs[t].objs, s.m.pcs[t].head, s.m.pcs[t].free, 0);
    ReservedAhead(s', t);
    assert s'.g.marks[t].head == lo < s'.g.pt;
  }

  // Whoever holds positions holds none behind the tail.
  lemma ReservedAhead(s: State, t: nat)
    requires t < |s.m.pcs| == |s.g.marks|
    ensures Inv(s) && ProdReserved(s.m.pcs[t]) ==> s.g.pt <= s.g.marks[t].head
    ensures Inv(s) && ConsReserved(s.m.pcs[t]) ==> s.g.ct <= s.g.marks[t].head
  {
    if Inv(s) {
      assert ThreadOk(s.m.sh, s.g, t, s.m.pcs[t], s.g.marks[t]);
    }
  }

  lemma FarBack(seen: nat, now: nat)
    requires seen <= now && !Telling(seen, now)
    ensures now >= seen + TWO32
  {
    if now < seen + TWO32 {
      DivModUnique(now - seen, TWO32, 0, now - seen);
    }
  }

  /** The same for a claim. */
  lemma ClaimSafeIff(s: State, t: nat, call: Call)
    requires Inv(s) && t < |s.m.pcs| && s.m.pcs[t].CReserve?
    ensures Inv(Next(s, t, call)) <==> Telling(s.g.marks[t].head, s.g.ch)
  {
    if Telling(s.g.marks[t].head, s.g.ch) {
      StepKeepsInv(s, t, call);
    } else {
      LateClaim(s, t, call);
    }
  }

  lemma LateClaim(s: State, t: nat, call: Call)
    requires Inv(s) && t < |s.m.pcs| && s.m.pcs[t].CReserve? && !Telling(s.g.marks[t].head, s.g.ch)
    ensures !Inv(Next(s, t, call))
    ensures Order(Next(s, t, call).g, s.m.sh.size) <==> s.m.pcs[t].n <= s.g.pt - s.g.ch
  {
    var s', lo := Next(s, t, call), s.g.marks[t].head;
    assert ThreadOk(s.m.sh, s.g, t, s.m.pcs[t], s.g.marks[t]);
    SameWord(lo, s.g.ch);
    FarBack(lo, s.g.ch);
    assert s'.m.pcs[t] == CRead(s.m.pcs[t].n, s.m.pcs[t].head, []);
    ReservedAhead(s', t);
    assert s'.g.marks[t].head == lo < s'.g.ct;
  }

  /** Given valid calls, exactly those steps keep the invariant that a run is allowed to take. */
  lemma StepSafeIff(s: State, t: nat, call: Call)
    requires Inv(s) && t < |s.m.pcs| && (s.m.pcs[t].Idle? ==> Allowed(s, t, call))
    ensures Inv(Next(s, t, call)) <==> Allowed(s, t, call)
  {
    if s.m.pcs[t].PReserve? {
      ReserveSafeIff(s, t, call);
    } else if s.m.pcs[t].CReserve? {
      ClaimSafeIff(s, t, call);
    } else {
      StepKeepsInv(s, t, call);
    }
  }

  // ----- two threads on a ring of two slots: thread 0 is parked while thread 1 goes round

  const X: seq<Obj> := [7]

  function TwoThreads(ph: u32, pt: u32, ch: u32, ct: u32, slots: seq<Obj>, parked: Pc, active: Pc): Machine {
    Machine(Shared(2, false, false, 2, ph, pt, ch, ct, slots), [parked, active])
  }

  predicate Runnable(m: Machine) {
    1 <= m.sh.size < TWO32 && |m.sh.slots| == m.sh.size && |m.pcs| == 2
  }

  /** `next` is `m` after k steps of thread t. */
  ghost predicate Steps(m: Machine, t: nat, call: Call, k: nat, next: Machine) {
    Runnable(m) && t < 2 && Drive(m, Moves(t, call, k)) == next
  }

  function Moves(t: nat, call: Call, k: nat): (ms: seq<Move>)
    ensures |ms| == k && forall i :: 0 <= i < k ==> ms[i] == Move(t, call)
  {
    seq(k, _ => Move(t, call))
  }

  lemma StepsOne(m: Machine, t: nat, call: Call, next: Machine)
    requires Runnable(m) && t < 2 && MachineStep(m, t, call) == next
    ensures Steps(m, t, call, 1, next)
  {
    assert Moves(t, call, 1)[1..] == [];
  }

  lemma StepsMore(m: Machine, t: nat, call: Call, j: nat, mid: Machine, k: nat, next: Machine)
    requires Steps(m, t, call, j, mid) && Steps(mid, t, call, k, next)
    ensures Steps(m, t, call, j + k, next)
  {
    DriveAppend(m, Moves(t, call, j), Moves(t, call, k));
    assert Moves(t, call, j + k) == Moves(t, call, j) + Moves(t, call, k);
  }

  lemma {:induction false} DriveAppend(m: Machine, a: seq<Move>, b: seq<Move>)
    requires Runnable(m) && (forall i :: 0 <= i < |a| ==> a[i].t < 2) && forall i :: 0 <= i < |b| ==> b[i].t < 2
    ensures Runnable(Drive(m, a)) && Drive(m, a + b) == Drive(Drive(m, a), b)
    decreases |a|
  {
    if a == [] {
      assert a + b == b;
    } else {
      assert (a + b)[1..] == a[1..] + b;
      DriveAppend(MachineStep(m, a[0].t, a[0].call), a[1..], b);
    }
  }

  // The attempt of thread t up to its compare-and-set, on a ring with one free place.
  lemma SoloReserve(w: u32, slots: seq<Obj>, p: Pc, a: Pc)
    requires |slots| == 2 && a.Idle?
    ensures Steps(TwoThreads(w, w, w, w, slots, p, a), 1, Enqueue(X), 4,
                  TwoThreads(Wrap(w + 1), w, w, w, slots, p, PWrite(X, w, 1, 0)))
  {
    var call := Enqueue(X);
    var m0, m1 := TwoThreads(w, w, w, w, slots, p, a), TwoThreads(w, w, w, w, slots, p, PReadHead(X));
    var m2, m3 := TwoThreads(w, w, w, w, slots, p, PReadTail(X, w)), TwoThreads(w, w, w, w, slots, p, PReserve(X, w, 1));
    StepsOne(m0, 1, call, m1);
    StepsOne(m1, 1, call, m2);
    StepsOne(m2, 1, call, m3);
    StepsOne(m3, 1, call, TwoThreads(Wrap(w + 1), w, w, w, slots, p, PWrite(X, w, 1, 0)));
    StepsMore(m0, 1, call, 1, m1, 1, m2);
    StepsMore(m0, 1, call, 2, m2, 1, m3);
    StepsMore(m0, 1, call, 3, m3, 1, TwoThreads(Wrap(w + 1), w, w, w, slots, p, PWrite(X, w, 1, 0)));
  }

  // From the compare-and-set of an enqueue of X to its end, in thread 1.
  lemma SoloFill(w: u32, slots: seq<Obj>, p: Pc) returns (filled: seq<Obj>)
    requires |slots| == 2
    ensures |filled| == 2
    ensures Steps(TwoThreads(Wrap(w + 1), w, w, w, slots, p, PWrite(X, w, 1, 0)), 1, Enqueue(X), 5,
                  TwoThreads(Wrap(w + 1), Wrap(w + 1), w, w, filled, p, Idle(0, [])))
  {
    var call, v := Enqueue(X), Wrap(w + 1);
    var m0 := TwoThreads(v, w, w, w, slots, p, PWrite(X, w, 1, 0));
    filled := slots[Slot(m0.sh, w) := 7];
    var m1, m2 := TwoThreads(v, w, w, w, filled, p, PWrite(X, w, 1, 1)), TwoThreads(v, w, w, w, filled, p, PReadMark(X, w, 1));
    var m3, m4 := TwoThreads(v, w, w, w, filled, p, PAwait(X, w, 0)), TwoThreads(v, w, w, w, filled, p, PPublish(X, w, 0));
    var m5 := TwoThreads(v, v, w, w, filled, p, Idle(0, []));
    StepsOne(m0, 1, call, m1);
    StepsOne(m1, 1, call, m2);
    StepsOne(m2, 1, call, m3);
    StepsOne(m3, 1, call, m4);
    StepsOne(m4, 1, call, m5);
    StepsMore(m0, 1, call, 1, m1, 1, m2);
    StepsMore(m0, 1, call, 2, m2, 1, m3);
    StepsMore(m0, 1, call, 3, m3, 1, m4);
    StepsMore(m0, 1, call, 4, m4, 1, m5);
  }

  lemma SoloEnqueue(w: u32, slots: seq<Obj>, p: Pc, a: Pc) returns (filled: seq<Obj>)
    requires |slots| == 2 && a.Idle?
    ensures |filled| == 2
    ensures Steps(TwoThreads(w, w, w, w, slots, p, a), 1, Enqueue(X), 9,
                  TwoThreads(Wrap(w + 1), Wrap(w + 1), w, w, filled, p, Idle(0, [])))
  {
    SoloReserve(w, slots, p, a);
    filled := SoloFill(w, slots, p);
    StepsMore(TwoThreads(w, w, w, w, slots, p, a), 1, Enqueue(X),
              4, TwoThreads(Wrap(w + 1), w, w, w, slots, p, PWrite(X, w, 1, 0)),
              5, TwoThreads(Wrap(w + 1), Wrap(w + 1), w, w, filled, p, Idle(0, [])));
  }

  lemma SoloClaim(w: u32, v: u32, slots: seq<Obj>, p: Pc, a: Pc)
    requires |slots| == 2 && a.Idle? && v == Wrap(w + 1)
    ensures Steps(TwoThreads(v, v, w, w, slots, p, a), 1, Dequeue(1), 4, TwoThreads(v, v, v, w, slots, p, CRead(1, w, [])))
  {
    var call := Dequeue(1);
    var m0, m1 := TwoThreads(v, v, w, w, slots, p, a), TwoThreads(v, v, w, w, slots, p, CReadHead(1));
    var m2, m3 := TwoThreads(v, v, w, w, slots, p, CReadTail(1, w)), TwoThreads(v, v, w, w, slots, p, CReserve(1, w));
    var m4 := TwoThreads(v, v, v, w, slots, p, CRead(1, w, []));
    StepsOne(m0, 1, call, m1);
    StepsOne(m1, 1, call, m2);
    StepsOne(m2, 1, call, m3);
    StepsOne(m3, 1, call, m4);
    StepsMore(m0, 1, call, 1, m1, 1, m2);
    StepsMore(m0, 1, call, 2, m2, 1, m3);
    StepsMore(m0, 1, call, 3, m3, 1, m4);
  }

  lemma SoloEmpty(w: u32, v: u32, slots: seq<Obj>, p: Pc) returns (out: seq<Obj>)
    requires |slots| == 2 && v == Wrap(w + 1)
    ensures Steps(TwoThreads(v, v, v, w, slots, p, CRead(1, w, [])), 1, Dequeue(1), 4, TwoThreads(v, v, v, v, slots, p, Idle(0, out)))
  {
    var call := Dequeue(1);
    var m0 := TwoThreads(v, v, v, w, slots, p, CRead(1, w, []));
    out := [slots[Slot(m0.sh, w)]];
    var m1, m2 := TwoThreads(v, v, v, w, slots, p, CRead(1, w, out)), TwoThreads(v, v, v, w, slots, p, CAwait(1, w, out));
    var m3, m4 := TwoThreads(v, v, v, w, slots, p, CPublish(1, w, out)), TwoThreads(v, v, v, v, slots, p, Idle(0, out));
    assert [] + out == out;
    StepsOne(m0, 1, call, m1);
    StepsOne(m1, 1, call, m2);
    StepsOne(m2, 1, call, m3);
    StepsOne(m3, 1, call, m4);
    StepsMore(m0, 1, call, 1, m1, 1, m2);
    StepsMore(m0, 1, call, 2, m2, 1, m3);
    StepsMore(m0, 1, call, 3, m3, 1, m4);
  }

  lemma SoloDequeue(w: u32, v: u32, slots: seq<Obj>, p: Pc, a: Pc) returns (out: seq<Obj>)
    requires |slots| == 2 && a.Idle? && v == Wrap(w + 1)
    ensures Steps(TwoThreads(v, v, w, w, slots, p, a), 1, Dequeue(1), 8, TwoThreads(v, v, v, v, slots, p, Idle(0, out)))
  {
    SoloClaim(w, v, slots, p, a);
    out := SoloEmpty(w, v, slots, p);
    StepsMore(TwoThreads(v, v, w, w, slots, p, a), 1, Dequeue(1), 4, TwoThreads(v, v, v, w, slots, p, CRead(1, w, [])),
              4, TwoThreads(v, v, v, v, slots, p, Idle(0, out)));
  }

  /** Thread 1 puts an object in and takes it out again, k times. */
  function Rounds(k: nat): (ms: seq<Move>)
    ensures forall i :: 0 <= i < |ms| ==> ms[i].t == 1 && ValidCall(ms[i].call)
  {
    if k == 0 then [] else Rounds(k - 1) + (Moves(1, Enqueue(X), 9) + Moves(1, Dequeue(1), 8))
  }

  lemma {:induction false} RoundsRun(k: nat, p: Pc, slots: seq<Obj>) returns (slots': seq<Obj>, a: Pc)
    requires |slots| == 2
    ensures |slots'| == 2 && a.Idle?
    ensures Drive(TwoThreads(0, 0, 0, 0, slots, p, Idle(0, [])), Rounds(k))
         == TwoThreads(Wrap(k), Wrap(k), Wrap(k), Wrap(k), slots', p, a)
    decreases k
  {
    var start := TwoThreads(0, 0, 0, 0, slots, p, Idle(0, []));
    if k == 0 {
      slots', a := slots, Idle(0, []);
    } else {
      var before, b := RoundsRun(k - 1, p, slots);
      var w, v := Wrap(k - 1), Wrap(k);
      WrapAdd(k - 1, 1);
      slots' := SoloEnqueue(w, before, p, b);
      var out := SoloDequeue(w, v, slots', p, Idle(0, []));
      a := Idle(0, out);
      DriveAppend(start, Rounds(k - 1), Moves(1, Enqueue(X), 9) + Moves(1, Dequeue(1), 8));
      DriveAppend(TwoThreads(w, w, w, w, before, p, b), Moves(1, Enqueue(X), 9), Moves(1, Dequeue(1), 8));
    }
  }

  /** A ring of two slots as created, and two idle threads. */
  function Start(): Machine {
    TwoThreads(0, 0, 0, 0, [0, 0], Idle(0, []), Idle(0, []))
  }

  /** Some schedule of valid calls leads there. */
  ghost predicate Reached(m: Machine) {
    exists moves: seq<Move> ::
      (forall i :: 0 <= i < |moves| ==> moves[i].t < 2 && ValidCall(moves[i].call)) && Drive(Start(), moves) == m
  }

  lemma StartIsCreated()
    ensures Created(Start())
  {
    assert Pow2(1) == 2;
  }

  lemma ReachedMore(m: Machine, moves: seq<Move>)
    requires Reached(m) && forall i :: 0 <= i < |moves| ==> moves[i].t < 2 && ValidCall(moves[i].call)
    ensures Runnable(m) && Reached(Drive(m, moves))
  {
    var before: seq<Move> :|
      (forall i :: 0 <= i < |before| ==> before[i].t < 2 && ValidCall(before[i].call)) && Drive(Start(), before) == m;
    DriveAppend(Start(), before, moves);
    var all := before + moves;
    assert forall i :: 0 <= i < |all| ==> all[i].t < 2 && ValidCall(all[i].call);
    assert Drive(Start(), all) == Drive(m, moves);
  }

  lemma ReachedStart()
    ensures Reached(Start())
  {
    var none: seq<Move> := [];
    assert Drive(Start(), none) == Start();
  }

  lemma ReachedSteps(m: Machine, t: nat, call: Call, k: nat, next: Machine)
    requires Reached(m) && Steps(m, t, call, k, next) && ValidCall(call)
    ensures Reached(next)
  {
    ReachedMore(m, Moves(t, call, k));
  }

  lemma ReachedStep(m: Machine, t: nat, call: Call, next: Machine)
    requires Reached(m) && Runnable(m) && t < 2 && ValidCall(call) && MachineStep(m, t, call) == next
    ensures Reached(next)
  {
    StepsOne(m, t, call, next);
    ReachedSteps(m, t, call, 1, next);
  }

  // Thread 0 parked at p, and thread 1 has gone round k times.
  lemma ReachedRounds(p: Pc, k: nat) returns (slots: seq<Obj>, a: Pc)
    requires Reached(TwoThreads(0, 0, 0, 0, [0, 0], p, Idle(0, [])))
    ensures |slots| == 2 && a.Idle? && Reached(TwoThreads(Wrap(k), Wrap(k), Wrap(k), Wrap(k), slots, p, a))
  {
    slots, a := RoundsRun(k, p, [0, 0]);
    ReachedMore(TwoThreads(0, 0, 0, 0, [0, 0], p, Idle(0, [])), Rounds(k));
  }

  // Thread 0 goes from idle to its second read, or to its compare-and-set.
  lemma Park()
    ensures Reached(TwoThreads(0, 0, 0, 0, [0, 0], PReadTail(X, 0), Idle(0, [])))
    ensures Reached(TwoThreads(0, 0, 0, 0, [0, 0], PReserve(X, 0, 1), Idle(0, [])))
  {
    var call, i, slots := Enqueue(X), Idle(0, []), [0, 0];
    var m0, m1 := TwoThreads(0, 0, 0, 0, slots, i, i), TwoThreads(0, 0, 0, 0, slots, PReadHead(X), i);
    var m2, m3 := TwoThreads(0, 0, 0, 0, slots, PReadTail(X, 0), i), TwoThreads(0, 0, 0, 0, slots, PReserve(X, 0, 1), i);
    StepsOne(m0, 0, call, m1);
    StepsOne(m1, 0, call, m2);
    StepsOne(m2, 0, call, m3);
    ReachedStart();
    ReachedSteps(m0, 0, call, 1, m1);
    ReachedSteps(m1, 0, call, 1, m2);
    ReachedSteps(m2, 0, call, 1, m3);
  }

  /** One round between the two reads of thread 0: it computes room for two on a ring that holds one. */
  lemma CommentFails() returns (m: Machine)
    ensures Created(Start()) && Reached(m) && |m.pcs| == 2 && m.pcs[0].PReserve? && m.pcs[0].free == 2 > m.sh.size - 1
  {
    StartIsCreated();
    Park();
    var slots, a := ReachedRounds(PReadTail(X, 0), 1);
    m := TwoThreads(1, 1, 1, 1, slots, PReserve(X, 0, 2), a);
    StaleRead(1, slots, a);
  }

  // Thread 0 reads cons.tail at w, with its head read at zero.
  lemma StaleRead(w: u32, slots: seq<Obj>, a: Pc)
    requires |slots| == 2 && Reached(TwoThreads(w, w, w, w, slots, PReadTail(X, 0), a))
    ensures Reached(TwoThreads(w, w, w, w, slots, if Wrap(w + 1) >= 1 then PReserve(X, 0, Wrap(w + 1)) else Idle(-1, []), a))
  {
    ReachedStep(TwoThreads(w, w, w, w, slots, PReadTail(X, 0), a), 0, Enqueue(X),
                TwoThreads(w, w, w, w, slots, if Wrap(w + 1) >= 1 then PReserve(X, 0, Wrap(w + 1)) else Idle(-1, []), a));
  }

  /** The same for a dequeue: two rounds between its reads, and it sees two objects on an empty ring that holds one. */
  lemma EntriesCommentFails() returns (m: Machine)
    ensures Created(Start()) && Reached(m) && |m.pcs| == 2 && m.pcs[0] == CReadTail(1, 0)
    ensures m.sh.prodTail == m.sh.consTail && Wrap(m.sh.prodTail - m.pcs[0].head) == 2 > m.sh.size - 1
  {
    StartIsCreated();
    ParkConsumer();
    var slots, a := ReachedRounds(CReadTail(1, 0), 2);
    m := TwoThreads(2, 2, 2, 2, slots, CReadTail(1, 0), a);
  }

  lemma ParkConsumer()
    ensures Reached(TwoThreads(0, 0, 0, 0, [0, 0], CReadTail(1, 0), Idle(0, [])))
  {
    var i, slots := Idle(0, []), [0, 0];
    var m0, m1 := TwoThreads(0, 0, 0, 0, slots, i, i), TwoThreads(0, 0, 0, 0, slots, CReadHead(1), i);
    var m2 := TwoThreads(0, 0, 0, 0, slots, CReadTail(1, 0), i);
    StepsOne(m0, 0, Dequeue(1), m1);
    StepsOne(m1, 0, Dequeue(1), m2);
    ReachedStart();
    ReachedSteps(m0, 0, Dequeue(1), 1, m1);
    ReachedSteps(m1, 0, Dequeue(1), 1, m2);
  }

  /** A full ring that is called not full: three objects put in, two taken out again. */
  lemma FullTestMisses() returns (m: Machine)
    ensures Created(Start()) && Reached(m) && m.sh.size == 2
    ensures FreeCountWord(m.sh.prodTail, m.sh.consTail, 2) == 0 && !FullWord(m.sh.prodTail, m.sh.consTail, 2)
  {
    StartIsCreated();
    ReachedStart();
    var full := ReachedFull(Idle(0, []), 2);
    m := TwoThreads(3, 3, 2, 2, full, Idle(0, []), Idle(0, []));
    OneOfOne();
  }

  lemma OneOfOne()
    ensures FreeCountWord(3, 2, 2) == 0 && !FullWord(3, 2, 2)
  {
    assert Pow2(1) == 2;
    assert IsRingSize(2);
    ObserversExact(3, 2, 2);
    FullTest(3, 2, 2);
  }

  /**
    A count of one on a ring that is empty at both reads: prod.tail is read when the ring has
    been created, then an object is put in and taken out, then cons.tail is read.
   */
  lemma CountMisses() returns (m: Machine)
    ensures Created(Start()) && Start().sh.prodTail == Start().sh.consTail
    ensures Reached(m) && m.sh.size == 2 && m.sh.prodTail == m.sh.consTail
    ensures CountWord(Start().sh.prodTail, m.sh.consTail, 2) == 1
  {
    StartIsCreated();
    ReachedStart();
    var slots, a := ReachedRounds(Idle(0, []), 1);
    m := TwoThreads(1, 1, 1, 1, slots, Idle(0, []), a);
    assert Wrap(-1) == TWO32 - 1;
    assert And(TWO32 - 1, 1) == 1;
  }

  /** An empty ring refuses one object, when its index ran through all words but one since thread 0 read it. */
  lemma RefusalFails(last: nat) returns (m: Machine)
    requires last == TWO32 - 1
    ensures Created(Start()) && Reached(m) && |m.pcs| == 2 && m.pcs[0] == Idle(-1, []) && m.sh.size == 2
    ensures m.sh.prodHead == m.sh.prodTail == m.sh.consHead == m.sh.consTail
  {
    StartIsCreated();
    Park();
    var slots, a := ReachedRounds(PReadTail(X, 0), last);
    LastWord(last);
    StaleRead(last, slots, a);
    m := TwoThreads(last, last, last, last, slots, Idle(-1, []), a);
  }

  /**
    A run that comes to a compare-and-set a positive multiple of 2^32 late.  Exactly 2^32
    positions are reserved behind the back of thread 0; its compare-and-set succeeds on a full
    ring, and two objects are reserved where there is place for one.
   */
  lemma DistanceMatters(last: nat) returns (m: Machine)
    requires last == TWO32 - 1
    ensures Created(Start()) && Reached(m) && |m.pcs| == 2 && m.pcs[0] == PWrite(X, 0, 1, 0)
    ensures Wrap(m.sh.prodTail - m.sh.consTail) == 1 && Wrap(m.sh.prodHead - m.sh.consTail) == 2 > m.sh.size - 1
  {
    StartIsCreated();
    Park();
    LastWord(last);
    var full := ReachedFull(PReserve(X, 0, 1), last);
    StaleSwap(last, full);
    m := TwoThreads(1, 0, last, last, full, PWrite(X, 0, 1, 0), Idle(0, []));
  }

  lemma LastWord(last: nat)
    requires last == TWO32 - 1
    ensures Wrap(last) == last && Wrap(last + 1) == 0 && Wrap(0 - last) == 1 && Wrap(1 - last) == 2
  {
  }

  lemma ReachedFull(p: Pc, k: nat) returns (full: seq<Obj>)
    requires Reached(TwoThreads(0, 0, 0, 0, [0, 0], p, Idle(0, [])))
    ensures |full| == 2 && Reached(TwoThreads(Wrap(k + 1), Wrap(k + 1), Wrap(k), Wrap(k), full, p, Idle(0, [])))
  {
    var slots, a := ReachedRounds(p, k);
    full := SoloEnqueue(Wrap(k), slots, p, a);
    WrapAdd(k, 1);
    ReachedSteps(TwoThreads(Wrap(k), Wrap(k), Wrap(k), Wrap(k), slots, p, a), 1, Enqueue(X), 9,
                 TwoThreads(Wrap(k + 1), Wrap(k + 1), Wrap(k), Wrap(k), full, p, Idle(0, [])));
  }

  // The swap of the parked thread succeeds, wherever consumers stand.
  lemma StaleSwap(w: u32, full: seq<Obj>)
    requires |full| == 2 && Reached(TwoThreads(0, 0, w, w, full, PReserve(X, 0, 1), Idle(0, [])))
    ensures Reached(TwoThreads(1, 0, w, w, full, PWrite(X, 0, 1, 0), Idle(0, [])))
  {
    ReachedStep(TwoThreads(0, 0, w, w, full, PReserve(X, 0, 1), Idle(0, [])), 0, Enqueue(X),
                TwoThreads(1, 0, w, w, full, PWrite(X, 0, 1, 0), Idle(0, [])));
  }
}
