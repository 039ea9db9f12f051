/**
  Whole runs of the ring machine: every schedule of every set of threads.
 */
module RingRuns {
  import opened Words
  import opened RingMachine
  import opened RingInvariant
  import opened RingSafety

  datatype Move = Move(t: nat, call: Call)

  /** A freshly created ring with any number of idle threads. */
  ghost predicate Init(s: State) {
    && Created(s.m)
    && s.g == History(0, 0, 0, 0, [], [], [], [], [], s.g.marks, true)
    && |s.g.marks| == |s.m.pcs|
  }

  ghost predicate AllowedRun(s: State, moves: seq<Move>)
    requires Sized(s)
    decreases |moves|
  {
    moves == [] || (Allowed(s, moves[0].t, moves[0].call) && AllowedRun(Next(s, moves[0].t, moves[0].call), moves[1..]))
  }

  ghost function Exec(s: State, moves: seq<Move>): (s': State)
    requires Sized(s) && AllowedRun(s, moves)
    ensures Sized(s') && |s'.m.pcs| == |s.m.pcs| && s'.m.sh.size == s.m.sh.size
    decreases |moves|
  {
    if moves == [] then s else Exec(Next(s, moves[0].t, moves[0].call), moves[1..])
  }

  lemma {:induction false} RunKeepsInv(s: State, moves: seq<Move>)
    requires Inv(s) && AllowedRun(s, moves)
    ensures Inv(Exec(s, moves))
    decreases |moves|
  {
    if moves != [] {
      StepKeepsInv(s, moves[0].t, moves[0].call);
      RunKeepsInv(Next(s, moves[0].t, moves[0].call), moves[1..]);
    }
  }

  lemma InitKeepsInv(s: State)
    requires Init(s)
    ensures Inv(s)
  {
    RingSizeBounds(s.m.sh.size);
  }

  /** Every reachable state satisfies the invariant, whatever the schedule. */
  lemma ReachableInv(s: State, moves: seq<Move>)
    requires Init(s) && AllowedRun(s, moves)
    ensures Inv(Exec(s, moves))
  {
    InitKeepsInv(s);
    RunKeepsInv(s, moves);
  }

  // ----- the program alone

  /** The same schedule on the machine without history variables. */
  function Drive(m: Machine, moves: seq<Move>): (m': Machine)
    requires 1 <= m.sh.size < TWO32 && |m.sh.slots| == m.sh.size
    requires forall i :: 0 <= i < |moves| ==> moves[i].t < |m.pcs|
    decreases |moves|
  {
    if moves == [] then m else Drive(MachineStep(m, moves[0].t, moves[0].call), moves[1..])
  }

  lemma {:induction false} AllowedMoves(s: State, moves: seq<Move>)
    requires Sized(s) && AllowedRun(s, moves)
    ensures forall i :: 0 <= i < |moves| ==> moves[i].t < |s.m.pcs|
    decreases |moves|
  {
    if moves != [] {
      AllowedMoves(Next(s, moves[0].t, moves[0].call), moves[1..]);
      assert moves == [moves[0]] + moves[1..];
    }
  }

  /** History variables record a run; they do not steer it. */
  lemma {:induction false} HistoryErased(s: State, moves: seq<Move>)
    requires Sized(s) && AllowedRun(s, moves)
    ensures forall i :: 0 <= i < |moves| ==> moves[i].t < |s.m.pcs|
    ensures Exec(s, moves).m == Drive(s.m, moves)
    decreases |moves|
  {
    AllowedMoves(s, moves);
    if moves != [] {
      HistoryErased(Next(s, moves[0].t, moves[0].call), moves[1..]);
    }
  }

  /** What a step publishes, and what it returns from a dequeue: visible in the machine itself. */
  function Publishes(pc: Pc): seq<Obj> {
    if pc.PPublish? then pc.objs else []
  }

  function Returns(pc: Pc): seq<Obj> {
    if pc.CPublish? then pc.buf else []
  }

  function Inputs(m: Machine, moves: seq<Move>): seq<Obj>
    requires 1 <= m.sh.size < TWO32 && |m.sh.slots| == m.sh.size
    requires forall i :: 0 <= i < |moves| ==> moves[i].t < |m.pcs|
    decreases |moves|
  {
    if moves == [] then []
    else Publishes(m.pcs[moves[0].t]) + Inputs(MachineStep(m, moves[0].t, moves[0].call), moves[1..])
  }

  function Outputs(m: Machine, moves: seq<Move>): seq<Obj>
    requires 1 <= m.sh.size < TWO32 && |m.sh.slots| == m.sh.size
    requires forall i :: 0 <= i < |moves| ==> moves[i].t < |m.pcs|
    decreases |moves|
  {
    if moves == [] then []
    else Returns(m.pcs[moves[0].t]) + Outputs(MachineStep(m, moves[0].t, moves[0].call), moves[1..])
  }

  lemma StepLogs(s: State, t: nat, call: Call)
    requires Inv(s) && Allowed(s, t, call)
    ensures Next(s, t, call).g.sent == s.g.sent + Publishes(s.m.pcs[t])
    ensures Next(s, t, call).g.received == s.g.received + Returns(s.m.pcs[t])
  {
    assert ThreadOk(s.m.sh, s.g, t, s.m.pcs[t], s.g.marks[t]);
  }

  lemma Assoc(a: seq<Obj>, b: seq<Obj>, c: seq<Obj>)
    ensures (a + b) + c == a + (b + c)
  {
  }

  lemma {:induction false} LogsAreTraffic(s: State, moves: seq<Move>)
    requires Inv(s) && AllowedRun(s, moves)
    ensures forall i :: 0 <= i < |moves| ==> moves[i].t < |s.m.pcs|
    ensures Exec(s, moves).g.sent == s.g.sent + Inputs(s.m, moves)
    ensures Exec(s, moves).g.received == s.g.received + Outputs(s.m, moves)
    decreases |moves|
  {
    AllowedMoves(s, moves);
    if moves != [] {
      StepKeepsInv(s, moves[0].t, moves[0].call);
      StepLogs(s, moves[0].t, moves[0].call);
      var s', rest := Next(s, moves[0].t, moves[0].call), moves[1..];
      LogsAreTraffic(s', rest);
      Assoc(s.g.sent, Publishes(s.m.pcs[moves[0].t]), Inputs(s'.m, rest));
      Assoc(s.g.received, Returns(s.m.pcs[moves[0].t]), Outputs(s'.m, rest));
    } else {
      assert s.g.sent + [] == s.g.sent && s.g.received + [] == s.g.received;
    }
  }

  /**
    First in, first out, exactly once: in every run of every set of threads, and across any
    number of index wraps, the objects returned by dequeues are a prefix of the objects
    published by enqueues, and never more than `size - 1` behind.
   */
  lemma FifoExactlyOnce(s: State, moves: seq<Move>)
    requires Init(s) && AllowedRun(s, moves)
    ensures forall i :: 0 <= i < |moves| ==> moves[i].t < |s.m.pcs|
    ensures Outputs(s.m, moves) <= Inputs(s.m, moves)
    ensures |Inputs(s.m, moves)| - |Outputs(s.m, moves)| <= s.m.sh.size - 1
  {
    InitKeepsInv(s);
    RunKeepsInv(s, moves);
    LogsAreTraffic(s, moves);
    var g := Exec(s, moves).g;
    assert g.hist[..g.ct] <= g.hist[..g.pt];
    assert s.g.sent + Inputs(s.m, moves) == Inputs(s.m, moves);
    assert s.g.received + Outputs(s.m, moves) == Outputs(s.m, moves);
  }

  // ----- refinement of an atomic bounded queue

  datatype Event = Tau | Put(objs: seq<Obj>) | Take(objs: seq<Obj>)

  /** An atomic queue: a put needs room for all its objects, a take removes the oldest ones. */
  function FifoStep(q: seq<Obj>, e: Event, capacity: int): Option<seq<Obj>> {
    match e
    case Tau => Some(q)
    case Put(objs) => if |q| + |objs| <= capacity then Some(q + objs) else None
    case Take(objs) => if objs <= q then Some(q[|objs|..]) else None
  }

  function FifoRun(q: seq<Obj>, events: seq<Event>, capacity: int): Option<seq<Obj>>
    decreases |events|
  {
    if events == [] then Some(q)
    else match FifoStep(q, events[0], capacity)
      case None => None
      case Some(q') => FifoRun(q', events[1..], capacity)
  }

  lemma FifoRunStep(q: seq<Obj>, e: Event, events: seq<Event>, capacity: int)
    requires FifoStep(q, e, capacity).Some?
    ensures FifoRun(q, [e] + events, capacity) == FifoRun(FifoStep(q, e, capacity).value, events, capacity)
  {
    assert ([e] + events)[1..] == events;
  }

  /** Published and not yet claimed. */
  function Content(g: History): seq<Obj> {
    if g.ch <= g.pt <= |g.hist| then g.hist[g.ch..g.pt] else []
  }

  /** An enqueue takes effect at its tail store, a dequeue at its successful compare-and-set. */
  function EventOf(s: State, t: nat): Event
    requires t < |s.m.pcs|
  {
    match s.m.pcs[t]
    case PPublish(objs, _, _) => Put(objs)
    case CReserve(n, head) =>
      if (s.m.sh.sc || s.m.sh.consHead == head) && n >= 0 && s.g.ch + n <= |s.g.hist|
      then Take(s.g.hist[s.g.ch..s.g.ch + n]) else Tau
    case _ => Tau
  }

  lemma PublishRefines(s: State, t: nat, call: Call)
    requires Inv(s) && Allowed(s, t, call) && s.m.pcs[t].PPublish?
    requires Inv(Next(s, t, call))
    ensures FifoStep(Content(s.g), EventOf(s, t), s.m.sh.size - 1) == Some(Content(Next(s, t, call).g))
  {
    ReservedObjects(s, t);
    WindowAppends(s.g.hist, s.g.ch, s.g.pt, s.m.pcs[t].objs);
  }

  // What the thread publishes is what stands at the tail of the history.
  lemma ReservedObjects(s: State, t: nat)
    requires Inv(s) && t < |s.m.pcs| && s.m.pcs[t].PPublish?
    ensures s.g.ch <= s.g.pt && s.g.pt + |s.m.pcs[t].objs| <= |s.g.hist|
    ensures s.g.hist[s.g.pt..s.g.pt + |s.m.pcs[t].objs|] == s.m.pcs[t].objs
  {
    assert ThreadOk(s.m.sh, s.g, t, s.m.pcs[t], s.g.marks[t]);
  }

  lemma WindowAppends(h: seq<Obj>, lo: nat, mid: nat, objs: seq<Obj>)
    requires lo <= mid && mid + |objs| <= |h| && h[mid..mid + |objs|] == objs
    ensures h[lo..mid + |objs|] == h[lo..mid] + objs
  {
  }

  lemma ClaimRefines(s: State, t: nat, call: Call)
    requires Inv(s) && Allowed(s, t, call) && s.m.pcs[t].CReserve?
    requires Inv(Next(s, t, call))
    ensures FifoStep(Content(s.g), EventOf(s, t), s.m.sh.size - 1) == Some(Content(Next(s, t, call).g))
  {
    var n := s.m.pcs[t].n;
    assert n >= 1 by {
      assert ThreadOk(s.m.sh, s.g, t, s.m.pcs[t], s.g.marks[t]);
    }
    if s.m.sh.sc || s.m.sh.consHead == s.m.pcs[t].head {
      ClaimExact(s, t, call);
      FrontOfWindow(s.g.hist, s.g.ch, n, s.g.pt);
    }
  }

  lemma FrontOfWindow(h: seq<Obj>, lo: nat, n: nat, hi: nat)
    requires lo + n <= hi <= |h|
    ensures h[lo..lo + n] <= h[lo..hi] && h[lo..hi][n..] == h[lo + n..hi]
  {
  }

  lemma StepRefines(s: State, t: nat, call: Call)
    requires Inv(s) && Allowed(s, t, call)
    ensures Inv(Next(s, t, call))
    ensures FifoStep(Content(s.g), EventOf(s, t), s.m.sh.size - 1) == Some(Content(Next(s, t, call).g))
  {
    StepKeepsInv(s, t, call);
    if s.m.pcs[t].PPublish? {
      PublishRefines(s, t, call);
    } else if s.m.pcs[t].CReserve? {
      ClaimRefines(s, t, call);
    } else {
      OtherStepsSilent(s, t, call);
    }
  }

  lemma OtherStepsSilent(s: State, t: nat, call: Call)
    requires Inv(s) && Allowed(s, t, call) && !s.m.pcs[t].PPublish? && !s.m.pcs[t].CReserve?
    requires Inv(Next(s, t, call))
    ensures EventOf(s, t) == Tau && Content(Next(s, t, call).g) == Content(s.g)
  {
    assert s.g.pt <= |s.g.hist| && s.g.hist <= Next(s, t, call).g.hist;
  }

  ghost function Events(s: State, moves: seq<Move>): seq<Event>
    requires Sized(s) && AllowedRun(s, moves)
    decreases |moves|
  {
    if moves == [] then []
    else [EventOf(s, moves[0].t)] + Events(Next(s, moves[0].t, moves[0].call), moves[1..])
  }

  lemma RunUnfolds(s: State, moves: seq<Move>)
    requires Sized(s) && AllowedRun(s, moves) && moves != []
    ensures var s' := Next(s, moves[0].t, moves[0].call);
            && Allowed(s, moves[0].t, moves[0].call) && AllowedRun(s', moves[1..])
            && Exec(s, moves) == Exec(s', moves[1..])
            && Events(s, moves) == [EventOf(s, moves[0].t)] + Events(s', moves[1..])
  {
  }

  // The first event, in front of a run of the queue that leads to q.
  lemma FifoRunFirst(s: State, moves: seq<Move>, capacity: int, q: seq<Obj>)
    requires Sized(s) && AllowedRun(s, moves) && moves != []
    requires FifoStep(Content(s.g), EventOf(s, moves[0].t), capacity) == Some(Content(Next(s, moves[0].t, moves[0].call).g))
    requires FifoRun(Content(Next(s, moves[0].t, moves[0].call).g), Events(Next(s, moves[0].t, moves[0].call), moves[1..]), capacity) == Some(q)
    ensures FifoRun(Content(s.g), Events(s, moves), capacity) == Some(q)
  {
    FifoRunStep(Content(s.g), EventOf(s, moves[0].t), Events(Next(s, moves[0].t, moves[0].call), moves[1..]), capacity);
  }

  lemma {:induction false} RunRefines(s: State, moves: seq<Move>)
    requires Inv(s) && AllowedRun(s, moves)
    ensures FifoRun(Content(s.g), Events(s, moves), s.m.sh.size - 1) == Some(Content(Exec(s, moves).g))
    decreases |moves|
  {
    if moves != [] {
      RunUnfolds(s, moves);
      StepRefines(s, moves[0].t, moves[0].call);
      RunRefines(Next(s, moves[0].t, moves[0].call), moves[1..]);
      FifoRunFirst(s, moves, s.m.sh.size - 1, Content(Exec(s, moves).g));
    }
  }

  /** The ring refines an atomic FIFO of `size - 1` places, for every schedule. */
  lemma RefinesAtomicFifo(s: State, moves: seq<Move>)
    requires Init(s) && AllowedRun(s, moves)
    ensures FifoRun([], Events(s, moves), s.m.sh.size - 1) == Some(Content(Exec(s, moves).g))
  {
    InitKeepsInv(s);
    RunRefines(s, moves);
    assert Content(s.g) == [];
  }

  // ----- the atomic trace and the machine's traffic

  function Puts(events: seq<Event>): seq<Obj> {
    if events == [] then [] else (if events[0].Put? then events[0].objs else []) + Puts(events[1..])
  }

  function Takes(events: seq<Event>): seq<Obj> {
    if events == [] then [] else (if events[0].Take? then events[0].objs else []) + Takes(events[1..])
  }

  /** Everything claimed so far. */
  function Claimed(g: History): seq<Obj> {
    if g.ch <= |g.hist| then g.hist[..g.ch] else []
  }

  lemma TakeTraced(s: State, t: nat, call: Call)
    requires Inv(s) && Allowed(s, t, call) && EventOf(s, t).Take?
    ensures Claimed(Next(s, t, call).g) == Claimed(s.g) + EventOf(s, t).objs
  {
    ClaimExact(s, t, call);
    FrontGrows(s.g.hist, s.g.ch, s.m.pcs[t].n);
  }

  lemma FrontGrows(h: seq<Obj>, lo: nat, n: nat)
    requires lo + n <= |h|
    ensures h[..lo] + h[lo..lo + n] == h[..lo + n]
  {
  }

  lemma OtherTraced(s: State, t: nat, call: Call)
    requires Inv(s) && Allowed(s, t, call) && !EventOf(s, t).Take?
    ensures Claimed(Next(s, t, call).g) == Claimed(s.g)
  {
    NothingClaimed(s, t, call);
    assert s.g.hist <= Next(s, t, call).g.hist;
  }

  lemma SingleEvent(e: Event)
    ensures Puts([e]) == (if e.Put? then e.objs else []) && Takes([e]) == if e.Take? then e.objs else []
  {
    assert [e][1..] == [];
  }

  lemma StepTraced(s: State, t: nat, call: Call)
    requires Inv(s) && Allowed(s, t, call)
    ensures Puts([EventOf(s, t)]) == Publishes(s.m.pcs[t])
    ensures Claimed(Next(s, t, call).g) == Claimed(s.g) + Takes([EventOf(s, t)])
  {
    SingleEvent(EventOf(s, t));
    if EventOf(s, t).Take? {
      TakeTraced(s, t, call);
    } else {
      OtherTraced(s, t, call);
    }
  }

  lemma NothingClaimed(s: State, t: nat, call: Call)
    requires Inv(s) && Allowed(s, t, call) && !EventOf(s, t).Take?
    ensures Next(s, t, call).g.ch == s.g.ch
  {
    if s.m.pcs[t].CReserve? && (s.m.sh.sc || s.m.sh.consHead == s.m.pcs[t].head) {
      ClaimExact(s, t, call);
    }
  }

  lemma ConsTraffic(e: Event, events: seq<Event>)
    ensures Puts([e] + events) == Puts([e]) + Puts(events)
    ensures Takes([e] + events) == Takes([e]) + Takes(events)
  {
    assert ([e] + events)[1..] == events;
    assert [e][1..] == [];
  }

  lemma {:induction false} ClaimsAreTakes(s: State, moves: seq<Move>)
    requires Inv(s) && AllowedRun(s, moves)
    ensures forall i :: 0 <= i < |moves| ==> moves[i].t < |s.m.pcs|
    ensures Puts(Events(s, moves)) == Inputs(s.m, moves)
    ensures Claimed(Exec(s, moves).g) == Claimed(s.g) + Takes(Events(s, moves))
    decreases |moves|
  {
    AllowedMoves(s, moves);
    if moves != [] {
      var s', rest := Next(s, moves[0].t, moves[0].call), moves[1..];
      RunUnfolds(s, moves);
      StepKeepsInv(s, moves[0].t, moves[0].call);
      StepTraced(s, moves[0].t, moves[0].call);
      ClaimsAreTakes(s', rest);
      ConsTraffic(EventOf(s, moves[0].t), Events(s', rest));
      Assoc(Claimed(s.g), Takes([EventOf(s, moves[0].t)]), Takes(Events(s', rest)));
    }
  }

  /**
    The atomic trace is the traffic of the machine: its puts are what was published, and what
    was returned is the first part of its takes, the rest being claimed and not yet returned.
   */
  lemma TraceIsTraffic(s: State, moves: seq<Move>)
    requires Init(s) && AllowedRun(s, moves)
    ensures forall i :: 0 <= i < |moves| ==> moves[i].t < |s.m.pcs|
    ensures Puts(Events(s, moves)) == Inputs(s.m, moves)
    ensures Outputs(s.m, moves) <= Takes(Events(s, moves)) <= Inputs(s.m, moves)
  {
    InitKeepsInv(s);
    ClaimsAreTakes(s, moves);
    RunKeepsInv(s, moves);
    LogsAreTraffic(s, moves);
    var g := Exec(s, moves).g;
    assert g.hist[..g.ct] <= g.hist[..g.ch] <= g.hist[..g.pt];
    assert s.g.sent + Inputs(s.m, moves) == Inputs(s.m, moves);
    assert s.g.received + Outputs(s.m, moves) == Outputs(s.m, moves);
    assert Claimed(s.g) + Takes(Events(s, moves)) == Takes(Events(s, moves));
  }

  // ----- each dequeue by itself

  /** The objects of the last take of thread t in a run with these events. */
  function LastTake(moves: seq<Move>, events: seq<Event>, t: nat): Option<seq<Obj>>
    requires |moves| == |events|
    decreases |moves|
  {
    if moves == [] then None
    else
      var later := LastTake(moves[1..], events[1..], t);
      if later.Some? then later
      else if moves[0].t == t && events[0].Take? then Some(events[0].objs) else None
  }

  /** What a thread inside a dequeue has claimed. */
  function Claim(s: State, t: nat): seq<Obj>
    requires t < |s.m.pcs| == |s.g.marks| && ConsReserved(s.m.pcs[t])
  {
    var lo, n := s.g.marks[t].head, s.m.pcs[t].n;
    if 0 <= n && lo + n <= |s.g.hist| then s.g.hist[lo..lo + n] else []
  }

  // A thread comes to a claim by its own take, and keeps it while anybody moves.
  lemma ClaimKept(s: State, v: nat, call: Call, t: nat)
    requires Inv(s) && Allowed(s, v, call) && t < |s.m.pcs|
    requires !(v == t && EventOf(s, t).Take?) && ConsReserved(Next(s, v, call).m.pcs[t])
    ensures ConsReserved(s.m.pcs[t]) && Claim(Next(s, v, call), t) == Claim(s, t)
  {
    if v == t {
      OwnPlaceKept(s, t, call);
    }
    ClaimSpared(s, v, call, t);
  }

  lemma OwnPlaceKept(s: State, t: nat, call: Call)
    requires Inv(s) && Allowed(s, t, call) && !EventOf(s, t).Take?
    requires ConsReserved(Next(s, t, call).m.pcs[t])
    ensures ConsReserved(s.m.pcs[t]) && Next(s, t, call).m.pcs[t].n == s.m.pcs[t].n
    ensures Next(s, t, call).g.marks[t] == s.g.marks[t]
  {
    if s.m.pcs[t].CReserve? && (s.m.sh.sc || s.m.sh.consHead == s.m.pcs[t].head) {
      ClaimExact(s, t, call);
    }
  }

  // Positions already reserved keep their objects.
  lemma ClaimSpared(s: State, v: nat, call: Call, t: nat)
    requires Inv(s) && Allowed(s, v, call) && t < |s.m.pcs| && ConsReserved(s.m.pcs[t])
    requires ConsReserved(Next(s, v, call).m.pcs[t]) && Next(s, v, call).m.pcs[t].n == s.m.pcs[t].n
    requires Next(s, v, call).g.marks[t] == s.g.marks[t]
    ensures Claim(Next(s, v, call), t) == Claim(s, t)
  {
    assert ThreadOk(s.m.sh, s.g, t, s.m.pcs[t], s.g.marks[t]);
    HistoryGrows(s, v, call);
    SliceKept(s.g.hist, Next(s, v, call).g.hist, s.g.marks[t].head, s.m.pcs[t].n);
  }

  lemma HistoryGrows(s: State, v: nat, call: Call)
    requires Inv(s) && Allowed(s, v, call)
    ensures s.g.hist <= Next(s, v, call).g.hist
  {
  }

  lemma SliceKept(h: seq<Obj>, h': seq<Obj>, lo: nat, n: nat)
    requires h <= h' && lo + n <= |h|
    ensures h'[lo..lo + n] == h[lo..lo + n]
  {
  }

  lemma ClaimTaken(s: State, t: nat, call: Call)
    requires Inv(s) && Allowed(s, t, call) && EventOf(s, t).Take?
    ensures ConsReserved(Next(s, t, call).m.pcs[t]) && Claim(Next(s, t, call), t) == EventOf(s, t).objs
  {
    ClaimExact(s, t, call);
  }

  lemma {:induction false} ClaimIsLastTake(s: State, moves: seq<Move>, t: nat)
    requires Inv(s) && AllowedRun(s, moves) && t < |s.m.pcs|
    requires ConsReserved(Exec(s, moves).m.pcs[t])
    ensures |Events(s, moves)| == |moves|
    ensures match LastTake(moves, Events(s, moves), t)
            case Some(objs) => objs == Claim(Exec(s, moves), t)
            case None => ConsReserved(s.m.pcs[t]) && Claim(s, t) == Claim(Exec(s, moves), t)
    decreases |moves|
  {
    if moves != [] {
      var s', v, call := Next(s, moves[0].t, moves[0].call), moves[0].t, moves[0].call;
      RunUnfolds(s, moves);
      StepKeepsInv(s, v, call);
      ClaimIsLastTake(s', moves[1..], t);
      assert Events(s, moves)[1..] == Events(s', moves[1..]);
      if LastTake(moves[1..], Events(s', moves[1..]), t).None? {
        if v == t && EventOf(s, t).Take? {
          ClaimTaken(s, t, call);
        } else {
          ClaimKept(s, v, call, t);
        }
      }
    }
  }

  /**
    What a dequeue hands to its caller is what its own compare-and-set took out of the atomic
    queue: in front of its last step, and in the idle thread behind it.
   */
  lemma ReturnedIsTaken(s: State, moves: seq<Move>, t: nat, call: Call)
    requires Init(s) && AllowedRun(s, moves) && t < |s.m.pcs|
    requires Exec(s, moves).m.pcs[t].CPublish?
    ensures |Events(s, moves)| == |moves|
    ensures LastTake(moves, Events(s, moves), t) == Some(Exec(s, moves).m.pcs[t].buf)
    ensures Next(Exec(s, moves), t, call).m.pcs[t] == Idle(0, Exec(s, moves).m.pcs[t].buf)
  {
    InitKeepsInv(s);
    ReachableInv(s, moves);
    ClaimIsLastTake(s, moves, t);
    assert !ConsReserved(s.m.pcs[t]);
    var end := Exec(s, moves);
    assert ThreadOk(end.m.sh, end.g, t, end.m.pcs[t], end.g.marks[t]);
  }
}
