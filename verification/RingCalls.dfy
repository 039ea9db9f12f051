/**
  Calls return.  A compare-and-set fails only because another one succeeded, and a tail test
  only because somebody else has work left; so in a fair schedule every call costs a bounded
  number of windows.
 */
module RingCalls {
  import opened Words
  import opened RingMachine
  import opened RingInvariant
  import opened RingSafety
  import opened RingRuns
  import opened RingProgress

  // ----- why attempts fail

  /** A reservation fails iff another one succeeded since its read of the head. */
  lemma ReserveFailsIff(s: State, t: nat, call: Call)
    requires Inv(s) && Allowed(s, t, call) && s.m.pcs[t].PReserve?
    ensures Next(s, t, call).m.pcs[t].PReadHead? <==> s.g.marks[t].head < s.g.ph
  {
    assert ThreadOk(s.m.sh, s.g, t, s.m.pcs[t], s.g.marks[t]);
    HeadSeen(s.g.marks[t].head, s.g.ph);
  }

  lemma ClaimFailsIff(s: State, t: nat, call: Call)
    requires Inv(s) && Allowed(s, t, call) && s.m.pcs[t].CReserve?
    ensures Next(s, t, call).m.pcs[t].CReadHead? <==> s.g.marks[t].head < s.g.ch
  {
    assert ThreadOk(s.m.sh, s.g, t, s.m.pcs[t], s.g.marks[t]);
    HeadSeen(s.g.marks[t].head, s.g.ch);
  }

  /** A tail test that fails: the only step that leaves everything as it was. */
  ghost predicate Spins(s: State, t: nat)
    requires t < |s.m.pcs|
  {
    || (s.m.pcs[t].PAwait? && !s.m.sh.sp && s.m.sh.prodTail != s.m.pcs[t].head)
    || (s.m.pcs[t].CAwait? && !s.m.sh.sc && s.m.sh.consTail != s.m.pcs[t].head)
  }

  lemma SpinStands(s: State, t: nat, call: Call)
    requires Sized(s) && t < |s.m.pcs| && Spins(s, t)
    ensures Next(s, t, call) == s
  {
    assert s.m.pcs[t := s.m.pcs[t]] == s.m.pcs;
  }

  // ----- a measure of the calls in progress

  /** More than a reservation can cost its own thread and, by making their reads stale, all others. */
  function Attempt(size: nat, threads: nat): nat {
    size + 4 * threads + 8
  }

  /** A read of a head that others have moved since. */
  ghost predicate Late(g: History, pc: Pc, mark: Mark) {
    ((pc.PReadTail? || pc.PReserve?) && mark.head < g.ph) || ((pc.CReadTail? || pc.CReserve?) && mark.head < g.ch)
  }

  /** What is left of a thread's call, at a cost of k for its reservation. */
  ghost function Left(g: History, pc: Pc, mark: Mark, k: nat): nat {
    (if pc.Idle? then 0
     else if pc.PReadHead? || pc.CReadHead? then k + 3
     else if pc.PReadTail? || pc.CReadTail? then k + 2
     else if pc.PReserve? || pc.CReserve? then k + 1
     else Work(pc)) + if Late(g, pc, mark) then 4 else 0
  }

  ghost function Weight(s: State, t: nat): nat
    requires t < |s.m.pcs| == |s.g.marks|
  {
    Left(s.g, s.m.pcs[t], s.g.marks[t], Attempt(s.m.sh.size, |s.m.pcs|))
  }

  ghost function Sum(s: State, k: nat): nat
    requires k <= |s.m.pcs| == |s.g.marks|
  {
    if k == 0 then 0 else Sum(s, k - 1) + Weight(s, k - 1)
  }

  ghost function Total(s: State): nat
    requires |s.m.pcs| == |s.g.marks|
  {
    Sum(s, |s.m.pcs|)
  }

  // One weight changes; the others rise by at most 4, or not at all.
  lemma {:induction false} SumMoves(s: State, s': State, t: nat, k: nat, rise: bool)
    requires k <= |s.m.pcs| == |s.g.marks| == |s'.m.pcs| == |s'.g.marks| && t < |s.m.pcs|
    requires forall u :: 0 <= u < |s.m.pcs| && u != t ==> Weight(s', u) <= Weight(s, u) + if rise then 4 else 0
    ensures Sum(s', k) <= Sum(s, k) + (if rise then 4 * k else 0) + if t < k then Weight(s', t) - Weight(s, t) else 0
  {
    if k > 0 {
      SumMoves(s, s', t, k - 1, rise);
    }
  }

  /** Only a reservation touches the weights of other threads. */
  ghost predicate Reserves(s: State, t: nat)
    requires t < |s.m.pcs|
  {
    || (s.m.pcs[t].PReserve? && (s.m.sh.sp || s.m.sh.prodHead == s.m.pcs[t].head))
    || (s.m.pcs[t].CReserve? && (s.m.sh.sc || s.m.sh.consHead == s.m.pcs[t].head))
  }

  lemma OthersWeigh(s: State, t: nat, call: Call, u: nat)
    requires Inv(s) && Allowed(s, t, call) && u < |s.m.pcs| && u != t
    ensures |Next(s, t, call).m.pcs| == |Next(s, t, call).g.marks| == |s.m.pcs|
    ensures Weight(Next(s, t, call), u) <= Weight(s, u) + if Reserves(s, t) then 4 else 0
  {
    OtherPlaces(s, t, call, u);
    if !Reserves(s, t) {
      HeadsStay(s, t, call);
    }
  }

  lemma OtherPlaces(s: State, t: nat, call: Call, u: nat)
    requires Sized(s) && t < |s.m.pcs| && u < |s.m.pcs| && u != t
    ensures |Next(s, t, call).m.pcs| == |Next(s, t, call).g.marks| == |s.m.pcs|
    ensures Next(s, t, call).m.pcs[u] == s.m.pcs[u] && Next(s, t, call).g.marks[u] == s.g.marks[u]
  {
  }

  lemma HeadsStay(s: State, t: nat, call: Call)
    requires Inv(s) && Allowed(s, t, call) && !Reserves(s, t)
    ensures Next(s, t, call).g.ph == s.g.ph && Next(s, t, call).g.ch == s.g.ch
  {
  }

  // The weight of the thread that moves.
  lemma ReserveWeighs(s: State, t: nat, call: Call)
    requires Inv(s) && Allowed(s, t, call) && Reserves(s, t)
    ensures |Next(s, t, call).m.pcs| == |Next(s, t, call).g.marks| == |s.m.pcs|
    ensures Weight(Next(s, t, call), t) + 4 * |s.m.pcs| + 1 <= Weight(s, t)
  {
    if s.m.pcs[t].PReserve? {
      ReserveExact(s, t, call);
    } else {
      ClaimExact(s, t, call);
    }
  }

  lemma AttemptWeighs(s: State, t: nat, call: Call)
    requires Inv(s) && Allowed(s, t, call) && (s.m.pcs[t].PReserve? || s.m.pcs[t].CReserve?) && !Reserves(s, t)
    ensures |Next(s, t, call).m.pcs| == |Next(s, t, call).g.marks| == |s.m.pcs|
    ensures Weight(Next(s, t, call), t) < Weight(s, t)
  {
    if s.m.pcs[t].PReserve? {
      ReserveFailsIff(s, t, call);
    } else {
      ClaimFailsIff(s, t, call);
    }
  }

  lemma ReadWeighs(s: State, t: nat, call: Call)
    requires Inv(s) && Allowed(s, t, call)
    requires var pc := s.m.pcs[t]; pc.PReadHead? || pc.CReadHead? || pc.PReadTail? || pc.CReadTail?
    ensures |Next(s, t, call).m.pcs| == |Next(s, t, call).g.marks| == |s.m.pcs|
    ensures Weight(Next(s, t, call), t) < Weight(s, t)
  {
  }

  lemma WorkWeighs(s: State, t: nat, call: Call)
    requires Inv(s) && Allowed(s, t, call) && (ProdReserved(s.m.pcs[t]) || ConsReserved(s.m.pcs[t])) && !Spins(s, t)
    ensures |Next(s, t, call).m.pcs| == |Next(s, t, call).g.marks| == |s.m.pcs|
    ensures Weight(Next(s, t, call), t) < Weight(s, t)
  {
    assert ThreadOk(s.m.sh, s.g, t, s.m.pcs[t], s.g.marks[t]);
  }

  lemma MoverWeighs(s: State, t: nat, call: Call)
    requires Inv(s) && Allowed(s, t, call) && !s.m.pcs[t].Idle? && !Spins(s, t) && !Reserves(s, t)
    ensures |Next(s, t, call).m.pcs| == |Next(s, t, call).g.marks| == |s.m.pcs|
    ensures Weight(Next(s, t, call), t) < Weight(s, t)
  {
    var pc := s.m.pcs[t];
    if pc.PReserve? || pc.CReserve? {
      AttemptWeighs(s, t, call);
    } else if ProdReserved(pc) || ConsReserved(pc) {
      WorkWeighs(s, t, call);
    } else {
      ReadWeighs(s, t, call);
    }
  }

  /** Every step of a call in progress lowers the total, unless it is a failing tail test. */
  lemma StepLowers(s: State, t: nat, call: Call)
    requires Inv(s) && Allowed(s, t, call) && !s.m.pcs[t].Idle? && !Spins(s, t)
    ensures |Next(s, t, call).m.pcs| == |Next(s, t, call).g.marks|
    ensures Total(Next(s, t, call)) < Total(s)
  {
    var s' := Next(s, t, call);
    forall u | 0 <= u < |s.m.pcs| && u != t
      ensures Weight(s', u) <= Weight(s, u) + if Reserves(s, t) then 4 else 0
    {
      OthersWeigh(s, t, call, u);
    }
    if Reserves(s, t) {
      ReserveWeighs(s, t, call);
    } else {
      MoverWeighs(s, t, call);
    }
    SumMoves(s, s', t, |s.m.pcs|, Reserves(s, t));
  }

  /** What a new call adds. */
  function PerCall(size: nat, threads: nat): nat {
    Attempt(size, threads) + 3
  }

  lemma StartRaises(s: State, t: nat, call: Call)
    requires Inv(s) && Allowed(s, t, call) && s.m.pcs[t].Idle?
    ensures |Next(s, t, call).m.pcs| == |Next(s, t, call).g.marks|
    ensures Total(Next(s, t, call)) <= Total(s) + PerCall(s.m.sh.size, |s.m.pcs|)
    ensures forall u :: 0 <= u < |s.m.pcs| && u != t ==> Next(s, t, call).m.pcs[u] == s.m.pcs[u] && (Spins(Next(s, t, call), u) <==> Spins(s, u))
  {
    var s' := Next(s, t, call);
    forall u | 0 <= u < |s.m.pcs| && u != t
      ensures Weight(s', u) <= Weight(s, u)
    {
      OthersWeigh(s, t, call, u);
    }
    SumMoves(s, s', t, |s.m.pcs|, false);
  }

  // ----- somebody can move

  ghost predicate Busy(s: State) {
    exists t :: 0 <= t < |s.m.pcs| && !s.m.pcs[t].Idle?
  }

  /** While a call is in progress, some thread in a call has a step that is no failing tail test. */
  lemma SomeoneMoves(s: State) returns (u: nat)
    requires Inv(s) && Busy(s)
    ensures Ready(s, u)
  {
    var t :| 0 <= t < |s.m.pcs| && !s.m.pcs[t].Idle?;
    if Spins(s, t) {
      TailTestExact(s, t);
      u := Leader(s, t);
      LeaderAlone(s, t);
      LeaderReady(s, t, Dequeue(1));
      if Spins(s, u) {
        SpinStands(s, u, Dequeue(1));
      }
    } else {
      u := t;
    }
  }

  // ----- windows

  /** What the calls add that are started in a run. */
  ghost function Started(s: State, moves: seq<Move>): nat
    requires Sized(s) && AllowedRun(s, moves)
    decreases |moves|
  {
    if moves == [] then 0
    else (if s.m.pcs[moves[0].t].Idle? then 1 else 0) + Started(Next(s, moves[0].t, moves[0].call), moves[1..])
  }

  ghost function Price(s: State, calls: nat): nat {
    Times(calls, PerCall(s.m.sh.size, |s.m.pcs|))
  }

  lemma PriceAdds(s: State, a: nat, b: nat)
    ensures Price(s, a + b) == Price(s, a) + Price(s, b)
  {
    TimesAdds(a, b, PerCall(s.m.sh.size, |s.m.pcs|));
  }

  lemma {:induction false} TimesAdds(a: nat, b: nat, m: nat)
    ensures Times(a + b, m) == Times(a, m) + Times(b, m)
  {
    if a > 0 {
      TimesAdds(a - 1, b, m);
    }
  }

  lemma {:induction false} TimesIsProduct(d: nat, m: nat)
    ensures Times(d, m) == d * m
  {
    if d > 0 {
      TimesIsProduct(d - 1, m);
    }
  }

  lemma OneStepTotal(s: State, t: nat, call: Call)
    requires Inv(s) && Allowed(s, t, call)
    ensures Inv(Next(s, t, call))
    ensures Total(Next(s, t, call)) <= Total(s) + Price(s, if s.m.pcs[t].Idle? then 1 else 0)
    ensures !s.m.pcs[t].Idle? && !Spins(s, t) ==> Total(Next(s, t, call)) < Total(s)
  {
    StepKeepsInv(s, t, call);
    if s.m.pcs[t].Idle? {
      StartRaises(s, t, call);
    } else if Spins(s, t) {
      SpinStands(s, t, call);
    } else {
      StepLowers(s, t, call);
    }
  }

  lemma FirstMove(s: State, moves: seq<Move>)
    requires Sized(s) && AllowedRun(s, moves) && moves != []
    ensures var t, s' := moves[0].t, Next(s, moves[0].t, moves[0].call);
            && Allowed(s, t, moves[0].call) && AllowedRun(s', moves[1..])
            && Exec(s, moves) == Exec(s', moves[1..])
            && Price(s, Started(s, moves)) == Price(s, if s.m.pcs[t].Idle? then 1 else 0) + Price(s', Started(s', moves[1..]))
  {
    FirstRest(s, moves);
    PriceKept(s, Next(s, moves[0].t, moves[0].call), if s.m.pcs[moves[0].t].Idle? then 1 else 0,
              Started(Next(s, moves[0].t, moves[0].call), moves[1..]), Started(s, moves));
  }

  lemma FirstRest(s: State, moves: seq<Move>)
    requires Sized(s) && AllowedRun(s, moves) && moves != []
    ensures var t, s' := moves[0].t, Next(s, moves[0].t, moves[0].call);
            && Allowed(s, t, moves[0].call) && AllowedRun(s', moves[1..])
            && Exec(s, moves) == Exec(s', moves[1..])
            && Started(s, moves) == (if s.m.pcs[t].Idle? then 1 else 0) + Started(s', moves[1..])
  {
  }

  lemma {:induction false} RunTotal(s: State, moves: seq<Move>)
    requires Inv(s) && AllowedRun(s, moves)
    ensures Inv(Exec(s, moves)) && Total(Exec(s, moves)) <= Total(s) + Price(s, Started(s, moves))
    decreases |moves|
  {
    if moves != [] {
      var t, call := moves[0].t, moves[0].call;
      FirstMove(s, moves);
      OneStepTotal(s, t, call);
      RunTotal(Next(s, t, call), moves[1..]);
    }
  }

  /** A run in which some thread that can make progress moves costs at least one. */
  lemma {:induction false} RunLowers(s: State, moves: seq<Move>, u: nat)
    requires Inv(s) && AllowedRun(s, moves) && Ready(s, u) && Moves(moves, u)
    ensures Inv(Exec(s, moves)) && Total(Exec(s, moves)) + 1 <= Total(s) + Price(s, Started(s, moves))
    decreases |moves|
  {
    FirstMove(s, moves);
    OneStepTotal(s, moves[0].t, moves[0].call);
    if Ready(s, moves[0].t) {
      RunTotal(Next(s, moves[0].t, moves[0].call), moves[1..]);
    } else {
      StillReady(s, moves[0].t, moves[0].call, u);
      MovesLater(moves, u);
      RunLowers(Next(s, moves[0].t, moves[0].call), moves[1..], u);
    }
  }

  /** Inside a call, and not at a failing tail test. */
  ghost predicate Ready(s: State, u: nat) {
    u < |s.m.pcs| && !s.m.pcs[u].Idle? && !Spins(s, u)
  }

  lemma MovesLater(moves: seq<Move>, u: nat)
    requires Moves(moves, u) && moves[0].t != u
    ensures Moves(moves[1..], u)
  {
    var i :| 0 <= i < |moves| && moves[i].t == u;
    assert moves[1..][i - 1].t == u;
  }

  lemma StillReady(s: State, t: nat, call: Call, u: nat)
    requires Inv(s) && Allowed(s, t, call) && (s.m.pcs[t].Idle? || Spins(s, t))
    requires Ready(s, u)
    ensures u != t && !Next(s, t, call).m.pcs[u].Idle? && !Spins(Next(s, t, call), u)
  {
    if s.m.pcs[t].Idle? {
      StartRaises(s, t, call);
    } else {
      SpinStands(s, t, call);
    }
  }

  /** Runs in windows: every thread that is inside a call when a window begins moves in it. */
  ghost predicate Windows(s: State, ws: seq<seq<Move>>)
    requires Sized(s)
    decreases |ws|
  {
    ws == [] || (
      && AllowedRun(s, ws[0])
      && (forall t :: 0 <= t < |s.m.pcs| && !s.m.pcs[t].Idle? ==> Moves(ws[0], t))
      && Windows(Exec(s, ws[0]), ws[1..]))
  }

  /** In how many windows a call is in progress at the beginning, and how many calls are started. */
  ghost function BusyWindows(s: State, ws: seq<seq<Move>>): nat
    requires Sized(s) && Windows(s, ws)
    decreases |ws|
  {
    if ws == [] then 0 else (if Busy(s) then 1 else 0) + BusyWindows(Exec(s, ws[0]), ws[1..])
  }

  ghost function CallsIn(s: State, ws: seq<seq<Move>>): nat
    requires Sized(s) && Windows(s, ws)
    decreases |ws|
  {
    if ws == [] then 0 else Started(s, ws[0]) + CallsIn(Exec(s, ws[0]), ws[1..])
  }

  lemma WindowPays(s: State, w: seq<Move>)
    requires Inv(s) && AllowedRun(s, w)
    requires forall t :: 0 <= t < |s.m.pcs| && !s.m.pcs[t].Idle? ==> Moves(w, t)
    ensures Inv(Exec(s, w))
    ensures Total(Exec(s, w)) + (if Busy(s) then 1 else 0) <= Total(s) + Price(s, Started(s, w))
  {
    if Busy(s) {
      var u := SomeoneMoves(s);
      RunLowers(s, w, u);
    } else {
      RunTotal(s, w);
    }
  }

  /**
    In a fair schedule the windows in which calls are in progress are bounded by what was in
    progress at the beginning and a fixed price for each call that is started.
   */
  lemma {:induction false} CallsArePaid(s: State, ws: seq<seq<Move>>)
    requires Inv(s) && Windows(s, ws)
    ensures BusyWindows(s, ws) <= Total(s) + Price(s, CallsIn(s, ws))
    decreases |ws|
  {
    if ws != [] {
      FirstWindow(s, ws);
      FirstCounts(s, ws);
      PriceKept(s, Exec(s, ws[0]), Started(s, ws[0]), CallsIn(Exec(s, ws[0]), ws[1..]), CallsIn(s, ws));
      WindowPays(s, ws[0]);
      CallsArePaid(Exec(s, ws[0]), ws[1..]);
    }
  }

  lemma FirstWindow(s: State, ws: seq<seq<Move>>)
    requires Sized(s) && Windows(s, ws) && ws != []
    ensures AllowedRun(s, ws[0]) && Windows(Exec(s, ws[0]), ws[1..])
    ensures forall t :: 0 <= t < |s.m.pcs| && !s.m.pcs[t].Idle? ==> Moves(ws[0], t)
  {
  }

  lemma FirstCounts(s: State, ws: seq<seq<Move>>)
    requires Sized(s) && Windows(s, ws) && ws != []
    ensures BusyWindows(s, ws) == (if Busy(s) then 1 else 0) + BusyWindows(Exec(s, ws[0]), ws[1..])
    ensures CallsIn(s, ws) == Started(s, ws[0]) + CallsIn(Exec(s, ws[0]), ws[1..])
  {
  }

  lemma PriceKept(s: State, s': State, a: nat, b: nat, c: nat)
    requires c == a + b && s'.m.sh.size == s.m.sh.size && |s'.m.pcs| == |s.m.pcs|
    ensures Price(s, c) == Price(s, a) + Price(s', b)
  {
    PriceAdds(s, a, b);
  }

  lemma {:induction false} NothingLeft(s: State, k: nat)
    requires k <= |s.m.pcs| == |s.g.marks| && forall t :: 0 <= t < |s.m.pcs| ==> s.m.pcs[t].Idle?
    ensures Sum(s, k) == 0
  {
    if k > 0 {
      NothingLeft(s, k - 1);
    }
  }

  /** From creation: at most size + 4 threads + 11 busy windows for each call. */
  lemma EachCallIsBounded(s: State, ws: seq<seq<Move>>)
    requires Init(s) && Windows(s, ws)
    ensures BusyWindows(s, ws) <= CallsIn(s, ws) * (s.m.sh.size + 4 * |s.m.pcs| + 11)
  {
    InitKeepsInv(s);
    CallsArePaid(s, ws);
    TimesIsProduct(CallsIn(s, ws), PerCall(s.m.sh.size, |s.m.pcs|));
    NothingLeft(s, |s.m.pcs|);
  }

  ghost function RunWindows(s: State, ws: seq<seq<Move>>): (s': State)
    requires Sized(s) && Windows(s, ws)
    ensures Sized(s') && |s'.m.pcs| == |s.m.pcs|
    decreases |ws|
  {
    if ws == [] then s else RunWindows(Exec(s, ws[0]), ws[1..])
  }

  lemma {:induction false} IdleStays(s: State, ws: seq<seq<Move>>)
    requires Sized(s) && Windows(s, ws) && CallsIn(s, ws) == 0 && !Busy(s)
    ensures !Busy(RunWindows(s, ws))
    decreases |ws|
  {
    if ws != [] {
      assert ws[0] == [];
      IdleStays(Exec(s, ws[0]), ws[1..]);
    }
  }

  lemma {:induction false} BusyToTheEnd(s: State, ws: seq<seq<Move>>)
    requires Sized(s) && Windows(s, ws) && CallsIn(s, ws) == 0 && Busy(RunWindows(s, ws))
    ensures BusyWindows(s, ws) == |ws|
    decreases |ws|
  {
    if ws != [] {
      if !Busy(s) {
        IdleStays(s, ws);
      }
      BusyToTheEnd(Exec(s, ws[0]), ws[1..]);
    }
  }

  /** When no more calls are started, all calls in progress return within Total(s) windows. */
  lemma AllReturn(s: State, ws: seq<seq<Move>>)
    requires Inv(s) && Windows(s, ws) && CallsIn(s, ws) == 0 && |ws| > Total(s)
    ensures forall t :: 0 <= t < |s.m.pcs| ==> RunWindows(s, ws).m.pcs[t].Idle?
  {
    CallsArePaid(s, ws);
    if Busy(RunWindows(s, ws)) {
      BusyToTheEnd(s, ws);
    }
  }
}
