/**
  The in-order hand-off of the tails makes progress: a waiting thread waits for one other
  thread, which can always move, and every fair schedule lets the waiting thread through.
 */
module RingProgress {
  import opened RingMachine
  import opened RingInvariant
  import opened RingSafety
  import opened RingRuns

  /** Waiting for earlier reservations to be published. */
  ghost predicate Blocked(s: State, t: nat)
    requires t < |s.m.pcs| == |s.g.marks|
  {
    || (s.m.pcs[t].PAwait? && s.g.marks[t].head != s.g.pt)
    || (s.m.pcs[t].CAwait? && s.g.marks[t].head != s.g.ct)
  }

  /** The thread everybody on t's side waits for. */
  ghost function Leader(s: State, t: nat): (u: nat)
    requires Inv(s) && t < |s.m.pcs| && Blocked(s, t)
    ensures u < |s.m.pcs|
  {
    assert ThreadOk(s.m.sh, s.g, t, s.m.pcs[t], s.g.marks[t]);
    if s.m.pcs[t].PAwait? then
      ProdAtTail(s); s.g.powner[s.g.pt]
    else
      ConsAtTail(s); s.g.cowner[s.g.ct]
  }

  /** Steps a thread still has to make, at most, before it has stored the tail. */
  function Work(pc: Pc): nat {
    match pc
    case PWrite(objs, _, _, i) => (if i <= |objs| then |objs| - i else 0) + 4
    case PReadMark(_, _, _) => 3
    case PAwait(_, _, _) => 2
    case PPublish(_, _, _) => 1
    case CRead(n, _, buf) => (if |buf| <= n then n - |buf| else 0) + 3
    case CAwait(_, _, _) => 2
    case CPublish(_, _, _) => 1
    case _ => 0
  }

  /** The leader starts at the tail, alone, and its next step is not a spin. */
  lemma LeaderReady(s: State, t: nat, call: Call)
    requires Inv(s) && t < |s.m.pcs| && Blocked(s, t)
    ensures var u := Leader(s, t);
            && u != t && !Blocked(s, u)
            && Next(s, u, call).m.pcs[u] != s.m.pcs[u]
            && (s.m.pcs[t].PAwait? ==>
                  forall v :: 0 <= v < |s.m.pcs| ==>
                    (ProdReserved(s.m.pcs[v]) && s.g.marks[v].head == s.g.pt <==> v == u))
            && (s.m.pcs[t].CAwait? ==>
                  forall v :: 0 <= v < |s.m.pcs| ==>
                    (ConsReserved(s.m.pcs[v]) && s.g.marks[v].head == s.g.ct <==> v == u))
  {
    var u := Leader(s, t);
    assert ThreadOk(s.m.sh, s.g, t, s.m.pcs[t], s.g.marks[t]);
    assert ThreadOk(s.m.sh, s.g, u, s.m.pcs[u], s.g.marks[u]);
    TailTestExact(s, u);
    LeaderAlone(s, t);
    LeaderSteps(s, t, call);
  }

  lemma LeaderAlone(s: State, t: nat)
    requires Inv(s) && t < |s.m.pcs| && Blocked(s, t)
    ensures s.m.pcs[t].PAwait? ==>
              && ProdReserved(s.m.pcs[Leader(s, t)])
              && forall v :: 0 <= v < |s.m.pcs| ==>
                (ProdReserved(s.m.pcs[v]) && s.g.marks[v].head == s.g.pt <==> v == Leader(s, t))
    ensures s.m.pcs[t].CAwait? ==>
              && ConsReserved(s.m.pcs[Leader(s, t)])
              && forall v :: 0 <= v < |s.m.pcs| ==>
                (ConsReserved(s.m.pcs[v]) && s.g.marks[v].head == s.g.ct <==> v == Leader(s, t))
  {
    assert ThreadOk(s.m.sh, s.g, t, s.m.pcs[t], s.g.marks[t]);
    if s.m.pcs[t].PAwait? {
      ProdAtTail(s);
      forall v | 0 <= v < |s.m.pcs| && ProdReserved(s.m.pcs[v]) && s.g.marks[v].head == s.g.pt
        ensures v == s.g.powner[s.g.pt]
      {
        assert ThreadOk(s.m.sh, s.g, v, s.m.pcs[v], s.g.marks[v]);
      }
    } else {
      ConsAtTail(s);
      forall v | 0 <= v < |s.m.pcs| && ConsReserved(s.m.pcs[v]) && s.g.marks[v].head == s.g.ct
        ensures v == s.g.cowner[s.g.ct]
      {
        assert ThreadOk(s.m.sh, s.g, v, s.m.pcs[v], s.g.marks[v]);
      }
    }
  }

  lemma LeaderWork(s: State, t: nat)
    requires Inv(s) && t < |s.m.pcs| && Blocked(s, t)
    ensures 1 <= Work(s.m.pcs[Leader(s, t)]) <= s.m.sh.size + 3
  {
    var u := Leader(s, t);
    LeaderAlone(s, t);
    assert ThreadOk(s.m.sh, s.g, u, s.m.pcs[u], s.g.marks[u]);
  }

  /** A step of the leader uses up work; storing the tail ends its reservation. */
  lemma LeaderSteps(s: State, t: nat, call: Call)
    requires Inv(s) && t < |s.m.pcs| && Blocked(s, t)
    ensures var u := Leader(s, t); Work(Next(s, u, call).m.pcs[u]) < Work(s.m.pcs[u])
  {
    LeaderAlone(s, t);
    TailTestExact(s, Leader(s, t));
  }

  // ----- a measure of the wait

  /** Positions still to be published before t's. */
  ghost function Ahead(s: State, t: nat): nat
    requires Inv(s) && t < |s.m.pcs| && Blocked(s, t)
  {
    assert ThreadOk(s.m.sh, s.g, t, s.m.pcs[t], s.g.marks[t]);
    s.g.marks[t].head - (if s.m.pcs[t].PAwait? then s.g.pt else s.g.ct)
  }

  function Times(d: nat, m: nat): nat {
    if d == 0 then 0 else Times(d - 1, m) + m
  }

  /** Positions ahead first, then the leader's remaining work. */
  ghost function Rank(s: State, t: nat): nat
    requires Inv(s) && t < |s.m.pcs| && Blocked(s, t)
  {
    Times(Ahead(s, t), s.m.sh.size + 3) + Work(s.m.pcs[Leader(s, t)])
  }

  // Only the thread at the tail moves it.
  lemma TailHeld(s: State, t: nat, v: nat, call: Call)
    requires Inv(s) && Allowed(s, v, call) && t < |s.m.pcs| && Blocked(s, t) && v != Leader(s, t)
    ensures s.m.pcs[t].PAwait? ==> Next(s, v, call).g.pt == s.g.pt
    ensures s.m.pcs[t].CAwait? ==> Next(s, v, call).g.ct == s.g.ct
  {
    LeaderAlone(s, t);
    assert ThreadOk(s.m.sh, s.g, v, s.m.pcs[v], s.g.marks[v]);
  }

  // Reservations are only ever added behind the existing ones.
  lemma OwnersGrow(s: State, v: nat, call: Call)
    requires Inv(s) && Allowed(s, v, call)
    ensures s.g.powner <= Next(s, v, call).g.powner && s.g.cowner <= Next(s, v, call).g.cowner
    ensures forall u :: 0 <= u < |s.m.pcs| && u != v ==>
              Next(s, v, call).m.pcs[u] == s.m.pcs[u] && Next(s, v, call).g.marks[u] == s.g.marks[u]
  {
  }

  /** A step by anyone else leaves the leader in place, with its work. */
  lemma LeaderUndisturbed(s: State, t: nat, v: nat, call: Call)
    requires Inv(s) && Allowed(s, v, call) && t < |s.m.pcs| && Blocked(s, t) && v != Leader(s, t)
    ensures var s' := Next(s, v, call);
            && Inv(s') && s'.m.pcs[t] == s.m.pcs[t] && s'.g.marks[t] == s.g.marks[t]
            && s'.m.pcs[Leader(s, t)] == s.m.pcs[Leader(s, t)]
            && Blocked(s', t) && Leader(s', t) == Leader(s, t) && Ahead(s', t) == Ahead(s, t)
  {
    StepKeepsInv(s, v, call);
    TailHeld(s, t, v, call);
    OwnersGrow(s, v, call);
    if v == t {
      TailTestExact(s, t);
    }
    TailOwned(s, t);
  }

  lemma TailOwned(s: State, t: nat)
    requires Inv(s) && t < |s.m.pcs| && Blocked(s, t)
    ensures s.m.pcs[t].PAwait? ==> s.g.pt < |s.g.powner| && Leader(s, t) == s.g.powner[s.g.pt]
    ensures s.m.pcs[t].CAwait? ==> s.g.ct < |s.g.cowner| && Leader(s, t) == s.g.cowner[s.g.ct]
  {
    assert ThreadOk(s.m.sh, s.g, t, s.m.pcs[t], s.g.marks[t]);
  }

  // The tail moves by the leader's whole bulk, or not at all.
  lemma LeaderEffect(s: State, t: nat, call: Call)
    requires Inv(s) && t < |s.m.pcs| && Blocked(s, t) && Allowed(s, Leader(s, t), call)
    ensures var u := Leader(s, t); var s' := Next(s, u, call);
            && Inv(s') && s'.m.pcs[t] == s.m.pcs[t] && s'.g.marks[t] == s.g.marks[t]
            && (s.m.pcs[t].PAwait? ==> if s.m.pcs[u].PPublish? then s'.g.pt > s.g.pt else s'.g.pt == s.g.pt && s'.g.powner == s.g.powner)
            && (s.m.pcs[t].CAwait? ==> if s.m.pcs[u].CPublish? then s'.g.ct > s.g.ct else s'.g.ct == s.g.ct && s'.g.cowner == s.g.cowner)
  {
    var u := Leader(s, t);
    StepKeepsInv(s, u, call);
    LeaderReady(s, t, call);
    LeaderAlone(s, t);
    assert ThreadOk(s.m.sh, s.g, u, s.m.pcs[u], s.g.marks[u]);
  }

  lemma {:induction false} TimesGrows(d: nat, d': nat, m: nat)
    requires d' < d
    ensures Times(d', m) + m <= Times(d, m)
    decreases d
  {
    if d' < d - 1 {
      TimesGrows(d - 1, d', m);
    }
  }

  /** No step lengthens the wait, and each step of the leader shortens it. */
  lemma RankFalls(s: State, t: nat, v: nat, call: Call)
    requires Inv(s) && Allowed(s, v, call) && t < |s.m.pcs| && Blocked(s, t)
    ensures Inv(Next(s, v, call))
    ensures Blocked(Next(s, v, call), t) ==> Rank(Next(s, v, call), t) <= Rank(s, t)
    ensures Blocked(Next(s, v, call), t) && v == Leader(s, t) ==> Rank(Next(s, v, call), t) < Rank(s, t)
    ensures v != Leader(s, t) ==> Blocked(Next(s, v, call), t) && Leader(Next(s, v, call), t) == Leader(s, t)
  {
    var s' := Next(s, v, call);
    StepKeepsInv(s, v, call);
    if v != Leader(s, t) {
      LeaderUndisturbed(s, t, v, call);
    } else if Blocked(s', t) {
      LeaderRank(s, t, call);
    }
  }

  // After a step of the leader, fewer positions are ahead, or the leader is still the leader.
  lemma LeaderAhead(s: State, t: nat, call: Call)
    requires Inv(s) && t < |s.m.pcs| && Blocked(s, t) && Allowed(s, Leader(s, t), call)
    requires Inv(Next(s, Leader(s, t), call)) && Blocked(Next(s, Leader(s, t), call), t)
    ensures var s' := Next(s, Leader(s, t), call);
            Ahead(s', t) < Ahead(s, t) || (Ahead(s', t) == Ahead(s, t) && Leader(s', t) == Leader(s, t))
  {
    LeaderEffect(s, t, call);
    TailOwned(s, t);
    TailOwned(Next(s, Leader(s, t), call), t);
  }

  lemma RankDrops(s: State, s': State, t: nat)
    requires Inv(s) && t < |s.m.pcs| && Blocked(s, t)
    requires Inv(s') && t < |s'.m.pcs| && Blocked(s', t) && s'.m.sh.size == s.m.sh.size
    requires Ahead(s', t) < Ahead(s, t) ||
             (Ahead(s', t) == Ahead(s, t) && Work(s'.m.pcs[Leader(s', t)]) < Work(s.m.pcs[Leader(s, t)]))
    ensures Rank(s', t) < Rank(s, t)
  {
    LeaderWork(s, t);
    LeaderWork(s', t);
    if Ahead(s', t) < Ahead(s, t) {
      TimesGrows(Ahead(s, t), Ahead(s', t), s.m.sh.size + 3);
    }
  }

  lemma LeaderRank(s: State, t: nat, call: Call)
    requires Inv(s) && t < |s.m.pcs| && Blocked(s, t) && Allowed(s, Leader(s, t), call)
    requires Inv(Next(s, Leader(s, t), call)) && Blocked(Next(s, Leader(s, t), call), t)
    ensures Rank(Next(s, Leader(s, t), call), t) < Rank(s, t)
  {
    LeaderAhead(s, t, call);
    LeaderSteps(s, t, call);
    RankDrops(s, Next(s, Leader(s, t), call), t);
  }

  // ----- fair schedules

  ghost predicate BlockedThroughout(s: State, t: nat, moves: seq<Move>)
    requires Inv(s) && AllowedRun(s, moves) && t < |s.m.pcs|
    decreases |moves|
  {
    Blocked(s, t) && (moves == [] ||
      (StepKeepsInv(s, moves[0].t, moves[0].call);
       BlockedThroughout(Next(s, moves[0].t, moves[0].call), t, moves[1..])))
  }

  /** Every thread moves at least once. */
  ghost predicate Fair(moves: seq<Move>, threads: nat) {
    forall t :: 0 <= t < threads ==> Moves(moves, t)
  }

  ghost predicate Moves(moves: seq<Move>, t: nat) {
    exists i :: 0 <= i < |moves| && moves[i].t == t
  }

  /** While t stays blocked, its rank falls unless its leader is passed over. */
  lemma {:induction false} BlockedRun(s: State, t: nat, moves: seq<Move>)
    requires Inv(s) && AllowedRun(s, moves) && t < |s.m.pcs| && BlockedThroughout(s, t, moves)
    ensures Inv(Exec(s, moves)) && Blocked(Exec(s, moves), t)
    ensures Rank(Exec(s, moves), t) <= Rank(s, t)
    ensures Moves(moves, Leader(s, t)) ==> Rank(Exec(s, moves), t) < Rank(s, t)
    decreases |moves|
  {
    if moves != [] {
      var v, s' := moves[0].t, Next(s, moves[0].t, moves[0].call);
      StepKeepsInv(s, v, moves[0].call);
      RankFalls(s, t, v, moves[0].call);
      BlockedRun(s', t, moves[1..]);
      if v != Leader(s, t) && Moves(moves, Leader(s, t)) {
        var i :| 0 <= i < |moves| && moves[i].t == Leader(s, t);
        assert moves[1..][i - 1].t == Leader(s', t);
      }
    }
  }

  ghost function Flatten(windows: seq<seq<Move>>): seq<Move> {
    if windows == [] then [] else windows[0] + Flatten(windows[1..])
  }

  /** A run in two pieces. */
  lemma {:induction false} SplitRun(s: State, a: seq<Move>, b: seq<Move>)
    requires Sized(s) && AllowedRun(s, a + b)
    ensures AllowedRun(s, a) && AllowedRun(Exec(s, a), b) && Exec(s, a + b) == Exec(Exec(s, a), b)
    decreases |a|
  {
    if a == [] {
      assert a + b == b;
    } else {
      assert (a + b)[0] == a[0] && (a + b)[1..] == a[1..] + b;
      SplitRun(Next(s, a[0].t, a[0].call), a[1..], b);
    }
  }

  lemma {:induction false} SplitBlocked(s: State, t: nat, a: seq<Move>, b: seq<Move>)
    requires Inv(s) && AllowedRun(s, a + b) && t < |s.m.pcs| && BlockedThroughout(s, t, a + b)
    ensures AllowedRun(s, a) && AllowedRun(Exec(s, a), b) && Inv(Exec(s, a))
    ensures BlockedThroughout(s, t, a) && BlockedThroughout(Exec(s, a), t, b)
    decreases |a|
  {
    if a == [] {
      assert a + b == b;
    } else {
      var s' := Next(s, a[0].t, a[0].call);
      assert (a + b)[0] == a[0] && (a + b)[1..] == a[1..] + b;
      SplitRun(s, a, b);
      BlockedFirst(s, t, a + b);
      SplitBlocked(s', t, a[1..], b);
      BlockedLonger(s, t, a);
    }
  }

  lemma BlockedFirst(s: State, t: nat, moves: seq<Move>)
    requires Inv(s) && AllowedRun(s, moves) && t < |s.m.pcs| && moves != [] && BlockedThroughout(s, t, moves)
    ensures Blocked(s, t) && Inv(Next(s, moves[0].t, moves[0].call))
    ensures BlockedThroughout(Next(s, moves[0].t, moves[0].call), t, moves[1..])
  {
    StepKeepsInv(s, moves[0].t, moves[0].call);
  }

  lemma BlockedLonger(s: State, t: nat, moves: seq<Move>)
    requires Inv(s) && AllowedRun(s, moves) && t < |s.m.pcs| && moves != [] && Blocked(s, t)
    requires Inv(Next(s, moves[0].t, moves[0].call)) && BlockedThroughout(Next(s, moves[0].t, moves[0].call), t, moves[1..])
    ensures BlockedThroughout(s, t, moves)
  {
  }

  lemma {:induction false} WindowsBoundWait(s: State, t: nat, windows: seq<seq<Move>>)
    requires Inv(s) && t < |s.m.pcs| && Blocked(s, t)
    requires AllowedRun(s, Flatten(windows)) && BlockedThroughout(s, t, Flatten(windows))
    requires forall i :: 0 <= i < |windows| ==> Fair(windows[i], |s.m.pcs|)
    ensures |windows| <= Rank(s, t)
    decreases |windows|
  {
    if windows != [] {
      var a, b := windows[0], Flatten(windows[1..]);
      SplitBlocked(s, t, a, b);
      BlockedRun(s, t, a);
      assert Moves(a, Leader(s, t)) by {
        assert Fair(windows[0], |s.m.pcs|);
      }
      forall i | 0 <= i < |windows[1..]|
        ensures Fair(windows[1..][i], |s.m.pcs|)
      {
        assert windows[1..][i] == windows[i + 1];
      }
      WindowsBoundWait(Exec(s, a), t, windows[1..]);
    }
  }

  /**
    A thread that waits to publish is let through: in any run cut into windows in which every
    thread moves, it stops waiting before the windows outnumber its rank.
   */
  lemma WaitEnds(s: State, t: nat, windows: seq<seq<Move>>)
    requires Inv(s) && t < |s.m.pcs| && Blocked(s, t)
    requires AllowedRun(s, Flatten(windows))
    requires forall i :: 0 <= i < |windows| ==> Fair(windows[i], |s.m.pcs|)
    requires |windows| > Rank(s, t)
    ensures !BlockedThroughout(s, t, Flatten(windows))
  {
    if BlockedThroughout(s, t, Flatten(windows)) {
      WindowsBoundWait(s, t, windows);
    }
  }
}
