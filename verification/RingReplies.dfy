/**
  What callers see: for each call that returns, its arguments, its return value and the objects
  it hands out.
 */
module RingReplies {
  import opened Words
  import opened RingMachine
  import opened RingInvariant
  import opened RingSafety
  import opened RingRuns
  import opened RingProperties

  predicate Runs(m: Machine, moves: seq<Move>) {
    1 <= m.sh.size < TWO32 && |m.sh.slots| == m.sh.size && forall i :: 0 <= i < |moves| ==> moves[i].t < |m.pcs|
  }

  // ----- the call a thread is in

  /** For each thread the last call it has made. */
  type Asked = seq<Option<Call>>

  function Nobody(n: nat): (asked: Asked)
    ensures |asked| == n && forall t :: 0 <= t < n ==> asked[t] == None
  {
    seq(n, _ => None)
  }

  function Asking(asked: Asked, m: Machine, move: Move): (after: Asked)
    requires move.t < |m.pcs| == |asked|
    ensures |after| == |asked|
  {
    if m.pcs[move.t].Idle? then asked[move.t := Some(move.call)] else asked
  }

  /** The last calls after a run. */
  function LastCalls(m: Machine, moves: seq<Move>, asked: Asked): (after: Asked)
    requires Runs(m, moves) && |asked| == |m.pcs|
    ensures |after| == |asked|
    decreases |moves|
  {
    if moves == [] then asked
    else LastCalls(MachineStep(m, moves[0].t, moves[0].call), moves[1..], Asking(asked, m, moves[0]))
  }

  /** A thread inside an operation works on the arguments of its call. */
  predicate Serves(pc: Pc, call: Option<Call>) {
    (IsProducing(pc) ==> call == Some(Enqueue(pc.objs))) && (IsConsuming(pc) ==> call == Some(Dequeue(pc.n)))
  }

  predicate AllServe(m: Machine, asked: Asked) {
    |asked| == |m.pcs| && forall t :: 0 <= t < |m.pcs| ==> Serves(m.pcs[t], asked[t])
  }

  lemma StepServes(m: Machine, move: Move, asked: Asked)
    requires 1 <= m.sh.size < TWO32 && |m.sh.slots| == m.sh.size && move.t < |m.pcs| && AllServe(m, asked)
    ensures AllServe(MachineStep(m, move.t, move.call), Asking(asked, m, move))
  {
  }

  /** In every run, each thread inside an enqueue has the objects of its last call, inside a dequeue the count. */
  lemma {:induction false} CallsServed(m: Machine, moves: seq<Move>, asked: Asked)
    requires Runs(m, moves) && AllServe(m, asked)
    ensures AllServe(Drive(m, moves), LastCalls(m, moves, asked))
    decreases |moves|
  {
    if moves != [] {
      StepServes(m, moves[0], asked);
      CallsServed(MachineStep(m, moves[0].t, moves[0].call), moves[1..], Asking(asked, m, moves[0]));
    }
  }

  // ----- replies

  /** `stored`: the call was an enqueue that got to its tail store. */
  datatype Reply = Reply(call: Call, ret: int, out: seq<Obj>, stored: bool)

  /** The reply a step gives, if it ends a call. */
  function ReplyOf(m: Machine, move: Move, asked: Asked): seq<Reply>
    requires 1 <= m.sh.size < TWO32 && |m.sh.slots| == m.sh.size && move.t < |m.pcs| == |asked|
  {
    var pc, call := MachineStep(m, move.t, move.call).pcs[move.t], Asking(asked, m, move)[move.t];
    if pc.Idle? && call.Some? then [Reply(call.value, pc.ret, pc.out, m.pcs[move.t].PPublish?)] else []
  }

  function Replies(m: Machine, moves: seq<Move>, asked: Asked): seq<Reply>
    requires Runs(m, moves) && |asked| == |m.pcs|
    decreases |moves|
  {
    if moves == [] then []
    else ReplyOf(m, moves[0], asked) +
         Replies(MachineStep(m, moves[0].t, moves[0].call), moves[1..], Asking(asked, m, moves[0]))
  }

  /** The arguments of the enqueues that were stored, one behind the other. */
  function Accepted(rs: seq<Reply>): seq<Obj> {
    if rs == [] then []
    else (if rs[0].call.Enqueue? && rs[0].stored then rs[0].call.objs else []) + Accepted(rs[1..])
  }

  /** What dequeues handed out, one behind the other. */
  function Delivered(rs: seq<Reply>): seq<Obj> {
    if rs == [] then [] else (if rs[0].call.Dequeue? then rs[0].out else []) + Delivered(rs[1..])
  }

  lemma {:induction false} AcceptedJoin(a: seq<Reply>, b: seq<Reply>)
    ensures Accepted(a + b) == Accepted(a) + Accepted(b)
    decreases |a|
  {
    if a == [] {
      assert a + b == b;
    } else {
      assert (a + b)[1..] == a[1..] + b;
      AcceptedJoin(a[1..], b);
      Assoc(if a[0].call.Enqueue? && a[0].stored then a[0].call.objs else [], Accepted(a[1..]), Accepted(b));
    }
  }

  lemma {:induction false} DeliveredJoin(a: seq<Reply>, b: seq<Reply>)
    ensures Delivered(a + b) == Delivered(a) + Delivered(b)
    decreases |a|
  {
    if a == [] {
      assert a + b == b;
    } else {
      assert (a + b)[1..] == a[1..] + b;
      DeliveredJoin(a[1..], b);
      Assoc(if a[0].call.Dequeue? then a[0].out else [], Delivered(a[1..]), Delivered(b));
    }
  }

  /** A reply that fits its call. */
  predicate Sound(r: Reply) {
    match r.call
    case Enqueue(objs) => r.out == [] && (r.ret == 0 || r.ret == -1) && (r.ret == 0 ==> r.stored)
    case Dequeue(n) => !r.stored && ((r.ret == 0 && |r.out| == n) || (r.ret == -1 && r.out == []))
    case SetWaterMark(count) => !r.stored && r.out == [] && (r.ret == 0 || r.ret == -1)
  }

  // One step: it publishes and returns what its reply says.
  lemma StepReplies(s: State, move: Move, asked: Asked)
    requires Inv(s) && Allowed(s, move.t, move.call) && AllServe(s.m, asked)
    ensures var rs := ReplyOf(s.m, move, asked);
            && Accepted(rs) == Publishes(s.m.pcs[move.t]) && Delivered(rs) == Returns(s.m.pcs[move.t])
            && forall i :: 0 <= i < |rs| ==> Sound(rs[i]) && (s.g.default && rs[i].call.Enqueue? ==> (rs[i].stored <==> rs[i].ret == 0))
  {
    var t, call, pc := move.t, move.call, s.m.pcs[move.t];
    var rs := ReplyOf(s.m, move, asked);
    assert Serves(pc, asked[t]);
    if rs != [] {
      assert rs[1..] == [];
      if IsProducing(pc) {
        EnqueueReturn(s, t, call);
      } else if IsConsuming(pc) {
        DequeueReturn(s, t, call);
      } else if call.SetWaterMark? {
        MarkSet(s, t, call.count);
      }
    } else {
      Unanswered(s, move, asked);
    }
  }

  // Tail stores always end a call.
  lemma Unanswered(s: State, move: Move, asked: Asked)
    requires Inv(s) && Allowed(s, move.t, move.call) && AllServe(s.m, asked) && ReplyOf(s.m, move, asked) == []
    ensures Publishes(s.m.pcs[move.t]) == [] && Returns(s.m.pcs[move.t]) == []
  {
    assert Serves(s.m.pcs[move.t], asked[move.t]);
  }

  ghost predicate AllSound(rs: seq<Reply>) {
    forall i :: 0 <= i < |rs| ==> Sound(rs[i])
  }

  lemma {:induction false} RepliesAreTraffic(s: State, moves: seq<Move>, asked: Asked)
    requires Inv(s) && AllowedRun(s, moves) && AllServe(s.m, asked)
    ensures Runs(s.m, moves) && AllSound(Replies(s.m, moves, asked))
    ensures Accepted(Replies(s.m, moves, asked)) == Inputs(s.m, moves)
    ensures Delivered(Replies(s.m, moves, asked)) == Outputs(s.m, moves)
    decreases |moves|
  {
    AllowedMoves(s, moves);
    if moves != [] {
      var s', rest := Next(s, moves[0].t, moves[0].call), moves[1..];
      StepReplies(s, moves[0], asked);
      StepServes(s.m, moves[0], asked);
      StepKeepsInv(s, moves[0].t, moves[0].call);
      RepliesAreTraffic(s', rest, Asking(asked, s.m, moves[0]));
      AcceptedJoin(ReplyOf(s.m, moves[0], asked), Replies(s'.m, rest, Asking(asked, s.m, moves[0])));
      DeliveredJoin(ReplyOf(s.m, moves[0], asked), Replies(s'.m, rest, Asking(asked, s.m, moves[0])));
    }
  }

  /**
    First in, first out, exactly once, as callers see it: what dequeues have handed out is a
    prefix of the arguments of the stored enqueues, at most size - 1 objects short; every reply
    fits its call.
   */
  lemma FifoOfCalls(s: State, moves: seq<Move>)
    requires Init(s) && AllowedRun(s, moves)
    ensures Runs(s.m, moves)
    ensures var rs := Replies(s.m, moves, Nobody(|s.m.pcs|));
            && AllSound(rs) && Delivered(rs) <= Accepted(rs) && |Accepted(rs)| - |Delivered(rs)| <= s.m.sh.size - 1
  {
    InitKeepsInv(s);
    RepliesAreTraffic(s, moves, Nobody(|s.m.pcs|));
    FifoExactlyOnce(s, moves);
  }

  /** The arguments of the enqueues that returned 0. */
  function Answered(rs: seq<Reply>): seq<Obj> {
    if rs == [] then []
    else (if rs[0].call.Enqueue? && rs[0].ret == 0 then rs[0].call.objs else []) + Answered(rs[1..])
  }

  lemma {:induction false} AnsweredJoin(a: seq<Reply>, b: seq<Reply>)
    ensures Answered(a + b) == Answered(a) + Answered(b)
    decreases |a|
  {
    if a == [] {
      assert a + b == b;
    } else {
      assert (a + b)[1..] == a[1..] + b;
      AnsweredJoin(a[1..], b);
      Assoc(if a[0].call.Enqueue? && a[0].ret == 0 then a[0].call.objs else [], Answered(a[1..]), Answered(b));
    }
  }

  lemma StepAnswers(s: State, move: Move, asked: Asked)
    requires Inv(s) && Allowed(s, move.t, move.call) && AllServe(s.m, asked) && s.g.default
    ensures Answered(ReplyOf(s.m, move, asked)) == Accepted(ReplyOf(s.m, move, asked))
  {
    StepReplies(s, move, asked);
    var rs := ReplyOf(s.m, move, asked);
    if rs != [] {
      assert rs[1..] == [];
    }
  }

  lemma {:induction false} AnsweredIsAccepted(s: State, moves: seq<Move>, asked: Asked)
    requires Inv(s) && AllowedRun(s, moves) && AllServe(s.m, asked) && s.g.default
    requires forall i :: 0 <= i < |moves| ==> moves[i].call.SetWaterMark? ==> moves[i].call.count == 0
    ensures Runs(s.m, moves)
    ensures Answered(Replies(s.m, moves, asked)) == Accepted(Replies(s.m, moves, asked))
    decreases |moves|
  {
    AllowedMoves(s, moves);
    if moves != [] {
      var s', rest, next := Next(s, moves[0].t, moves[0].call), moves[1..], Asking(asked, s.m, moves[0]);
      StepAnswers(s, moves[0], asked);
      StepServes(s.m, moves[0], asked);
      StepKeepsInv(s, moves[0].t, moves[0].call);
      AnsweredIsAccepted(s', rest, next);
      AnsweredJoin(ReplyOf(s.m, moves[0], asked), Replies(s'.m, rest, next));
      AcceptedJoin(ReplyOf(s.m, moves[0], asked), Replies(s'.m, rest, next));
    }
  }

  /** With the default watermark the return values alone tell: dequeues hand out a prefix of what enqueues returned 0 for. */
  lemma FifoOfAnswers(s: State, moves: seq<Move>)
    requires Init(s) && AllowedRun(s, moves)
    requires forall i :: 0 <= i < |moves| ==> moves[i].call.SetWaterMark? ==> moves[i].call.count == 0
    ensures Runs(s.m, moves)
    ensures var rs := Replies(s.m, moves, Nobody(|s.m.pcs|));
            Delivered(rs) <= Answered(rs) && |Answered(rs)| - |Delivered(rs)| <= s.m.sh.size - 1
  {
    InitKeepsInv(s);
    AnsweredIsAccepted(s, moves, Nobody(|s.m.pcs|));
    FifoOfCalls(s, moves);
  }
}
