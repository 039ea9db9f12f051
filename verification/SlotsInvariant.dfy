/**
  The lock-step of benchmark 503: neither io thread is ever more than a round away from the
  application, no ring overflows, and every tested payload is the number of its round.
 */
module SlotsInvariant {
  import opened Words
  import opened SlotsProtocol

  // ----- counting messages

  function One(b: bool): nat {
    if b then 1 else 0
  }

  /** Waiting for, or looking at, the message of the round. */
  predicate Receiving(pc: IoPc) {
    pc.IoTake? || pc.IoStore? || pc.IoLoad? || pc.IoTest?
  }

  predicate Holding(pc: IoPc) {
    pc.IoStore? || pc.IoLoad? || pc.IoTest?
  }

  /** Messages the io thread has put on ring app1 (r = 0) or app2 (r = 1). */
  function Sent(io: Io, r: int): nat {
    io.tested + One(Receiving(io.pc) || (r == 0 && (io.pc.IoCount2? || io.pc.IoSend2?)))
  }

  /** Messages it has taken off its own ring. */
  function Taken(io: Io): nat {
    io.tested + One(Holding(io.pc))
  }

  /** Messages the application has taken off ring app1 (r = 0) or app2 (r = 1). */
  function Drawn(s: State, r: int): nat
    requires Typed(s) && 0 <= r < 2
  {
    2 * s.round + (
      if s.app.Scan? then One(s.got[r]) + One(s.got[r + 2])
      else if s.app.AppDone? then 0
      else 2)
  }

  /** Messages the application has put on ring out1 (x = 0) or out2 (x = 1). */
  function Given(s: State, x: int): nat {
    s.round + One(x == 0 && (s.app.AppCount2? || s.app.AppSend2?))
  }

  predicate Sending(s: State) {
    s.app.AppCount1? || s.app.AppSend1? || s.app.AppCount2? || s.app.AppSend2?
  }

  // ----- the invariant

  ghost predicate AppOk(s: State)
    requires Typed(s)
  {
    && 1 <= s.n < TWO32 && s.round <= s.n
    && (s.app.AppDone? <==> s.round == s.n)
    && s.outPay[0] == s.round + One(s.app.AppSend1? || s.app.AppCount2? || s.app.AppSend2?)
    && s.outPay[1] == s.round + One(s.app.AppSend2?)
  }

  ghost predicate RingsOk(s: State)
    requires Typed(s)
  {
    && |s.into[0]| == Sent(s.io[0], 0) + Sent(s.io[1], 0) - Drawn(s, 0)
    && |s.into[1]| == Sent(s.io[0], 1) + Sent(s.io[1], 1) - Drawn(s, 1)
    && (forall a :: a in s.into[0] ==> a == InMsg1)
    && (forall a :: a in s.into[1] ==> a == InMsg2)
    && (forall a :: a in s.out[0] ==> a == OutMsg1)
    && (forall a :: a in s.out[1] ==> a == OutMsg2)
  }

  /** The address that reaches io thread x through its ring. */
  function OutMsg(x: int): Addr {
    if x == 0 then OutMsg1 else OutMsg2
  }

  /** The pointer's target carries the number of the round x is in. */
  ghost predicate Fresh(s: State, x: int, a: Addr)
    requires Typed(s) && 0 <= x < 2
  {
    && (a == OutMsg1 || a == OutMsg2)
    && Payload(s, a) == s.io[x].tested + 1
    && (s.app.AppCount2? ==> a == OutMsg1)
  }

  ghost predicate IoOk(s: State, x: int)
    requires Typed(s) && 0 <= x < 2
  {
    var io := s.io[x];
    && io.tested <= Given(s, x) <= io.tested + 1
    && |s.out[x]| == Given(s, x) - Taken(io)
    && (Given(s, x) == io.tested + 1 ==> Receiving(io.pc))
    && (Sending(s) && Given(s, x) == s.round ==> io.tested == s.round && io.pc.IoTake?)
    && (io.pc.IoDone? <==> io.tested == s.n)
    && (io.pc.IoStore? ==> io.pc.taken == OutMsg(x))
    && (io.pc.IoLoad? ==> Fresh(s, x, s.shared))
    && (io.pc.IoTest? ==> Fresh(s, x, io.pc.ptr))
  }

  ghost predicate Inv(s: State) {
    Typed(s) && AppOk(s) && RingsOk(s) && IoOk(s, 0) && IoOk(s, 1)
  }

  lemma InitInv(s: State)
    requires Init(s)
    ensures Inv(s)
  {
  }

  // ----- what the invariant says

  /** Rings app1 and app2 never hold more than two messages, out1 and out2 never more than one. */
  lemma RingsSmall(s: State)
    requires Inv(s)
    ensures |s.into[0]| <= 2 && |s.into[1]| <= 2 && |s.out[0]| <= 1 && |s.out[1]| <= 1
  {
  }

  /**
    Positions 1 and 3 of the scan draw from app1, positions 2 and 4 from app2: an open position
    takes the oldest message, and the scan goes on to the next position or to the answers.
   */
  lemma ScanTakes(s: State)
    requires Inv(s) && s.app.Scan?
    ensures var at, s' := s.app.at, AppStep(s);
            var ring := if at == 1 || at == 3 then s.into[0] else s.into[1];
            var takes := !s.got[at - 1] && ring != [];
            && s'.got == (if takes then s.got[at - 1 := true] else s.got)
            && s'.into[0] == (if takes && (at == 1 || at == 3) then s.into[0][1..] else s.into[0])
            && s'.into[1] == (if takes && (at == 2 || at == 4) then s.into[1][1..] else s.into[1])
            && (s'.app.AppCount1? <==> at == 4 && s'.got == [true, true, true, true])
            && (s'.app.Scan? ==> s'.app.at == if at == 4 then 1 else at + 1)
  {
  }

  /** An io thread draws from its own ring: the first from out1, the second from out2. */
  lemma IoTakes(s: State, x: int, v: u32)
    requires Inv(s) && 0 <= x < 2 && s.io[x].pc.IoTake? && s.out[x] != []
    ensures var s' := IoStep(s, x, v);
            && s'.out[x] == s.out[x][1..] && s'.out[1 - x] == s.out[1 - x]
            && s'.io[x].pc == IoStore(if x == 0 then OutMsg1 else OutMsg2)
  {
    if x == 0 {
      assert s.out[0][0] in s.out[0];
    } else {
      assert s.out[1][0] in s.out[1];
    }
  }

  /** A full scan means that both io threads have sent their round and wait for the answer. */
  lemma Barrier(s: State)
    requires Inv(s) && s.app.Scan? && AllGot(s)
    ensures forall x :: 0 <= x < 2 ==> s.io[x].tested == s.round && s.io[x].pc.IoTake?
    ensures s.into == [[], []] && s.out == [[], []]
  {
  }

  // ----- every step keeps it

  lemma TailIn(q: seq<Addr>)
    requires |q| > 0
    ensures q[0] in q && forall a :: a in q[1..] ==> a in q
  {
  }

  /** An open position that takes a message. */
  lemma DrawKeepsInv(s: State, s': State, at: int)
    requires Inv(s) && s.app.Scan? && 1 <= at <= 4 && !s.got[at - 1] && |s.into[RingAt(at)]| > 0
    requires var r := RingAt(at);
             s' == s.(got := s.got[at - 1 := true], into := s.into[r := s.into[r][1..]])
    ensures Inv(s')
  {
    TailIn(s.into[RingAt(at)]);
  }

  // Where the scan stands matters to nobody else, until it is complete.
  lemma MoveOnKeepsInv(s: State, at: int)
    requires Inv(s) && s.app.Scan? && 1 <= at <= 4
    ensures Inv(s.(app := NextAt(s, at)))
  {
    if at == 4 && AllGot(s) {
      Barrier(s);
    }
  }

  lemma ScanKeepsInv(s: State)
    requires Inv(s) && s.app.Scan?
    ensures Inv(AppStep(s))
  {
    var at := s.app.at;
    var r := RingAt(at);
    if !s.got[at - 1] && |s.into[r]| > 0 {
      var s' := s.(got := s.got[at - 1 := true], into := s.into[r := s.into[r][1..]]);
      DrawKeepsInv(s, s', at);
      MoveOnKeepsInv(s', at);
    } else {
      MoveOnKeepsInv(s, at);
    }
  }

  lemma AppKeepsInv(s: State)
    requires Inv(s)
    ensures Inv(AppStep(s))
  {
    RingsSmall(s);
    match s.app
    case Scan(_) => ScanKeepsInv(s);
    case _ =>
  }

  lemma CountKeepsInv(s: State, x: int, v: u32)
    requires Inv(s) && 0 <= x < 2 && (s.io[x].pc.IoCount1? || s.io[x].pc.IoCount2? || s.io[x].pc.IoDone?)
    ensures Inv(IoStep(s, x, v))
  {
    if s.io[x].pc.IoCount1? {
      Count1KeepsInv(s, x, v);
    } else if s.io[x].pc.IoCount2? {
      Count2KeepsInv(s, x, v);
    }
  }

  lemma Count1KeepsInv(s: State, x: int, v: u32)
    requires Inv(s) && 0 <= x < 2 && s.io[x].pc.IoCount1?
    ensures Inv(IoStep(s, x, v))
  {
  }

  lemma Count2KeepsInv(s: State, x: int, v: u32)
    requires Inv(s) && 0 <= x < 2 && s.io[x].pc.IoCount2?
    ensures Inv(IoStep(s, x, v))
  {
  }

  lemma SendKeepsInv(s: State, x: int, v: u32)
    requires Inv(s) && 0 <= x < 2 && (s.io[x].pc.IoSend1? || s.io[x].pc.IoSend2?)
    ensures Inv(IoStep(s, x, v))
  {
    if s.io[x].pc.IoSend1? {
      Send1KeepsInv(s, x, v);
    } else {
      Send2KeepsInv(s, x, v);
    }
  }

  lemma Send1KeepsInv(s: State, x: int, v: u32)
    requires Inv(s) && 0 <= x < 2 && s.io[x].pc.IoSend1?
    ensures Inv(IoStep(s, x, v))
  {
    RingsSmall(s);
    assert IoOk(IoStep(s, x, v), 1 - x);
  }

  lemma Send2KeepsInv(s: State, x: int, v: u32)
    requires Inv(s) && 0 <= x < 2 && s.io[x].pc.IoSend2?
    ensures Inv(IoStep(s, x, v))
  {
    RingsSmall(s);
    assert IoOk(IoStep(s, x, v), 1 - x);
  }

  lemma TakeKeepsInv(s: State, x: int, v: u32)
    requires Inv(s) && 0 <= x < 2 && s.io[x].pc.IoTake?
    ensures Inv(IoStep(s, x, v))
  {
    if |s.out[x]| > 0 {
      TailIn(s.out[x]);
      assert s.out[x][0] == OutMsg(x);
    }
  }

  /** A stored pointer is fresh for its owner, and for the other thread if that one is looking. */
  lemma StoreKeepsInv(s: State, x: int, v: u32)
    requires Inv(s) && 0 <= x < 2 && s.io[x].pc.IoStore?
    ensures Inv(IoStep(s, x, v))
  {
  }

  lemma LoadKeepsInv(s: State, x: int, v: u32)
    requires Inv(s) && 0 <= x < 2 && s.io[x].pc.IoLoad?
    ensures Inv(IoStep(s, x, v))
  {
  }

  lemma TestKeepsInv(s: State, x: int, v: u32)
    requires Inv(s) && 0 <= x < 2 && s.io[x].pc.IoTest?
    ensures Inv(IoStep(s, x, v))
  {
    assert Given(s, x) == s.io[x].tested + 1;
  }

  lemma StepKeepsInv(s: State, k: Tick)
    requires Inv(s) && ValidTick(k)
    ensures Inv(Step(s, k))
  {
    match k
    case App => AppKeepsInv(s);
    case OfIo(x, v) =>
      match s.io[x].pc
      case IoTake => TakeKeepsInv(s, x, v);
      case IoStore(_) => StoreKeepsInv(s, x, v);
      case IoLoad => LoadKeepsInv(s, x, v);
      case IoTest(_) => TestKeepsInv(s, x, v);
      case IoSend1 => SendKeepsInv(s, x, v);
      case IoSend2 => SendKeepsInv(s, x, v);
      case _ => CountKeepsInv(s, x, v);
  }
}
