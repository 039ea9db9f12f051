/**
  History variables for the ring machine and the invariant they let us state.  The counters
  never wrap; the fields of the ring are their residues.  The history is a function of the
  machine's own steps, so it never decides what a thread does.
 */
module RingInvariant {
  import opened Words
  import opened RingMachine

  /** What a thread's two index reads saw, as unbounded counters. */
  datatype Mark = Mark(head: nat, tail: nat)

  datatype History = History(
    ph: nat, pt: nat, ch: nat, ct: nat,   // the four indices, unbounded
    hist: seq<Obj>,                       // object k is the k-th one reserved
    powner: seq<nat>,                     // which thread reserved position k
    cowner: seq<nat>,                     // which thread claimed position k
    sent: seq<Obj>,                       // arguments of enqueues, in publication order
    received: seq<Obj>,                   // results of dequeues, in completion order
    marks: seq<Mark>,
    default: bool                         // the watermark was never set to a smaller value
  )

  datatype State = State(m: Machine, g: History)

  function Fill(t: nat, n: nat): (s: seq<nat>)
    ensures |s| == n && forall k :: 0 <= k < n ==> s[k] == t
  {
    seq(n, _ => t)
  }

  function NextHistory(s: State, t: nat, call: Call): History
    requires t < |s.m.pcs| && |s.g.marks| == |s.m.pcs|
  {
    var sh, g := s.m.sh, s.g;
    match s.m.pcs[t]
    case Idle(_, _) =>
      if call.SetWaterMark? && 0 < call.count < sh.size then g.(default := false) else g
    case PReadHead(_) => g.(marks := g.marks[t := Mark(g.ph, 0)])
    case PReadTail(_, _) => g.(marks := g.marks[t := Mark(g.marks[t].head, g.ct)])
    case PReserve(objs, head, _) =>
      if sh.sp || sh.prodHead == head
      then g.(ph := g.ph + |objs|, hist := g.hist + objs, powner := g.powner + Fill(t, |objs|))
      else g
    case PPublish(objs, _, _) => g.(pt := g.pt + |objs|, sent := g.sent + objs)
    case CReadHead(_) => g.(marks := g.marks[t := Mark(g.ch, 0)])
    case CReadTail(_, _) => g.(marks := g.marks[t := Mark(g.marks[t].head, g.pt)])
    case CReserve(n, head) =>
      if (sh.sc || sh.consHead == head) && n >= 0
      then g.(ch := g.ch + n, cowner := g.cowner + Fill(t, n))
      else g
    case CPublish(n, _, buf) =>
      if n >= 0 then g.(ct := g.ct + n, received := g.received + buf) else g
    case _ => g
  }

  predicate Sized(s: State) {
    1 <= s.m.sh.size < TWO32 && |s.m.sh.slots| == s.m.sh.size && |s.g.marks| == |s.m.pcs|
  }

  /** A step of thread `t`; `call` matters only when the thread is idle. */
  function Next(s: State, t: nat, call: Call): (s': State)
    requires Sized(s) && t < |s.m.pcs|
    ensures Sized(s') && |s'.m.pcs| == |s.m.pcs| && s'.m.sh.size == s.m.sh.size
  {
    State(MachineStep(s.m, t, call), NextHistory(s, t, call))
  }

  // ----- what each thread knows

  /** The thread holds positions [lo, lo + n) of the producer side. */
  ghost predicate HoldsProd(g: History, t: nat, lo: nat, objs: seq<Obj>) {
    && g.pt <= lo && lo + |objs| <= g.ph <= |g.hist| && g.ph <= |g.powner|
    && forall k :: lo <= k < lo + |objs| ==> g.powner[k] == t && g.hist[k] == objs[k - lo]
  }

  ghost predicate HoldsCons(g: History, t: nat, lo: nat, n: nat) {
    && g.ct <= lo && lo + n <= g.ch <= |g.cowner|
    && forall k :: lo <= k < lo + n ==> g.cowner[k] == t
  }

  /** Positions [lo, hi) are in memory. */
  ghost predicate Stored(sh: Shared, g: History, lo: nat, hi: nat)
    requires sh.size >= 1 && |sh.slots| == sh.size
  {
    && hi <= |g.hist|
    && forall k :: lo <= k < hi ==> sh.slots[SlotFor(k, sh.size)] == g.hist[k]
  }

  /** The room a producer computed is the room there was, for positions from `mark.head` on. */
  ghost predicate ExactFree(sh: Shared, g: History, mark: Mark, objs: seq<Obj>, free: int) {
    && mark.tail <= g.ct && mark.tail <= mark.head
    && free == sh.size - 1 + mark.tail - mark.head
    && |objs| <= free <= sh.size - 1
  }

  ghost predicate StatusOk(sh: Shared, g: History, status: int) {
    (status == 0 || status == -1) && (g.default ==> status == 0)
  }

  ghost predicate ThreadOk(sh: Shared, g: History, t: nat, pc: Pc, mark: Mark)
    requires sh.size >= 1 && |sh.slots| == sh.size
  {
    var lo := mark.head;
    match pc
    case Idle(_, _) => true
    case PReadHead(objs) => 1 <= |objs| < TWO32
    case PReadTail(objs, head) =>
      1 <= |objs| < TWO32 && head == Wrap(lo) && lo <= g.ph && (sh.sp ==> lo == g.ph)
    case PReserve(objs, head, free) =>
      && 1 <= |objs| <= free && head == Wrap(lo) && lo <= g.ph && (sh.sp ==> lo == g.ph)
      && mark.tail <= g.ct && lo <= mark.tail + sh.size - 1
      && free == Wrap(sh.size - 1 + mark.tail - lo)
    case PWrite(objs, head, free, i) =>
      && i <= |objs| && |objs| >= 1 && head == Wrap(lo) && HoldsProd(g, t, lo, objs)
      && ExactFree(sh, g, mark, objs, free) && Stored(sh, g, lo, lo + i)
    case PReadMark(objs, head, free) =>
      && |objs| >= 1 && head == Wrap(lo) && HoldsProd(g, t, lo, objs)
      && ExactFree(sh, g, mark, objs, free) && Stored(sh, g, lo, lo + |objs|)
    case PAwait(objs, head, status) =>
      && |objs| >= 1 && head == Wrap(lo) && HoldsProd(g, t, lo, objs)
      && Stored(sh, g, lo, lo + |objs|) && StatusOk(sh, g, status)
    case PPublish(objs, head, status) =>
      && |objs| >= 1 && head == Wrap(lo) && HoldsProd(g, t, lo, objs) && lo == g.pt
      && Stored(sh, g, lo, lo + |objs|) && StatusOk(sh, g, status)
    case CReadHead(n) => 1 <= n < TWO32
    case CReadTail(n, head) =>
      1 <= n < TWO32 && head == Wrap(lo) && lo <= g.ch && (sh.sc ==> lo == g.ch)
    case CReserve(n, head) =>
      && 1 <= n && head == Wrap(lo) && lo <= g.ch && (sh.sc ==> lo == g.ch)
      && lo <= mark.tail <= g.pt && n <= Wrap(mark.tail - lo)
    case CRead(n, head, buf) =>
      && 1 <= n && |buf| <= n && head == Wrap(lo) && HoldsCons(g, t, lo, n)
      && lo + n <= g.pt <= |g.hist| && buf == g.hist[lo..lo + |buf|]
    case CAwait(n, head, buf) =>
      && 1 <= n && head == Wrap(lo) && HoldsCons(g, t, lo, n)
      && lo + n <= g.pt <= |g.hist| && buf == g.hist[lo..lo + n]
    case CPublish(n, head, buf) =>
      && 1 <= n && head == Wrap(lo) && HoldsCons(g, t, lo, n) && lo == g.ct
      && lo + n <= g.pt <= |g.hist| && buf == g.hist[lo..lo + n]
  }

  // ----- reservations

  /** The positions a producer has reserved and not published, as (first, length). */
  predicate ProdReserved(pc: Pc) {
    pc.PWrite? || pc.PReadMark? || pc.PAwait? || pc.PPublish?
  }

  predicate ConsReserved(pc: Pc) {
    pc.CRead? || pc.CAwait? || pc.CPublish?
  }

  predicate ProdHolds(pc: Pc, mark: Mark, k: nat) {
    ProdReserved(pc) && mark.head <= k < mark.head + |pc.objs|
  }

  predicate ConsHolds(pc: Pc, mark: Mark, k: nat) {
    ConsReserved(pc) && mark.head <= k < mark.head + pc.n
  }

  ghost predicate ProdOwner(s: State, k: nat)
    requires k < |s.g.powner| && |s.g.marks| == |s.m.pcs|
  {
    var t := s.g.powner[k];
    t < |s.m.pcs| && ProdHolds(s.m.pcs[t], s.g.marks[t], k)
  }

  ghost predicate ConsOwner(s: State, k: nat)
    requires k < |s.g.cowner| && |s.g.marks| == |s.m.pcs|
  {
    var t := s.g.cowner[k];
    t < |s.m.pcs| && ConsHolds(s.m.pcs[t], s.g.marks[t], k)
  }

  // ----- the invariant

  ghost predicate Shape(s: State) {
    var sh, g := s.m.sh, s.g;
    && WellFormed(sh) && 1 <= sh.size <= 0x8000_0000 && sh.watermark <= sh.size
    && |g.marks| == |s.m.pcs|
    && |g.hist| == |g.powner| == g.ph && |g.cowner| == g.ch
    && (g.default ==> sh.watermark == sh.size)
  }

  ghost predicate Residues(sh: Shared, g: History) {
    && sh.prodHead == Wrap(g.ph) && sh.prodTail == Wrap(g.pt)
    && sh.consHead == Wrap(g.ch) && sh.consTail == Wrap(g.ct)
  }

  ghost predicate Order(g: History, size: int) {
    g.ct <= g.ch <= g.pt <= g.ph <= g.ct + size - 1
  }

  ghost predicate Logs(g: History)
    requires g.pt <= |g.hist| && g.ct <= |g.hist|
  {
    g.sent == g.hist[..g.pt] && g.received == g.hist[..g.ct]
  }

  ghost predicate ThreadsOk(s: State)
    requires Shape(s)
  {
    forall t :: 0 <= t < |s.m.pcs| ==> ThreadOk(s.m.sh, s.g, t, s.m.pcs[t], s.g.marks[t])
  }

  ghost predicate Tiled(s: State)
    requires Shape(s)
  {
    && (forall k :: s.g.pt <= k < s.g.ph ==> ProdOwner(s, k))
    && (forall k :: s.g.ct <= k < s.g.ch ==> ConsOwner(s, k))
  }

  /** With a single-producer (consumer) ring, only `owner` may be inside an enqueue (dequeue). */
  predicate IsProducing(pc: Pc) {
    pc.PReadHead? || pc.PReadTail? || pc.PReserve? || ProdReserved(pc)
  }

  predicate IsConsuming(pc: Pc) {
    pc.CReadHead? || pc.CReadTail? || pc.CReserve? || ConsReserved(pc)
  }

  ghost predicate Single(s: State) {
    && (s.m.sh.sp ==> forall t, u :: 0 <= t < u < |s.m.pcs| ==> !(IsProducing(s.m.pcs[t]) && IsProducing(s.m.pcs[u])))
    && (s.m.sh.sc ==> forall t, u :: 0 <= t < u < |s.m.pcs| ==> !(IsConsuming(s.m.pcs[t]) && IsConsuming(s.m.pcs[u])))
  }

  ghost predicate Inv(s: State) {
    && Shape(s)
    && Residues(s.m.sh, s.g)
    && Order(s.g, s.m.sh.size)
    && Logs(s.g)
    && Stored(s.m.sh, s.g, s.g.ct, s.g.pt)
    && ThreadsOk(s)
    && Tiled(s)
    && Single(s)
  }

  // ----- which runs are considered

  /** An index that moved from `seen` to `now` shows that it did. */
  predicate Telling(seen: nat, now: nat) {
    now == seen || (now - seen) % TWO32 != 0
  }

  lemma HeadSeen(seen: nat, now: nat)
    requires Telling(seen, now)
    ensures Wrap(seen) == Wrap(now) <==> seen == now
  {
    SameWord(seen, now);
  }

  /**
    What a step may assume of the run.  Calls are valid.  A compare-and-set is never reached
    when a positive multiple of 2^32 positions were reserved since its thread read the index.
    A single-producer ring is entered by one producer at a time, and the same for consumers.
   */
  ghost predicate Allowed(s: State, t: nat, call: Call)
    requires |s.g.marks| == |s.m.pcs|
  {
    && t < |s.m.pcs|
    && match s.m.pcs[t]
       case Idle(_, _) =>
         && ValidCall(call)
         && (s.m.sh.sp && call.Enqueue? ==> forall u :: 0 <= u < |s.m.pcs| ==> !IsProducing(s.m.pcs[u]))
         && (s.m.sh.sc && call.Dequeue? ==> forall u :: 0 <= u < |s.m.pcs| ==> !IsConsuming(s.m.pcs[u]))
       case PReserve(_, _, _) => Telling(s.g.marks[t].head, s.g.ph)
       case CReserve(_, _) => Telling(s.g.marks[t].head, s.g.ch)
       case _ => true
  }
}
