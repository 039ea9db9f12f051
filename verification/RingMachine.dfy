/**
  The lock-free ring of rte_ring.h as an interleaved machine.  A step of a thread makes one
  access to shared memory; everything a thread computes between two accesses is folded into
  the access before it.  Every index and every local variable is a 32-bit word.
 */
module RingMachine {
  import opened Words

  /** The fields of `struct rte_ring` the operations touch.  `mask` is `size - 1`. */
  datatype Shared = Shared(
    size: nat,
    sp: bool,
    sc: bool,
    watermark: u32,
    prodHead: u32,
    prodTail: u32,
    consHead: u32,
    consTail: u32,
    slots: seq<Obj>
  )

  ghost predicate WellFormed(sh: Shared) {
    IsRingSize(sh.size) && |sh.slots| == sh.size
  }

  /** What a thread asks of the ring when it is idle. */
  datatype Call =
    | Enqueue(objs: seq<Obj>)
    | Dequeue(n: int)
    | SetWaterMark(count: u32)

  /** Bulk counts are positive unsigned words, as the operations demand. */
  predicate ValidCall(call: Call) {
    match call
    case Enqueue(objs) => 1 <= |objs| < TWO32
    case Dequeue(n) => 1 <= n < TWO32
    case SetWaterMark(_) => true
  }

  /**
    Where a thread stands.  A constructor names the next shared access; its arguments are the
    live locals.  `P` is the enqueue, `C` the dequeue; `Idle` carries the last return value.
   */
  datatype Pc =
    | Idle(ret: int, out: seq<Obj>)
    | PReadHead(objs: seq<Obj>)
    | PReadTail(objs: seq<Obj>, head: u32)
    | PReserve(objs: seq<Obj>, head: u32, free: u32)
    | PWrite(objs: seq<Obj>, head: u32, free: u32, i: nat)
    | PReadMark(objs: seq<Obj>, head: u32, free: u32)
    | PAwait(objs: seq<Obj>, head: u32, status: int)
    | PPublish(objs: seq<Obj>, head: u32, status: int)
    | CReadHead(n: int)
    | CReadTail(n: int, head: u32)
    | CReserve(n: int, head: u32)
    | CRead(n: int, head: u32, buf: seq<Obj>)
    | CAwait(n: int, head: u32, buf: seq<Obj>)
    | CPublish(n: int, head: u32, buf: seq<Obj>)

  function Slot(sh: Shared, index: int): (k: nat)
    requires sh.size >= 1
    ensures k < sh.size
  {
    And(Wrap(index), sh.size - 1)
  }

  /** The slot a masked index names is the one the unbounded counter names. */
  lemma SlotOfCounter(sh: Shared, c: nat, head: u32, i: nat)
    requires WellFormed(sh) && head == Wrap(c)
    ensures sh.size >= 1 && Slot(sh, head + i) == SlotFor(c + i, sh.size)
  {
    SlotIndex(c, i, sh.size);
    SlotForIsMod(c + i, sh.size);
  }

  /** The watermark update accepts counts below the size; zero means "disabled". */
  function SetMark(sh: Shared, count: u32): (Shared, Pc)
    requires 1 <= sh.size < TWO32
  {
    if count >= sh.size then (sh, Idle(-1, []))
    else (sh.(watermark := if count == 0 then sh.size else count), Idle(0, []))
  }

  function Begin(sh: Shared, call: Call): (Shared, Pc)
    requires 1 <= sh.size < TWO32
  {
    match call
    case Enqueue(objs) => (sh, PReadHead(objs))
    case Dequeue(n) => (sh, CReadHead(n))
    case SetWaterMark(count) => SetMark(sh, count)
  }

  /** One step of a thread at `pc`: the new shared fields and the new place of the thread. */
  function ThreadStep(sh: Shared, pc: Pc, call: Call): (Shared, Pc)
    requires 1 <= sh.size < TWO32 && |sh.slots| == sh.size
  {
    match pc
    case Idle(_, _) => Begin(sh, call)

    // rte_ring_mp_enqueue_bulk; with `sp`, rte_ring_sp_enqueue_bulk
    case PReadHead(objs) => (sh, PReadTail(objs, sh.prodHead))
    case PReadTail(objs, head) =>
      var free := Wrap(sh.size - 1 + sh.consTail - head);
      if |objs| > free then (sh, Idle(-1, [])) else (sh, PReserve(objs, head, free))
    case PReserve(objs, head, free) =>
      if sh.sp || sh.prodHead == head
      then (sh.(prodHead := Wrap(head + |objs|)), PWrite(objs, head, free, 0))
      else (sh, PReadHead(objs))
    case PWrite(objs, head, free, i) =>
      if i >= |objs| then (sh, PReadMark(objs, head, free))
      else (sh.(slots := sh.slots[Slot(sh, head + i) := objs[i]]), PWrite(objs, head, free, i + 1))
    case PReadMark(objs, head, free) =>
      (sh, PAwait(objs, head, if Wrap(sh.size - free + |objs|) > sh.watermark then -1 else 0))
    case PAwait(objs, head, status) =>
      (sh, if sh.sp || sh.prodTail == head then PPublish(objs, head, status) else pc)
    case PPublish(objs, head, status) =>
      (sh.(prodTail := Wrap(head + |objs|)), Idle(status, []))

    // rte_ring_mc_dequeue_bulk; with `sc`, rte_ring_sc_dequeue_bulk
    case CReadHead(n) => (sh, CReadTail(n, sh.consHead))
    case CReadTail(n, head) =>
      var entries := Wrap(sh.prodTail - head);
      if n > entries then (sh, Idle(-1, [])) else (sh, CReserve(n, head))
    case CReserve(n, head) =>
      if sh.sc || sh.consHead == head
      then (sh.(consHead := Wrap(head + n)), CRead(n, head, []))
      else (sh, CReadHead(n))
    case CRead(n, head, buf) =>
      if |buf| >= n then (sh, CAwait(n, head, buf))
      else (sh, CRead(n, head, buf + [sh.slots[Slot(sh, head + |buf|)]]))
    case CAwait(n, head, buf) =>
      (sh, if sh.sc || sh.consTail == head then CPublish(n, head, buf) else pc)
    case CPublish(n, head, buf) =>
      (sh.(consTail := Wrap(head + n)), Idle(0, buf))
  }

  /** Any number of threads over one ring. */
  datatype Machine = Machine(sh: Shared, pcs: seq<Pc>)

  function MachineStep(m: Machine, t: nat, call: Call): Machine
    requires 1 <= m.sh.size < TWO32 && |m.sh.slots| == m.sh.size
    requires t < |m.pcs|
  {
    var (sh', pc') := ThreadStep(m.sh, m.pcs[t], call);
    Machine(sh', m.pcs[t := pc'])
  }

  /** The state rte_ring_create leaves behind, with every thread idle. */
  ghost predicate Created(m: Machine) {
    && WellFormed(m.sh)
    && m.sh.watermark == m.sh.size
    && m.sh.prodHead == m.sh.prodTail == m.sh.consHead == m.sh.consTail == 0
    && forall t :: 0 <= t < |m.pcs| ==> m.pcs[t].Idle?
  }
}
