/**
  The message-passing benchmark 503: one application thread and two io threads exchanging
  messages over four rings.  Rings are FIFO queues of bounded capacity; every step below is
  one access to memory the threads share.
 */
module SlotsProtocol {
  import opened Words

  /** Rings of 32768 slots hold 32767 messages. */
  const CAPACITY: nat := 32767

  /** The static message objects.  Rings carry their addresses. */
  datatype Addr = InMsg1 | InMsg2 | OutMsg1 | OutMsg2

  /** The application scans four positions, then counts and sends two messages. */
  datatype AppPc = Scan(at: int) | AppCount1 | AppSend1 | AppCount2 | AppSend2 | AppDone

  /**
    An io thread counts and sends two messages, takes one, stores its address in the pointer
    both io threads share, loads the pointer back and tests the payload behind it.
   */
  datatype IoPc =
    | IoCount1 | IoSend1 | IoCount2 | IoSend2
    | IoTake | IoStore(taken: Addr) | IoLoad | IoTest(ptr: Addr)
    | IoDone

  /** `tested` counts the received messages whose payload has been tested. */
  datatype Io = Io(pc: IoPc, tested: nat)

  datatype State = State(
    n: nat,                // the number of rounds
    app: AppPc,
    round: nat,            // completed rounds of the application
    got: seq<bool>,        // received1 .. received4
    io: seq<Io>,
    into: seq<seq<Addr>>,  // app1, app2
    out: seq<seq<Addr>>,   // out1, out2
    inPay: seq<u32>,       // payloads of InMsg1, InMsg2
    outPay: seq<u32>,      // payloads of OutMsg1, OutMsg2
    shared: Addr           // the pointer out_msg1 of io_func
  )

  ghost predicate Typed(s: State) {
    && |s.got| == 4 && |s.io| == 2 && |s.into| == 2 && |s.out| == 2
    && |s.inPay| == 2 && |s.outPay| == 2
    && (s.app.Scan? ==> 1 <= s.app.at <= 4)
  }

  function Payload(s: State, a: Addr): u32
    requires |s.inPay| == 2 && |s.outPay| == 2
  {
    match a
    case InMsg1 => s.inPay[0]
    case InMsg2 => s.inPay[1]
    case OutMsg1 => s.outPay[0]
    case OutMsg2 => s.outPay[1]
  }

  /** An enqueue whose result nobody looks at. */
  function Put(q: seq<Addr>, a: Addr): seq<Addr> {
    if |q| < CAPACITY then q + [a] else q
  }

  /** Positions 1 and 3 read ring app1, positions 2 and 4 ring app2. */
  function RingAt(at: int): (r: int)
    ensures r == 0 || r == 1
  {
    if at == 1 || at == 3 then 0 else 1
  }

  predicate AllGot(s: State)
    requires |s.got| == 4
  {
    s.got[0] && s.got[1] && s.got[2] && s.got[3]
  }

  function NextAt(s: State, at: int): AppPc
    requires |s.got| == 4
  {
    if at < 4 then Scan(at + 1) else if AllGot(s) then AppCount1 else Scan(1)
  }

  /** Look at one position: an open one takes a message if its ring has one. */
  function ScanStep(s: State, at: int): State
    requires Typed(s) && 1 <= at <= 4
  {
    var r := RingAt(at);
    if !s.got[at - 1] && |s.into[r]| > 0 then
      var s' := s.(got := s.got[at - 1 := true], into := s.into[r := s.into[r][1..]]);
      s'.(app := NextAt(s', at))
    else
      s.(app := NextAt(s, at))
  }

  function AppStep(s: State): State
    requires Typed(s)
  {
    match s.app
    case Scan(at) => ScanStep(s, at)
    case AppCount1 => s.(outPay := s.outPay[0 := Wrap(s.outPay[0] as int + 1)], app := AppSend1)
    case AppSend1 => s.(out := s.out[0 := Put(s.out[0], OutMsg1)], app := AppCount2)
    case AppCount2 => s.(outPay := s.outPay[1 := Wrap(s.outPay[1] as int + 1)], app := AppSend2)
    case AppSend2 =>
      s.(out := s.out[1 := Put(s.out[1], OutMsg2)],
         round := s.round + 1,
         got := [false, false, false, false],
         app := if s.round + 1 < s.n then Scan(1) else AppDone)
    case AppDone => s
  }

  /**
    A step of io thread x.  Both io threads increment the same two payloads without a lock, so
    the value `v` such an increment leaves behind is arbitrary.
   */
  function IoStep(s: State, x: int, v: u32): State
    requires Typed(s) && 0 <= x < 2
  {
    var io := s.io[x];
    match io.pc
    case IoCount1 => s.(inPay := s.inPay[0 := v], io := s.io[x := io.(pc := IoSend1)])
    case IoSend1 => s.(into := s.into[0 := Put(s.into[0], InMsg1)], io := s.io[x := io.(pc := IoCount2)])
    case IoCount2 => s.(inPay := s.inPay[1 := v], io := s.io[x := io.(pc := IoSend2)])
    case IoSend2 => s.(into := s.into[1 := Put(s.into[1], InMsg2)], io := s.io[x := io.(pc := IoTake)])
    case IoTake =>
      if |s.out[x]| == 0 then s
      else s.(out := s.out[x := s.out[x][1..]], io := s.io[x := io.(pc := IoStore(s.out[x][0]))])
    case IoStore(a) => s.(shared := a, io := s.io[x := io.(pc := IoLoad)])
    case IoLoad => s.(io := s.io[x := io.(pc := IoTest(s.shared))])
    case IoTest(a) =>
      s.(io := s.io[x := Io(if Payload(s, a) == s.n then IoDone else IoCount1, io.tested + 1)])
    case IoDone => s
  }

  datatype Tick = App | OfIo(x: int, v: u32)

  ghost predicate ValidTick(k: Tick) {
    k.OfIo? ==> 0 <= k.x < 2
  }

  function Step(s: State, k: Tick): State
    requires Typed(s) && (k.OfIo? ==> 0 <= k.x < 2)
  {
    match k
    case App => AppStep(s)
    case OfIo(x, v) => IoStep(s, x, v)
  }

  ghost predicate Init(s: State) {
    && Typed(s) && 1 <= s.n < TWO32
    && s.app == Scan(1) && s.round == 0 && s.got == [false, false, false, false]
    && s.io == [Io(IoCount1, 0), Io(IoCount1, 0)]
    && s.into == [[], []] && s.out == [[], []] && s.outPay == [0, 0]
  }

  /** The application has run its rounds and both io threads have returned. */
  ghost predicate Final(s: State)
    requires Typed(s)
  {
    s.app.AppDone? && s.io[0].pc.IoDone? && s.io[1].pc.IoDone?
  }
}
