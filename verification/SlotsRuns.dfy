/**
  Whole runs of benchmark 503: what the io threads read, what the rings hold, and that every
  fair schedule comes to an end.
 */
module SlotsRuns {
  import opened Words
  import opened SlotsProtocol
  import opened SlotsInvariant

  ghost predicate ValidTicks(ticks: seq<Tick>) {
    forall i :: 0 <= i < |ticks| ==> ValidTick(ticks[i])
  }

  ghost function Run(s: State, ticks: seq<Tick>): (s': State)
    requires Inv(s) && ValidTicks(ticks)
    ensures Inv(s') && s'.n == s.n
    decreases |ticks|
  {
    if ticks == [] then s
    else
      assert ValidTick(ticks[0]);
      StepKeepsInv(s, ticks[0]);
      StepKeepsRounds(s, ticks[0]);
      Run(Step(s, ticks[0]), ticks[1..])
  }

  lemma StepKeepsRounds(s: State, k: Tick)
    requires Inv(s) && ValidTick(k)
    ensures Step(s, k).n == s.n
  {
  }

  /**
    Round numbers are free of races: in every run, the payload an io thread is about to test
    after its k-th receive is k, although the pointer it goes through is shared with the other
    io thread and the message behind it is used again in every round.
   */
  lemma TestedPayload(s: State, ticks: seq<Tick>, x: int)
    requires Init(s) && ValidTicks(ticks) && 0 <= x < 2
    ensures Inv(s) && var s' := Run(s, ticks);
              s'.io[x].pc.IoTest? ==> Payload(s', s'.io[x].pc.ptr) == s'.io[x].tested + 1 <= s.n
  {
    InitInv(s);
  }

  /** An io thread has returned exactly when it has received n messages. */
  lemma ReturnsAfterN(s: State, ticks: seq<Tick>, x: int)
    requires Init(s) && ValidTicks(ticks) && 0 <= x < 2
    ensures Inv(s) && var s' := Run(s, ticks); s'.io[x].pc.IoDone? <==> s'.io[x].tested == s.n
  {
    InitInv(s);
  }

  /** The threads stay within a round of each other, and no ring comes near its capacity. */
  lemma LockStep(s: State, ticks: seq<Tick>)
    requires Init(s) && ValidTicks(ticks)
    ensures Inv(s) && var s' := Run(s, ticks);
              && |s'.into[0]| <= 2 && |s'.into[1]| <= 2 && |s'.out[0]| <= 1 && |s'.out[1]| <= 1
              && (forall x :: 0 <= x < 2 ==> s'.round - 1 <= s'.io[x].tested <= s'.round + 1)
              && -1 <= s'.io[0].tested - s'.io[1].tested <= 1
  {
    InitInv(s);
    RingsSmall(Run(s, ticks));
  }

  /** The message of an ignored enqueue result: none is ever lost. */
  lemma EnqueuesSucceed(s: State, ticks: seq<Tick>, k: Tick)
    requires Init(s) && ValidTicks(ticks) && ValidTick(k)
    ensures Inv(s) && var s' := Run(s, ticks); var s'' := Step(s', k);
              && (k.App? && s'.app.AppSend1? ==> s''.out[0] == s'.out[0] + [OutMsg1])
              && (k.App? && s'.app.AppSend2? ==> s''.out[1] == s'.out[1] + [OutMsg2])
              && (k.OfIo? && s'.io[k.x].pc.IoSend1? ==> s''.into[0] == s'.into[0] + [InMsg1])
              && (k.OfIo? && s'.io[k.x].pc.IoSend2? ==> s''.into[1] == s'.into[1] + [InMsg2])
  {
    InitInv(s);
    RingsSmall(Run(s, ticks));
  }

  // ----- progress

  /** Steps an io thread still has to make that are not spins. */
  function IoWork(n: nat, io: Io): nat {
    if io.pc.IoDone? || io.tested >= n then 0
    else (n - io.tested) * 8 - (match io.pc
      case IoCount1 => 0 case IoSend1 => 1 case IoCount2 => 2 case IoSend2 => 3
      case IoTake => 4 case IoStore(_) => 5 case IoLoad => 6 case IoTest(_) => 7 case IoDone => 0)
  }

  function AppWork(s: State): nat
    requires |s.got| == 4
  {
    if s.app.AppDone? || s.round >= s.n then 0
    else (s.n - s.round) * 9 - (match s.app
      case Scan(_) => One(s.got[0]) + One(s.got[1]) + One(s.got[2]) + One(s.got[3])
      case AppCount1 => 5 case AppSend1 => 6 case AppCount2 => 7 case AppSend2 => 8 case AppDone => 0)
  }

  ghost function WorkLeft(s: State): nat
    requires Typed(s)
  {
    AppWork(s) + IoWork(s.n, s.io[0]) + IoWork(s.n, s.io[1])
  }

  /** The scan does something at this position: it takes a message, or it is complete. */
  predicate Effective(s: State, at: int)
    requires |s.got| == 4 && |s.into| == 2 && 1 <= at <= 4
  {
    (!s.got[at - 1] && |s.into[RingAt(at)]| > 0) || (at == 4 && AllGot(s))
  }

  function After(at: int): int {
    if at < 4 then at + 1 else 1
  }

  /** Scan steps until the next effective one; 4 when there is none. */
  ghost function Distance(s: State): (d: nat)
    requires Typed(s)
    ensures d <= 4
  {
    if !s.app.Scan? then 0
    else
      var a := s.app.at;
      if Effective(s, a) then 0
      else if Effective(s, After(a)) then 1
      else if Effective(s, After(After(a))) then 2
      else if Effective(s, After(After(After(a)))) then 3
      else 4
  }

  ghost predicate IoCan(s: State, x: int)
    requires Typed(s) && 0 <= x < 2
  {
    !s.io[x].pc.IoDone? && (s.io[x].pc.IoTake? ==> |s.out[x]| > 0)
  }

  ghost predicate AppCan(s: State)
    requires Typed(s)
  {
    !s.app.AppDone? && Distance(s) < 4
  }

  /** A step that is not a spin for good: an io step that changes something, or a scan on its way. */
  ghost predicate Can(s: State, k: Tick)
    requires Typed(s) && ValidTick(k)
  {
    match k
    case App => AppCan(s)
    case OfIo(x, _) => IoCan(s, x)
  }

  /** No deadlock: until everybody has returned, some thread can make progress. */
  lemma SomeoneCan(s: State)
    requires Inv(s) && !Final(s)
    ensures AppCan(s) || IoCan(s, 0) || IoCan(s, 1)
  {
    if s.app.Scan? && !IoCan(s, 0) && !IoCan(s, 1) {
      assert |s.into[0]| == 2 - One(s.got[0]) - One(s.got[2]);
      assert |s.into[1]| == 2 - One(s.got[1]) - One(s.got[3]);
      FullRingsEffective(s);
    }
  }

  lemma FullRingsEffective(s: State)
    requires Typed(s) && s.app.Scan?
    requires |s.into[0]| == 2 - One(s.got[0]) - One(s.got[2])
    requires |s.into[1]| == 2 - One(s.got[1]) - One(s.got[3])
    ensures Distance(s) < 4
  {
  }

  /** The natural number every productive step lowers and no step raises. */
  ghost function Measure(s: State): nat
    requires Typed(s)
  {
    WorkLeft(s) * 5 + Distance(s)
  }

  /** The work of an io thread depends on its own place alone. */
  lemma IoWorkFalls(n: nat, io: Io, io': Io)
    requires !io.pc.IoDone? && io.tested < n
    requires
      || (io'.tested == io.tested && match io.pc
            case IoCount1 => io'.pc.IoSend1?
            case IoSend1 => io'.pc.IoCount2?
            case IoCount2 => io'.pc.IoSend2?
            case IoSend2 => io'.pc.IoTake?
            case IoTake => io'.pc.IoStore?
            case IoStore(_) => io'.pc.IoLoad?
            case IoLoad => io'.pc.IoTest?
            case _ => false)
      || (io.pc.IoTest? && io'.tested == io.tested + 1 && (io'.pc.IoDone? || io'.pc.IoCount1?))
    ensures IoWork(n, io') < IoWork(n, io)
  {
  }

  lemma IoLowers(s: State, x: int, v: u32)
    requires Inv(s) && 0 <= x < 2
    ensures IoCan(s, x) ==> IoWork(s.n, IoStep(s, x, v).io[x]) < IoWork(s.n, s.io[x])
    ensures IoCan(s, x) ==> AppWork(IoStep(s, x, v)) == AppWork(s)
    ensures IoCan(s, x) ==> IoStep(s, x, v).io[1 - x] == s.io[1 - x] && IoStep(s, x, v).n == s.n
    ensures !IoCan(s, x) ==> IoStep(s, x, v) == s
  {
    if IoCan(s, x) {
      assert IoOk(s, x);
      IoWorkFalls(s.n, s.io[x], IoStep(s, x, v).io[x]);
    }
  }

  lemma ScanLowers(s: State)
    requires Inv(s) && s.app.Scan?
    ensures Distance(s) == 0 ==> AppWork(AppStep(s)) < AppWork(s)
    ensures Distance(s) != 0 ==> AppWork(AppStep(s)) == AppWork(s)
  {
    NowEffective(s);
    EffectiveLowers(s);
  }

  lemma NowEffective(s: State)
    requires Typed(s) && s.app.Scan?
    ensures Distance(s) == 0 <==> Effective(s, s.app.at)
  {
  }

  lemma EffectiveLowers(s: State)
    requires Inv(s) && s.app.Scan?
    ensures Effective(s, s.app.at) ==> AppWork(AppStep(s)) < AppWork(s)
    ensures !Effective(s, s.app.at) ==> AppWork(AppStep(s)) == AppWork(s)
  {
  }

  lemma AppLowers(s: State)
    requires Inv(s)
    ensures AppStep(s).io == s.io && AppStep(s).n == s.n
    ensures AppCan(s) && Distance(s) == 0 ==> AppWork(AppStep(s)) < AppWork(s)
    ensures !(AppCan(s) && Distance(s) == 0) ==> AppWork(AppStep(s)) == AppWork(s)
  {
    if s.app.Scan? {
      ScanLowers(s);
    }
  }

  lemma SpinMoves(s: State)
    requires Inv(s) && s.app.Scan? && Distance(s) > 0
    ensures AppStep(s) == s.(app := Scan(After(s.app.at)))
    ensures Distance(AppStep(s)) == if Distance(s) == 4 then 4 else Distance(s) - 1
  {
    SpinAdvances(s);
    DistanceFalls(s, AppStep(s));
  }

  lemma SpinAdvances(s: State)
    requires Typed(s) && s.app.Scan? && !Effective(s, s.app.at)
    ensures AppStep(s) == s.(app := Scan(After(s.app.at)))
  {
  }

  lemma DistanceFalls(s: State, s': State)
    requires Typed(s) && s.app.Scan? && Distance(s) > 0 && s' == s.(app := Scan(After(s.app.at)))
    ensures Typed(s') && Distance(s') == if Distance(s) == 4 then 4 else Distance(s) - 1
  {
  }

  lemma AppMeasure(s: State)
    requires Inv(s) && Typed(AppStep(s))
    ensures Measure(AppStep(s)) <= Measure(s)
    ensures AppCan(s) ==> Measure(AppStep(s)) < Measure(s)
  {
    AppLowers(s);
    if s.app.Scan? && Distance(s) > 0 {
      SpinMoves(s);
    }
  }

  lemma IoMeasure(s: State, x: int, v: u32)
    requires Inv(s) && 0 <= x < 2 && Typed(IoStep(s, x, v))
    ensures Measure(IoStep(s, x, v)) <= Measure(s)
    ensures IoCan(s, x) ==> Measure(IoStep(s, x, v)) < Measure(s)
  {
    IoLowers(s, x, v);
    if IoCan(s, x) {
      assert WorkLeft(IoStep(s, x, v)) < WorkLeft(s);
    }
  }

  lemma StepLowers(s: State, k: Tick)
    requires Inv(s) && ValidTick(k)
    ensures Inv(Step(s, k))
    ensures Measure(Step(s, k)) <= Measure(s)
    ensures Can(s, k) ==> Measure(Step(s, k)) < Measure(s)
  {
    StepKeepsInv(s, k);
    match k
    case App => AppMeasure(s);
    case OfIo(x, v) => IoMeasure(s, x, v);
  }

  // ----- fair schedules

  ghost predicate Ticks(w: seq<Tick>, who: int) {
    exists i :: 0 <= i < |w| && ValidTick(w[i]) && Who(w[i]) == who
  }

  function Who(k: Tick): int {
    match k case App => 2 case OfIo(x, _) => x
  }

  /** Each of the three threads moves at least once. */
  ghost predicate FairWindow(w: seq<Tick>) {
    ValidTicks(w) && Ticks(w, 0) && Ticks(w, 1) && Ticks(w, 2)
  }

  ghost predicate ThreadCan(s: State, who: int)
    requires Typed(s) && 0 <= who <= 2
  {
    if who == 2 then AppCan(s) else IoCan(s, who)
  }

  /** As long as the measure stands still, a thread that can make progress still can. */
  lemma CanPersists(s: State, k: Tick, who: int)
    requires Inv(s) && ValidTick(k) && 0 <= who <= 2 && ThreadCan(s, who)
    requires Inv(Step(s, k)) && Measure(Step(s, k)) == Measure(s)
    ensures ThreadCan(Step(s, k), who)
  {
    StepLowers(s, k);
    match k
    case App =>
      AppLowers(s);
      if s.app.Scan? {
        SpinMoves(s);
      }
    case OfIo(x, v) => IoLowers(s, x, v);
  }

  lemma {:induction false} WindowLowers(s: State, w: seq<Tick>, who: int)
    requires Inv(s) && ValidTicks(w) && 0 <= who <= 2
    ensures Measure(Run(s, w)) <= Measure(s)
    ensures ThreadCan(s, who) && Ticks(w, who) ==> Measure(Run(s, w)) < Measure(s)
    decreases |w|
  {
    if w != [] {
      assert ValidTick(w[0]);
      var s' := Step(s, w[0]);
      StepLowers(s, w[0]);
      WindowLowers(s', w[1..], who);
      if ThreadCan(s, who) && Ticks(w, who) && Measure(s') == Measure(s) {
        CanPersists(s, w[0], who);
        var i :| 0 <= i < |w| && ValidTick(w[i]) && Who(w[i]) == who;
        assert i > 0;
        assert w[1..][i - 1] == w[i];
      }
    }
  }

  ghost function RunWindows(s: State, windows: seq<seq<Tick>>): (s': State)
    requires Inv(s) && forall i :: 0 <= i < |windows| ==> FairWindow(windows[i])
    ensures Inv(s')
    decreases |windows|
  {
    if windows == [] then s
    else
      assert FairWindow(windows[0]);
      RunWindows(Run(s, windows[0]), windows[1..])
  }

  lemma FinalStays(s: State, k: Tick)
    requires Inv(s) && Final(s) && ValidTick(k)
    ensures Step(s, k) == s
  {
  }

  lemma {:induction false} FinalRun(s: State, w: seq<Tick>)
    requires Inv(s) && Final(s) && ValidTicks(w)
    ensures Run(s, w) == s
    decreases |w|
  {
    if w != [] {
      assert ValidTick(w[0]);
      FinalStays(s, w[0]);
      FinalRun(s, w[1..]);
    }
  }

  lemma {:induction false} WindowsEnd(s: State, windows: seq<seq<Tick>>)
    requires Inv(s) && forall i :: 0 <= i < |windows| ==> FairWindow(windows[i])
    requires Final(s) || |windows| >= Measure(s)
    ensures Final(RunWindows(s, windows))
    decreases |windows|
  {
    if windows == [] {
      if !Final(s) {
        SomeoneCan(s);
        NotFinalMeasure(s);
      }
    } else if Final(s) {
      FinalRun(s, windows[0]);
      WindowsEnd(s, windows[1..]);
    } else {
      SomeoneCan(s);
      var who := if AppCan(s) then 2 else if IoCan(s, 0) then 0 else 1;
      assert FairWindow(windows[0]);
      WindowLowers(s, windows[0], who);
      WindowsEnd(Run(s, windows[0]), windows[1..]);
    }
  }

  lemma NotFinalMeasure(s: State)
    requires Inv(s) && !Final(s)
    ensures Measure(s) > 0
  {
  }

  /**
    Every fair schedule ends: after at most 125 * n windows in which each of the three threads
    moves, the application has run its n rounds and both io threads have returned.
   */
  lemma FairRunsEnd(s: State, windows: seq<seq<Tick>>)
    requires Init(s)
    requires forall i :: 0 <= i < |windows| ==> FairWindow(windows[i])
    requires |windows| >= 125 * s.n + 4
    ensures Inv(s) && Final(RunWindows(s, windows))
  {
    InitInv(s);
    assert Measure(s) <= 125 * s.n + 4;
    WindowsEnd(s, windows);
  }
}
