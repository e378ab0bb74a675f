/**
 * The cooperative process scheduler: a dispatcher and ten coroutines that hand control over with
 * setjmp and longjmp. The model keeps control points only. Every call that saves a jump point
 * gets a frame number; a jump is good only while that frame is still on its owner's stack, and a
 * jump to any other point crashes the machine. Saved points are not cleared when their call
 * returns: they dangle until the next call overwrites them.
 */
module Coroutines {
  import opened Common

  const MAX_PROCESS: nat := 10

  datatype Entry = Wait(serial: nat, suspends: nat) | Get(serial: nat, suspends: nat)

  /**
   * A process: not started, in its bootstrap, at the head of its endless loop, about to save its
   * resume point, about to jump back, suspended in its wait, or just resumed there. `serial` is
   * the wait id before it is cut to 32 bits.
   */
  datatype Pc =
    | NotStarted | Boot | Top
    | Waiting(serial: nat) | Suspending(serial: nat) | Suspended(serial: nat) | Resumed(serial: nat)

  /**
   * `ret` and `res` are the frames named by the saved return and resume points; `waitFrame` is the
   * frame of the wait the process is in, if it is in one. `resumes` and `log` record what was done
   * and printed.
   */
  datatype Process = Process(pc: Pc, ret: Option<nat>, res: Option<nat>, waitFrame: Option<nat>,
                             nSuspends: nat, resumes: nat, lastTimeStamp: int, log: seq<Entry>)

  /**
   * The dispatcher: at the head of the start loop or the dispatch loop, inside a call whose frame
   * is `frame` while a process runs, about to jump to a process, or back from one.
   */
  datatype Dispatcher =
    | StartLoop(next: nat) | DispatchLoop
    | InCall(process: nat, frame: nat, starting: bool)
    | ResumeJump(process: nat, frame: nat)
    | Back(process: nat, frame: nat, starting: bool)

  datatype State = State(at: Dispatcher, ps: seq<Process>, nextFrame: nat, nextSerial: nat, crashed: bool)

  const NEW := Process(NotStarted, None, None, None, 0, 0, 0, [])
  function Initial(): State {
    State(StartLoop(0), seq(MAX_PROCESS, i => NEW), 0, 0, false)
  }

  /** One step of the dispatcher, with the time it reads and the process it picks, or of a process. */
  datatype Action = Dispatch(pick: Option<nat>, tick: int) | Run(process: nat)

  predicate IsRunning(p: Process) {
    !p.pc.NotStarted? && !p.pc.Suspended?
  }

  predicate HasControl(s: State) {
    !s.at.InCall?
  }

  /** Who can take a step. */
  predicate Enabled(s: State, a: Action) {
    !s.crashed && |s.ps| == MAX_PROCESS &&
    match a
    case Dispatch(pick, _) => HasControl(s) && (pick.Some? ==> pick.value < MAX_PROCESS)
    case Run(i) => i < |s.ps| && IsRunning(s.ps[i])
  }

  // ----- Saved points -----

  /** The frame of the dispatcher's current call is the only one of its frames a jump can return to. */
  predicate ReturnLive(s: State, p: Process) {
    s.at.InCall? && p.ret == Some(s.at.frame)
  }

  /** A wait's frame lives until the wait returns; the saved resume point is good while it does. */
  predicate ResumeLive(p: Process) {
    p.res.Some? && p.res == p.waitFrame
  }

  // ----- Steps -----

  function DispatcherStep(s: State, pick: Option<nat>, tick: int): State
    requires Enabled(s, Dispatch(pick, tick))
  {
    match s.at
    case StartLoop(k) =>
      if k < MAX_PROCESS then
        var p := s.ps[k].(lastTimeStamp := tick, ret := Some(s.nextFrame), pc := Boot);
        s.(ps := s.ps[k := p], at := InCall(k, s.nextFrame, true), nextFrame := s.nextFrame + 1)
      else
        s.(at := DispatchLoop)
    case DispatchLoop =>
      if pick.Some? then
        var p := s.ps[pick.value].(lastTimeStamp := tick, ret := Some(s.nextFrame));
        s.(ps := s.ps[pick.value := p], at := ResumeJump(pick.value, s.nextFrame), nextFrame := s.nextFrame + 1)
      else
        s
    case ResumeJump(k, f) =>
      if k < MAX_PROCESS && s.ps[k].pc.Suspended? && ResumeLive(s.ps[k]) then
        var p := s.ps[k].(pc := Resumed(s.ps[k].pc.serial), resumes := s.ps[k].resumes + 1);
        s.(ps := s.ps[k := p], at := InCall(k, f, false))
      else
        s.(crashed := true)
    case Back(k, _, starting) =>
      if k < MAX_PROCESS then
        s.(ps := s.ps[k := s.ps[k].(nSuspends := s.ps[k].nSuspends + 1)],
           at := if starting then StartLoop(k + 1) else DispatchLoop)
      else
        s.(crashed := true)
    case InCall(_, _, _) => s
  }

  function ProcessStep(s: State, i: nat): State
    requires Enabled(s, Run(i))
  {
    var p := s.ps[i];
    match p.pc
    case Boot => s.(ps := s.ps[i := p.(pc := Top)])
    case Top =>
      var q := p.(pc := Waiting(s.nextSerial), log := p.log + [Wait(s.nextSerial, p.nSuspends)]);
      s.(ps := s.ps[i := q], nextSerial := s.nextSerial + 1)
    case Waiting(id) =>
      var q := p.(pc := Suspending(id), waitFrame := Some(s.nextFrame), res := Some(s.nextFrame));
      s.(ps := s.ps[i := q], nextFrame := s.nextFrame + 1)
    case Suspending(id) =>
      if ReturnLive(s, p) then
        s.(ps := s.ps[i := p.(pc := Suspended(id))], at := Back(s.at.process, s.at.frame, s.at.starting))
      else
        s.(crashed := true)
    case Resumed(id) =>
      s.(ps := s.ps[i := p.(pc := Top, waitFrame := None, log := p.log + [Get(id, p.nSuspends)])])
    case _ => s
  }

  function Step(s: State, a: Action): (t: State)
    requires Enabled(s, a)
    ensures |t.ps| == MAX_PROCESS
  {
    match a
    case Dispatch(pick, tick) => DispatcherStep(s, pick, tick)
    case Run(i) => ProcessStep(s, i)
  }

  // ----- The invariant of control -----

  /** How far the start loop has come: processes below are started, those above are not. */
  function Started(s: State): nat {
    match s.at
    case StartLoop(k) => k
    case InCall(k, _, starting) => if starting then k else MAX_PROCESS
    case Back(k, _, starting) => if starting then k + 1 else MAX_PROCESS
    case _ => MAX_PROCESS
  }

  /** Inside a wait that has saved its resume point. */
  predicate InWait(p: Process) {
    p.pc.Suspending? || p.pc.Suspended? || p.pc.Resumed?
  }

  predicate FrameFits(p: Process) {
    if InWait(p) then ResumeLive(p) else p.waitFrame.None?
  }

  predicate Control(s: State) {
    && !s.crashed && |s.ps| == MAX_PROCESS && Started(s) <= MAX_PROCESS
    && (s.at.InCall? || s.at.ResumeJump? || s.at.Back? ==> s.at.process < MAX_PROCESS)
    && (forall i :: 0 <= i < MAX_PROCESS ==> FrameFits(s.ps[i]))
    && (forall i :: 0 <= i < MAX_PROCESS && !(s.at.InCall? && i == s.at.process) ==>
          if i < Started(s) then s.ps[i].pc.Suspended? else s.ps[i].pc == NotStarted)
    && (s.at.InCall? ==> IsRunning(s.ps[s.at.process]))
    && (s.at.InCall? || s.at.ResumeJump? ==> s.ps[s.at.process].ret == Some(s.at.frame))
  }

  lemma DispatcherKeepsControl(s: State, pick: Option<nat>, tick: int)
    requires Control(s) && Enabled(s, Dispatch(pick, tick))
    ensures Control(DispatcherStep(s, pick, tick))
  {
  }

  lemma ProcessKeepsControl(s: State, i: nat)
    requires Control(s) && Enabled(s, Run(i))
    ensures Control(ProcessStep(s, i))
  {
  }

  lemma StepKeepsControl(s: State, a: Action)
    requires Control(s) && Enabled(s, a)
    ensures Control(Step(s, a))
  {
    match a
    case Dispatch(pick, tick) => DispatcherKeepsControl(s, pick, tick);
    case Run(i) => ProcessKeepsControl(s, i);
  }

  // ----- The invariant of accounting -----

  function Last(log: seq<Entry>): Entry
    requires log != []
  {
    log[|log| - 1]
  }

  /** What may be printed next: a wait with a new, larger id, or the get of the wait just printed. */
  predicate Follows(log: seq<Entry>, e: Entry) {
    if |log| % 2 == 0 then e.Wait? && e.suspends == |log| / 2 && (log != [] ==> e.serial > Last(log).serial)
    else e == Get(Last(log).serial, (|log| + 1) / 2)
  }

  predicate LogValid(log: seq<Entry>) {
    log != [] ==> LogValid(log[..|log| - 1]) && Follows(log[..|log| - 1], Last(log))
  }

  lemma LogSnoc(log: seq<Entry>, e: Entry)
    requires LogValid(log) && Follows(log, e)
    ensures LogValid(log + [e]) && Last(log + [e]) == e
  {
    assert (log + [e])[..|log|] == log;
  }

  /** Waits and gets alternate, a get repeats its wait's id, ids grow strictly, and the counters printed count up. */
  lemma {:induction false} LogAlternates(log: seq<Entry>, j: nat)
    requires LogValid(log) && j < |log|
    ensures log[j].suspends == (j + 1) / 2 && (log[j].Wait? <==> j % 2 == 0)
    ensures j % 2 == 1 ==> log[j].serial == log[j - 1].serial
    ensures j % 2 == 0 && j > 0 ==> log[j].serial > log[j - 1].serial
  {
    if j < |log| - 1 {
      LogAlternates(log[..|log| - 1], j);
    }
  }

  /** The number of wait ids a process has drawn. */
  function Waits(p: Process): nat {
    (|p.log| + 1) / 2
  }

  /** `behind` says that the process is back in the dispatcher but not yet counted. */
  predicate Counted(p: Process, behind: bool, nextSerial: nat) {
    && LogValid(p.log)
    && (p.log != [] ==> Last(p.log).serial < nextSerial)
    && (match p.pc
        case NotStarted => p.log == [] && p.nSuspends == p.resumes == 0
        case Boot => p.log == [] && p.nSuspends == p.resumes == 0
        case Top => |p.log| % 2 == 0 && p.nSuspends == p.resumes == Waits(p)
        case Waiting(id) => Outstanding(p, id) && p.nSuspends == p.resumes == Waits(p) - 1
        case Suspending(id) => Outstanding(p, id) && p.nSuspends == p.resumes == Waits(p) - 1
        case Suspended(id) =>
          Outstanding(p, id) && p.resumes == Waits(p) - 1 && p.nSuspends == Waits(p) - if behind then 1 else 0
        case Resumed(id) => Outstanding(p, id) && p.nSuspends == p.resumes == Waits(p))
  }

  predicate Outstanding(p: Process, id: nat) {
    |p.log| % 2 == 1 && Last(p.log).serial == id
  }

  /** The process that is back but not yet counted, or -1. */
  function Behind(s: State): int {
    if s.at.Back? then s.at.process else -1
  }

  function TotalWaits(ps: seq<Process>): nat {
    if ps == [] then 0 else TotalWaits(ps[..|ps| - 1]) + Waits(ps[|ps| - 1])
  }

  predicate SameSerial(p: Process, q: Process) {
    p.log != [] && q.log != [] && Last(p.log).serial == Last(q.log).serial
  }

  predicate AccountsOf(ps: seq<Process>, behind: int, nextSerial: nat) {
    && (forall i :: 0 <= i < |ps| ==> Counted(ps[i], i == behind, nextSerial))
    && (forall i, j :: 0 <= i < j < |ps| ==> !SameSerial(ps[i], ps[j]))
    && TotalWaits(ps) == nextSerial
  }

  predicate Accounts(s: State) {
    AccountsOf(s.ps, Behind(s), s.nextSerial)
  }

  lemma {:induction false} TotalUpdate(ps: seq<Process>, i: nat, p: Process)
    requires i < |ps|
    ensures TotalWaits(ps[i := p]) == TotalWaits(ps) - Waits(ps[i]) + Waits(p)
  {
    var n := |ps| - 1;
    if i < n {
      TotalUpdate(ps[..n], i, p);
      assert ps[i := p][..n] == ps[..n][i := p];
    } else {
      assert ps[i := p][..n] == ps[..n];
    }
  }

  /** One process moves on: it draws the next id or keeps the id it drew last. */
  lemma ReplaceKeepsAccounts(ps: seq<Process>, behind: int, n: nat, i: nat, p: Process, behind': int, n': nat)
    requires AccountsOf(ps, behind, n) && i < |ps|
    requires (behind == i || behind == -1) && (behind' == i || behind' == -1)
    requires Counted(p, i == behind', n') && n' - n == Waits(p) - Waits(ps[i]) && n <= n'
    requires p.log != [] ==> Last(p.log).serial == n || SameSerial(p, ps[i])
    ensures AccountsOf(ps[i := p], behind', n')
  {
    TotalUpdate(ps, i, p);
    var qs := ps[i := p];
    forall j | 0 <= j < |qs| && j != i
      ensures Counted(qs[j], j == behind', n') && !SameSerial(qs[j], p) && !SameSerial(p, qs[j])
    {
      assert Counted(ps[j], false, n);
      assert !SameSerial(ps[j], ps[i]) && !SameSerial(ps[i], ps[j]);
    }
  }

  /** The dispatcher calls a process, resumes one, or counts one that came back. */
  lemma CallKeepsAccounts(s: State, pick: Option<nat>, tick: int)
    requires Control(s) && Accounts(s) && Enabled(s, Dispatch(pick, tick))
    requires s.at.StartLoop? || s.at.DispatchLoop?
    ensures Accounts(DispatcherStep(s, pick, tick))
  {
    var t := DispatcherStep(s, pick, tick);
    if t.ps != s.ps {
      var i := if s.at.StartLoop? then s.at.next else pick.value;
      assert Counted(s.ps[i], false, s.nextSerial);
      ReplaceKeepsAccounts(s.ps, -1, s.nextSerial, i, t.ps[i], -1, s.nextSerial);
    }
  }

  lemma ResumeKeepsAccounts(s: State, pick: Option<nat>, tick: int)
    requires Control(s) && Accounts(s) && Enabled(s, Dispatch(pick, tick)) && s.at.ResumeJump?
    ensures Accounts(DispatcherStep(s, pick, tick))
  {
    var t, i := DispatcherStep(s, pick, tick), s.at.process;
    assert Counted(s.ps[i], false, s.nextSerial);
    ReplaceKeepsAccounts(s.ps, -1, s.nextSerial, i, t.ps[i], -1, s.nextSerial);
  }

  lemma BackKeepsAccounts(s: State, pick: Option<nat>, tick: int)
    requires Control(s) && Accounts(s) && Enabled(s, Dispatch(pick, tick)) && s.at.Back?
    ensures Accounts(DispatcherStep(s, pick, tick))
  {
    var t, i := DispatcherStep(s, pick, tick), s.at.process;
    assert Counted(s.ps[i], true, s.nextSerial);
    ReplaceKeepsAccounts(s.ps, i, s.nextSerial, i, t.ps[i], -1, s.nextSerial);
  }

  lemma DispatcherKeepsAccounts(s: State, pick: Option<nat>, tick: int)
    requires Control(s) && Accounts(s) && Enabled(s, Dispatch(pick, tick))
    ensures Accounts(DispatcherStep(s, pick, tick))
  {
    if s.at.ResumeJump? {
      ResumeKeepsAccounts(s, pick, tick);
    } else if s.at.Back? {
      BackKeepsAccounts(s, pick, tick);
    } else {
      CallKeepsAccounts(s, pick, tick);
    }
  }

  /** The process itself, when it prints that it waits. */
  lemma WaitKeepsCounted(p: Process, n: nat)
    requires Counted(p, false, n) && p.pc == Top
    ensures var q := p.(pc := Waiting(n), log := p.log + [Wait(n, p.nSuspends)]);
            Counted(q, false, n + 1) && Waits(q) == Waits(p) + 1 && q.log != [] && Last(q.log).serial == n
  {
    LogSnoc(p.log, Wait(n, p.nSuspends));
  }

  /** When it prints what it got. */
  lemma GetKeepsCounted(p: Process, n: nat)
    requires Counted(p, false, n) && p.pc.Resumed?
    ensures var q := p.(pc := Top, waitFrame := None, log := p.log + [Get(p.pc.serial, p.nSuspends)]);
            Counted(q, false, n) && Waits(q) == Waits(p) && SameSerial(q, p)
  {
    LogSnoc(p.log, Get(p.pc.serial, p.nSuspends));
  }

  lemma WaitKeepsAccounts(s: State, i: nat)
    requires Control(s) && Accounts(s) && Enabled(s, Run(i)) && s.ps[i].pc == Top
    ensures Accounts(ProcessStep(s, i))
  {
    var t := ProcessStep(s, i);
    assert Counted(s.ps[i], false, s.nextSerial);
    WaitKeepsCounted(s.ps[i], s.nextSerial);
    ReplaceKeepsAccounts(s.ps, -1, s.nextSerial, i, t.ps[i], -1, t.nextSerial);
  }

  lemma GetKeepsAccounts(s: State, i: nat)
    requires Control(s) && Accounts(s) && Enabled(s, Run(i)) && s.ps[i].pc.Resumed?
    ensures Accounts(ProcessStep(s, i))
  {
    var t := ProcessStep(s, i);
    assert Counted(s.ps[i], false, s.nextSerial);
    GetKeepsCounted(s.ps[i], s.nextSerial);
    ReplaceKeepsAccounts(s.ps, -1, s.nextSerial, i, t.ps[i], -1, t.nextSerial);
  }

  lemma MoveKeepsAccounts(s: State, i: nat)
    requires Control(s) && Accounts(s) && Enabled(s, Run(i)) && !(s.ps[i].pc == Top || s.ps[i].pc.Resumed?)
    ensures Accounts(ProcessStep(s, i))
  {
    var t := ProcessStep(s, i);
    assert Counted(s.ps[i], false, s.nextSerial);
    assert t.ps[i].log == s.ps[i].log;
    ReplaceKeepsAccounts(s.ps, -1, s.nextSerial, i, t.ps[i], Behind(t), s.nextSerial);
  }

  lemma ProcessKeepsAccounts(s: State, i: nat)
    requires Control(s) && Accounts(s) && Enabled(s, Run(i))
    ensures Accounts(ProcessStep(s, i))
  {
    if s.ps[i].pc == Top {
      WaitKeepsAccounts(s, i);
    } else if s.ps[i].pc.Resumed? {
      GetKeepsAccounts(s, i);
    } else {
      MoveKeepsAccounts(s, i);
    }
  }

  // ----- Runs -----

  predicate Legal(s: State, run: seq<Action>)
    decreases |run|
  {
    run == [] || (Enabled(s, run[0]) && Legal(Step(s, run[0]), run[1..]))
  }

  function After(s: State, run: seq<Action>): State
    requires Legal(s, run)
    decreases |run|
  {
    if run == [] then s else After(Step(s, run[0]), run[1..])
  }

  predicate Inv(s: State) {
    Control(s) && Accounts(s)
  }

  lemma {:induction false} RunKeepsInv(s: State, run: seq<Action>)
    requires Inv(s) && Legal(s, run)
    ensures Inv(After(s, run))
    decreases |run|
  {
    if run != [] {
      StepKeepsControl(s, run[0]);
      match run[0] {
        case Dispatch(pick, tick) => DispatcherKeepsAccounts(s, pick, tick);
        case Run(i) => ProcessKeepsAccounts(s, i);
      }
      RunKeepsInv(Step(s, run[0]), run[1..]);
    }
  }

  lemma {:induction false} NoWaits(ps: seq<Process>)
    requires forall i :: 0 <= i < |ps| ==> ps[i].log == []
    ensures TotalWaits(ps) == 0
  {
    if ps != [] {
      NoWaits(ps[..|ps| - 1]);
    }
  }

  ghost predicate Reachable(s: State) {
    exists run :: Legal(Initial(), run) && After(Initial(), run) == s
  }

  lemma ReachableInv(s: State)
    requires Reachable(s)
    ensures Inv(s)
  {
    var run :| Legal(Initial(), run) && After(Initial(), run) == s;
    NoWaits(Initial().ps);
    RunKeepsInv(Initial(), run);
  }

  // ----- What holds under every schedule -----

  /**
   * No jump ever goes to a dead frame, and exactly one party can run: the dispatcher or one
   * process. A saved resume point is good exactly while its process is in the wait that saved it.
   */
  lemma JumpsAreSafe(s: State)
    requires Reachable(s)
    ensures !s.crashed && |s.ps| == MAX_PROCESS
    ensures HasControl(s) <==> forall i :: 0 <= i < MAX_PROCESS ==> !IsRunning(s.ps[i])
    ensures forall i, j :: 0 <= i < j < MAX_PROCESS ==> !(IsRunning(s.ps[i]) && IsRunning(s.ps[j]))
    ensures forall i :: 0 <= i < MAX_PROCESS ==> (ResumeLive(s.ps[i]) <==> InWait(s.ps[i]))
    ensures forall i :: 0 <= i < MAX_PROCESS && IsRunning(s.ps[i]) ==> ReturnLive(s, s.ps[i])
    ensures s.at.ResumeJump? ==> s.at.process < MAX_PROCESS && s.ps[s.at.process].pc.Suspended?
  {
    ReachableInv(s);
  }

  /** Whenever the dispatcher has control, every started process is suspended in its wait and can be resumed. */
  lemma StartedAreSuspended(s: State)
    requires Reachable(s) && HasControl(s)
    ensures |s.ps| == MAX_PROCESS
    ensures forall i :: 0 <= i < MAX_PROCESS ==>
              s.ps[i].pc.NotStarted? || (s.ps[i].pc.Suspended? && ResumeLive(s.ps[i]))
    ensures s.at.DispatchLoop? ==> forall i :: 0 <= i < MAX_PROCESS ==> s.ps[i].pc.Suspended?
  {
    ReachableInv(s);
  }

  function TotalSuspends(ps: seq<Process>): nat {
    if ps == [] then 0 else TotalSuspends(ps[..|ps| - 1]) + ps[|ps| - 1].nSuspends
  }

  lemma {:induction false} SuspendsAreWaits(ps: seq<Process>)
    requires forall i :: 0 <= i < |ps| ==> ps[i].nSuspends == Waits(ps[i])
    ensures TotalSuspends(ps) == TotalWaits(ps)
  {
    if ps != [] {
      SuspendsAreWaits(ps[..|ps| - 1]);
    }
  }

  /** The id a process prints: the serial number cut to 32 bits. */
  function WaitId(serial: nat): nat {
    serial % U32
  }

  /** Ids count up from zero and start again after 2^32 of them. */
  lemma WaitIdWraps(serial: nat)
    ensures WaitId(0) == 0 && WaitId(serial) < U32
    ensures WaitId(serial + 1) == if WaitId(serial) == U32 - 1 then 0 else WaitId(serial) + 1
  {
  }

  /** A process between dispatches: one more suspend than resumes, and a log that ends in an open wait. */
  predicate AtRest(p: Process) {
    && p.nSuspends == p.resumes + 1 == Waits(p)
    && LogValid(p.log) && |p.log| == 2 * p.resumes + 1
    && p.pc == Suspended(Last(p.log).serial)
  }

  lemma SuspendedAtRest(ps: seq<Process>, n: nat)
    requires AccountsOf(ps, -1, n) && forall i :: 0 <= i < |ps| ==> ps[i].pc.Suspended?
    ensures TotalSuspends(ps) == n
    ensures forall i :: 0 <= i < |ps| ==> AtRest(ps[i]) && OpenSerial(ps[i], n)
    ensures forall i, j :: 0 <= i < j < |ps| ==> ps[i].pc.serial != ps[j].pc.serial
  {
    forall i | 0 <= i < |ps|
      ensures AtRest(ps[i]) && OpenSerial(ps[i], n)
    {
      SuspendedRests(ps[i], n);
    }
    SuspendsAreWaits(ps);
    forall i, j | 0 <= i < j < |ps|
      ensures ps[i].pc.serial != ps[j].pc.serial
    {
      assert !SameSerial(ps[i], ps[j]) && OpenSerial(ps[i], n) && OpenSerial(ps[j], n);
    }
  }

  predicate OpenSerial(p: Process, n: nat) {
    p.pc.Suspended? && p.log != [] && p.pc.serial == Last(p.log).serial < n
  }

  lemma SuspendedRests(p: Process, n: nat)
    requires Counted(p, false, n) && p.pc.Suspended?
    ensures AtRest(p) && OpenSerial(p, n)
  {
  }

  /**
   * Between dispatches every process is at rest, the suspends add up to the ids drawn, and as long
   * as no more than 2^32 ids were drawn the open ids printed are distinct.
   */
  lemma AccountsBetweenDispatches(s: State)
    requires Reachable(s) && s.at.DispatchLoop?
    ensures |s.ps| == MAX_PROCESS && TotalSuspends(s.ps) == s.nextSerial
    ensures forall i :: 0 <= i < |s.ps| ==> AtRest(s.ps[i])
    ensures s.nextSerial <= U32 ==> forall i, j :: 0 <= i < j < |s.ps| ==> OpenId(s.ps[i]) != OpenId(s.ps[j])
  {
    ReachableInv(s);
    SuspendedAtRest(s.ps, s.nextSerial);
    if s.nextSerial <= U32 {
      OpenIdsDiffer(s.ps, s.nextSerial);
    }
  }

  lemma OpenIdsDiffer(ps: seq<Process>, n: nat)
    requires n <= U32 && forall i :: 0 <= i < |ps| ==> ps[i].pc.Suspended? && OpenSerial(ps[i], n)
    requires forall i, j :: 0 <= i < j < |ps| ==>
               ps[i].pc.Suspended? && ps[j].pc.Suspended? && ps[i].pc.serial != ps[j].pc.serial
    ensures forall i, j :: 0 <= i < j < |ps| ==> OpenId(ps[i]) != OpenId(ps[j])
  {
  }

  /** The id in a process's open wait, as printed. */
  function OpenId(p: Process): nat {
    if p.pc.Suspended? then WaitId(p.pc.serial) else 0
  }

  // ----- The scheduler's own functions -----

  lemma {:induction false} RunSnoc(s: State, run: seq<Action>, a: Action)
    requires Legal(s, run) && Enabled(After(s, run), a)
    ensures Legal(s, run + [a]) && After(s, run + [a]) == Step(After(s, run), a)
    decreases |run|
  {
    if run == [] {
      assert run + [a] == [a] && [a][1..] == [];
    } else {
      assert (run + [a])[1..] == run[1..] + [a];
      RunSnoc(Step(s, run[0]), run[1..], a);
    }
  }

  lemma ReachableStep(s: State, a: Action)
    requires Reachable(s) && Enabled(s, a)
    ensures Reachable(Step(s, a))
  {
    var run :| Legal(Initial(), run) && After(Initial(), run) == s;
    RunSnoc(Initial(), run, a);
  }

  const LONGJMP_SUSPEND: nat := 4

  class Scheduler {
    var s: State

    ghost predicate Valid()
      reads this
    {
      Reachable(s)
    }

    constructor ()
      ensures Valid() && s == Initial()
    {
      s := Initial();
      assert Legal(Initial(), []) && After(Initial(), []) == Initial();
    }

    method Perform(a: Action)
      requires Valid() && Enabled(s, a)
      modifies this
      ensures Valid() && s == Step(old(s), a)
    {
      ReachableStep(s, a);
      s := Step(s, a);
    }

    /** Back from a wait, or entering the loop for the first time. */
    method EnterLoop(i: nat)
      requires Valid() && Enabled(s, Run(i)) && (s.ps[i].pc == Boot || s.ps[i].pc.Resumed?)
      modifies this
      ensures Valid() && |s.ps| == MAX_PROCESS
      ensures var p := old(s.ps[i]);
              var printed := if p.pc.Resumed? then [Get(p.pc.serial, p.nSuspends)] else [];
              s == old(s).(ps := old(s.ps)[i := p.(pc := Top, waitFrame := None, log := p.log + printed)])
    {
      ReachableInv(s);
      assert s.ps[i].log + [] == s.ps[i].log;
      Perform(Run(i));
    }

    /** Draws an id, prints the wait, saves the resume point and jumps back to the dispatcher. */
    method WaitForEventOrClock(i: nat)
      requires Valid() && Enabled(s, Run(i)) && s.ps[i].pc == Top && ReturnLive(s, s.ps[i])
      modifies this
      ensures Valid() && !s.crashed && |s.ps| == MAX_PROCESS && s.nextSerial == old(s.nextSerial) + 1
      ensures s.at == Back(old(s.at.process), old(s.at.frame), old(s.at.starting))
      ensures var p, id, f := old(s.ps[i]), old(s.nextSerial), old(s.nextFrame);
              s.ps == old(s.ps)[i := p.(pc := Suspended(id), log := p.log + [Wait(id, p.nSuspends)],
                                        waitFrame := Some(f), res := Some(f))]
    {
      Perform(Run(i));
      Perform(Run(i));
      Perform(Run(i));
    }

    /** `q` is `p` after it printed the given lines, opened a wait with the given id and was counted. */
    static ghost predicate Waited(p: Process, printed: seq<Entry>, q: Process, id: nat) {
      && q.pc == Suspended(id) && q.nSuspends == p.nSuspends + 1
      && q.log == p.log + printed + [Wait(id, p.nSuspends)]
    }

    /** Starting a process runs it up to its first wait. */
    method StartProcess(i: nat, tick: int)
      requires Valid() && s.at == StartLoop(i) && i < MAX_PROCESS
      modifies this
      ensures Valid() && s.at == StartLoop(i + 1) && s.nextSerial == old(s.nextSerial) + 1
      ensures |s.ps| == |old(s.ps)| == MAX_PROCESS && s.ps == old(s.ps)[i := s.ps[i]]
      ensures Waited(old(s.ps[i]), [], s.ps[i], old(s.nextSerial)) && s.ps[i].lastTimeStamp == tick
      ensures s.ps[i].resumes == 0
    {
      ReachableInv(s);
      assert Counted(s.ps[i], false, s.nextSerial);
      Perform(Dispatch(None, tick));
      EnterLoop(i);
      WaitForEventOrClock(i);
      Perform(Dispatch(None, tick));
    }

    /**
     * Resuming a process always comes back through the suspend path: the process finishes its open
     * wait and opens the next one, one more suspend is counted, and no other process changes.
     */
    method VlibProcessResume(i: nat, tick: int) returns (r: nat)
      requires Valid() && s.at == DispatchLoop && i < MAX_PROCESS
      modifies this
      ensures Valid() && s.at == DispatchLoop && s.nextSerial == old(s.nextSerial) + 1
      ensures |s.ps| == |old(s.ps)| == MAX_PROCESS && s.ps == old(s.ps)[i := s.ps[i]]
      ensures var p := old(s.ps[i]);
              && p.pc.Suspended? && Waited(p, [Get(p.pc.serial, p.nSuspends)], s.ps[i], old(s.nextSerial))
              && s.ps[i].resumes == p.resumes + 1 && s.ps[i].lastTimeStamp == tick
      ensures r == LONGJMP_SUSPEND
    {
      JumpsAreSafe(s);
      StartedAreSuspended(s);
      Perform(Dispatch(Some(i), tick));
      Perform(Dispatch(None, tick));
      EnterLoop(i);
      WaitForEventOrClock(i);
      r := LONGJMP_SUSPEND;
      Perform(Dispatch(None, tick));
    }

    /**
     * Start everything, then dispatch whatever the clock picks; numbers beyond the processes pick
     * nothing. Each process is resumed once for every tick that picks it.
     */
    method RunMain(ticks: seq<nat>)
      requires Valid() && s == Initial()
      modifies this
      ensures Valid() && s.at == DispatchLoop && |s.ps| == MAX_PROCESS
      ensures forall i :: 0 <= i < |s.ps| ==> AtRest(s.ps[i]) && s.ps[i].resumes == Picks(ticks, i)
      ensures TotalSuspends(s.ps) == s.nextSerial
    {
      for i := 0 to MAX_PROCESS
        invariant Valid() && s.at == StartLoop(i) && |s.ps| == MAX_PROCESS
        invariant forall j :: 0 <= j < i ==> s.ps[j].resumes == 0
      {
        StartProcess(i, 0);
      }
      JumpsAreSafe(s);
      Perform(Dispatch(None, 0));
      for k := 0 to |ticks|
        invariant Valid() && s.at == DispatchLoop && |s.ps| == MAX_PROCESS
        invariant forall i :: 0 <= i < MAX_PROCESS ==> s.ps[i].resumes == Picks(ticks[..k], i)
      {
        assert ticks[..k + 1][..k] == ticks[..k];
        var random := ticks[k] % (MAX_PROCESS * 2);
        if random < MAX_PROCESS {
          var r := VlibProcessResume(random, ticks[k]);
        }
      }
      assert ticks[..|ticks|] == ticks;
      AccountsBetweenDispatches(s);
    }
  }

  /** How many ticks pick process `i`. */
  function Picks(ticks: seq<nat>, i: int): nat {
    if ticks == [] then 0
    else
      var n := |ticks| - 1;
      Picks(ticks[..n], i) + if ticks[n] % (MAX_PROCESS * 2) == i then 1 else 0
  }

  /** One more tick: of twenty in a row, ten pick one process each, the other ten pick none. */
  lemma PicksSnoc(ticks: seq<nat>, q: nat, r: nat, i: nat)
    requires r < 20 && i < 10
    ensures Picks(ticks + [20 * q + r], i) == Picks(ticks, i) + One(r == i)
    ensures r >= 10 ==> Picks(ticks + [20 * q + r], i) == Picks(ticks, i)
  {
    assert (ticks + [20 * q + r])[..|ticks|] == ticks;
  }
}
