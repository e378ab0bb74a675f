/**
 * One echo session as a step system: VPP puts bytes into the rx fifo and raises events, the
 * server takes an event, drains the fifo and sends the bytes back. Every step of one side may
 * fall between any two steps of the other, and every transfer may be partial or fail.
 */
module EchoProtocol {
  import opened Common

  /**
   * `hasQueue` says whether the session has the event queue that tx events are posted to.
   * `clearFirst` swaps the handler's first two actions: the program takes the snapshot first
   * (`clearFirst == false`); the other order is there for comparison.
   */
  datatype Config = Config(haveReturn: bool, hasQueue: bool, rxBufLen: nat, clearFirst: bool)

  datatype Producer = Quiet | Enqueued | Posting

  /**
   * Where the server is: waiting, in its first two actions, reading, sending, raising the tx event,
   * or leaving. It is lost when it posts to a queue that was never set.
   */
  datatype Handler = Idle | Begin | Middle | Read | Send | Mark | Post | Return | Stopped | Lost

  /**
   * `rx` and `tx` are everything ever enqueued; `head` bytes of `rx` were taken so far. The last
   * five fields only record positions: of the latest snapshot and clear, of the start of the
   * current call in both streams, and of VPP's latest look at the tx fifo.
   */
  datatype State = State(
    rx: seq<u8>, head: nat, rxEvent: bool, rxQueued: nat, producer: Producer,
    tx: seq<u8>, txEvent: bool, txQueued: nat,
    at: Handler, maxDequeue: nat, buf: seq<u8>, offset: nat, nRead: nat, stop: bool,
    snapshot: nat, cleared: nat, rxStart: nat, txStart: nat, txCleared: nat)

  const INITIAL: State :=
    State([], 0, false, 0, Quiet, [], false, 0, Idle, 0, [], 0, 0, false, 0, 0, 0, 0, 0)

  datatype Label =
    | Take | Snapshot | Clear | Recv(r: int) | Sent(rv: int) | MarkTx | PostTx | Leave
    | Enqueue(bytes: seq<u8>) | MarkRx | PostRx | DrainTx | SetStop

  predicate WellFormed(s: State) {
    s.head <= |s.rx| && s.offset + s.nRead <= |s.buf|
  }

  /**
   * A receive or send returns a failure (zero or negative) or at most what was asked for; nothing
   * else is known about it.
   */
  predicate Enabled(c: Config, s: State, l: Label) {
    match l
    case Take => s.at == Idle && s.rxQueued > 0
    case Snapshot => s.at == if c.clearFirst then Middle else Begin
    case Clear => s.at == if c.clearFirst then Begin else Middle
    case Recv(r) => s.at == Read && r <= Min(c.rxBufLen, s.maxDequeue) && r <= |s.rx| - s.head
    case Sent(rv) => s.at == Send && rv <= s.nRead
    case MarkTx => s.at == Mark
    case PostTx => s.at == Post
    case Leave => s.at == Return
    case Enqueue(bytes) => s.producer == Quiet && bytes != []
    case MarkRx => s.producer == Enqueued
    case PostRx => s.producer == Posting
    case DrainTx => s.txQueued > 0
    case SetStop => true
  }

  /** The condition of the outer read loop, after a receive that returned `r`. */
  function Again(s: State, r: int): Handler {
    if (r < 0 || s.maxDequeue > 0) && !s.stop then Read else Return
  }

  /** Behind both opening actions: nothing to read means leaving at once. */
  function Opened(s: State): Handler {
    if s.maxDequeue == 0 then Return else Read
  }

  function Snapped(c: Config, s: State): (t: State)
    requires WellFormed(s)
    ensures WellFormed(t)
  {
    var t := s.(maxDequeue := |s.rx| - s.head, snapshot := |s.rx|, rxStart := s.head, txStart := |s.tx|);
    t.(at := if c.clearFirst then Opened(t) else Middle)
  }

  function Cleared(c: Config, s: State): (t: State)
    requires WellFormed(s)
    ensures WellFormed(t)
  {
    s.(rxEvent := false, cleared := |s.rx|, at := if c.clearFirst then Middle else Opened(s))
  }

  function Received(c: Config, s: State, r: int): (t: State)
    requires WellFormed(s) && Enabled(c, s, Recv(r))
    ensures WellFormed(t)
  {
    if r <= 0 then s.(at := Again(s, r))
    else
      var t := s.(head := s.head + r, maxDequeue := s.maxDequeue - r, buf := s.rx[s.head..s.head + r], offset := 0);
      if c.haveReturn then t.(nRead := r, at := Send) else t.(nRead := 0, at := Again(t, r))
  }

  function Transmitted(s: State, rv: int): (t: State)
    requires WellFormed(s) && rv <= s.nRead
    ensures WellFormed(t)
  {
    if rv <= 0 then s.(at := if s.stop then Mark else Send)
    else
      s.(tx := s.tx + s.buf[s.offset..s.offset + rv], offset := s.offset + rv, nRead := s.nRead - rv,
         at := if s.nRead - rv > 0 && !s.stop then Send else Mark)
  }

  function Marked(s: State): State {
    if s.txEvent then s.(at := Again(s, s.nRead)) else s.(txEvent := true, at := Post)
  }

  function Posted(c: Config, s: State): State {
    if c.hasQueue then s.(txQueued := s.txQueued + 1, at := Again(s, s.nRead)) else s.(at := Lost)
  }

  function RxMarked(s: State): State {
    if s.rxEvent then s.(producer := Quiet) else s.(rxEvent := true, producer := Posting)
  }

  function Drained(s: State): State
    requires s.txQueued > 0
  {
    s.(txQueued := s.txQueued - 1, txEvent := false, txCleared := |s.tx|)
  }

  function Apply(c: Config, s: State, l: Label): (t: State)
    requires WellFormed(s) && Enabled(c, s, l)
    ensures WellFormed(t)
  {
    match l
    case Take => s.(rxQueued := s.rxQueued - 1, at := Begin)
    case Snapshot => Snapped(c, s)
    case Clear => Cleared(c, s)
    case Recv(r) => Received(c, s, r)
    case Sent(rv) => Transmitted(s, rv)
    case MarkTx => Marked(s)
    case PostTx => Posted(c, s)
    case Leave => s.(at := if s.stop then Stopped else Idle)
    case Enqueue(bytes) => s.(rx := s.rx + bytes, producer := Enqueued)
    case MarkRx => RxMarked(s)
    case PostRx => s.(rxQueued := s.rxQueued + 1, producer := Quiet)
    case DrainTx => Drained(s)
    case SetStop => s.(stop := true)
  }

  // ----- The invariant -----

  /** The server has taken an event whose flag is still up. */
  predicate HoldsEvent(c: Config, s: State) {
    s.at == Begin || (s.at == Middle && !c.clearFirst)
  }

  /** A raised rx flag is always one event: queued, about to be posted, or in the handler's hands. */
  predicate RxTokens(c: Config, s: State) {
    s.rxQueued + One(s.producer == Posting) + One(HoldsEvent(c, s)) == One(s.rxEvent)
  }

  /** A raised tx flag is always one event: queued, about to be posted, or lost with its server. */
  predicate TxTokens(s: State) {
    s.txQueued + One(s.at == Post) + One(s.at == Lost) == One(s.txEvent)
  }

  predicate Tokens(c: Config, s: State) {
    RxTokens(c, s) && TxTokens(s)
  }

  /** Bytes behind the latest clear have raised the rx flag or are about to. */
  predicate RxAnnounced(s: State) {
    s.cleared <= |s.rx| && (s.cleared < |s.rx| ==> s.rxEvent || s.producer == Enqueued)
  }

  predicate TxAnnounced(s: State) {
    s.txCleared <= |s.tx| && (s.txCleared < |s.tx| ==> s.txEvent || s.at == Send || s.at == Mark)
  }

  predicate Announced(s: State) {
    RxAnnounced(s) && TxAnnounced(s)
  }

  predicate InCall(s: State) {
    s.at == Read || s.at == Return || s.at == Stopped || Echoing(s)
  }

  /** From a successful receive until the tx event is out. */
  predicate Echoing(s: State) {
    s.at == Send || s.at == Mark || s.at == Post || s.at == Lost
  }

  /** What is left of the snapshot while a call runs; between calls nothing is left. */
  predicate Progress(c: Config, s: State) {
    && s.snapshot <= |s.rx|
    && s.rxStart <= s.head <= s.snapshot
    && (InCall(s) || (s.at == Middle && !c.clearFirst) ==> s.head + s.maxDequeue == s.snapshot)
    && (s.at == Read ==> s.maxDequeue > 0)
    && (s.at == Idle || s.at == Begin || (s.at == Return && !s.stop) ==> s.head == s.snapshot)
    && (s.at == Middle && c.clearFirst ==> s.head == s.snapshot)
    && (s.at == Stopped ==> s.stop)
    && (s.at != Middle ==> if c.clearFirst then s.cleared <= s.snapshot else s.snapshot <= s.cleared)
  }

  /** Everything taken was sent, in order, except for the unsent rest of the buffer. */
  predicate Echoed(c: Config, s: State)
    requires WellFormed(s)
  {
    && (s.nRead > 0 ==> s.at == Send || (s.stop && (Echoing(s) || s.at == Return || s.at == Stopped)))
    && (c.haveReturn ==>
          && s.rx[..s.head] == s.tx + s.buf[s.offset..s.offset + s.nRead]
          && s.txStart == s.rxStart)
    && (!c.haveReturn ==> s.tx == [] && s.nRead == 0)
  }

  /** Without a queue no tx event is ever out, and nothing is taken except in an echo that does not end. */
  predicate Queueless(c: Config, s: State) {
    && (!c.haveReturn ==> !Echoing(s))
    && (s.at == Lost ==> !c.hasQueue)
    && (!c.hasQueue ==> s.txQueued == 0)
    && (!c.hasQueue && c.haveReturn && !Echoing(s) ==> s.head == 0)
  }

  predicate Inv(c: Config, s: State) {
    WellFormed(s) && Tokens(c, s) && Announced(s) && Progress(c, s) && Echoed(c, s) && Queueless(c, s)
  }

  predicate IsOutside(l: Label) {
    l.Enqueue? || l == MarkRx || l == PostRx || l == DrainTx || l == SetStop
  }

  lemma OutsideKeepsRxTokens(c: Config, s: State, l: Label)
    requires WellFormed(s) && Enabled(c, s, l) && IsOutside(l) && RxTokens(c, s)
    ensures RxTokens(c, Apply(c, s, l))
  {
  }

  lemma ServerKeepsRxTokens(c: Config, s: State, l: Label)
    requires WellFormed(s) && Enabled(c, s, l) && !IsOutside(l) && RxTokens(c, s)
    ensures RxTokens(c, Apply(c, s, l))
  {
  }

  lemma StepKeepsTxTokens(c: Config, s: State, l: Label)
    requires WellFormed(s) && Enabled(c, s, l) && TxTokens(s)
    ensures TxTokens(Apply(c, s, l))
  {
  }

  lemma StepKeepsTokens(c: Config, s: State, l: Label)
    requires WellFormed(s) && Enabled(c, s, l) && Tokens(c, s)
    ensures Tokens(c, Apply(c, s, l))
  {
    if IsOutside(l) {
      OutsideKeepsRxTokens(c, s, l);
    } else {
      ServerKeepsRxTokens(c, s, l);
    }
    StepKeepsTxTokens(c, s, l);
  }

  lemma StepKeepsRxAnnounced(c: Config, s: State, l: Label)
    requires WellFormed(s) && Enabled(c, s, l) && RxAnnounced(s)
    ensures RxAnnounced(Apply(c, s, l))
  {
  }

  lemma StepKeepsTxAnnounced(c: Config, s: State, l: Label)
    requires WellFormed(s) && Enabled(c, s, l) && TxAnnounced(s)
    ensures TxAnnounced(Apply(c, s, l))
  {
  }

  lemma StepKeepsAnnounced(c: Config, s: State, l: Label)
    requires WellFormed(s) && Enabled(c, s, l) && Announced(s)
    ensures Announced(Apply(c, s, l))
  {
    StepKeepsRxAnnounced(c, s, l);
    StepKeepsTxAnnounced(c, s, l);
  }

  lemma StepKeepsQueueless(c: Config, s: State, l: Label)
    requires WellFormed(s) && Enabled(c, s, l) && TxTokens(s) && Queueless(c, s)
    ensures Queueless(c, Apply(c, s, l))
  {
  }

  lemma OpeningKeepsProgress(c: Config, s: State, l: Label)
    requires WellFormed(s) && Enabled(c, s, l) && (l == Snapshot || l == Clear)
    requires Announced(s) && Progress(c, s)
    ensures Progress(c, Apply(c, s, l))
  {
  }

  lemma ReceiveKeepsProgress(c: Config, s: State, r: int)
    requires WellFormed(s) && Enabled(c, s, Recv(r)) && Progress(c, s)
    ensures Progress(c, Received(c, s, r))
  {
  }

  lemma TransmitKeepsProgress(c: Config, s: State, rv: int)
    requires WellFormed(s) && Enabled(c, s, Sent(rv)) && Progress(c, s)
    ensures Progress(c, Transmitted(s, rv))
  {
  }

  lemma MarkKeepsProgress(c: Config, s: State)
    requires WellFormed(s) && s.at == Mark && Progress(c, s) && (s.nRead > 0 ==> s.stop)
    ensures Progress(c, Marked(s))
  {
  }

  lemma PostKeepsProgress(c: Config, s: State)
    requires WellFormed(s) && s.at == Post && Progress(c, s) && (s.nRead > 0 ==> s.stop)
    ensures Progress(c, Posted(c, s))
  {
  }

  lemma OtherKeepsProgress(c: Config, s: State, l: Label)
    requires WellFormed(s) && Enabled(c, s, l) && !l.Recv? && !l.Sent?
    requires l != Snapshot && l != Clear && l != MarkTx && l != PostTx && Progress(c, s)
    ensures Progress(c, Apply(c, s, l))
  {
  }

  lemma StepKeepsProgress(c: Config, s: State, l: Label)
    requires WellFormed(s) && Enabled(c, s, l) && Announced(s) && Progress(c, s) && Echoed(c, s)
    ensures Progress(c, Apply(c, s, l))
  {
    if l == Snapshot || l == Clear {
      OpeningKeepsProgress(c, s, l);
    } else if l.Recv? {
      ReceiveKeepsProgress(c, s, l.r);
    } else if l.Sent? {
      TransmitKeepsProgress(c, s, l.rv);
    } else if l == MarkTx {
      MarkKeepsProgress(c, s);
    } else if l == PostTx {
      PostKeepsProgress(c, s);
    } else {
      OtherKeepsProgress(c, s, l);
    }
  }

  lemma ReceiveKeepsEchoed(c: Config, s: State, r: int)
    requires WellFormed(s) && Enabled(c, s, Recv(r)) && Echoed(c, s)
    ensures Echoed(c, Received(c, s, r))
  {
    if r > 0 {
      var t := Received(c, s, r);
      assert s.nRead == 0 && s.buf[s.offset..s.offset] == [];
      assert s.rx[..t.head] == s.rx[..s.head] + s.rx[s.head..t.head];
      assert t.buf[0..r] == t.buf;
    }
  }

  lemma TransmitKeepsEchoed(c: Config, s: State, rv: int)
    requires WellFormed(s) && Enabled(c, s, Sent(rv)) && Echoed(c, s)
    ensures Echoed(c, Transmitted(s, rv))
  {
    if rv > 0 {
      var mid, end := s.offset + rv, s.offset + s.nRead;
      assert s.buf[s.offset..end] == s.buf[s.offset..mid] + s.buf[mid..end];
    }
  }

  lemma EnqueueKeepsEchoed(c: Config, s: State, bytes: seq<u8>)
    requires WellFormed(s) && Echoed(c, s)
    ensures Echoed(c, s.(rx := s.rx + bytes, producer := Enqueued))
  {
    assert (s.rx + bytes)[..s.head] == s.rx[..s.head];
  }

  lemma SnapshotKeepsEchoed(c: Config, s: State)
    requires WellFormed(s) && Enabled(c, s, Snapshot) && Echoed(c, s)
    ensures Echoed(c, Snapped(c, s))
  {
    assert c.haveReturn ==> |s.rx[..s.head]| == |s.tx| + s.nRead;
  }

  lemma NotifyKeepsEchoed(c: Config, s: State)
    requires WellFormed(s) && (s.at == Mark || s.at == Post) && Echoed(c, s)
    ensures Echoed(c, Marked(s)) && Echoed(c, Posted(c, s))
  {
  }

  /** The steps that touch neither the streams nor the buffer. */
  lemma OtherKeepsEchoed(c: Config, s: State, l: Label)
    requires WellFormed(s) && Enabled(c, s, l) && Echoed(c, s)
    requires l != Snapshot && l != MarkTx && l != PostTx && !l.Recv? && !l.Sent? && !l.Enqueue?
    ensures Echoed(c, Apply(c, s, l))
  {
  }

  lemma StepKeepsEchoed(c: Config, s: State, l: Label)
    requires WellFormed(s) && Enabled(c, s, l) && Echoed(c, s)
    ensures Echoed(c, Apply(c, s, l))
  {
    match l
    case Recv(r) => ReceiveKeepsEchoed(c, s, r);
    case Sent(rv) => TransmitKeepsEchoed(c, s, rv);
    case Enqueue(bytes) => EnqueueKeepsEchoed(c, s, bytes);
    case Snapshot => SnapshotKeepsEchoed(c, s);
    case MarkTx => NotifyKeepsEchoed(c, s);
    case PostTx => NotifyKeepsEchoed(c, s);
    case _ => OtherKeepsEchoed(c, s, l);
  }

  lemma StepKeepsInv(c: Config, s: State, l: Label)
    requires Inv(c, s) && Enabled(c, s, l)
    ensures Inv(c, Apply(c, s, l))
  {
    StepKeepsTokens(c, s, l);
    StepKeepsAnnounced(c, s, l);
    StepKeepsProgress(c, s, l);
    StepKeepsEchoed(c, s, l);
    StepKeepsQueueless(c, s, l);
  }

  // ----- Runs -----

  predicate Legal(c: Config, s: State, run: seq<Label>)
    requires WellFormed(s)
    decreases |run|
  {
    run == [] || (Enabled(c, s, run[0]) && Legal(c, Apply(c, s, run[0]), run[1..]))
  }

  function After(c: Config, s: State, run: seq<Label>): (t: State)
    requires WellFormed(s) && Legal(c, s, run)
    ensures WellFormed(t)
    decreases |run|
  {
    if run == [] then s else After(c, Apply(c, s, run[0]), run[1..])
  }

  lemma {:induction false} RunKeepsInv(c: Config, s: State, run: seq<Label>)
    requires Inv(c, s) && Legal(c, s, run)
    ensures Inv(c, After(c, s, run))
    decreases |run|
  {
    if run != [] {
      StepKeepsInv(c, s, run[0]);
      RunKeepsInv(c, Apply(c, s, run[0]), run[1..]);
    }
  }

  ghost predicate Reachable(c: Config, s: State) {
    exists run :: Legal(c, INITIAL, run) && After(c, INITIAL, run) == s
  }

  lemma ReachableInv(c: Config, s: State)
    requires Reachable(c, s)
    ensures Inv(c, s)
  {
    var run :| Legal(c, INITIAL, run) && After(c, INITIAL, run) == s;
    RunKeepsInv(c, INITIAL, run);
  }

  lemma {:induction false} RunSnoc(c: Config, s: State, run: seq<Label>, l: Label)
    requires WellFormed(s) && Legal(c, s, run) && Enabled(c, After(c, s, run), l)
    ensures Legal(c, s, run + [l]) && After(c, s, run + [l]) == Apply(c, After(c, s, run), l)
    decreases |run|
  {
    if run == [] {
      assert run + [l] == [l] && [l][1..] == [];
    } else {
      RunSnoc(c, Apply(c, s, run[0]), run[1..], l);
      assert (run + [l])[1..] == run[1..] + [l];
    }
  }

  // ----- What holds in every reachable state -----

  /** Stream order and conservation, at every step of every run. */
  lemma EchoOrder(c: Config, s: State)
    requires Reachable(c, s) && c.haveReturn
    ensures WellFormed(s) && s.rx[..s.head] == s.tx + s.buf[s.offset..s.offset + s.nRead]
    ensures s.at == Idle ==> s.tx == s.rx[..s.head]
  {
    ReachableInv(c, s);
  }

  /** A call that is not told to stop sends back exactly the bytes that its snapshot counted. */
  lemma CallEchoesSnapshot(c: Config, s: State)
    requires Reachable(c, s) && s.at == Return && !s.stop
    ensures s.rxStart <= s.snapshot == s.head <= |s.rx|
    ensures c.haveReturn ==> s.txStart <= |s.tx| && s.tx[s.txStart..] == s.rx[s.rxStart..s.snapshot]
    ensures !c.haveReturn ==> s.tx == []
  {
    ReachableInv(c, s);
    if c.haveReturn {
      assert s.buf[s.offset..s.offset] == [];
      assert s.tx == s.rx[..s.head];
    }
  }

  predicate Resting(s: State) {
    s.at == Idle && s.rxQueued == 0 && s.producer == Quiet
  }

  /** Bytes that arrive behind the latest clear always have an event on its way. */
  lemma ArrivalsAreAnnounced(c: Config, s: State)
    requires Reachable(c, s) && s.cleared < |s.rx|
    ensures s.rxQueued > 0 || s.producer != Quiet || HoldsEvent(c, s)
  {
    ReachableInv(c, s);
  }

  /**
   * With the server waiting and no event on its way, what is unread is exactly what arrived
   * between the latest snapshot and the clear behind it; so nothing is stranded if and only if
   * nothing arrived there.
   */
  lemma StrandedBytes(c: Config, s: State)
    requires Reachable(c, s) && Resting(s) && !c.clearFirst
    ensures s.snapshot <= s.cleared == |s.rx| && s.head == s.snapshot
    ensures s.rx[s.head..] == s.rx[s.snapshot..s.cleared]
    ensures s.rx[s.head..] == [] <==> s.snapshot == s.cleared
  {
    ReachableInv(c, s);
  }

  /** Clearing before the snapshot strands nothing. */
  lemma ClearFirstStrandsNothing(c: Config, s: State)
    requires Reachable(c, s) && Resting(s) && c.clearFirst
    ensures s.rx[s.head..] == []
  {
    ReachableInv(c, s);
  }

  /** The program, for a session whose queue is set. */
  const PROGRAM := Config(true, true, 65537, false)

  lemma RunToEvent(c: Config) returns (s: State)
    requires c.(hasQueue := true) == PROGRAM
    ensures Reachable(c, s)
    ensures s == State([7], 0, true, 0, Quiet, [], false, 0, Begin, 0, [], 0, 0, false, 0, 0, 0, 0, 0)
  {
    s := INITIAL;
    assert Legal(c, s, []) && After(c, s, []) == s;
    s := Extend(c, s, Enqueue([7]));
    s := Extend(c, s, MarkRx);
    s := Extend(c, s, PostRx);
    s := Extend(c, s, Take);
  }

  lemma RunIntoWindow() returns (s: State)
    ensures Reachable(PROGRAM, s)
    ensures s == State([7, 8], 0, false, 0, Quiet, [], false, 0, Read, 1, [], 0, 0, false, 1, 2, 0, 0, 0)
  {
    var c := PROGRAM;
    s := RunToEvent(c);
    s := Extend(c, s, Snapshot);
    s := Extend(c, s, Enqueue([8]));
    s := Extend(c, s, MarkRx);
    s := Extend(c, s, Clear);
  }

  /** A run of the program that ends at rest with a byte nobody will fetch: it came in that window. */
  lemma StrandingRun() returns (s: State)
    ensures Reachable(PROGRAM, s) && Resting(s) && s.head <= |s.rx| && s.rx[s.head..] == [8]
  {
    var c := PROGRAM;
    s := RunIntoWindow();
    s := Extend(c, s, Recv(1));
    s := Extend(c, s, Sent(1));
    s := Extend(c, s, MarkTx);
    s := Extend(c, s, PostTx);
    s := Extend(c, s, Leave);
  }

  lemma Extend(c: Config, s: State, l: Label) returns (t: State)
    requires Reachable(c, s) && WellFormed(s) && Enabled(c, s, l)
    ensures t == Apply(c, s, l) && Reachable(c, t)
  {
    var run :| Legal(c, INITIAL, run) && After(c, INITIAL, run) == s;
    RunSnoc(c, INITIAL, run, l);
    t := Apply(c, s, l);
  }

  /** Bytes echoed since VPP last looked have a tx event pending unless the server is still sending or lost. */
  lemma EchoIsAnnounced(c: Config, s: State)
    requires Reachable(c, s) && s.txCleared < |s.tx| && s.at != Send && s.at != Mark && s.at != Post
    ensures if s.at == Lost then !c.hasQueue && s.txQueued == 0 else c.hasQueue && s.txQueued == 1
  {
    ReachableInv(c, s);
  }

  /**
   * A session whose queue was never set: VPP is never told about an echo, and no call that
   * received a byte ends; outside such a call nothing was ever taken or sent.
   */
  lemma EchoNeedsQueue(c: Config, s: State)
    requires Reachable(c, s) && !c.hasQueue && c.haveReturn
    ensures s.txQueued == 0
    ensures !Echoing(s) ==> s.head == 0 && s.tx == []
  {
    ReachableInv(c, s);
  }

  lemma RunToPost(c: Config) returns (s: State)
    requires c == PROGRAM.(hasQueue := false)
    ensures Reachable(c, s)
    ensures s == State([7], 1, false, 0, Quiet, [7], true, 0, Post, 0, [7], 1, 0, false, 1, 1, 0, 0, 0)
  {
    s := RunToReceived(c);
    s := Extend(c, s, Sent(1));
    s := Extend(c, s, MarkTx);
  }

  lemma RunToReceived(c: Config) returns (s: State)
    requires c == PROGRAM.(hasQueue := false)
    ensures Reachable(c, s)
    ensures s == State([7], 1, false, 0, Quiet, [], false, 0, Send, 0, [7], 0, 1, false, 1, 1, 0, 0, 0)
  {
    s := RunToEvent(c);
    s := Extend(c, s, Snapshot);
    s := Extend(c, s, Clear);
    assert [7][0..1] == [7];
    s := Extend(c, s, Recv(1));
  }

  /** The first byte sent to such a session already loses the server. */
  lemma LostRun(c: Config) returns (s: State)
    requires c == PROGRAM.(hasQueue := false)
    ensures Reachable(c, s) && s.rx == [7] && s.at == Lost
  {
    s := RunToPost(c);
    s := Extend(c, s, PostTx);
  }
}
