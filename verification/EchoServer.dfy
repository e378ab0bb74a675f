/**
 * The server side of the echo session in its own form. Every action on a fifo or queue logs the
 * step it takes, so that each execution is a run of `EchoProtocol`, whatever VPP does meanwhile.
 */
module EchoServer {
  import opened Common
  import opened EchoProtocol
  import opened RateWindows

  /**
   * How the handler ends: it returns, it is lost in a post to a queue that was never set, or the
   * execution is cut short.
   */
  datatype Ending = Returned | NoQueue | CutShort

  class Session {
    const config: Config
    const rxBuf: array<u8>
    /** Where the handler records what it reads. */
    const status: Status
    // rx fifo: everything enqueued, how much was taken, and its has-event flag
    var rx: seq<u8>
    var head: nat
    var rxEvent: bool
    // tx fifo
    var tx: seq<u8>
    var txEvent: bool
    // the event queues in both directions, and VPP's position in its enqueue-and-notify sequence
    var rxQueued: nat
    var txQueued: nat
    var producer: Producer
    var timeToStop: bool

    ghost var model: State
    /** Receives and sends tried so far, and how many of them moved nothing. */
    ghost var transfers: nat
    ghost var stalls: nat
    /** Receives tried so far, and the result of each that was recorded. */
    ghost var receives: nat
    ghost var results: seq<int>
    /** Turns of the event loop so far, those that found an event, and the events taken. */
    ghost var turns: nat
    ghost var busyTurns: nat
    ghost var eventsTaken: nat

    ghost predicate Valid()
      reads this`rx, this`head, this`rxEvent, this`tx, this`txEvent, this`rxQueued, this`txQueued, this`producer,
        this`timeToStop, this`model, rxBuf
    {
      && Reachable(config, model)
      && !config.clearFirst
      && rx == model.rx && head == model.head && rxEvent == model.rxEvent
      && tx == model.tx && txEvent == model.txEvent
      && rxQueued == model.rxQueued && txQueued == model.txQueued
      && producer == model.producer && timeToStop == model.stop
      && rxBuf.Length == config.rxBufLen < 0x8000_0000 && |model.buf| <= rxBuf.Length
      && rxBuf[..|model.buf|] == model.buf
    }

    /** Every receive was recorded, and what was taken is what the results say. */
    ghost predicate Recorded()
      reads this`results, this`receives, this`head, status, status.status
    {
      && status.Valid() && Records(status.history, results)
      && |results| == receives && ReadTotal(results) == head
    }

    /** What the transfers so far moved beyond one byte each, those that moved nothing apart. */
    ghost function Slack(): int
      reads this`head, this`tx, this`stalls, this`transfers
    {
      head + |tx| + stalls - transfers
    }

    constructor (c: Config, feq: u64)
      requires !c.clearFirst && c.rxBufLen < 0x8000_0000
      ensures Valid() && Recorded() && config == c && model == INITIAL
      ensures fresh(rxBuf) && fresh(status) && fresh(status.status)
    {
      config := c;
      status := new Status(feq);
      rxBuf := new u8[c.rxBufLen](i => 0);
      rx, head, rxEvent, tx, txEvent := [], 0, false, [], false;
      rxQueued, txQueued, producer, timeToStop := 0, 0, Quiet, false;
      model, transfers, stalls, receives, results := INITIAL, 0, 0, 0, [];
      turns, busyTurns, eventsTaken := 0, 0, 0;
      assert Legal(c, INITIAL, []) && After(c, INITIAL, []) == INITIAL;
    }

    /** The step just taken continues the run. */
    ghost method Log(l: Label)
      requires Reachable(config, model) && WellFormed(model) && Enabled(config, model, l)
      modifies this`model
      ensures model == Apply(config, old(model), l) && Reachable(config, model)
    {
      model := Extend(config, model, l);
    }

    lemma Known()
      requires Valid()
      ensures Inv(config, model)
    {
      ReachableInv(config, model);
    }

    // ----- VPP and the signal handler, between any two actions of the server -----

    /** What the other parties leave alone. */
    static ghost predicate ServerSideKept(s: State, t: State) {
      && t.at == s.at && t.maxDequeue == s.maxDequeue && t.buf == s.buf && t.offset == s.offset && t.nRead == s.nRead
      && t.head == s.head && t.tx == s.tx && s.rx <= t.rx && (s.stop ==> t.stop) && s.rxQueued <= t.rxQueued
      && t.snapshot == s.snapshot && t.cleared == s.cleared && t.rxStart == s.rxStart && t.txStart == s.txStart
    }

    /** Any number of steps of the others, in any order. */
    method Others()
      requires Valid()
      modifies this`rx, this`rxEvent, this`rxQueued, this`txEvent, this`txQueued, this`producer,
        this`timeToStop, this`model
      ensures Valid() && ServerSideKept(old(model), model)
    {
      var n: nat := *;
      while n > 0
        invariant Valid() && ServerSideKept(old(model), model)
      {
        n := n - 1;
        OtherStep();
      }
    }

    method OtherStep()
      requires Valid()
      modifies this`rx, this`rxEvent, this`rxQueued, this`txEvent, this`txQueued, this`producer,
        this`timeToStop, this`model
      ensures Valid() && ServerSideKept(old(model), model)
    {
      var wantsStop: bool, drains: bool := *, *;
      if wantsStop {
        timeToStop := true;
        Log(SetStop);
      } else if drains && txQueued > 0 {
        DrainTxEvent();
      } else {
        ProducerStep();
      }
    }

    method DrainTxEvent()
      requires Valid() && txQueued > 0
      modifies this`txEvent, this`txQueued, this`model
      ensures Valid() && ServerSideKept(old(model), model)
    {
      txQueued, txEvent := txQueued - 1, false;
      Log(DrainTx);
    }

    /** VPP enqueues, then raises the flag, and posts an event only if the flag was down. */
    method ProducerStep()
      requires Valid()
      modifies this`rx, this`rxEvent, this`rxQueued, this`producer, this`model
      ensures Valid() && ServerSideKept(old(model), model)
    {
      match producer
      case Quiet =>
        var bytes: seq<u8> := *;
        if bytes != [] {
          EnqueueRx(bytes);
        }
      case Enqueued =>
        MarkRxEvent();
      case Posting =>
        PostRxEvent();
    }

    method EnqueueRx(bytes: seq<u8>)
      requires Valid() && producer == Quiet && bytes != []
      modifies this`rx, this`producer, this`model
      ensures Valid() && ServerSideKept(old(model), model)
    {
      rx, producer := rx + bytes, Enqueued;
      Log(Enqueue(bytes));
    }

    method MarkRxEvent()
      requires Valid() && producer == Enqueued
      modifies this`rxEvent, this`producer, this`model
      ensures Valid() && ServerSideKept(old(model), model)
    {
      producer := if rxEvent then Quiet else Posting;
      rxEvent := true;
      Log(MarkRx);
    }

    method PostRxEvent()
      requires Valid() && producer == Posting
      modifies this`rxQueued, this`producer, this`model
      ensures Valid() && ServerSideKept(old(model), model)
    {
      rxQueued, producer := rxQueued + 1, Quiet;
      Log(PostRx);
    }

    // ----- Single actions of the server -----

    method TakeEvent()
      requires Valid() && model.at == Idle && rxQueued > 0
      modifies this`rxQueued, this`model, this`eventsTaken
      ensures Valid() && model == Apply(config, old(model), Take) && eventsTaken == old(eventsTaken) + 1
    {
      rxQueued, eventsTaken := rxQueued - 1, eventsTaken + 1;
      Log(Take);
    }

    method MaxDequeue() returns (n: nat)
      requires Valid() && model.at == Begin
      modifies this`model
      ensures Valid() && model == Apply(config, old(model), Snapshot)
      ensures n == model.maxDequeue == |rx| - head
    {
      n := |rx| - head;
      Log(Snapshot);
    }

    method UnsetEvent()
      requires Valid() && model.at == Middle
      modifies this`rxEvent, this`model
      ensures Valid() && model == Apply(config, old(model), Clear)
    {
      rxEvent := false;
      Log(Clear);
    }

    /** A failure, or at most `maxTransfer` of the oldest bytes, copied to the front of the buffer. */
    method AppRecvStreamRaw(maxTransfer: nat) returns (nRead: int)
      requires Valid() && model.at == Read && maxTransfer == Min(config.rxBufLen, model.maxDequeue)
      modifies this`head, this`model, this`transfers, this`stalls, this`receives, rxBuf
      ensures Valid() && IsResult(nRead) && nRead <= maxTransfer && nRead <= |old(rx)| - old(head)
      ensures model == Received(config, old(model), nRead) && head == old(head) + Max(nRead, 0)
      ensures transfers == old(transfers) + 1 && receives == old(receives) + 1 && Slack() >= old(Slack())
    {
      nRead :| IsResult(nRead) && nRead <= maxTransfer && nRead <= |rx| - head;
      transfers, receives := transfers + 1, receives + 1;
      if nRead > 0 {
        TakeBytes(nRead);
      } else {
        TakeNothing(nRead);
      }
    }

    /** A receive that failed leaves the fifo alone. */
    ghost method TakeNothing(r: int)
      requires Valid() && Enabled(config, model, Recv(r)) && r <= 0
      modifies this`model, this`stalls
      ensures Valid() && model == Received(config, old(model), r) && stalls == old(stalls) + 1
    {
      stalls := stalls + 1;
      Log(Recv(r));
    }

    /** The result of a receive is recorded, whatever it is. */
    method RecordRead(nRead: int)
      requires status.Valid() && Records(status.history, results) && IsResult(nRead)
      requires ReadTotal(results) + Max(nRead, 0) == head && |results| + 1 == receives
      modifies this`results, status, status.status
      ensures Recorded() && results == old(results) + [nRead]
    {
      var now: u64, later: u64 := *, *;
      RecordsSnoc(status.history, results, nRead, now, later);
      status.Record(AsU32(nRead), 1, now, later);
      results := results + [nRead];
    }

    method TakeBytes(n: nat)
      requires Valid() && Enabled(config, model, Recv(n)) && n > 0
      modifies this`head, this`model, rxBuf
      ensures Valid() && model == Received(config, old(model), n) && head == old(head) + n
    {
      ghost var before := model;
      CopyOut(n);
      head := head + n;
      Log(Recv(n));
      OnlyTaken(before, n);
    }

    /** What a receive of `n` bytes changes among the variables the session shares with its model. */
    lemma OnlyTaken(s: State, n: nat)
      requires WellFormed(s) && Enabled(config, s, Recv(n)) && n > 0
      ensures var t := Received(config, s, n);
              && t.buf == s.rx[s.head..s.head + n] && t.head == s.head + n
              && t == s.(head := t.head, maxDequeue := t.maxDequeue, buf := t.buf, offset := 0,
                      nRead := t.nRead, at := t.at)
    {
    }

    method CopyOut(n: nat)
      requires n <= rxBuf.Length && head + n <= |rx|
      modifies rxBuf
      ensures rxBuf[..n] == rx[head..head + n]
    {
      forall i | 0 <= i < n {
        rxBuf[i] := rx[head + i];
      }
    }

    /** A failure, or a non-empty front of the bytes offered goes to the tx fifo. */
    method AppSend(offset: nat, n: nat) returns (rv: int)
      requires Valid() && model.at == Send && model.offset == offset && model.nRead == n
      modifies this`tx, this`model, this`transfers, this`stalls
      ensures Valid() && rv <= n && timeToStop == old(timeToStop)
      ensures model == Transmitted(old(model), rv)
      ensures transfers == old(transfers) + 1 && Slack() >= old(Slack())
    {
      rv :| rv <= n;
      transfers := transfers + 1;
      if rv > 0 {
        PutBytes(offset, rv);
      } else {
        stalls := stalls + 1;
        Log(Sent(rv));
      }
    }

    method PutBytes(offset: nat, n: nat)
      requires Valid() && Enabled(config, model, Sent(n)) && n > 0 && model.offset == offset
      modifies this`tx, this`model
      ensures Valid() && model == Transmitted(old(model), n) && |tx| == |old(tx)| + n
    {
      BufferHolds(offset, n);
      tx := tx + rxBuf[offset..offset + n];
      Log(Sent(n));
    }

    /** What is about to be sent is the unsent part of the buffer. */
    lemma BufferHolds(offset: nat, n: nat)
      requires Valid() && model.offset == offset && n <= model.nRead
      ensures WellFormed(model) && offset + n <= rxBuf.Length
      ensures rxBuf[offset..offset + n] == model.buf[offset..offset + n]
    {
      Known();
      SliceOfFront(rxBuf[..], |model.buf|, offset, offset + n);
      assert rxBuf[..][offset..offset + n] == rxBuf[offset..offset + n];
    }

    static lemma SliceOfFront(s: seq<u8>, n: nat, lo: nat, hi: nat)
      requires lo <= hi <= n <= |s|
      ensures s[..n][lo..hi] == s[lo..hi]
    {
    }

    method SetTxEvent() returns (wasUnset: bool)
      requires Valid() && model.at == Mark
      modifies this`txEvent, this`model
      ensures Valid() && wasUnset == !old(txEvent)
      ensures model == Apply(config, old(model), MarkTx)
    {
      wasUnset := !txEvent;
      txEvent := true;
      Log(MarkTx);
    }

    /** Posts to the session's own queue, if there is one. */
    method SendIoEvt()
      requires Valid() && model.at == Post
      modifies this`txQueued, this`model
      ensures Valid() && model == Apply(config, old(model), PostTx)
    {
      if config.hasQueue {
        txQueued := txQueued + 1;
      }
      Log(PostTx);
    }

    // ----- The rx event handler -----

    /**
     * The inner loop: offer the unsent rest until it is gone or a stop is seen. `fuel` only cuts the
     * execution short.
     */
    method SendBack(n: nat, fuel: nat) returns (done: bool, unsent: nat)
      requires Valid() && model.at == Send && model.offset == 0 && model.nRead == n
      modifies this`rx, this`rxEvent, this`rxQueued, this`tx, this`txEvent, this`txQueued, this`producer,
        this`timeToStop, this`model, this`transfers, this`stalls
      ensures Valid()
      ensures model.maxDequeue == old(model.maxDequeue) && SameCall(old(model), model) && old(rx) <= rx
      ensures done ==> model.at == Mark && model.nRead == unsent
      ensures transfers >= old(transfers) + if done then 0 else fuel
      ensures Slack() >= old(Slack())
    {
      var offset, left := 0, fuel;
      unsent := n;
      while true
        invariant Valid() && old(rx) <= rx
        invariant model.at == Send && model.offset == offset && model.nRead == unsent
        invariant transfers - old(transfers) >= fuel - left >= 0 && Slack() >= old(Slack())
        invariant model.maxDequeue == old(model.maxDequeue) && SameCall(old(model), model)
        decreases left
      {
        if left == 0 {
          return false, unsent;
        }
        left := left - 1;
        Others();
        var rv := AppSend(offset, unsent);
        if rv > 0 {
          unsent, offset := unsent - rv, offset + rv;
        }
        if !((rv <= 0 || unsent > 0) && !timeToStop) {
          break;
        }
      }
      done := true;
    }

    /** If the tx event was not set, set it and post one; without a queue that is the end. */
    method Notify() returns (posted: bool)
      requires Valid() && model.at == Mark
      modifies this`rx, this`rxEvent, this`rxQueued, this`txEvent, this`txQueued, this`producer,
        this`timeToStop, this`model
      ensures Valid() && old(rx) <= rx && SameCall(old(model), model)
      ensures model.maxDequeue == old(model.maxDequeue)
      ensures model.at == if !posted then Lost else if model.maxDequeue > 0 && !timeToStop then Read else Return
    {
      Others();
      posted := true;
      var wasUnset := SetTxEvent();
      if wasUnset {
        Others();
        SendIoEvt();
        posted := config.hasQueue;
      }
    }

    /** Sends back what was received and raises the tx event. */
    method Reflect(n: nat, fuel: nat) returns (end: Ending, unsent: nat)
      requires Valid() && model.at == Send && model.offset == 0 && model.nRead == n
      modifies this`rx, this`rxEvent, this`rxQueued, this`tx, this`txEvent, this`txQueued, this`producer,
        this`timeToStop, this`model, this`transfers, this`stalls
      ensures Valid() && old(rx) <= rx && SameCall(old(model), model)
      ensures model.maxDequeue == old(model.maxDequeue)
      ensures transfers >= old(transfers) + if end == CutShort then fuel else 0
      ensures Slack() >= old(Slack())
      ensures end == NoQueue ==> model.at == Lost
      ensures end == Returned ==> AtLoopEnd(unsent)
    {
      var done;
      done, unsent := SendBack(n, fuel);
      if !done {
        return CutShort, unsent;
      }
      var posted := Notify();
      end := if posted then Returned else NoQueue;
    }

    /** Reflects what was received if the session is not a drop session. */
    method MayReflect(nRead: int, fuel: nat) returns (end: Ending, unsent: int)
      requires Valid() && ReceivedFrom(nRead)
      modifies this`rx, this`rxEvent, this`rxQueued, this`tx, this`txEvent, this`txQueued, this`producer,
        this`timeToStop, this`model, this`transfers, this`stalls
      ensures Valid() && old(rx) <= rx && SameCall(old(model), model)
      ensures model.maxDequeue == old(model.maxDequeue)
      ensures transfers >= old(transfers) + if end == CutShort then fuel else 0
      ensures Slack() >= old(Slack())
      ensures end == NoQueue ==> model.at == Lost
      ensures end == Returned ==> AtLoopEnd(unsent)
    {
      end, unsent := Returned, nRead;
      if config.haveReturn && nRead > 0 {
        end, unsent := Reflect(nRead, fuel);
      }
    }

    /** One pass of the outer loop: receive, record, send back, raise the tx event. */
    method ReadOnce(max: nat, fuel: nat) returns (end: Ending, maxDequeue: nat, nRead: int)
      requires Valid() && Recorded() && model.at == Read && model.maxDequeue == max
      modifies this`rx, this`rxEvent, this`rxQueued, this`tx, this`txEvent, this`txQueued, this`producer,
        this`timeToStop, this`head, this`model, this`transfers, this`stalls, this`receives, this`results,
        rxBuf, status, status.status
      ensures Valid() && Recorded() && old(rx) <= rx && SameCall(old(model), model)
      ensures transfers >= old(transfers) + 1 + if end == CutShort then fuel else 0
      ensures Slack() >= old(Slack())
      ensures end == NoQueue ==> model.at == Lost
      ensures model.maxDequeue == maxDequeue && (end == Returned ==> AtLoopEnd(nRead))
    {
      nRead := ReceiveAndRecord(max);
      maxDequeue := max - Max(nRead, 0);
      end, nRead := MayReflect(nRead, fuel);
    }

    method ReceiveAndRecord(max: nat) returns (nRead: int)
      requires Valid() && Recorded() && model.at == Read && model.maxDequeue == max
      modifies this`rx, this`rxEvent, this`rxQueued, this`tx, this`txEvent, this`txQueued, this`producer,
        this`timeToStop, this`head, this`model, this`transfers, this`stalls, this`receives, this`results,
        rxBuf, status, status.status
      ensures Valid() && Recorded() && old(rx) <= rx && SameCall(old(model), model)
      ensures transfers == old(transfers) + 1 && Slack() >= old(Slack())
      ensures ReceivedFrom(nRead)
      ensures nRead <= max && model.maxDequeue == max - Max(nRead, 0)
    {
      nRead := Receive(max);
      RecordRead(nRead);
    }

    /** Where the server is after a receive of `nRead`. */
    ghost predicate ReceivedFrom(nRead: int)
      reads this`model, this`timeToStop
    {
      if config.haveReturn && nRead > 0 then model.at == Send && model.offset == 0 && model.nRead == nRead
      else AtLoopEnd(nRead)
    }

    /** Where the condition of the outer loop leads. */
    ghost predicate AtLoopEnd(nRead: int)
      reads this`model, this`timeToStop
    {
      model.at == if (nRead < 0 || model.maxDequeue > 0) && !timeToStop then Read else Return
    }

    method Receive(max: nat) returns (nRead: int)
      requires Valid() && model.at == Read && model.maxDequeue == max
      modifies this`rx, this`rxEvent, this`rxQueued, this`txEvent, this`txQueued, this`producer,
        this`timeToStop, this`head, this`model, this`transfers, this`stalls, this`receives, rxBuf
      ensures Valid() && old(rx) <= rx && SameCall(old(model), model)
      ensures IsResult(nRead) && head == old(head) + Max(nRead, 0)
      ensures transfers == old(transfers) + 1 && receives == old(receives) + 1 && Slack() >= old(Slack())
      ensures ReceivedFrom(nRead) && nRead <= max && model.maxDequeue == max - Max(nRead, 0)
    {
      Others();
      var maxTransfer := Min(rxBuf.Length, max);
      nRead := AppRecvStreamRaw(maxTransfer);
    }

    /** The two opening actions; between them anything may arrive. */
    method OpenCall() returns (maxDequeue: nat)
      requires Valid() && model.at == Begin
      modifies this`rx, this`rxEvent, this`rxQueued, this`txEvent, this`txQueued, this`producer,
        this`timeToStop, this`model
      ensures Valid() && old(rx) <= rx
      ensures model.maxDequeue == maxDequeue && model.at == if maxDequeue == 0 then Return else Read
      ensures Began(old(model), model)
    {
      Others();
      maxDequeue := MaxDequeue();
      Others();
      UnsetEvent();
    }

    /**
     * The handler. When it returns without having seen a stop, it has sent back exactly the bytes
     * its snapshot counted, which include all that were unread when it was called. It makes at most
     * two transfers for each of these bytes, not counting those that moved nothing, and is cut
     * short only after `fuel` transfers. Without an event queue it cannot return from an echo.
     */
    method ServerHandleFifoEventRx(fuel: nat) returns (end: Ending)
      requires Valid() && Recorded() && model.at == Begin
      modifies this`rx, this`rxEvent, this`rxQueued, this`tx, this`txEvent, this`txQueued, this`producer,
        this`timeToStop, this`head, this`model, this`transfers, this`stalls, this`receives, this`results,
        rxBuf, status, status.status
      ensures Valid() && Recorded() && old(rx) <= rx
      ensures end == Returned ==> model.at == Return
      ensures transfers >= old(transfers) + if end == CutShort then fuel else 0
      ensures old(head) <= head <= model.snapshot
      ensures transfers - old(transfers) <= 2 * (head - old(head)) + (stalls - old(stalls))
      ensures end == NoQueue ==> model.at == Lost && !config.hasQueue && config.haveReturn
      ensures end == Returned && !config.hasQueue && config.haveReturn ==> head == old(head) && tx == old(tx)
      ensures end == Returned && !timeToStop ==>
                && |old(rx)| <= model.snapshot == head <= |rx|
                && tx == (if config.haveReturn then old(tx) + rx[old(head)..head] else old(tx))
    {
      Known();
      ghost var start := model;
      end := RunCall(fuel);
      Bounded(start);
      if end == Returned {
        AtReturn(start);
      }
    }

    method RunCall(fuel: nat) returns (end: Ending)
      requires Valid() && Recorded() && model.at == Begin
      modifies this`rx, this`rxEvent, this`rxQueued, this`tx, this`txEvent, this`txQueued, this`producer,
        this`timeToStop, this`head, this`model, this`transfers, this`stalls, this`receives, this`results,
        rxBuf, status, status.status
      ensures Valid() && Recorded() && old(rx) <= rx && Began(old(model), model)
      ensures transfers >= old(transfers) + if end == CutShort then fuel else 0
      ensures Slack() >= old(Slack())
      ensures end == Returned ==> model.at == Return
      ensures end == NoQueue ==> model.at == Lost
    {
      var maxDequeue := OpenCall();
      end := Returned;
      if maxDequeue > 0 {
        end := ReadAll(maxDequeue, fuel);
      }
    }

    /** `t` is in the call that began in state `s`. */
    static ghost predicate Began(s: State, t: State) {
      t.rxStart == s.head && t.txStart == |s.tx| && |s.rx| <= t.snapshot
    }

    /** The outer loop. */
    method ReadAll(max: nat, fuel: nat) returns (end: Ending)
      requires Valid() && Recorded() && model.at == Read && model.maxDequeue == max
      modifies this`rx, this`rxEvent, this`rxQueued, this`tx, this`txEvent, this`txQueued, this`producer,
        this`timeToStop, this`head, this`model, this`transfers, this`stalls, this`receives, this`results,
        rxBuf, status, status.status
      ensures Valid() && Recorded() && old(rx) <= rx && SameCall(old(model), model)
      ensures transfers >= old(transfers) + if end == CutShort then fuel else 0
      ensures Slack() >= old(Slack())
      ensures end == Returned ==> model.at == Return
      ensures end == NoQueue ==> model.at == Lost
    {
      var maxDequeue, left := max, fuel;
      while true
        invariant Valid() && Recorded() && old(rx) <= rx && SameCall(old(model), model)
        invariant model.at == Read && model.maxDequeue == maxDequeue
        invariant transfers - old(transfers) >= fuel - left >= 0 && Slack() >= old(Slack())
        decreases left
      {
        if left == 0 {
          return CutShort;
        }
        left := left - 1;
        var nRead;
        end, maxDequeue, nRead := ReadOnce(maxDequeue, left);
        if end != Returned {
          return;
        }
        if !((nRead < 0 || maxDequeue > 0) && !timeToStop) {
          return;
        }
      }
    }

    /** What was taken since the call began bounds what was sent since, whatever the ending. */
    lemma Bounded(start: State)
      requires Valid() && Inv(config, start) && start.at == Begin && Began(start, model)
      ensures start.head <= head <= model.snapshot
      ensures |tx| - |start.tx| <= head - start.head
      ensures model.at == Lost ==> !config.hasQueue && config.haveReturn
    {
      Known();
      if config.haveReturn {
        assert |start.rx[..start.head]| == |start.tx|;
        assert |rx[..head]| == |tx| + model.nRead;
      }
    }

    static ghost predicate SameCall(s: State, t: State) {
      t.snapshot == s.snapshot && t.rxStart == s.rxStart && t.txStart == s.txStart
    }

    lemma AtReturn(start: State)
      requires Valid() && model.at == Return
      requires Inv(config, start) && start.at == Begin && start.rx <= rx && Began(start, model)
      ensures !config.hasQueue && config.haveReturn ==> head == start.head && tx == start.tx
      ensures !timeToStop ==>
                && |start.rx| <= model.snapshot == head <= |rx| && start.head <= head
                && tx == (if config.haveReturn then start.tx + rx[start.head..head] else start.tx)
    {
      Known();
      if !config.hasQueue && config.haveReturn {
        QueuelessIsIdle(start);
        QueuelessIsIdle(model);
      }
      if !timeToStop {
        CallEchoesSnapshot(config, model);
        if config.haveReturn {
          assert start.tx == start.rx[..start.head] by { assert start.buf[start.offset..start.offset] == []; }
          assert tx == rx[..head] by { assert model.buf[model.offset..model.offset] == []; }
          assert rx[..head] == rx[..start.head] + rx[start.head..head];
        }
      }
    }

    lemma QueuelessIsIdle(s: State)
      requires Inv(config, s) && !config.hasQueue && config.haveReturn && !Echoing(s)
      ensures s.head == 0 && s.tx == []
    {
    }

    /** While the loop waits, what was sent back is what was taken. */
    lemma IdleIsEchoed()
      requires Valid() && model.at == Idle && config.haveReturn
      ensures head <= |rx| && tx == rx[..head]
    {
      EchoOrder(config, model);
    }

    /** The event just taken: the handler, then back to the queue unless a stop was seen. */
    method ServeEvent(fuel: nat) returns (end: Ending)
      requires Valid() && Recorded() && model.at == Begin
      modifies this`rx, this`rxEvent, this`rxQueued, this`tx, this`txEvent, this`txQueued, this`producer,
        this`timeToStop, this`head, this`model, this`transfers, this`stalls, this`receives, this`results,
        rxBuf, status, status.status
      ensures Valid() && Recorded() && old(rx) <= rx
      ensures end == Returned ==> model.at == if timeToStop then Stopped else Idle
      ensures end == Returned && !timeToStop ==> |old(rx)| <= model.snapshot == head
      ensures old(head) <= head
      ensures end == NoQueue ==> model.at == Lost && !config.hasQueue && config.haveReturn
      ensures transfers >= old(transfers) + if end == CutShort then fuel else 0
    {
      end := ServerHandleFifoEventRx(fuel);
      if end == Returned {
        LeaveCall();
      }
    }

    method LeaveCall()
      requires Valid() && model.at == Return
      modifies this`rx, this`rxEvent, this`rxQueued, this`txEvent, this`txQueued, this`producer,
        this`timeToStop, this`model
      ensures Valid() && old(rx) <= rx && model.at == if timeToStop then Stopped else Idle
      ensures head == old(head) && model.snapshot == old(model).snapshot
      ensures old(timeToStop) ==> timeToStop
    {
      Others();
      Log(Leave);
    }

    /** The others go first, then one event is taken if there is one. */
    method NextEvent() returns (taken: bool)
      requires Valid() && model.at == Idle
      modifies this`rx, this`rxEvent, this`rxQueued, this`txEvent, this`txQueued, this`producer,
        this`timeToStop, this`model, this`eventsTaken
      ensures Valid() && old(rx) <= rx && head == old(head)
      ensures eventsTaken == old(eventsTaken) + One(taken) && model.at == if taken then Begin else Idle
      ensures old(rxQueued) > 0 ==> taken
    {
      Others();
      taken := rxQueued > 0;
      if taken {
        TakeEvent();
      }
    }

    /**
     * One turn of the event loop: it goes on, has served its last event, or is cut short in one. If
     * there is an event it is taken, and when the loop goes on behind it everything that was unread
     * before the turn has been taken; `IdleIsEchoed` says that it was sent back.
     */
    method Turn(fuel: nat) returns (taken: bool, end: Option<Ending>)
      requires Valid() && Recorded() && model.at == Idle
      modifies this, rxBuf, status, status.status
      ensures Valid() && Recorded() && old(rx) <= rx && old(head) <= head
      ensures turns == old(turns) + 1 && busyTurns == old(busyTurns) + One(old(rxQueued) > 0)
      ensures eventsTaken == old(eventsTaken) + One(taken) && (old(rxQueued) > 0 ==> taken)
      ensures if taken then end.None? ==> |old(rx)| <= model.snapshot == head else end.None? && head == old(head)
      ensures EndsWith(end) && transfers >= old(transfers) + if end == Some(CutShort) then fuel else 0
    {
      end := None;
      taken := BeginTurn();
      if taken {
        end := ServeTaken(fuel);
      }
    }

    method BeginTurn() returns (taken: bool)
      requires Valid() && Recorded() && model.at == Idle
      modifies this`rx, this`rxEvent, this`rxQueued, this`txEvent, this`txQueued, this`producer,
        this`timeToStop, this`model, this`turns, this`busyTurns, this`eventsTaken
      ensures Valid() && Recorded() && old(rx) <= rx && head == old(head)
      ensures turns == old(turns) + 1 && busyTurns == old(busyTurns) + One(old(rxQueued) > 0)
      ensures eventsTaken == old(eventsTaken) + One(taken) && model.at == if taken then Begin else Idle
      ensures old(rxQueued) > 0 ==> taken
    {
      taken := NextEvent();
      CountTurn(old(rxQueued) > 0);
    }

    ghost method CountTurn(busy: bool)
      modifies this`turns, this`busyTurns
      ensures turns == old(turns) + 1 && busyTurns == old(busyTurns) + One(busy)
    {
      turns, busyTurns := turns + 1, busyTurns + One(busy);
    }

    method ServeTaken(fuel: nat) returns (end: Option<Ending>)
      requires Valid() && Recorded() && model.at == Begin
      modifies this`rx, this`rxEvent, this`rxQueued, this`tx, this`txEvent, this`txQueued, this`producer,
        this`timeToStop, this`head, this`model, this`transfers, this`stalls, this`receives, this`results,
        rxBuf, status, status.status
      ensures Valid() && Recorded() && old(rx) <= rx
      ensures (end.None? ==> |old(rx)| <= model.snapshot == head) && old(head) <= head
      ensures EndsWith(end) && transfers >= old(transfers) + if end == Some(CutShort) then fuel else 0
    {
      var served := ServeEvent(fuel);
      end := if served != Returned || timeToStop then Some(served) else None;
    }

    /** Where the loop stands when it is over, unless it was cut short. */
    ghost predicate EndsWith(end: Option<Ending>)
      reads this`model, this`timeToStop
    {
      match end
      case None => model.at == Idle
      case Some(Returned) => model.at == Stopped && timeToStop
      case Some(NoQueue) => model.at == Lost && !config.hasQueue && config.haveReturn
      case Some(CutShort) => true
    }

    /** Whatever happened, everything taken was sent back in order, up to the unsent part of the buffer. */
    ghost predicate InOrder()
      reads this`rx, this`head, this`tx, this`model
    {
      && WellFormed(model) && head <= |rx|
      && rx[..head] == tx + model.buf[model.offset..model.offset + model.nRead]
    }

    lemma StaysInOrder()
      requires Valid() && config.haveReturn
      ensures InOrder()
    {
      Known();
    }

    /**
     * The loop. It is cut short only after `fuel` turns or in a handler; every turn that finds an
     * event takes one, and an event that is there at the beginning is served in the first turn.
     */
    method ServeEvents(fuel: nat) returns (end: Ending, cutInHandler: bool)
      requires Valid() && Recorded() && model.at == Idle
      modifies this, rxBuf, status, status.status
      ensures Valid() && Recorded() && old(rx) <= rx
      ensures EndsWith(Some(end))
      ensures EventsServed(fuel, end, cutInHandler)
    {
      var left := fuel;
      while left > 0
        invariant Valid() && Recorded() && old(rx) <= rx && model.at == Idle && 0 <= left <= fuel
        invariant EventsServed(fuel - left, CutShort, false)
        invariant left == fuel ==> rxQueued == old(rxQueued) && rx == old(rx)
        decreases left
      {
        left := left - 1;
        var taken, served := Turn(left);
        if served.Some? {
          return served.value, true;
        }
      }
      end, cutInHandler := CutShort, false;
    }

    /** What the event loop has done after `n` turns, unless it ended or was cut short in one. */
    twostate predicate EventsServed(n: int, end: Ending, cutInHandler: bool)
      reads this
    {
      && 0 <= busyTurns - old(busyTurns) <= eventsTaken - old(eventsTaken) <= turns - old(turns)
      && (old(rxQueued) > 0 && n > 0 ==> eventsTaken > old(eventsTaken))
      && transfers >= old(transfers)
      && (end == CutShort && cutInHandler ==>
            eventsTaken > old(eventsTaken) && turns - old(turns) + transfers - old(transfers) >= n)
      && (end == CutShort && !cutInHandler ==>
            && turns == old(turns) + n && old(head) <= head && model.at == Idle
            && (old(rxQueued) > 0 && n > 0 ==> |old(rx)| <= head))
    }

    /**
     * The event loop. It stops only after it has seen a stop, or without an event queue, unless
     * `fuel` cuts the execution short.
     */
    method ServerHandleEventQueue(fuel: nat) returns (end: Ending, cutInHandler: bool)
      requires Valid() && Recorded() && model.at == Idle
      modifies this, rxBuf, status, status.status
      ensures Valid() && Recorded() && old(rx) <= rx
      ensures EndsWith(Some(end))
      ensures config.haveReturn ==> InOrder()
      ensures EventsServed(fuel, end, cutInHandler)
    {
      end, cutInHandler := ServeEvents(fuel);
      if config.haveReturn {
        StaysInOrder();
      }
    }

    /**
     * What was recorded for the session are the bytes its handler took, exactly when no receive
     * returned a negative number.
     */
    lemma RecordedIsTakenIff()
      requires Recorded()
      ensures Bytes(status.history) >= head
      ensures Bytes(status.history) == head <==> forall i :: 0 <= i < |results| ==> results[i] >= 0
    {
      RecordedIsReadIff(status.history, results);
    }
  }
}
