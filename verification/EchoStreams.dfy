/**
 * The two loops that move bytes without the event protocol: the client's sender and the
 * cut-through thread. `fuel` only cuts an execution short after that many tries, so that what is
 * ensured holds of every prefix of every execution.
 */
module EchoStreams {
  import opened Common

  const TEST_BUF_LEN: nat := 1024 * 1024
  const COPY_BUF_LEN: nat := 64 * 1024

  /** Byte `k` of the client's stream, whatever the chunks it was cut into. */
  ghost predicate Counts(s: seq<u8>) {
    forall k :: 0 <= k < |s| ==> s[k] == k % 0x100
  }

  /** The length of the test buffer is a multiple of 256. */
  lemma SameByte(q: nat, j: nat)
    ensures (TEST_BUF_LEN * q + j) % 0x100 == j % 0x100
  {
    assert TEST_BUF_LEN * q + j == 0x100 * (4096 * q) + j;
  }

  /** The test buffer continues the stream, also where it wraps around. */
  lemma WrapAround(s: seq<u8>, data: seq<u8>, offset: nat, n: nat)
    requires Counts(s) && Counts(data) && |data| == TEST_BUF_LEN
    requires offset == |s| % TEST_BUF_LEN && offset + n <= TEST_BUF_LEN
    ensures Counts(s + data[offset..offset + n])
  {
    var q := |s| / TEST_BUF_LEN;
    assert |s| == TEST_BUF_LEN * q + offset;
    Continues(s, data, q, offset, n);
  }

  lemma Continues(s: seq<u8>, data: seq<u8>, q: nat, offset: nat, n: nat)
    requires Counts(s) && Counts(data) && offset + n <= |data|
    requires |s| == TEST_BUF_LEN * q + offset
    ensures Counts(s + data[offset..offset + n])
  {
    var t := s + data[offset..offset + n];
    forall k | |s| <= k < |t|
      ensures t[k] == k % 0x100
    {
      SameByte(q, k - |s| + offset);
    }
  }

  class Client {
    const testData: array<u8>
    var totalToSend: nat
    var bytesToSend: nat
    var bytesSent: nat
    var timeToStop: bool
    /** Everything accepted by the tx fifo. */
    var tx: seq<u8>
    /** Sends tried so far, and the range of the test buffer that the last one offered. */
    ghost var attempts: nat
    ghost var offered: (nat, nat)
    /** The signal handler has set the stop flag. */
    ghost var signalled: bool

    ghost predicate Valid()
      reads this, testData
    {
      && testData.Length == TEST_BUF_LEN && Counts(testData[..])
      && bytesSent + bytesToSend == totalToSend
      && |tx| == bytesSent && Counts(tx)
    }

    constructor (bytes: nat)
      ensures bytesToSend == bytes && bytesSent == 0 && tx == [] && !timeToStop && !signalled
      ensures testData.Length == TEST_BUF_LEN == 0x10_0000 && fresh(testData)
    {
      testData := new u8[TEST_BUF_LEN](i => 0);
      totalToSend, bytesToSend, bytesSent, timeToStop, tx, attempts := 0, bytes, 0, false, [], 0;
      offered, signalled := (0, 0), false;
    }

    /** A failure, or a non-empty front of a range of the test buffer; the range may not cross the end. */
    method AppSend(offset: nat, n: nat) returns (written: int)
      requires offset + n <= testData.Length
      modifies this`tx, this`attempts, this`offered
      ensures written <= n && attempts == old(attempts) + 1 && offered == (offset, n)
      ensures tx == old(tx) + if written > 0 then testData[offset..offset + written] else []
    {
      attempts, offered := attempts + 1, (offset, n);
      written :| written <= n;
      if written > 0 {
        tx := tx + testData[offset..offset + written];
      }
    }

    /** Asks for as much as the buffer's end, the rest of the stream and the free space allow. */
    method SendTestChunk() returns (asked: nat, enqSpace: nat)
      requires Valid()
      modifies this`bytesToSend, this`bytesSent, this`tx, this`attempts, this`offered
      ensures Valid() && attempts == old(attempts) + 1 && totalToSend == old(totalToSend)
      ensures offered == (old(bytesSent) % TEST_BUF_LEN, asked)
      ensures asked == Min(Min(TEST_BUF_LEN - old(bytesSent) % TEST_BUF_LEN, old(bytesToSend)), enqSpace)
      ensures old(tx) <= tx && |tx| <= |old(tx)| + asked
    {
      var testBufOffset := bytesSent % TEST_BUF_LEN;
      var bytesThisChunk := Min(TEST_BUF_LEN - testBufOffset, bytesToSend);
      enqSpace := *;
      asked := Min(bytesThisChunk, enqSpace);

      var written := AppSend(testBufOffset, asked);
      if written > 0 {
        WrapAround(old(tx), testData[..], testBufOffset, written);
        assert testData[..][testBufOffset..testBufOffset + written] == testData[testBufOffset..testBufOffset + written];
        bytesToSend := bytesToSend - written;
        bytesSent := bytesSent + written;
      }
    }

    method FillTestData()
      requires testData.Length == TEST_BUF_LEN
      modifies testData
      ensures Counts(testData[..])
    {
      for i := 0 to testData.Length
        invariant forall k :: 0 <= k < i ==> testData[k] == k % 0x100
      {
        testData[i] := i % 0x100;
      }
    }

    /** The signal handler may set the flag at any time. */
    method SignalHandler()
      modifies this`timeToStop, this`signalled
      ensures old(timeToStop) ==> timeToStop
      ensures timeToStop ==> old(timeToStop) || signalled
    {
      var comes: bool := *;
      if comes {
        timeToStop, signalled := true, true;
      }
    }

    /** Unless it is stopped, the client emits the whole stream; what it reads back does not matter to it. */
    method ClientSendData(fuel: nat) returns (finished: bool)
      requires testData.Length == TEST_BUF_LEN && bytesSent == 0 && tx == []
      modifies this, testData
      ensures Valid() && totalToSend == old(bytesToSend)
      ensures timeToStop ==> old(timeToStop) || signalled
      ensures |tx| <= totalToSend
      ensures !finished ==> attempts >= old(attempts) + fuel
      ensures finished && !timeToStop ==> |tx| == totalToSend
    {
      FillTestData();
      totalToSend := bytesToSend;
      var left := fuel;
      while !timeToStop && bytesToSend > 0
        invariant Valid() && totalToSend == old(bytesToSend)
        invariant timeToStop ==> old(timeToStop) || signalled
        invariant attempts == old(attempts) + fuel - left && left >= 0
        decreases left
      {
        if left == 0 {
          return false;
        }
        left := left - 1;
        var asked, space := SendTestChunk();
        SignalHandler();
        if timeToStop {
          break;
        }
      }
      finished := true;
    }
  }

  class CutThrough {
    const haveReturn: bool
    const copyBuffer: array<u8>
    var rx: seq<u8>
    var head: nat
    var tx: seq<u8>
    var serverBytesReceived: nat
    var serverBytesSent: nat
    var timeToStop: bool
    /** The part of the copy buffer that is still to be sent. */
    ghost var unsent: seq<u8>
    /** Dequeues and enqueues tried so far; what the last pass of the read loop found readable, and what it took. */
    ghost var attempts: nat
    ghost var readable: nat
    ghost var lastTransfer: int

    ghost predicate Valid()
      reads this
    {
      && copyBuffer.Length == COPY_BUF_LEN
      && head <= |rx| && serverBytesReceived == head && serverBytesSent == |tx|
      && (haveReturn ==> rx[..head] == tx + unsent)
      && (!haveReturn ==> tx == [])
    }

    constructor (haveReturn: bool)
      ensures Valid() && this.haveReturn == haveReturn && rx == tx == unsent == []
      ensures fresh(copyBuffer) && copyBuffer.Length == 0x1_0000
    {
      this.haveReturn := haveReturn;
      copyBuffer := new u8[COPY_BUF_LEN](i => 0);
      rx, head, tx, serverBytesReceived, serverBytesSent, timeToStop, unsent := [], 0, [], 0, 0, false, [];
      attempts, readable, lastTransfer := 0, 0, 0;
    }

    /** The peer may enqueue and a stop may be requested between any two actions. */
    method Others()
      requires Valid()
      modifies this`rx, this`timeToStop
      ensures Valid() && old(rx) <= rx && (old(timeToStop) ==> timeToStop)
    {
      var bytes: seq<u8>, signalled: bool := *, *;
      ghost var before := rx;
      rx, timeToStop := rx + bytes, timeToStop || signalled;
      assert rx[..head] == before[..head];
    }

    /** One pass of the read loop: dequeue into the buffer, or drop everything that is there. */
    method Take() returns (actualTransfer: int)
      requires Valid() && unsent == []
      modifies this`head, this`unsent, this`attempts, this`readable, this`lastTransfer, copyBuffer
      ensures attempts == old(attempts) + 1 && readable == |rx| - old(head) && lastTransfer == actualTransfer
      ensures !haveReturn ==> actualTransfer == readable && head == |rx|
      ensures actualTransfer <= 0 ==> Valid() && unsent == []
      ensures actualTransfer > 0 ==> head == old(head) + actualTransfer <= |rx|
      ensures !haveReturn ==> unsent == []
      ensures actualTransfer > 0 && haveReturn ==>
                && actualTransfer <= copyBuffer.Length && unsent == copyBuffer[..actualTransfer]
                && rx[..head] == tx + unsent
    {
      attempts, readable := attempts + 1, |rx| - head;
      if haveReturn {
        actualTransfer := DequeueNowait();
      } else {
        actualTransfer := |rx| - head;
        head := |rx|;
      }
      lastTransfer := actualTransfer;
    }

    /** A failure, or some of the oldest bytes, copied to the front of the buffer. */
    method DequeueNowait() returns (actualTransfer: int)
      requires Valid() && unsent == [] && haveReturn
      modifies this`head, this`unsent, copyBuffer
      ensures actualTransfer <= 0 ==> Valid() && unsent == [] && head == old(head)
      ensures actualTransfer > 0 ==>
                && head == old(head) + actualTransfer <= |rx| && actualTransfer <= copyBuffer.Length
                && unsent == copyBuffer[..actualTransfer] && rx[..head] == tx + unsent
    {
      actualTransfer :| actualTransfer <= Min(copyBuffer.Length, |rx| - head);
      if actualTransfer > 0 {
        ghost var before := head;
        forall i | 0 <= i < actualTransfer {
          copyBuffer[i] := rx[head + i];
        }
        unsent := rx[before..before + actualTransfer];
        head := head + actualTransfer;
        assert rx[..head] == rx[..before] + unsent;
        assert copyBuffer[..actualTransfer] == unsent;
      }
    }

    /** The inner loop ignores a stop: it ends only when the whole buffer was accepted. */
    method SendAll(n: nat, fuel: nat) returns (done: bool)
      requires Valid() && haveReturn && n <= copyBuffer.Length && unsent == copyBuffer[..n]
      modifies this`rx, this`tx, this`timeToStop, this`unsent, this`attempts, this`serverBytesSent
      ensures Valid() && head == old(head) && old(rx) <= rx && (old(timeToStop) ==> timeToStop)
      ensures done ==> unsent == []
      ensures attempts >= old(attempts) + if done then 0 else fuel
    {
      var bufferOffset, actualTransfer, left := 0, n, fuel;
      while actualTransfer > 0
        invariant Valid() && 0 <= bufferOffset <= bufferOffset + actualTransfer == n && head == old(head)
        invariant attempts == old(attempts) + fuel - left && left >= 0
        invariant unsent == copyBuffer[bufferOffset..n] && old(rx) <= rx && (old(timeToStop) ==> timeToStop)
        decreases left
      {
        if left == 0 {
          return false;
        }
        left := left - 1;
        Others();
        var rv: int :| rv <= actualTransfer;
        attempts := attempts + 1;
        if rv > 0 {
          var chunk := copyBuffer[bufferOffset..bufferOffset + rv];
          assert unsent == chunk + copyBuffer[bufferOffset + rv..n];
          tx, unsent := tx + chunk, copyBuffer[bufferOffset + rv..n];
          actualTransfer := actualTransfer - rv;
          bufferOffset := bufferOffset + rv;
          serverBytesSent := serverBytesSent + rv;
        }
      }
      done := true;
    }

    /**
     * When the thread ends, everything it received has been sent, even if it was told to stop in
     * between. It looks at the stop flag only behind a transfer, so it never ends on an idle fifo.
     */
    method CutThroughThread(fuel: nat) returns (ended: bool)
      requires Valid() && unsent == []
      modifies this, copyBuffer
      ensures Valid() && old(rx) <= rx
      ensures ended ==> timeToStop && unsent == [] && head > old(head) && lastTransfer > 0
      ensures !ended ==> attempts >= old(attempts) + fuel
      ensures ended && haveReturn ==> tx == rx[..head] && serverBytesSent == serverBytesReceived
    {
      var left := fuel;
      while true
        invariant Valid() && unsent == [] && old(rx) <= rx && old(head) <= head
        invariant attempts - old(attempts) >= fuel - left >= 0
        decreases left
      {
        if left == 0 {
          return false;
        }
        left := left - 1;
        Others();
        var actualTransfer := Take();
        if actualTransfer <= 0 {
          continue;
        }
        serverBytesReceived := serverBytesReceived + actualTransfer;
        if haveReturn {
          var done := SendAll(actualTransfer, left);
          if !done {
            return false;
          }
        }
        if timeToStop {
          break;
        }
      }
      ended := true;
    }
  }
}
