/**
 * `record`: bytes, packets and calls are accumulated, and when a second's worth of clock ticks
 * has passed since the last publication the accumulators are published and reset. The counters
 * are 64 bits wide and wrap.
 */
module RateWindows {
  import opened Common

  const STATUS_CALL: nat := 0
  const STATUS_PPS: nat := 1
  const STATUS_BYTES: nat := 2
  const STATUS_ALL: nat := 3

  /** One call: what it records, and the clock when it checks and when it publishes. */
  datatype Call = Call(bytes: u32, pps: u32, now: u64, later: u64)

  function Bytes(calls: seq<Call>): nat {
    if calls == [] then 0 else Bytes(calls[..|calls| - 1]) + calls[|calls| - 1].bytes
  }

  function Packets(calls: seq<Call>): nat {
    if calls == [] then 0 else Packets(calls[..|calls| - 1]) + calls[|calls| - 1].pps
  }

  function Flatten(windows: seq<seq<Call>>): seq<Call> {
    if windows == [] then [] else Flatten(windows[..|windows| - 1]) + windows[|windows| - 1]
  }

  lemma {:induction false} SumsConcat(a: seq<Call>, b: seq<Call>)
    ensures Bytes(a + b) == Bytes(a) + Bytes(b) && Packets(a + b) == Packets(a) + Packets(b)
  {
    if b == [] {
      assert a + b == a;
    } else {
      SumsConcat(a, b[..|b| - 1]);
      assert (a + b)[..|a + b| - 1] == a + b[..|b| - 1];
    }
  }

  lemma SumsSnoc(calls: seq<Call>, c: Call)
    ensures Bytes(calls + [c]) == Bytes(calls) + c.bytes && Packets(calls + [c]) == Packets(calls) + c.pps
  {
    assert (calls + [c])[..|calls|] == calls;
  }

  /** The history, cut into closed windows and an open one. */
  ghost predicate IsCut(history: seq<Call>, windows: seq<seq<Call>>, open: seq<Call>) {
    history == Flatten(windows) + open
  }

  lemma CutGrows(history: seq<Call>, windows: seq<seq<Call>>, open: seq<Call>, c: Call)
    requires IsCut(history, windows, open)
    ensures IsCut(history + [c], windows, open + [c])
  {
  }

  lemma CutCloses(history: seq<Call>, windows: seq<seq<Call>>, open: seq<Call>)
    requires IsCut(history, windows, open)
    ensures IsCut(history, windows + [open], [])
  {
    assert (windows + [open])[..|windows|] == windows;
  }

  /** Ticks from one clock value to another, as a 64-bit difference. */
  function Elapsed(since: u64, now: u64): u64 {
    (now - since) % U64
  }

  /** A clock that went back is taken to have wrapped around. */
  lemma ElapsedIs(since: u64, now: u64)
    ensures Elapsed(since, now) == if since <= now then now - since else now - since + 0x1_0000_0000_0000_0000
  {
  }

  /** The last call of a window is the one that published it. */
  ghost predicate Spaced(windows: seq<seq<Call>>, feq: u64) {
    && (forall i :: 0 <= i < |windows| ==> windows[i] != [])
    && (forall i :: 0 < i < |windows| ==>
          Elapsed(Closing(windows[i - 1]).later, Closing(windows[i]).now) >= feq)
  }

  function Closing(w: seq<Call>): Call
    requires w != []
  {
    w[|w| - 1]
  }

  lemma SpacedSnoc(windows: seq<seq<Call>>, w: seq<Call>, feq: u64)
    requires Spaced(windows, feq) && w != []
    requires windows != [] ==> Elapsed(Closing(windows[|windows| - 1]).later, Closing(w).now) >= feq
    ensures Spaced(windows + [w], feq)
  {
  }

  class Status {
    const feq: u64
    const status: array<u64>
    /** All calls so far, and how they are cut into the windows that were published and the open one. */
    ghost var history: seq<Call>
    ghost var published: seq<seq<Call>>
    ghost var current: seq<Call>

    ghost function Last(): u64
      requires status.Length == 2 * STATUS_ALL + 1
      reads status
    {
      status[2 * STATUS_ALL]
    }

    /** The accumulators hold the open window. */
    ghost predicate Accumulated()
      requires status.Length == 2 * STATUS_ALL + 1
      reads this`current, status
    {
      && status[2 * STATUS_BYTES + 1] == Bytes(current) % U64
      && status[2 * STATUS_PPS + 1] == Packets(current) % U64
      && status[2 * STATUS_CALL + 1] == |current| % U64
    }

    /** What is published is the latest closed window. */
    ghost predicate Shown()
      requires status.Length == 2 * STATUS_ALL + 1
      reads this`published, status
    {
      if published == [] then Last() == 0
      else
        var w := published[|published| - 1];
        && w != []
        && status[2 * STATUS_BYTES] == 8 * Bytes(w) % U64
        && status[2 * STATUS_PPS] == Packets(w) % U64
        && status[2 * STATUS_CALL] == |w| % U64
        && Last() == Closing(w).later
    }

    ghost predicate Valid()
      reads this, status
    {
      && status.Length == 2 * STATUS_ALL + 1
      && IsCut(history, published, current)
      && Spaced(published, feq) && Accumulated() && Shown()
    }

    constructor (feq: u64)
      ensures Valid() && history == [] && published == [] && current == [] && this.feq == feq && fresh(status)
    {
      this.feq := feq;
      status := new u64[2 * STATUS_ALL + 1](i => 0);
      history, published, current := [], [], [];
    }

    /** A call joins the open window; it publishes the window exactly when at least `feq` ticks have passed. */
    method Record(bytes: u32, pps: u32, now: u64, later: u64)
      requires Valid()
      modifies this, status
      ensures Valid() && history == old(history) + [Call(bytes, pps, now, later)]
      ensures var c := Call(bytes, pps, now, later);
              if Elapsed(old(Last()), now) < feq then
                published == old(published) && current == old(current) + [c] && Last() == old(Last())
              else
                published == old(published) + [old(current) + [c]] && current == [] && Last() == later
    {
      Accumulate(Call(bytes, pps, now, later));
      if Elapsed(status[2 * STATUS_ALL], now) < feq {
        return;
      }
      Publish(later);
    }

    method Accumulate(c: Call)
      requires Valid()
      modifies this`history, this`current, status
      ensures Valid() && history == old(history) + [c] && published == old(published)
      ensures current == old(current) + [c] && Last() == old(Last())
    {
      Add(c);
      SumsSnoc(current, c);
      CutGrows(history, published, current, c);
      history, current := history + [c], current + [c];
    }

    method Add(c: Call)
      requires status.Length == 2 * STATUS_ALL + 1 && Accumulated()
      modifies status
      ensures status[2 * STATUS_BYTES + 1] == (Bytes(current) + c.bytes) % U64
      ensures status[2 * STATUS_PPS + 1] == (Packets(current) + c.pps) % U64
      ensures status[2 * STATUS_CALL + 1] == (|current| + 1) % U64
      ensures forall i :: 0 <= i < status.Length && (i % 2 == 0) ==> status[i] == old(status[i])
    {
      WrapAdd(Bytes(current), c.bytes);
      WrapAdd(Packets(current), c.pps);
      WrapAdd(|current|, 1);
      status[2 * STATUS_BYTES + 1] := (status[2 * STATUS_BYTES + 1] + c.bytes) % U64;
      status[2 * STATUS_PPS + 1] := (status[2 * STATUS_PPS + 1] + c.pps) % U64;
      status[2 * STATUS_CALL + 1] := (status[2 * STATUS_CALL + 1] + 1) % U64;
    }

    /** The closed window is shown and the accumulators start again. */
    method Publish(later: u64)
      requires Valid() && current != [] && Closing(current).later == later
      requires Elapsed(Last(), Closing(current).now) >= feq
      modifies this`current, this`published, status
      ensures Valid() && history == old(history) && current == []
      ensures published == old(published) + [old(current)] && Last() == later
    {
      ghost var w := current;
      Show(later);
      CutCloses(history, published, w);
      SpacedSnoc(published, w, feq);
      published, current := published + [w], [];
    }

    method Show(later: u64)
      requires status.Length == 2 * STATUS_ALL + 1 && Accumulated()
      modifies status
      ensures status[2 * STATUS_BYTES] == 8 * Bytes(current) % U64
      ensures status[2 * STATUS_PPS] == Packets(current) % U64
      ensures status[2 * STATUS_CALL] == |current| % U64
      ensures Last() == later
      ensures status[2 * STATUS_BYTES + 1] == status[2 * STATUS_PPS + 1] == status[2 * STATUS_CALL + 1] == 0
    {
      EightTimes(Bytes(current));
      status[2 * STATUS_BYTES] := status[2 * STATUS_BYTES + 1] * 8 % U64;
      status[2 * STATUS_PPS] := status[2 * STATUS_PPS + 1];
      status[2 * STATUS_CALL] := status[2 * STATUS_CALL + 1];

      status[2 * STATUS_BYTES + 1] := 0;
      status[2 * STATUS_PPS + 1] := 0;
      status[2 * STATUS_CALL + 1] := 0;
      status[2 * STATUS_ALL] := later;
    }

    lemma WrapAdd(n: nat, m: nat)
      ensures (n % U64 + m) % U64 == (n + m) % U64
    {
      var q := n / U64;
      assert n + m == n % U64 + m + U64 * q;
      ModMultiple(n % U64 + m, q);
    }

    /** Scaling what has already wrapped loses nothing more. */
    lemma EightTimes(n: nat)
      ensures (n % U64) * 8 % U64 == 8 * n % U64
    {
      var q := n / U64;
      assert 8 * n == 8 * (n % U64) + U64 * (8 * q);
      ModMultiple(8 * (n % U64), 8 * q);
    }

    lemma ModMultiple(a: nat, k: nat)
      ensures (a + U64 * k) % U64 == a % U64
      decreases k
    {
      if k > 0 {
        ModMultiple(a, k - 1);
        assert a + U64 * k == (a + U64 * (k - 1)) + U64;
      }
    }
  }

  // ----- Conservation -----

  function WindowBytes(windows: seq<seq<Call>>): nat {
    if windows == [] then 0 else WindowBytes(windows[..|windows| - 1]) + Bytes(windows[|windows| - 1])
  }

  function WindowPackets(windows: seq<seq<Call>>): nat {
    if windows == [] then 0 else WindowPackets(windows[..|windows| - 1]) + Packets(windows[|windows| - 1])
  }

  function WindowCalls(windows: seq<seq<Call>>): nat {
    if windows == [] then 0 else WindowCalls(windows[..|windows| - 1]) + |windows[|windows| - 1]|
  }

  /** Everything ever recorded is in exactly one published window or in the open one. */
  lemma {:induction false} Conservation(windows: seq<seq<Call>>, open: seq<Call>)
    ensures var all := Flatten(windows) + open;
            && Bytes(all) == WindowBytes(windows) + Bytes(open)
            && Packets(all) == WindowPackets(windows) + Packets(open)
            && |all| == WindowCalls(windows) + |open|
    decreases |windows|
  {
    if windows == [] {
      assert [] + open == open;
    } else {
      var n := |windows| - 1;
      Conservation(windows[..n], windows[n]);
      SumsConcat(Flatten(windows), open);
    }
  }

  /** Below the width of the counters the accumulators are exact. */
  lemma ExactBelowBound(s: Status)
    requires s.Valid() && Bytes(s.current) < U64 && Packets(s.current) < U64 && |s.current| < U64
    ensures Bytes(s.history) == WindowBytes(s.published) + s.status[2 * STATUS_BYTES + 1]
    ensures Packets(s.history) == WindowPackets(s.published) + s.status[2 * STATUS_PPS + 1]
    ensures |s.history| == WindowCalls(s.published) + s.status[2 * STATUS_CALL + 1]
  {
    Conservation(s.published, s.current);
  }

  /**
   * What is shown is exactly eight times the bytes, the packets and the calls of the latest window
   * if and only if these numbers fit the counters.
   */
  lemma ShownExactIff(s: Status)
    requires s.Valid() && s.published != []
    ensures var w := s.published[|s.published| - 1];
            && (s.status[2 * STATUS_BYTES] == 8 * Bytes(w) <==> 8 * Bytes(w) < U64)
            && (s.status[2 * STATUS_PPS] == Packets(w) <==> Packets(w) < U64)
            && (s.status[2 * STATUS_CALL] == |w| <==> |w| < U64)
  {
    var w := s.published[|s.published| - 1];
    assert s.status[2 * STATUS_BYTES] == 8 * Bytes(w) % U64;
  }

  /** Two publications are `feq` ticks apart, unless the clock ran backwards between them. */
  lemma PublicationsApart(s: Status, i: nat)
    requires s.Valid() && 0 < i < |s.published|
    ensures s.published[i - 1] != [] && s.published[i] != []
    ensures var before, now := Closing(s.published[i - 1]).later, Closing(s.published[i]).now;
            now >= before + s.feq || now < before
  {
  }

  // ----- What the echo server records -----

  /** A read result passed to `record` is converted to an unsigned 32-bit number. */
  function AsU32(r: int): u32 {
    r % U32
  }

  /** A failure with a negative result wraps around, everything else is unchanged. */
  lemma AsU32Is(r: int)
    requires IsResult(r)
    ensures AsU32(r) == if r < 0 then U32 + r else r
  {
  }

  /** The bytes that a list of read results stands for: a failure read nothing. */
  function ReadTotal(results: seq<int>): nat {
    if results == [] then 0
    else
      var r := results[|results| - 1];
      ReadTotal(results[..|results| - 1]) + Max(r, 0)
  }

  /** What a read can return, as a 32-bit int. */
  predicate IsResult(r: int) {
    -0x8000_0000 <= r < 0x8000_0000
  }

  /** One call for each read result, failures included. */
  ghost predicate Records(history: seq<Call>, results: seq<int>) {
    && |history| == |results|
    && forall i :: 0 <= i < |results| ==>
         IsResult(results[i]) && history[i].bytes == AsU32(results[i]) && history[i].pps == 1
  }

  lemma RecordsSnoc(history: seq<Call>, results: seq<int>, r: int, now: u64, later: u64)
    requires Records(history, results) && IsResult(r)
    ensures Records(history + [Call(AsU32(r), 1, now, later)], results + [r])
    ensures ReadTotal(results + [r]) == ReadTotal(results) + Max(r, 0)
  {
    assert (results + [r])[..|results|] == results;
  }

  /** The bytes recorded are the bytes read exactly when no read returned a negative number. */
  lemma {:induction false} RecordedIsReadIff(history: seq<Call>, results: seq<int>)
    requires Records(history, results)
    ensures Bytes(history) >= ReadTotal(results)
    ensures Bytes(history) == ReadTotal(results) <==> forall i :: 0 <= i < |results| ==> results[i] >= 0
    decreases |results|
  {
    if results != [] {
      var n := |results| - 1;
      RecordedIsReadIff(history[..n], results[..n]);
      assert forall i :: 0 <= i < n ==> results[i] == results[..n][i];
    }
  }

  /** What the negative results among these add to the record: each 2^32 less its size. */
  function Excess(results: seq<int>): nat
    requires forall i :: 0 <= i < |results| ==> IsResult(results[i])
  {
    if results == [] then 0
    else
      var n := |results| - 1;
      assert IsResult(results[n]);
      Excess(results[..n]) + if results[n] < 0 then 0x1_0000_0000 + results[n] else 0
  }

  /** The record exceeds what was read by exactly the wrapped negative results. */
  lemma {:induction false} RecordedExcess(history: seq<Call>, results: seq<int>)
    requires Records(history, results)
    ensures Bytes(history) == ReadTotal(results) + Excess(results)
    decreases |results|
  {
    if results != [] {
      var n := |results| - 1;
      RecordedExcess(history[..n], results[..n]);
      AsU32Is(results[n]);
    }
  }

  /** One failed read is recorded as almost four gigabytes. */
  lemma FailedReadCounts(now: u64, later: u64)
    ensures var history := [Call(AsU32(-1), 1, now, later)];
            Records(history, [-1]) && ReadTotal([-1]) == 0 && Bytes(history) == 0xFFFF_FFFF
  {
    var history := [Call(AsU32(-1), 1, now, later)];
    assert history[..0] == [] && [-1][..0] == [];
  }
}
