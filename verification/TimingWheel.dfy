/**
 * The timing-wheel test under synthetic time: a wheel is driven bin by bin, expired events are
 * armed again, and after every advance the wheel is compared with bitmaps and minima computed
 * from the event table. The wheel itself is its pending events; what its operations promise is
 * in their contracts.
 */
module TimingWheel {
  import opened Common

  /** The 64-bit all-ones value that stands for "no event". */
  const NEVER: int := 0xFFFF_FFFF_FFFF_FFFF

  // ----- Bins -----

  /** The first time of bin `b`. */
  function Start(b: int, log2: nat): int {
    if log2 == 0 then b else 2 * Start(b, log2 - 1)
  }

  /** The bin of time `t`. */
  function Bin(t: int, log2: nat): int
    decreases log2
  {
    if log2 == 0 then t else Bin(t / 2, log2 - 1)
  }

  lemma {:induction false} BinRange(t: int, b: int, log2: nat)
    ensures Bin(t, log2) >= b <==> t >= Start(b, log2)
    decreases log2
  {
    if log2 > 0 {
      BinRange(t / 2, b, log2 - 1);
    }
  }

  lemma {:induction false} StartAdd(a: int, b: int, log2: nat)
    ensures Start(a + b, log2) == Start(a, log2) + Start(b, log2)
  {
    if log2 > 0 {
      StartAdd(a, b, log2 - 1);
    }
  }

  lemma {:induction false} StartGrows(b: int, log2: nat)
    requires b >= 0
    ensures Start(b, log2) >= b
  {
    if log2 > 0 {
      StartGrows(b, log2 - 1);
    }
  }

  lemma BinStart(b: int, log2: nat)
    requires b >= 0
    ensures Start(b, log2) >= 0 && Bin(Start(b, log2), log2) == b
  {
    StartGrows(b, log2);
    StartAdd(b, 1, log2);
    StartGrows(1, log2);
    BinRange(Start(b, log2), b, log2);
    BinRange(Start(b, log2), b + 1, log2);
  }

  lemma BinMonotone(s: int, t: int, log2: nat)
    requires Bin(s, log2) < Bin(t, log2)
    ensures s < t
  {
    BinRange(s, Bin(t, log2), log2);
    BinRange(t, Bin(t, log2), log2);
  }

  /** A time armed in bin `b` lies in bin `b` or later, by at most the number of clocks added. */
  lemma BinAhead(b: int, r: int, log2: nat)
    requires b >= 0 && r >= 0
    ensures Start(b, log2) + r >= 0 && b <= Bin(Start(b, log2) + r, log2) <= b + r
  {
    var t := Start(b, log2) + r;
    StartGrows(b, log2);
    StartGrows(r, log2);
    StartGrows(1, log2);
    StartAdd(b, r, log2);
    StartAdd(b + r, 1, log2);
    BinRange(t, b, log2);
    BinRange(t, b + r + 1, log2);
  }

  /** The first times of the bins are those of a shift: equally spaced, by a power of two. */
  lemma {:induction false} StartIsShift(b: int, m: nat, n: nat)
    ensures Start(b, n) == b * Start(1, n) && Start(1, 0) == 1 && Start(1, 1) == 2
    ensures Start(1, m + n) == Start(1, m) * Start(1, n)
    decreases m, n
  {
    if n > 0 {
      StartIsShift(b, m, n - 1);
      Doubled(b, Start(1, n - 1));
      Doubled(Start(1, m), Start(1, n - 1));
      assert Start(1, m + n) == 2 * Start(1, m + n - 1);
    }
  }

  lemma Doubled(a: int, b: int)
    ensures 2 * (a * b) == a * (2 * b)
  {
  }

  // ----- The wheel -----

  ghost predicate IsMinTime(pending: map<int, int>, t: int) {
    if pending == map[] then t == NEVER
    else (exists i :: i in pending && pending[i] == t) && forall i :: i in pending ==> t <= pending[i]
  }

  ghost predicate Distinct(s: seq<int>) {
    forall i, j :: 0 <= i < j < |s| ==> s[i] != s[j]
  }

  class Wheel {
    const log2ClocksPerBin: nat
    var currentTimeIndex: int
    var pending: map<int, int>

    ghost predicate Valid()
      reads this
    {
      forall i :: i in pending ==> 0 <= pending[i] < NEVER
    }

    constructor (log2ClocksPerBin: nat)
      ensures Valid() && this.log2ClocksPerBin == log2ClocksPerBin && currentTimeIndex == 0 && pending == map[]
    {
      this.log2ClocksPerBin, currentTimeIndex, pending := log2ClocksPerBin, 0, map[];
    }

    method Insert(cpuTime: int, i: int)
      requires Valid() && i !in pending && 0 <= cpuTime < NEVER
      modifies this`pending
      ensures Valid() && pending == old(pending)[i := cpuTime] && |pending| == |old(pending)| + 1
    {
      pending := pending[i := cpuTime];
    }

    ghost predicate Due(i: int, cpuTime: int)
      requires Valid() && cpuTime >= 0
      reads this
    {
      i in pending && Bin(pending[i], log2ClocksPerBin) <= Bin(cpuTime, log2ClocksPerBin)
    }

    /**
     * Removes exactly the events whose bin has come, returns each once in some order, and returns
     * the least remaining time.
     */
    method Advance(cpuTime: int) returns (expired: seq<int>, minNextTime: int)
      requires Valid() && cpuTime >= 0
      modifies this
      ensures Valid() && currentTimeIndex == Bin(cpuTime, log2ClocksPerBin)
      ensures Distinct(expired) && |pending| == |old(pending)| - |expired|
      ensures forall i :: i in expired <==> old(Due(i, cpuTime))
      ensures forall i :: i in pending <==> i in old(pending) && !old(Due(i, cpuTime))
      ensures forall i :: i in pending ==> pending[i] == old(pending)[i]
      ensures IsMinTime(pending, minNextTime) && (pending == map[] ==> minNextTime == 0xFFFF_FFFF_FFFF_FFFF)
    {
      currentTimeIndex := Bin(cpuTime, log2ClocksPerBin);
      var due := set i | i in pending && Bin(pending[i], log2ClocksPerBin) <= currentTimeIndex;
      expired := [];
      while due != {}
        invariant Valid() && currentTimeIndex == Bin(cpuTime, log2ClocksPerBin)
        invariant Distinct(expired) && |pending| == |old(pending)| - |expired|
        invariant forall i :: i in due ==> i in pending && i !in expired
        invariant forall i :: i in due || i in expired <==> old(Due(i, cpuTime))
        invariant forall i :: i in pending <==> i in old(pending) && i !in expired
        invariant forall i :: i in pending ==> pending[i] == old(pending)[i]
        decreases due
      {
        ghost var some := Member(due);
        var i :| i in due;
        expired, due := expired + [i], due - {i};
        pending := pending - {i};
      }
      minNextTime := MinTime();
    }

    method MinTime() returns (t: int)
      requires Valid()
      ensures IsMinTime(pending, t)
    {
      t := NEVER;
      var rest := pending.Keys;
      while rest != {}
        invariant rest <= pending.Keys
        invariant forall i :: i in pending && i !in rest ==> t <= pending[i]
        invariant if rest == pending.Keys then t == NEVER else exists i :: i in pending && pending[i] == t
        decreases rest
      {
        ghost var some := Member(rest);
        var i :| i in rest;
        if pending[i] < t {
          t := pending[i];
        }
        rest := rest - {i};
      }
    }
  }

  // ----- The error histogram -----

  /** vppinfra's zigzag code for signed numbers. */
  function ZvecSignedToUnsigned(x: int): nat {
    if x >= 0 then 2 * x else -2 * x - 1
  }

  /** Late by `n` has code `2 * n`, early by `n` has code `2 * n - 1`, and no two errors share a code. */
  lemma ZigzagLaw(x: int, y: int)
    ensures x >= 0 ==> ZvecSignedToUnsigned(x) == 2 * x
    ensures x < 0 ==> ZvecSignedToUnsigned(x) == 2 * -x - 1
    ensures ZvecSignedToUnsigned(x) == ZvecSignedToUnsigned(y) ==> x == y
  {
  }

  /** Bucket `k` of a histogram; buckets behind its end are empty. */
  function Bucket(hist: seq<int>, k: nat): int {
    if k < |hist| then hist[k] else 0
  }

  /** All `n` errors counted are in the buckets of events on time and one bin late. */
  ghost predicate OnTimeOrOneLate(hist: seq<int>, n: int) {
    |hist| > 2 && hist[0] + hist[2] == n && forall k :: 0 <= k < |hist| && k != 0 && k != 2 ==> hist[k] == 0
  }

  function Total(hist: seq<int>): int {
    if hist == [] then 0 else Total(hist[..|hist| - 1]) + hist[|hist| - 1]
  }

  lemma {:induction false} TotalIncrement(hist: seq<int>, i: nat)
    requires i < |hist|
    ensures Total(hist[i := hist[i] + 1]) == Total(hist) + 1
  {
    var n := |hist| - 1;
    var next := hist[i := hist[i] + 1];
    if i < n {
      TotalIncrement(hist[..n], i);
      assert next[..n] == hist[..n][i := hist[..n][i] + 1];
    } else {
      assert next[..n] == hist[..n];
    }
  }

  lemma {:induction false} TotalZeros(hist: seq<int>, k: nat)
    ensures Total(hist + seq(k, i => 0)) == Total(hist)
  {
    var more := hist + seq(k, i => 0);
    if k == 0 {
      assert more == hist;
    } else {
      TotalZeros(hist, k - 1);
      assert more[..|more| - 1] == hist + seq(k - 1, i => 0);
    }
  }

  // ----- The bin assertion -----

  /** The test's assertion about how late an event is reported: by no more than a whole bin. */
  predicate InCorrectBin(cpuTime: int, t: int, log2: nat) {
    0 <= cpuTime - t <= Start(1, log2)
  }

  /**
   * An event reported in its own bin or one bin late passes the assertion exactly when it is late
   * or sits on the start of its bin.
   */
  lemma InCorrectBinIff(iter: int, t: int, log2: nat)
    requires iter - 1 <= Bin(t, log2) <= iter
    ensures InCorrectBin(Start(iter, log2), t, log2) <==> Bin(t, log2) == iter - 1 || t == Start(iter, log2)
  {
    StartAdd(iter - 1, 1, log2);
    BinRange(t, iter - 1, log2);
    BinRange(t, iter, log2);
    StartGrows(1, log2);
  }

  /** With one clock per bin the assertion never fails. */
  lemma OneClockPerBin(iter: int, t: int)
    requires iter - 1 <= Bin(t, 0) <= iter
    ensures InCorrectBin(Start(iter, 0), t, 0)
  {
    InCorrectBinIff(iter, t, 0);
  }

  /** With more clocks per bin, time 1 is in bin 0 but not on its first clock, and fails when reported at time 0. */
  lemma WideBinsFail(log2: nat)
    requires log2 > 0
    ensures Start(0, log2) == 0 && Bin(1, log2) == 0 && !InCorrectBin(Start(0, log2), 1, log2)
  {
    StartAdd(0, 0, log2);
    StartAdd(1, 0, log2);
    StartGrows(1, log2 - 1);
    BinRange(1, 0, log2);
    BinRange(1, 1, log2);
    InCorrectBinIff(0, 1, log2);
  }

  /** When no choice of random numbers can make the bin assertion fail. */
  predicate AlwaysInBin(log2: nat, nIter: int, nEvents: nat) {
    log2 == 0 || nIter == 1 || nEvents == 0
  }

  /** Punctual events are armed for the first clock of a bin. */
  ghost predicate Punctual(events: seq<int>, log2: nat) {
    forall i :: 0 <= i < |events| ==> events[i] == Start(Bin(events[i], log2), log2)
  }

  // ----- What the comparisons count -----

  /** In how many of the first `n` places two bitmaps differ. */
  function Differences(a: seq<bool>, b: seq<bool>, n: nat): nat
    requires n <= |a| && n <= |b|
  {
    if n == 0 then 0 else Differences(a, b, n - 1) + One(a[n - 1] != b[n - 1])
  }

  lemma {:induction false} NoDifference(a: seq<bool>, b: seq<bool>, n: nat)
    requires n <= |a| && n <= |b|
    ensures Differences(a, b, n) == 0 <==> a[..n] == b[..n]
  {
    if n > 0 {
      NoDifference(a, b, n - 1);
      assert a[..n] == a[..n - 1] + [a[n - 1]] && b[..n] == b[..n - 1] + [b[n - 1]];
    }
  }

  /** A least time is right about an event if it lies behind the event exactly when the event's bin has come. */
  predicate RightAbout(least: int, t: int, iter: int, log2: nat) {
    Bin(t, log2) <= iter <==> t < least
  }

  /** About how many of the first `n` events a least time is wrong. */
  function WrongAbout(least: int, events: seq<int>, iter: int, log2: nat, n: nat): nat
    requires n <= |events|
  {
    if n == 0 then 0
    else WrongAbout(least, events, iter, log2, n - 1) + One(!RightAbout(least, events[n - 1], iter, log2))
  }

  lemma {:induction false} RightAboutAll(least: int, events: seq<int>, iter: int, log2: nat, n: nat)
    requires n <= |events|
    ensures WrongAbout(least, events, iter, log2, n) == 0 <==>
            forall i :: 0 <= i < n ==> RightAbout(least, events[i], iter, log2)
  {
    if n > 0 {
      RightAboutAll(least, events, iter, log2, n - 1);
    }
  }

  /** The least time among the events that are not marked, or the all-ones value. */
  ghost predicate IsLeast(t: int, events: seq<int>, marked: seq<bool>)
    requires |marked| == |events|
  {
    && t <= NEVER && (forall i :: 0 <= i < |events| && !marked[i] ==> t <= events[i])
    && (t == NEVER || exists i :: 0 <= i < |events| && !marked[i] && events[i] == t)
  }

  /** How many of these events have the given lag in bins. */
  function LagCount(done: seq<int>, events: seq<int>, iter: int, log2: nat, lag: int): nat
    requires forall i :: i in done ==> 0 <= i < |events|
  {
    if done == [] then 0
    else
      var n := |done| - 1;
      assert done[n] in done && forall i :: i in done[..n] ==> i in done;
      LagCount(done[..n], events, iter, log2, lag) + One(iter - Bin(events[done[n]], log2) == lag)
  }

  lemma LagCountSnoc(done: seq<int>, j: int, events: seq<int>, iter: int, log2: nat, lag: int)
    requires forall i :: i in done + [j] ==> 0 <= i < |events|
    ensures (forall i :: i in done ==> 0 <= i < |events|) && 0 <= j < |events|
    ensures LagCount(done + [j], events, iter, log2, lag) ==
            LagCount(done, events, iter, log2, lag) + One(iter - Bin(events[j], log2) == lag)
  {
    assert forall i :: i in done ==> i in done + [j];
    assert j in done + [j];
    assert (done + [j])[..|done|] == done;
  }

  ghost predicate Draws(draw: nat -> int, nIter: int) {
    forall k :: 0 <= draw(k) < nIter
  }

  /** `after` is `before` with the bits of `s` set. */
  ghost predicate Marks(before: seq<bool>, after: seq<bool>, s: seq<int>) {
    && |before| == |after|
    && forall i :: 0 <= i < |after| ==> (after[i] <==> before[i] || i in s)
  }

  lemma MarksSnoc(before: seq<bool>, after: seq<bool>, s: seq<int>, j: int)
    requires Marks(before, after, s) && 0 <= j < |after|
    ensures Marks(before, after[j := true], s + [j])
  {
  }

  // ----- The test -----

  class Test {
    const wheel: Wheel
    const nIter: int
    const validate: bool
    /** The random numbers, reduced below the number of iterations, and how many of them were used. */
    const draw: nat -> int
    var drawn: nat
    /** The event table: `events[i]` is the time event `i` was last armed for. */
    var events: seq<int>
    /** `expired_bitmap[0]` and `expired_bitmap[1]`, one bit for each event. */
    var expiredByTable: seq<bool>
    var expiredByWheel: seq<bool>
    var errorHist: seq<int>
    var nExpired: int
    var nEventsInWheel: int
    var iter: int
    var rearms: int
    /** How often each of the test's assertions failed. */
    var minTimeFailures: int
    var bitmapFailures: int
    var minimumMismatches: int
    var binFailures: nat
    /** How often the table was compared with the wheel: its bits, and its minimum. */
    ghost var bitmapPasses: nat
    ghost var tablePasses: nat
    ghost var minimumPasses: nat

    /** The clock of the last iteration, and every time armed, stay below the all-ones value. */
    ghost predicate Fits() {
      nIter >= 1 && Start(2 * nIter, wheel.log2ClocksPerBin) + nIter <= NEVER && Draws(draw, nIter)
    }

    /** Unless the bin assertion can fail, every event is armed for the first clock of a bin. */
    ghost predicate Tame()
      reads this`events
    {
      AlwaysInBin(wheel.log2ClocksPerBin, nIter, |events|) ==> Punctual(events, wheel.log2ClocksPerBin)
    }

    /** The event is due in the current bin, but not on its first clock. */
    ghost predicate OffBin(i: int)
      reads this`events, this`iter
    {
      0 <= i < |events| && BinOf(i) == iter && events[i] != Start(iter, wheel.log2ClocksPerBin)
    }

    ghost predicate Bookkeeping()
      reads this`events, this`errorHist, this`nExpired, this`minTimeFailures, this`bitmapFailures,
        this`minimumMismatches, this`binFailures
    {
      && Total(errorHist) == nExpired && OnTimeOrOneLate(errorHist, nExpired)
      && minTimeFailures == bitmapFailures == minimumMismatches == 0
      && (AlwaysInBin(wheel.log2ClocksPerBin, nIter, |events|) ==> binFailures == 0)
    }

    /** Event `i` is either pending in the wheel, at the time in the table, or marked expired. */
    ghost predicate Agree()
      reads this, wheel
    {
      && Sized()
      && (forall i :: 0 <= i < |events| ==> 0 <= events[i] < NEVER)
      && (forall i :: i in wheel.pending <==> 0 <= i < |events| && !expiredByWheel[i])
      && (forall i :: i in wheel.pending ==> wheel.pending[i] == events[i])
    }

    ghost function BinOf(i: int): int
      requires 0 <= i < |events|
      reads this`events
    {
      Bin(events[i], wheel.log2ClocksPerBin)
    }

    /** Pending events lie ahead, or one bin behind if they were armed in the bin just done. */
    ghost predicate Ahead()
      requires Agree()
      reads this, wheel
    {
      forall i :: i in wheel.pending ==>
        && (iter <= BinOf(i) || (iter <= nIter && BinOf(i) == iter - 1))
        && BinOf(i) <= 2 * nIter - 2
    }

    /** What holds whenever the loop condition is evaluated. */
    ghost predicate AtHead()
      reads this, wheel
    {
      && Fits() && wheel.Valid() && Agree() && Ahead() && Tame() && Bookkeeping()
      && iter >= 0 && wheel.currentTimeIndex == Max(iter - 1, 0)
      && (forall i :: 0 <= i < |events| && expiredByWheel[i] ==> iter > nIter && BinOf(i) < iter)
      && nEventsInWheel == |wheel.pending|
      && nExpired == |events| + rearms - |wheel.pending|
      && rearms >= 0 && Compared(iter)
    }

    /** Every pass compared the minima, and the bitmaps too if validation is on. */
    ghost predicate Compared(passes: int)
      reads this`bitmapPasses, this`tablePasses, this`minimumPasses
    {
      minimumPasses == passes && bitmapPasses == tablePasses == if validate then passes else 0
    }

    /** After an advance: pending is exactly what lies in later bins than the current one. */
    ghost predicate Split()
      reads this`events, this`iter, wheel
    {
      && Fits() && wheel.Valid() && 0 <= iter == wheel.currentTimeIndex
      && (forall i :: 0 <= i < |events| ==> 0 <= events[i] < NEVER)
      && (forall i :: i in wheel.pending <==> 0 <= i < |events| && BinOf(i) > iter)
      && (forall i :: i in wheel.pending ==> wheel.pending[i] == events[i] && BinOf(i) <= 2 * nIter - 2)
    }

    ghost predicate Sized()
      reads this`events, this`expiredByTable, this`expiredByWheel
    {
      |expiredByTable| == |expiredByWheel| == |events|
    }

    constructor (nEvents: nat, nIter: int, log2ClocksPerBin: nat, validate: bool, draw: nat -> int)
      requires nIter >= 1 && Draws(draw, nIter) && Start(2 * nIter, log2ClocksPerBin) + nIter <= NEVER
      ensures AtHead() && iter == 0 && rearms == 0 && |events| == nEvents
      ensures this.nIter == nIter && this.validate == validate && wheel.log2ClocksPerBin == log2ClocksPerBin
      ensures binFailures == 0 && forall k :: 0 <= k < nEvents ==> events[k] == draw(k)
      ensures fresh(wheel)
    {
      wheel := new Wheel(log2ClocksPerBin);
      this.nIter, this.validate, this.draw, drawn := nIter, validate, draw, 0;
      events := seq(nEvents, i => 0);
      expiredByTable, expiredByWheel := seq(nEvents, i => false), seq(nEvents, i => false);
      errorHist := [];
      nExpired, nEventsInWheel, iter, rearms := 0, nEvents, 0, 0;
      minTimeFailures, bitmapFailures, minimumMismatches, binFailures := 0, 0, 0, 0;
      bitmapPasses, tablePasses, minimumPasses := 0, 0, 0;
      new;
      Prepare();
    }

    /** Nothing is armed and nothing was counted. */
    ghost predicate Blank()
      reads this, wheel
    {
      && Fits() && wheel.Valid() && wheel.currentTimeIndex == 0 && wheel.pending == map[] && Sized()
      && (forall i :: 0 <= i < |events| ==> events[i] == 0 && !expiredByWheel[i])
      && nExpired == iter == rearms == drawn == 0 && nEventsInWheel == |events|
      && minTimeFailures == bitmapFailures == minimumMismatches == binFailures == 0
      && bitmapPasses == tablePasses == minimumPasses == 0
    }

    /** Makes the first events. */
    method Prepare()
      requires Blank()
      modifies this`events, this`drawn, this`errorHist, wheel`pending
      ensures AtHead() && |events| == old(|events|)
      ensures forall k :: 0 <= k < |events| ==> events[k] == draw(k)
    {
      ArmAll();
      MakeHistogram();
    }

    method MakeHistogram()
      modifies this`errorHist
      ensures Total(errorHist) == 0 && OnTimeOrOneLate(errorHist, 0)
    {
      TotalZeros([], 1024);
      errorHist := [] + seq(1024, i => 0);
    }

    method ArmAll()
      requires Fits() && wheel.Valid() && wheel.currentTimeIndex == 0 && wheel.pending == map[] && drawn == 0
      requires forall k :: 0 <= k < |events| ==> events[k] == 0
      modifies this`events, this`drawn, wheel`pending
      ensures wheel.Valid() && |events| == old(|events|) == |wheel.pending| && Tame()
      ensures forall k :: 0 <= k < |events| ==> events[k] == draw(k) < NEVER
      ensures forall k :: k in wheel.pending <==> 0 <= k < |events|
      ensures forall k :: k in wheel.pending ==> wheel.pending[k] == events[k] && 0 <= BinOf(k) <= 2 * nIter - 2
    {
      StartAdd(0, 0, wheel.log2ClocksPerBin);
      BinStart(0, wheel.log2ClocksPerBin);
      for i := 0 to |events|
        invariant wheel.Valid() && |events| == old(|events|) && |wheel.pending| == drawn == i && Tame()
        invariant forall k :: 0 <= k < i ==> events[k] == draw(k) < NEVER
        invariant forall k :: k in wheel.pending <==> 0 <= k < i
        invariant forall k :: k in wheel.pending ==> wheel.pending[k] == events[k] && 0 <= BinOf(k) <= 2 * nIter - 2
      {
        SetEvent(i);
      }
    }

    /** Arms event `i` at the current bin plus the next number of clocks drawn. */
    method SetEvent(i: int)
      requires Fits() && wheel.Valid() && 0 <= i < |events| && i !in wheel.pending && Tame()
      requires 0 <= wheel.currentTimeIndex < nIter
      modifies this`events, this`drawn, wheel`pending
      ensures wheel.Valid() && |events| == old(|events|) && drawn == old(drawn) + 1 && Tame()
      ensures events == old(events)[i := events[i]] && 0 <= events[i] < NEVER
      ensures events[i] == Start(wheel.currentTimeIndex, wheel.log2ClocksPerBin) + draw(old(drawn))
      ensures wheel.pending == old(wheel.pending)[i := events[i]] && |wheel.pending| == |old(wheel.pending)| + 1
      ensures wheel.currentTimeIndex <= BinOf(i) < wheel.currentTimeIndex + nIter
    {
      var cpuTime := Start(wheel.currentTimeIndex, wheel.log2ClocksPerBin);
      var ahead := draw(drawn);
      drawn := drawn + 1;
      BinAhead(wheel.currentTimeIndex, ahead, wheel.log2ClocksPerBin);
      if wheel.log2ClocksPerBin == 0 || nIter == 1 {
        ArmedOnFirstClock(wheel.currentTimeIndex, ahead, wheel.log2ClocksPerBin);
      }
      ArmedFits(wheel.currentTimeIndex, ahead);
      cpuTime := cpuTime + ahead;
      UpdateKeepsTame(i, cpuTime);
      wheel.Insert(cpuTime, i);
      events := events[i := cpuTime];
    }

    lemma UpdateKeepsTame(i: int, t: int)
      requires Tame() && 0 <= i < |events|
      requires wheel.log2ClocksPerBin == 0 || nIter == 1 ==>
                 Start(Bin(t, wheel.log2ClocksPerBin), wheel.log2ClocksPerBin) == t
      ensures AlwaysInBin(wheel.log2ClocksPerBin, nIter, |events|) ==>
                Punctual(events[i := t], wheel.log2ClocksPerBin)
    {
    }

    lemma ArmedOnFirstClock(b: int, r: int, log2: nat)
      requires b >= 0 && r >= 0 && (log2 == 0 || r == 0)
      ensures Start(Bin(Start(b, log2) + r, log2), log2) == Start(b, log2) + r
    {
      BinStart(b, log2);
    }

    lemma ArmedFits(b: int, r: int)
      requires Fits() && 0 <= b < nIter && 0 <= r < nIter
      ensures Start(b, wheel.log2ClocksPerBin) + r < NEVER
    {
      StartAdd(b, 2 * nIter - b, wheel.log2ClocksPerBin);
      StartGrows(2 * nIter - b, wheel.log2ClocksPerBin);
    }

    /** The bitmap computed from the event table, with the assertions on the wheel's minimum. */
    method UpdateExpiredByTable(minNextTime: int)
      requires Sized()
      modifies this`expiredByTable, this`minTimeFailures, this`tablePasses
      ensures tablePasses == old(tablePasses) + 1
      ensures minTimeFailures == old(minTimeFailures)
                                 + WrongAbout(minNextTime, events, iter, wheel.log2ClocksPerBin, |events|)
      ensures Sized() && forall i :: 0 <= i < |events| ==> (expiredByTable[i] <==> BinOf(i) <= iter)
    {
      for i := 0 to |events|
        invariant tablePasses == old(tablePasses)
        invariant minTimeFailures == old(minTimeFailures)
                                     + WrongAbout(minNextTime, events, iter, wheel.log2ClocksPerBin, i)
        invariant Sized() && forall k :: 0 <= k < i ==> (expiredByTable[k] <==> BinOf(k) <= iter)
      {
        var isExpired := iter >= Bin(events[i], wheel.log2ClocksPerBin);
        expiredByTable := expiredByTable[i := isExpired];
        var holds := if isExpired then minNextTime > events[i] else minNextTime <= events[i];
        minTimeFailures := minTimeFailures + One(!holds);
      }
      tablePasses := tablePasses + 1;
    }

    /** The wheel's minimum is right about every event. */
    lemma MinimumIsRight(minNextTime: int)
      requires Split() && IsMinTime(wheel.pending, minNextTime)
      ensures WrongAbout(minNextTime, events, iter, wheel.log2ClocksPerBin, |events|) == 0
    {
      forall i | 0 <= i < |events|
        ensures RightAbout(minNextTime, events[i], iter, wheel.log2ClocksPerBin)
      {
        if BinOf(i) <= iter {
          MinimumIsLater(i, minNextTime);
        } else {
          assert i in wheel.pending;
        }
      }
      RightAboutAll(minNextTime, events, iter, wheel.log2ClocksPerBin, |events|);
    }

    lemma MinimumIsLater(i: int, minNextTime: int)
      requires Split() && IsMinTime(wheel.pending, minNextTime) && 0 <= i < |events| && BinOf(i) <= iter
      ensures minNextTime > events[i]
    {
      if wheel.pending != map[] {
        var k :| k in wheel.pending && wheel.pending[k] == minNextTime;
        BinMonotone(events[i], events[k], wheel.log2ClocksPerBin);
      }
    }

    /**
     * Marks what the wheel returned, checks the bin of each event and counts its error. The bin
     * assertion fails exactly for events in the current bin that are not on its first clock.
     */
    method AccountExpired(expired: seq<int>)
      requires iter >= 0 && Bookkeeping() && Tame() && Distinct(expired)
      requires forall i :: i in expired ==>
                 0 <= i < |events| && events[i] >= 0 && iter - 1 <= BinOf(i) <= iter
      requires |expiredByWheel| == |events|
      modifies this`expiredByWheel, this`errorHist, this`nExpired, this`binFailures
      ensures Bookkeeping() && nExpired == old(nExpired) + |expired| && |expiredByWheel| == |events|
      ensures forall i :: 0 <= i < |events| ==> (expiredByWheel[i] <==> old(expiredByWheel[i]) || i in expired)
      ensures binFailures >= old(binFailures)
      ensures binFailures > old(binFailures) <==> AnyOffBin(expired)
      ensures BucketsGrew(old(errorHist), expired)
    {
      ghost var was, hist, fails, n := expiredByWheel, errorHist, binFailures, nExpired;
      for k := 0 to |expired|
        invariant |expiredByWheel| == |events| && AccountedFor(was, hist, fails, n, expired[..k])
      {
        assert expired[..k + 1] == expired[..k] + [expired[k]];
        assert expired[k] in expired;
        AccountNext(was, hist, fails, n, expired[..k], expired[k]);
      }
      assert expired[..|expired|] == expired;
    }

    /** The events of `done` have been accounted for, from a state with these values. */
    ghost predicate AccountedFor(was: seq<bool>, hist: seq<int>, fails: int, n: int, done: seq<int>)
      reads this`events, this`iter, this`expiredByWheel, this`errorHist, this`nExpired, this`minTimeFailures,
        this`bitmapFailures, this`minimumMismatches, this`binFailures
    {
      && Bookkeeping() && nExpired == n + |done|
      && Marks(was, expiredByWheel, done) && BucketsGrew(hist, done)
      && binFailures >= fails && (binFailures > fails <==> AnyOffBin(done))
    }

    method AccountNext(ghost was: seq<bool>, ghost hist: seq<int>, ghost fails: int, ghost n: int,
                       ghost done: seq<int>, j: int)
      requires iter >= 0 && Tame() && |expiredByWheel| == |events| && AccountedFor(was, hist, fails, n, done)
      requires 0 <= j < |events| && events[j] >= 0 && iter - 1 <= BinOf(j) <= iter
      modifies this`expiredByWheel, this`errorHist, this`nExpired, this`binFailures
      ensures |expiredByWheel| == |events| && AccountedFor(was, hist, fails, n, done + [j])
    {
      MarksSnoc(was, expiredByWheel, done, j);
      AnyOffBinSnoc(done, j);
      BucketsGrewSnoc(hist, done, j);
      AccountOne(j);
    }

    /** Each event of `done` has added one to the bucket of its lag: twice the bins it was late. */
    ghost predicate BucketsGrew(hist: seq<int>, done: seq<int>)
      reads this`errorHist, this`events, this`iter
    {
      && (forall i :: i in done ==> 0 <= i < |events|)
      && forall k: nat :: Bucket(errorHist, k) == Grown(hist, done, k)
    }

    ghost function Grown(hist: seq<int>, done: seq<int>, k: nat): int
      requires forall i :: i in done ==> 0 <= i < |events|
      reads this`events, this`iter
    {
      Bucket(hist, k) + if k % 2 == 0 then LagCount(done, events, iter, wheel.log2ClocksPerBin, k / 2) else 0
    }

    lemma BucketsGrewSnoc(hist: seq<int>, done: seq<int>, j: int)
      requires 0 <= j < |events| && iter - BinOf(j) >= 0 && forall i :: i in done ==> 0 <= i < |events|
      ensures forall i :: i in done + [j] ==> 0 <= i < |events|
      ensures forall k: nat :: Grown(hist, done + [j], k) == Grown(hist, done, k) + One(k == 2 * (iter - BinOf(j)))
    {
      forall k: nat
        ensures Grown(hist, done + [j], k) == Grown(hist, done, k) + One(k == 2 * (iter - BinOf(j)))
      {
        LagCountSnoc(done, j, events, iter, wheel.log2ClocksPerBin, k / 2);
      }
    }

    ghost predicate AnyOffBin(s: seq<int>)
      reads this`events, this`iter
    {
      exists i :: i in s && OffBin(i)
    }

    lemma AnyOffBinSnoc(s: seq<int>, j: int)
      ensures AnyOffBin(s + [j]) <==> AnyOffBin(s) || OffBin(j)
    {
      if OffBin(j) {
        assert j in s + [j];
      }
      if AnyOffBin(s) {
        var i :| i in s && OffBin(i);
        assert i in s + [j];
      }
    }

    method AccountOne(j: int)
      requires iter >= 0 && Bookkeeping() && Tame() && |expiredByWheel| == |events|
      requires 0 <= j < |events| && events[j] >= 0 && iter - 1 <= BinOf(j) <= iter
      modifies this`expiredByWheel, this`errorHist, this`nExpired, this`binFailures
      ensures Bookkeeping() && nExpired == old(nExpired) + 1
      ensures expiredByWheel == old(expiredByWheel)[j := true]
      ensures binFailures == old(binFailures) + One(OffBin(j))
      ensures forall k: nat :: Bucket(errorHist, k) == old(Bucket(errorHist, k)) + One(k == 2 * (iter - BinOf(j)))
    {
      var cpuTime := Start(iter, wheel.log2ClocksPerBin);
      expiredByWheel := expiredByWheel[j := true];
      InCorrectBinIff(iter, events[j], wheel.log2ClocksPerBin);
      binFailures := binFailures + One(!InCorrectBin(cpuTime, events[j], wheel.log2ClocksPerBin));
      CountError(ZvecSignedToUnsigned(iter - Bin(events[j], wheel.log2ClocksPerBin)));
      nExpired := nExpired + 1;
    }

    method CountError(idt: nat)
      modifies this`errorHist
      ensures Total(errorHist) == Total(old(errorHist)) + 1
      ensures |errorHist| >= |old(errorHist)| && |errorHist| > idt
      ensures forall k: nat :: k < |errorHist| ==> errorHist[k] == Bucket(old(errorHist), k) + One(k == idt)
    {
      if idt >= |errorHist| {
        TotalZeros(errorHist, idt + 1 - |errorHist|);
        errorHist := errorHist + seq(idt + 1 - |errorHist|, i => 0);
      }
      TotalIncrement(errorHist, idt);
      errorHist := errorHist[idt := errorHist[idt] + 1];
    }

    /** Counts the events on which the bitmaps differ. */
    method CompareBitmaps()
      requires Sized()
      modifies this`bitmapFailures, this`bitmapPasses
      ensures bitmapPasses == old(bitmapPasses) + 1
      ensures bitmapFailures == old(bitmapFailures) + Differences(expiredByTable, expiredByWheel, |events|)
    {
      for i := 0 to |events|
        invariant bitmapPasses == old(bitmapPasses)
        invariant bitmapFailures == old(bitmapFailures) + Differences(expiredByTable, expiredByWheel, i)
      {
        bitmapFailures := bitmapFailures + One(expiredByTable[i] != expiredByWheel[i]);
      }
      bitmapPasses := bitmapPasses + 1;
    }

    /** Counts a mismatch unless the wheel's minimum is the least time of the unexpired events of the table. */
    method CompareMinimum(minNextTime: int)
      requires Sized()
      modifies this`minimumMismatches, this`minimumPasses
      ensures minimumPasses == old(minimumPasses) + 1
      ensures minimumMismatches == old(minimumMismatches) + One(!IsLeast(minNextTime, events, expiredByWheel))
    {
      minimumPasses := minimumPasses + 1;
      var least := NEVER;
      for i := 0 to |events|
        invariant least <= NEVER && forall k :: 0 <= k < i && !expiredByWheel[k] ==> least <= events[k]
        invariant least == NEVER || exists k :: 0 <= k < i && !expiredByWheel[k] && events[k] == least
      {
        if !expiredByWheel[i] && events[i] < least {
          least := events[i];
        }
      }
      minimumMismatches := minimumMismatches + One(minNextTime != least);
    }

    /** Arms every event that just expired again. */
    method Rearm(expired: seq<int>)
      requires Fits() && wheel.Valid() && Agree() && Tame() && Distinct(expired)
      requires 0 <= wheel.currentTimeIndex == iter < nIter
      requires forall i :: 0 <= i < |events| ==> (expiredByWheel[i] <==> i in expired)
      requires forall i :: i in expired ==> 0 <= i < |events|
      requires forall i :: i in wheel.pending ==> iter < BinOf(i) <= 2 * nIter - 2
      requires nEventsInWheel == |wheel.pending|
      modifies this`events, this`drawn, this`expiredByWheel, this`rearms, this`nEventsInWheel, wheel`pending
      ensures wheel.Valid() && Agree() && Tame() && |events| == old(|events|)
      ensures forall i :: 0 <= i < |events| ==> !expiredByWheel[i]
      ensures forall i :: i in wheel.pending ==> iter <= BinOf(i) <= 2 * nIter - 2
      ensures rearms == old(rearms) + |expired| && |wheel.pending| == |old(wheel.pending)| + |expired|
      ensures nEventsInWheel == |wheel.pending|
    {
      for k := 0 to |expired|
        invariant wheel.Valid() && Agree() && Tame() && |events| == old(|events|)
        invariant forall i :: 0 <= i < |events| ==> (expiredByWheel[i] <==> i in expired[k..])
        invariant forall i :: i in wheel.pending ==> iter <= BinOf(i) <= 2 * nIter - 2
        invariant rearms == old(rearms) + k && |wheel.pending| == |old(wheel.pending)| + k
        invariant nEventsInWheel == old(nEventsInWheel)
      {
        var j := expired[k];
        assert j in expired && j in expired[k..] && expired[k..] == [j] + expired[k + 1..];
        RearmOne(j);
      }
      assert expired[|expired|..] == [];
      nEventsInWheel := nEventsInWheel + |expired|;
    }

    method RearmOne(j: int)
      requires Fits() && wheel.Valid() && Agree() && Tame() && 0 <= wheel.currentTimeIndex == iter < nIter
      requires 0 <= j < |events| && expiredByWheel[j]
      requires forall i :: i in wheel.pending ==> iter <= BinOf(i) <= 2 * nIter - 2
      modifies this`events, this`drawn, this`expiredByWheel, this`rearms, wheel`pending
      ensures wheel.Valid() && Agree() && Tame() && |events| == old(|events|)
      ensures expiredByWheel == old(expiredByWheel)[j := false]
      ensures forall i :: i in wheel.pending ==> iter <= BinOf(i) <= 2 * nIter - 2
      ensures rearms == old(rearms) + 1 && |wheel.pending| == |old(wheel.pending)| + 1
    {
      SetEvent(j);
      expiredByWheel := expiredByWheel[j := false];
      rearms := rearms + 1;
    }

    /** What the wheel returned and what it keeps, before the test looks at either. */
    ghost predicate Advanced(expired: seq<int>, minNextTime: int)
      reads this, wheel
    {
      && Split() && Sized() && Tame() && Bookkeeping() && IsMinTime(wheel.pending, minNextTime)
      && Distinct(expired) && rearms >= 0
      && (forall i :: i in expired ==> 0 <= i < |events| && iter - 1 <= BinOf(i) <= iter)
      && (forall i :: 0 <= i < |events| ==> (i in wheel.pending <==> i !in expired && !expiredByWheel[i]))
      && (iter < nIter ==> forall i :: 0 <= i < |events| ==> !expiredByWheel[i])
      && nEventsInWheel - |expired| == |wheel.pending|
      && nExpired + |expired| == |events| + rearms - |wheel.pending| && Compared(iter)
    }

    method AdvanceWheel() returns (expired: seq<int>, minNextTime: int)
      requires AtHead() && (iter < nIter || nEventsInWheel > 0)
      modifies wheel
      ensures Advanced(expired, minNextTime)
      ensures forall i :: i in expired <==> i in old(wheel.pending) && BinOf(i) <= iter
    {
      BinStart(iter, wheel.log2ClocksPerBin);
      expired, minNextTime := wheel.Advance(Start(iter, wheel.log2ClocksPerBin));
    }

    /** What holds behind the checks of an iteration, before anything is armed again. */
    ghost predicate Settled(expired: seq<int>)
      reads this, wheel
    {
      && Split() && Sized() && Tame() && Bookkeeping() && Distinct(expired) && rearms >= 0
      && (forall i :: 0 <= i < |events| ==> (expiredByWheel[i] <==> i !in wheel.pending))
      && (forall i :: i in expired ==> 0 <= i < |events|)
      && (iter < nIter ==> forall i :: 0 <= i < |events| ==> (expiredByWheel[i] <==> i in expired))
      && nEventsInWheel == |wheel.pending|
      && nExpired == |events| + rearms - |wheel.pending| && Compared(iter + 1)
    }

    /** What holds when the bitmaps are up to date, before they are compared. */
    ghost predicate Marked(expired: seq<int>, minNextTime: int)
      reads this, wheel
    {
      && Split() && Sized() && Tame() && Bookkeeping() && Distinct(expired) && rearms >= 0
      && IsMinTime(wheel.pending, minNextTime) && (validate ==> expiredByTable == expiredByWheel)
      && (forall i :: 0 <= i < |events| ==> (expiredByWheel[i] <==> i !in wheel.pending))
      && (forall i :: i in expired ==> 0 <= i < |events|)
      && (iter < nIter ==> forall i :: 0 <= i < |events| ==> (expiredByWheel[i] <==> i in expired))
      && nEventsInWheel - |expired| == |wheel.pending|
      && nExpired == |events| + rearms - |wheel.pending|
      && minimumPasses == iter && bitmapPasses == (if validate then iter else 0)
      && tablePasses == if validate then iter + 1 else 0
    }

    /** Both bitmaps are brought up to date, and the times of the expired events are checked. */
    method MarkExpired(expired: seq<int>, minNextTime: int)
      requires Advanced(expired, minNextTime)
      modifies this`expiredByTable, this`expiredByWheel, this`errorHist, this`nExpired, this`minTimeFailures,
        this`binFailures, this`tablePasses
      ensures Marked(expired, minNextTime) && binFailures >= old(binFailures)
      ensures binFailures > old(binFailures) <==> AnyOffBin(expired)
    {
      UpdateIfValidating(expired, minNextTime);
      AccountExpired(expired);
    }

    method UpdateIfValidating(expired: seq<int>, minNextTime: int)
      requires Advanced(expired, minNextTime)
      modifies this`expiredByTable, this`minTimeFailures, this`tablePasses
      ensures Sized() && Bookkeeping() && tablePasses == old(tablePasses) + if validate then 1 else 0
      ensures validate ==> forall i :: 0 <= i < |events| ==> (expiredByTable[i] <==> BinOf(i) <= iter)
    {
      if validate {
        MinimumIsRight(minNextTime);
        UpdateExpiredByTable(minNextTime);
      }
    }

    /** The comparisons behind the loop over expired events find nothing wrong. */
    method Compare(expired: seq<int>, minNextTime: int)
      requires Marked(expired, minNextTime)
      modifies this`bitmapFailures, this`minimumMismatches, this`bitmapPasses, this`minimumPasses, this`nEventsInWheel
      ensures Settled(expired)
    {
      MinimumIsLeast(minNextTime);
      CompareAll(minNextTime);
      nEventsInWheel := nEventsInWheel - |expired|;
    }

    method CompareAll(minNextTime: int)
      requires Sized() && IsLeast(minNextTime, events, expiredByWheel)
      requires validate ==> expiredByTable == expiredByWheel
      modifies this`bitmapFailures, this`minimumMismatches, this`bitmapPasses, this`minimumPasses
      ensures bitmapFailures == old(bitmapFailures) && minimumMismatches == old(minimumMismatches)
      ensures minimumPasses == old(minimumPasses) + 1
      ensures bitmapPasses == old(bitmapPasses) + if validate then 1 else 0
    {
      if validate {
        NoDifference(expiredByTable, expiredByWheel, |events|);
        CompareBitmaps();
      }
      CompareMinimum(minNextTime);
    }

    lemma MinimumIsLeast(minNextTime: int)
      requires Split() && Sized() && IsMinTime(wheel.pending, minNextTime)
      requires forall i :: 0 <= i < |events| ==> (expiredByWheel[i] <==> i !in wheel.pending)
      ensures IsLeast(minNextTime, events, expiredByWheel)
    {
    }

    /** Everything the test compares with the wheel after an advance. */
    method Check(expired: seq<int>, minNextTime: int)
      requires Advanced(expired, minNextTime)
      modifies this`expiredByTable, this`expiredByWheel, this`errorHist, this`nExpired, this`minTimeFailures,
        this`bitmapFailures, this`minimumMismatches, this`binFailures, this`nEventsInWheel,
        this`bitmapPasses, this`tablePasses, this`minimumPasses
      ensures Settled(expired) && binFailures >= old(binFailures)
      ensures binFailures > old(binFailures) <==> AnyOffBin(expired)
    {
      MarkExpired(expired, minNextTime);
      Compare(expired, minNextTime);
    }

    /** An event is about to be reported that the bin assertion does not accept. */
    ghost predicate SomeOffBin()
      reads this`events, this`iter, wheel
    {
      exists i :: i in wheel.pending && OffBin(i)
    }

    /** One pass of the test's loop. Its bin assertion fails exactly if an event is off its bin. */
    method Iterate()
      requires AtHead() && (iter < nIter || nEventsInWheel > 0)
      modifies this, wheel
      ensures AtHead() && iter == old(iter) + 1 && |events| == old(|events|)
      ensures binFailures >= old(binFailures)
      ensures binFailures > old(binFailures) <==> old(SomeOffBin())
    {
      var expired := AdvanceAndCheck();
      RearmIfEarly(expired);
      NextIteration();
    }

    method RearmIfEarly(expired: seq<int>)
      requires Settled(expired)
      modifies this`events, this`drawn, this`expiredByWheel, this`rearms, this`nEventsInWheel, wheel`pending
      ensures PassDone() && |events| == old(|events|)
    {
      if iter < nIter {
        Rearm(expired);
      }
    }

    /** What holds at the end of a pass. */
    ghost predicate PassDone()
      reads this, wheel
    {
      && Fits() && wheel.Valid() && Agree() && Tame() && Bookkeeping()
      && 0 <= iter == wheel.currentTimeIndex && rearms >= 0
      && (forall i :: i in wheel.pending ==>
            BinOf(i) <= 2 * nIter - 2 && if iter < nIter then iter <= BinOf(i) else iter < BinOf(i))
      && (forall i :: 0 <= i < |events| && expiredByWheel[i] ==> iter >= nIter && BinOf(i) <= iter)
      && nEventsInWheel == |wheel.pending| && nExpired == |events| + rearms - |wheel.pending|
      && Compared(iter + 1)
    }

    method AdvanceAndCheck() returns (expired: seq<int>)
      requires AtHead() && (iter < nIter || nEventsInWheel > 0)
      modifies this`expiredByTable, this`expiredByWheel, this`errorHist, this`nExpired, this`minTimeFailures,
        this`bitmapFailures, this`minimumMismatches, this`binFailures, this`nEventsInWheel,
        this`bitmapPasses, this`tablePasses, this`minimumPasses, wheel
      ensures Settled(expired) && binFailures >= old(binFailures)
      ensures binFailures > old(binFailures) <==> old(SomeOffBin())
    {
      var minNextTime;
      expired, minNextTime := AdvanceWheel();
      Check(expired, minNextTime);
    }

    method NextIteration()
      requires PassDone()
      modifies this`iter
      ensures AtHead() && iter == old(iter) + 1
    {
      iter := iter + 1;
    }

    /** While something is pending, the loop is still within its bound. */
    lemma StillEarly()
      requires AtHead() && nEventsInWheel > 0
      ensures iter <= Max(nIter, 2 * nIter - 2)
    {
      var i := Member(wheel.pending.Keys);
      assert iter <= BinOf(i) || iter <= nIter;
    }

    /** An event armed for time 1 is off its bin at the start if bins are wide. */
    lemma StartsOffBin()
      requires AtHead() && iter == 0 && |events| > 0 && events[0] == 1 && wheel.log2ClocksPerBin > 0
      ensures SomeOffBin()
    {
      WideBinsFail(wheel.log2ClocksPerBin);
      assert 0 in wheel.pending && OffBin(0);
    }

    /**
     * The whole run: it ends after at most 2 * nIter passes with every event expired, no assertion
     * on minima or bitmaps has failed, and the error histogram accounts for every event armed.
     * With one clock per bin, or a single iteration, or no events, no bin assertion has failed
     * either, whatever the random numbers; an event that starts off its bin fails one.
     */
    method Run()
      requires AtHead() && iter == 0 && rearms == 0 && binFailures == 0
      modifies this, wheel
      ensures nIter <= iter <= Max(nIter + 1, 2 * nIter - 1) <= 2 * nIter
      ensures wheel.pending == map[] && |expiredByWheel| == |events|
      ensures forall i :: 0 <= i < |events| ==> expiredByWheel[i]
      ensures |events| == old(|events|) && Total(errorHist) == nExpired == |events| + rearms
      ensures OnTimeOrOneLate(errorHist, |events| + rearms)
      ensures minTimeFailures == bitmapFailures == minimumMismatches == 0 && Compared(iter)
      ensures AlwaysInBin(wheel.log2ClocksPerBin, nIter, |events|) ==> binFailures == 0
      ensures old(SomeOffBin()) ==> binFailures > 0
    {
      Iterate();
      while iter < nIter || nEventsInWheel > 0
        invariant AtHead() && |events| == old(|events|) && 1 <= iter <= Max(nIter + 1, 2 * nIter - 1)
        invariant old(SomeOffBin()) ==> binFailures > 0
        decreases Max(nIter + 1, 2 * nIter - 1) - iter
      {
        if nEventsInWheel > 0 {
          StillEarly();
        }
        Iterate();
      }
    }
  }

  /**
   * The condition on the caller's choices is exact: a generator that returns 1 for ever, which is a
   * draw of 1 unless there is only one iteration, makes the bin assertion fail in every test that the
   * condition does not cover.
   */
  method RunWithOnes(nEvents: nat, nIter: int, log2ClocksPerBin: nat, validate: bool) returns (test: Test)
    requires nIter >= 1 && Start(2 * nIter, log2ClocksPerBin) + nIter <= NEVER
    ensures test.nIter == nIter && test.wheel.log2ClocksPerBin == log2ClocksPerBin && |test.events| == nEvents
    ensures test.binFailures == 0 <==> AlwaysInBin(log2ClocksPerBin, nIter, nEvents)
  {
    test := new Test(nEvents, nIter, log2ClocksPerBin, validate, k => if nIter == 1 then 0 else 1);
    if !AlwaysInBin(log2ClocksPerBin, nIter, nEvents) {
      test.StartsOffBin();
    }
    test.Run();
  }
}
