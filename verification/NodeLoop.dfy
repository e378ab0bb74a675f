/**
 * The graph node's packet loop: four packets at a time with prefetching, then the rest one at a
 * time. `b`, `next` and `n_left_from` advance together; `done` is how far.
 */
module NodeLoop {
  datatype Buffer = Buffer(isTraced: bool, rxSwIfIndex: int)

  datatype Trace = Trace(buffer: nat, nextIndex: int, swIfIndex: int)

  /** What the one-at-a-time loop traces: each flagged buffer, in frame order. */
  function TraceOf(bufs: seq<Buffer>): seq<Trace> {
    if bufs == [] then []
    else
      var n := |bufs| - 1;
      TraceOf(bufs[..n]) + if bufs[n].isTraced then [Trace(n, 0, bufs[n].rxSwIfIndex)] else []
  }

  predicate IsTraceOf(t: Trace, bufs: seq<Buffer>) {
    t.buffer < |bufs| && bufs[t.buffer].isTraced && t.nextIndex == 0 && t.swIfIndex == bufs[t.buffer].rxSwIfIndex
  }

  /** The traces name exactly the flagged buffers, each once, in increasing order. */
  lemma {:induction false} TracesAreFlagged(bufs: seq<Buffer>)
    ensures var ts := TraceOf(bufs);
            && (forall k :: 0 <= k < |ts| ==> IsTraceOf(ts[k], bufs))
            && (forall k, m :: 0 <= k < m < |ts| ==> ts[k].buffer < ts[m].buffer)
            && (forall i :: 0 <= i < |bufs| && bufs[i].isTraced ==> Trace(i, 0, bufs[i].rxSwIfIndex) in ts)
  {
    if bufs != [] {
      var n := |bufs| - 1;
      TracesAreFlagged(bufs[..n]);
      var front, ts := TraceOf(bufs[..n]), TraceOf(bufs);
      assert forall k :: 0 <= k < |front| ==> IsTraceOf(front[k], bufs[..n]) && ts[k] == front[k];
      forall i | 0 <= i < |bufs| && bufs[i].isTraced
        ensures Trace(i, 0, bufs[i].rxSwIfIndex) in ts
      {
        if i < n {
          assert bufs[..n][i] == bufs[i] && Trace(i, 0, bufs[i].rxSwIfIndex) in front;
        }
      }
    }
  }

  function Range(lo: nat, hi: nat): seq<nat>
    requires lo <= hi
  {
    seq(hi - lo, i => lo + i)
  }

  class Node {
    var traces: seq<Trace>
    var prefetched: seq<nat>

    constructor ()
      ensures traces == [] && prefetched == []
    {
      traces, prefetched := [], [];
    }

    /** One packet: its next index is 0, and it is traced if it is flagged. */
    method OnePacket(bufs: array<Buffer>, nexts: array<int>, i: nat, isTrace: bool)
      requires i < bufs.Length && i < nexts.Length
      modifies this`traces, nexts
      ensures forall k :: 0 <= k < nexts.Length ==> nexts[k] == if k == i then 0 else old(nexts[k])
      ensures traces == old(traces) + if isTrace && bufs[i].isTraced then [Trace(i, 0, bufs[i].rxSwIfIndex)] else []
    {
      nexts[i] := 0;
      if isTrace {
        if bufs[i].isTraced {
          traces := traces + [Trace(i, nexts[i], bufs[i].rxSwIfIndex)];
        }
      }
    }

    /** Four packets: all next indices first, then all traces. */
    method FourPackets(bufs: array<Buffer>, nexts: array<int>, i: nat, isTrace: bool)
      requires i + 4 <= bufs.Length && i + 4 <= nexts.Length
      requires isTrace ==> traces == TraceOf(bufs[..i])
      modifies this`traces, nexts
      ensures forall k :: 0 <= k < nexts.Length ==> nexts[k] == if i <= k < i + 4 then 0 else old(nexts[k])
      ensures traces == if isTrace then TraceOf(bufs[..i + 4]) else old(traces)
    {
      nexts[i] := 0;
      nexts[i + 1] := 0;
      nexts[i + 2] := 0;
      nexts[i + 3] := 0;
      if isTrace {
        TraceIfFlagged(bufs, nexts, i);
        TraceIfFlagged(bufs, nexts, i + 1);
        TraceIfFlagged(bufs, nexts, i + 2);
        TraceIfFlagged(bufs, nexts, i + 3);
      }
    }

    method TraceIfFlagged(bufs: array<Buffer>, nexts: array<int>, i: nat)
      requires i < bufs.Length && i < nexts.Length && nexts[i] == 0 && traces == TraceOf(bufs[..i])
      modifies this`traces
      ensures traces == TraceOf(bufs[..i + 1])
    {
      assert bufs[..i + 1][..i] == bufs[..i];
      if bufs[i].isTraced {
        traces := traces + [Trace(i, nexts[i], bufs[i].rxSwIfIndex)];
      }
    }

    /** A prefetch is only issued for a buffer of the frame. */
    method Prefetch(i: nat, nVectors: nat)
      requires i < nVectors
      modifies this`prefetched
      ensures prefetched == old(prefetched) + [i]
    {
      prefetched := prefetched + [i];
    }

    /** While eight or more are left, the next four are prefetched. */
    method PrefetchNext(i: nat, nVectors: nat)
      requires i % 4 == 0 && i + 4 <= nVectors && prefetched == Range(4, Ahead(i, nVectors))
      modifies this`prefetched
      ensures prefetched == Range(4, Ahead(i + 4, nVectors))
    {
      if nVectors - i >= 8 {
        Prefetch(i + 4, nVectors);
        Prefetch(i + 5, nVectors);
        Prefetch(i + 6, nVectors);
        Prefetch(i + 7, nVectors);
      }
    }

    method QuadLoop(bufs: array<Buffer>, nexts: array<int>, nVectors: nat, isTrace: bool) returns (done: nat)
      requires nVectors <= bufs.Length && nVectors <= nexts.Length && traces == [] && prefetched == []
      modifies this, nexts
      ensures done == Whole(nVectors)
      ensures forall i :: 0 <= i < nexts.Length ==> nexts[i] == if i < done then 0 else old(nexts[i])
      ensures traces == if isTrace then TraceOf(bufs[..done]) else []
      ensures prefetched == Range(4, Ahead(done, nVectors))
    {
      done := 0;
      var nLeftFrom := nVectors;
      while nLeftFrom >= 4
        invariant done + nLeftFrom == nVectors && done % 4 == 0
        invariant forall i :: 0 <= i < nexts.Length ==> nexts[i] == if i < done then 0 else old(nexts[i])
        invariant traces == if isTrace then TraceOf(bufs[..done]) else []
        invariant prefetched == Range(4, Ahead(done, nVectors))
      {
        PrefetchNext(done, nVectors);
        FourPackets(bufs, nexts, done, isTrace);
        done, nLeftFrom := done + 4, nLeftFrom - 4;
      }
    }

    method SingleLoop(bufs: array<Buffer>, nexts: array<int>, start: nat, nVectors: nat, isTrace: bool)
      requires start <= nVectors <= bufs.Length && nVectors <= nexts.Length
      requires traces == if isTrace then TraceOf(bufs[..start]) else []
      modifies this`traces, nexts
      ensures forall i :: 0 <= i < nexts.Length ==> nexts[i] == if start <= i < nVectors then 0 else old(nexts[i])
      ensures traces == if isTrace then TraceOf(bufs[..nVectors]) else []
    {
      var done, nLeftFrom := start, nVectors - start;
      while nLeftFrom > 0
        invariant 0 <= nLeftFrom && done + nLeftFrom == nVectors
        invariant forall i :: 0 <= i < nexts.Length ==> nexts[i] == if start <= i < done then 0 else old(nexts[i])
        invariant traces == if isTrace then TraceOf(bufs[..done]) else []
      {
        assert bufs[..done + 1][..done] == bufs[..done];
        OnePacket(bufs, nexts, done, isTrace);
        done, nLeftFrom := done + 1, nLeftFrom - 1;
      }
    }

    /**
     * The unrolled loop does what the simple loop does: every packet of the frame goes to next
     * index 0, the traces are those of the simple loop, and nothing behind the frame is written.
     * Whole groups of four behind the first are prefetched, each buffer once and in order.
     */
    method AaaQsInline(bufs: array<Buffer>, nexts: array<int>, nVectors: nat, isTrace: bool)
      requires nVectors <= bufs.Length && nVectors <= nexts.Length && traces == [] && prefetched == []
      modifies this, nexts
      ensures forall i :: 0 <= i < nexts.Length ==> nexts[i] == if i < nVectors then 0 else old(nexts[i])
      ensures traces == if isTrace then TraceOf(bufs[..nVectors]) else []
      ensures prefetched == if nVectors < 8 then [] else Range(4, Whole(nVectors))
    {
      var done := QuadLoop(bufs, nexts, nVectors, isTrace);
      SingleLoop(bufs, nexts, done, nVectors, isTrace);
    }
  }

  /** The part of a frame that the quad loop covers. */
  function Whole(n: nat): nat {
    n - n % 4
  }

  /** How far prefetching has come when the quad loop stands at `done`. */
  function Ahead(done: nat, n: nat): nat {
    if done + 4 <= Whole(n) then done + 4 else if Whole(n) < 4 then 4 else Whole(n)
  }
}
