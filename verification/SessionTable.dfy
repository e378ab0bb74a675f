/**
 * The echo server's session pool, its handle hash and the session index kept in each fifo.
 * Handles, fifos and event queues are the addresses and numbers that arrive in messages.
 */
module SessionTable {
  import opened Common

  const PREALLOCATED: nat := 200000

  /** A session knows for the proof which handle it was accepted under. */
  datatype Kind = Blank | Listener | Accepted(handle: int)

  datatype Session = Session(kind: Kind, sessionIndex: nat, rxFifo: int, txFifo: int, vppEvtQ: Option<nat>)

  /** How far the program has come; the accept and bind handlers move it on. */
  datatype AppState = Start | Bound | Ready | Failed

  /** What clearing a session leaves. */
  const ZERO := Session(Blank, 0, 0, 0, None)

  /** Only an accepted session records its own index. */
  function NewSession(kind: Kind, index: nat, rxFifo: int, txFifo: int, vppEvtQ: Option<nat>): Session {
    Session(kind, if kind.Accepted? then index else 0, rxFifo, txFifo, vppEvtQ)
  }

  /** The occupied indices of a pool. */
  function Live(slots: seq<Option<Session>>): (s: set<int>)
    ensures forall i :: i in s <==> 0 <= i < |slots| && slots[i].Some?
  {
    set i | 0 <= i < |slots| && slots[i].Some?
  }

  lemma {:induction false} LiveBound(slots: seq<Option<Session>>)
    ensures |Live(slots)| <= |slots|
    ensures |Live(slots)| == |slots| <==> forall i :: 0 <= i < |slots| ==> slots[i].Some?
  {
    var n := |slots|;
    if n > 0 {
      var front := slots[..n - 1];
      LiveBound(front);
      if slots[n - 1].Some? {
        assert Live(slots) == Live(front) + {n - 1};
      } else {
        assert Live(slots) == Live(front);
      }
    } else {
      assert Live(slots) == {};
    }
  }

  function Listening(slots: seq<Option<Session>>): (s: set<int>)
    ensures forall i :: i in s <==> i in Live(slots) && slots[i].value.kind == Listener
  {
    set i | i in Live(slots) && slots[i].value.kind == Listener
  }

  /** The live sessions that use one of these fifos. */
  function Users(slots: seq<Option<Session>>, rxFifo: int, txFifo: int): (s: set<int>)
    ensures forall i :: i in s <==> i in Live(slots) && Uses(slots[i].value, rxFifo, txFifo)
  {
    set i | i in Live(slots) && Uses(slots[i].value, rxFifo, txFifo)
  }

  predicate Uses(s: Session, rxFifo: int, txFifo: int) {
    s.rxFifo == rxFifo || s.rxFifo == txFifo || s.txFifo == rxFifo || s.txFifo == txFifo
  }

  /** Both fifos of the session carry its index. */
  predicate PointsBack(s: Session, i: int, owner: map<int, int>) {
    s.rxFifo in owner && owner[s.rxFifo] == i && s.txFifo in owner && owner[s.txFifo] == i
  }

  /** Live sessions that have lost a fifo: it was handed over again for another session. */
  function Displaced(slots: seq<Option<Session>>, owner: map<int, int>): (s: set<int>)
    ensures forall i :: i in s <==> i in Live(slots) && !PointsBack(slots[i].value, i, owner)
  {
    set i | i in Live(slots) && !PointsBack(slots[i].value, i, owner)
  }

  /** Every entry of the hash names a live session that was accepted under that handle. */
  ghost predicate HashValid(slots: seq<Option<Session>>, hash: map<int, int>) {
    forall h :: h in hash ==> hash[h] in Live(slots) && slots[hash[h]].value.kind == Accepted(h)
  }

  /** Accepted sessions that the hash no longer names: their handle was handed out again. */
  ghost function Shadowed(slots: seq<Option<Session>>, hash: map<int, int>): (s: set<int>)
    ensures forall i :: i in s <==> i in Live(slots) && slots[i].value.kind.Accepted? &&
                                    !(slots[i].value.kind.handle in hash && hash[slots[i].value.kind.handle] == i)
  {
    set i | i in Live(slots) && slots[i].value.kind.Accepted? &&
            !(slots[i].value.kind.handle in hash && hash[slots[i].value.kind.handle] == i)
  }

  /** A listener has an event queue and does not know its index; an accepted session the other way round. */
  ghost predicate SessionValid(s: Session, i: nat) {
    && (s.kind == Listener ==> s.vppEvtQ.Some? && s.sessionIndex == 0)
    && (s.kind.Accepted? ==> s.vppEvtQ.None? && s.sessionIndex == i)
    && s.kind != Blank
  }

  ghost predicate SessionsValid(slots: seq<Option<Session>>) {
    forall i :: i in Live(slots) ==> SessionValid(slots[i].value, i)
  }

  /** `after` is `before` with one more session. */
  ghost predicate Added(before: seq<Option<Session>>, after: seq<Option<Session>>, index: nat, s: Session) {
    && index !in Live(before) && Live(after) == Live(before) + {index}
    && after[index] == Some(s)
    && forall i :: i in Live(before) ==> after[i] == before[i]
  }

  lemma Rewritten(before: seq<Option<Session>>, after: seq<Option<Session>>, index: nat, s: Session, t: Session)
    requires Added(before, after, index, s)
    ensures index < |after| && Added(before, after[index := Some(t)], index, t)
    ensures Live(after[index := Some(t)]) == Live(after)
  {
    assert Live(after[index := Some(t)]) == Live(after);
  }

  /** A new session takes its fifos over from the sessions that use them; the others keep theirs. */
  lemma AddDisplaces(before: seq<Option<Session>>, after: seq<Option<Session>>, index: nat, s: Session,
                     owner: map<int, int>)
    requires Added(before, after, index, s)
    ensures Displaced(after, owner[s.rxFifo := index][s.txFifo := index]) ==
            Displaced(before, owner) + Users(before, s.rxFifo, s.txFifo)
  {
    var taken := owner[s.rxFifo := index][s.txFifo := index];
    assert PointsBack(s, index, taken);
    forall i | i in Live(before)
      ensures PointsBack(after[i].value, i, taken) <==>
              PointsBack(before[i].value, i, owner) && !Uses(before[i].value, s.rxFifo, s.txFifo)
    {
    }
  }

  lemma AddListener(before: seq<Option<Session>>, after: seq<Option<Session>>, index: nat, s: Session,
                    hash: map<int, int>)
    requires HashValid(before, hash) && Added(before, after, index, s) && s.kind == Listener
    ensures HashValid(after, hash) && Shadowed(after, hash) == Shadowed(before, hash)
    ensures Listening(after) == Listening(before) + {index}
  {
    assert Listening(after) == Listening(before) + {index};
    assert Shadowed(after, hash) == Shadowed(before, hash);
  }

  function Shadow(hash: map<int, int>, handle: int): set<int> {
    if handle in hash then {hash[handle]} else {}
  }

  lemma AddAccepted(before: seq<Option<Session>>, after: seq<Option<Session>>, index: nat, s: Session,
                    hash: map<int, int>, handle: int)
    requires HashValid(before, hash) && Added(before, after, index, s) && s.kind == Accepted(handle)
    ensures HashValid(after, hash[handle := index]) && Listening(after) == Listening(before)
    ensures Shadowed(after, hash[handle := index]) == Shadowed(before, hash) + Shadow(hash, handle)
  {
    assert Listening(after) == Listening(before);
    assert Shadowed(after, hash[handle := index]) == Shadowed(before, hash) + Shadow(hash, handle);
  }

  lemma RemoveAccepted(slots: seq<Option<Session>>, hash: map<int, int>, handle: int)
    requires HashValid(slots, hash) && handle in hash
    ensures var after, rest := slots[hash[handle] := None], hash - {handle};
            && HashValid(after, rest) && Listening(after) == Listening(slots)
            && Shadowed(after, rest) == Shadowed(slots, hash)
  {
    var after, rest := slots[hash[handle] := None], hash - {handle};
    assert Live(after) == Live(slots) - {hash[handle]};
    assert Listening(after) == Listening(slots);
    assert Shadowed(after, rest) == Shadowed(slots, hash);
  }

  lemma LivePartition(slots: seq<Option<Session>>, hash: map<int, int>)
    requires HashValid(slots, hash) && forall i :: i in Live(slots) ==> slots[i].value.kind != Blank
    ensures Live(slots) == hash.Values + Listening(slots) + Shadowed(slots, hash)
    ensures hash.Values !! Listening(slots) !! Shadowed(slots, hash)
  {
    forall i | i in hash.Values
      ensures i in Live(slots) && slots[i].value.kind.Accepted? && i !in Shadowed(slots, hash)
    {
      var h := KeyOf(hash, i);
    }
    forall i | i in Live(slots)
      ensures i in hash.Values || i in Listening(slots) || i in Shadowed(slots, hash)
    {
      if slots[i].value.kind.Accepted? && i !in Shadowed(slots, hash) {
        assert hash[slots[i].value.kind.handle] in hash.Values;
      }
    }
  }

  lemma ThreeParts(a: set<int>, b: set<int>, c: set<int>)
    requires a !! b !! c
    ensures |a + b + c| == |a| + |b| + |c|
  {
    assert |a + b| == |a| + |b| by { assert a !! b; }
    assert (a + b) !! c;
  }

  /** Live sessions are the named ones, the listeners and the shadowed ones. */
  lemma LiveCount(slots: seq<Option<Session>>, hash: map<int, int>)
    requires HashValid(slots, hash) && forall i :: i in Live(slots) ==> slots[i].value.kind != Blank
    ensures Injective(hash) && hash.Values <= Live(slots)
    ensures |Live(slots)| == |hash| + |Listening(slots)| + |Shadowed(slots, hash)|
  {
    assert Injective(hash) by {
      forall h, k | h in hash && k in hash && hash[h] == hash[k]
        ensures h == k
      {
        assert slots[hash[h]].value.kind == Accepted(h) && slots[hash[k]].value.kind == Accepted(k);
      }
    }
    InjectiveSize(hash);
    LivePartition(slots, hash);
    ThreeParts(hash.Values, Listening(slots), Shadowed(slots, hash));
  }

  class Table {
    /** The session pool; `None` is a free slot. */
    var slots: seq<Option<Session>>
    var sessionIndexByVppHandles: map<int, int>
    /** `client_session_index` of each fifo that was ever handed over. */
    var clientSessionIndex: map<int, int>
    var vppEventQueue: nat
    const isConnected: bool
    var state: AppState
    /** The largest number of live sessions so far. */
    ghost var peak: nat

    ghost predicate Valid()
      reads this`slots, this`sessionIndexByVppHandles, this`peak
    {
      && HashValid(slots, sessionIndexByVppHandles) && SessionsValid(slots)
      && |Live(slots)| <= peak && |slots| == Max(PREALLOCATED, peak)
    }

    ghost function Shadows(): set<int>
      reads this`slots, this`sessionIndexByVppHandles
    {
      Shadowed(slots, sessionIndexByVppHandles)
    }

    ghost function Lost(): set<int>
      reads this`slots, this`clientSessionIndex
    {
      Displaced(slots, clientSessionIndex)
    }

    /** Nothing is live but what the hash names, the listeners, and sessions whose handle was reused. */
    lemma Counts()
      requires Valid()
      ensures Injective(sessionIndexByVppHandles) && sessionIndexByVppHandles.Values <= Live(slots)
      ensures |Live(slots)| == |sessionIndexByVppHandles| + |Listening(slots)|
                               + |Shadows()|
    {
      LiveCount(slots, sessionIndexByVppHandles);
    }

    /** A live session has an event queue exactly if it is a listener; no session that a handle names has one. */
    lemma QueueIsListeners(i: int)
      requires Valid() && i in Live(slots)
      ensures slots[i].value.vppEvtQ.Some? <==> slots[i].value.kind == Listener
      ensures i in sessionIndexByVppHandles.Values ==> slots[i].value.vppEvtQ.None?
    {
      assert SessionValid(slots[i].value, i);
      if i in sessionIndexByVppHandles.Values {
        var h := KeyOf(sessionIndexByVppHandles, i);
      }
    }

    /** Some free slot, or a new one at the end when there is no free slot. */
    method PoolGet(s: Session) returns (index: nat)
      modifies this`slots
      ensures Added(old(slots), slots, index, s)
      ensures |Live(slots)| == old(|Live(slots)|) + 1
      ensures |slots| == Max(old(|slots|), old(|Live(slots)|) + 1)
      ensures old(|Live(slots)|) == old(|slots|) ==> slots == old(slots) + [Some(s)]
    {
      LiveBound(slots);
      ghost var before := slots;
      if exists i :: 0 <= i < |slots| && slots[i].None? {
        index :| 0 <= index < |slots| && slots[index].None?;
        slots := slots[index := Some(s)];
      } else {
        index := |slots|;
        slots := slots + [Some(s)];
      }
      assert Live(slots) == Live(before) + {index};
    }

    method PoolPut(index: nat)
      requires index in Live(slots)
      modifies this`slots
      ensures slots == old(slots)[index := None]
      ensures Live(slots) == old(Live(slots)) - {index} && |Live(slots)| == old(|Live(slots)|) - 1
    {
      ghost var before := slots;
      slots := slots[index := None];
      assert Live(slots) == Live(before) - {index};
    }

    /** Take 200000 slots, then give them all back. */
    constructor (isConnected: bool)
      ensures Valid() && Live(slots) == {} && |slots| == 200000
      ensures sessionIndexByVppHandles == map[] && Shadows() == Lost() == {}
      ensures state == Start && this.isConnected == isConnected
    {
      slots, sessionIndexByVppHandles, clientSessionIndex := [], map[], map[];
      vppEventQueue, state, peak := 0, Start, 0;
      this.isConnected := isConnected;
      new;
      Preallocate();
    }

    method Preallocate()
      requires slots == []
      modifies this`slots
      ensures |slots| == PREALLOCATED == 200000 && Live(slots) == {}
    {
      for i := 0 to PREALLOCATED
        invariant |slots| == i && forall j :: 0 <= j < i ==> slots[j].Some?
      {
        LiveBound(slots);
        var index := PoolGet(ZERO);
      }
      for i := 0 to PREALLOCATED
        invariant |slots| == PREALLOCATED
        invariant forall j :: 0 <= j < |slots| ==> (slots[j].None? <==> j < i)
      {
        PoolPut(i);
      }
    }

    /** Slot `i` holds a session with exactly these fields. */
    ghost predicate Holds(i: nat, kind: Kind, sessionIndex: nat, rxFifo: int, txFifo: int, vppEvtQ: Option<nat>)
      reads this`slots
    {
      && i < |slots| && slots[i].Some?
      && slots[i].value.kind == kind && slots[i].value.sessionIndex == sessionIndex
      && slots[i].value.rxFifo == rxFifo && slots[i].value.txFifo == txFifo
      && slots[i].value.vppEvtQ == vppEvtQ
    }

    /** A new session in a cleared slot, both of its fifos pointing back to it and to no other session. */
    method OpenSession(kind: Kind, rxFifo: int, txFifo: int, vppEvtQ: Option<nat>) returns (index: nat)
      requires SessionsValid(slots)
      requires (kind == Listener && vppEvtQ.Some?) || (kind.Accepted? && vppEvtQ.None?)
      modifies this`slots, this`clientSessionIndex
      ensures SessionsValid(slots) && Lost() == old(Lost()) + old(Users(slots, rxFifo, txFifo))
      ensures index < |slots| && slots[index].Some? && Added(old(slots), slots, index, slots[index].value)
      ensures Holds(index, kind, if kind.Accepted? then index else 0, rxFifo, txFifo, vppEvtQ)
      ensures clientSessionIndex == old(clientSessionIndex)[rxFifo := index][txFifo := index]
      ensures |Live(slots)| == old(|Live(slots)|) + 1 && |slots| == Max(old(|slots|), old(|Live(slots)|) + 1)
    {
      index := PoolGet(ZERO);
      var session := NewSession(kind, index, rxFifo, txFifo, vppEvtQ);
      ghost var blank := slots;
      slots := slots[index := Some(session)];
      Rewritten(old(slots), blank, index, ZERO, session);
      clientSessionIndex := clientSessionIndex[rxFifo := index][txFifo := index];
      AddDisplaces(old(slots), slots, index, session, old(clientSessionIndex));
    }

    /** The bind reply: the listening session keeps VPP's event queue, and its own index stays zero. */
    method SessionBoundHandler(retval: int, rxFifo: int, txFifo: int, vppEvtQ: nat) returns (index: nat)
      requires Valid()
      modifies this`slots, this`clientSessionIndex, this`state, this`peak
      ensures Valid() && Shadows() == old(Shadows())
      ensures retval != 0 ==>
                state == Failed && slots == old(slots) && clientSessionIndex == old(clientSessionIndex)
      ensures retval == 0 ==>
                && Holds(index, Listener, 0, rxFifo, txFifo, Some(vppEvtQ))
                && Added(old(slots), slots, index, slots[index].value)
                && clientSessionIndex == old(clientSessionIndex)[rxFifo := index][txFifo := index]
                && state == (if isConnected then Bound else Ready)
                && Listening(slots) == old(Listening(slots)) + {index}
                && Lost() == old(Lost()) + old(Users(slots, rxFifo, txFifo))
                && |slots| == Max(old(|slots|), old(|Live(slots)|) + 1)
    {
      if retval != 0 {
        state := Failed;
        return 0;
      }
      index := OpenSession(Listener, rxFifo, txFifo, Some(vppEvtQ));
      peak := Max(peak, |Live(slots)|);
      AddListener(old(slots), slots, index, slots[index].value, sessionIndexByVppHandles);
      state := if isConnected then Bound else Ready;
    }

    /** An accepted session: entered in the hash, but without an event queue of its own. */
    method SessionAcceptedHandler(handle: int, rxFifo: int, txFifo: int, vppQueue: nat) returns (index: nat)
      requires Valid()
      modifies this`slots, this`clientSessionIndex, this`sessionIndexByVppHandles, this`vppEventQueue, this`state,
        this`peak
      ensures Valid() && Holds(index, Accepted(handle), index, rxFifo, txFifo, None)
      ensures Added(old(slots), slots, index, slots[index].value)
      ensures clientSessionIndex == old(clientSessionIndex)[rxFifo := index][txFifo := index]
      ensures sessionIndexByVppHandles == old(sessionIndexByVppHandles)[handle := index]
      ensures Shadows() == old(Shadows()) + Shadow(old(sessionIndexByVppHandles), handle)
      ensures Lost() == old(Lost()) + old(Users(slots, rxFifo, txFifo))
      ensures Listening(slots) == old(Listening(slots)) && vppEventQueue == vppQueue && state == Ready
      ensures |slots| == Max(old(|slots|), old(|Live(slots)|) + 1)
    {
      vppEventQueue := vppQueue;
      index := EnterSession(handle, rxFifo, txFifo);
      state := Ready;
    }

    method EnterSession(handle: int, rxFifo: int, txFifo: int) returns (index: nat)
      requires Valid()
      modifies this`slots, this`clientSessionIndex, this`sessionIndexByVppHandles, this`peak
      ensures Valid() && Holds(index, Accepted(handle), index, rxFifo, txFifo, None)
      ensures Added(old(slots), slots, index, slots[index].value)
      ensures clientSessionIndex == old(clientSessionIndex)[rxFifo := index][txFifo := index]
      ensures sessionIndexByVppHandles == old(sessionIndexByVppHandles)[handle := index]
      ensures Shadows() == old(Shadows()) + Shadow(old(sessionIndexByVppHandles), handle)
      ensures Lost() == old(Lost()) + old(Users(slots, rxFifo, txFifo))
      ensures Listening(slots) == old(Listening(slots))
      ensures |slots| == Max(old(|slots|), old(|Live(slots)|) + 1)
    {
      index := OpenSession(Accepted(handle), rxFifo, txFifo, None);
      peak := Max(peak, |Live(slots)|);
      EnterHandle(old(slots), handle, index);
    }

    /** The handle now names the session just added to what was there before. */
    method EnterHandle(ghost before: seq<Option<Session>>, handle: int, index: nat)
      requires HashValid(before, sessionIndexByVppHandles) && index < |slots| && slots[index].Some?
      requires slots[index].value.kind == Accepted(handle) && Added(before, slots, index, slots[index].value)
      modifies this`sessionIndexByVppHandles
      ensures sessionIndexByVppHandles == old(sessionIndexByVppHandles)[handle := index]
      ensures HashValid(slots, sessionIndexByVppHandles) && Listening(slots) == Listening(before)
      ensures Shadows() == Shadowed(before, old(sessionIndexByVppHandles))
                           + Shadow(old(sessionIndexByVppHandles), handle)
    {
      AddAccepted(before, slots, index, slots[index].value, sessionIndexByVppHandles, handle);
      sessionIndexByVppHandles := sessionIndexByVppHandles[handle := index];
    }

    /**
     * An unknown handle changes nothing; a known one frees its slot and forgets the handle. The
     * reply then goes to the session's own event queue, which nothing has ever set.
     */
    method SessionDisconnectedHandler(handle: int) returns (found: bool, replyQueue: Option<nat>)
      requires Valid()
      modifies this`slots, this`sessionIndexByVppHandles
      ensures Valid() && Shadows() == old(Shadows()) && Listening(slots) == old(Listening(slots))
      ensures clientSessionIndex == old(clientSessionIndex) && |slots| == old(|slots|)
      ensures found <==> handle in old(sessionIndexByVppHandles)
      ensures !found ==> slots == old(slots) && sessionIndexByVppHandles == old(sessionIndexByVppHandles)
      ensures found ==>
                && sessionIndexByVppHandles == old(sessionIndexByVppHandles) - {handle}
                && slots == old(slots)[old(sessionIndexByVppHandles)[handle] := None]
                && Lost() == old(Lost()) - {old(sessionIndexByVppHandles)[handle]}
                && replyQueue == None
    {
      if handle !in sessionIndexByVppHandles {
        return false, None;
      }
      var index := sessionIndexByVppHandles[handle];
      RemoveAccepted(slots, sessionIndexByVppHandles, handle);
      assert SessionValid(slots[index].value, index);
      replyQueue := slots[index].value.vppEvtQ;
      sessionIndexByVppHandles := sessionIndexByVppHandles - {handle};
      PoolPut(index);
      found := true;
    }
  }
}
