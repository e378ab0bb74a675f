/**
 * The test server's connection pool and the TCP part of its worker loop. A connection is a pool
 * slot; its index is what epoll hands back. What realloc, VCL and epoll answer is an argument of
 * the calls that ask them, and any answer is possible: any call may fail, any registered
 * connection may have any event. A ghost log says what was done for every event reported.
 */
module ConnPool {
  import opened Common

  datatype Conn = Conn(isAlloc: bool, fd: int)

  /** A slot after it was cleared. */
  const ZERO := Conn(false, 0)

  function CountAlloc(pool: seq<Conn>): nat {
    if pool == [] then 0 else CountAlloc(pool[..|pool| - 1]) + One(pool[|pool| - 1].isAlloc)
  }

  lemma {:induction false} CountUpdate(pool: seq<Conn>, i: nat, c: Conn)
    requires i < |pool|
    ensures CountAlloc(pool[i := c]) ==
            CountAlloc(pool) - One(pool[i].isAlloc) + One(c.isAlloc)
  {
    var n := |pool| - 1;
    if i < n {
      CountUpdate(pool[..n], i, c);
      assert pool[i := c][..n] == pool[..n][i := c];
    } else {
      assert pool[i := c][..n] == pool[..n];
    }
  }

  lemma {:induction false} CountZeros(pool: seq<Conn>, k: nat)
    ensures CountAlloc(pool + seq(k, i => ZERO)) == CountAlloc(pool)
  {
    var more := pool + seq(k, i => ZERO);
    if k == 0 {
      assert more == pool;
    } else {
      CountZeros(pool, k - 1);
      assert more[..|more| - 1] == pool + seq(k - 1, i => ZERO);
    }
  }

  /** Nothing below `i` is free. */
  predicate FullBelow(pool: seq<Conn>, i: int) {
    forall j :: 0 <= j < i && j < |pool| ==> pool[j].isAlloc
  }

  /**
   * `now` is `was` with slot `index` taken: the lowest free one, or the first behind a full pool,
   * which then has three times its size, if it can grow.
   */
  ghost predicate Allocated(was: seq<Conn>, now: seq<Conn>, grows: bool, index: Option<nat>) {
    var n := |was|;
    if !FullBelow(was, n) then
      && index.Some? && index.value < n && FullBelow(was, index.value) && !was[index.value].isAlloc
      && now == was[index.value := was[index.value].(isAlloc := true)]
    else if grows && n > 0 then index == Some(n) && now == (was + seq(2 * n, i => ZERO))[n := Conn(true, 0)]
    else index == None && now == was
  }

  /** One more slot is taken, and no other slot changes. */
  lemma OneMore(was: seq<Conn>, now: seq<Conn>, grows: bool, i: nat)
    requires Allocated(was, now, grows, Some(i))
    ensures i < |now| && |was| <= |now| && now[i].isAlloc && (i < |was| ==> !was[i].isAlloc)
    ensures forall j :: 0 <= j < |was| && j != i ==> now[j] == was[j]
    ensures CountAlloc(now) == CountAlloc(was) + 1
  {
    if i == |was| {
      CountZeros(was, 2 * i);
      CountUpdate(was + seq(2 * i, i => ZERO), i, Conn(true, 0));
    } else {
      CountUpdate(was, i, now[i]);
    }
  }

  /** What an event turns out to be once the connection was read. */
  datatype Event = Hangup | Reset | NothingRead | ExitConfig | OtherConfig | Data | Unhandled

  /** Stands for the listening session among the descriptors of a batch. */
  const LISTENER := -1

  datatype Admission = NoSlot | AcceptFailed | AddFailed | Registered

  datatype Control = Continue | Done | Fail

  // ----- What was done for the events -----

  datatype Outcome = Admitted(r: Admission) | Handled(fd: int, e: Event, c: Control)

  /** The descriptor that the event was reported for. */
  function Source(o: Outcome): int {
    match o
    case Admitted(_) => LISTENER
    case Handled(fd, _, _) => fd
  }

  function Sources(log: seq<Outcome>): seq<int> {
    seq(|log|, i requires 0 <= i < |log| => Source(log[i]))
  }

  function Verdict(o: Outcome): Control {
    match o
    case Admitted(_) => Continue
    case Handled(_, _, c) => c
  }

  /** The worker went on behind every event, except perhaps the last. */
  ghost predicate AllButLastContinue(log: seq<Outcome>) {
    forall k :: 0 <= k < |log| - 1 ==> Verdict(log[k]) == Continue
  }

  function Admissions(log: seq<Outcome>, r: Admission): nat {
    if log == [] then 0 else Admissions(log[..|log| - 1], r) + One(log[|log| - 1] == Admitted(r))
  }

  function Events(log: seq<Outcome>, e: Event): nat {
    if log == [] then 0
    else
      var o := log[|log| - 1];
      Events(log[..|log| - 1], e) + One(o.Handled? && o.e == e)
  }

  lemma LogSnoc(log: seq<Outcome>, o: Outcome)
    ensures forall r :: Admissions(log + [o], r) == Admissions(log, r) + One(o == Admitted(r))
    ensures forall e :: Events(log + [o], e) == Events(log, e) + One(o.Handled? && o.e == e)
    ensures Sources(log + [o]) == Sources(log) + [Source(o)]
  {
    assert (log + [o])[..|log|] == log;
  }

  /**
   * `done` are the outcomes of a batch: one for each event, in the order reported, up to the event
   * that stopped the worker, if one did.
   */
  ghost predicate Served(batch: seq<int>, done: seq<Outcome>, c: Control) {
    && Sources(done) <= batch && AllButLastContinue(done)
    && if c == Continue then Sources(done) == batch && (done != [] ==> Verdict(done[|done| - 1]) == Continue)
       else done != [] && Verdict(done[|done| - 1]) == c
  }

  class Worker {
    var connPoolSize: nat
    var connPool: array<Conn>
    /** The connections registered with epoll, each with the index it was registered under. */
    var epoll: map<int, int>
    var nfds: int
    /** Why slots stay allocated without being registered. */
    ghost var failedAccepts: nat
    ghost var failedAdds: nat
    ghost var hangups: nat
    /** Connections ever registered, and those closed by an exit message. */
    ghost var accepted: nat
    ghost var exits: nat
    /** Times epoll was waited for, every event it reported, and what was done for them. */
    ghost var waits: nat
    ghost var reported: seq<int>
    ghost var log: seq<Outcome>

    ghost predicate IndicesValid()
      reads this`connPool, this`epoll, connPool
    {
      forall fd :: fd in epoll ==> fd >= 0 && 0 <= epoll[fd] < connPool.Length && connPool[epoll[fd]] == Conn(true, fd)
    }

    /** The counters are those of the log. */
    ghost predicate Tallied()
      reads this`failedAccepts, this`failedAdds, this`hangups, this`accepted, this`exits, this`log
    {
      && accepted == Admissions(log, Registered)
      && failedAccepts == Admissions(log, AcceptFailed) && failedAdds == Admissions(log, AddFailed)
      && hangups == Events(log, Hangup) && exits == Events(log, ExitConfig)
    }

    /** The slots and counters fit together. */
    ghost predicate Accounted()
      reads this`connPool, this`connPoolSize, this`epoll, this`nfds, this`failedAccepts, this`failedAdds, this`hangups,
        this`accepted, this`exits, connPool
    {
      && connPool.Length == connPoolSize && IndicesValid() && nfds == |epoll|
      && CountAlloc(connPool[..]) == nfds + failedAccepts + failedAdds + hangups
      && accepted == nfds + hangups + exits
    }

    ghost predicate Valid()
      reads this`connPool, this`connPoolSize, this`epoll, this`nfds, this`failedAccepts, this`failedAdds, this`hangups,
        this`accepted, this`exits, this`log, connPool
    {
      Accounted() && Tallied()
    }

    /**
     * Taken slots are the registered connections and, by the log, those whose accept or registration
     * failed and those that hung up; every connection ever registered is still there, hung up or left.
     */
    lemma Conservation()
      requires Valid()
      ensures CountAlloc(connPool[..]) ==
              |epoll| + Admissions(log, AcceptFailed) + Admissions(log, AddFailed) + Events(log, Hangup)
      ensures Admissions(log, Registered) == |epoll| + Events(log, Hangup) + Events(log, ExitConfig)
      ensures nfds == |epoll|
    {
    }

    /** The pool as the worker starts: the first allocation may fail too. */
    constructor (initialSize: nat, grows: bool)
      ensures Valid() && epoll == map[] && log == [] && reported == []
      ensures connPool[..] == if grows then seq(initialSize, i => ZERO) else []
      ensures fresh(connPool)
    {
      connPoolSize, connPool, epoll, nfds := 0, new Conn[0], map[], 0;
      failedAccepts, failedAdds, hangups, exits, accepted, waits := 0, 0, 0, 0, 0, 0;
      reported, log := [], [];
      new;
      FirstPool(initialSize, grows);
    }

    method FirstPool(initialSize: nat, grows: bool)
      requires connPool.Length == connPoolSize == 0
      modifies this`connPool, this`connPoolSize
      ensures connPool.Length == connPoolSize && (connPool == old(connPool) || fresh(connPool))
      ensures connPool[..] == if grows then seq(initialSize, i => ZERO) else []
      ensures CountAlloc(connPool[..]) == 0
    {
      assert connPool[..] == [];
      ConnPoolExpand(initialSize, grows);
      CountZeros([], initialSize);
      assert [] + seq(initialSize, i => ZERO) == seq(initialSize, i => ZERO);
    }

    /** Reallocation may move the pool, and may fail; then nothing changes. */
    method ConnPoolExpand(expandSize: nat, grows: bool)
      requires connPool.Length == connPoolSize
      modifies this`connPool, this`connPoolSize
      ensures connPool.Length == connPoolSize
      ensures if grows then fresh(connPool) else connPool == old(connPool)
      ensures connPool[..] == old(connPool[..]) + if grows then seq(expandSize, i => ZERO) else []
    {
      if grows {
        var newSize := connPoolSize + expandSize;
        var moved := new Conn[newSize];
        for i := 0 to connPoolSize
          invariant connPool == old(connPool) && connPoolSize == old(connPoolSize)
          invariant moved[..i] == connPool[..i] && connPool[..] == old(connPool[..])
        {
          moved[i] := connPool[i];
        }
        for i := connPoolSize to newSize
          invariant connPool == old(connPool) && connPoolSize == old(connPoolSize)
          invariant moved[..connPoolSize] == connPool[..] && connPool[..] == old(connPool[..])
          invariant forall j :: connPoolSize <= j < i ==> moved[j] == ZERO
        {
          moved[i] := ZERO;
        }
        assert moved[..] == connPool[..] + seq(expandSize, i => ZERO);
        connPool, connPoolSize := moved, newSize;
      }
    }

    /** The lowest free slot, marked as taken. */
    method TakeFree() returns (index: Option<nat>)
      requires connPool.Length == connPoolSize
      modifies connPool
      ensures index.None? ==> FullBelow(old(connPool[..]), connPoolSize) && connPool[..] == old(connPool[..])
      ensures index.Some? ==>
                && index.value < connPoolSize && FullBelow(old(connPool[..]), index.value)
                && !old(connPool[..])[index.value].isAlloc
                && connPool[..] == old(connPool[..])[index.value := old(connPool[..])[index.value].(isAlloc := true)]
    {
      for i := 0 to connPoolSize
        invariant FullBelow(connPool[..], i) && connPool[..] == old(connPool[..])
      {
        if !connPool[i].isAlloc {
          connPool[i] := connPool[i].(isAlloc := true);
          return Some(i);
        }
      }
      index := None;
    }

    /**
     * The lowest free slot; with no free slot, the first slot behind the old end after the pool has
     * grown to three times its size. Nothing else changes, and the pool is scanned at most twice.
     */
    method ConnPoolAlloc(grows: bool) returns (index: Option<nat>, scans: nat)
      requires connPool.Length == connPoolSize
      modifies this`connPool, this`connPoolSize, connPool
      ensures connPool.Length == connPoolSize && 1 <= scans <= 2
      ensures connPool == old(connPool) || fresh(connPool)
      ensures Allocated(old(connPool[..]), connPool[..], grows, index)
      ensures scans == 2 <==> FullBelow(old(connPool[..]), old(connPoolSize))
      ensures scans == 1 ==> connPool == old(connPool)
    {
      ghost var was := connPool[..];
      var expand := false;
      scans := 0;
      while true
        invariant connPool.Length == connPoolSize && scans == if expand then 1 else 0
        invariant connPool == old(connPool) || fresh(connPool)
        invariant !expand ==> connPool == old(connPool) && connPool[..] == was
        invariant expand ==> FullBelow(was, |was|)
        invariant connPool[..] == was + if expand && grows then seq(2 * |was|, i => ZERO) else []
        decreases !expand
      {
        scans := scans + 1;
        ghost var before := connPool[..];
        assert expand && grows && was != [] ==> !before[|was|].isAlloc;
        index := TakeFree();
        if index.Some? {
          return;
        }
        if !expand {
          ConnPoolExpand(2 * connPoolSize, grows);
          expand := true;
        } else {
          return;
        }
      }
    }

    method ConnPoolFree(index: nat)
      requires index < connPool.Length
      modifies connPool
      ensures connPool[..] == old(connPool[..])[index := ZERO]
    {
      connPool[index] := Conn(false, 0);
    }

    /** Slot `conn` has just been taken and belongs to nobody yet. */
    ghost predicate Holding(conn: nat)
      reads this, connPool
    {
      && connPool.Length == connPoolSize && IndicesValid() && nfds == |epoll|
      && conn < connPool.Length && connPool[conn].isAlloc
      && (forall fd :: fd in epoll ==> epoll[fd] != conn)
      && CountAlloc(connPool[..]) == nfds + failedAccepts + failedAdds + hangups + 1
      && accepted == nfds + hangups + exits
    }

    /** Finds a slot for a new connection without disturbing the registered ones. */
    method HoldSlot(grows: bool) returns (index: Option<nat>)
      requires Valid()
      modifies this`connPool, this`connPoolSize, connPool
      ensures connPool == old(connPool) || fresh(connPool)
      ensures Allocated(old(connPool[..]), connPool[..], grows, index)
      ensures if index.Some? then Holding(index.value) else Valid()
    {
      var scans;
      index, scans := ConnPoolAlloc(grows);
      if index.Some? {
        OneMore(old(connPool[..]), connPool[..], grows, index.value);
        assert forall j :: 0 <= j < |old(connPool[..])| && j != index.value ==> connPool[j] == old(connPool[..])[j];
      }
    }

    /**
     * Allocate, accept and register. A failed accept or registration leaves one more slot that is
     * taken and that nothing will free; without a slot everything stays as it was. The pool may or
     * may not be able to grow, accept returns an error or a descriptor that no registered
     * connection has, and epoll accepts it or not.
     */
    method VtsNewClient(grows: bool, clientFd: int, adds: bool)
      returns (r: Admission, index: Option<nat>, ghost mid: seq<Conn>)
      requires Valid() && clientFd !in epoll
      modifies this`connPool, this`connPoolSize, this`epoll, this`nfds, this`failedAccepts, this`failedAdds,
        this`accepted, this`log, connPool
      ensures Valid() && (connPool == old(connPool) || fresh(connPool))
      ensures log == old(log) + [Admitted(r)]
      ensures r == if index == None then NoSlot else if clientFd < 0 then AcceptFailed
                   else if !adds then AddFailed else Registered
      ensures Allocated(old(connPool[..]), mid, grows, index)
      ensures index.Some? ==> index.value < |mid|
      ensures connPool[..] == if index.Some? && clientFd >= 0 then mid[index.value := Conn(true, clientFd)] else mid
      ensures epoll == if r == Registered then old(epoll)[clientFd := index.value] else old(epoll)
    {
      r, index, mid := Admit(grows, clientFd, adds);
      LogOutcome(Admitted(r));
    }

    method Admit(grows: bool, clientFd: int, adds: bool)
      returns (r: Admission, index: Option<nat>, ghost mid: seq<Conn>)
      requires Valid() && clientFd !in epoll
      modifies this`connPool, this`connPoolSize, this`epoll, this`nfds, this`failedAccepts, this`failedAdds,
        this`accepted, connPool
      ensures Accounted() && (connPool == old(connPool) || fresh(connPool))
      ensures accepted == old(accepted) + One(r == Registered)
      ensures failedAccepts == old(failedAccepts) + One(r == AcceptFailed)
      ensures failedAdds == old(failedAdds) + One(r == AddFailed)
      ensures r == if index == None then NoSlot else if clientFd < 0 then AcceptFailed
                   else if !adds then AddFailed else Registered
      ensures Allocated(old(connPool[..]), mid, grows, index)
      ensures index.Some? ==> index.value < |mid|
      ensures connPool[..] == if index.Some? && clientFd >= 0 then mid[index.value := Conn(true, clientFd)] else mid
      ensures epoll == if r == Registered then old(epoll)[clientFd := index.value] else old(epoll)
    {
      index := HoldSlot(grows);
      mid := connPool[..];
      if index.None? {
        r := NoSlot;
      } else {
        r := AcceptInto(index.value, clientFd, adds);
      }
    }

    /** The counters have been brought up to date for `o`. */
    ghost method LogOutcome(o: Outcome)
      requires accepted == Admissions(log, Registered) + One(o == Admitted(Registered))
      requires failedAccepts == Admissions(log, AcceptFailed) + One(o == Admitted(AcceptFailed))
      requires failedAdds == Admissions(log, AddFailed) + One(o == Admitted(AddFailed))
      requires hangups == Events(log, Hangup) + One(o.Handled? && o.e == Hangup)
      requires exits == Events(log, ExitConfig) + One(o.Handled? && o.e == ExitConfig)
      modifies this`log
      ensures Tallied() && log == old(log) + [o]
    {
      LogSnoc(log, o);
      log := log + [o];
    }

    method AcceptInto(conn: nat, clientFd: int, adds: bool) returns (r: Admission)
      requires Holding(conn) && clientFd !in epoll
      modifies this`epoll, this`nfds, this`failedAccepts, this`failedAdds, this`accepted, connPool
      ensures Accounted()
      ensures r == if clientFd < 0 then AcceptFailed else if !adds then AddFailed else Registered
      ensures epoll == if r == Registered then old(epoll)[clientFd := conn] else old(epoll)
      ensures connPool[..] == if clientFd < 0 then old(connPool[..])
                              else old(connPool[..])[conn := Conn(true, clientFd)]
      ensures nfds == old(nfds) + One(r == Registered) && accepted == old(accepted) + One(r == Registered)
      ensures failedAccepts == old(failedAccepts) + One(r == AcceptFailed)
      ensures failedAdds == old(failedAdds) + One(r == AddFailed)
    {
      if clientFd < 0 {
        failedAccepts := failedAccepts + 1;
        return AcceptFailed;
      }
      CountUpdate(connPool[..], conn, connPool[conn].(fd := clientFd));
      connPool[conn] := connPool[conn].(fd := clientFd);
      if !adds {
        failedAdds := failedAdds + 1;
        return AddFailed;
      }
      epoll := epoll[clientFd := conn];
      nfds := nfds + 1;
      accepted := accepted + 1;
      r := Registered;
    }

    /**
     * An event on a registered connection. A hangup closes it but keeps its slot; an exit message
     * closes it and frees the slot. The worker is done exactly when that was the last connection.
     */
    method HandleEvent(fd: int, e: Event) returns (c: Control)
      requires Valid() && fd in epoll
      modifies this`epoll, this`nfds, this`hangups, this`exits, this`log, connPool
      ensures Valid() && log == old(log) + [Handled(fd, e, c)]
      ensures epoll == if e == Hangup || e == ExitConfig then old(epoll) - {fd} else old(epoll)
      ensures connPool[..] == if e == ExitConfig then old(connPool[..])[old(epoll)[fd] := ZERO] else old(connPool[..])
      ensures c == Done <==> (e == Hangup || e == ExitConfig) && nfds == 0
      ensures c == Fail <==> e == Reset || e == Unhandled
    {
      c := React(fd, e);
      LogOutcome(Handled(fd, e, c));
    }

    method React(fd: int, e: Event) returns (c: Control)
      requires Valid() && fd in epoll
      modifies this`epoll, this`nfds, this`hangups, this`exits, connPool
      ensures Accounted()
      ensures epoll == if e == Hangup || e == ExitConfig then old(epoll) - {fd} else old(epoll)
      ensures connPool[..] == if e == ExitConfig then old(connPool[..])[old(epoll)[fd] := ZERO] else old(connPool[..])
      ensures hangups == old(hangups) + One(e == Hangup) && exits == old(exits) + One(e == ExitConfig)
      ensures c == Done <==> (e == Hangup || e == ExitConfig) && nfds == 0
      ensures c == Fail <==> e == Reset || e == Unhandled
    {
      match e
      case Hangup =>
        Unregister(fd);
        hangups := hangups + 1;
        c := if nfds == 0 then Done else Continue;
      case ExitConfig =>
        CloseAndFree(fd);
        c := if nfds == 0 then Done else Continue;
      case OtherConfig =>
        c := if nfds == 0 then Done else Continue;
      case NothingRead => c := Continue;
      case Data => c := Continue;
      case Reset => c := Fail;
      case Unhandled => c := Fail;
    }

    method CloseAndFree(fd: int)
      requires Accounted() && fd in epoll
      modifies this`epoll, this`nfds, this`exits, connPool
      ensures Accounted() && exits == old(exits) + 1
      ensures epoll == old(epoll) - {fd} && connPool[..] == old(connPool[..])[old(epoll)[fd] := ZERO]
    {
      var conn := epoll[fd];
      CountUpdate(connPool[..], conn, ZERO);
      ConnPoolFree(conn);
      Unregister(fd);
      exits := exits + 1;
    }

    method Unregister(fd: int)
      requires fd in epoll && nfds == |epoll|
      modifies this`epoll, this`nfds
      ensures epoll == old(epoll) - {fd} && nfds == |epoll| == old(nfds) - 1
    {
      epoll := epoll - {fd};
      nfds := nfds - 1;
    }

    /** What one wait may report: at most one event for the listener and for each registered connection. */
    predicate Batch(batch: seq<int>)
      reads this`epoll
    {
      && (forall k :: 0 <= k < |batch| ==> batch[k] == LISTENER || batch[k] in epoll)
      && AllDistinct(batch)
    }

    static predicate AllDistinct(batch: seq<int>) {
      forall k, m :: 0 <= k < m < |batch| ==> batch[k] != batch[m]
    }

    /** One event: a new client for the listener, or whatever the connection has. */
    method ServeOne(fd: int) returns (c: Control, ghost o: Outcome)
      requires Valid() && (fd == LISTENER || fd in epoll)
      modifies this`connPool, this`connPoolSize, this`epoll, this`nfds, this`failedAccepts, this`failedAdds,
        this`accepted, this`hangups, this`exits, this`log, connPool
      ensures Valid() && (connPool == old(connPool) || fresh(connPool))
      ensures log == old(log) + [o] && Source(o) == fd && Verdict(o) == c
      ensures forall other :: other in old(epoll) && other != fd ==> other in epoll
      ensures c == Done ==> nfds == 0
    {
      c := Continue;
      if fd == LISTENER {
        assert LISTENER !in epoll;
        var grows: bool, adds: bool := *, *;
        var clientFd: int :| clientFd !in epoll;
        var r, index, mid := VtsNewClient(grows, clientFd, adds);
        o := Admitted(r);
      } else {
        var e: Event := *;
        c := HandleEvent(fd, e);
        o := Handled(fd, e, c);
      }
    }

    /** The events of one batch, in order, until one of them stops the worker. */
    method ServeBatch(batch: seq<int>) returns (c: Control, ghost done: seq<Outcome>)
      requires Valid() && Batch(batch)
      modifies this`connPool, this`connPoolSize, this`epoll, this`nfds, this`failedAccepts, this`failedAdds,
        this`accepted, this`hangups, this`exits, this`log, connPool
      ensures Valid() && (connPool == old(connPool) || fresh(connPool))
      ensures log == old(log) + done && Served(batch, done, c)
      ensures c == Done ==> nfds == 0 && epoll == map[]
    {
      done := [];
      for k := 0 to |batch|
        invariant Valid() && (connPool == old(connPool) || fresh(connPool))
        invariant StillThere(batch, k)
        invariant log == old(log) + done && Served(batch[..k], done, Continue)
      {
        ghost var o;
        c, o := ServeNext(batch, k);
        ServedSnoc(batch, k, done, o, c);
        assert log == old(log) + (done + [o]);
        done := done + [o];
        if c != Continue {
          return;
        }
      }
      c := Continue;
      assert batch[..|batch|] == batch;
    }

    method ServeNext(batch: seq<int>, k: nat) returns (c: Control, ghost o: Outcome)
      requires Valid() && k < |batch| && StillThere(batch, k) && AllDistinct(batch)
      modifies this`connPool, this`connPoolSize, this`epoll, this`nfds, this`failedAccepts, this`failedAdds,
        this`accepted, this`hangups, this`exits, this`log, connPool
      ensures Valid() && (connPool == old(connPool) || fresh(connPool))
      ensures log == old(log) + [o] && Source(o) == batch[k] && Verdict(o) == c
      ensures StillThere(batch, k + 1) && (c == Done ==> nfds == 0)
    {
      c, o := ServeOne(batch[k]);
    }

    /** The events still to be handled are for the listener or for registered connections. */
    predicate StillThere(batch: seq<int>, k: nat)
      reads this`epoll
    {
      forall m :: k <= m < |batch| ==> batch[m] == LISTENER || batch[m] in epoll
    }

    static lemma ServedSnoc(batch: seq<int>, k: nat, done: seq<Outcome>, o: Outcome, c: Control)
      requires k < |batch| && Served(batch[..k], done, Continue) && Source(o) == batch[k] && Verdict(o) == c
      ensures Served(if c == Continue then batch[..k + 1] else batch, done + [o], c)
    {
      assert Sources(done + [o]) == Sources(done) + [Source(o)];
    }

    /**
     * The event loop; `fuel` only cuts an execution short. Every event that a wait reported has been
     * handled, in order, unless an earlier one of the last batch stopped the worker. The loop ends
     * normally only when a close has emptied the set of registered connections.
     */
    method VtsWorkerLoop(fuel: nat) returns (c: Control, waitFailed: bool)
      requires Valid() && Served(reported, log, Continue)
      modifies this, connPool
      ensures Valid() && Served(reported, log, if waitFailed then Continue else c)
      ensures old(log) <= log && old(reported) <= reported
      ensures waitFailed ==> c == Fail
      ensures c == Done ==> nfds == 0 && epoll == map[]
      ensures c == Continue ==> waits == old(waits) + fuel
    {
      for turn := 0 to fuel
        invariant waits == old(waits) + turn
        invariant Valid() && (connPool == old(connPool) || fresh(connPool))
        invariant Served(reported, log, Continue) && old(log) <= log && old(reported) <= reported
      {
        ghost var before, was, done := reported, log, [];
        var numEv, batch := EpollWait();
        if numEv < 0 {
          return Fail, true;
        }
        c, done := ServeBatch(batch);
        ServedConcat(before, was, batch, done, c);
        if c != Continue {
          return c, false;
        }
      }
      c, waitFailed := Continue, false;
    }

    /** A failure, or any batch of events, possibly none. */
    method EpollWait() returns (numEv: int, batch: seq<int>)
      modifies this`waits, this`reported
      ensures waits == old(waits) + 1 && Batch(batch)
      ensures reported == old(reported) + batch && (numEv < 0 || numEv == |batch|)
      ensures numEv < 0 ==> batch == []
    {
      waits := waits + 1;
      var fails: bool := *;
      if fails {
        return -1, [];
      }
      batch :| Batch(batch);
      numEv := |batch|;
      reported := reported + batch;
    }

    static lemma ServedConcat(a: seq<int>, d: seq<Outcome>, b: seq<int>, e: seq<Outcome>, c: Control)
      requires Served(a, d, Continue) && Served(b, e, c)
      ensures Served(a + b, d + e, c)
    {
    }
  }
}
