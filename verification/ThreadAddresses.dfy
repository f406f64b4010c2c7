/** Addresses under any number of workers: the room in the pool is checked without
    a lock and the new binding is entered without one, yet no address is handed
    to two clients, because the cursor moves while the pool is locked. */
module ThreadAddresses {
  import opened Words
  import opened Leases
  import opened LeaseInvariant
  import opened Threads
  import opened ThreadOrder

  /** When the loop variable of the scan cannot wrap around: a second worker may
      reach the scan only on a pool that ends below 2^32 - 1. */
  predicate NoWrap(workers: nat, pool: Pool) {
    workers <= 1 || pool.last < MAX_U32 || pool.first >= pool.last
  }

  /** What a worker in the middle of a DISCOVER relies on. */
  ghost predicate PlaceOk(server: Server, workers: nat, at: Worker) {
    var pool := server.pool;
    match at
    case Checked(_) => pool.first < pool.last && (workers == 1 ==> pool.current < pool.last)
    case Scanning(_, ip) =>
      pool.first < pool.last && (workers == 1 ==> pool.current < pool.last) && ip == pool.current + 1
    case Offering(_, ip) => pool.first < ip <= pool.current && !Bound(server.bindings, ip)
    case _ => true
  }

  predicate SameAddress(a: Worker, b: Worker) {
    a.Offering? && b.Offering? && a.ip == b.ip
  }

  ghost predicate ServerOk(server: Server) {
    var pool, bs := server.pool, server.bindings;
    && pool.first <= pool.current
    && (pool.current == pool.first || pool.current <= pool.last)
    && (forall i :: 0 <= i < |bs| ==> HandedOut(bs[i], pool))
    && Distinct(bs)
  }

  /** All addresses in the list and all addresses on their way into it are
      different, above the first one and not beyond the cursor. */
  ghost predicate AddressesDistinct(s: System) {
    && ServerOk(s.server)
    && (forall w :: 0 <= w < |s.workers| ==> PlaceOk(s.server, |s.workers|, s.workers[w]))
    && (forall v, w :: 0 <= v < w < |s.workers| ==> !SameAddress(s.workers[v], s.workers[w]))
  }

  /** Only the worker that moves needs a look, when the server stays as it is. */
  lemma MoveKeepsAddresses(s: System, w: nat, at: Worker)
    requires AddressesDistinct(s) && w < |s.workers|
    requires PlaceOk(s.server, |s.workers|, at) && !at.Offering?
    ensures AddressesDistinct(Move(s, w, at))
  {
  }

  /** Going on with a binding binds no address anew and leaves the cursor. */
  lemma GoingOnBindsNothing(server: Server, t: Task, k: nat)
    requires k < |server.bindings|
    ensures var r := GoOnWith(server, t, k);
            && r.Done? && r.server.pool == server.pool && !IsOffer(r.action)
            && forall ip :: Bound(r.server.bindings, ip) ==> Bound(server.bindings, ip)
  {
    var r := GoOnWith(server, t, k);
    forall ip | Bound(r.server.bindings, ip)
      ensures Bound(server.bindings, ip)
    {
      var i :| 0 <= i < |r.server.bindings| && r.server.bindings[i].address == ip;
      assert server.bindings[if |r.server.bindings| == |server.bindings| || i < k then i else i + 1].address == ip;
    }
  }

  /** Nor does anything else that is handled in one step. */
  lemma HandleBindsNothing(server: Server, t: Task)
    requires DispatchType(t) != TYPE_DISCOVER && !LooksUp(t)
    ensures var r := Handle(server, t);
            && r.Done? && r.server == server && !IsOffer(r.action)
  {
  }

  lemma GoingOnKeepsServer(server: Server, t: Task, k: nat)
    requires ServerOk(server) && k < |server.bindings|
    ensures ServerOk(GoOnWith(server, t, k).server)
  {
  }

  lemma DispatchKeepsAddresses(s: System, w: nat, t: Task)
    requires AddressesDistinct(s) && w < |s.workers| && s.workers[w] == Handling(t)
    ensures AddressesDistinct(Dispatched(s, w, t))
  {
    if DispatchType(t) != TYPE_DISCOVER && !LooksUp(t) {
      HandleBindsNothing(s.server, t);
    }
  }

  lemma UseKeepsAddresses(s: System, w: nat)
    requires AddressesDistinct(s) && CanWork(s, w) && s.workers[w].Using?
    ensures AddressesDistinct(Worked(s, w))
  {
    var t, k := s.workers[w].t, PlaceOf(s.origins, s.workers[w].id);
    GoingOnBindsNothing(s.server, t, k);
    GoingOnKeepsServer(s.server, t, k);
  }

  /** The scan ends at its first probe: by finding the next address, or by running
      into the end of the pool. */
  lemma ProbeEnds(s: System, w: nat)
    requires AddressesDistinct(s) && w < |s.workers| && s.workers[w].Scanning?
    ensures s.workers[w].ip <= s.server.pool.last ==>
              IpAvailable(s.server.pool, s.server.bindings, s.workers[w].ip)
    ensures |s.workers| == 1 ==> s.workers[w].ip <= s.server.pool.last
  {
  }

  lemma ProbeKeepsAddresses(s: System, w: nat)
    requires LocksMatch(s) && AddressesDistinct(s) && CanWork(s, w) && s.workers[w].Scanning?
    ensures AddressesDistinct(Worked(s, w))
  {
    ProbeEnds(s, w);
    assert PlaceOk(s.server, |s.workers|, s.workers[w]);
    var ip, s' := s.workers[w].ip, Worked(s, w);
    if ip <= s.server.pool.last {
      forall v | 0 <= v < |s.workers| && v != w
        ensures s'.workers[v] == s.workers[v] && PlaceOk(s'.server, |s.workers|, s.workers[v])
        ensures !SameAddress(s'.workers[v], s'.workers[w])
      {
        assert PlaceOk(s.server, |s.workers|, s.workers[v]);
        assert !HoldsPool(s.workers[v]);
      }
    }
  }

  lemma RecordKeepsAddresses(s: System, w: nat)
    requires AddressesDistinct(s) && CanWork(s, w) && s.workers[w].Offering?
    ensures AddressesDistinct(Worked(s, w))
  {
  }

  lemma WorkKeepsAddresses(s: System, w: nat)
    requires LocksMatch(s) && AddressesDistinct(s) && CanWork(s, w)
    requires NoWrap(|s.workers|, s.server.pool)
    ensures AddressesDistinct(Worked(s, w))
  {
    var at, s' := s.workers[w], Worked(s, w);
    if at.Handling? {
      DispatchKeepsAddresses(s, w, at.t);
    } else if at.Scanning? {
      ProbeKeepsAddresses(s, w);
    } else if at.Offering? {
      RecordKeepsAddresses(s, w);
    } else if at.Using? {
      UseKeepsAddresses(s, w);
    } else {
      assert PlaceOk(s.server, |s.workers|, at);
      MoveKeepsAddresses(s, w, s'.workers[w]);
    }
  }

  lemma PoolBoundsStay(s: System, w: nat)
    requires CanWork(s, w)
    ensures var s' := Worked(s, w);
            |s'.workers| == |s.workers|
            && s'.server.pool.first == s.server.pool.first && s'.server.pool.last == s.server.pool.last
  {
  }

  lemma AddressesKept(s: System, step: Step)
    requires LocksMatch(s) && AddressesDistinct(s) && Enabled(s, step)
    requires NoWrap(|s.workers|, s.server.pool)
    ensures AddressesDistinct(Next(s, step))
    ensures NoWrap(|Next(s, step).workers|, Next(s, step).server.pool)
  {
    match step
    case Arrive(t) =>
    case Submit =>
    case Signal(w) =>
      if Asleep(s, w) {
        MoveKeepsAddresses(s, w, Woken);
      }
    case Spurious(w) => MoveKeepsAddresses(s, w, Woken);
    case Work(w) =>
      WorkKeepsAddresses(s, w);
      PoolBoundsStay(s, w);
  }

  ghost predicate Safe(s: System) {
    Sound(s) && AddressesDistinct(s) && NoWrap(|s.workers|, s.server.pool)
  }

  lemma SafeKept(s: System, step: Step)
    requires Safe(s) && Enabled(s, step)
    ensures Safe(Next(s, step))
  {
    LocksKept(s, step);
    OrderKept(s, step);
    AddressesKept(s, step);
  }

  lemma ShapeKept(s: System, step: Step)
    requires Enabled(s, step)
    ensures var s' := Next(s, step);
            |s'.workers| == |s.workers|
            && s'.server.pool.first == s.server.pool.first && s'.server.pool.last == s.server.pool.last
  {
    if step.Work? {
      PoolBoundsStay(s, step.w);
    }
  }

  lemma {:induction false} SafeForGood(s: System, steps: seq<Step>)
    requires Safe(s) && Possible(s, steps)
    ensures var s' := After(s, steps);
            && Safe(s') && |s'.workers| == |s.workers|
            && s'.server.pool.first == s.server.pool.first && s'.server.pool.last == s.server.pool.last
    decreases steps
  {
    if steps != [] {
      SafeKept(s, steps[0]);
      ShapeKept(s, steps[0]);
      SafeForGood(Next(s, steps[0]), steps[1..]);
    }
  }

  lemma StartSafe(n: nat, first: u32, last: u32, config: Config)
    requires NoWrap(n, Pool(first, last, first))
    ensures Safe(Start(n, first, last, config))
  {
    StartSound(n, first, last, config);
    NothingUnderWay(Start(n, first, last, config));
  }

  lemma NothingUnderWay(s: System)
    requires s.server.bindings == [] && s.server.pool.current == s.server.pool.first
    requires forall w :: 0 <= w < |s.workers| ==> s.workers[w] == Ready
    ensures AddressesDistinct(s)
  {
  }

  /** In every reachable state, for any number of workers on a pool that does not
      reach 2^32 - 1, and for one worker on any pool. */
  lemma ReachedSafe(n: nat, first: u32, last: u32, config: Config, steps: seq<Step>)
    requires NoWrap(n, Pool(first, last, first))
    requires Possible(Start(n, first, last, config), steps)
    ensures var s := After(Start(n, first, last, config), steps);
            Safe(s) && |s.workers| == n && s.server.pool.first == first && s.server.pool.last == last
  {
    StartSafe(n, first, last, config);
    SafeForGood(Start(n, first, last, config), steps);
  }
}
