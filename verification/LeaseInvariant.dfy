/** What every run of the lease machine keeps, and what it makes of a DISCOVER. */
module LeaseInvariant {
  import opened Words
  import opened Bindings
  import opened Leases

  /** A binding handed out by the server: dynamic, in use or given back, with an
      address in the part of the pool behind the cursor. */
  predicate HandedOut(b: Binding, pool: Pool) {
    && pool.first < b.address <= pool.current
    && b.isStatic == DYNAMIC
    && (b.status == ASSOCIATED || b.status == RELEASED)
  }

  /** Newer bindings stand in front of older ones and have larger addresses. */
  ghost predicate Descending(bs: seq<Binding>) {
    forall i, j :: 0 <= i < j < |bs| ==> bs[i].address > bs[j].address
  }

  /** No two bindings have the same address. */
  ghost predicate Distinct(bs: seq<Binding>) {
    forall i, j :: 0 <= i < j < |bs| ==> bs[i].address != bs[j].address
  }

  ghost predicate Inv(s: Server) {
    && s.pool.first <= s.pool.current
    && (s.pool.current == s.pool.first || s.pool.current <= s.pool.last)
    && (forall i :: 0 <= i < |s.bindings| ==> HandedOut(s.bindings[i], s.pool))
    && Descending(s.bindings)
  }

  /** With nothing bound behind the cursor the scan stops at its first probe,
      also on a pool that reaches up to 2^32 - 1. */
  lemma FirstProbeFinds(s: Server)
    requires Inv(s) && s.pool.current < s.pool.last
    ensures ScanOutcome(s.pool, s.bindings) == Found(s.pool.current + 1)
  {
    var ip := Succ32(s.pool.current);
    assert IpAvailable(s.pool, s.bindings, ip);
    assert ScanPool(s.pool, s.bindings, ip, 0) == Found(ip);
    ScanOutcomeIs(s.pool, s.bindings, 0);
  }

  /** So a DISCOVER yields exactly the next address until the last one is out. */
  lemma DiscoverOffersNext(s: Server, t: Task)
    requires Inv(s) && DispatchType(t) == TYPE_DISCOVER
    ensures Handle(s, t).Done? && Inv(Handle(s, t).server)
    ensures Handle(s, t).action ==
            if s.pool.current >= s.pool.last then Silent
            else if t.mallocOk then Offered(ClientOf(t.request), s.pool.current + 1)
            else OfferLost(s.pool.current + 1)
    ensures Handle(s, t).server.pool ==
            if s.pool.current >= s.pool.last then s.pool else s.pool.(current := s.pool.current + 1)
    ensures Handle(s, t).server.config == s.config
    ensures Handle(s, t).server.bindings ==
            if Handle(s, t).action.Offered? then
              [Binding(s.pool.current + 1, t.request.chaddr[..t.request.hlen], t.now, t.now + s.config.maxLeaseTime,
                       ASSOCIATED, DYNAMIC)] + s.bindings
            else s.bindings
  {
    if s.pool.current < s.pool.last {
      FirstProbeFinds(s);
    }
  }

  lemma DeclineKeepsInv(s: Server, t: Task)
    requires Inv(s)
    ensures Decline(s, t).Done? && Inv(Decline(s, t).server)
    ensures Decline(s, t).server.pool == s.pool
  {
  }

  lemma ReleaseKeepsInv(s: Server, t: Task)
    requires Inv(s)
    ensures Release(s, t).Done? && Inv(Release(s, t).server)
    ensures Release(s, t).server.pool == s.pool
  {
  }

  /** Nothing the server hands out is ever pending or expired. */
  lemma {:induction false} MaintainLeavesAlone(bs: seq<Binding>, now: int)
    requires forall i :: 0 <= i < |bs| ==> bs[i].status == ASSOCIATED || bs[i].status == RELEASED
    ensures Maintain(bs, now) == bs
  {
    MaintainKeepsSurvivors(bs, now);
    if bs != [] {
      MaintainKeepsSurvivors(bs[1..], now);
      MaintainLeavesAlone(bs[1..], now);
    }
  }

  /** Every event is reacted to: the handlers return, and keep the invariant. */
  lemma ReactKeepsInv(s: Server, e: Event)
    requires Inv(s)
    ensures React(s, e).Done? && Inv(React(s, e).server)
  {
    match e
    case Maintenance(now) => MaintainLeavesAlone(s.bindings, now);
    case Datagram(t) =>
      if DispatchType(t) == TYPE_DISCOVER {
        DiscoverOffersNext(s, t);
      } else if DispatchType(t) == TYPE_DECLINE {
        DeclineKeepsInv(s, t);
      } else if DispatchType(t) == TYPE_RELEASE {
        ReleaseKeepsInv(s, t);
      }
  }

  /** No run hangs, whatever arrives and whatever the pool. */
  lemma {:induction false} EveryRunCompletes(first: u32, last: u32, config: Config, events: seq<Event>)
    ensures var r := Run(Initial(first, last, config), events);
            && r.Ran? && |r.actions| == |events|
            && Inv(r.server) && r.server.pool.first == first && r.server.pool.last == last
    decreases events
  {
    if events != [] {
      var n := |events| - 1;
      EveryRunCompletes(first, last, config, events[..n]);
      var before := Run(Initial(first, last, config), events[..n]).server;
      ReactKeepsInv(before, events[n]);
      PoolStays(before, events[n]);
    }
  }

  /** The cursor advances by one with an offer, lost ones included, and else rests. */
  lemma PoolStays(s: Server, e: Event)
    requires Inv(s)
    ensures React(s, e).Done?
    ensures var r := React(s, e);
            if IsOffer(r.action) then
              s.pool.current < s.pool.last && OfferIp(r.action) == s.pool.current + 1
              && r.server.pool == s.pool.(current := s.pool.current + 1)
            else r.server.pool == s.pool
  {
    ReactKeepsInv(s, e);
    if e.Datagram? && DispatchType(e.task) == TYPE_DISCOVER {
      DiscoverOffersNext(s, e.task);
    }
  }

  predicate IsOffer(a: Action) {
    a.Offered? || a.OfferLost?
  }

  function OfferIp(a: Action): u32
    requires IsOffer(a)
  {
    a.ip
  }
}
