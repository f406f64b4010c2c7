/** Consequences a single client meets, some of them against its expectation. */
module ClientView {
  import opened Words
  import opened OptionFormat
  import opened MessageType
  import opened Replies
  import opened Bindings
  import opened Leases
  import opened LeaseInvariant
  import opened ClientStacks
  import opened LeaseHistory
  import opened Samples

  /** A BOOTREQUEST with a transaction id is dispatched on what its options say, when
      they are well formed up to their END, and anything else is not dispatched. */
  lemma DispatchedOnOptions(t: Task)
    requires Parse(t.request.memory[..OPTIONS_SIZE]).ok
    ensures DispatchType(t) ==
            if t.recvBytes >= 0 && t.request.op == 1 && t.request.xid != 0 then
              TypeOf(Parse(t.request.memory[..OPTIONS_SIZE]).options)
            else 0
  {
    ScanAgreesWithParse(t.request.memory, OPTIONS_SIZE);
  }

  /** A client that tries to decline with message type 4, which options.h and section
      9.6 of RFC 2132 give to DHCPDECLINE, is ignored: the dispatch has no case for it. */
  lemma StandardDeclineIgnored(s: Server, t: Task)
    requires Parse(t.request.memory[..OPTIONS_SIZE]).ok
    requires TypeOf(Parse(t.request.memory[..OPTIONS_SIZE]).options) == 4
    ensures Handle(s, t) == Done(s, Silent)
  {
    ScanAgreesWithParse(t.request.memory, OPTIONS_SIZE);
  }

  lemma FirstOffer(first: u32, last: u32, config: Config, discover: Task)
    requires first < last && DispatchType(discover) == TYPE_DISCOVER && discover.mallocOk
    ensures var s := Server(Pool(first, last, first + 1), [NewBinding(discover, first + 1, config)], config);
            Inv(s) && Run(Initial(first, last, config), [Datagram(discover)]) ==
                      Ran(s, [Offered(ClientOf(discover.request), first + 1)])
  {
    var s0 := Initial(first, last, config);
    DiscoverOffersNext(s0, discover);
    assert [Datagram(discover)][..0] == [] && Run(s0, []) == Ran(s0, []);
    assert [NewBinding(discover, first + 1, config)] + [] == [NewBinding(discover, first + 1, config)];
  }

  /** A run of two datagrams, the first of them a DISCOVER on a pool with room. */
  lemma AfterFirstOffer(first: u32, last: u32, config: Config, discover: Task, t: Task)
    requires first < last && DispatchType(discover) == TYPE_DISCOVER && discover.mallocOk
    ensures var s := Server(Pool(first, last, first + 1), [NewBinding(discover, first + 1, config)], config);
            && Inv(s)
            && (Handle(s, t).Done? ==>
                  Run(Initial(first, last, config), [Datagram(discover), Datagram(t)]) ==
                  Ran(Handle(s, t).server, [Offered(ClientOf(discover.request), first + 1), Handle(s, t).action]))
  {
    var s0, events := Initial(first, last, config), [Datagram(discover), Datagram(t)];
    FirstOffer(first, last, config, discover);
    assert events[..1] == [Datagram(discover)];
  }

  /** A client is offered an address and declines it as the standard says, naming
      it, and the address stays bound to it. */
  lemma StandardDeclineFails(first: u32, last: u32, config: Config)
    requires first < last
    ensures var discover := Datagram(Sample(TYPE_DISCOVER, 6, 0));
            var decline := Datagram(Sample(4, 6, first + 1));
            var r := Run(Initial(first, last, config), [discover, decline]);
            && r.Ran? && r.actions == [Offered(Zeros(6), first + 1), Silent]
            && Stack(r.server.bindings, Zeros(6)) == [first + 1]
  {
    var discover, decline := Sample(TYPE_DISCOVER, 6, 0), Sample(4, 6, first + 1);
    assert Zeros(16)[..6] == Zeros(6);
    AfterFirstOffer(first, last, config, discover, decline);
    EntryMovesStack([], NewBinding(discover, first + 1, config), Zeros(6));
    assert [NewBinding(discover, first + 1, config)] + [] == [NewBinding(discover, first + 1, config)];
  }

  /** A binding is dropped by a datagram exactly when the datagram is of type 5
      and names its client's newest address. */
  lemma DroppedIffTypeFive(s: Server, t: Task)
    requires Inv(s)
    ensures Handle(s, t).Done?
    ensures |Handle(s, t).server.bindings| < |s.bindings| <==>
            DispatchType(t) == 5
            && var stack := Stack(s.bindings, ClientOf(t.request)); stack != [] && stack[0] == t.request.yiaddr
  {
    if DispatchType(t) == TYPE_DISCOVER {
      DiscoverOffersNext(s, t);
    }
    SearchDynamic(s.bindings, ClientOf(t.request));
    SearchFindsTop(s.bindings, ClientOf(t.request));
  }

  /** DISCOVER, then REQUEST by the same client: it is granted what it was offered
      exactly when its hardware address has six bytes, because REQUEST looks for
      six whatever hlen says. */
  lemma OfferGrantedIffSixBytes(s: Server, discover: Task, request: Task)
    requires Inv(s) && s.pool.current < s.pool.last
    requires DispatchType(discover) == TYPE_DISCOVER && discover.mallocOk
    requires DispatchType(request) == TYPE_REQUEST
    requires request.request.hlen == discover.request.hlen && request.request.chaddr == discover.request.chaddr
    ensures Handle(s, discover).Done? && Handle(s, discover).action.Offered?
    ensures var r := Handle(Handle(s, discover).server, request);
            r.Done? && (r.action.Acked? && r.action.ip == Handle(s, discover).action.ip
                        <==> discover.request.hlen == 6)
  {
    DiscoverOffersNext(s, discover);
    var bs, key := Handle(s, discover).server.bindings, RequestKey(request.request);
    assert bs[0].cident == ClientOf(discover.request);
    if discover.request.hlen == 6 {
      assert Matches(bs[0], key, STATIC_OR_DYNAMIC, ASSOCIATED);
    } else {
      assert |bs[0].cident| != |key|;
    }
  }

  /** A client with a hardware address of any length but six asks for what it was
      just offered, and is not answered. */
  lemma OfferNotGranted(first: u32, last: u32, config: Config, hlen: byte)
    requires first < last && hlen <= 16 && hlen != 6
    ensures var discover := Datagram(Sample(TYPE_DISCOVER, hlen, 0));
            var request := Datagram(Sample(TYPE_REQUEST, hlen, first + 1));
            var r := Run(Initial(first, last, config), [discover, request]);
            r.Ran? && r.actions == [Offered(Zeros(hlen), first + 1), Silent]
  {
    var discover, request := Sample(TYPE_DISCOVER, hlen, 0), Sample(TYPE_REQUEST, hlen, first + 1);
    var bs := [NewBinding(discover, first + 1, config)];
    assert Zeros(16)[..hlen] == Zeros(hlen);
    AfterFirstOffer(first, last, config, discover, request);
    assert |bs[0].cident| != |RequestKey(request.request)|;
    assert bs[1..] == [];
  }

  /** What a REQUEST is granted was offered to the client that sends it exactly when
      this client's hardware address has six bytes. */
  lemma GrantedItsOwnIffSixBytes(first: u32, last: u32, config: Config, events: seq<Event>, k: nat)
    requires var r := Run(Initial(first, last, config), events);
             r.Ran? && k < |r.actions| && k < |events| && r.actions[k].Acked? && events[k].Datagram?
    ensures var acts, m := Run(Initial(first, last, config), events).actions, events[k].task.request;
            (exists j :: 0 <= j < k && acts[j] == Offered(ClientOf(m), acts[k].ip)) <==> m.hlen == 6
  {
    var acts, m := Run(Initial(first, last, config), events).actions, events[k].task.request;
    var i := AckConfirmsLatestOffer(first, last, config, events, k);
    RunPrefix(first, last, config, events, k);
    assert acts[k].client == RequestKey(m);
    if j :| 0 <= j < k && acts[j] == Offered(ClientOf(m), acts[k].ip) {
      assert IsOffer(acts[j]) && OfferIp(acts[j]) == acts[k].ip;
      assert j == i && |ClientOf(m)| == 6;
    }
    if m.hlen == 6 {
      assert acts[i] == Offered(ClientOf(m), acts[k].ip);
    }
  }

  /** A client with more or less than six bytes is granted what another one was offered,
      when it shares the first six bytes of chaddr with it. */
  lemma GrantedAnothers(first: u32, last: u32, config: Config, hlen: byte)
    requires first < last && hlen <= 16 && hlen != 6
    ensures var discover := Datagram(Sample(TYPE_DISCOVER, 6, 0));
            var request := Datagram(Sample(TYPE_REQUEST, hlen, 0));
            var r := Run(Initial(first, last, config), [discover, request]);
            && r.Ran? && r.actions == [Offered(Zeros(6), first + 1), Acked(Zeros(6), first + 1)]
            && ClientOf(request.task.request) != Zeros(6)
  {
    var discover, request := Sample(TYPE_DISCOVER, 6, 0), Sample(TYPE_REQUEST, hlen, 0);
    var b := NewBinding(discover, first + 1, config);
    assert Zeros(16)[..6] == Zeros(6);
    AfterFirstOffer(first, last, config, discover, request);
    assert Matches(b, RequestKey(request.request), STATIC_OR_DYNAMIC, ASSOCIATED);
  }

  /** An address that was declined or released is never offered again, to anyone. */
  lemma NeverOfferedAgain(first: u32, last: u32, config: Config, events: seq<Event>, j: nat, k: nat)
    requires var r := Run(Initial(first, last, config), events);
             && r.Ran? && j < k < |r.actions|
             && (r.actions[j].Declined? || r.actions[j].Released?) && IsOffer(r.actions[k])
    ensures var acts := Run(Initial(first, last, config), events).actions;
            OfferIp(acts[k]) > acts[j].ip
  {
    EveryRunCompletes(first, last, config, events);
    var acts := Run(Initial(first, last, config), events).actions;
    RunPrefix(first, last, config, events, j);
    var before := Run(Initial(first, last, config), events[..j]).server;
    GivenBackWasBound(before, events[j]);
    CursorCountsOffers(first, last, config, events[..j]);
    OfferIsNext(first, last, config, events, k);
    OffersMadeMonotone(acts, j, k);
  }

  lemma GivenBackWasBound(s: Server, e: Event)
    requires Inv(s) && React(s, e).Done?
    requires React(s, e).action.Declined? || React(s, e).action.Released?
    ensures React(s, e).action.ip <= s.pool.current
  {
  }
}
