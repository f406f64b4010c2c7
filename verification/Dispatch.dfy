/** What a datagram comes to, type by type, in the numbers of the protocol and of the
    fields of a message; only the stacks of ClientStacks stand for the binding list
    where a handler searches it. */
module Dispatch {
  import opened Words
  import opened MessageType
  import opened Bindings
  import opened Leases
  import opened LeaseInvariant
  import opened ClientStacks
  import opened Replies

  /** The datagrams that are looked at: a BOOTREQUEST with a transaction id. */
  predicate WasRead(t: Task) {
    t.recvBytes >= 0 && t.request.op == 1 && t.request.xid != 0
  }

  /** The message type the scan of the 312 bytes of options yields. */
  function ScannedType(t: Task): byte {
    Scan(t.request.memory, 312)
  }

  /** Anything else is dropped, whatever its options say, and not answered. */
  lemma UnreadIsDropped(s: Server, t: Task)
    requires !WasRead(t)
    ensures Handle(s, t) == Done(s, Silent) && ReplyTo(s, t, Silent) == NoReply
  {
  }

  lemma UnknownTypeIsDropped(s: Server, t: Task)
    requires ScannedType(t) !in {1, 3, 5, 6, 7, 8}
    ensures Handle(s, t) == Done(s, Silent) && ReplyTo(s, t, Silent) == NoReply
  {
  }

  /** Type 1, DISCOVER: the next address is offered under a lease from now on, dynamic
      and associated, until the last one is out; without memory it is lost. */
  lemma DiscoverComesTo(s: Server, t: Task)
    requires Inv(s) && WasRead(t) && ScannedType(t) == 1
    ensures Handle(s, t).Done?
    ensures var r, ip, c := Handle(s, t), s.pool.current + 1, t.request.chaddr[..t.request.hlen];
            if s.pool.current >= s.pool.last then r == Done(s, Silent)
            else
              && r.server.pool == Pool(s.pool.first, s.pool.last, ip) && r.server.config == s.config
              && r.server.bindings ==
                 (if t.mallocOk then [Binding(ip, c, t.now, t.now + s.config.maxLeaseTime, 1, 0)] + s.bindings
                  else s.bindings)
              && r.action == if t.mallocOk then Offered(c, ip) else OfferLost(ip)
  {
    DiscoverOffersNext(s, t);
  }

  /** Type 3, REQUEST: the top of the stack of the first six bytes of chaddr is confirmed,
      and mask and DNS server of the configuration become 255.255.255.0 and 8.8.8.8. */
  lemma RequestComesTo(s: Server, t: Task)
    requires WasRead(t) && ScannedType(t) == 3
    ensures var r, c := Handle(s, t), t.request.chaddr[..6];
            var stack := Stack(s.bindings, c);
            if stack == [] then r == Done(s, Silent)
            else r == Done(Server(s.pool, s.bindings,
                                  Config(s.config.maxLeaseTime, s.config.router, 0xFFFF_FF00, 0x0808_0808)),
                           Acked(c, stack[0]))
  {
    SearchFindsTop(s.bindings, t.request.chaddr[..6]);
  }

  /** The top of a client's stack is the address of its first associated binding. */
  ghost predicate IsTop(bs: seq<Binding>, k: nat, c: Client) {
    && k < |bs| && bs[k].cident == c && bs[k].status == 1
    && forall j :: 0 <= j < k ==> bs[j].cident != c || bs[j].status != 1
  }

  lemma TopStandsFirst(bs: seq<Binding>, c: Client) returns (k: nat)
    requires Stack(bs, c) != []
    ensures IsTop(bs, k, c) && bs[k].address == Stack(bs, c)[0]
    ensures k == Search(bs, c, STATIC_OR_DYNAMIC, ASSOCIATED)
  {
    SearchFindsTop(bs, c);
    k := Search(bs, c, STATIC_OR_DYNAMIC, ASSOCIATED);
    forall j | 0 <= j < k
      ensures bs[j].cident != c || bs[j].status != 1
    {
      SearchIsFirst(bs, c, STATIC_OR_DYNAMIC, ASSOCIATED, j);
    }
  }

  /** Type 5, taken for a decline: when yiaddr is the top of its client's stack, the
      binding is removed, and nothing else changes. */
  lemma DeclineComesTo(s: Server, t: Task) returns (k: nat)
    requires Inv(s) && WasRead(t) && ScannedType(t) == 5
    ensures var r, c, ip := Handle(s, t), t.request.chaddr[..t.request.hlen], t.request.yiaddr;
            var stack := Stack(s.bindings, c);
            if stack == [] || stack[0] != ip then r == Done(s, Silent)
            else
              && IsTop(s.bindings, k, c)
              && r == Done(Server(s.pool, s.bindings[..k] + s.bindings[k + 1..], s.config), Declined(c, ip))
  {
    var c := t.request.chaddr[..t.request.hlen];
    SearchDynamic(s.bindings, c);
    SearchFindsTop(s.bindings, c);
    k := 0;
    if Stack(s.bindings, c) != [] {
      k := TopStandsFirst(s.bindings, c);
    }
  }

  /** Type 7, RELEASE: when ciaddr is the top of its client's stack, the binding becomes
      released and its lease ends at 0, and nothing else changes. */
  lemma ReleaseComesTo(s: Server, t: Task) returns (k: nat)
    requires WasRead(t) && ScannedType(t) == 7
    ensures var r, c, ip := Handle(s, t), t.request.chaddr[..t.request.hlen], t.request.ciaddr;
            var stack := Stack(s.bindings, c);
            if stack == [] || stack[0] != ip then r == Done(s, Silent)
            else
              && IsTop(s.bindings, k, c)
              && var b := s.bindings[k];
                 r == Done(Server(s.pool, s.bindings[k := Binding(ip, c, b.bindingTime, 0, 4, b.isStatic)], s.config),
                           Released(c, ip))
  {
    var c := t.request.chaddr[..t.request.hlen];
    SearchFindsTop(s.bindings, c);
    k := 0;
    if Stack(s.bindings, c) != [] {
      k := TopStandsFirst(s.bindings, c);
    }
  }

  /** Type 8, INFORM, is answered with the DNS server, and type 6 with a NACK; neither
      changes anything. */
  lemma InformComesTo(s: Server, t: Task)
    requires WasRead(t)
    ensures ScannedType(t) == 8 ==> Handle(s, t) == Done(s, Informed(s.config.dns))
    ensures ScannedType(t) == 6 ==> Handle(s, t) == Done(s, Nacked)
  {
  }
}
