/** The handlers of server_connection.c on the heap: a shared pool, a shared
    binding list and a shared configuration, updated in place. */
module DhcpServer {
  import opened Words
  import opened IntrusiveLists
  import opened OptionFormat
  import opened MessageType
  import opened Replies
  import opened ReplyContents
  import opened Dispatch
  import opened Bindings
  import opened BindingTable
  import opened Leases

  class PoolIndexes {
    var ipFirst: u32
    var ipLast: u32
    var ipCurrent: u32

    /** The range directive of the configuration file. */
    constructor (first: u32, last: u32)
      ensures Value() == Pool(first, last, first)
    {
      ipFirst, ipLast, ipCurrent := first, last, first;
    }

    function Value(): Pool
      reads this
    {
      Pool(ipFirst, ipLast, ipCurrent)
    }
  }

  class ServerConfig {
    var maxLeaseTime: int
    var router: u32
    var subnet: u32
    var dns: u32

    constructor (config: Config)
      ensures Value() == config
    {
      maxLeaseTime, router, subnet, dns := config.maxLeaseTime, config.router, config.subnet, config.dns;
    }

    function Value(): Config
      reads this
    {
      Config(maxLeaseTime, router, subnet, dns)
    }
  }

  class DhcpServer {
    const pool: PoolIndexes
    const bindings: BindingList
    const config: ServerConfig

    constructor (pool: PoolIndexes, bindings: BindingList, config: ServerConfig)
      ensures this.pool == pool && this.bindings == bindings && this.config == config
    {
      this.pool, this.bindings, this.config := pool, bindings, config;
    }

    ghost predicate Valid()
      reads bindings, bindings.first, bindings.nodes, Slots(bindings.nodes)
    {
      bindings.Valid()
    }

    /** The state of the lease machine the heap stands for. */
    ghost function State(): Server
      reads pool, bindings, bindings.nodes, config
    {
      Server(pool.Value(), bindings.Contents(), config.Value())
    }

    /** is_ip_available */
    method IsIpAvailable(ip: u32) returns (available: bool)
      requires Valid()
      ensures available <==> IpAvailable(pool.Value(), bindings.Contents(), ip)
    {
      if ip < pool.ipFirst || ip > pool.ipLast {
        return false;
      }
      ghost var bs := bindings.Contents();
      StepTo(bindings, 0);
      var binding := bindings.first.ptr;
      ghost var k := 0;
      while binding != null
        invariant Valid() && k <= |bs| && binding == NodeAt(bindings.nodes, k)
        invariant forall j :: 0 <= j < k ==> bs[j].address != ip
        decreases |bs| - k
      {
        StepTo(bindings, k);
        if binding.value.address == ip {
          return false;
        }
        binding := binding.next.ptr;
        k := k + 1;
      }
      return true;
    }

    /** offer_ip_available, for a pool and list on which its loop ends. */
    method OfferIpAvailable() returns (offered: u32)
      requires Valid() && ScanOutcome(pool.Value(), bindings.Contents()) != Running
      modifies pool`ipCurrent
      ensures match ScanOutcome(old(pool.Value()), bindings.Contents())
              case Found(ip) => offered == ip && pool.Value() == old(pool.Value()).(current := ip)
              case _ => offered == 0 && pool.Value() == old(pool.Value())
      ensures Valid() && bindings.Contents() == old(bindings.Contents())
    {
      ghost var was, bs := pool.Value(), bindings.Contents();
      ghost var probes: nat :| ScanPool(was, bs, Succ32(was.current), probes) != Running;
      ScanOutcomeIs(was, bs, probes);
      offered := 0;
      var ip: u32 := Succ32(pool.ipCurrent);
      while ip <= pool.ipLast
        invariant Valid() && pool.Value() == was && bindings.Contents() == bs && offered == 0
        invariant ScanPool(was, bs, ip, probes) == ScanOutcome(was, bs)
        decreases probes
      {
        var available := IsIpAvailable(ip);
        if available {
          offered := ip;
          pool.ipCurrent := ip;
          bindings.StaysValid();
          return;
        }
        ip := Succ32(ip);
        probes := probes - 1;
      }
    }

    /** The part of send_DHCP_Offer that enters the offer in the list. */
    method RecordOffer(t: Task, offered: u32)
      requires Valid()
      modifies bindings`nodes, bindings.first`ptr, bindings.nodes`prev
      ensures Valid()
      ensures bindings.Contents() == [NewBinding(t, offered, config.Value())] + old(bindings.Contents())
      ensures fresh(Footprint(bindings.first, bindings.nodes) - old(Footprint(bindings.first, bindings.nodes)))
    {
      var leaseTime := t.now + config.maxLeaseTime;
      var binding := new Node(Binding(offered, ClientOf(t.request), t.now, leaseTime, ASSOCIATED, DYNAMIC));
      bindings.StaysValid();
      bindings.InsertHead(binding);
    }

    /** send_DHCP_Offer */
    method SendDhcpOffer(t: Task) returns (reply: Reply)
      requires Valid() && Discover(State(), t).Done?
      modifies pool`ipCurrent, bindings`nodes, bindings.first`ptr, bindings.nodes`prev
      ensures Valid() && Discover(old(State()), t) == Done(State(), Discover(old(State()), t).action)
      ensures reply == ReplyTo(old(State()), t, Discover(old(State()), t).action)
      ensures Conveys(old(State()).config, t, Discover(old(State()), t).action, reply)
      ensures fresh(Footprint(bindings.first, bindings.nodes) - old(Footprint(bindings.first, bindings.nodes)))
    {
      ReplyConveys(State(), t, Discover(State(), t).action);
      if pool.ipCurrent >= pool.ipLast {
        return NoReply;
      }
      var offered := OfferIpAvailable();
      if offered == 0 {
        return NoReply;
      }
      if !t.mallocOk {
        return NoReply;
      }
      var m := t.request;
      var leaseTime := config.maxLeaseTime;
      RecordOffer(t, offered);
      label inserted:
      var options := WriteOfferOptions(leaseTime);
      bindings.StaysValid@inserted();
      return Reply(BOOTREPLY, m.htype, m.hlen, m.xid, m.flags, offered, config.router, ClientOf(m), options[..]);
    }

    /** send_DHCP_Ack */
    method SendDhcpAck(t: Task) returns (reply: Reply)
      requires Valid()
      modifies config`subnet, config`dns
      ensures Valid() && Acknowledge(old(State()), t) == Done(State(), Acknowledge(old(State()), t).action)
      ensures reply == ReplyTo(old(State()), t, Acknowledge(old(State()), t).action)
      ensures Conveys(old(State()).config, t, Acknowledge(old(State()), t).action, reply)
    {
      ReplyConveys(State(), t, Acknowledge(State(), t).action);
      var m := t.request;
      var binding := SearchBinding(bindings, RequestKey(m), STATIC_OR_DYNAMIC, ASSOCIATED);
      if binding == null {
        return NoReply;
      }
      ghost var k := Search(bindings.Contents(), RequestKey(m), STATIC_OR_DYNAMIC, ASSOCIATED);
      StepTo(bindings, k);
      var address := binding.value.address;
      config.subnet := ACK_SUBNET;
      config.dns := ACK_DNS;
      bindings.StaysValid();
      label configured:
      var options := WriteAckOptions(config.maxLeaseTime, config.subnet, config.router, config.dns);
      bindings.StaysValid@configured();
      return Reply(BOOTREPLY, m.htype, m.hlen, m.xid, 0, address, ACK_SERVER, ClientOf(m), options[..]);
    }

    /** handle_DHCP_Decline */
    method HandleDhcpDecline(t: Task)
      requires Valid()
      modifies bindings`nodes, Footprint(bindings.first, bindings.nodes)
      ensures Valid() && Decline(old(State()), t) == Done(State(), Decline(old(State()), t).action)
      ensures Footprint(bindings.first, bindings.nodes) <= old(Footprint(bindings.first, bindings.nodes))
    {
      var declined, m := t.request.yiaddr, t.request;
      var binding := SearchBinding(bindings, ClientOf(m), DYNAMIC, ASSOCIATED);
      ghost var k := Search(bindings.Contents(), ClientOf(m), DYNAMIC, ASSOCIATED);
      StepTo(bindings, k);
      if binding != null && binding.value.address == declined {
        RemovalIsLocal(bindings, k);
        RemoveBinding(binding, bindings, k);
      }
    }

    /** handle_DHCP_Release */
    method HandleDhcpRelease(t: Task)
      requires Valid()
      modifies bindings.nodes`value
      ensures Valid() && Release(old(State()), t) == Done(State(), Release(old(State()), t).action)
    {
      var released, m := t.request.ciaddr, t.request;
      var binding := SearchBinding(bindings, ClientOf(m), STATIC_OR_DYNAMIC, ASSOCIATED);
      ghost var k := Search(bindings.Contents(), ClientOf(m), STATIC_OR_DYNAMIC, ASSOCIATED);
      StepTo(bindings, k);
      if binding != null && binding.value.address == released {
        forall j | 0 <= j < |bindings.nodes| && j != k
          ensures bindings.nodes[j] != binding
        {
          SlotBeforeInjective(bindings.first, bindings.nodes, j, k);
        }
        binding.value := binding.value.(status := RELEASED, leaseTime := 0);
        bindings.StaysValid();
      }
    }

    /** handle_DHCP_Inform_Reply */
    method SendInformReply(t: Task) returns (reply: Reply)
      requires Valid()
      ensures Valid() && State() == old(State())
      ensures reply == ReplyTo(State(), t, Informed(State().config.dns))
      ensures Answering(t, reply) && InformBytes(reply.options, State().config.dns)
    {
      InformIs(config.dns);
      var m := t.request;
      var options := WriteInformOptions(config.dns);
      bindings.StaysValid();
      return Reply(BOOTREPLY, m.htype, m.hlen, m.xid, 0, 0, 0, ClientOf(m), options[..]);
    }

    /** send_DHCP_NACK */
    method SendDhcpNack(t: Task) returns (reply: Reply)
      requires Valid()
      ensures Valid() && State() == old(State())
      ensures reply == ReplyTo(State(), t, Nacked)
      ensures Answering(t, reply) && NackBytes(reply.options)
    {
      NackIs();
      var m := t.request;
      var options := WriteNackOptions();
      bindings.StaysValid();
      return Reply(BOOTREPLY, m.htype, m.hlen, m.xid, 0, 0, 0, ClientOf(m), options[..]);
    }

    /** The switch of handle_client. */
    method Answer(t: Task, messageType: byte) returns (reply: Reply)
      requires Valid() && Handle(State(), t).Done?
      requires WasRead(t) && messageType == ScannedType(t)
      modifies pool`ipCurrent, bindings`nodes, Footprint(bindings.first, bindings.nodes),
               config`subnet, config`dns
      ensures Valid() && Handle(old(State()), t) == Done(State(), Handle(old(State()), t).action)
      ensures reply == ReplyTo(old(State()), t, Handle(old(State()), t).action)
      ensures fresh(Footprint(bindings.first, bindings.nodes) - old(Footprint(bindings.first, bindings.nodes)))
    {
      assert forall n :: n in bindings.nodes ==> n in Footprint(bindings.first, bindings.nodes);
      reply := NoReply;
      if messageType == TYPE_DISCOVER {
        reply := SendDhcpOffer(t);
      } else if messageType == TYPE_REQUEST {
        reply := SendDhcpAck(t);
      } else if messageType == TYPE_DECLINE {
        HandleDhcpDecline(t);
      } else if messageType == TYPE_RELEASE {
        HandleDhcpRelease(t);
      } else if messageType == TYPE_INFORM {
        reply := SendInformReply(t);
      } else if messageType == TYPE_NACK {
        reply := SendDhcpNack(t);
      }
    }

    /** handle_client: it computes the step of the lease machine, and its reply. */
    method HandleClient(t: Task) returns (reply: Reply)
      requires Valid() && Handle(State(), t).Done?
      modifies pool`ipCurrent, bindings`nodes, Footprint(bindings.first, bindings.nodes),
               config`subnet, config`dns
      ensures Valid() && Handle(old(State()), t) == Done(State(), Handle(old(State()), t).action)
      ensures reply == ReplyTo(old(State()), t, Handle(old(State()), t).action)
      ensures Conveys(old(State()).config, t, Handle(old(State()), t).action, reply)
      ensures !WasRead(t) ==> State() == old(State()) && reply == NoReply
      ensures fresh(Footprint(bindings.first, bindings.nodes) - old(Footprint(bindings.first, bindings.nodes)))
    {
      ReplyConveys(State(), t, Handle(State(), t).action);
      if !WasRead(t) {
        UnreadIsDropped(State(), t);
      }
      reply := NoReply;
      if t.recvBytes < 0 {
        return;
      }
      var m := t.request;
      var messageType := GetDhcpMessageType(m.memory, OPTIONS_SIZE);
      if m.op == BOOTREQUEST {
        if m.xid != 0 {
          reply := Answer(t, messageType);
        }
      }
    }
  }
}
