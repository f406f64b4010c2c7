/** The terms of what the server has handed out, over whole runs: which DISCOVER a
    binding goes back to and when its lease ends, and what the configuration words in
    replies are. */
module LeaseTerms {
  import opened Words
  import opened Bindings
  import opened Leases
  import opened LeaseInvariant
  import opened LeaseHistory
  import opened Replies
  import opened ReplyContents
  import opened Dispatch

  // ----- Configuration

  ghost predicate SomeAcked(acts: seq<Action>) {
    exists j :: 0 <= j < |acts| && acts[j].Acked?
  }

  /** The first ACK sets mask and DNS server for good. */
  ghost function ConfigAfter(config: Config, acts: seq<Action>): Config {
    if SomeAcked(acts) then Config(config.maxLeaseTime, config.router, 0xFFFF_FF00, 0x0808_0808) else config
  }

  lemma ConfigAfterSnoc(config: Config, acts: seq<Action>, a: Action)
    ensures ConfigAfter(config, acts + [a]) ==
            if a.Acked? then Config(config.maxLeaseTime, config.router, 0xFFFF_FF00, 0x0808_0808)
            else ConfigAfter(config, acts)
  {
    var longer := acts + [a];
    assert longer[|acts|] == a;
    if j :| 0 <= j < |acts| && acts[j].Acked? {
      assert longer[j].Acked?;
    }
  }

  lemma HandleConfigures(s: Server, t: Task)
    requires Handle(s, t).Done?
    ensures var r := Handle(s, t);
            r.server.config ==
            if r.action.Acked? then Config(s.config.maxLeaseTime, s.config.router, 0xFFFF_FF00, 0x0808_0808)
            else s.config
  {
  }

  lemma {:induction false} ConfigOfRun(first: u32, last: u32, config: Config, events: seq<Event>)
    ensures var r := Run(Initial(first, last, config), events);
            r.Ran? && r.server.config == ConfigAfter(config, r.actions)
    decreases events
  {
    EveryRunCompletes(first, last, config, events);
    if events != [] {
      var n := |events| - 1;
      ConfigOfRun(first, last, config, events[..n]);
      EveryRunCompletes(first, last, config, events[..n]);
      var before := Run(Initial(first, last, config), events[..n]);
      ConfigAfterSnoc(config, before.actions, React(before.server, events[n]).action);
      if events[n].Datagram? {
        HandleConfigures(before.server, events[n].task);
      }
    }
  }

  /** An INFORM is answered with the configured DNS server before the first ACK and with
      8.8.8.8 from then on. */
  lemma InformOfRun(first: u32, last: u32, config: Config, events: seq<Event>, k: nat)
    requires k < |events| && events[k].Datagram?
    requires WasRead(events[k].task) && ScannedType(events[k].task) == 8
    ensures var r, p := Run(Initial(first, last, config), events), Run(Initial(first, last, config), events[..k]);
            && r.Ran? && p.Ran? && k < |r.actions|
            && var dns := if SomeAcked(r.actions[..k]) then 0x0808_0808 else config.dns;
               var reply := ReplyTo(p.server, events[k].task, r.actions[k]);
               r.actions[k] == Informed(dns) && Answering(events[k].task, reply) && InformBytes(reply.options, dns)
  {
    RunPrefix(first, last, config, events, k);
    ConfigOfRun(first, last, config, events[..k]);
    var p := Run(Initial(first, last, config), events[..k]).server;
    InformComesTo(p, events[k].task);
    ReplyConveys(p, events[k].task, Informed(p.config.dns));
  }

  // ----- Leases

  /** The terms under which a DISCOVER was offered `b`, or what a release has made of them. */
  predicate LeaseOf(t: Task, maxLeaseTime: int, b: Binding) {
    && WasRead(t) && ScannedType(t) == 1
    && b.cident == t.request.chaddr[..t.request.hlen] && b.bindingTime == t.now && b.isStatic == 0
    && ((b.status == 1 && b.leaseTime == t.now + maxLeaseTime) || (b.status == 4 && b.leaseTime == 0))
  }

  predicate GoesBackTo(events: seq<Event>, acts: seq<Action>, i: nat, maxLeaseTime: int, b: Binding) {
    && i < |events| && i < |acts| && events[i].Datagram?
    && acts[i] == Offered(b.cident, b.address) && LeaseOf(events[i].task, maxLeaseTime, b)
  }

  /** What a step leaves of a binding: the same, or released. */
  predicate LeftOf(b: Binding, b': Binding) {
    b' == b || b' == Binding(b.address, b.cident, b.bindingTime, 0, 4, b.isStatic)
  }

  lemma GoingOnLeaves(s: Server, t: Task, k: nat, j: nat)
    requires k < |s.bindings| && GoOnWith(s, t, k).Done? && j < |GoOnWith(s, t, k).server.bindings|
    ensures var bs' := GoOnWith(s, t, k).server.bindings;
            var i := if |bs'| < |s.bindings| && j >= k then j + 1 else j;
            i < |s.bindings| && LeftOf(s.bindings[i], bs'[j])
  {
  }

  /** A binding of the list after an event was entered by it or stood there before. */
  lemma ReactLeaves(s: Server, e: Event, j: nat) returns (i: nat)
    requires Inv(s) && React(s, e).Done? && j < |React(s, e).server.bindings|
    ensures var r := React(s, e);
            var b := r.server.bindings[j];
            || (i < |s.bindings| && LeftOf(s.bindings[i], b))
            || (e.Datagram? && r.action == Offered(b.cident, b.address) && LeaseOf(e.task, s.config.maxLeaseTime, b))
  {
    i := j;
    match e
    case Maintenance(now) => MaintainLeavesAlone(s.bindings, now);
    case Datagram(t) =>
      if DispatchType(t) == TYPE_DISCOVER {
        DiscoverComesTo(s, t);
        i := if |React(s, e).server.bindings| > |s.bindings| && j > 0 then j - 1 else j;
      } else if LooksUp(t) {
        LookUpThenGoOn(s, t);
        var k := LookUp(s, t);
        if k < |s.bindings| {
          GoingOnLeaves(s, t, k, j);
          i := if |React(s, e).server.bindings| < |s.bindings| && j >= k then j + 1 else j;
        }
      }
  }

  /** Every binding goes back to the DISCOVER that was offered its address: it belongs to
      that client, began then, and ends after the configured time, or at 0 when it
      has been released. */
  lemma {:induction false} LeasesOfRun(first: u32, last: u32, config: Config, events: seq<Event>, j: nat)
    returns (i: nat)
    requires var r := Run(Initial(first, last, config), events); r.Ran? && j < |r.server.bindings|
    ensures var r := Run(Initial(first, last, config), events);
            GoesBackTo(events, r.actions, i, config.maxLeaseTime, r.server.bindings[j])
    decreases events
  {
    var n := |events| - 1;
    EveryRunCompletes(first, last, config, events[..n]);
    EveryRunCompletes(first, last, config, events);
    ConfigOfRun(first, last, config, events[..n]);
    var p, r := Run(Initial(first, last, config), events[..n]), Run(Initial(first, last, config), events);
    i := ReactLeaves(p.server, events[n], j);
    if i < |p.server.bindings| && LeftOf(p.server.bindings[i], r.server.bindings[j]) {
      i := LeasesOfRun(first, last, config, events[..n], i);
    } else {
      i := n;
    }
  }
}
