/** The binding list seen as one stack of addresses per client, and a server that
    keeps nothing else. The two are indistinguishable to every client. */
module ClientStacks {
  import opened Words
  import opened Bindings
  import opened Leases
  import opened LeaseInvariant

  type Client = seq<byte>

  // ----- The stacks in a binding list

  predicate Active(b: Binding, c: Client) {
    b.status == ASSOCIATED && b.cident == c
  }

  /** The addresses associated with a client, newest first. */
  function Stack(bs: seq<Binding>, c: Client): seq<u32> {
    if bs == [] then []
    else if Active(bs[0], c) then [bs[0].address] + Stack(bs[1..], c)
    else Stack(bs[1..], c)
  }

  lemma {:induction false} StackAppend(bs: seq<Binding>, cs: seq<Binding>, c: Client)
    ensures Stack(bs + cs, c) == Stack(bs, c) + Stack(cs, c)
  {
    if bs == [] {
      assert bs + cs == cs;
    } else {
      assert (bs + cs)[1..] == bs[1..] + cs;
      StackAppend(bs[1..], cs, c);
    }
  }

  lemma {:induction false} StackOfStrangers(bs: seq<Binding>, c: Client)
    requires forall i :: 0 <= i < |bs| ==> !Active(bs[i], c)
    ensures Stack(bs, c) == []
  {
    if bs != [] {
      StackOfStrangers(bs[1..], c);
    }
  }

  /** What stands in front of the first match, and what the match is worth. */
  lemma StackAround(bs: seq<Binding>, k: nat, c: Client)
    requires k < |bs|
    ensures Stack(bs, c) ==
            Stack(bs[..k], c) + (if Active(bs[k], c) then [bs[k].address] else []) + Stack(bs[k + 1..], c)
  {
    assert bs == bs[..k] + ([bs[k]] + bs[k + 1..]);
    assert ([bs[k]] + bs[k + 1..])[1..] == bs[k + 1..];
    StackAppend(bs[..k], [bs[k]] + bs[k + 1..], c);
  }

  /** search_binding for an associated binding of any kind finds the top. */
  lemma SearchFindsTop(bs: seq<Binding>, c: Client)
    ensures var k := Search(bs, c, STATIC_OR_DYNAMIC, ASSOCIATED);
            if k == |bs| then Stack(bs, c) == []
            else Stack(bs, c) == [bs[k].address] + Stack(bs[k + 1..], c) && Stack(bs[..k], c) == []
  {
    var k := Search(bs, c, STATIC_OR_DYNAMIC, ASSOCIATED);
    forall i | 0 <= i < k
      ensures !Active(bs[i], c)
    {
      SearchIsFirst(bs, c, STATIC_OR_DYNAMIC, ASSOCIATED, i);
    }
    if k == |bs| {
      StackOfStrangers(bs, c);
    } else {
      StackOfStrangers(bs[..k], c);
      StackAround(bs, k, c);
    }
  }

  /** On a list of dynamic bindings the search for dynamic ones is no other. */
  lemma {:induction false} SearchDynamic(bs: seq<Binding>, c: Client)
    requires forall i :: 0 <= i < |bs| ==> bs[i].isStatic == DYNAMIC
    ensures Search(bs, c, DYNAMIC, ASSOCIATED) == Search(bs, c, STATIC_OR_DYNAMIC, ASSOCIATED)
  {
    if bs != [] {
      SearchDynamic(bs[1..], c);
    }
  }

  lemma StackRemove(bs: seq<Binding>, k: nat, c: Client)
    requires k < |bs|
    ensures Stack(bs[..k] + bs[k + 1..], c) == Stack(bs[..k], c) + Stack(bs[k + 1..], c)
  {
    StackAppend(bs[..k], bs[k + 1..], c);
  }

  lemma StackRelease(bs: seq<Binding>, k: nat, b: Binding, c: Client)
    requires k < |bs| && b.status == RELEASED
    ensures Stack(bs[k := b], c) == Stack(bs[..k], c) + Stack(bs[k + 1..], c)
  {
    StackAround(bs[k := b], k, c);
    assert bs[k := b][..k] == bs[..k] && bs[k := b][k + 1..] == bs[k + 1..];
  }

  /** Maintenance leaves every client's stack alone, on any list whatever. */
  lemma {:induction false} MaintenanceKeepsStacks(bs: seq<Binding>, now: int, c: Client)
    ensures Stack(Maintain(bs, now), c) == Stack(bs, c)
  {
    MaintainKeepsSurvivors(bs, now);
    if bs != [] {
      MaintainKeepsSurvivors(bs[1..], now);
      MaintenanceKeepsStacks(bs[1..], now, c);
    }
  }

  // ----- A server of stacks

  datatype StackServer = StackServer(pool: Pool, dns: u32, stacks: map<Client, seq<u32>>)

  function StackOf(a: StackServer, c: Client): seq<u32> {
    if c in a.stacks then a.stacks[c] else []
  }

  function WithStack(a: StackServer, c: Client, stack: seq<u32>): StackServer {
    a.(stacks := a.stacks[c := stack])
  }

  /** A client hands back its newest address; any other address is ignored. */
  function GiveBack(a: StackServer, c: Client, ip: u32): (StackServer, bool) {
    var stack := StackOf(a, c);
    if stack != [] && stack[0] == ip then (WithStack(a, c, stack[1..]), true) else (a, false)
  }

  function Serve(a: StackServer, t: Task): (StackServer, Action) {
    var m, messageType := t.request, DispatchType(t);
    if messageType == TYPE_DISCOVER then
      if a.pool.current >= a.pool.last then (a, Silent)
      else
        var ip := a.pool.current + 1;
        var moved := a.(pool := a.pool.(current := ip));
        if t.mallocOk then
          (WithStack(moved, ClientOf(m), [ip] + StackOf(a, ClientOf(m))), Offered(ClientOf(m), ip))
        else (moved, OfferLost(ip))
    else if messageType == TYPE_REQUEST then
      var stack := StackOf(a, RequestKey(m));
      if stack == [] then (a, Silent) else (a.(dns := ACK_DNS), Acked(RequestKey(m), stack[0]))
    else if messageType == TYPE_DECLINE then
      var (after, taken) := GiveBack(a, ClientOf(m), m.yiaddr);
      (after, if taken then Declined(ClientOf(m), m.yiaddr) else Silent)
    else if messageType == TYPE_RELEASE then
      var (after, taken) := GiveBack(a, ClientOf(m), m.ciaddr);
      (after, if taken then Released(ClientOf(m), m.ciaddr) else Silent)
    else if messageType == TYPE_INFORM then (a, Informed(a.dns))
    else (a, if messageType == TYPE_NACK then Nacked else Silent)
  }

  function ServeEvent(a: StackServer, e: Event): (StackServer, Action) {
    match e
    case Datagram(t) => Serve(a, t)
    case Maintenance(_) => (a, Silent)
  }

  function InitialStacks(first: u32, last: u32, config: Config): StackServer {
    StackServer(Pool(first, last, first), config.dns, map[])
  }

  function RunStacks(a: StackServer, events: seq<Event>): (StackServer, seq<Action>)
    decreases events
  {
    if events == [] then (a, [])
    else
      var n := |events| - 1;
      var (before, actions) := RunStacks(a, events[..n]);
      var (after, action) := ServeEvent(before, events[n]);
      (after, actions + [action])
  }

  // ----- The simulation

  ghost predicate Simulates(s: Server, a: StackServer) {
    && s.pool == a.pool && s.config.dns == a.dns
    && forall c :: Stack(s.bindings, c) == StackOf(a, c)
  }

  lemma DiscoverSimulated(s: Server, a: StackServer, t: Task)
    requires Inv(s) && Simulates(s, a) && DispatchType(t) == TYPE_DISCOVER
    ensures Handle(s, t).Done?
    ensures Handle(s, t).action == Serve(a, t).1 && Simulates(Handle(s, t).server, Serve(a, t).0)
  {
    DiscoverOffersNext(s, t);
    var r := Handle(s, t);
    if r.action.Offered? {
      forall c
        ensures Stack(r.server.bindings, c) == StackOf(Serve(a, t).0, c)
      {
        var b := NewBinding(t, s.pool.current + 1, s.config);
        assert ([b] + s.bindings)[1..] == s.bindings;
      }
    }
  }

  lemma RequestSimulated(s: Server, a: StackServer, t: Task)
    requires Simulates(s, a) && DispatchType(t) == TYPE_REQUEST
    ensures Handle(s, t).Done?
    ensures Handle(s, t).action == Serve(a, t).1 && Simulates(Handle(s, t).server, Serve(a, t).0)
  {
    SearchFindsTop(s.bindings, RequestKey(t.request));
  }

  /** Removing or releasing the top of one stack leaves the others alone. */
  lemma TopGone(s: Server, c: Client, k: nat, other: Client)
    requires k < |s.bindings| && k == Search(s.bindings, c, STATIC_OR_DYNAMIC, ASSOCIATED)
    ensures Stack(s.bindings, other) ==
            (if other == c then [s.bindings[k].address] else [])
            + (Stack(s.bindings[..k], other) + Stack(s.bindings[k + 1..], other))
  {
    SearchFindsTop(s.bindings, c);
    StackAround(s.bindings, k, other);
  }

  lemma DeclineSimulated(s: Server, a: StackServer, t: Task)
    requires Inv(s) && Simulates(s, a) && DispatchType(t) == TYPE_DECLINE
    ensures Handle(s, t).Done?
    ensures Handle(s, t).action == Serve(a, t).1 && Simulates(Handle(s, t).server, Serve(a, t).0)
  {
    var c := ClientOf(t.request);
    SearchDynamic(s.bindings, c);
    SearchFindsTop(s.bindings, c);
    var r, k := Handle(s, t), Search(s.bindings, c, DYNAMIC, ASSOCIATED);
    if r.action != Silent {
      forall other
        ensures Stack(r.server.bindings, other) == StackOf(Serve(a, t).0, other)
      {
        StackRemove(s.bindings, k, other);
        TopGone(s, c, k, other);
      }
    }
  }

  lemma ReleaseSimulated(s: Server, a: StackServer, t: Task)
    requires Simulates(s, a) && DispatchType(t) == TYPE_RELEASE
    ensures Handle(s, t).Done?
    ensures Handle(s, t).action == Serve(a, t).1 && Simulates(Handle(s, t).server, Serve(a, t).0)
  {
    var c := ClientOf(t.request);
    SearchFindsTop(s.bindings, c);
    var r, k := Handle(s, t), Search(s.bindings, c, STATIC_OR_DYNAMIC, ASSOCIATED);
    if r.action != Silent {
      forall other
        ensures Stack(r.server.bindings, other) == StackOf(Serve(a, t).0, other)
      {
        StackRelease(s.bindings, k, r.server.bindings[k], other);
        TopGone(s, c, k, other);
      }
    }
  }

  lemma EventSimulated(s: Server, a: StackServer, e: Event)
    requires Inv(s) && Simulates(s, a)
    ensures React(s, e).Done?
    ensures React(s, e).action == ServeEvent(a, e).1 && Simulates(React(s, e).server, ServeEvent(a, e).0)
  {
    match e
    case Maintenance(now) =>
      forall c
        ensures Stack(Maintain(s.bindings, now), c) == Stack(s.bindings, c)
      {
        MaintenanceKeepsStacks(s.bindings, now, c);
      }
    case Datagram(t) =>
      var messageType := DispatchType(t);
      if messageType == TYPE_DISCOVER {
        DiscoverSimulated(s, a, t);
      } else if messageType == TYPE_REQUEST {
        RequestSimulated(s, a, t);
      } else if messageType == TYPE_DECLINE {
        DeclineSimulated(s, a, t);
      } else if messageType == TYPE_RELEASE {
        ReleaseSimulated(s, a, t);
      }
  }

  /** An action, and what it has made of the stack `before` of client `c`: an offer
      to `c` is pushed, its newest address is popped by a decline or release, and
      no action on behalf of another client shows. */
  predicate StackMoves(before: seq<u32>, act: Action, c: Client, after: seq<u32>) {
    if act.Offered? && act.client == c then after == [act.ip] + before
    else if (act.Declined? || act.Released?) && act.client == c then before == [act.ip] + after
    else after == before
  }

  lemma ServeMovesStack(a: StackServer, e: Event, c: Client)
    ensures var (after, act) := ServeEvent(a, e); StackMoves(StackOf(a, c), act, c, StackOf(after, c))
  {
  }

  /** An offered address is pushed when its binding is entered. */
  lemma EntryMovesStack(bs: seq<Binding>, b: Binding, c: Client)
    requires b.status == ASSOCIATED
    ensures StackMoves(Stack(bs, c), Offered(b.cident, b.address), c, Stack([b] + bs, c))
  {
    assert ([b] + bs)[1..] == bs;
  }

  /** Each event moves the stacks of the binding list like that. */
  lemma ReactMovesStack(s: Server, a: StackServer, e: Event, c: Client)
    requires Inv(s) && Simulates(s, a)
    ensures React(s, e).Done?
    ensures StackMoves(Stack(s.bindings, c), React(s, e).action, c, Stack(React(s, e).server.bindings, c))
  {
    EventSimulated(s, a, e);
    ServeMovesStack(a, e, c);
  }

  /** Over every run, with maintenance at any point, the server of bindings and
      the server of stacks do the same, event by event. */
  lemma {:induction false} RunSimulated(first: u32, last: u32, config: Config, events: seq<Event>)
    ensures var r := Run(Initial(first, last, config), events);
            var (a, actions) := RunStacks(InitialStacks(first, last, config), events);
            r.Ran? && r.actions == actions && Simulates(r.server, a)
    decreases events
  {
    if events != [] {
      var n := |events| - 1;
      RunSimulated(first, last, config, events[..n]);
      EveryRunCompletes(first, last, config, events[..n]);
      var before := Run(Initial(first, last, config), events[..n]).server;
      EventSimulated(before, RunStacks(InitialStacks(first, last, config), events[..n]).0, events[n]);
    }
  }
}
