/** What a client can tell from the record of a whole run: which offers are still
    outstanding, that an ACK confirms the latest of them, and that no address is
    ever offered twice. */
module LeaseHistory {
  import opened Words
  import opened Bindings
  import opened Leases
  import opened LeaseInvariant
  import opened ClientStacks

  predicate GivesBack(a: Action, c: Client, ip: u32) {
    a == Declined(c, ip) || a == Released(c, ip)
  }

  /** Action `i` is an offer that was not declined or released later on. */
  ghost predicate Outstanding(acts: seq<Action>, i: nat) {
    && i < |acts| && acts[i].Offered?
    && forall j :: i < j < |acts| ==> !GivesBack(acts[j], acts[i].client, acts[i].ip)
  }

  /** The outstanding offers to `c` among the first `n` actions, newest first. */
  ghost function OutstandingTo(acts: seq<Action>, c: Client, n: nat): seq<u32>
    requires n <= |acts|
  {
    if n == 0 then []
    else if Outstanding(acts, n - 1) && acts[n - 1].client == c then
      [acts[n - 1].ip] + OutstandingTo(acts, c, n - 1)
    else OutstandingTo(acts, c, n - 1)
  }

  /** `s` without any occurrence of `ip`. */
  function Drop(s: seq<u32>, ip: u32): seq<u32> {
    if s == [] then []
    else if s[0] == ip then Drop(s[1..], ip)
    else [s[0]] + Drop(s[1..], ip)
  }

  lemma {:induction false} DropAbsent(s: seq<u32>, ip: u32)
    requires ip !in s
    ensures Drop(s, ip) == s
  {
    if s != [] {
      DropAbsent(s[1..], ip);
    }
  }

  lemma DropCons(x: u32, s: seq<u32>, ip: u32)
    ensures Drop([x] + s, ip) == if x == ip then Drop(s, ip) else [x] + Drop(s, ip)
  {
  }

  /** How one more action changes what is outstanding. */
  lemma {:induction false} OutstandingAfter(acts: seq<Action>, a: Action, c: Client, n: nat)
    requires n <= |acts|
    ensures OutstandingTo(acts + [a], c, n) ==
            if (a.Declined? || a.Released?) && a.client == c then Drop(OutstandingTo(acts, c, n), a.ip)
            else OutstandingTo(acts, c, n)
  {
    if n > 0 {
      OutstandingAfter(acts, a, c, n - 1);
      OutstandingSnoc(acts, a, n - 1);
      if acts[n - 1].Offered? && (a.Declined? || a.Released?) {
        DropCons(acts[n - 1].ip, OutstandingTo(acts, c, n - 1), a.ip);
      }
    }
  }

  lemma OutstandingSnoc(acts: seq<Action>, a: Action, i: nat)
    requires i < |acts|
    ensures Outstanding(acts + [a], i) <==>
            Outstanding(acts, i) && !GivesBack(a, acts[i].client, acts[i].ip)
  {
    var longer := acts + [a];
    if Outstanding(longer, i) {
      assert longer[|acts|] == a;
      forall j | i < j < |acts|
        ensures !GivesBack(acts[j], acts[i].client, acts[i].ip)
      {
        assert longer[j] == acts[j];
      }
    }
  }

  // ----- Stacks are outstanding offers

  /** No address stands in a stack twice. */
  lemma {:induction false} StackAvoids(bs: seq<Binding>, c: Client, ip: u32)
    requires forall i :: 0 <= i < |bs| ==> bs[i].address != ip
    ensures ip !in Stack(bs, c)
  {
    if bs != [] {
      StackAvoids(bs[1..], c, ip);
    }
  }

  lemma {:induction false} TopNotBelow(bs: seq<Binding>, c: Client)
    requires Distinct(bs) && Stack(bs, c) != []
    ensures Stack(bs, c)[0] !in Stack(bs, c)[1..]
  {
    if Active(bs[0], c) {
      StackAvoids(bs[1..], c, bs[0].address);
    } else {
      TopNotBelow(bs[1..], c);
    }
  }

  /** The whole-run meaning of the binding list: every client's stack holds its
      outstanding offers, newest first. */
  lemma {:induction false} StacksAreOutstandingOffers(first: u32, last: u32, config: Config,
                                                      events: seq<Event>, c: Client)
    ensures var r := Run(Initial(first, last, config), events);
            r.Ran? && Stack(r.server.bindings, c) == OutstandingTo(r.actions, c, |r.actions|)
    decreases events
  {
    if events != [] {
      var n := |events| - 1;
      StacksAreOutstandingOffers(first, last, config, events[..n], c);
      EveryRunCompletes(first, last, config, events[..n]);
      RunSimulated(first, last, config, events[..n]);
      var before := Run(Initial(first, last, config), events[..n]);
      var a := RunStacks(InitialStacks(first, last, config), events[..n]).0;
      StackFollowsHistory(before.server, a, events[n], before.actions, c);
    }
  }

  lemma StackFollowsHistory(s: Server, a: StackServer, e: Event, acts: seq<Action>, c: Client)
    requires Inv(s) && Simulates(s, a)
    requires Stack(s.bindings, c) == OutstandingTo(acts, c, |acts|)
    ensures React(s, e).Done?
    ensures var r := React(s, e);
            Stack(r.server.bindings, c) == OutstandingTo(acts + [r.action], c, |acts| + 1)
  {
    ReactMovesStack(s, a, e, c);
    var act := React(s, e).action;
    if Stack(s.bindings, c) != [] {
      TopNotBelow(s.bindings, c);
    }
    HistoryMoves(acts, act, c, Stack(React(s, e).server.bindings, c));
  }

  /** What an action makes of the offers outstanding to `c`. */
  function Moved(before: seq<u32>, a: Action, c: Client): seq<u32> {
    if a.Offered? && a.client == c then [a.ip] + before
    else if (a.Declined? || a.Released?) && a.client == c then Drop(before, a.ip)
    else before
  }

  lemma OutstandingMoves(acts: seq<Action>, a: Action, c: Client)
    ensures OutstandingTo(acts + [a], c, |acts| + 1) == Moved(OutstandingTo(acts, c, |acts|), a, c)
  {
    OutstandingAfter(acts, a, c, |acts|);
    NewestOutstanding(acts, a, c);
  }

  /** The record moves as the stack does, when no address stands in it twice. */
  lemma HistoryMoves(acts: seq<Action>, a: Action, c: Client, after: seq<u32>)
    requires StackMoves(OutstandingTo(acts, c, |acts|), a, c, after)
    requires var before := OutstandingTo(acts, c, |acts|); before != [] ==> before[0] !in before[1..]
    ensures after == OutstandingTo(acts + [a], c, |acts| + 1)
  {
    OutstandingMoves(acts, a, c);
    if (a.Declined? || a.Released?) && a.client == c {
      var before := OutstandingTo(acts, c, |acts|);
      assert before[1..] == after;
      DropAbsent(after, a.ip);
    }
  }

  lemma NewestOutstanding(acts: seq<Action>, a: Action, c: Client)
    ensures OutstandingTo(acts + [a], c, |acts| + 1) ==
            (if a.Offered? && a.client == c then [a.ip] else []) + OutstandingTo(acts + [a], c, |acts|)
  {
  }

  // ----- Going on with any binding of the list, not only with the top of a stack

  lemma {:induction false} DropAppend(s: seq<u32>, t: seq<u32>, ip: u32)
    ensures Drop(s + t, ip) == Drop(s, ip) + Drop(t, ip)
  {
    if s == [] {
      assert s + t == t;
    } else {
      assert (s + t)[1..] == s[1..] + t;
      DropAppend(s[1..], t, ip);
    }
  }

  lemma DropMiddle(front: seq<u32>, top: seq<u32>, back: seq<u32>, ip: u32)
    requires ip !in front && ip !in back && (top == [] || top == [ip])
    ensures Drop(front + top + back, ip) == front + back
  {
    DropAppend(front + top, back, ip);
    DropAbsent(back, ip);
    assert Drop(front + top, ip) == front by {
      DropAppend(front, top, ip);
      DropAbsent(front, ip);
      assert Drop(top, ip) == [];
      assert front + [] == front;
    }
  }

  /** A binding that is not the client's any more leaves the client's stack without its
      address, wherever that stood. */
  lemma StackWithout(bs: seq<Binding>, k: nat, c: Client)
    requires Distinct(bs) && k < |bs|
    ensures Stack(bs[..k], c) + Stack(bs[k + 1..], c) ==
            if bs[k].cident == c then Drop(Stack(bs, c), bs[k].address) else Stack(bs, c)
  {
    StackAround(bs, k, c);
    if bs[k].cident == c {
      var ip := bs[k].address;
      StackAvoids(bs[..k], c, ip);
      StackAvoids(bs[k + 1..], c, ip);
      DropMiddle(Stack(bs[..k], c), if Active(bs[k], c) then [ip] else [], Stack(bs[k + 1..], c), ip);
    }
  }

  lemma GoingOnMovesStack(s: Server, t: Task, k: nat, c: Client)
    requires Distinct(s.bindings) && LooksUp(t) && k < |s.bindings| && s.bindings[k].cident == KeyOf(t)
    ensures var r := GoOnWith(s, t, k);
            r.Done? && Stack(r.server.bindings, c) == Moved(Stack(s.bindings, c), r.action, c)
  {
    var r := GoOnWith(s, t, k);
    StackWithout(s.bindings, k, c);
    if r.action.Declined? {
      StackRemove(s.bindings, k, c);
    } else if r.action.Released? {
      StackRelease(s.bindings, k, r.server.bindings[k], c);
    }
  }

  // ----- Runs, cut at a point

  /** Event `k` takes the state the run has reached to the next one. */
  ghost predicate StepsAt(s0: Server, events: seq<Event>, k: nat)
    requires k < |events|
  {
    var p, q := Run(s0, events[..k]), Run(s0, events[..k + 1]);
    && p.Ran? && q.Ran? && Inv(p.server)
    && var step := React(p.server, events[k]);
       step.Done? && q == Ran(step.server, p.actions + [step.action])
  }

  lemma RunSteps(first: u32, last: u32, config: Config, events: seq<Event>, k: nat)
    requires k < |events|
    ensures StepsAt(Initial(first, last, config), events, k)
  {
    EveryRunCompletes(first, last, config, events[..k]);
    EveryRunCompletes(first, last, config, events[..k + 1]);
    assert events[..k + 1][..k] == events[..k];
  }

  /** Cutting a run short cuts its record short. */
  lemma {:induction false} RunCut(first: u32, last: u32, config: Config, events: seq<Event>, k: nat)
    requires k <= |events|
    ensures var r, p := Run(Initial(first, last, config), events), Run(Initial(first, last, config), events[..k]);
            r.Ran? && p.Ran? && |r.actions| == |events| && p.actions == r.actions[..k]
    decreases events
  {
    EveryRunCompletes(first, last, config, events);
    if k == |events| {
      assert events[..k] == events;
    } else {
      var n := |events| - 1;
      assert events[..n][..k] == events[..k];
      RunCut(first, last, config, events[..n], k);
    }
  }

  /** Both at once, for an event in the middle of a run. */
  lemma RunPrefix(first: u32, last: u32, config: Config, events: seq<Event>, k: nat)
    requires k < |events|
    ensures var r, p := Run(Initial(first, last, config), events), Run(Initial(first, last, config), events[..k]);
            && r.Ran? && p.Ran? && |r.actions| == |events| && p.actions == r.actions[..k]
            && Inv(p.server) && React(p.server, events[k]).Done?
            && React(p.server, events[k]).action == r.actions[k]
  {
    RunSteps(first, last, config, events, k);
    RunCut(first, last, config, events, k);
    RunCut(first, last, config, events, k + 1);
    EveryRunCompletes(first, last, config, events[..k]);
    var acts := Run(Initial(first, last, config), events).actions;
    assert acts[..k + 1][k] == acts[k];
  }

  // ----- Offers

  /** Offers, lost ones included, use the pool's addresses behind the first one
      in order: their number is how far the cursor has come. */
  function OffersMade(acts: seq<Action>): nat {
    if acts == [] then 0
    else OffersMade(acts[..|acts| - 1]) + if IsOffer(acts[|acts| - 1]) then 1 else 0
  }

  lemma {:induction false} CursorCountsOffers(first: u32, last: u32, config: Config, events: seq<Event>)
    ensures var r := Run(Initial(first, last, config), events);
            r.Ran? && r.server.pool.current == first + OffersMade(r.actions)
    decreases events
  {
    if events != [] {
      var n := |events| - 1;
      CursorCountsOffers(first, last, config, events[..n]);
      RunSteps(first, last, config, events, n);
      assert events[..n + 1] == events;
      var before := Run(Initial(first, last, config), events[..n]);
      PoolStays(before.server, events[n]);
      assert (before.actions + [React(before.server, events[n]).action])[..|before.actions|] == before.actions;
    }
  }

  lemma {:induction false} OffersMadeMonotone(acts: seq<Action>, j: nat, k: nat)
    requires j <= k <= |acts|
    ensures OffersMade(acts[..j]) <= OffersMade(acts[..k])
    ensures forall i :: j <= i < k && IsOffer(acts[i]) ==> OffersMade(acts[..j]) < OffersMade(acts[..k])
    decreases k
  {
    if j < k {
      assert acts[..k][..k - 1] == acts[..k - 1];
      OffersMadeMonotone(acts, j, k - 1);
    }
  }

  /** The n-th offer is the n-th address. */
  lemma OfferIsNext(first: u32, last: u32, config: Config, events: seq<Event>, k: nat)
    requires var r := Run(Initial(first, last, config), events);
             r.Ran? && k < |r.actions| && IsOffer(r.actions[k])
    ensures var acts := Run(Initial(first, last, config), events).actions;
            OfferIp(acts[k]) == first + OffersMade(acts[..k]) + 1 <= last
  {
    EveryRunCompletes(first, last, config, events);
    RunPrefix(first, last, config, events, k);
    CursorCountsOffers(first, last, config, events[..k]);
    var before := Run(Initial(first, last, config), events[..k]).server;
    EveryRunCompletes(first, last, config, events[..k]);
    PoolStays(before, events[k]);
  }

  /** Offered addresses are strictly increasing over a run, inside the pool and
      never its first address: none is offered twice, to anybody. */
  lemma OffersIncrease(first: u32, last: u32, config: Config, events: seq<Event>, j: nat, k: nat)
    requires var r := Run(Initial(first, last, config), events);
             r.Ran? && j < k < |r.actions| && IsOffer(r.actions[j]) && IsOffer(r.actions[k])
    ensures var acts := Run(Initial(first, last, config), events).actions;
            first < OfferIp(acts[j]) < OfferIp(acts[k]) <= last
  {
    var acts := Run(Initial(first, last, config), events).actions;
    OfferIsNext(first, last, config, events, j);
    OfferIsNext(first, last, config, events, k);
    OffersMadeMonotone(acts, j, k);
  }

  /** Once the last address is out nothing is offered any more, however many
      addresses are declined or released. */
  lemma ExhaustedForGood(first: u32, last: u32, config: Config, events: seq<Event>, j: nat, k: nat)
    requires j <= k < |events|
    requires var p := Run(Initial(first, last, config), events[..j]);
             p.Ran? && p.server.pool.current >= last
    ensures var r := Run(Initial(first, last, config), events);
            r.Ran? && k < |r.actions| && !IsOffer(r.actions[k])
  {
    EveryRunCompletes(first, last, config, events);
    var acts := Run(Initial(first, last, config), events).actions;
    if IsOffer(acts[k]) {
      OfferIsNext(first, last, config, events, k);
      RunCut(first, last, config, events, j);
      CursorCountsOffers(first, last, config, events[..j]);
      OffersMadeMonotone(acts, j, k);
      assert false;
    }
  }

  // ----- ACK, DECLINE and RELEASE, seen from the record

  /** The latest outstanding offer to a client before event `k`. */
  ghost predicate LatestOffer(acts: seq<Action>, c: Client, ip: u32, i: nat, k: nat) {
    && i < k <= |acts| && acts[i] == Offered(c, ip)
    && Outstanding(acts[..k], i)
    && forall j :: i < j < k && acts[j].Offered? && acts[j].client == c ==> !Outstanding(acts[..k], j)
  }

  lemma {:induction false} HeadIsLatest(acts: seq<Action>, c: Client, n: nat) returns (i: nat)
    requires n <= |acts| && OutstandingTo(acts, c, n) != []
    ensures i < n && acts[i] == Offered(c, OutstandingTo(acts, c, n)[0]) && Outstanding(acts, i)
    ensures forall j :: i < j < n && acts[j].Offered? && acts[j].client == c ==> !Outstanding(acts, j)
  {
    if Outstanding(acts, n - 1) && acts[n - 1].client == c {
      i := n - 1;
    } else {
      i := HeadIsLatest(acts, c, n - 1);
    }
  }

  lemma {:induction false} NothingOutstanding(acts: seq<Action>, c: Client, n: nat, i: nat)
    requires i < n <= |acts| && Outstanding(acts, i) && acts[i].client == c
    ensures OutstandingTo(acts, c, n) != []
    decreases n
  {
    if i < n - 1 {
      NothingOutstanding(acts, c, n - 1, i);
    }
  }

  /** The address a datagram of type REQUEST, DECLINE or RELEASE is matched
      against is the latest outstanding offer of its client. */
  lemma TopIsLatestOffer(first: u32, last: u32, config: Config, events: seq<Event>, k: nat, c: Client)
    returns (i: nat)
    requires k < |events|
    ensures var r, p := Run(Initial(first, last, config), events), Run(Initial(first, last, config), events[..k]);
            && r.Ran? && p.Ran? && |r.actions| == |events|
            && var stack := Stack(p.server.bindings, c);
               (stack != [] ==> LatestOffer(r.actions, c, stack[0], i, k))
               && (stack == [] <==>
                   forall j :: 0 <= j < k && Outstanding(r.actions[..k], j) ==> r.actions[j].client != c)
  {
    RunPrefix(first, last, config, events, k);
    StacksAreOutstandingOffers(first, last, config, events[..k], c);
    var acts := Run(Initial(first, last, config), events).actions[..k];
    i := 0;
    if OutstandingTo(acts, c, k) != [] {
      i := HeadIsLatest(acts, c, k);
    } else {
      forall j | 0 <= j < k && Outstanding(acts, j)
        ensures acts[j].client != c
      {
        if acts[j].client == c {
          NothingOutstanding(acts, c, k, j);
        }
      }
    }
  }

  /** Every ACK confirms the latest outstanding offer made to the six bytes of
      hardware address it answers, and that address was offered only once. */
  lemma AckConfirmsLatestOffer(first: u32, last: u32, config: Config, events: seq<Event>, k: nat)
    returns (i: nat)
    requires var r := Run(Initial(first, last, config), events);
             r.Ran? && k < |r.actions| && r.actions[k].Acked?
    ensures var acts := Run(Initial(first, last, config), events).actions;
            && |acts[k].client| == 6
            && LatestOffer(acts, acts[k].client, acts[k].ip, i, k)
            && forall j :: 0 <= j < |acts| && IsOffer(acts[j]) && OfferIp(acts[j]) == acts[k].ip ==> j == i
  {
    EveryRunCompletes(first, last, config, events);
    RunPrefix(first, last, config, events, k);
    var acts := Run(Initial(first, last, config), events).actions;
    var before := Run(Initial(first, last, config), events[..k]).server;
    AckedTop(before, events[k].task);
    i := TopIsLatestOffer(first, last, config, events, k, acts[k].client);
    forall j | 0 <= j < |acts| && IsOffer(acts[j]) && OfferIp(acts[j]) == acts[k].ip
      ensures j == i
    {
      if j < i {
        OffersIncrease(first, last, config, events, j, i);
      } else if i < j {
        OffersIncrease(first, last, config, events, i, j);
      }
    }
  }

  /** A REQUEST is answered exactly when some offer to its six bytes of hardware address
      is outstanding. */
  lemma AnsweredIffOutstanding(first: u32, last: u32, config: Config, events: seq<Event>, k: nat)
    requires k < |events| && events[k].Datagram? && DispatchType(events[k].task) == TYPE_REQUEST
    ensures var r := Run(Initial(first, last, config), events);
            var c := RequestKey(events[k].task.request);
            && r.Ran? && k < |r.actions|
            && (r.actions[k].Acked? || r.actions[k] == Silent)
            && (r.actions[k].Acked? <==>
                exists i :: 0 <= i < k && Outstanding(r.actions[..k], i) && r.actions[i].client == c)
  {
    RunPrefix(first, last, config, events, k);
    var p := Run(Initial(first, last, config), events[..k]);
    var c := RequestKey(events[k].task.request);
    SearchFindsTop(p.server.bindings, c);
    var i := TopIsLatestOffer(first, last, config, events, k, c);
  }

  lemma AckedTop(s: Server, t: Task)
    requires Handle(s, t).Done? && Handle(s, t).action.Acked?
    ensures var a := Handle(s, t).action;
            |a.client| == 6 && Stack(s.bindings, a.client) != [] && Stack(s.bindings, a.client)[0] == a.ip
  {
    SearchFindsTop(s.bindings, RequestKey(t.request));
  }

  /** A DECLINE (as the dispatch knows it) or RELEASE takes effect exactly when it
      names the latest outstanding offer to its client. */
  lemma GivenBackIffLatest(first: u32, last: u32, config: Config, events: seq<Event>, k: nat)
    requires k < |events| && events[k].Datagram?
    requires DispatchType(events[k].task) == TYPE_DECLINE || DispatchType(events[k].task) == TYPE_RELEASE
    ensures var r := Run(Initial(first, last, config), events);
            var t := events[k].task;
            var c, decline := ClientOf(t.request), DispatchType(t) == TYPE_DECLINE;
            var ip := if decline then t.request.yiaddr else t.request.ciaddr;
            && r.Ran? && k < |r.actions|
            && r.actions[k] ==
               if exists i :: LatestOffer(r.actions, c, ip, i, k) then
                 if decline then Declined(c, ip) else Released(c, ip)
               else Silent
  {
    RunPrefix(first, last, config, events, k);
    RunSimulated(first, last, config, events[..k]);
    var r, p := Run(Initial(first, last, config), events), Run(Initial(first, last, config), events[..k]);
    var t := events[k].task;
    var c := ClientOf(t.request);
    var ip := if DispatchType(t) == TYPE_DECLINE then t.request.yiaddr else t.request.ciaddr;
    EventSimulated(p.server, RunStacks(InitialStacks(first, last, config), events[..k]).0, events[k]);
    var stack := Stack(p.server.bindings, c);
    var top := TopIsLatestOffer(first, last, config, events, k, c);
    if i: nat :| LatestOffer(r.actions, c, ip, i, k) {
      assert Outstanding(r.actions[..k], i);
      assert stack != [];
      LatestIsUnique(r.actions, c, ip, stack[0], i, top, k);
    }
  }

  lemma LatestIsUnique(acts: seq<Action>, c: Client, ip: u32, other: u32, i: nat, j: nat, k: nat)
    requires LatestOffer(acts, c, ip, i, k) && LatestOffer(acts, c, other, j, k)
    ensures i == j && ip == other
  {
  }
}
