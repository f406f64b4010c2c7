/** Tasks leave the queue in the order in which they arrived, but two workers do not
    finish them in that order: a REQUEST can be handled before the DISCOVER it
    follows. */
module ThreadOvertaking {
  import opened Words
  import opened Bindings
  import opened Leases
  import opened Replies
  import opened Samples
  import opened ClientView
  import opened Threads
  import opened ThreadOrder
  import opened ThreadSequential
  import opened ThreadRuns

  /** In every reachable state what was handled is what arrived first, in that order. */
  ghost predicate HandledInOrder(n: nat, first: u32, last: u32, config: Config) {
    forall s :: Reachable(n, first, last, config, s) ==> TasksOf(s.handled) <= s.arrived
  }

  /** DISCOVER and REQUEST by the same client, with six bytes of hardware address. */
  ghost function TwoMessages(): seq<Task> {
    [Sample(TYPE_DISCOVER, 6, 0), Sample(TYPE_REQUEST, 6, 0)]
  }

  /** Handled in order of arrival, the REQUEST is answered with the offered address. */
  lemma InOrderIsAcked(first: u32, last: u32, config: Config)
    requires first < last
    ensures var r := Run(Initial(first, last, config), Datagrams(TwoMessages()));
            r.Ran? && r.actions == [Offered(Zeros(6), first + 1), Acked(Zeros(6), first + 1)]
  {
    var d, t := TwoMessages()[0], TwoMessages()[1];
    assert Zeros(16)[..6] == Zeros(6);
    AfterFirstOffer(first, last, config, d, t);
    assert Matches(NewBinding(d, first + 1, config), RequestKey(t.request), STATIC_OR_DYNAMIC, ASSOCIATED);
    assert Datagrams(TwoMessages()) == [Datagram(d), Datagram(t)];
  }

  /** Two workers can leave it without an answer. */
  lemma OvertakenReached(n: nat, first: u32, last: u32, config: Config) returns (s: System)
    requires n >= 2
    ensures Reachable(n, first, last, config, s) && |s.workers| == n
    ensures s.arrived == TwoMessages() && s.workers[0] == Handling(TwoMessages()[0])
    ensures TasksOf(s.handled) == [TwoMessages()[1]] && ActionsOf(s.handled) == [Silent]
  {
    var s0 := Start(n, first, last, config);
    var d, t := TwoMessages()[0], TwoMessages()[1];
    Here(s0);
    var a := Delivered(s0, s0, 0, d);
    var b := Delivered(s0, a, 1, t);
    assert LookUp(b.server, t) == |b.server.bindings|;
    Onward(s0, b, Work(1));
    s := Next(b, Work(1));
    assert Reachable(n, first, last, config, s);
  }

  lemma {:induction false} NobodyHandles(s: System, steps: seq<Step>)
    requires |s.workers| == 0 && s.handled == [] && Possible(s, steps)
    ensures After(s, steps).handled == []
    decreases steps
  {
    if steps != [] {
      NobodyHandles(Next(s, steps[0]), steps[1..]);
    }
  }

  /** Datagrams are handled in the order in which they arrive exactly when there is one
      worker at most. */
  lemma HandledInOrderIff(n: nat, first: u32, last: u32, config: Config)
    ensures HandledInOrder(n, first, last, config) <==> n <= 1
  {
    var s0 := Start(n, first, last, config);
    if n <= 1 {
      forall s | Reachable(n, first, last, config, s)
        ensures TasksOf(s.handled) <= s.arrived
      {
        var steps :| Possible(s0, steps) && After(s0, steps) == s;
        if n == 1 {
          OneWorkerIsSequential(first, last, config, steps);
        } else {
          NobodyHandles(s0, steps);
        }
      }
    } else {
      var s := OvertakenReached(n, first, last, config);
      assert TasksOf(s.handled)[0] != s.arrived[0];
    }
  }
}
