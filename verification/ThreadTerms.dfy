/** Replies, configuration and leases under any number of workers, on any pool and in
    any interleaving: what LeaseTerms says of sequential runs, said of the record. */
module ThreadTerms {
  import opened Words
  import opened Leases
  import opened ReplyContents
  import opened Dispatch
  import opened LeaseTerms
  import opened Threads
  import opened ThreadOrder
  import opened ThreadBindings
  import opened ThreadHistory

  // ----- Configuration

  /** What was said of the DNS server is what the ACKs before it have made of it. */
  ghost predicate InformsRight(acts: seq<Action>, config: Config) {
    forall k :: 0 <= k < |acts| && acts[k].Informed? ==> acts[k].dns == ConfigAfter(config, acts[..k]).dns
  }

  ghost predicate Configured(s: System, config: Config) {
    s.server.config == ConfigAfter(config, ActionsOf(s.handled)) && InformsRight(ActionsOf(s.handled), config)
  }

  /** A worker records one action at most, and the configuration follows it. */
  ghost predicate Configures(s: System, s': System) {
    || (s'.handled == s.handled && s'.server.config == s.server.config)
    || exists e: Entry :: RecordsAs(s, s', e)
  }

  ghost predicate RecordsAs(s: System, s': System, e: Entry) {
    && s'.handled == s.handled + [e] && (e.action.Informed? ==> e.action.dns == s.server.config.dns)
    && s'.server.config == if e.action.Acked? then
                             Config(s.server.config.maxLeaseTime, s.server.config.router, 0xFFFF_FF00, 0x0808_0808)
                           else s.server.config
  }

  lemma DispatchConfigures(s: System, w: nat)
    requires CanWork(s, w) && s.workers[w].Handling?
    ensures Configures(s, Worked(s, w))
  {
    var s' := Worked(s, w);
    if s'.handled != s.handled {
      assert RecordsAs(s, s', s'.handled[|s.handled|]);
    }
  }

  lemma UseConfigures(s: System, w: nat)
    requires CanWork(s, w) && s.workers[w].Using?
    ensures Configures(s, Worked(s, w))
  {
    assert RecordsAs(s, Worked(s, w), Worked(s, w).handled[|s.handled|]);
  }

  lemma WorkConfigures(s: System, w: nat)
    requires CanWork(s, w)
    ensures Configures(s, Worked(s, w))
  {
    var s' := Worked(s, w);
    if s.workers[w].Handling? {
      DispatchConfigures(s, w);
    } else if s.workers[w].Using? {
      UseConfigures(s, w);
    } else if s'.handled != s.handled {
      assert RecordsAs(s, s', s'.handled[|s.handled|]);
    }
  }

  lemma ConfiguredSnoc(config: Config, acts: seq<Action>, a: Action)
    requires InformsRight(acts, config) && (a.Informed? ==> a.dns == ConfigAfter(config, acts).dns)
    ensures InformsRight(acts + [a], config)
  {
    var longer := acts + [a];
    forall k | 0 <= k < |longer| && longer[k].Informed?
      ensures longer[k].dns == ConfigAfter(config, longer[..k]).dns
    {
      assert longer[..k] == acts[..k];
      assert acts[..|acts|] == acts;
    }
  }

  lemma WorkKeepsConfigured(s: System, w: nat, config: Config)
    requires Configured(s, config) && CanWork(s, w)
    ensures Configured(Worked(s, w), config)
  {
    var s' := Worked(s, w);
    WorkConfigures(s, w);
    if e: Entry :| RecordsAs(s, s', e) {
      TasksOfSnoc(s.handled, e);
      ConfiguredSnoc(config, ActionsOf(s.handled), e.action);
      ConfigAfterSnoc(config, ActionsOf(s.handled), e.action);
    }
  }

  lemma {:induction false} ConfiguredForGood(s: System, config: Config, steps: seq<Step>)
    requires Configured(s, config) && Possible(s, steps)
    ensures Configured(After(s, steps), config)
    decreases steps
  {
    if steps != [] {
      if steps[0].Work? {
        WorkKeepsConfigured(s, steps[0].w, config);
      }
      ConfiguredForGood(Next(s, steps[0]), config, steps[1..]);
    }
  }

  // ----- Leases

  /** A worker that is on its way through the pool handles a DISCOVER. */
  predicate HoldsDiscover(at: Worker) {
    at.Checked? || at.Scanning? || at.Offering? ==> WasRead(at.t) && ScannedType(at.t) == 1
  }

  ghost predicate Leased(s: System, maxLeaseTime: int) {
    && s.server.config.maxLeaseTime == maxLeaseTime
    && (forall w :: 0 <= w < |s.workers| ==> HoldsDiscover(s.workers[w]))
    && |s.origins| == |s.server.bindings|
    && forall j :: 0 <= j < |s.origins| ==>
                     && s.origins[j] < |s.handled|
                     && LeaseOf(s.handled[s.origins[j]].task, maxLeaseTime, s.server.bindings[j])
  }

  /** A step that leaves the list as it is. */
  lemma SameListLeased(s: System, w: nat, s': System, maxLeaseTime: int)
    requires Leased(s, maxLeaseTime) && w < |s.workers| && |s'.workers| == |s.workers|
    requires s'.workers == s.workers[w := s'.workers[w]] && HoldsDiscover(s'.workers[w])
    requires s'.server.config.maxLeaseTime == maxLeaseTime
    requires s'.server.bindings == s.server.bindings && s'.origins == s.origins && s.handled <= s'.handled
    ensures Leased(s', maxLeaseTime)
  {
  }

  lemma RecordLeases(s: System, w: nat, maxLeaseTime: int)
    requires Leased(s, maxLeaseTime) && CanWork(s, w) && s.workers[w].Offering?
    ensures Leased(Worked(s, w), maxLeaseTime)
  {
    var s', at := Worked(s, w), s.workers[w];
    assert HoldsDiscover(at);
    if at.t.mallocOk {
      assert s'.handled[|s.handled|].task == at.t;
      assert LeaseOf(at.t, maxLeaseTime, s'.server.bindings[0]);
      forall j | 0 <= j < |s'.origins|
        ensures s'.origins[j] < |s'.handled|
        ensures LeaseOf(s'.handled[s'.origins[j]].task, maxLeaseTime, s'.server.bindings[j])
      {
        assert j > 0 ==> s'.origins[j] == s.origins[j - 1] && s'.server.bindings[j] == s.server.bindings[j - 1];
      }
    } else {
      SameListLeased(s, w, s', maxLeaseTime);
    }
  }

  lemma ItemOfRest(xs: seq<nat>, k: nat, j: nat)
    requires k < |xs|
    ensures j < |xs| - 1 ==> (xs[..k] + xs[k + 1..])[j] == xs[if j >= k then j + 1 else j]
  {
  }

  /** What stands at `j` afterwards goes back to where it did before. */
  lemma UsedStays(s: System, w: nat, j: nat) returns (i: nat)
    requires CanWork(s, w) && s.workers[w].Using? && j < |Worked(s, w).origins|
    ensures var s' := Worked(s, w);
            && i < |s.origins| == |s.server.bindings| && j < |s'.server.bindings|
            && s'.origins[j] == s.origins[i] && LeftOf(s.server.bindings[i], s'.server.bindings[j])
  {
    var s', t, k := Worked(s, w), s.workers[w].t, PlaceOf(s.origins, s.workers[w].id);
    UseChanges(s, w);
    GoingOnLeaves(s.server, t, k, j);
    ItemOfRest(s.origins, k, j);
    i := if |s'.server.bindings| < |s.server.bindings| && j >= k then j + 1 else j;
  }

  lemma UseLeases(s: System, w: nat, maxLeaseTime: int)
    requires Leased(s, maxLeaseTime) && CanWork(s, w) && s.workers[w].Using?
    ensures Leased(Worked(s, w), maxLeaseTime)
  {
    var s' := Worked(s, w);
    UseChanges(s, w);
    forall j | 0 <= j < |s'.origins|
      ensures s'.origins[j] < |s'.handled|
      ensures LeaseOf(s'.handled[s'.origins[j]].task, maxLeaseTime, s'.server.bindings[j])
    {
      var i := UsedStays(s, w, j);
      assert LeaseOf(s.handled[s.origins[i]].task, maxLeaseTime, s.server.bindings[i]);
    }
  }

  lemma GoingOnShrinks(server: Server, t: Task, k: nat)
    requires k < |server.bindings|
    ensures var r := GoOnWith(server, t, k);
            && r.Done? && r.server.config.maxLeaseTime == server.config.maxLeaseTime
            && |r.server.bindings| == |server.bindings| - if r.action.Declined? then 1 else 0
  {
  }

  lemma UseChanges(s: System, w: nat)
    requires CanWork(s, w) && s.workers[w].Using?
    ensures var s', t, k := Worked(s, w), s.workers[w].t, PlaceOf(s.origins, s.workers[w].id);
            && k < |s.origins| == |s.server.bindings|
            && GoOnWith(s.server, t, k).Done? && s'.server == GoOnWith(s.server, t, k).server
            && s'.workers == s.workers[w := Ready] && s.handled <= s'.handled
            && s'.server.config.maxLeaseTime == s.server.config.maxLeaseTime
            && |s'.origins| == |s'.server.bindings|
            && s'.origins == if |s'.server.bindings| < |s.server.bindings| then s.origins[..k] + s.origins[k + 1..]
                             else s.origins
  {
    var t, k := s.workers[w].t, PlaceOf(s.origins, s.workers[w].id);
    GoingOnShrinks(s.server, t, k);
    assert Worked(s, w) == Used(s, w, t, s.workers[w].id);
    assert |s.origins[..k] + s.origins[k + 1..]| == |s.origins| - 1;
  }

  lemma DispatchLeases(s: System, w: nat, maxLeaseTime: int)
    requires Leased(s, maxLeaseTime) && CanWork(s, w) && s.workers[w].Handling?
    ensures Leased(Worked(s, w), maxLeaseTime)
  {
    SameListLeased(s, w, Worked(s, w), maxLeaseTime);
  }

  lemma OtherWorkLeases(s: System, w: nat, maxLeaseTime: int)
    requires Leased(s, maxLeaseTime) && CanWork(s, w) && !s.workers[w].Offering?
    requires !s.workers[w].Using? && !s.workers[w].Handling?
    ensures Leased(Worked(s, w), maxLeaseTime)
  {
    assert HoldsDiscover(s.workers[w]);
    SameListLeased(s, w, Worked(s, w), maxLeaseTime);
  }

  lemma LeasedKept(s: System, step: Step, maxLeaseTime: int)
    requires Leased(s, maxLeaseTime) && Enabled(s, step)
    ensures Leased(Next(s, step), maxLeaseTime)
  {
    if step.Work? {
      if s.workers[step.w].Offering? {
        RecordLeases(s, step.w, maxLeaseTime);
      } else if s.workers[step.w].Using? {
        UseLeases(s, step.w, maxLeaseTime);
      } else if s.workers[step.w].Handling? {
        DispatchLeases(s, step.w, maxLeaseTime);
      } else {
        OtherWorkLeases(s, step.w, maxLeaseTime);
      }
    }
  }

  lemma {:induction false} LeasedForGood(s: System, maxLeaseTime: int, steps: seq<Step>)
    requires Leased(s, maxLeaseTime) && Possible(s, steps)
    ensures Leased(After(s, steps), maxLeaseTime)
    decreases steps
  {
    if steps != [] {
      LeasedKept(s, steps[0], maxLeaseTime);
      LeasedForGood(Next(s, steps[0]), maxLeaseTime, steps[1..]);
    }
  }

  // ----- Every reachable state

  /** Every binding goes back to an entry of the record that offered its address, and has
      the terms of that DISCOVER. */
  lemma LeasesOfInterleaving(n: nat, first: u32, last: u32, config: Config, steps: seq<Step>, j: nat)
    returns (i: nat)
    requires Possible(Start(n, first, last, config), steps)
    requires j < |After(Start(n, first, last, config), steps).server.bindings|
    ensures var s := After(Start(n, first, last, config), steps);
            var b := s.server.bindings[j];
            && i < |s.handled| && s.handled[i].action == Offered(b.cident, b.address)
            && LeaseOf(s.handled[i].task, config.maxLeaseTime, b)
  {
    var s0 := Start(n, first, last, config);
    var s := After(s0, steps);
    LeasedForGood(s0, config.maxLeaseTime, steps);
    NamesForGood(s0, steps);
    i := s.origins[j];
    assert WasOffered(s.handled, i, s.server.bindings[j].cident, s.server.bindings[j].address);
  }

  /** Every datagram in the record was answered with what its action conveys, byte by
      byte; an INFORM with 8.8.8.8 as soon as there was an ACK. */
  lemma RepliesConveyed(n: nat, first: u32, last: u32, config: Config, steps: seq<Step>, k: nat)
    requires Possible(Start(n, first, last, config), steps)
    requires k < |After(Start(n, first, last, config), steps).handled|
    ensures var handled := After(Start(n, first, last, config), steps).handled;
            var e := handled[k];
            && Conveys(config, e.task, e.action, e.reply)
            && (e.action.Informed? ==>
                  e.action.dns == if SomeAcked(ActionsOf(handled)[..k]) then 0x0808_0808 else config.dns)
  {
    var s0 := Start(n, first, last, config);
    var handled := After(s0, steps).handled;
    ConfiguredForGood(s0, config, steps);
    RepliesOfInterleaving(n, first, last, config, steps);
    ReplyConveys(s0.server, handled[k].task, handled[k].action);
    assert handled[k].reply == RepliesOf(handled)[k] && handled[k].action == ActionsOf(handled)[k];
    assert handled[k].task == TasksOf(handled)[k];
  }
}
