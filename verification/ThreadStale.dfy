/** A REQUEST, DECLINE or RELEASE looks its binding up and then goes on with it, and
    nothing keeps other workers out in between. With two of them a worker may go on
    with a binding that is not its client's any more, or not even in the list. */
module ThreadStale {
  import opened Words
  import opened Bindings
  import opened Leases
  import opened LeaseInvariant
  import opened LeaseHistory
  import opened Replies
  import opened Samples
  import opened ClientStacks
  import opened Threads
  import opened ThreadOrder
  import opened ThreadBindings
  import opened ThreadProgress
  import opened ThreadHistory
  import opened ThreadRuns

  // ----- One worker goes on with what it has just found

  ghost predicate OnTime(s: System) {
    && (forall k :: 0 <= k < |s.handled| ==> s.handled[k].seen == k)
    && forall w :: 0 <= w < |s.workers| && s.workers[w].Using? ==>
                     s.workers[w].seen == |s.handled| && CanUse(s, s.workers[w].id)
  }

  lemma OnTimeKept(s: System, step: Step)
    requires Named(s) && OnTime(s) && |s.workers| <= 1 && Enabled(s, step)
    ensures OnTime(Next(s, step)) && |Next(s, step).workers| <= 1
  {
    if step.Work? {
      WorkIsOnTime(s);
    }
  }

  lemma WorkIsOnTime(s: System)
    requires Named(s) && OnTime(s) && |s.workers| == 1 && CanWork(s, 0)
    ensures OnTime(Worked(s, 0)) && |Worked(s, 0).workers| == 1
  {
    var s' := Worked(s, 0);
    RecordedNow(s, 0);
    if s'.workers[0].Using? {
      DispatchFinds(s, 0);
    }
  }

  lemma RecordedNow(s: System, w: nat)
    requires CanWork(s, w)
    ensures var s', at := Worked(s, w), s.workers[w];
            && s'.workers == s.workers[w := s'.workers[w]] && (s'.workers[w].Using? ==> at.Handling?)
            && (s'.handled == s.handled
                || exists e: Entry :: e.seen == (if at.Using? then at.seen else |s.handled|)
                                      && s'.handled == s.handled + [e])
  {
  }

  lemma DispatchFinds(s: System, w: nat)
    requires Named(s) && CanWork(s, w) && s.workers[w].Handling? && Worked(s, w).workers[w].Using?
    ensures var s' := Worked(s, w);
            s'.handled == s.handled && s'.workers[w].seen == |s.handled| && CanUse(s', s'.workers[w].id)
  {
  }

  lemma {:induction false} OnTimeForGood(s: System, steps: seq<Step>)
    requires Named(s) && OnTime(s) && |s.workers| <= 1 && Possible(s, steps)
    ensures OnTime(After(s, steps))
    decreases steps
  {
    if steps != [] {
      NamesKept(s, steps[0]);
      OnTimeKept(s, steps[0]);
      OnTimeForGood(Next(s, steps[0]), steps[1..]);
    }
  }

  // ----- When that is so

  /** Nobody is ever about to use a freed binding. */
  ghost predicate NeverDangles(n: nat, first: u32, last: u32, config: Config) {
    forall s :: Reachable(n, first, last, config, s) ==> !Dangling(s)
  }

  /** What entry `k` confirms or takes back is the latest outstanding offer to its client
      when it is entered in the record. */
  ghost predicate NamesLatest(acts: seq<Action>, k: nat)
    requires k < |acts| && NamesOffer(acts[k])
  {
    exists i :: LatestOffer(acts, acts[k].client, acts[k].ip, i, k)
  }

  ghost predicate AllNameLatest(acts: seq<Action>) {
    forall k :: 0 <= k < |acts| && NamesOffer(acts[k]) ==> NamesLatest(acts, k)
  }

  ghost predicate AlwaysNameLatest(n: nat, first: u32, last: u32, config: Config) {
    forall s :: Reachable(n, first, last, config, s) ==> AllNameLatest(ActionsOf(s.handled))
  }

  /** There is one worker at most, or nothing to offer. */
  predicate NoRace(n: nat, first: u32, last: u32) {
    n <= 1 || first >= last
  }

  /** An offer in the record, or an answer that goes back to one, takes a pool that has
      something to offer. */
  lemma OfferTakesRoom(s: System, i: nat)
    requires Faithful(s) && i < |s.handled| && IsOffer(s.handled[i].action)
    ensures s.server.pool.first < s.server.pool.last
  {
    assert ActionsOf(s.handled)[i] == s.handled[i].action;
  }

  lemma AnswerTakesRoom(s: System, k: nat)
    requires Faithful(s) && k < |s.handled| && NamesOffer(s.handled[k].action)
    ensures s.server.pool.first < s.server.pool.last
  {
    assert AnswersOffer(s.handled, k);
    var a := s.handled[k].action;
    var i :| 0 <= i < s.handled[k].seen && WasOffered(s.handled, i, a.client, a.ip);
    OfferTakesRoom(s, i);
  }

  lemma RaceTakesRoom(s: System)
    requires Faithful(s)
    ensures Dangling(s) || !AllNameLatest(ActionsOf(s.handled)) ==> s.server.pool.first < s.server.pool.last
  {
    var acts := ActionsOf(s.handled);
    if w :| 0 <= w < |s.workers| && Dangles(s, s.workers[w]) {
      assert HolderNamed(s.handled, s.workers[w]);
      OfferTakesRoom(s, s.workers[w].id);
    }
    if k :| 0 <= k < |acts| && NamesOffer(acts[k]) {
      AnswerTakesRoom(s, k);
    }
  }

  lemma NoRaceIsFine(n: nat, first: u32, last: u32, config: Config, s: System)
    requires NoRace(n, first, last) && Reachable(n, first, last, config, s)
    ensures !Dangling(s) && AllNameLatest(ActionsOf(s.handled))
  {
    var s0 := Start(n, first, last, config);
    var steps :| Possible(s0, steps) && After(s0, steps) == s;
    ReachedFaithful(n, first, last, config, steps);
    if first >= last {
      RaceTakesRoom(s);
    } else {
      OnTimeForGood(s0, steps);
      var acts := ActionsOf(s.handled);
      forall k | 0 <= k < |acts| && NamesOffer(acts[k])
        ensures NamesLatest(acts, k)
      {
        assert EntryWasLatest(s.handled, k);
      }
    }
  }

  // ----- Two workers find the same binding

  /** One client has one binding, its address is `ip`, and workers 0 and 1 have both
      found it. */
  ghost predicate BothFound(s: System, t0: Task, t1: Task, ip: u32) {
    && Named(s) && |s.workers| >= 2 && s.workers[0].Using? && s.workers[1].Using?
    && s.workers[0].t == t0 && s.workers[1].t == t1
    && |s.server.bindings| == 1 && s.server.bindings[0].address == ip
    && s.origins == [s.workers[0].id] == [s.workers[1].id]
  }

  /** Any two of a REQUEST, a DECLINE and a RELEASE by that client. */
  ghost predicate FromClient(t: Task) {
    LooksUp(t) && t.request.hlen == 6 && t.request.chaddr == Zeros(16)
  }

  lemma Finds(s0: System, s: System, w: nat, t: Task) returns (s': System)
    requires Reaches(s0, s) && Calm(s) && w < |s.workers| && s.workers[w] == Handling(t) && FromClient(t)
    requires |s.server.bindings| == |s.origins| == 1
    requires var b := s.server.bindings[0];
             b.cident == Zeros(16)[..6] && b.status == ASSOCIATED && b.isStatic == DYNAMIC
    ensures Reaches(s0, s') && Calm(s')
    ensures s' == Move(s, w, Using(t, s.origins[0], |s.handled|))
  {
    assert LookUp(s.server, t) == 0;
    Onward(s0, s, Work(w));
    s' := Next(s, Work(w));
  }

  lemma OneOffer(n: nat, first: u32, last: u32, config: Config) returns (s: System)
    requires n >= 2 && first < last
    ensures Reaches(Start(n, first, last, config), s) && Calm(s) && |s.workers| == n
    ensures forall w :: 0 <= w < n ==> s.workers[w] == Ready
    ensures |s.server.bindings| == 1
    ensures var b := s.server.bindings[0];
            && b.cident == Zeros(16)[..6] && b.status == ASSOCIATED && b.isStatic == DYNAMIC && b.address == first + 1
  {
    var s0, d := Start(n, first, last, config), Sample(TYPE_DISCOVER, 6, 0);
    Here(s0);
    var a := Delivered(s0, s0, 0, d);
    var b := SawRoom(s0, a, 0, d);
    var c := ScannedTo(s0, b, 0, d, first + 1);
    var e := FoundOne(s0, c, 0, d, first + 1);
    s := EnteredIt(s0, e, 0, d, first + 1);
    assert s.workers == s0.workers[0 := Ready] == s0.workers;
  }

  lemma BothFind(n: nat, first: u32, last: u32, config: Config, t0: Task, t1: Task) returns (s: System)
    requires n >= 2 && first < last && FromClient(t0) && FromClient(t1)
    ensures Reaches(Start(n, first, last, config), s) && BothFound(s, t0, t1, first + 1)
  {
    var s0 := Start(n, first, last, config);
    var a := OneOffer(n, first, last, config);
    var b := Delivered(s0, a, 0, t0);
    var c := Delivered(s0, b, 1, t1);
    ReachedNamed(s0, c);
    var e := Finds(s0, c, 0, t0);
    s := Finds(s0, e, 1, t1);
    ReachedNamed(s0, s);
  }

  lemma ReachedNamed(s0: System, s: System)
    requires Reaches(s0, s) && Named(s0)
    ensures Named(s)
  {
    var steps :| Possible(s0, steps) && After(s0, steps) == s;
    NamesForGood(s0, steps);
  }

  /** A declined address is declined once more, by the next worker: the first one has
      freed the binding which the other is about to use. */
  lemma DanglingReached(n: nat, first: u32, last: u32, config: Config) returns (s: System)
    requires n >= 2 && first < last
    ensures Reachable(n, first, last, config, s) && Dangling(s)
  {
    var s0, t := Start(n, first, last, config), Sample(TYPE_DECLINE, 6, first + 1);
    var a := BothFind(n, first, last, config, t, t);
    Onward(s0, a, Work(0));
    s := Next(a, Work(0));
    assert PlaceOf(a.origins, a.workers[0].id) == 0;
    assert s.origins == [] && s.workers[1] == a.workers[1];
    assert Dangles(s, s.workers[1]);
    assert Reachable(n, first, last, config, s);
  }

  /** A released address is confirmed to its client, or released, once more: the
      record ends with the release and what comes of the other message. */
  lemma StaleReached(n: nat, first: u32, last: u32, config: Config, messageType: byte) returns (s: System)
    requires n >= 2 && first < last && (messageType == TYPE_REQUEST || messageType == TYPE_RELEASE)
    ensures Reachable(n, first, last, config, s)
    ensures var acts, c := ActionsOf(s.handled), Zeros(6);
            && |acts| >= 2 && acts[|acts| - 2] == Released(c, first + 1)
            && acts[|acts| - 1] ==
               (if messageType == TYPE_REQUEST then Acked(c, first + 1) else Released(c, first + 1))
            && NamesOffer(acts[|acts| - 1]) && !NamesLatest(acts, |acts| - 1)
  {
    var s0, t1 := Start(n, first, last, config), Sample(messageType, 6, first + 1);
    assert Zeros(16)[..6] == Zeros(6);
    var b := ReleasedUnderHand(n, first, last, config, t1);
    SecondGoesOn(b, t1, first + 1);
    Onward(s0, b, Work(1));
    s := Next(b, Work(1));
    assert Reachable(n, first, last, config, s);
    EndsStale(b.handled, s.handled, Zeros(6), first + 1);
  }

  /** A binding has been released while another worker is about to go on with it. */
  ghost predicate UnderHand(s: System, t: Task, ip: u32) {
    && |s.workers| >= 2 && s.workers[1].Using? && s.workers[1].t == t && s.origins == [s.workers[1].id]
    && |s.server.bindings| == 1 && s.server.bindings[0].address == ip
  }

  lemma ReleasedUnderHand(n: nat, first: u32, last: u32, config: Config, t1: Task) returns (s: System)
    requires n >= 2 && first < last && FromClient(t1)
    ensures Reaches(Start(n, first, last, config), s) && UnderHand(s, t1, first + 1)
    ensures s.handled != [] && s.handled[|s.handled| - 1].action == Released(Zeros(6), first + 1)
  {
    var s0, t0 := Start(n, first, last, config), Sample(TYPE_RELEASE, 6, first + 1);
    assert Zeros(16)[..6] == Zeros(6);
    var a := BothFind(n, first, last, config, t0, t1);
    Onward(s0, a, Work(0));
    s := Next(a, Work(0));
    FirstReleases(a, t0, t1, first + 1);
  }

  lemma EndsStale(before: seq<Entry>, after: seq<Entry>, c: Client, ip: u32)
    requires 0 < |before| == |after| - 1 && after[..|before|] == before
    requires before[|before| - 1].action == Released(c, ip)
    requires after[|before|].action == Acked(c, ip) || after[|before|].action == Released(c, ip)
    ensures var acts := ActionsOf(after);
            && |acts| >= 2 && acts[|acts| - 2] == Released(c, ip) && acts[|acts| - 1] == after[|before|].action
            && NamesOffer(acts[|acts| - 1]) && !NamesLatest(acts, |acts| - 1)
  {
    assert after[|before| - 1] == before[|before| - 1];
    TakenBackIsNotLatest(ActionsOf(after), |before|);
  }

  lemma FirstReleases(s: System, t0: Task, t1: Task, ip: u32)
    requires BothFound(s, t0, t1, ip) && CanWork(s, 0)
    requires DispatchType(t0) == TYPE_RELEASE && t0.request.ciaddr == ip
    ensures var s' := Worked(s, 0);
            && |s'.handled| == |s.handled| + 1
            && s'.handled[|s.handled|].action == Released(ClientOf(t0.request), ip)
            && UnderHand(s', t1, ip)
  {
    assert PlaceOf(s.origins, s.workers[0].id) == 0;
  }

  lemma SecondGoesOn(s: System, t: Task, ip: u32)
    requires UnderHand(s, t, ip) && t.request.ciaddr == ip
    requires DispatchType(t) == TYPE_REQUEST || DispatchType(t) == TYPE_RELEASE
    ensures CanWork(s, 1)
    ensures var s' := Worked(s, 1);
            && |s'.handled| == |s.handled| + 1 && s'.handled[..|s.handled|] == s.handled
            && s'.handled[|s.handled|].action ==
               if DispatchType(t) == TYPE_REQUEST then Acked(RequestKey(t.request), ip)
               else Released(ClientOf(t.request), ip)
  {
    assert PlaceOf(s.origins, s.workers[1].id) == 0;
  }

  /** Directly after a decline or release of an address it is not outstanding. */
  lemma LatestNotTakenBack(acts: seq<Action>, c: Client, ip: u32, i: nat, k: nat)
    requires LatestOffer(acts, c, ip, i, k)
    ensures !GivesBack(acts[k - 1], c, ip)
  {
    assert acts[..k][k - 1] == acts[k - 1];
  }

  lemma TakenBackIsNotLatest(acts: seq<Action>, k: nat)
    requires 0 < k < |acts| && NamesOffer(acts[k]) && GivesBack(acts[k - 1], acts[k].client, acts[k].ip)
    ensures !NamesLatest(acts, k)
  {
    if NamesLatest(acts, k) {
      var i :| LatestOffer(acts, acts[k].client, acts[k].ip, i, k);
      LatestNotTakenBack(acts, acts[k].client, acts[k].ip, i, k);
    }
  }

  // ----- The exact conditions

  /** No worker ever comes by a freed binding exactly when there is one worker at most,
      or the pool offers nothing. */
  lemma NeverDanglesIff(n: nat, first: u32, last: u32, config: Config)
    ensures NeverDangles(n, first, last, config) <==> NoRace(n, first, last)
  {
    if NoRace(n, first, last) {
      forall s | Reachable(n, first, last, config, s)
        ensures !Dangling(s)
      {
        NoRaceIsFine(n, first, last, config, s);
      }
    } else {
      var s := DanglingReached(n, first, last, config);
    }
  }

  /** In the same cases every ACK, decline and release is about the latest outstanding
      offer to its client. */
  lemma AlwaysNameLatestIff(n: nat, first: u32, last: u32, config: Config)
    ensures AlwaysNameLatest(n, first, last, config) <==> NoRace(n, first, last)
  {
    if NoRace(n, first, last) {
      forall s | Reachable(n, first, last, config, s)
        ensures AllNameLatest(ActionsOf(s.handled))
      {
        NoRaceIsFine(n, first, last, config, s);
      }
    } else {
      var s := StaleReached(n, first, last, config, TYPE_REQUEST);
    }
  }

  // ----- And rest

  /** Nothing brings a binding back: its number is never given again. */
  lemma DanglesOn(s: System, w: nat, step: Step)
    requires Named(s) && w < |s.workers| && Dangles(s, s.workers[w]) && Enabled(s, step)
    ensures var s' := Next(s, step); w < |s'.workers| && Dangles(s', s'.workers[w])
  {
    assert HolderNamed(s.handled, s.workers[w]);
    if step.Work? {
      NumbersAreNew(s, step.w);
    }
  }

  lemma NumbersAreNew(s: System, w: nat)
    requires Named(s) && CanWork(s, w)
    ensures var s' := Worked(s, w);
            && |s'.origins| == |s'.server.bindings| && s'.workers == s.workers[w := s'.workers[w]]
            && forall id :: id in s'.origins ==> id in s.origins || id == |s.handled|
  {
    WorkKeepsNames(s, w);
  }

  lemma {:induction false} DanglesForGood(s: System, w: nat, steps: seq<Step>)
    requires Named(s) && w < |s.workers| && Dangles(s, s.workers[w]) && Possible(s, steps)
    ensures var s' := After(s, steps); w < |s'.workers| && Dangles(s', s'.workers[w])
    decreases steps
  {
    if steps != [] {
      NamesKept(s, steps[0]);
      DanglesOn(s, w, steps[0]);
      DanglesForGood(Next(s, steps[0]), w, steps[1..]);
    }
  }

  /** Left to themselves, the threads can get to where everything is handled. */
  ghost predicate CanRest(s: System) {
    exists steps :: InternalRun(s, steps) && AtRest(After(s, steps))
  }

  ghost predicate AlwaysCanRest(n: nat, first: u32, last: u32, config: Config) {
    forall s :: Reachable(n, first, last, config, s) ==> CanRest(s)
  }

  lemma NoRaceRests(n: nat, first: u32, last: u32, config: Config, s: System)
    requires n > 0 && NoRace(n, first, last) && Reachable(n, first, last, config, s)
    ensures CanRest(s)
  {
    var s0 := Start(n, first, last, config);
    ReachableIsTame(n, first, last, config, s);
    ReachableIsSound(n, first, last, config, s);
    var more := ComesToHalt(s);
    var steps :| Possible(s0, steps) && After(s0, steps) == s;
    RunsCompose(s0, steps, more);
    var s' := After(s, more);
    assert Reachable(n, first, last, config, s');
    NoRaceIsFine(n, first, last, config, s');
    ReachableIsTame(n, first, last, config, s');
    HaltedMeansAtRest(s');
  }

  lemma DanglingNeverRests(n: nat, first: u32, last: u32, config: Config, s: System)
    requires Reachable(n, first, last, config, s) && Dangling(s)
    ensures !CanRest(s)
  {
    ReachedNamed(Start(n, first, last, config), s);
    var w :| 0 <= w < |s.workers| && Dangles(s, s.workers[w]);
    forall steps | InternalRun(s, steps)
      ensures !AtRest(After(s, steps))
    {
      DanglesForGood(s, w, steps);
    }
  }

  /** And in the same cases the threads can always bring themselves to rest. */
  lemma AlwaysCanRestIff(n: nat, first: u32, last: u32, config: Config)
    requires n > 0
    ensures AlwaysCanRest(n, first, last, config) <==> NoRace(n, first, last)
  {
    if NoRace(n, first, last) {
      forall s | Reachable(n, first, last, config, s)
        ensures CanRest(s)
      {
        NoRaceRests(n, first, last, config, s);
      }
    } else {
      var s := DanglingReached(n, first, last, config);
      DanglingNeverRests(n, first, last, config, s);
    }
  }
}
