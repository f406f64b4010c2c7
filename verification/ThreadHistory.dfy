/** The record of handled datagrams under any number of workers: on every pool on
    which the scan cannot wrap around it says of offers and bindings what the record
    of a sequential run says, although handlers of different workers overlap. What an
    answer confirms or takes back was the latest offer when it was looked up. */
module ThreadHistory {
  import opened Words
  import opened Bindings
  import opened Leases
  import opened LeaseInvariant
  import opened ClientStacks
  import opened LeaseHistory
  import opened Replies
  import opened Threads
  import opened ThreadOrder
  import opened ThreadBindings
  import opened ThreadAddresses
  import opened ThreadSequential
  import opened ThreadRuns
  import opened ThreadCollision

  // ----- What a worker's step adds to the record

  datatype Effect = Nothing | Finds(ip: u32) | Acts(a: Action)

  ghost function EffectOf(s: System, w: nat): Effect
    requires CanWork(s, w)
  {
    var s' := Worked(s, w);
    if |s'.handled| > |s.handled| then Acts(s'.handled[|s.handled|].action)
    else if !s.workers[w].Offering? && s'.workers[w].Offering? then Finds(s'.workers[w].ip)
    else Nothing
  }

  /** Cursor, list and record move together: a found address is the next one, and
      only an address that was found is offered. */
  ghost predicate HasEffect(s: System, w: nat, s': System, e: Effect)
    requires w < |s.workers|
  {
    && |s'.workers| == |s.workers| && s'.workers == s.workers[w := s'.workers[w]]
    && var before, after, at, at' := ActionsOf(s.handled), ActionsOf(s'.handled), s.workers[w], s'.workers[w];
       match e
       case Nothing => after == before && s'.server == s.server && !at.Offering? && !at'.Offering?
       case Finds(ip) =>
         && after == before && ip == s.server.pool.current + 1
         && s'.server == s.server.(pool := s.server.pool.(current := ip))
         && !at.Offering? && at'.Offering? && at'.ip == ip
       case Acts(a) =>
         && after == before + [a] && s'.server.pool == s.server.pool && !at'.Offering?
         && (IsOffer(a) <==> at.Offering?) && (IsOffer(a) ==> OfferIp(a) == at.ip)
  }

  /** The record grows by what a worker has finished. */
  lemma FinishActs(s: System, w: nat, s': System, a: Action)
    requires w < |s.workers| && |s'.workers| == |s.workers| && s'.workers == s.workers[w := Ready]
    requires |s'.handled| == |s.handled| + 1 && s'.handled[..|s.handled|] == s.handled
    requires s'.handled[|s.handled|].action == a && s'.server.pool == s.server.pool
    requires IsOffer(a) <==> s.workers[w].Offering?
    requires IsOffer(a) ==> OfferIp(a) == s.workers[w].ip
    ensures HasEffect(s, w, s', Acts(a))
  {
    assert s'.handled == s.handled + [s'.handled[|s.handled|]];
    TasksOfSnoc(s.handled, s'.handled[|s.handled|]);
  }

  lemma DispatchHasEffect(s: System, w: nat)
    requires CanWork(s, w) && s.workers[w].Handling?
    ensures HasEffect(s, w, Worked(s, w), EffectOf(s, w))
  {
    var t, s' := s.workers[w].t, Worked(s, w);
    if DispatchType(t) != TYPE_DISCOVER && !LooksUp(t) {
      HandleBindsNothing(s.server, t);
    }
    if |s'.handled| > |s.handled| {
      FinishActs(s, w, s', EffectOf(s, w).a);
    }
  }

  lemma UseHasEffect(s: System, w: nat)
    requires CanWork(s, w) && s.workers[w].Using?
    ensures HasEffect(s, w, Worked(s, w), EffectOf(s, w))
  {
    GoingOnBindsNothing(s.server, s.workers[w].t, PlaceOf(s.origins, s.workers[w].id));
    FinishActs(s, w, Worked(s, w), EffectOf(s, w).a);
  }

  lemma ProbeHasEffect(s: System, w: nat)
    requires Safe(s) && CanWork(s, w) && s.workers[w].Scanning?
    ensures HasEffect(s, w, Worked(s, w), EffectOf(s, w))
  {
    ProbeEnds(s, w);
    assert PlaceOk(s.server, |s.workers|, s.workers[w]);
    if |Worked(s, w).handled| > |s.handled| {
      FinishActs(s, w, Worked(s, w), EffectOf(s, w).a);
    }
  }

  lemma WorkHasEffect(s: System, w: nat)
    requires Safe(s) && CanWork(s, w)
    ensures HasEffect(s, w, Worked(s, w), EffectOf(s, w))
  {
    var at := s.workers[w];
    if at.Handling? {
      DispatchHasEffect(s, w);
    } else if at.Scanning? {
      ProbeHasEffect(s, w);
    } else if at.Using? {
      UseHasEffect(s, w);
    } else if at.Offering? {
      FinishActs(s, w, Worked(s, w), EffectOf(s, w).a);
    }
  }

  /** Workers know what they have found, and so does the list. */
  ghost predicate SafeAndNamed(s: System) {
    Safe(s) && Named(s)
  }

  lemma FoundItsClient(s: System, w: nat)
    requires Named(s) && CanWork(s, w) && s.workers[w].Using?
    ensures var at, k := s.workers[w], PlaceOf(s.origins, s.workers[w].id);
            && LooksUp(at.t) && k < |s.server.bindings| && s.server.bindings[k].cident == KeyOf(at.t)
            && s.handled[at.id].action == Offered(KeyOf(at.t), s.server.bindings[k].address)
  {
    var k := PlaceOf(s.origins, s.workers[w].id);
    assert HolderNamed(s.handled, s.workers[w]);
    assert WasOffered(s.handled, s.origins[k], s.server.bindings[k].cident, s.server.bindings[k].address);
  }

  /** The stack of any client moves as the action says. */
  lemma WorkMovesStack(s: System, w: nat, c: Client)
    requires SafeAndNamed(s) && CanWork(s, w)
    ensures Stack(Worked(s, w).server.bindings, c) ==
            if EffectOf(s, w).Acts? then Moved(Stack(s.server.bindings, c), EffectOf(s, w).a, c)
            else Stack(s.server.bindings, c)
  {
    var at := s.workers[w];
    if at.Using? {
      UseMovesStack(s, w, c);
    } else if at.Offering? {
      RecordMovesStack(s, w, c);
    } else if at.Handling? {
      DispatchMovesNoStack(s, w);
    } else {
      WorkHasEffect(s, w);
    }
  }

  lemma UseMovesStack(s: System, w: nat, c: Client)
    requires SafeAndNamed(s) && CanWork(s, w) && s.workers[w].Using?
    ensures EffectOf(s, w).Acts?
    ensures Stack(Worked(s, w).server.bindings, c) == Moved(Stack(s.server.bindings, c), EffectOf(s, w).a, c)
  {
    FoundItsClient(s, w);
    GoingOnMovesStack(s.server, s.workers[w].t, PlaceOf(s.origins, s.workers[w].id), c);
  }

  lemma RecordMovesStack(s: System, w: nat, c: Client)
    requires CanWork(s, w) && s.workers[w].Offering?
    ensures EffectOf(s, w).Acts?
    ensures Stack(Worked(s, w).server.bindings, c) == Moved(Stack(s.server.bindings, c), EffectOf(s, w).a, c)
  {
    var at := s.workers[w];
    EntryMovesStack(s.server.bindings, NewBinding(at.t, at.ip, s.server.config), c);
  }

  lemma DispatchMovesNoStack(s: System, w: nat)
    requires CanWork(s, w) && s.workers[w].Handling?
    ensures Worked(s, w).server == s.server
    ensures EffectOf(s, w).Acts? ==> var a := EffectOf(s, w).a; !NamesOffer(a) && !IsOffer(a)
  {
    var t := s.workers[w].t;
    if DispatchType(t) != TYPE_DISCOVER && !LooksUp(t) {
      HandleBindsNothing(s.server, t);
    }
  }

  // ----- Every address is offered once

  ghost predicate NotOffered(acts: seq<Action>, ip: u32) {
    forall i :: 0 <= i < |acts| && IsOffer(acts[i]) ==> OfferIp(acts[i]) != ip
  }

  /** No two offers, lost ones included, are of the same address, and all lie behind
      `first` and not behind `current`. */
  ghost predicate OffersDistinct(acts: seq<Action>, first: u32, current: u32) {
    && (forall i :: 0 <= i < |acts| && IsOffer(acts[i]) ==> first < OfferIp(acts[i]) <= current)
    && (forall i, j :: 0 <= i < j < |acts| && IsOffer(acts[i]) && IsOffer(acts[j]) ==>
                         OfferIp(acts[i]) != OfferIp(acts[j]))
  }

  /** What workers are about to offer is not in the record either. */
  ghost predicate OfferedOnce(s: System) {
    && OffersDistinct(ActionsOf(s.handled), s.server.pool.first, s.server.pool.current)
    && forall w :: 0 <= w < |s.workers| && s.workers[w].Offering? ==>
                     NotOffered(ActionsOf(s.handled), s.workers[w].ip)
  }

  lemma OfferedOnceKept(s: System, w: nat)
    requires Safe(s) && OfferedOnce(s) && CanWork(s, w)
    ensures OfferedOnce(Worked(s, w))
  {
    var s', acts := Worked(s, w), ActionsOf(s.handled);
    WorkHasEffect(s, w);
    PoolBoundsStay(s, w);
    assert PlaceOk(s.server, |s.workers|, s.workers[w]);
    forall v | 0 <= v < |s'.workers| && s'.workers[v].Offering?
      ensures NotOffered(ActionsOf(s'.handled), s'.workers[v].ip)
    {
      assert v != w ==> PlaceOk(s.server, |s.workers|, s.workers[v]);
      assert v < w ==> !SameAddress(s.workers[v], s.workers[w]);
      assert w < v ==> !SameAddress(s.workers[w], s.workers[v]);
    }
  }

  // ----- Every address behind the cursor was offered or is about to be

  function CountOffering(workers: seq<Worker>): nat {
    if workers == [] then 0 else (if workers[0].Offering? then 1 else 0) + CountOffering(workers[1..])
  }

  lemma {:induction false} CountMoves(workers: seq<Worker>, w: nat, at: Worker)
    requires w < |workers|
    ensures CountOffering(workers[w := at]) ==
            CountOffering(workers) - (if workers[w].Offering? then 1 else 0) + (if at.Offering? then 1 else 0)
  {
    var moved := workers[w := at];
    if w == 0 {
      assert moved[1..] == workers[1..];
    } else {
      assert moved[1..] == workers[1..][w - 1 := at];
      CountMoves(workers[1..], w - 1, at);
    }
  }

  /** The way of the cursor is the number of offers made and under way. */
  ghost predicate Accounted(s: System) {
    s.server.pool.current == s.server.pool.first + OffersMade(ActionsOf(s.handled)) + CountOffering(s.workers)
  }

  lemma AccountedKept(s: System, w: nat)
    requires Safe(s) && Accounted(s) && CanWork(s, w)
    ensures Accounted(Worked(s, w))
  {
    var s', acts := Worked(s, w), ActionsOf(s.handled);
    WorkHasEffect(s, w);
    PoolBoundsStay(s, w);
    CountMoves(s.workers, w, s'.workers[w]);
    if EffectOf(s, w).Acts? {
      assert (acts + [EffectOf(s, w).a])[..|acts|] == acts;
    }
  }

  // ----- The stacks are the outstanding offers

  ghost predicate StackMatches(bs: seq<Binding>, acts: seq<Action>, c: Client) {
    Stack(bs, c) == OutstandingTo(acts, c, |acts|)
  }

  ghost predicate StacksMatch(bs: seq<Binding>, acts: seq<Action>) {
    forall c :: StackMatches(bs, acts, c)
  }

  lemma StackMatchKept(s: System, w: nat, c: Client)
    requires SafeAndNamed(s) && StackMatches(s.server.bindings, ActionsOf(s.handled), c) && CanWork(s, w)
    ensures StackMatches(Worked(s, w).server.bindings, ActionsOf(Worked(s, w).handled), c)
  {
    WorkHasEffect(s, w);
    WorkMovesStack(s, w, c);
    if EffectOf(s, w).Acts? {
      OutstandingMoves(ActionsOf(s.handled), EffectOf(s, w).a, c);
    }
  }

  lemma StacksMatchKept(s: System, w: nat)
    requires SafeAndNamed(s) && StacksMatch(s.server.bindings, ActionsOf(s.handled)) && CanWork(s, w)
    ensures StacksMatch(Worked(s, w).server.bindings, ActionsOf(Worked(s, w).handled))
  {
    forall c
      ensures StackMatches(Worked(s, w).server.bindings, ActionsOf(Worked(s, w).handled), c)
    {
      StackMatchKept(s, w, c);
    }
  }

  // ----- Answers name what was the latest offer when it was looked up

  lemma LatestStays(acts: seq<Action>, a: Action, c: Client, ip: u32, i: nat, k: nat)
    requires LatestOffer(acts, c, ip, i, k)
    ensures LatestOffer(acts + [a], c, ip, i, k)
  {
    assert (acts + [a])[..k] == acts[..k];
  }

  ghost predicate EntryWasLatest(handled: seq<Entry>, k: nat)
    requires k < |handled| && NamesOffer(handled[k].action)
  {
    exists i :: LatestOffer(ActionsOf(handled), handled[k].action.client, handled[k].action.ip, i, handled[k].seen)
  }

  ghost predicate HolderWasLatest(handled: seq<Entry>, at: Worker) {
    at.Using? ==>
      && at.id < |handled| && handled[at.id].action.Offered?
      && LatestOffer(ActionsOf(handled), KeyOf(at.t), handled[at.id].action.ip, at.id, at.seen)
  }

  ghost predicate WereLatest(s: System) {
    && (forall w :: 0 <= w < |s.workers| ==> HolderWasLatest(s.handled, s.workers[w]))
    && forall k :: 0 <= k < |s.handled| && NamesOffer(s.handled[k].action) ==> EntryWasLatest(s.handled, k)
  }

  lemma WereLatestSnoc(s: System, s': System, w: nat, e: Entry)
    requires WereLatest(s) && w < |s.workers|
    requires s'.workers == s.workers[w := Ready] && s'.handled == s.handled + [e]
    requires NamesOffer(e.action) ==>
               exists i :: LatestOffer(ActionsOf(s.handled), e.action.client, e.action.ip, i, e.seen)
    ensures WereLatest(s')
  {
    var acts := ActionsOf(s.handled);
    TasksOfSnoc(s.handled, e);
    forall v | 0 <= v < |s'.workers|
      ensures HolderWasLatest(s'.handled, s'.workers[v])
    {
      var at := s.workers[v];
      assert HolderWasLatest(s.handled, at);
      if v != w && at.Using? {
        LatestStays(acts, e.action, KeyOf(at.t), s.handled[at.id].action.ip, at.id, at.seen);
      }
    }
    forall k | 0 <= k < |s'.handled| && NamesOffer(s'.handled[k].action)
      ensures EntryWasLatest(s'.handled, k)
    {
      var a := s'.handled[k].action;
      assert k < |s.handled| ==> EntryWasLatest(s.handled, k);
      var i :| LatestOffer(acts, a.client, a.ip, i, s'.handled[k].seen);
      LatestStays(acts, e.action, a.client, a.ip, i, s'.handled[k].seen);
    }
  }

  /** What a look-up finds is the latest outstanding offer to the client. */
  lemma LookUpFindsLatest(s: System, t: Task)
    requires Named(s) && OfferedOnce(s) && StacksMatch(s.server.bindings, ActionsOf(s.handled))
    requires LooksUp(t) && LookUp(s.server, t) < |s.server.bindings|
    ensures var k := LookUp(s.server, t);
            && k < |s.origins| && s.origins[k] < |s.handled|
            && s.handled[s.origins[k]].action == Offered(KeyOf(t), s.server.bindings[k].address)
            && LatestOffer(ActionsOf(s.handled), KeyOf(t), s.server.bindings[k].address, s.origins[k], |s.handled|)
  {
    var bs, acts, c, k := s.server.bindings, ActionsOf(s.handled), KeyOf(t), LookUp(s.server, t);
    SearchDynamic(bs, c);
    SearchFindsTop(bs, c);
    assert WasOffered(s.handled, s.origins[k], bs[k].cident, bs[k].address);
    assert StackMatches(bs, acts, c);
    var i := HeadIsLatest(acts, c, |acts|);
    assert acts[..|acts|] == acts;
    assert acts[s.origins[k]] == acts[i];
  }

  lemma WereLatestKept(s: System, w: nat)
    requires SafeAndNamed(s) && OfferedOnce(s) && StacksMatch(s.server.bindings, ActionsOf(s.handled))
    requires WereLatest(s) && CanWork(s, w)
    ensures WereLatest(Worked(s, w))
  {
    var at, s' := s.workers[w], Worked(s, w);
    if at.Using? {
      UseKeepsLatest(s, w);
    } else if at.Handling? {
      DispatchKeepsLatest(s, w);
    } else if |s'.handled| > |s.handled| {
      WereLatestSnoc(s, s', w, s'.handled[|s.handled|]);
    }
  }

  lemma DispatchKeepsLatest(s: System, w: nat)
    requires SafeAndNamed(s) && OfferedOnce(s) && StacksMatch(s.server.bindings, ActionsOf(s.handled))
    requires WereLatest(s) && CanWork(s, w) && s.workers[w].Handling?
    ensures WereLatest(Worked(s, w))
  {
    var s' := Worked(s, w);
    DispatchMovesNoStack(s, w);
    if |s'.handled| > |s.handled| {
      WereLatestSnoc(s, s', w, s'.handled[|s.handled|]);
    } else if s'.workers[w].Using? {
      LookUpFindsLatest(s, s.workers[w].t);
    }
  }

  lemma UseKeepsLatest(s: System, w: nat)
    requires Named(s) && WereLatest(s) && CanWork(s, w) && s.workers[w].Using?
    ensures WereLatest(Worked(s, w))
  {
    var at, s' := s.workers[w], Worked(s, w);
    FoundItsClient(s, w);
    GoingOnNames(s.server, at.t, PlaceOf(s.origins, at.id));
    assert HolderWasLatest(s.handled, at);
    WereLatestSnoc(s, s', w, s'.handled[|s.handled|]);
  }

  // ----- Every reachable state

  ghost predicate Faithful(s: System) {
    && SafeAndNamed(s) && OfferedOnce(s) && Accounted(s)
    && StacksMatch(s.server.bindings, ActionsOf(s.handled)) && WereLatest(s)
  }

  /** The receiver and a wakeup touch nothing of this. */
  lemma OtherStepKeepsFaith(s: System, step: Step)
    requires Faithful(s) && Enabled(s, step) && !step.Work?
    ensures var s' := Next(s, step); OfferedOnce(s') && Accounted(s') && WereLatest(s')
  {
    var s' := Next(s, step);
    if s'.workers != s.workers {
      CountMoves(s.workers, step.w, Woken);
    }
    assert s'.handled == s.handled;
    assert forall w :: 0 <= w < |s'.workers| ==> s'.workers[w] == s.workers[w] || s'.workers[w] == Woken;
  }

  lemma FaithfulKept(s: System, step: Step)
    requires Faithful(s) && Enabled(s, step)
    ensures Faithful(Next(s, step))
  {
    SafeKept(s, step);
    NamesKept(s, step);
    if step.Work? {
      OfferedOnceKept(s, step.w);
      AccountedKept(s, step.w);
      StacksMatchKept(s, step.w);
      WereLatestKept(s, step.w);
    } else {
      OtherStepKeepsFaith(s, step);
    }
  }

  lemma {:induction false} FaithfulForGood(s: System, steps: seq<Step>)
    requires Faithful(s) && Possible(s, steps)
    ensures Faithful(After(s, steps))
    decreases steps
  {
    if steps != [] {
      FaithfulKept(s, steps[0]);
      FaithfulForGood(Next(s, steps[0]), steps[1..]);
    }
  }

  lemma {:induction false} NoneOffering(n: nat)
    ensures CountOffering(seq(n, i => Ready)) == 0
  {
    if n > 0 {
      assert seq(n, i => Ready)[1..] == seq(n - 1, i => Ready);
      NoneOffering(n - 1);
    }
  }

  lemma StartFaithful(n: nat, first: u32, last: u32, config: Config)
    requires NoWrap(n, Pool(first, last, first))
    ensures Faithful(Start(n, first, last, config))
  {
    StartSafe(n, first, last, config);
    NoneOffering(n);
    NothingRecorded(Start(n, first, last, config));
  }

  lemma NothingRecorded(s: System)
    requires s.handled == [] && s.origins == [] && s.server.bindings == []
    requires forall w :: 0 <= w < |s.workers| ==> s.workers[w] == Ready
    ensures Named(s) && OfferedOnce(s) && WereLatest(s)
    ensures ActionsOf(s.handled) == [] && StacksMatch(s.server.bindings, ActionsOf(s.handled))
  {
    assert ActionsOf(s.handled) == [];
    NothingToMatch();
  }

  lemma NothingToMatch()
    ensures StacksMatch([], [])
  {
  }

  lemma ReachedFaithful(n: nat, first: u32, last: u32, config: Config, steps: seq<Step>)
    requires NoWrap(n, Pool(first, last, first)) && Possible(Start(n, first, last, config), steps)
    ensures var s := After(Start(n, first, last, config), steps);
            Faithful(s) && s.server.pool.first == first && s.server.pool.last == last
  {
    StartFaithful(n, first, last, config);
    FaithfulForGood(Start(n, first, last, config), steps);
    ReachedSafe(n, first, last, config, steps);
  }

  /** The offers in the record of any interleaving, and those under way: distinct
      addresses behind the first one, as many as the cursor has come. */
  lemma OffersOfInterleaving(n: nat, first: u32, last: u32, config: Config, steps: seq<Step>)
    requires NoWrap(n, Pool(first, last, first)) && Possible(Start(n, first, last, config), steps)
    ensures var s := After(Start(n, first, last, config), steps);
            var acts, current := ActionsOf(s.handled), s.server.pool.current;
            && OffersDistinct(acts, first, current) && (current == first || current <= last)
            && (forall w :: 0 <= w < |s.workers| && s.workers[w].Offering? ==> NotOffered(acts, s.workers[w].ip))
            && current == first + OffersMade(acts) + CountOffering(s.workers)
  {
    ReachedFaithful(n, first, last, config, steps);
  }

  /** The list of bindings in any interleaving: every client's stack holds the offers
      of the record that were not given back since, newest first. */
  lemma StacksOfInterleaving(n: nat, first: u32, last: u32, config: Config, steps: seq<Step>, c: Client)
    requires NoWrap(n, Pool(first, last, first)) && Possible(Start(n, first, last, config), steps)
    ensures var s := After(Start(n, first, last, config), steps);
            Stack(s.server.bindings, c) == OutstandingTo(ActionsOf(s.handled), c, |s.handled|)
  {
    ReachedFaithful(n, first, last, config, steps);
    var s := After(Start(n, first, last, config), steps);
    assert StackMatches(s.server.bindings, ActionsOf(s.handled), c);
  }

  /** Every ACK, decline and release in the record of any interleaving is about what was
      the latest outstanding offer to its client when it was looked up, and that
      address was offered once. */
  lemma AnswersOfInterleaving(n: nat, first: u32, last: u32, config: Config, steps: seq<Step>, k: nat)
    returns (i: nat)
    requires NoWrap(n, Pool(first, last, first)) && Possible(Start(n, first, last, config), steps)
    requires var handled := After(Start(n, first, last, config), steps).handled;
             k < |handled| && NamesOffer(handled[k].action)
    ensures var handled := After(Start(n, first, last, config), steps).handled;
            var acts, a := ActionsOf(handled), handled[k].action;
            && handled[k].seen <= k && LatestOffer(acts, a.client, a.ip, i, handled[k].seen)
            && (a.Acked? ==> |a.client| == 6)
            && forall j :: 0 <= j < |acts| && IsOffer(acts[j]) && OfferIp(acts[j]) == a.ip ==> j == i
  {
    ReachedFaithful(n, first, last, config, steps);
    var handled := After(Start(n, first, last, config), steps).handled;
    assert AnswersOffer(handled, k) && EntryWasLatest(handled, k);
    i :| LatestOffer(ActionsOf(handled), handled[k].action.client, handled[k].action.ip, i, handled[k].seen);
  }

  // ----- Replies, on any pool

  /** Every reply in the record is the one to its task and action. */
  ghost predicate AnswersSoFar(s: System, s0: Server) {
    SameWords(s.server, s0) && Answers(s0, TasksOf(s.handled), ActionsOf(s.handled), RepliesOf(s.handled))
  }

  lemma WorkKeepsWords(s: System, w: nat)
    requires CanWork(s, w)
    ensures SameWords(Worked(s, w).server, s.server)
  {
  }

  lemma WorkAnswers(s: System, w: nat)
    requires CanWork(s, w)
    ensures var s' := Worked(s, w);
            || s'.handled == s.handled
            || exists e: Entry :: e.reply == ReplyTo(s.server, e.task, e.action) && s'.handled == s.handled + [e]
  {
  }

  lemma WorkKeepsAnswers(s: System, w: nat, s0: Server)
    requires AnswersSoFar(s, s0) && CanWork(s, w)
    ensures AnswersSoFar(Worked(s, w), s0)
  {
    var s' := Worked(s, w);
    WorkKeepsWords(s, w);
    WorkAnswers(s, w);
    if s'.handled != s.handled {
      var e: Entry :| e.reply == ReplyTo(s.server, e.task, e.action) && s'.handled == s.handled + [e];
      TasksOfSnoc(s.handled, e);
    }
  }

  lemma {:induction false} AnswersForGood(s: System, s0: Server, steps: seq<Step>)
    requires AnswersSoFar(s, s0) && Possible(s, steps)
    ensures AnswersSoFar(After(s, steps), s0)
    decreases steps
  {
    if steps != [] {
      if steps[0].Work? {
        WorkKeepsAnswers(s, steps[0].w, s0);
      }
      AnswersForGood(Next(s, steps[0]), s0, steps[1..]);
    }
  }

  /** In any interleaving, each datagram handled was answered with the reply to it and
      to what came of it, in a configuration that is still the one of the start. */
  lemma RepliesOfInterleaving(n: nat, first: u32, last: u32, config: Config, steps: seq<Step>)
    requires Possible(Start(n, first, last, config), steps)
    ensures var handled := After(Start(n, first, last, config), steps).handled;
            Answers(Initial(first, last, config), TasksOf(handled), ActionsOf(handled), RepliesOf(handled))
  {
    AnswersForGood(Start(n, first, last, config), Initial(first, last, config), steps);
  }

  // ----- When no address is offered twice

  /** Two entries of a record offer the same address. */
  ghost predicate OffersRepeat(acts: seq<Action>) {
    exists i, j :: 0 <= i < j < |acts| && IsOffer(acts[i]) && IsOffer(acts[j])
                   && OfferIp(acts[i]) == OfferIp(acts[j])
  }

  ghost predicate NeverOfferedTwice(n: nat, first: u32, last: u32, config: Config) {
    forall s :: Reachable(n, first, last, config, s) ==> !OffersRepeat(ActionsOf(s.handled))
  }

  /** Two workers about to offer the same address enter it in the record twice. */
  lemma BothRecord(s0: System, s: System) returns (s': System)
    requires Reaches(s0, s) && DoubleOffer(s)
    ensures Reaches(s0, s') && OffersRepeat(ActionsOf(s'.handled))
  {
    var v: nat, w: nat :| v < w < |s.workers| && SameAddress(s.workers[v], s.workers[w]);
    Onward(s0, s, Work(v));
    var mid := Next(s, Work(v));
    assert mid.workers[w] == s.workers[w];
    Onward(s0, mid, Work(w));
    s' := Next(mid, Work(w));
    var i := |s.handled|;
    var acts := ActionsOf(s'.handled);
    assert acts[i].ip == s.workers[v].ip && acts[i + 1].ip == s.workers[w].ip;
  }

  /** Over whole runs, too, no address is offered twice exactly when the scan of a
      second worker cannot wrap around. */
  lemma NeverOfferedTwiceIff(n: nat, first: u32, last: u32, config: Config)
    ensures NeverOfferedTwice(n, first, last, config) <==> NoWrap(n, Pool(first, last, first))
  {
    var s0 := Start(n, first, last, config);
    if NoWrap(n, Pool(first, last, first)) {
      forall s | Reachable(n, first, last, config, s)
        ensures !OffersRepeat(ActionsOf(s.handled))
      {
        var steps :| Possible(s0, steps) && After(s0, steps) == s;
        ReachedFaithful(n, first, last, config, steps);
      }
    } else {
      var steps := CollisionReached(n, first, config);
      assert last == MAX_U32;
      var s := After(s0, steps);
      assert Reaches(s0, s);
      var s' := BothRecord(s0, s);
      assert Reachable(n, first, last, config, s');
    }
  }
}
