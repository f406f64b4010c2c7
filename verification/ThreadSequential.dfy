/** One worker, as the program starts it: whatever the interleaving with the
    receiver, the server is the sequential machine run on a prefix of the
    datagrams in arrival order, and the rest of them is still to come, in order. */
module ThreadSequential {
  import opened Words
  import opened Leases
  import opened LeaseInvariant
  import opened Threads
  import opened ThreadOrder
  import opened ThreadBindings
  import opened Replies

  function Datagrams(ts: seq<Task>): seq<Event> {
    seq(|ts|, i requires 0 <= i < |ts| => Datagram(ts[i]))
  }

  /** The sequential machine on what has been handled. */
  ghost function Sequential(s0: Server, handled: seq<Entry>): Outcome {
    Run(s0, Datagrams(TasksOf(handled)))
  }

  lemma SequentialSnoc(s0: Server, handled: seq<Entry>, e: Entry)
    requires var r := Sequential(s0, handled);
             r.Ran? && React(r.server, Datagram(e.task)).Done?
    ensures var r := Sequential(s0, handled);
            var next := React(r.server, Datagram(e.task));
            Sequential(s0, handled + [e]) == Ran(next.server, r.actions + [next.action])
  {
    var events := Datagrams(TasksOf(handled + [e]));
    assert events[..|handled|] == Datagrams(TasksOf(handled));
    assert events[|handled|] == Datagram(e.task);
  }

  /** How far the shared state is ahead of the handled datagrams: only by the
      cursor, and only while an address is on its way into the list. */
  ghost predicate Ahead(base: Server, now: Server, at: Worker) {
    match at
    case Checked(t) =>
      now == base && DispatchType(t) == TYPE_DISCOVER && base.pool.current < base.pool.last
    case Scanning(t, ip) =>
      now == base && DispatchType(t) == TYPE_DISCOVER && base.pool.current < base.pool.last
      && ip == base.pool.current + 1
    case Offering(t, ip) =>
      now == base.(pool := base.pool.(current := ip))
      && DispatchType(t) == TYPE_DISCOVER && base.pool.current < base.pool.last
      && ip == base.pool.current + 1
    case _ => now == base
  }

  /** The two words of the configuration that replies depend on. */
  predicate SameWords(s: Server, s0: Server) {
    s.config.maxLeaseTime == s0.config.maxLeaseTime && s.config.router == s0.config.router
  }

  /** What the worker has found is still what it would find. */
  ghost predicate FoundIsFresh(s: System, at: Worker) {
    at.Using? ==>
      && LooksUp(at.t) && at.seen == |s.handled| && CanUse(s, at.id)
      && PlaceOf(s.origins, at.id) == LookUp(s.server, at.t)
  }

  ghost predicate IsSequential(s: System, s0: Server) {
    && |s.workers| == 1 && FoundIsFresh(s, s.workers[0])
    && s.taken == TasksOf(s.handled) + InWork(s.workers[0])
    && var r := Sequential(s0, s.handled);
       && r.Ran? && r.actions == ActionsOf(s.handled) && Inv(r.server)
       && Ahead(r.server, s.server, s.workers[0])
       && SameWords(r.server, s0) && Answers(s0, TasksOf(s.handled), r.actions, RepliesOf(s.handled))
  }

  lemma HandleKeepsWords(s: Server, t: Task)
    requires Handle(s, t).Done?
    ensures SameWords(Handle(s, t).server, s)
  {
  }

  lemma SameWordsSameReply(s: Server, s0: Server, t: Task, action: Action)
    requires SameWords(s, s0)
    ensures ReplyTo(s, t, action) == ReplyTo(s0, t, action)
  {
  }

  /** Finishing a task is one step of the sequential machine. */
  lemma FinishIsSequential(s: System, s0: Server, t: Task, server: Server, action: Action)
    requires IsSequential(s, s0) && InWork(s.workers[0]) == [t]
    requires Handle(Sequential(s0, s.handled).server, t) == Done(server, action)
    ensures IsSequential(Finish(s, 0, t, server, action), s0)
  {
    var base := Sequential(s0, s.handled).server;
    var e := Finish(s, 0, t, server, action).handled[|s.handled|];
    SequentialSnoc(s0, s.handled, e);
    TasksOfSnoc(s.handled, e);
    ReactKeepsInv(base, Datagram(t));
    HandleKeepsWords(base, t);
    SameWordsSameReply(s.server, s0, t, action);
    assert TasksOf(s.handled + [e]) + [] == TasksOf(s.handled) + [t];
  }

  lemma OriginsDoNotMatter(s: System, s0: Server, origins: seq<nat>)
    requires IsSequential(s, s0) && !s.workers[0].Using?
    ensures IsSequential(s.(origins := origins), s0)
  {
  }

  lemma DispatchIsSequential(s: System, s0: Server, t: Task)
    requires IsSequential(s, s0) && ListNamed(s) && s.workers[0] == Handling(t)
    ensures IsSequential(Worked(s, 0), s0)
  {
    var r := Handle(s.server, t);
    ReactKeepsInv(s.server, Datagram(t));
    if Worked(s, 0).workers[0] == Ready {
      FinishIsSequential(s, s0, t, r.server, r.action);
    } else if LooksUp(t) {
      PlaceOfItem(s.origins, LookUp(s.server, t));
    }
  }

  /** With nobody else around, the two steps of a look-up and its use are the handler. */
  lemma UseIsSequential(s: System, s0: Server)
    requires IsSequential(s, s0) && s.workers[0].Using?
    ensures IsSequential(Worked(s, 0), s0)
  {
    var t := s.workers[0].t;
    var r := Handle(s.server, t);
    LookUpThenGoOn(s.server, t);
    ReactKeepsInv(s.server, Datagram(t));
    FinishIsSequential(s, s0, t, r.server, r.action);
    OriginsDoNotMatter(Finish(s, 0, t, r.server, r.action), s0, Worked(s, 0).origins);
    assert Worked(s, 0) == Finish(s, 0, t, r.server, r.action).(origins := Worked(s, 0).origins);
  }

  lemma ProbeIsSequential(s: System, s0: Server)
    requires IsSequential(s, s0) && s.workers[0].Scanning?
    ensures IsSequential(Worked(s, 0), s0)
  {
    assert IpAvailable(s.server.pool, s.server.bindings, s.workers[0].ip);
  }

  lemma RecordIsSequential(s: System, s0: Server)
    requires IsSequential(s, s0) && s.workers[0].Offering?
    ensures IsSequential(Worked(s, 0), s0)
  {
    var t, base := s.workers[0].t, Sequential(s0, s.handled).server;
    RecordIsDiscover(base, s);
    var r := Handle(base, t);
    FinishIsSequential(s, s0, t, r.server, r.action);
    OriginsDoNotMatter(Finish(s, 0, t, r.server, r.action), s0, Worked(s, 0).origins);
  }

  /** Entering the address that was found completes the DISCOVER. */
  lemma RecordIsDiscover(base: Server, s: System)
    requires |s.workers| == 1 && s.workers[0].Offering? && Inv(base) && Ahead(base, s.server, s.workers[0])
    ensures var t := s.workers[0].t;
            Handle(base, t).Done?
            && Worked(s, 0) == Finish(s, 0, t, Handle(base, t).server, Handle(base, t).action).(
                                 origins := Worked(s, 0).origins)
  {
    DiscoverOffersNext(base, s.workers[0].t);
  }

  lemma WorkIsSequential(s: System, s0: Server)
    requires IsSequential(s, s0) && ListNamed(s) && CanWork(s, 0)
    ensures IsSequential(Worked(s, 0), s0)
  {
    var at := s.workers[0];
    if at.Handling? {
      DispatchIsSequential(s, s0, at.t);
    } else if at.Scanning? {
      ProbeIsSequential(s, s0);
    } else if at.Offering? {
      RecordIsSequential(s, s0);
    } else if at.Using? {
      UseIsSequential(s, s0);
    } else {
      LocalWorkIsSequential(s, s0);
    }
  }

  /** Steps on the queue, and the look at the pool before it is locked. */
  lemma LocalWorkIsSequential(s: System, s0: Server)
    requires IsSequential(s, s0) && CanWork(s, 0)
    requires !s.workers[0].Handling? && !s.workers[0].Scanning? && !s.workers[0].Offering? && !s.workers[0].Using?
    ensures IsSequential(Worked(s, 0), s0)
  {
    var s' := Worked(s, 0);
    assert s'.handled == s.handled && s'.server == s.server;
    assert s'.taken == s.taken || s'.taken == s.taken + InWork(s'.workers[0]);
    assert s.taken + [] == s.taken;
  }

  /** The receiver and a wakeup touch nothing of this. */
  lemma OtherStepIsSequential(s: System, s0: Server, step: Step)
    requires IsSequential(s, s0) && Enabled(s, step) && !step.Work?
    ensures IsSequential(Next(s, step), s0)
  {
    var s' := Next(s, step);
    assert s'.handled == s.handled && s'.taken == s.taken && s'.server == s.server;
  }

  lemma StepIsSequential(s: System, s0: Server, step: Step)
    requires IsSequential(s, s0) && ListNamed(s) && Enabled(s, step)
    ensures IsSequential(Next(s, step), s0)
  {
    if step.Work? {
      WorkIsSequential(s, s0);
    } else {
      OtherStepIsSequential(s, s0, step);
    }
  }

  lemma {:induction false} RunIsSequential(s: System, s0: Server, steps: seq<Step>)
    requires IsSequential(s, s0) && Named(s) && Possible(s, steps)
    ensures IsSequential(After(s, steps), s0)
    decreases steps
  {
    if steps != [] {
      NamesKept(s, steps[0]);
      StepIsSequential(s, s0, steps[0]);
      RunIsSequential(Next(s, steps[0]), s0, steps[1..]);
    }
  }

  /** Every interleaving of the receiver and the one worker: the datagrams that
      arrived are those handled, the one in work, the queue, and the one the
      receiver holds, in this order; and the pool, the bindings, the configuration,
      the actions and the replies are those of the sequential run on the handled
      ones, with the cursor one ahead while an offer is being entered. */
  lemma OneWorkerIsSequential(first: u32, last: u32, config: Config, steps: seq<Step>)
    requires Possible(Start(1, first, last, config), steps)
    ensures var s := After(Start(1, first, last, config), steps);
            && |s.workers| == 1
            && s.arrived == TasksOf(s.handled) + InWork(s.workers[0]) + s.queue + InHand(s.receiver)
            && var r := Run(Initial(first, last, config), Datagrams(TasksOf(s.handled)));
               && r.Ran? && r.actions == ActionsOf(s.handled)
               && Answers(Initial(first, last, config), TasksOf(s.handled), r.actions, RepliesOf(s.handled))
               && if s.workers[0].Offering? then
                    s.workers[0].ip == r.server.pool.current + 1
                    && s.server == r.server.(pool := r.server.pool.(current := s.workers[0].ip))
                  else s.server == r.server
  {
    var start := Start(1, first, last, config);
    StartSound(1, first, last, config);
    ReachedSound(start, steps);
    RunIsSequential(start, Initial(first, last, config), steps);
    WhatSequentialMeans(After(start, steps), Initial(first, last, config));
  }

  lemma WhatSequentialMeans(s: System, s0: Server)
    requires InOrder(s) && IsSequential(s, s0)
    ensures |s.workers| == 1
    ensures s.arrived == TasksOf(s.handled) + InWork(s.workers[0]) + s.queue + InHand(s.receiver)
    ensures var r := Run(s0, Datagrams(TasksOf(s.handled)));
            && r.Ran? && r.actions == ActionsOf(s.handled)
            && Answers(s0, TasksOf(s.handled), r.actions, RepliesOf(s.handled))
            && if s.workers[0].Offering? then
                 s.workers[0].ip == r.server.pool.current + 1
                 && s.server == r.server.(pool := r.server.pool.(current := s.workers[0].ip))
               else s.server == r.server
  {
  }

  // ----- Replies

  /** The words replies depend on never change, so at any point of a run equal
      actions mean equal replies: those of the state the run started in. */
  lemma RepliesFollowActions(s0: Server, events: seq<Event>, t: Task, action: Action)
    requires Run(s0, events).Ran?
    ensures ReplyTo(Run(s0, events).server, t, action) == ReplyTo(s0, t, action)
  {
    ConfigStays(s0, events);
  }

  lemma {:induction false} ConfigStays(s0: Server, events: seq<Event>)
    requires Run(s0, events).Ran?
    ensures SameWords(Run(s0, events).server, s0)
    decreases events
  {
    if events != [] {
      ConfigStays(s0, events[..|events| - 1]);
    }
  }
}
