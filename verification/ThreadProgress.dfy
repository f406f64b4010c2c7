/** The system never gets stuck with work left: whatever has happened so far, the
    threads stop only when everything has been handled, save what is in the hands of
    workers that have come by a freed binding. And they do stop, by themselves,
    unless a scan of the pool can go on forever. */
module ThreadProgress {
  import opened Words
  import opened Leases
  import opened Threads
  import opened ThreadOrder
  import opened ThreadWakeup
  import opened ThreadAddresses

  /** Steps the threads take by themselves: no datagram arrives, and nobody is
      woken up without a signal. */
  predicate Internal(step: Step) {
    step.Submit? || step.Signal? || step.Work?
  }

  ghost predicate InternalRun(s: System, steps: seq<Step>) {
    Possible(s, steps) && forall i :: 0 <= i < |steps| ==> Internal(steps[i])
  }

  // ----- When every scan ends

  /** A scan that wraps around ends at address 0 if the pool starts there: 0 is
      available forever, because an offer of 0 counts as none. */
  predicate ScanEnds(workers: nat, pool: Pool) {
    NoWrap(workers, pool) || pool.first == 0
  }

  ghost predicate ZeroFree(s: System) {
    && s.server.pool.first == 0 && !Bound(s.server.bindings, 0)
    && forall w :: 0 <= w < |s.workers| && s.workers[w].Offering? ==> s.workers[w].ip != 0
  }

  lemma ZeroStaysFree(s: System, step: Step)
    requires ZeroFree(s) && Enabled(s, step)
    ensures ZeroFree(Next(s, step))
  {
    if step.Work? {
      WorkKeepsZeroFree(s, step.w);
    }
  }

  lemma WorkKeepsZeroFree(s: System, w: nat)
    requires ZeroFree(s) && CanWork(s, w)
    ensures ZeroFree(Worked(s, w))
  {
    var at := s.workers[w];
    if at.Handling? && DispatchType(at.t) != TYPE_DISCOVER && !LooksUp(at.t) {
      HandleBindsNothing(s.server, at.t);
    } else if at.Using? {
      GoingOnBindsNothing(s.server, at.t, PlaceOf(s.origins, at.id));
    }
  }

  /** What bounds the scans in a state: the addresses on one kind of pool, the
      free address 0 on the other. */
  ghost predicate Tame(s: System) {
    && Sound(s)
    && if NoWrap(|s.workers|, s.server.pool) then AddressesDistinct(s) else ZeroFree(s)
  }

  lemma TameKept(s: System, step: Step)
    requires Tame(s) && Enabled(s, step)
    ensures Tame(Next(s, step))
  {
    LocksKept(s, step);
    OrderKept(s, step);
    ShapeKept(s, step);
    if NoWrap(|s.workers|, s.server.pool) {
      AddressesKept(s, step);
    } else {
      ZeroStaysFree(s, step);
    }
  }

  // ----- A measure of the work left

  /** How many probes a scan may take beyond its first one. */
  function LongestScan(workers: nat, pool: Pool): nat {
    if NoWrap(workers, pool) then 0 else TWO_TO_THE_32
  }

  /** Probes until the loop variable is 0. */
  function ProbesToZero(ip: u32): nat {
    if ip == 0 then 0 else TWO_TO_THE_32 - ip
  }

  function Rank(at: Worker, longest: nat): nat {
    match at
    case Sleeping => 0
    case Testing(_) => 1
    case Ready => 2
    case Woken => 2
    case Offering(_, _) => 3
    case Using(_, _, _) => 3
    case Scanning(_, ip) => 4 + if longest == 0 then 0 else ProbesToZero(ip)
    case Checked(_) => 5 + longest
    case Handling(_) => 6 + longest
    case Taken(_) => 7 + longest
  }

  function Ranks(workers: seq<Worker>, longest: nat): nat {
    if workers == [] then 0 else Rank(workers[0], longest) + Ranks(workers[1..], longest)
  }

  lemma {:induction false} RanksMove(workers: seq<Worker>, w: nat, at: Worker, longest: nat)
    requires w < |workers|
    ensures Ranks(workers[w := at], longest) ==
            Ranks(workers, longest) - Rank(workers[w], longest) + Rank(at, longest)
  {
    var moved := workers[w := at];
    if w == 0 {
      assert moved[1..] == workers[1..];
    } else {
      assert moved[1..] == workers[1..][w - 1 := at];
      RanksMove(workers[1..], w - 1, at, longest);
    }
  }

  function ReceiverRank(r: Receiver, longest: nat): nat {
    match r
    case Idle => 0
    case MustSignal => 3
    case Pushed => 4
    case Holding(_) => 12 + longest
    case Received(_) => 13 + longest
  }

  function WorkLeft(s: System): nat {
    var longest := LongestScan(|s.workers|, s.server.pool);
    (7 + longest) * |s.queue| + ReceiverRank(s.receiver, longest) + Ranks(s.workers, longest)
  }

  /** A probe ends the scan, or brings it closer to address 0, where it ends. */
  lemma ProbeApproachesEnd(s: System, w: nat)
    requires Tame(s) && CanWork(s, w) && s.workers[w].Scanning?
    ensures var longest := LongestScan(|s.workers|, s.server.pool);
            Rank(Worked(s, w).workers[w], longest) < Rank(s.workers[w], longest)
  {
    if NoWrap(|s.workers|, s.server.pool) {
      ProbeEnds(s, w);
    }
  }

  /** How a worker's step changes its rank. */
  lemma WorkLowersRank(s: System, w: nat)
    requires Tame(s) && CanWork(s, w)
    ensures var s', longest := Worked(s, w), LongestScan(|s.workers|, s.server.pool);
            && s'.workers == s.workers[w := s'.workers[w]] && s'.receiver == s.receiver
            && if s.workers[w].Testing? && s.queue != [] then
                 |s'.queue| == |s.queue| - 1 && Rank(s'.workers[w], longest) == 7 + longest
               else s'.queue == s.queue && Rank(s'.workers[w], longest) < Rank(s.workers[w], longest)
  {
    if s.workers[w].Scanning? {
      ProbeApproachesEnd(s, w);
    } else if s.workers[w].Handling? {
      DispatchLowersRank(s, w, LongestScan(|s.workers|, s.server.pool));
    } else if s.workers[w].Using? {
      UseLowersRank(s, w, LongestScan(|s.workers|, s.server.pool));
    }
  }

  lemma DispatchLowersRank(s: System, w: nat, longest: nat)
    requires CanWork(s, w) && s.workers[w].Handling?
    ensures var s' := Worked(s, w);
            && s'.workers == s.workers[w := s'.workers[w]] && s'.receiver == s.receiver && s'.queue == s.queue
            && Rank(s'.workers[w], longest) < Rank(s.workers[w], longest)
  {
  }

  lemma UseLowersRank(s: System, w: nat, longest: nat)
    requires CanWork(s, w) && s.workers[w].Using?
    ensures var s' := Worked(s, w);
            && s'.workers == s.workers[w := s'.workers[w]] && s'.receiver == s.receiver && s'.queue == s.queue
            && Rank(s'.workers[w], longest) < Rank(s.workers[w], longest)
  {
  }

  lemma OneTaskLess(weight: nat, n: nat)
    requires n > 0
    ensures weight * n == weight * (n - 1) + weight
  {
  }

  lemma SubmitUsesUpWork(s: System)
    requires CanSubmit(s)
    ensures Submitted(s).workers == s.workers && WorkLeft(Submitted(s)) < WorkLeft(s)
  {
    var weight := 7 + LongestScan(|s.workers|, s.server.pool);
    OneTaskLess(weight, |s.queue| + 1);
  }

  lemma WorkUsesUpWork(s: System, w: nat)
    requires Tame(s) && CanWork(s, w)
    ensures WorkLeft(Worked(s, w)) < WorkLeft(s)
  {
    var s', longest := Worked(s, w), LongestScan(|s.workers|, s.server.pool);
    ShapeKept(s, Work(w));
    WorkLowersRank(s, w);
    RanksMove(s.workers, w, s'.workers[w], longest);
    if s.queue != [] {
      OneTaskLess(7 + longest, |s.queue|);
    }
  }

  lemma InternalStepsUseUpWork(s: System, step: Step)
    requires Tame(s) && Enabled(s, step) && Internal(step)
    ensures WorkLeft(Next(s, step)) < WorkLeft(s)
  {
    match step
    case Submit => SubmitUsesUpWork(s);
    case Signal(w) =>
      if Asleep(s, w) {
        RanksMove(s.workers, w, Woken, LongestScan(|s.workers|, s.server.pool));
      }
    case Work(w) => WorkUsesUpWork(s, w);
  }

  /** Any run of such steps is bounded: nothing spins, and no scan goes on forever. */
  lemma {:induction false} InternalRunsEnd(s: System, steps: seq<Step>)
    requires Tame(s) && InternalRun(s, steps)
    ensures |steps| <= WorkLeft(s)
    decreases steps
  {
    if steps != [] {
      InternalStepsUseUpWork(s, steps[0]);
      TameKept(s, steps[0]);
      InternalRunsEnd(Next(s, steps[0]), steps[1..]);
    }
  }

  // ----- Where the threads rest

  /** Everybody waits, and there is nothing to do. */
  ghost predicate AtRest(s: System) {
    && s.receiver == Idle && s.queue == []
    && forall w :: 0 <= w < |s.workers| ==> s.workers[w] == Sleeping
  }

  /** Everybody waits or has come by a freed binding; there is nothing to do, except
      when nobody is left to do it. */
  ghost predicate Halted(s: System) {
    && s.receiver == Idle && (s.queue == [] || NobodyAsleep(s))
    && forall w :: 0 <= w < |s.workers| ==> s.workers[w] == Sleeping || Dangles(s, s.workers[w])
  }

  lemma HaltedMeansAtRest(s: System)
    requires |s.workers| > 0 && !Dangling(s)
    ensures Halted(s) <==> AtRest(s)
  {
    if Halted(s) {
      assert s.workers[0] == Sleeping;
    }
  }

  lemma {:induction false} SleepersHaveNothing(workers: seq<Worker>)
    requires forall w :: 0 <= w < |workers| ==> workers[w] == Sleeping
    ensures AllInWork(workers) == multiset{}
  {
    if workers != [] {
      SleepersHaveNothing(workers[1..]);
    }
  }

  lemma {:induction false} NobodyOnTheWay(workers: seq<Worker>)
    requires forall w :: 0 <= w < |workers| ==> workers[w] == Sleeping || workers[w].Using?
    ensures CountOnTheirWay(workers) == 0
  {
    if workers != [] {
      NobodyOnTheWay(workers[1..]);
    }
  }

  /** Who can go on when worker `w` is not asleep. */
  lemma AwakeCanGoOn(s: System, w: nat) returns (step: Step)
    requires Sound(s) && w < |s.workers| && s.workers[w] != Sleeping && !Dangles(s, s.workers[w])
    ensures Enabled(s, step) && Internal(step)
  {
    if CanWork(s, w) {
      step := Work(w);
    } else if s.workers[w].Checked? {
      HolderCanWork(s, s.poolLock.w);
      step := Work(s.poolLock.w);
    } else if s.queueLock == TheReceiver {
      step := Submit;
    } else {
      HolderCanWork(s, s.queueLock.w);
      step := Work(s.queueLock.w);
    }
  }

  /** The holder of a mutex can always go on. */
  lemma HolderCanWork(s: System, w: nat)
    requires LocksMatch(s) && w < |s.workers|
    requires s.queueLock == TheWorker(w) || s.poolLock == TheWorker(w)
    ensures CanWork(s, w)
  {
  }

  /** Unless the threads have halted, one of them can go on by itself. */
  lemma NeverStuck(s: System) returns (step: Step)
    requires Sound(s) && NoLostWakeup(s) && !Halted(s)
    ensures Enabled(s, step) && Internal(step)
  {
    if w: nat :| w < |s.workers| && s.workers[w] != Sleeping && !Dangles(s, s.workers[w]) {
      step := AwakeCanGoOn(s, w);
    } else if s.receiver == MustSignal {
      if NobodyAsleep(s) {
        step := Signal(0);
      } else {
        var w: nat :| w < |s.workers| && s.workers[w] == Sleeping;
        step := Signal(w);
      }
    } else {
      // Nobody is owed a signal or on the way: the queue is empty, or nobody waits.
      NobodyOnTheWay(s.workers);
      step := Submit;
    }
  }

  /** From any such state on which scans end the threads can bring themselves to a halt. */
  lemma {:induction false} ComesToHalt(s: System) returns (steps: seq<Step>)
    requires Tame(s) && NoLostWakeup(s)
    ensures InternalRun(s, steps) && Halted(After(s, steps))
    decreases WorkLeft(s)
  {
    if Halted(s) {
      steps := [];
    } else {
      var step := NeverStuck(s);
      InternalStepsUseUpWork(s, step);
      TameKept(s, step);
      WakeupsKept(s, step);
      var rest := ComesToHalt(Next(s, step));
      steps := [step] + rest;
      assert steps[0] == step && steps[1..] == rest;
    }
  }

  // ----- Reachable states

  /** Any number of workers, any pool. */
  lemma ReachableIsSound(n: nat, first: u32, last: u32, config: Config, s: System)
    requires Reachable(n, first, last, config, s)
    ensures Sound(s) && NoLostWakeup(s)
  {
    var steps :| Possible(Start(n, first, last, config), steps) && After(Start(n, first, last, config), steps) == s;
    StartSound(n, first, last, config);
    ReachedSound(Start(n, first, last, config), steps);
    ReachedNoLostWakeup(Start(n, first, last, config), steps);
  }

  lemma {:induction false} TameForGood(s: System, steps: seq<Step>)
    requires Tame(s) && Possible(s, steps)
    ensures var s' := After(s, steps); Tame(s') && |s'.workers| == |s.workers|
    decreases steps
  {
    if steps != [] {
      TameKept(s, steps[0]);
      ShapeKept(s, steps[0]);
      TameForGood(Next(s, steps[0]), steps[1..]);
    }
  }

  lemma StartTame(n: nat, first: u32, last: u32, config: Config)
    requires ScanEnds(n, Pool(first, last, first))
    ensures Tame(Start(n, first, last, config))
  {
    StartSound(n, first, last, config);
  }

  lemma ReachableIsTame(n: nat, first: u32, last: u32, config: Config, s: System)
    requires ScanEnds(n, Pool(first, last, first)) && Reachable(n, first, last, config, s)
    ensures Tame(s) && |s.workers| == n
  {
    var steps :| Possible(Start(n, first, last, config), steps) && After(Start(n, first, last, config), steps) == s;
    StartTame(n, first, last, config);
    TameForGood(Start(n, first, last, config), steps);
  }

  /** What has arrived was handled once or is in the hands of a worker that has come by
      a freed binding; it waits in the queue only if all workers have. */
  ghost predicate Stopped(s: System, s': System) {
    && Halted(s') && s'.arrived == s.arrived
    && multiset(s.arrived) == multiset(TasksOf(s'.handled)) + AllInWork(s'.workers) + multiset(s'.queue)
  }

  /** Without such a worker everything was handled. */
  lemma RestMeansHandled(s: System, s': System)
    requires Stopped(s, s') && !Dangling(s') && |s'.workers| > 0
    ensures AtRest(s') && multiset(s.arrived) == multiset(TasksOf(s'.handled))
  {
    HaltedMeansAtRest(s');
    SleepersHaveNothing(s'.workers);
  }

  ghost predicate CanGoOn(s: System) {
    exists step :: Internal(step) && Enabled(s, step)
  }

  /** Whatever has happened since the start, with any number of workers and on any
      pool: until the next datagram the threads stop nowhere but where every
      datagram has been handled once, save those of workers with a freed binding. */
  lemma NoDatagramLeftBehind(n: nat, first: u32, last: u32, config: Config, s: System, more: seq<Step>)
    requires Reachable(n, first, last, config, s) && InternalRun(s, more)
    ensures Stopped(s, After(s, more)) || CanGoOn(After(s, more))
    ensures AtRest(After(s, more)) ==> multiset(s.arrived) == multiset(TasksOf(After(s, more).handled))
  {
    ReachableIsSound(n, first, last, config, s);
    ReachedSound(s, more);
    ReachedNoLostWakeup(s, more);
    InternalRunsDeliverNothing(s, more);
    var s' := After(s, more);
    if Halted(s') {
      assert s'.arrived == s'.taken + s'.queue;
      SumsUp(s'.taken, s'.queue);
      if AtRest(s') {
        SleepersHaveNothing(s'.workers);
      }
    } else {
      var step := NeverStuck(s');
    }
  }

  lemma SumsUp<T>(a: seq<T>, b: seq<T>)
    ensures multiset(a + b) == multiset(a) + multiset(b)
  {
  }

  lemma {:induction false} InternalRunsDeliverNothing(s: System, steps: seq<Step>)
    requires InternalRun(s, steps)
    ensures After(s, steps).arrived == s.arrived
    decreases steps
  {
    if steps != [] {
      assert Next(s, steps[0]).arrived == s.arrived;
      InternalRunsDeliverNothing(Next(s, steps[0]), steps[1..]);
    }
  }
}
