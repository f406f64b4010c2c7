/** What the threads keep in every interleaving: the mutexes exclude, and tasks
    are neither lost, nor duplicated, nor reordered on their way to a worker. */
module ThreadOrder {
  import opened Words
  import opened Leases
  import opened Replies
  import opened TaskQueue
  import opened Threads

  // ----- Mutual exclusion

  predicate HoldsQueue(at: Worker) {
    at.Testing? || at.Taken?
  }

  predicate HoldsPool(at: Worker) {
    at.Scanning?
  }

  /** The lock fields tell exactly who is inside. */
  ghost predicate LocksMatch(s: System) {
    && (s.queueLock == TheReceiver <==> s.receiver.Holding? || s.receiver == Pushed)
    && (forall w :: 0 <= w < |s.workers| ==> (HoldsQueue(s.workers[w]) <==> s.queueLock == TheWorker(w)))
    && (forall w :: 0 <= w < |s.workers| ==> (HoldsPool(s.workers[w]) <==> s.poolLock == TheWorker(w)))
    && (s.queueLock.TheWorker? ==> s.queueLock.w < |s.workers|)
    && (s.poolLock.TheWorker? ==> s.poolLock.w < |s.workers|)
    && s.poolLock != TheReceiver
  }

  lemma LocksKept(s: System, step: Step)
    requires LocksMatch(s) && Enabled(s, step)
    ensures LocksMatch(Next(s, step))
  {
    if step.Work? {
      WorkKeepsLocks(s, step.w);
    }
  }

  /** A worker gets hold of a mutex only when it is free, and nobody but the
      holder gives it up. */
  lemma WorkKeepsLocks(s: System, w: nat)
    requires LocksMatch(s) && CanWork(s, w)
    ensures LocksMatch(Worked(s, w))
  {
    var s' := Worked(s, w);
    WorkerMoves(s, w);
    forall v | 0 <= v < |s'.workers|
      ensures HoldsQueue(s'.workers[v]) <==> s'.queueLock == TheWorker(v)
      ensures HoldsPool(s'.workers[v]) <==> s'.poolLock == TheWorker(v)
    {
    }
  }

  lemma WorkerMoves(s: System, w: nat)
    requires CanWork(s, w)
    ensures var s', at := Worked(s, w), s.workers[w];
            && s'.receiver == s.receiver && s'.workers == s.workers[w := s'.workers[w]]
            && s'.queueLock == (if HoldsQueue(s'.workers[w]) && !HoldsQueue(at) then TheWorker(w)
                                else if HoldsQueue(s'.workers[w]) then s.queueLock
                                else if HoldsQueue(at) then Nobody else s.queueLock)
            && s'.poolLock == (if at.Checked? then TheWorker(w)
                               else if HoldsPool(at) && !HoldsPool(s'.workers[w]) then Nobody else s.poolLock)
            && (HoldsQueue(s'.workers[w]) ==> HoldsQueue(at) || s.queueLock == Nobody)
            && (HoldsPool(s'.workers[w]) ==> HoldsPool(at) || (s.poolLock == Nobody && at.Checked?))
            && (at.Checked? ==> HoldsPool(s'.workers[w]))
  {
  }

  // ----- The way of a task

  /** The task the receiver has not stored yet. */
  function InHand(r: Receiver): seq<Task> {
    match r
    case Received(t) => [t]
    case Holding(t) => [t]
    case _ => []
  }

  /** The task a worker has taken and not finished. */
  function InWork(at: Worker): seq<Task> {
    match at
    case Taken(t) => [t]
    case Handling(t) => [t]
    case Checked(t) => [t]
    case Scanning(t, _) => [t]
    case Offering(t, _) => [t]
    case Using(t, _, _) => [t]
    case _ => []
  }

  function AllInWork(workers: seq<Worker>): multiset<Task> {
    if workers == [] then multiset{}
    else multiset(InWork(workers[0])) + AllInWork(workers[1..])
  }

  lemma AddInOrder<T>(a: multiset<T>, b: multiset<T>, rest: multiset<T>)
    ensures (a + rest) + b == (b + rest) + a
    ensures a + (b + rest) == b + (a + rest)
    ensures (a + b) + rest == a + (b + rest)
  {
  }

  lemma Exchange<T>(head: multiset<T>, a: multiset<T>, b: multiset<T>, out: multiset<T>, into: multiset<T>)
    requires a + out == b + into
    ensures (head + a) + out == (head + b) + into
  {
    AddInOrder(head, a, out);
    AddInOrder(head, b, into);
  }

  /** Moving one worker exchanges what it has in work, and nothing else. */
  lemma {:induction false} InWorkMoves(workers: seq<Worker>, w: nat, at: Worker)
    requires w < |workers|
    ensures AllInWork(workers[w := at]) + multiset(InWork(workers[w])) ==
            AllInWork(workers) + multiset(InWork(at))
  {
    var moved := workers[w := at];
    var out, into := multiset(InWork(workers[w])), multiset(InWork(at));
    if w == 0 {
      assert moved[1..] == workers[1..];
      AddInOrder(into, out, AllInWork(workers[1..]));
    } else {
      assert moved[1..] == workers[1..][w - 1 := at];
      InWorkMoves(workers[1..], w - 1, at);
      Exchange(multiset(InWork(workers[0])), AllInWork(moved[1..]), AllInWork(workers[1..]), out, into);
    }
  }

  lemma InWorkStays(workers: seq<Worker>, w: nat, at: Worker)
    requires w < |workers| && InWork(at) == InWork(workers[w])
    ensures AllInWork(workers[w := at]) == AllInWork(workers)
  {
    InWorkMoves(workers, w, at);
    CancelSame(AllInWork(workers[w := at]), AllInWork(workers), multiset(InWork(at)));
  }

  lemma CancelSame<T>(a: multiset<T>, b: multiset<T>, c: multiset<T>)
    requires a + c == b + c
    ensures a == b
  {
    assert (a + c) - c == a && (b + c) - c == b;
  }

  lemma InWorkGrows(workers: seq<Worker>, w: nat, at: Worker, t: Task)
    requires w < |workers| && InWork(workers[w]) == [] && InWork(at) == [t]
    ensures AllInWork(workers[w := at]) == AllInWork(workers) + multiset{t}
  {
    InWorkMoves(workers, w, at);
    assert multiset([t]) == multiset{t} && AllInWork(workers[w := at]) + multiset{} == AllInWork(workers[w := at]);
  }

  lemma InWorkShrinks(workers: seq<Worker>, w: nat, at: Worker, t: Task)
    requires w < |workers| && InWork(workers[w]) == [t] && InWork(at) == []
    ensures AllInWork(workers) == AllInWork(workers[w := at]) + multiset{t}
  {
    InWorkMoves(workers, w, at);
    assert multiset([t]) == multiset{t} && AllInWork(workers) + multiset{} == AllInWork(workers);
  }

  function TasksOf(entries: seq<Entry>): seq<Task> {
    seq(|entries|, i requires 0 <= i < |entries| => entries[i].task)
  }

  function ActionsOf(entries: seq<Entry>): seq<Action> {
    seq(|entries|, i requires 0 <= i < |entries| => entries[i].action)
  }

  function RepliesOf(entries: seq<Entry>): seq<Reply> {
    seq(|entries|, i requires 0 <= i < |entries| => entries[i].reply)
  }

  lemma TasksOfSnoc(entries: seq<Entry>, e: Entry)
    ensures TasksOf(entries + [e]) == TasksOf(entries) + [e.task]
    ensures ActionsOf(entries + [e]) == ActionsOf(entries) + [e.action]
    ensures RepliesOf(entries + [e]) == RepliesOf(entries) + [e.reply]
  {
  }

  /** What was taken is handled once, or in the hands of exactly one worker. */
  ghost predicate NothingLost(s: System) {
    multiset(s.taken) == multiset(TasksOf(s.handled)) + AllInWork(s.workers)
  }

  /** Arrival order is the order of the queue, and of the taking before it. */
  ghost predicate InOrder(s: System) {
    && s.arrived == s.taken + s.queue + InHand(s.receiver)
    && |s.queue| + |InHand(s.receiver)| <= CAPACITY
  }

  /** How one step of a worker moves its task along. */
  datatype TaskMove = Stays | Takes(t: Task) | Finishes(e: Entry)

  ghost predicate MovesBy(s: System, w: nat, s': System, move: TaskMove)
    requires w < |s.workers|
  {
    && |s'.workers| == |s.workers| && s'.workers == s.workers[w := s'.workers[w]]
    && s'.receiver == s.receiver && s'.arrived == s.arrived
    && var before, after := InWork(s.workers[w]), InWork(s'.workers[w]);
       match move
       case Stays => after == before && s'.handled == s.handled && s'.taken == s.taken && s'.queue == s.queue
       case Takes(t) => before == [] && after == [t] && s'.handled == s.handled
                        && s'.taken == s.taken + [t] && s.queue == [t] + s'.queue
       case Finishes(e) => before == [e.task] && after == [] && s'.handled == s.handled + [e]
                           && s'.taken == s.taken && s'.queue == s.queue
  }

  ghost function TaskMoveOf(s: System, w: nat): TaskMove
    requires CanWork(s, w)
  {
    var s' := Worked(s, w);
    if |s'.handled| > |s.handled| then Finishes(s'.handled[|s.handled|])
    else if |s'.taken| > |s.taken| then Takes(s'.taken[|s.taken|])
    else Stays
  }

  lemma TestingMovesTask(s: System, w: nat)
    requires CanWork(s, w) && s.workers[w].Testing?
    ensures MovesBy(s, w, Worked(s, w), TaskMoveOf(s, w))
  {
    if s.queue != [] {
      assert s.queue == [s.queue[0]] + s.queue[1..];
    }
  }

  lemma DispatchMovesTask(s: System, w: nat)
    requires CanWork(s, w) && s.workers[w].Handling?
    ensures MovesBy(s, w, Worked(s, w), TaskMoveOf(s, w))
  {
  }

  lemma UseMovesTask(s: System, w: nat)
    requires CanWork(s, w) && s.workers[w].Using?
    ensures MovesBy(s, w, Worked(s, w), TaskMoveOf(s, w))
  {
  }

  lemma WorkMovesTask(s: System, w: nat)
    requires CanWork(s, w)
    ensures MovesBy(s, w, Worked(s, w), TaskMoveOf(s, w))
  {
    var at := s.workers[w];
    if at.Testing? {
      TestingMovesTask(s, w);
    } else if at.Handling? {
      DispatchMovesTask(s, w);
    } else if at.Using? {
      UseMovesTask(s, w);
    }
  }

  lemma TakeKeepsOrder(s: System, w: nat, s': System, t: Task)
    requires w < |s.workers| && MovesBy(s, w, s', Takes(t))
    requires InOrder(s) && NothingLost(s)
    ensures InOrder(s') && NothingLost(s')
  {
    assert InOrder(s') by {
      assert s.taken + ([t] + s'.queue) == (s.taken + [t]) + s'.queue;
    }
    InWorkGrows(s.workers, w, s'.workers[w], t);
    assert multiset(s'.taken) == multiset(s.taken) + multiset{t};
    AddInOrder(multiset(TasksOf(s.handled)), AllInWork(s.workers), multiset{t});
  }

  lemma FinishKeepsOrder(s: System, w: nat, s': System, e: Entry)
    requires w < |s.workers| && MovesBy(s, w, s', Finishes(e))
    requires InOrder(s) && NothingLost(s)
    ensures InOrder(s') && NothingLost(s')
  {
    InWorkShrinks(s.workers, w, s'.workers[w], e.task);
    TasksOfSnoc(s.handled, e);
    AddInOrder(multiset(TasksOf(s.handled)), AllInWork(s'.workers), multiset{e.task});
  }

  lemma WorkKeepsOrder(s: System, w: nat)
    requires InOrder(s) && NothingLost(s) && CanWork(s, w)
    ensures InOrder(Worked(s, w)) && NothingLost(Worked(s, w))
  {
    WorkMovesTask(s, w);
    var s' := Worked(s, w);
    match TaskMoveOf(s, w)
    case Stays => InWorkStays(s.workers, w, s'.workers[w]);
    case Takes(t) => TakeKeepsOrder(s, w, s', t);
    case Finishes(e) => FinishKeepsOrder(s, w, s', e);
  }

  lemma WakingKeepsOrder(s: System, w: nat)
    requires InOrder(s) && NothingLost(s) && Asleep(s, w)
    ensures InOrder(Move(s, w, Woken)) && NothingLost(Move(s, w, Woken))
  {
    InWorkStays(s.workers, w, Woken);
  }

  lemma SubmitKeepsOrder(s: System)
    requires InOrder(s) && CanSubmit(s)
    ensures InOrder(Submitted(s))
  {
  }

  lemma ArrivalKeepsOrder(s: System, t: Task)
    requires InOrder(s) && NothingLost(s) && Enabled(s, Arrive(t))
    ensures InOrder(Next(s, Arrive(t))) && NothingLost(Next(s, Arrive(t)))
  {
  }

  lemma SignalKeepsOrder(s: System, w: nat)
    requires InOrder(s) && NothingLost(s) && Enabled(s, Signal(w))
    ensures InOrder(Next(s, Signal(w))) && NothingLost(Next(s, Signal(w)))
  {
    if Asleep(s, w) {
      WakingKeepsOrder(s, w);
    }
  }

  lemma OrderKept(s: System, step: Step)
    requires InOrder(s) && NothingLost(s) && Enabled(s, step)
    ensures InOrder(Next(s, step)) && NothingLost(Next(s, step))
  {
    match step
    case Arrive(t) => ArrivalKeepsOrder(s, t);
    case Submit => SubmitKeepsOrder(s);
    case Signal(w) => SignalKeepsOrder(s, w);
    case Spurious(w) => WakingKeepsOrder(s, w);
    case Work(w) => WorkKeepsOrder(s, w);
  }

  ghost predicate Sound(s: System) {
    LocksMatch(s) && InOrder(s) && NothingLost(s)
  }

  /** In every reachable state, for any number of workers and any interleaving, the
      mutexes exclude and no task is lost, duplicated or overtaken in the queue. */
  lemma {:induction false} ReachedSound(s: System, steps: seq<Step>)
    requires Sound(s) && Possible(s, steps)
    ensures Sound(After(s, steps))
    decreases steps
  {
    if steps != [] {
      LocksKept(s, steps[0]);
      OrderKept(s, steps[0]);
      ReachedSound(Next(s, steps[0]), steps[1..]);
    }
  }

  lemma {:induction false} NoneInWork(n: nat)
    ensures AllInWork(seq(n, i => Ready)) == multiset{}
  {
    if n > 0 {
      assert seq(n, i => Ready)[1..] == seq(n - 1, i => Ready);
      NoneInWork(n - 1);
    }
  }

  lemma StartSound(n: nat, first: u32, last: u32, config: Config)
    ensures Sound(Start(n, first, last, config))
  {
    NoneInWork(n);
  }
}
