/** The threads of the server as interleaved steps: one receiver, which submits
    datagrams, and any number of workers, which take and handle them. Two mutexes
    and a condition variable order them. A step is what one thread does between
    two points at which others can get in its way. The third mutex, around the search
    of REQUEST, guards nothing but searches and orders nothing. Inserting into the
    list and removing from it are single steps. */
module Threads {
  import opened Words
  import opened Leases
  import opened Replies
  import opened TaskQueue

  datatype Holder = Nobody | TheReceiver | TheWorker(w: nat)

  /** Where the receiver is in its loop and in submitTask. */
  datatype Receiver =
    | Idle                 // in recvfrom
    | Received(t: Task)    // about to lock the queue
    | Holding(t: Task)     // queue locked, task not stored yet
    | Pushed               // task stored, queue still locked
    | MustSignal           // unlocked, condition not signalled yet

  /** Where a worker is in startThread and handle_client. */
  datatype Worker =
    | Ready                          // about to lock the queue
    | Testing(woken: bool)           // queue locked, at the test of the while loop
    | Sleeping                       // in pthread_cond_wait
    | Woken                          // woken up, about to lock the queue again
    | Taken(t: Task)                 // task taken out, queue still locked
    | Handling(t: Task)              // at the start of handle_client
    | Checked(t: Task)               // a DISCOVER that has seen room in the pool
    | Scanning(t: Task, ip: u32)     // pool locked, the loop at candidate ip
    | Offering(t: Task, ip: u32)     // pool unlocked, address not entered in the list yet
    | Using(t: Task, id: nat, seen: nat)   // a binding looked up, about to go on with it

  /** A datagram that was handled, what came of it, and what was sent. When its handler
      looked a binding up the record had `seen` entries; for others it is their number. */
  datatype Entry = Entry(task: Task, action: Action, reply: Reply, seen: nat)

  /** `arrived`, `taken` and `handled` record what has happened, in that order. For each
      binding `origins` holds the number of the entry that offered it: a pointer to a
      binding is that number, and is good as long as it is there. */
  datatype System = System(
    workers: seq<Worker>, receiver: Receiver,
    queue: seq<Task>, queueLock: Holder, poolLock: Holder,
    server: Server, origins: seq<nat>,
    arrived: seq<Task>, taken: seq<Task>, handled: seq<Entry>)

  /** `Signal` says which sleeper is woken; `Spurious` wakes one without a signal. */
  datatype Step = Arrive(t: Task) | Submit | Signal(w: nat) | Work(w: nat) | Spurious(w: nat)

  function Start(n: nat, first: u32, last: u32, config: Config): System {
    System(seq(n, i => Ready), Idle, [], Nobody, Nobody, Initial(first, last, config), [], [], [], [])
  }

  function Move(s: System, w: nat, at: Worker): System
    requires w < |s.workers|
  {
    s.(workers := s.workers[w := at])
  }

  /** Worker `w` is done with its task and goes back for the next. */
  function Finish(s: System, w: nat, t: Task, server: Server, action: Action): System
    requires w < |s.workers|
  {
    var seen := if s.workers[w].Using? then s.workers[w].seen else |s.handled|;
    Move(s, w, Ready).(server := server, handled := s.handled + [Entry(t, action, ReplyTo(s.server, t, action), seen)])
  }

  predicate Asleep(s: System, w: nat) {
    w < |s.workers| && s.workers[w] == Sleeping
  }

  ghost predicate NobodyAsleep(s: System) {
    forall w :: 0 <= w < |s.workers| ==> s.workers[w] != Sleeping
  }

  // ----- The receiver

  predicate CanSubmit(s: System) {
    match s.receiver
    case Idle => false
    case Received(_) => s.queueLock == Nobody
    case Holding(_) => true
    case Pushed => true
    case MustSignal => false
  }

  function Submitted(s: System): System
    requires CanSubmit(s)
  {
    match s.receiver
    case Received(t) => s.(receiver := Holding(t), queueLock := TheReceiver)
    case Holding(t) => s.(receiver := Pushed, queue := s.queue + [t])
    case Pushed => s.(receiver := MustSignal, queueLock := Nobody)
  }

  // ----- The workers

  /** The first position of `x`, or the length of the sequence. */
  function PlaceOf(xs: seq<nat>, x: nat): (k: nat)
    ensures k <= |xs|
    ensures k < |xs| <==> x in xs
    ensures k < |xs| ==> xs[k] == x
  {
    if xs == [] || xs[0] == x then 0 else 1 + PlaceOf(xs[1..], x)
  }

  /** The binding is still in the list. There is no step for a worker that goes on with
      one that is not: it has been freed, and C does not say what happens. */
  predicate CanUse(s: System, id: nat) {
    |s.origins| == |s.server.bindings| && id in s.origins
  }

  predicate Dangles(s: System, at: Worker) {
    at.Using? && !CanUse(s, at.id)
  }

  /** Some worker is about to go on with a binding that has left the list. */
  ghost predicate Dangling(s: System) {
    exists w :: 0 <= w < |s.workers| && Dangles(s, s.workers[w])
  }

  predicate CanWork(s: System, w: nat) {
    w < |s.workers| &&
    match s.workers[w]
    case Ready => s.queueLock == Nobody
    case Woken => s.queueLock == Nobody
    case Checked(_) => s.poolLock == Nobody
    case Using(_, id, _) => CanUse(s, id)
    case Sleeping => false
    case _ => true
  }

  /** The next step of worker `w`, which is determined by where it is. */
  ghost function Worked(s: System, w: nat): System
    requires CanWork(s, w)
  {
    match s.workers[w]
    case Ready => Move(s, w, Testing(false)).(queueLock := TheWorker(w))
    case Woken => Move(s, w, Testing(true)).(queueLock := TheWorker(w))
    case Testing(_) => Tested(s, w)
    case Taken(t) => Move(s, w, Handling(t)).(queueLock := Nobody)
    case Handling(t) => Dispatched(s, w, t)
    case Checked(t) => Move(s, w, Scanning(t, Succ32(s.server.pool.current))).(poolLock := TheWorker(w))
    case Scanning(t, ip) => Probed(s, w, t, ip)
    case Offering(t, ip) => Recorded(s, w, t, ip)
    case Using(t, id, _) => Used(s, w, t, id)
  }

  /** Sleeping gives up the mutex; taking keeps it for one more step. */
  function Tested(s: System, w: nat): System
    requires w < |s.workers|
  {
    if s.queue == [] then Move(s, w, Sleeping).(queueLock := Nobody)
    else Move(s, w, Taken(s.queue[0])).(queue := s.queue[1..], taken := s.taken + [s.queue[0]])
  }

  /** A DISCOVER looks at the pool without a lock; a REQUEST, DECLINE or RELEASE looks
      its binding up. Anything else is handled at once. */
  ghost function Dispatched(s: System, w: nat, t: Task): System
    requires w < |s.workers|
  {
    if DispatchType(t) == TYPE_DISCOVER then
      if s.server.pool.current >= s.server.pool.last then Finish(s, w, t, s.server, Silent)
      else Move(s, w, Checked(t))
    else if LooksUp(t) then
      var k := LookUp(s.server, t);
      if k == |s.server.bindings| then Finish(s, w, t, s.server, Silent)
      else Move(s, w, Using(t, if k < |s.origins| then s.origins[k] else 0, |s.handled|))
    else
      var r := Handle(s.server, t);
      Finish(s, w, t, r.server, r.action)
  }

  /** One turn of the loop over candidates; leaving the loop unlocks the pool. */
  function Probed(s: System, w: nat, t: Task, ip: u32): System
    requires w < |s.workers|
  {
    var pool := s.server.pool;
    if ip > pool.last then Finish(s, w, t, s.server, Silent).(poolLock := Nobody)
    else if !IpAvailable(pool, s.server.bindings, ip) then Move(s, w, Scanning(t, Succ32(ip)))
    else
      var server := s.server.(pool := pool.(current := ip));
      if ip == 0 then Finish(s, w, t, server, Silent).(poolLock := Nobody)
      else Move(s, w, Offering(t, ip)).(server := server, poolLock := Nobody)
  }

  function Recorded(s: System, w: nat, t: Task, ip: u32): System
    requires w < |s.workers|
  {
    if t.mallocOk then
      var server := s.server.(bindings := [NewBinding(t, ip, s.server.config)] + s.server.bindings);
      Finish(s, w, t, server, Offered(ClientOf(t.request), ip)).(origins := [|s.handled|] + s.origins)
    else Finish(s, w, t, s.server, OfferLost(ip))
  }

  /** Whatever has happened to the binding since, short of leaving the list. */
  function Used(s: System, w: nat, t: Task, id: nat): System
    requires w < |s.workers| && CanUse(s, id)
  {
    var k := PlaceOf(s.origins, id);
    var r := GoOnWith(s.server, t, k);
    Finish(s, w, t, r.server, r.action).(
      origins := if r.action.Declined? then s.origins[..k] + s.origins[k + 1..] else s.origins)
  }

  // ----- Steps and runs

  /** A datagram arrives only while there is room for it in the queue, which the
      program leaves to chance. */
  ghost predicate Enabled(s: System, step: Step) {
    match step
    case Arrive(_) => s.receiver == Idle && |s.queue| < CAPACITY
    case Submit => CanSubmit(s)
    case Signal(w) => s.receiver == MustSignal && (Asleep(s, w) || NobodyAsleep(s))
    case Work(w) => CanWork(s, w)
    case Spurious(w) => Asleep(s, w)
  }

  ghost function Next(s: System, step: Step): System
    requires Enabled(s, step)
  {
    match step
    case Arrive(t) => s.(receiver := Received(t), arrived := s.arrived + [t])
    case Submit => Submitted(s)
    case Signal(w) => (if Asleep(s, w) then Move(s, w, Woken) else s).(receiver := Idle)
    case Work(w) => Worked(s, w)
    case Spurious(w) => Move(s, w, Woken)
  }

  ghost predicate Possible(s: System, steps: seq<Step>)
    decreases steps
  {
    steps == [] || (Enabled(s, steps[0]) && Possible(Next(s, steps[0]), steps[1..]))
  }

  ghost function After(s: System, steps: seq<Step>): System
    requires Possible(s, steps)
    decreases steps
  {
    if steps == [] then s else After(Next(s, steps[0]), steps[1..])
  }

  /** A state the program can be in, started with `n` workers. */
  ghost predicate Reachable(n: nat, first: u32, last: u32, config: Config, s: System) {
    exists steps :: Possible(Start(n, first, last, config), steps) && After(Start(n, first, last, config), steps) == s
  }

  lemma {:induction false} RunsCompose(s: System, first: seq<Step>, second: seq<Step>)
    requires Possible(s, first) && Possible(After(s, first), second)
    ensures Possible(s, first + second) && After(s, first + second) == After(After(s, first), second)
    decreases first
  {
    if first == [] {
      assert first + second == second;
    } else {
      assert (first + second)[0] == first[0] && (first + second)[1..] == first[1..] + second;
      RunsCompose(Next(s, first[0]), first[1..], second);
    }
  }
}
