/** The loop of startThread on the heap, up to the point where the queue is empty
    and the worker would wait: array queue, binding list and handlers together
    compute a run of the sequential machine, and send its replies. */
module WorkerLoop {
  import opened IntrusiveLists
  import opened Leases
  import opened LeaseInvariant
  import opened TaskQueue
  import opened Replies
  import opened DhcpServer
  import opened ThreadSequential

  /** Handling the tasks `done` takes `s0` to `now` and sends `replies`. */
  ghost predicate Handled(s0: Server, done: seq<Task>, now: Server, replies: seq<Reply>) {
    var r := Run(s0, Datagrams(done));
    r.Ran? && r.server == now && Answers(s0, done, r.actions, replies)
  }

  lemma RunOneMore(s0: Server, tasks: seq<Task>, t: Task)
    requires var r := Run(s0, Datagrams(tasks)); r.Ran? && Handle(r.server, t).Done?
    ensures var r := Run(s0, Datagrams(tasks));
            Run(s0, Datagrams(tasks + [t])) ==
            Ran(Handle(r.server, t).server, r.actions + [Handle(r.server, t).action])
  {
    var events := Datagrams(tasks + [t]);
    assert events[..|tasks|] == Datagrams(tasks) && events[|tasks|] == Datagram(t);
  }

  lemma DoneOneMore(s0: Server, done: seq<Task>, t: Task, now: Server, replies: seq<Reply>)
    requires Handled(s0, done, now, replies) && Handle(now, t).Done?
    ensures var next := Handle(now, t);
            Handled(s0, done + [t], next.server, replies + [ReplyTo(now, t, next.action)])
  {
    RunOneMore(s0, done, t);
    RepliesFollowActions(s0, Datagrams(done), t, Handle(now, t).action);
  }

  // ----- Who goes on

  /** What happens next: a datagram is submitted, or the worker goes on, by taking a
      task, by handling the one it has, or by waiting when there is none. */
  datatype Turn = Submission(task: Task) | WorkerTurn

  function Submissions(turns: seq<Turn>): seq<Task> {
    if turns == [] then []
    else (if turns[0].Submission? then [turns[0].task] else []) + Submissions(turns[1..])
  }

  /** Whenever a datagram is submitted there is room for it in the queue. */
  predicate RoomThroughout(pending: nat, busy: bool, turns: seq<Turn>)
    decreases turns
  {
    turns == [] ||
    var rest := turns[1..];
    if turns[0].Submission? then pending < CAPACITY && RoomThroughout(pending + 1, busy, rest)
    else if busy then RoomThroughout(pending, false, rest)
    else RoomThroughout(if pending == 0 then 0 else pending - 1, pending > 0, rest)
  }

  /** How many tasks the worker finishes in the turns it gets. */
  function Finished(pending: nat, busy: bool, turns: seq<Turn>): nat
    decreases turns
  {
    if turns == [] then 0
    else if turns[0].Submission? then Finished(pending + 1, busy, turns[1..])
    else if busy then 1 + Finished(pending, false, turns[1..])
    else Finished(if pending == 0 then 0 else pending - 1, pending > 0, turns[1..])
  }

  /** Left alone it finishes all that is pending, in two turns for each task. */
  lemma {:induction false} FinishesAll(pending: nat, turns: seq<Turn>)
    requires |turns| == 2 * pending && forall i :: 0 <= i < |turns| ==> turns[i] == WorkerTurn
    ensures Finished(pending, false, turns) == pending && Submissions(turns) == []
    ensures RoomThroughout(pending, false, turns)
    decreases pending
  {
    if pending > 0 {
      var rest := turns[1..];
      assert rest[0] == WorkerTurn && rest[1..] == turns[2..];
      FinishesAll(pending - 1, turns[2..]);
      assert Finished(pending - 1, true, rest) == pending;
    }
  }

  /** One turn: from task in hand, pending tasks and lease state to the next ones. */
  ghost predicate Turned(turn: Turn, inHand: seq<Task>, pending: seq<Task>, now: Server,
                         inHand': seq<Task>, pending': seq<Task>, now': Server, replies: seq<Reply>)
  {
    if turn.Submission? then
      inHand' == inHand && pending' == pending + [turn.task] && now' == now && replies == []
    else if inHand != [] then
      && inHand' == [] && pending' == pending
      && var r := Handle(now, inHand[0]);
         r.Done? && now' == r.server && replies == [ReplyTo(now, inHand[0], r.action)]
    else
      && |inHand'| == (if pending == [] then 0 else 1) && inHand' + pending' == pending
      && now' == now && replies == []
  }

  /** Of `all` tasks the first ones are done, one may be in hand, and the others are
      pending or still to be submitted. */
  ghost predicate Served(s0: Server, all: seq<Task>, done: seq<Task>, inHand: seq<Task>, pending: seq<Task>,
                         turns: seq<Turn>, now: Server, replies: seq<Reply>)
  {
    && |inHand| <= 1 && all == done + inHand + pending + Submissions(turns)
    && RoomThroughout(|pending|, inHand != [], turns) && Handled(s0, done, now, replies)
  }

  lemma Regrouped<T>(a: seq<T>, b: seq<T>, c: seq<T>, d: seq<T>)
    ensures a + (b + c) + d == a + b + c + d && a + b + (c + d) == a + b + c + d
  {
  }

  /** A submission comes last, and the oldest pending task is taken. */
  lemma TasksInOrder(done: seq<Task>, inHand: seq<Task>, pending: seq<Task>, turns: seq<Turn>,
                     done': seq<Task>, inHand': seq<Task>, pending': seq<Task>)
    requires turns != [] && |inHand| <= 1
    requires if turns[0].Submission? then
               done' == done && inHand' == inHand && pending' == pending + [turns[0].task]
             else if inHand != [] then done' == done + inHand && inHand' == [] && pending' == pending
             else done' == done && inHand' + pending' == pending
    ensures done + inHand + pending + Submissions(turns) == done' + inHand' + pending' + Submissions(turns[1..])
  {
    var later := Submissions(turns[1..]);
    if turns[0].Submission? {
      Regrouped(done + inHand, pending, [turns[0].task], later);
      assert Submissions(turns) == [turns[0].task] + later;
    } else if inHand != [] {
      assert Submissions(turns) == later;
      assert done' + inHand' == done + inHand;
    } else {
      assert Submissions(turns) == later;
      assert done + inHand == done;
      Regrouped(done, inHand', pending', later);
    }
  }

  lemma ServedOneMore(s0: Server, all: seq<Task>, done: seq<Task>, inHand: seq<Task>, pending: seq<Task>,
                      turns: seq<Turn>, now: Server, replies: seq<Reply>,
                      inHand': seq<Task>, pending': seq<Task>, now': Server, news: seq<Reply>)
    returns (done': seq<Task>)
    requires turns != [] && Served(s0, all, done, inHand, pending, turns, now, replies)
    requires Turned(turns[0], inHand, pending, now, inHand', pending', now', news)
    ensures Served(s0, all, done', inHand', pending', turns[1..], now', replies + news)
    ensures |done'| + Finished(|pending'|, inHand' != [], turns[1..]) ==
            |done| + Finished(|pending|, inHand != [], turns)
  {
    done' := done;
    if turns[0].WorkerTurn? && inHand != [] {
      done' := done + inHand;
      assert inHand == [inHand[0]];
      DoneOneMore(s0, done, inHand[0], now, replies);
    } else {
      assert replies + news == replies;
    }
    TasksInOrder(done, inHand, pending, turns, done', inHand', pending');
  }

  /** What a worker thread works on. */
  class Worker {
    const queue: TaskQueue<Task>
    const server: DhcpServer
    ghost var owned: set<object>   // all that belongs to the binding list

    constructor (queue: TaskQueue<Task>, server: DhcpServer)
      requires queue.Valid() && server.Valid() && Inv(server.State())
      ensures this.queue == queue && this.server == server && InService()
      ensures owned == Footprint(server.bindings.first, server.bindings.nodes)
    {
      this.queue, this.server := queue, server;
      owned := Footprint(server.bindings.first, server.bindings.nodes);
    }

    /** The queue, the lists and the invariant of the lease machine are in order. */
    ghost predicate InService()
      reads this, queue, server.pool, server.config, server.bindings, server.bindings.first
      reads server.bindings.nodes, Slots(server.bindings.nodes)
    {
      && Footprint(server.bindings.first, server.bindings.nodes) <= owned
      && queue.Valid() && server.Valid() && Inv(server.State())
    }

    /** The locked part of the loop body: a task leaves the queue. */
    method TakeTask() returns (task: Task)
      requires InService() && queue.count > 0
      modifies queue`count, queue.slots
      ensures InService() && server.State() == old(server.State())
      ensures old(queue.Pending()) == [task] + queue.Pending()
    {
      task := queue.Take();
      server.bindings.StaysValid();
    }

    /** The rest of it. */
    method HandleTask(task: Task) returns (reply: Reply)
      requires InService()
      modifies this`owned, owned
      modifies server.pool`ipCurrent, server.config`subnet, server.config`dns, server.bindings`nodes
      ensures InService() && fresh(owned - old(owned)) && queue.Pending() == old(queue.Pending())
      ensures var r := Handle(old(server.State()), task); r.Done? && r.server == server.State()
      ensures reply == ReplyTo(old(server.State()), task, Handle(old(server.State()), task).action)
    {
      ReactKeepsInv(server.State(), Datagram(task));
      reply := server.HandleClient(task);
      owned := owned + Footprint(server.bindings.first, server.bindings.nodes);
    }

    /** submitTask by the receiver, between two steps of the worker. */
    method AcceptTask(task: Task)
      requires InService() && queue.count < CAPACITY
      modifies queue`count, queue.slots
      ensures InService() && server.State() == old(server.State())
      ensures queue.Pending() == old(queue.Pending()) + [task]
    {
      queue.Submit(task);
      server.bindings.StaysValid();
    }

    method TakeTurn(turn: Turn, inHand: seq<Task>) returns (inHand': seq<Task>, replies: seq<Reply>)
      requires InService() && |inHand| <= 1 && (turn.Submission? ==> queue.count < CAPACITY)
      modifies this`owned, queue`count, queue.slots
      modifies server.pool`ipCurrent, server.config`subnet, server.config`dns
      modifies server.bindings`nodes, owned
      ensures InService() && fresh(owned - old(owned))
      ensures Turned(turn, inHand, old(queue.Pending()), old(server.State()),
                     inHand', queue.Pending(), server.State(), replies)
    {
      inHand', replies := inHand, [];
      if turn.Submission? {
        AcceptTask(turn.task);
      } else if inHand != [] {
        var reply := HandleTask(inHand[0]);
        inHand', replies := [], [reply];
      } else if queue.count > 0 {
        var task := TakeTask();
        inHand' := [task];
      }
    }

    /** One turn of many. */
    method ServeTurn(turn: Turn, inHand: seq<Task>, replies: seq<Reply>,
                     ghost s0: Server, ghost all: seq<Task>, ghost done: seq<Task>, ghost turns: seq<Turn>)
      returns (inHand': seq<Task>, replies': seq<Reply>, ghost done': seq<Task>)
      requires InService() && turns != [] && turns[0] == turn
      requires Served(s0, all, done, inHand, queue.Pending(), turns, server.State(), replies)
      modifies this`owned, queue`count, queue.slots
      modifies server.pool`ipCurrent, server.config`subnet, server.config`dns
      modifies server.bindings`nodes, owned
      ensures InService() && fresh(owned - old(owned))
      ensures Served(s0, all, done', inHand', queue.Pending(), turns[1..], server.State(), replies')
      ensures |done'| + Finished(queue.count, inHand' != [], turns[1..]) ==
              |done| + Finished(old(queue.count), inHand != [], turns)
    {
      ghost var pending, now := queue.Pending(), server.State();
      var news;
      inHand', news := TakeTurn(turn, inHand);
      done' := ServedOneMore(s0, all, done, inHand, pending, turns, now, replies,
                             inHand', queue.Pending(), server.State(), news);
      replies' := replies + news;
    }

    /** startThread while datagrams keep being submitted, at any point of the loop. */
    method Serve(turns: seq<Turn>) returns (replies: seq<Reply>, inHand: seq<Task>, ghost done: seq<Task>)
      requires InService() && RoomThroughout(queue.count, false, turns)
      modifies this`owned, queue`count, queue.slots
      modifies server.pool`ipCurrent, server.config`subnet, server.config`dns
      modifies server.bindings`nodes, owned
      ensures InService() && fresh(owned - old(owned)) && |inHand| <= 1
      ensures old(queue.Pending()) + Submissions(turns) == done + inHand + queue.Pending()
      ensures Handled(old(server.State()), done, server.State(), replies)
      ensures |done| == Finished(|old(queue.Pending())|, false, turns)
    {
      ghost var s0, all := server.State(), queue.Pending() + Submissions(turns);
      replies, inHand, done := [], [], [];
      assert [] + [] + queue.Pending() + Submissions(turns) == all;
      var i := 0;
      while i < |turns|
        invariant 0 <= i <= |turns| && InService() && fresh(owned - old(owned))
        invariant Served(s0, all, done, inHand, queue.Pending(), turns[i..], server.State(), replies)
        invariant |done| + Finished(queue.count, inHand != [], turns[i..]) ==
                  Finished(|old(queue.Pending())|, false, turns)
        decreases |turns| - i
      {
        assert turns[i..][0] == turns[i] && turns[i..][1..] == turns[i + 1..];
        inHand, replies, done := ServeTurn(turns[i], inHand, replies, s0, all, done, turns[i..]);
        i := i + 1;
      }
    }
  }
}
