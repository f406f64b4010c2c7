/** No wakeup is lost, although the receiver signals after it has unlocked the
    queue, wakes at most one worker per task, and workers may wake up unasked. */
module ThreadWakeup {
  import opened Threads

  /** A worker that was woken up and has not run on yet. */
  predicate OnItsWay(at: Worker) {
    at == Woken || at == Testing(true)
  }

  function CountOnTheirWay(workers: seq<Worker>): nat {
    if workers == [] then 0
    else (if OnItsWay(workers[0]) then 1 else 0) + CountOnTheirWay(workers[1..])
  }

  lemma {:induction false} CountMoves(workers: seq<Worker>, w: nat, at: Worker)
    requires w < |workers|
    ensures CountOnTheirWay(workers[w := at]) ==
            CountOnTheirWay(workers) - (if OnItsWay(workers[w]) then 1 else 0) + (if OnItsWay(at) then 1 else 0)
  {
    var moved := workers[w := at];
    if w == 0 {
      assert moved[1..] == workers[1..];
    } else {
      assert moved[1..] == workers[1..][w - 1 := at];
      CountMoves(workers[1..], w - 1, at);
    }
  }

  /** The signal the receiver owes for the task it has just stored. */
  function Owed(r: Receiver): nat {
    if r == Pushed || r == MustSignal then 1 else 0
  }

  /** While anybody sleeps, there are no more tasks than workers on their way to
      them and a signal to come. */
  ghost predicate NoLostWakeup(s: System) {
    NobodyAsleep(s) || |s.queue| <= CountOnTheirWay(s.workers) + Owed(s.receiver)
  }

  /** A step of a worker puts nobody else to sleep, goes to sleep itself only over
      an empty queue, and takes a task when it has been woken up for one. */
  lemma WorkCounts(s: System, w: nat)
    requires CanWork(s, w)
    ensures var s' := Worked(s, w);
            && s'.receiver == s.receiver && s'.workers == s.workers[w := s'.workers[w]]
            && (s'.workers[w] == Sleeping ==> s'.queue == [])
            && (s'.queue == []
                || |s.queue| - |s'.queue| >=
                   (if OnItsWay(s.workers[w]) then 1 else 0) - (if OnItsWay(s'.workers[w]) then 1 else 0))
  {
  }

  lemma WorkKeepsWakeups(s: System, w: nat)
    requires NoLostWakeup(s) && CanWork(s, w)
    ensures NoLostWakeup(Worked(s, w))
  {
    var s' := Worked(s, w);
    WorkCounts(s, w);
    CountMoves(s.workers, w, s'.workers[w]);
    if !NobodyAsleep(s') && s'.queue != [] {
      var v :| 0 <= v < |s'.workers| && s'.workers[v] == Sleeping;
      assert Asleep(s, v);
    }
  }

  lemma WakeupsKept(s: System, step: Step)
    requires NoLostWakeup(s) && Enabled(s, step)
    ensures NoLostWakeup(Next(s, step))
  {
    match step
    case Arrive(t) =>
    case Submit =>
    case Signal(w) =>
      if Asleep(s, w) {
        CountMoves(s.workers, w, Woken);
      }
    case Spurious(w) => CountMoves(s.workers, w, Woken);
    case Work(w) => WorkKeepsWakeups(s, w);
  }

  lemma {:induction false} ReachedNoLostWakeup(s: System, steps: seq<Step>)
    requires NoLostWakeup(s) && Possible(s, steps)
    ensures NoLostWakeup(After(s, steps))
    decreases steps
  {
    if steps != [] {
      WakeupsKept(s, steps[0]);
      ReachedNoLostWakeup(Next(s, steps[0]), steps[1..]);
    }
  }
}
