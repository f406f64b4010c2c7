/** On the pools of ThreadCollision that do not start at 0 a worker can also hang:
    once every address is bound, its scan runs around in circles with the pool
    locked. This is the only way in which the threads can go on forever. */
module ThreadHang {
  import opened Words
  import opened Leases
  import opened Samples
  import opened Threads
  import opened ThreadProgress
  import opened ThreadRuns
  import opened ThreadCollision

  // ----- Spinning

  /** At the loop, with nothing to take. */
  predicate Unoccupied(at: Worker) {
    at == Ready || at.Testing? || at == Sleeping || at == Woken
  }

  /** Worker 1 scans a pool without a free address, and nobody else is occupied. */
  ghost predicate Spinning(s: System) {
    && |s.workers| >= 2 && s.workers[1].Scanning?
    && s.receiver == Idle && s.queue == []
    && (forall w :: 0 <= w < |s.workers| && w != 1 ==> Unoccupied(s.workers[w]))
    && s.server.pool.last == MAX_U32
    && forall ip: u32 :: s.server.pool.first <= ip ==> Bound(s.server.bindings, ip)
  }

  lemma SpinsOn(s: System, step: Step)
    requires Spinning(s) && Enabled(s, step) && Internal(step)
    ensures Spinning(Next(s, step))
  {
    var w, s' := step.w, Next(s, step);
    assert w != 1 ==> Unoccupied(s.workers[w]);
    assert s'.workers == s.workers[w := s'.workers[w]] && s'.server == s.server;
  }

  /** No number of steps of the threads leads out of it, in particular none to a halt. */
  lemma {:induction false} SpinsForGood(s: System, steps: seq<Step>)
    requires Spinning(s) && InternalRun(s, steps)
    ensures Spinning(After(s, steps)) && !Halted(After(s, steps))
    decreases steps
  {
    if steps != [] {
      SpinsOn(s, steps[0]);
      SpinsForGood(Next(s, steps[0]), steps[1..]);
    }
  }

  /** And there is always one more. */
  lemma {:induction false} SpinsLong(s: System, k: nat) returns (steps: seq<Step>)
    requires Spinning(s)
    ensures InternalRun(s, steps) && |steps| == k
    decreases k
  {
    steps := [];
    if k > 0 {
      SpinsOn(s, Work(1));
      var rest := SpinsLong(Next(s, Work(1)), k - 1);
      steps := [Work(1)] + rest;
      assert steps[0] == Work(1) && steps[1..] == rest;
    }
  }

  // ----- The way there

  /** After the collision's first half, with the last address entered in the list
      and the cursor back at the first one, every address is bound. */
  lemma PoolUsedUp(s0: System, s: System, d: Task) returns (s': System)
    requires Reaches(s0, s) && FilledUp(s) && 0 < s.server.pool.first
    requires s.server.pool.last == MAX_U32 && s.server.pool.current == MAX_U32 - 1
    requires DispatchType(d) == TYPE_DISCOVER && d.mallocOk
    ensures Reaches(s0, s') && Calm(s') && |s'.workers| == |s.workers|
    ensures forall w :: 0 <= w < |s'.workers| ==> s'.workers[w] == Ready
    ensures s'.server.pool == s.server.pool.(current := s.server.pool.first)
    ensures forall ip: u32 :: s.server.pool.first <= ip ==> Bound(s'.server.bindings, ip)
  {
    var a := BothSawRoom(s0, s, d);
    var b := EnteredIt(s0, a, 0, d, MAX_U32);
    BoundMore(b.server.bindings[0], a.server.bindings, s.server.pool.first);
    s' := CursorMovedBack(s0, b, d);
    assert s'.workers == s.workers;
    forall ip: u32 | s.server.pool.first <= ip
      ensures Bound(s'.server.bindings, ip)
    {
      BoundMore(b.server.bindings[0], a.server.bindings, ip);
    }
  }

  lemma SpinningReached(n: nat, first: u32, config: Config) returns (s: System)
    requires n >= 2 && 0 < first < MAX_U32
    ensures Reachable(n, first, MAX_U32, config, s) && Spinning(s)
  {
    var s0, d := Start(n, first, MAX_U32, config), SomeDiscover();
    Here(s0);
    var a := FillTo(s0, s0, d, MAX_U32 - 1);
    var b := PoolUsedUp(s0, a, d);
    var c := Delivered(s0, b, 1, d);
    var e := SawRoom(s0, c, 1, d);
    Onward(s0, e, Work(1));
    s := Next(e, Work(1));
  }

  // ----- When the threads halt

  ghost predicate Within(s: System, bound: nat) {
    forall steps :: InternalRun(s, steps) ==> |steps| <= bound
  }

  /** Left to themselves, the threads stop after a bounded number of steps. */
  ghost predicate Settles(s: System) {
    exists bound: nat :: Within(s, bound)
  }

  /** Left to themselves, the threads can get to where no thread can go on. */
  ghost predicate CanHalt(s: System) {
    exists steps :: InternalRun(s, steps) && Halted(After(s, steps))
  }

  ghost predicate AlwaysSettles(n: nat, first: u32, last: u32, config: Config) {
    forall s :: Reachable(n, first, last, config, s) ==> Settles(s)
  }

  ghost predicate AlwaysCanHalt(n: nat, first: u32, last: u32, config: Config) {
    forall s :: Reachable(n, first, last, config, s) ==> CanHalt(s)
  }

  lemma TameSettles(s: System)
    requires Tame(s)
    ensures Settles(s)
  {
    forall steps | InternalRun(s, steps)
      ensures |steps| <= WorkLeft(s)
    {
      InternalRunsEnd(s, steps);
    }
    assert Within(s, WorkLeft(s));
  }

  lemma SpinningNeverSettles(s: System)
    requires Spinning(s)
    ensures !Settles(s) && !CanHalt(s)
  {
    if bound: nat :| Within(s, bound) {
      var steps := SpinsLong(s, bound + 1);
      assert false;
    }
    if steps :| InternalRun(s, steps) && Halted(After(s, steps)) {
      SpinsForGood(s, steps);
      assert false;
    }
  }

  /** The threads come to a halt from every state the program can be in, after a
      bounded number of steps, exactly when one of four things holds: there is at
      most one worker, the pool ends before 2^32 - 1, it offers nothing, or it
      starts at 0. */
  lemma SettlesIff(n: nat, first: u32, last: u32, config: Config)
    ensures ScanEnds(n, Pool(first, last, first)) <==> n <= 1 || last < MAX_U32 || first >= last || first == 0
    ensures AlwaysSettles(n, first, last, config) <==> ScanEnds(n, Pool(first, last, first))
    ensures AlwaysCanHalt(n, first, last, config) <==> ScanEnds(n, Pool(first, last, first))
  {
    if ScanEnds(n, Pool(first, last, first)) {
      forall s | Reachable(n, first, last, config, s)
        ensures Settles(s) && CanHalt(s)
      {
        ReachableIsTame(n, first, last, config, s);
        ReachableIsSound(n, first, last, config, s);
        TameSettles(s);
        var steps := ComesToHalt(s);
      }
    } else {
      assert last == MAX_U32;
      var s := SpinningReached(n, first, config);
      SpinningNeverSettles(s);
      assert Reachable(n, first, last, config, s);
    }
  }
}
