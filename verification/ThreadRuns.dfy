/** Pieces of which runs of the threads are put together: one worker gets a datagram,
    looks at the pool, scans it, and enters what it has found, while the others
    keep what they hold. */
module ThreadRuns {
  import opened Words
  import opened Bindings
  import opened Leases
  import opened Threads

  // ----- Reachability

  ghost predicate Reaches(s: System, s': System) {
    exists steps :: Possible(s, steps) && After(s, steps) == s'
  }

  lemma Here(s: System)
    ensures Reaches(s, s)
  {
    assert Possible(s, []) && After(s, []) == s;
  }

  /** One more step at the end of a run. */
  lemma Onward(s: System, mid: System, step: Step)
    requires Reaches(s, mid) && Enabled(mid, step)
    ensures Reaches(s, Next(mid, step))
  {
    var steps :| Possible(s, steps) && After(s, steps) == mid;
    var one := [step];
    assert one[1..] == [] && After(Next(mid, step), one[1..]) == Next(mid, step);
    RunsCompose(s, steps, one);
  }

  // ----- Pieces of the run

  /** Nothing is under way but what single workers hold in their hands. */
  ghost predicate Calm(s: System) {
    && s.receiver == Idle && s.queue == [] && s.queueLock == Nobody && s.poolLock == Nobody
    && NobodyAsleep(s) && |s.workers| >= 2
  }

  /** What matters of a state for going on: who does what, the pool and the list. */
  ghost predicate Follows(s: System, s': System, w: nat, at: Worker, current: u32, bs: seq<Binding>) {
    && w < |s.workers| && s'.workers == s.workers[w := at]
    && s'.server.pool == s.server.pool.(current := current) && s'.server.bindings == bs
  }

  /** A worker gets the next datagram. */
  lemma Delivered(s0: System, s: System, w: nat, d: Task) returns (s': System)
    requires Reaches(s0, s) && Calm(s) && w < |s.workers| && s.workers[w] == Ready
    ensures Reaches(s0, s') && Calm(s')
    ensures Follows(s, s', w, Handling(d), s.server.pool.current, s.server.bindings)
    ensures s'.handled == s.handled && s'.arrived == s.arrived + [d]
  {
    Onward(s0, s, Arrive(d));
    var a := Next(s, Arrive(d));
    Onward(s0, a, Submit);
    var b := Next(a, Submit);
    Onward(s0, b, Submit);
    var c := Next(b, Submit);
    Onward(s0, c, Submit);
    var e := Next(c, Submit);
    assert e.workers == s.workers && e.queue == [d] && e.queueLock == Nobody && e.receiver == MustSignal;
    assert NobodyAsleep(e);
    Onward(s0, e, Signal(0));
    var f := Next(e, Signal(0));
    assert f == e.(receiver := Idle);
    s' := GotTask(s0, f, w, d);
  }

  lemma GotTask(s0: System, s: System, w: nat, d: Task) returns (s': System)
    requires Reaches(s0, s) && Calm(s.(queue := [])) && s.queue == [d]
    requires w < |s.workers| && s.workers[w] == Ready
    ensures Reaches(s0, s') && Calm(s')
    ensures Follows(s, s', w, Handling(d), s.server.pool.current, s.server.bindings)
    ensures s'.handled == s.handled && s'.arrived == s.arrived
  {
    Onward(s0, s, Work(w));
    var a := Next(s, Work(w));
    Onward(s0, a, Work(w));
    var b := Next(a, Work(w));
    Onward(s0, b, Work(w));
    s' := Next(b, Work(w));
    assert s.queue[1..] == [];
    assert s'.workers == s.workers[w := Handling(d)];
  }

  /** It sees room in the pool. */
  lemma SawRoom(s0: System, s: System, w: nat, d: Task) returns (s': System)
    requires Reaches(s0, s) && Calm(s) && w < |s.workers| && s.workers[w] == Handling(d)
    requires DispatchType(d) == TYPE_DISCOVER && s.server.pool.current < s.server.pool.last
    ensures Reaches(s0, s') && Calm(s')
    ensures Follows(s, s', w, Checked(d), s.server.pool.current, s.server.bindings)
  {
    Onward(s0, s, Work(w));
    s' := Next(s, Work(w));
  }

  /** It locks the pool and scans past everything that is not available. */
  lemma ScannedTo(s0: System, s: System, w: nat, d: Task, target: u32) returns (s': System)
    requires Reaches(s0, s) && Calm(s) && w < |s.workers| && s.workers[w] == Checked(d)
    requires var pool, start := s.server.pool, Succ32(s.server.pool.current);
             start <= target <= pool.last
             && forall ip: u32 :: start <= ip < target ==> !IpAvailable(pool, s.server.bindings, ip)
    ensures Reaches(s0, s') && Calm(s'.(poolLock := Nobody))
    ensures Follows(s, s', w, Scanning(d, target), s.server.pool.current, s.server.bindings)
  {
    Onward(s0, s, Work(w));
    var a := Next(s, Work(w));
    var ip := Succ32(s.server.pool.current);
    s' := Skipped(s0, a, w, d, ip, target);
    assert s'.workers == s.workers[w := Scanning(d, target)];
  }

  lemma {:induction false} Skipped(s0: System, s: System, w: nat, d: Task, ip: u32, target: u32)
    returns (s': System)
    requires Reaches(s0, s) && Calm(s.(poolLock := Nobody)) && w < |s.workers| && s.workers[w] == Scanning(d, ip)
    requires ip <= target <= s.server.pool.last
    requires forall a: u32 :: ip <= a < target ==> !IpAvailable(s.server.pool, s.server.bindings, a)
    ensures Reaches(s0, s') && Calm(s'.(poolLock := Nobody))
    ensures Follows(s, s', w, Scanning(d, target), s.server.pool.current, s.server.bindings)
    decreases target - ip
  {
    if ip == target {
      s' := s;
      assert s.workers == s.workers[w := Scanning(d, target)];
    } else {
      Onward(s0, s, Work(w));
      var next := Next(s, Work(w));
      assert next == Move(s, w, Scanning(d, ip + 1));
      s' := Skipped(s0, next, w, d, ip + 1, target);
      assert s'.workers == s.workers[w := Scanning(d, target)];
    }
  }

  /** It finds an address; address 0 counts as none, but moves the cursor. */
  lemma FoundOne(s0: System, s: System, w: nat, d: Task, ip: u32) returns (s': System)
    requires Reaches(s0, s) && Calm(s.(poolLock := Nobody)) && w < |s.workers| && s.workers[w] == Scanning(d, ip)
    requires IpAvailable(s.server.pool, s.server.bindings, ip)
    ensures Reaches(s0, s') && Calm(s')
    ensures Follows(s, s', w, if ip == 0 then Ready else Offering(d, ip), ip, s.server.bindings)
  {
    Onward(s0, s, Work(w));
    s' := Next(s, Work(w));
  }

  lemma EnteredIt(s0: System, s: System, w: nat, d: Task, ip: u32) returns (s': System)
    requires Reaches(s0, s) && Calm(s) && w < |s.workers| && s.workers[w] == Offering(d, ip) && d.mallocOk
    ensures Reaches(s0, s') && Calm(s')
    ensures Follows(s, s', w, Ready, s.server.pool.current,
                    [NewBinding(d, ip, s.server.config)] + s.server.bindings)
  {
    Onward(s0, s, Work(w));
    s' := Next(s, Work(w));
  }

  lemma BoundMore(b: Binding, bs: seq<Binding>, ip: u32)
    ensures Bound([b] + bs, ip) <==> ip == b.address || Bound(bs, ip)
  {
    var all := [b] + bs;
    if Bound(bs, ip) {
      var i :| 0 <= i < |bs| && bs[i].address == ip;
      assert all[i + 1].address == ip;
    }
    assert all[0] == b;
  }
}
