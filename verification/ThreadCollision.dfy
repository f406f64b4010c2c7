/** The one kind of pool on which an address is offered twice: it ends at 2^32 - 1,
    where the scan's loop variable wraps around. A worker that has seen room for the
    last address before another one took it then starts over from address 0, finds
    the never offered first address, and moves the cursor back. */
module ThreadCollision {
  import opened Words
  import opened Samples
  import opened Leases
  import opened Threads
  import opened ThreadAddresses
  import opened ThreadRuns

  // ----- The pool fills up

  /** Every worker is ready, and exactly the addresses up to the cursor are bound. */
  ghost predicate FilledUp(s: System) {
    && Calm(s) && (forall w :: 0 <= w < |s.workers| ==> s.workers[w] == Ready)
    && s.server.pool.first <= s.server.pool.current
    && forall ip: u32 :: Bound(s.server.bindings, ip) <==> s.server.pool.first < ip <= s.server.pool.current
  }

  lemma OneMore(s0: System, s: System, d: Task) returns (s': System)
    requires Reaches(s0, s) && FilledUp(s) && s.server.pool.current < s.server.pool.last
    requires DispatchType(d) == TYPE_DISCOVER && d.mallocOk
    ensures Reaches(s0, s') && FilledUp(s') && |s'.workers| == |s.workers|
    ensures s'.server.pool == s.server.pool.(current := Succ32(s.server.pool.current))
  {
    var ip := Succ32(s.server.pool.current);
    var a := Delivered(s0, s, 0, d);
    var b := SawRoom(s0, a, 0, d);
    var c := ScannedTo(s0, b, 0, d, ip);
    var e := FoundOne(s0, c, 0, d, ip);
    s' := EnteredIt(s0, e, 0, d, ip);
    assert s'.workers == s.workers[0 := Ready] == s.workers;
    forall other: u32
      ensures Bound(s'.server.bindings, other) <==> s.server.pool.first < other <= ip
    {
      BoundMore(s'.server.bindings[0], s.server.bindings, other);
    }
  }

  lemma {:induction false} FillTo(s0: System, s: System, d: Task, target: u32) returns (s': System)
    requires Reaches(s0, s) && FilledUp(s) && s.server.pool.current <= target <= s.server.pool.last
    requires DispatchType(d) == TYPE_DISCOVER && d.mallocOk
    ensures Reaches(s0, s') && FilledUp(s') && |s'.workers| == |s.workers|
    ensures s'.server.pool == s.server.pool.(current := target)
    decreases target - s.server.pool.current
  {
    if s.server.pool.current == target {
      s' := s;
    } else {
      var next := OneMore(s0, s, d);
      s' := FillTo(s0, next, d, target);
    }
  }

  // ----- The collision

  /** Two workers have seen room for the last address; the first has found it. */
  lemma BothSawRoom(s0: System, s: System, d: Task) returns (s': System)
    requires Reaches(s0, s) && FilledUp(s)
    requires s.server.pool.last == MAX_U32 && s.server.pool.current == MAX_U32 - 1
    requires DispatchType(d) == TYPE_DISCOVER
    ensures Reaches(s0, s') && Calm(s') && |s'.workers| == |s.workers|
    ensures s'.workers == s.workers[0 := Offering(d, MAX_U32)][1 := Checked(d)]
    ensures s'.server.pool == s.server.pool.(current := MAX_U32) && s'.server.bindings == s.server.bindings
  {
    var a := Delivered(s0, s, 0, d);
    var b := SawRoom(s0, a, 0, d);
    var c := Delivered(s0, b, 1, d);
    var e := SawRoom(s0, c, 1, d);
    var f := ScannedTo(s0, e, 0, d, MAX_U32);
    s' := FoundOne(s0, f, 0, d, MAX_U32);
    assert s'.workers == s.workers[0 := Offering(d, MAX_U32)][1 := Checked(d)];
  }

  /** The second one starts over from 0 and takes the first address, which moves
      the cursor back to it. */
  lemma CursorMovedBack(s0: System, s: System, d: Task) returns (s': System)
    requires Reaches(s0, s) && Calm(s) && s.workers[1] == Checked(d) && d.mallocOk
    requires var pool := s.server.pool; pool.last == pool.current == MAX_U32
    requires !Bound(s.server.bindings, s.server.pool.first)
    ensures Reaches(s0, s') && Calm(s') && s'.workers == s.workers[1 := Ready]
    ensures s'.server.pool == s.server.pool.(current := s.server.pool.first)
    ensures forall ip: u32 :: Bound(s'.server.bindings, ip) <==>
                              Bound(s.server.bindings, ip) || ip == s.server.pool.first != 0
  {
    var first := s.server.pool.first;
    var a := ScannedTo(s0, s, 1, d, first);
    var b := FoundOne(s0, a, 1, d, first);
    if first == 0 {
      s' := b;
    } else {
      s' := EnteredIt(s0, b, 1, d, first);
      forall ip: u32
        ensures Bound(s'.server.bindings, ip) <==> Bound(s.server.bindings, ip) || ip == first
      {
        BoundMore(s'.server.bindings[0], s.server.bindings, ip);
      }
    }
  }

  /** Its next DISCOVER runs through the whole pool to the last address again, which
      the first worker has not entered in the list yet. */
  lemma OfferedTwice(s0: System, s: System, d: Task) returns (s': System)
    requires Reaches(s0, s) && Calm(s) && s.workers[1] == Ready
    requires DispatchType(d) == TYPE_DISCOVER
    requires var pool := s.server.pool;
             && pool.first == pool.current < pool.last == MAX_U32
             && !Bound(s.server.bindings, MAX_U32)
             && forall ip: u32 :: pool.first < ip < MAX_U32 ==> Bound(s.server.bindings, ip)
    ensures Reaches(s0, s') && s'.workers == s.workers[1 := Offering(d, MAX_U32)]
  {
    var a := Delivered(s0, s, 1, d);
    var b := SawRoom(s0, a, 1, d);
    var c := ScannedTo(s0, b, 1, d, MAX_U32);
    s' := FoundOne(s0, c, 1, d, MAX_U32);
    assert s'.workers == s.workers[1 := Offering(d, MAX_U32)];
  }

  /** Two workers are about to offer the same address to their clients. */
  ghost predicate DoubleOffer(s: System) {
    exists v, w :: 0 <= v < w < |s.workers| && SameAddress(s.workers[v], s.workers[w])
  }

  lemma CollisionReached(n: nat, first: u32, config: Config) returns (steps: seq<Step>)
    requires n >= 2 && first < MAX_U32
    ensures Possible(Start(n, first, MAX_U32, config), steps)
    ensures DoubleOffer(After(Start(n, first, MAX_U32, config), steps))
  {
    var s0, d := Start(n, first, MAX_U32, config), SomeDiscover();
    Here(s0);
    var a := FillTo(s0, s0, d, MAX_U32 - 1);
    var b := BothSawRoom(s0, a, d);
    var c := CursorMovedBack(s0, b, d);
    var e := OfferedTwice(s0, c, d);
    assert SameAddress(e.workers[0], e.workers[1]);
    steps :| Possible(s0, steps) && After(s0, steps) == e;
  }

  /** In no interleaving is an address offered to two clients at once. */
  ghost predicate NeverDoubleOffer(n: nat, first: u32, last: u32, config: Config) {
    forall steps :: Possible(Start(n, first, last, config), steps) ==>
                      !DoubleOffer(After(Start(n, first, last, config), steps))
  }

  /** That is so exactly when the scan of a second worker cannot wrap around. */
  lemma NoDoubleOfferIff(n: nat, first: u32, last: u32, config: Config)
    ensures NeverDoubleOffer(n, first, last, config) <==> NoWrap(n, Pool(first, last, first))
  {
    if NoWrap(n, Pool(first, last, first)) {
      forall steps | Possible(Start(n, first, last, config), steps)
        ensures !DoubleOffer(After(Start(n, first, last, config), steps))
      {
        ReachedSafe(n, first, last, config, steps);
      }
    } else {
      var steps := CollisionReached(n, first, config);
      assert MAX_U32 == last;
      assert !NeverDoubleOffer(n, first, MAX_U32, config);
    }
  }
}
