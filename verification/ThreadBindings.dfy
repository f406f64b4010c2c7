/** Bindings in the hands of workers: what a worker knows of a binding it has looked
    up and not used yet, on any pool and with any number of workers. */
module ThreadBindings {
  import opened Words
  import opened Bindings
  import opened Leases
  import opened Threads

  /** Entry `id` of the record offered `ip` to `c`. */
  ghost predicate WasOffered(handled: seq<Entry>, id: nat, c: seq<byte>, ip: u32) {
    id < |handled| && handled[id].action == Offered(c, ip)
  }

  /** Every binding goes back to an offer of its own, newer ones to later offers. */
  ghost predicate ListNamed(s: System) {
    && |s.origins| == |s.server.bindings|
    && (forall i, j :: 0 <= i < j < |s.origins| ==> s.origins[i] > s.origins[j])
    && forall k :: 0 <= k < |s.origins| ==>
                     && s.server.bindings[k].isStatic == DYNAMIC
                     && WasOffered(s.handled, s.origins[k], s.server.bindings[k].cident, s.server.bindings[k].address)
  }

  /** What a worker has found goes back to an offer to its client, made before. */
  ghost predicate HolderNamed(handled: seq<Entry>, at: Worker) {
    at.Using? ==>
      && LooksUp(at.t) && at.id < at.seen <= |handled|
      && handled[at.id].action.Offered? && handled[at.id].action.client == KeyOf(at.t)
  }

  predicate NamesOffer(a: Action) {
    a.Acked? || a.Declined? || a.Released?
  }

  /** What entry `k` confirms or takes back was offered to the same client before it
      was looked up. */
  ghost predicate AnswersOffer(handled: seq<Entry>, k: nat)
    requires k < |handled| && NamesOffer(handled[k].action)
  {
    && handled[k].seen <= k && (handled[k].action.Acked? ==> |handled[k].action.client| == 6)
    && exists i :: 0 <= i < handled[k].seen && WasOffered(handled, i, handled[k].action.client, handled[k].action.ip)
  }

  ghost predicate Named(s: System) {
    && ListNamed(s)
    && (forall w :: 0 <= w < |s.workers| ==> HolderNamed(s.handled, s.workers[w]))
    && forall k :: 0 <= k < |s.handled| && NamesOffer(s.handled[k].action) ==> AnswersOffer(s.handled, k)
  }

  /** A pointer that was just made is where it points to. */
  lemma {:induction false} PlaceOfItem(xs: seq<nat>, k: nat)
    requires k < |xs| && forall i, j :: 0 <= i < j < |xs| ==> xs[i] > xs[j]
    ensures PlaceOf(xs, xs[k]) == k
  {
    if k > 0 {
      PlaceOfItem(xs[1..], k - 1);
    }
  }

  // ----- Steps

  lemma WasOfferedStays(handled: seq<Entry>, e: Entry, id: nat, c: seq<byte>, ip: u32)
    requires WasOffered(handled, id, c, ip)
    ensures WasOffered(handled + [e], id, c, ip)
  {
  }

  /** One more entry leaves what was said of the others. */
  lemma RecordGrows(s: System, s': System, w: nat, e: Entry)
    requires Named(s) && w < |s.workers|
    requires s'.workers == s.workers[w := Ready] && s'.handled == s.handled + [e]
    requires ListNamed(s')
    requires NamesOffer(e.action) ==> AnswersOffer(s'.handled, |s.handled|)
    ensures Named(s')
  {
    forall v | 0 <= v < |s'.workers|
      ensures HolderNamed(s'.handled, s'.workers[v])
    {
      assert HolderNamed(s.handled, s.workers[v]);
    }
    forall k | 0 <= k < |s'.handled| && NamesOffer(s'.handled[k].action)
      ensures AnswersOffer(s'.handled, k)
    {
      if k < |s.handled| {
        assert AnswersOffer(s.handled, k);
        var a := s.handled[k].action;
        var i :| 0 <= i < s.handled[k].seen && WasOffered(s.handled, i, a.client, a.ip);
        WasOfferedStays(s.handled, e, i, a.client, a.ip);
      }
    }
  }

  /** The list as it was, or with some of the bindings, renewed but for their status. */
  lemma ListStaysNamed(s: System, s': System, e: Entry)
    requires ListNamed(s) && s'.handled == s.handled + [e]
    requires s'.origins == s.origins && |s'.server.bindings| == |s.server.bindings|
    requires forall k :: 0 <= k < |s.origins| ==>
                           var b, b' := s.server.bindings[k], s'.server.bindings[k];
                           b'.isStatic == b.isStatic && b'.cident == b.cident && b'.address == b.address
    ensures ListNamed(s')
  {
    forall k | 0 <= k < |s'.origins|
      ensures WasOffered(s'.handled, s'.origins[k], s'.server.bindings[k].cident, s'.server.bindings[k].address)
    {
      WasOfferedStays(s.handled, e, s.origins[k], s.server.bindings[k].cident, s.server.bindings[k].address);
    }
  }

  lemma ListNamedWithout(s: System, s': System, e: Entry, k: nat)
    requires ListNamed(s) && s'.handled == s.handled + [e] && k < |s.origins|
    requires s'.origins == s.origins[..k] + s.origins[k + 1..]
    requires s'.server.bindings == s.server.bindings[..k] + s.server.bindings[k + 1..]
    ensures ListNamed(s')
  {
    forall j | 0 <= j < |s'.origins|
      ensures s'.server.bindings[j].isStatic == DYNAMIC
      ensures WasOffered(s'.handled, s'.origins[j], s'.server.bindings[j].cident, s'.server.bindings[j].address)
    {
      var i := if j < k then j else j + 1;
      assert s'.origins[j] == s.origins[i] && s'.server.bindings[j] == s.server.bindings[i];
      WasOfferedStays(s.handled, e, s.origins[i], s.server.bindings[i].cident, s.server.bindings[i].address);
    }
  }

  lemma ListNamedWith(s: System, s': System, e: Entry, b: Binding)
    requires ListNamed(s) && s'.handled == s.handled + [e]
    requires e.action == Offered(b.cident, b.address) && b.isStatic == DYNAMIC
    requires s'.origins == [|s.handled|] + s.origins && s'.server.bindings == [b] + s.server.bindings
    ensures ListNamed(s')
  {
    forall j | 0 <= j < |s'.origins|
      ensures s'.server.bindings[j].isStatic == DYNAMIC
      ensures WasOffered(s'.handled, s'.origins[j], s'.server.bindings[j].cident, s'.server.bindings[j].address)
    {
      if j > 0 {
        var before := s.server.bindings[j - 1];
        WasOfferedStays(s.handled, e, s.origins[j - 1], before.cident, before.address);
      }
    }
  }

  /** What going on with a binding says of it. */
  lemma GoingOnNames(server: Server, t: Task, k: nat)
    requires LooksUp(t) && k < |server.bindings|
    ensures var r := GoOnWith(server, t, k);
            && r.Done? && (r.action == Silent || NamesOffer(r.action))
            && (r.action.Acked? <==> DispatchType(t) == TYPE_REQUEST)
            && (r.action.Acked? ==> |r.action.client| == 6)
            && (r.action != Silent ==> r.action.client == KeyOf(t) && r.action.ip == server.bindings[k].address)
            && r.server.bindings ==
               if r.action.Declined? then server.bindings[..k] + server.bindings[k + 1..]
               else if r.action.Released? then
                 server.bindings[k := server.bindings[k].(status := RELEASED, leaseTime := 0)]
               else server.bindings
  {
  }

  lemma UseAnswersOffer(s: System, w: nat)
    requires Named(s) && CanWork(s, w) && s.workers[w].Using?
    ensures var handled := Worked(s, w).handled;
            NamesOffer(handled[|s.handled|].action) ==> AnswersOffer(handled, |s.handled|)
  {
    var at := s.workers[w];
    var k, e := PlaceOf(s.origins, at.id), Worked(s, w).handled[|s.handled|];
    assert HolderNamed(s.handled, at);
    assert WasOffered(s.handled, s.origins[k], s.server.bindings[k].cident, s.server.bindings[k].address);
    GoingOnNames(s.server, at.t, k);
    if NamesOffer(e.action) {
      WasOfferedStays(s.handled, e, at.id, e.action.client, e.action.ip);
    }
  }

  lemma UseKeepsNames(s: System, w: nat)
    requires Named(s) && CanWork(s, w) && s.workers[w].Using?
    ensures Named(Worked(s, w))
  {
    var s', k := Worked(s, w), PlaceOf(s.origins, s.workers[w].id);
    var e := s'.handled[|s.handled|];
    GoingOnNames(s.server, s.workers[w].t, k);
    if e.action.Declined? {
      ListNamedWithout(s, s', e, k);
    } else {
      ListStaysNamed(s, s', e);
    }
    UseAnswersOffer(s, w);
    RecordGrows(s, s', w, e);
  }

  lemma RecordKeepsNames(s: System, w: nat)
    requires Named(s) && CanWork(s, w) && s.workers[w].Offering?
    ensures Named(Worked(s, w))
  {
    var at, s' := s.workers[w], Worked(s, w);
    var e := s'.handled[|s.handled|];
    if at.t.mallocOk {
      ListNamedWith(s, s', e, NewBinding(at.t, at.ip, s.server.config));
    } else {
      ListStaysNamed(s, s', e);
    }
    RecordGrows(s, s', w, e);
  }

  lemma DispatchKeepsNames(s: System, w: nat)
    requires Named(s) && CanWork(s, w) && s.workers[w].Handling?
    ensures Named(Worked(s, w))
  {
    var at, s' := s.workers[w], Worked(s, w);
    if |s'.handled| > |s.handled| {
      var e := s'.handled[|s.handled|];
      ListStaysNamed(s, s', e);
      RecordGrows(s, s', w, e);
    } else if s'.workers[w].Using? {
      var k := LookUp(s.server, at.t);
      assert WasOffered(s.handled, s.origins[k], s.server.bindings[k].cident, s.server.bindings[k].address);
    }
  }

  lemma WorkKeepsNames(s: System, w: nat)
    requires Named(s) && CanWork(s, w)
    ensures Named(Worked(s, w))
  {
    var at, s' := s.workers[w], Worked(s, w);
    if at.Using? {
      UseKeepsNames(s, w);
    } else if at.Offering? {
      RecordKeepsNames(s, w);
    } else if at.Handling? {
      DispatchKeepsNames(s, w);
    } else if |s'.handled| > |s.handled| {
      var e := s'.handled[|s.handled|];
      ListStaysNamed(s, s', e);
      RecordGrows(s, s', w, e);
    }
  }

  lemma NamesKept(s: System, step: Step)
    requires Named(s) && Enabled(s, step)
    ensures Named(Next(s, step))
  {
    if step.Work? {
      WorkKeepsNames(s, step.w);
    }
  }

  lemma {:induction false} NamesForGood(s: System, steps: seq<Step>)
    requires Named(s) && Possible(s, steps)
    ensures Named(After(s, steps))
    decreases steps
  {
    if steps != [] {
      NamesKept(s, steps[0]);
      NamesForGood(Next(s, steps[0]), steps[1..]);
    }
  }

  /** Any number of workers, any pool, any interleaving: whatever an ACK confirms or a
      decline or release takes back was offered to the same client before. */
  lemma AnswersWereOffered(n: nat, first: u32, last: u32, config: Config, steps: seq<Step>, k: nat)
    returns (i: nat)
    requires Possible(Start(n, first, last, config), steps)
    requires var handled := After(Start(n, first, last, config), steps).handled;
             k < |handled| && NamesOffer(handled[k].action)
    ensures var handled := After(Start(n, first, last, config), steps).handled;
            var a := handled[k].action;
            && i < handled[k].seen <= k && handled[i].action == Offered(a.client, a.ip)
            && (a.Acked? ==> |a.client| == 6)
  {
    var handled := After(Start(n, first, last, config), steps).handled;
    NamesForGood(Start(n, first, last, config), steps);
    assert AnswersOffer(handled, k);
    i :| 0 <= i < handled[k].seen && WasOffered(handled, i, handled[k].action.client, handled[k].action.ip);
  }
}
