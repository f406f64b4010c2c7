/** ip_pool_manager.c on the heap: bindings in a LIST, found, updated in place,
    unlinked and freed. */
module BindingTable {
  import opened Words
  import opened IntrusiveLists
  import opened Bindings

  type BindingList = List<Binding>

  /** The element `k` of a valid list is allocated and leads on to the next. */
  lemma StepTo(list: BindingList, k: nat)
    requires list.Valid() && k <= |list.nodes|
    ensures k == 0 ==> list.first.ptr == NodeAt(list.nodes, 0)
    ensures k < |list.nodes| ==>
              !list.nodes[k].freed && list.nodes[k].next.ptr == NodeAt(list.nodes, k + 1)
              && list.Contents()[k] == list.nodes[k].value
  {
    assert LinkedAt(list.first, list.nodes, k);
    if k < |list.nodes| {
      assert LinkedAt(list.first, list.nodes, k + 1);
    }
  }

  /** add_binding: a PENDING binding at the head, or null when calloc fails. */
  method AddBinding(list: BindingList, address: u32, cident: seq<byte>, isStatic: int, now: int, callocOk: bool)
    returns (binding: Node?<Binding>)
    requires list.Valid()
    modifies list`nodes, list.first`ptr, list.nodes`prev
    ensures list.Valid() && (binding != null <==> callocOk)
    ensures binding != null ==>
              fresh(binding) && list.nodes == [binding] + old(list.nodes)
              && list.Contents() == [Binding(address, cident, now, 0, PENDING, isStatic)] + old(list.Contents())
    ensures binding == null ==> list.nodes == old(list.nodes) && list.Contents() == old(list.Contents())
  {
    if !callocOk {
      return null;
    }
    var added := new Node(Binding(address, cident, now, 0, PENDING, isStatic));
    list.StaysValid();
    list.InsertHead(added);
    return added;
  }

  /** remove_binding: unlinked without a look at the head of its list, and freed. */
  method RemoveBinding(binding: Node<Binding>, ghost list: BindingList, ghost k: nat)
    requires list.Valid()
    requires k < |list.nodes| && list.nodes[k] == binding
    modifies list`nodes, binding.prev`ptr, Successor(binding)`prev, binding, binding.next
    ensures list.Valid() && binding.freed
    ensures list.nodes == Without(old(list.nodes), k)
    ensures list.Contents() == Without(old(list.Contents()), k)
  {
    StepTo(list, k);
    ListRemove(binding, list, k);
    label unlinked:
    binding.Free();
    list.StaysValid@unlinked();
  }

  /** search_binding: the first match, or null. */
  method SearchBinding(list: BindingList, cident: seq<byte>, isStatic: int, status: int)
    returns (binding: Node?<Binding>)
    requires list.Valid()
    ensures binding == NodeAt(list.nodes, Search(list.Contents(), cident, isStatic, status))
  {
    ghost var bs := list.Contents();
    StepTo(list, 0);
    binding := list.first.ptr;
    ghost var k := 0;
    while binding != null
      invariant list.Valid() && k <= |bs| && binding == NodeAt(list.nodes, k)
      invariant forall j :: 0 <= j < k ==> !Matches(bs[j], cident, isStatic, status)
      decreases |bs| - k
    {
      StepTo(list, k);
      var next, b := binding.next.ptr, binding.value;
      if (b.isStatic == isStatic || isStatic == STATIC_OR_DYNAMIC) && b.cident == cident {
        if status == 0 || b.status == status {
          break;
        }
      }
      binding := next;
      k := k + 1;
    }
    FirstIsSearch(bs, cident, isStatic, status, k);
  }

  /** update_bindings_statuses */
  method UpdateBindingsStatuses(list: BindingList, now: int)
    requires list.Valid()
    modifies list.nodes`value
    ensures list.Valid()
    ensures list.Contents() == UpdateAll(old(list.Contents()), now)
  {
    ghost var bs := list.Contents();
    StepTo(list, 0);
    var binding := list.first.ptr;
    ghost var k := 0;
    while binding != null
      invariant list.Valid()
      invariant k <= |bs| && binding == NodeAt(list.nodes, k)
      invariant forall j :: 0 <= j < k ==> list.nodes[j].value == Updated(bs[j], now)
      invariant forall j :: k <= j < |bs| ==> list.nodes[j].value == bs[j]
      decreases |bs| - k
    {
      StepTo(list, k);
      var next := binding.next.ptr;
      label before:
      if binding.value.status == PENDING && now - binding.value.bindingTime > PENDING_TIME {
        forall j | k < j < |bs|
          ensures list.nodes[j] != binding
        {
          assert Apart(list.nodes[k], list.nodes[j]);
        }
        forall j | 0 <= j < k
          ensures list.nodes[j] != binding
        {
          assert Apart(list.nodes[j], list.nodes[k]);
        }
        binding.value := binding.value.(status := EXPIRED);
      }
      list.StaysValid@before();
      binding := next;
      k := k + 1;
    }
  }

  /** What the clean-up has made of the values up to the element it stands on. */
  ghost predicate CleanedUpTo(now: seq<Binding>, done: seq<Binding>, rest: seq<Binding>) {
    now == DropExpired(done) + rest
  }

  lemma CleanOne(now: seq<Binding>, done: seq<Binding>, b: Binding, rest: seq<Binding>)
    requires CleanedUpTo(now, done, [b] + rest)
    ensures |DropExpired(done)| < |now| && now[|DropExpired(done)|] == b
    ensures DropExpired(done + [b]) == if b.status == EXPIRED then DropExpired(done) else DropExpired(done) + [b]
    ensures CleanedUpTo(if b.status == EXPIRED then Without(now, |DropExpired(done)|) else now, done + [b], rest)
  {
    DropExpiredSnoc(done, b);
    WithoutMiddle(DropExpired(done), b, rest);
  }

  lemma WithoutMiddle<T>(front: seq<T>, x: T, rest: seq<T>)
    ensures (front + ([x] + rest))[|front|] == x
    ensures Without(front + ([x] + rest), |front|) == front + rest
    ensures front + ([x] + rest) == (front + [x]) + rest
  {
  }

  /** All that was expired among `done` has been freed. */
  ghost predicate ExpiredFreed(visited: seq<Node<Binding>>, done: seq<Binding>)
    reads visited
  {
    |visited| == |done| && forall j :: 0 <= j < |done| && done[j].status == EXPIRED ==> visited[j].freed
  }

  /** The body of the clean-up loop, on the element behind the `kept` ones. */
  method RemoveIfExpired(binding: Node<Binding>, ghost list: BindingList,
                         ghost kept: seq<Node<Binding>>, ghost rest: seq<Node<Binding>>,
                         ghost done: seq<Binding>, ghost ahead: seq<Binding>, ghost visited: seq<Node<Binding>>)
    returns (ghost kept': seq<Node<Binding>>)
    requires list.Valid() && list.nodes == kept + ([binding] + rest)
    requires |kept| == |DropExpired(done)|
    requires CleanedUpTo(list.Contents(), done, [binding.value] + ahead) && ExpiredFreed(visited, done)
    modifies list`nodes, binding.prev`ptr, Successor(binding)`prev, binding, binding.next
    ensures list.Valid() && list.nodes == kept' + rest
    ensures |kept'| == |DropExpired(done + [old(binding.value)])|
    ensures CleanedUpTo(list.Contents(), done + [old(binding.value)], ahead)
    ensures ExpiredFreed(visited + [binding], done + [old(binding.value)])
    ensures Footprint(list.first, list.nodes) <= old(Footprint(list.first, list.nodes))
  {
    ghost var k := |kept|;
    WithoutMiddle(kept, binding, rest);
    CleanOne(list.Contents(), done, binding.value, ahead);
    RemovalIsLocal(list, k);
    StepTo(list, k);
    if binding.value.status == EXPIRED {
      RemoveBinding(binding, list, k);
      kept' := kept;
    } else {
      kept' := kept + [binding];
    }
  }

  lemma MoveOne<T>(front: seq<T>, rest: seq<T>)
    requires rest != []
    ensures front + rest == (front + [rest[0]]) + rest[1..]
  {
  }

  /** cleanup_expired_bindings: the loop unlinks and frees the element it stands
      on, having saved the way to the next one. Every original element is visited
      once, in order; the expired ones end up freed, the others, by `Valid`, not. */
  method CleanupExpiredBindings(list: BindingList) returns (ghost visited: seq<Node<Binding>>)
    requires list.Valid()
    modifies list`nodes, Footprint(list.first, list.nodes)
    ensures list.Valid()
    ensures list.Contents() == DropExpired(old(list.Contents()))
    ensures visited == old(list.nodes)
    ensures ExpiredFreed(visited, old(list.Contents()))
  {
    ghost var kept: seq<Node<Binding>>, rest := [], list.nodes;
    ghost var done: seq<Binding>, ahead := [], list.Contents();
    visited := [];
    StepTo(list, 0);
    var binding := list.first.ptr;
    while binding != null
      invariant list.Valid() && binding == NodeAt(rest, 0)
      invariant list.nodes == kept + rest
      invariant visited + rest == old(list.nodes) && done + ahead == old(list.Contents())
      invariant Footprint(list.first, list.nodes) <= old(Footprint(list.first, list.nodes))
      invariant CleanedUpTo(list.Contents(), done, ahead)
      invariant |kept| == |DropExpired(done)|
      invariant ExpiredFreed(visited, done)
      decreases |rest|
    {
      var b: Node<Binding> := binding;
      ghost var tail, tailAhead := rest[1..], ahead[1..];
      StandingOn(list, b, kept, rest, done, ahead);
      MoveOne(visited, rest);
      MoveOne(done, ahead);
      var next := b.next.ptr;
      ghost var was := done;
      done, ahead := was + [b.value], tailAhead;
      kept := RemoveIfExpired(b, list, kept, tail, was, tailAhead, visited);
      visited, rest := visited + [b], tail;
      binding := next;
    }
    assert done == old(list.Contents());
  }

  /** The element the clean-up stands on is allocated and part of the list. */
  lemma StandingOn(list: BindingList, b: Node<Binding>, kept: seq<Node<Binding>>, rest: seq<Node<Binding>>,
                   done: seq<Binding>, ahead: seq<Binding>)
    requires list.Valid() && list.nodes == kept + rest && rest != [] && rest[0] == b
    requires CleanedUpTo(list.Contents(), done, ahead) && |kept| == |DropExpired(done)|
    ensures !b.freed && b.next.ptr == NodeAt(rest[1..], 0)
    ensures rest == [b] + rest[1..]
    ensures ahead != [] && ahead == [b.value] + ahead[1..]
    ensures var footprint := Footprint(list.first, list.nodes);
            b in footprint && b.next in footprint && b.prev in footprint && Successor(b) <= footprint
  {
    var k := |kept|;
    assert list.nodes[k] == b;
    StepTo(list, k);
    RemovalIsLocal(list, k);
    assert list.Contents()[k] == ahead[0];
    assert NodeAt(rest[1..], 0) == NodeAt(list.nodes, k + 1);
  }
}
