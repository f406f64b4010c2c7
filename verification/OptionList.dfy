/** The option list of options.c: a TAILQ of allocated options, filled by the
    parser, written out by the serialiser and freed as a whole. */
module OptionList {
  import opened Words
  import opened OptionFormat
  import opened IntrusiveLists

  type OptionQueue = TailQueue<DhcpOption>

  /** append_option: a fresh copy of `opt` becomes the last element. */
  method AppendOption(list: OptionQueue, opt: DhcpOption)
    requires list.Valid()
    modifies list`last, list`nodes, list.last`ptr
    ensures list.Valid() && fresh(list.last)
    ensures old(list.nodes) < list.nodes
    ensures list.Contents() == old(list.Contents()) + [opt]
  {
    var nopt := new Node(opt);
    list.InsertTail(nopt);
  }

  /** search_option: the first element with that id, or null. */
  method SearchOption(list: OptionQueue, id: byte) returns (found: Node?<DhcpOption>)
    requires list.Valid()
    ensures found == null <==> forall o :: o in list.Contents() ==> o.id != id
    ensures found != null ==>
              exists k :: 0 <= k < |list.nodes| && list.nodes[k] == found && list.Contents()[k].id == id
                          && forall j :: 0 <= j < k ==> list.Contents()[j].id != id
  {
    found := list.first.ptr;
    ghost var k := 0;
    assert LinkedAt(list.first, list.nodes, 0);
    while found != null
      invariant k <= |list.nodes| && found == NodeAt(list.nodes, k)
      invariant forall j :: 0 <= j < k ==> list.Contents()[j].id != id
      decreases |list.nodes| - k
    {
      assert LinkedAt(list.first, list.nodes, k) && LinkedAt(list.first, list.nodes, k + 1);
      assert list.Contents()[k] == found.value;
      var next := found.next.ptr;
      if found.value.id == id {
        return;
      }
      found := next;
      k := k + 1;
    }
  }

  /** parse_options_to_list. `memory` starts at the first option byte; the buffer
      is its first `len` bytes. The length byte of a lone id at the very end of
      the buffer is read from behind it: `behind` is what lies there, anything. */
  method ParseOptionsToList(list: OptionQueue, memory: seq<byte>, len: nat, behind: byte)
    returns (verdict: int)
    requires list.Valid() && len <= |memory|
    modifies list`last, list`nodes, list.last`ptr
    ensures list.Valid() && old(list.nodes) <= list.nodes
    ensures verdict == if Parse(memory[..len]).ok then 1 else 0
    ensures list.Contents() == old(list.Contents()) + Parse(memory[..len]).options
  {
    ghost var buf := memory[..len];
    assert len >= 4 ==> buf[..4] == memory[..4];
    if len < 4 || memory[..4] != MAGIC {
      assert !HasCookie(buf);
      return 0;
    }
    var pos := 4;
    ghost var done: seq<DhcpOption> := [];
    assert done + Parse(buf).options == Parse(buf).options;
    while pos < len && memory[pos] != END
      invariant 4 <= pos <= len
      invariant list.Valid() && old(list.nodes) <= list.nodes
      invariant list.last == old(list.last) || fresh(list.last)
      invariant list.Contents() == old(list.Contents()) + done
      invariant Parse(buf) == Prepend(done, ParseFrom(buf, pos))
      decreases len - pos
    {
      var optLen := if pos + 1 < |memory| then memory[pos + 1] else behind;
      var next: nat := pos + 2 + optLen;
      if next >= len {
        ParseStops(memory, len, pos, done);
        return 0;
      }
      ParseNext(memory, len, pos, done);
      var opt := Opt(memory[pos], memory[pos + 2..next]);
      done := done + [opt];
      AppendOption(list, opt);
      pos := next;
    }
    ParseStops(memory, len, pos, done);
    if pos < len && memory[pos] == END {
      return 1;
    }
    return 0;
  }

  /** One turn of the parser's loop, seen from the options it has already read. */
  lemma ParseNext(memory: seq<byte>, len: nat, pos: nat, done: seq<DhcpOption>)
    requires pos + 1 < len <= |memory| && memory[pos] != END && pos + 2 + memory[pos + 1] < len
    ensures var buf, next := memory[..len], pos + 2 + memory[pos + 1];
            var opt := Opt(memory[pos], memory[pos + 2..next]);
            Prepend(done, ParseFrom(buf, pos)) == Prepend(done + [opt], ParseFrom(buf, next))
  {
    var buf, next := memory[..len], pos + 2 + memory[pos + 1];
    assert buf[pos + 2..next] == memory[pos + 2..next];
    ParseOne(buf, pos);
    PrependTwice(done, [OptionAt(buf, pos)], ParseFrom(buf, next));
  }

  /** The buffer is `front` and, behind it, what was there before. */
  ghost predicate Holds(buf: seq<byte>, front: seq<byte>, was: seq<byte>) {
    |front| <= |was| && buf == front + was[|front|..]
  }

  /** memcpy to the write position. */
  method Emit(buf: array<byte>, p: nat, bytes: seq<byte>, ghost front: seq<byte>, ghost was: seq<byte>)
    requires p + |bytes| <= buf.Length == |was|
    requires |front| == p && Holds(buf[..], front, was)
    modifies buf
    ensures Holds(buf[..], front + bytes, was)
  {
    forall k | 0 <= k < |bytes| {
      buf[p + k] := bytes[k];
    }
  }

  lemma HoldsBehind(buf: seq<byte>, front: seq<byte>, was: seq<byte>, len: nat)
    requires Holds(buf, front, was) && |front| <= len <= |was|
    ensures |buf| == |was| && buf == front + was[|front|..] && buf[len..] == was[len..]
  {
  }

  /** Where the parser's loop is left. */
  lemma ParseStops(memory: seq<byte>, len: nat, pos: nat, done: seq<DhcpOption>)
    requires pos <= len <= |memory|
    requires pos < len && memory[pos] != END ==> !OptionFits(memory[..len], pos)
    ensures Prepend(done, ParseFrom(memory[..len], pos)) == Parsed(pos < len && memory[pos] == END, done)
  {
  }

  /** What is in the buffer after `k` options. */
  ghost function Written(os: seq<DhcpOption>, k: nat): (bytes: seq<byte>)
    requires k <= |os|
    ensures |bytes| == 4 + WireSize(os[..k])
  {
    EncodedSize(os[..k]);
    MAGIC + EncodeOptions(os[..k])
  }

  lemma WrittenNext(os: seq<DhcpOption>, k: nat)
    requires k < |os|
    ensures Written(os, k + 1) == Written(os, k) + EncodeOption(os[k])
    ensures |Written(os, k + 1)| <= 4 + WireSize(os)
  {
    assert os[..k + 1] == os[..k] + [os[k]];
    EncodeSnoc(os[..k], os[k]);
    WireSizeSplit(os, k + 1);
  }

  /** The END behind the last option completes the serialisation. */
  lemma WrittenAll(os: seq<DhcpOption>)
    ensures |Written(os, |os|)| == 4 + WireSize(os)
    ensures Written(os, |os|) + [END] == Serialized(os)
  {
    assert os[..|os|] == os;
    EncodedSize(os);
  }

  /** The buffer after `k` options: `p` is the write position. */
  ghost predicate WrittenSoFar(buf: seq<byte>, os: seq<DhcpOption>, k: nat, p: nat, was: seq<byte>) {
    k <= |os| && p == |Written(os, k)| && Holds(buf, Written(os, k), was)
  }

  /** If the next option leaves no room for END, the list does not fit. */
  lemma NoRoomForNext(buf: seq<byte>, os: seq<DhcpOption>, k: nat, p: nat, was: seq<byte>, len: nat)
    requires WrittenSoFar(buf, os, k, p, was) && k < |os|
    requires p <= len <= |was| && len <= p + 2 + |os[k].data|
    ensures len < 5 + WireSize(os) && |buf| == |was| && buf[len..] == was[len..]
  {
    WrittenNext(os, k);
    HoldsBehind(buf, Written(os, k), was, len);
  }

  lemma OnlyEndMissing(buf: seq<byte>, os: seq<DhcpOption>, p: nat, was: seq<byte>, len: nat)
    requires WrittenSoFar(buf, os, |os|, p, was) && p <= len <= |was|
    ensures p == 4 + WireSize(os) && |buf| == |was| && buf[len..] == was[len..]
  {
    WrittenAll(os);
    HoldsBehind(buf, Written(os, |os|), was, len);
  }

  /** The cookie goes into the buffer. */
  method WriteMagic(ghost list: OptionQueue, buf: array<byte>)
    requires list.Valid() && buf.Length >= 4
    modifies buf
    ensures list.Valid() && list.Contents() == old(list.Contents())
    ensures WrittenSoFar(buf[..], list.Contents(), 0, 4, old(buf[..]))
  {
    ghost var os, was := list.Contents(), buf[..];
    Emit(buf, 0, MAGIC, [], was);
    assert [] + MAGIC == Written(os, 0);
    list.StaysValid();
  }

  /** One more option of the list goes into the buffer. */
  method WriteOption(ghost list: OptionQueue, buf: array<byte>, p: nat, o: DhcpOption, ghost k: nat,
                     ghost was: seq<byte>)
    requires list.Valid() && k < |list.Contents()| && list.Contents()[k] == o
    requires WrittenSoFar(buf[..], list.Contents(), k, p, was)
    requires p + 2 + |o.data| <= buf.Length == |was|
    modifies buf
    ensures list.Valid() && list.Contents() == old(list.Contents())
    ensures WrittenSoFar(buf[..], list.Contents(), k + 1, p + 2 + |o.data|, was)
  {
    ghost var os := list.Contents();
    WrittenNext(os, k);
    Emit(buf, p, EncodeOption(o), Written(os, k), was);
    list.StaysValid();
  }

  /** The END behind all of them, with `len` bytes of the buffer in use. */
  method WriteEnd(ghost list: OptionQueue, buf: array<byte>, p: nat, ghost len: nat, ghost was: seq<byte>)
    requires list.Valid() && WrittenSoFar(buf[..], list.Contents(), |list.Contents()|, p, was)
    requires p < len <= buf.Length == |was|
    modifies buf
    ensures list.Contents() == old(list.Contents())
    ensures buf[..] == Serialized(list.Contents()) + was[p + 1..] && buf[len..] == was[len..]
  {
    ghost var os := list.Contents();
    WrittenAll(os);
    ghost var front := Written(os, |os|);
    Emit(buf, p, [END], front, was);
    list.StaysValid();
    HoldsBehind(buf[..], front + [END], was, len);
  }

  /** serialize_option_list: 0 when the options and their frame do not fit. */
  method SerializeOptionList(list: OptionQueue, buf: array<byte>, len: nat) returns (written: nat)
    requires list.Valid() && len <= buf.Length
    modifies buf
    ensures written == if len >= 5 + WireSize(list.Contents()) then 5 + WireSize(list.Contents()) else 0
    ensures written > 0 ==> buf[..] == Serialized(list.Contents()) + old(buf[written..])
    ensures buf[len..] == old(buf[len..])
  {
    ghost var os, nodes, was := list.Contents(), list.nodes, buf[..];
    if len < 4 {
      return 0;
    }
    WriteMagic(list, buf);
    var p: nat, room: nat := 4, len - 4;
    assert LinkedAt(list.first, nodes, 0);
    var opt := list.first.ptr;
    ghost var k := 0;
    while opt != null
      invariant list.Valid() && list.Contents() == os
      invariant k <= |nodes| && opt == NodeAt(nodes, k)
      invariant p + room == len && WrittenSoFar(buf[..], os, k, p, was)
      decreases |nodes| - k
    {
      assert LinkedAt(list.first, nodes, k) && LinkedAt(list.first, nodes, k + 1);
      var next, o := opt.next.ptr, opt.value;
      assert os[k] == o;
      var size := 2 + |o.data|;
      if room <= size {
        NoRoomForNext(buf[..], os, k, p, was, len);
        return 0;
      }
      WriteOption(list, buf, p, o, k, was);
      p, room := p + size, room - size;
      opt := next;
      k := k + 1;
    }
    OnlyEndMissing(buf[..], os, p, was, len);
    if room < 1 {
      return 0;
    }
    WriteEnd(list, buf, p, len, was);
    p, room := p + 1, room - 1;
    return p;
  }

  /** Element `j` may still be read, and leads on to the next one. */
  ghost predicate AllocatedAt(nodes: seq<Node<DhcpOption>>, j: nat)
    requires j < |nodes|
    reads nodes[j], nodes[j].next
  {
    !nodes[j].freed && nodes[j].next.ptr == NodeAt(nodes, j + 1)
  }

  /** A chain of different elements, all of which may still be read. */
  ghost predicate Chain(nodes: seq<Node<DhcpOption>>)
    reads nodes, Slots(nodes)
  {
    && (forall j :: 0 <= j < |nodes| ==> AllocatedAt(nodes, j))
    && (forall i, j {:trigger Apart(nodes[i], nodes[j])} :: 0 <= i < j < |nodes| ==> Apart(nodes[i], nodes[j]))
  }

  /** The body of the freeing loop: the way on has been saved before. */
  method FreeFirst(opt: Node<DhcpOption>, ghost rest: seq<Node<DhcpOption>>)
    requires Chain([opt] + rest)
    modifies opt, opt.next
    ensures opt.freed && Chain(rest)
  {
    ghost var all := [opt] + rest;
    assert all[0] == opt && AllocatedAt(all, 0);
    label before:
    opt.Free();
    forall j | 0 <= j < |rest|
      ensures AllocatedAt(rest, j)
    {
      assert all[j + 1] == rest[j] && NodeAt(all, j + 1 + 1) == NodeAt(rest, j + 1);
      assert Apart(all[0], all[j + 1]);
      assert old@before(AllocatedAt(all, j + 1));
    }
    forall i, j | 0 <= i < j < |rest|
      ensures Apart(rest[i], rest[j])
    {
      assert Apart(all[i + 1], all[j + 1]);
    }
  }

  lemma NextToGo(gone: seq<Node<DhcpOption>>, rest: seq<Node<DhcpOption>>, all: seq<Node<DhcpOption>>)
    requires rest != [] && Chain(rest) && gone + rest == all
    ensures rest == [rest[0]] + rest[1..] && rest[0] in all
    ensures (gone + [rest[0]]) + rest[1..] == all
    ensures rest[0].next.ptr == NodeAt(rest[1..], 0)
  {
    assert (gone + rest)[|gone|] == rest[0];
    assert AllocatedAt(rest, 0) && NodeAt(rest, 0 + 1) == NodeAt(rest[1..], 0);
  }

  /** delete_option_list: every element is freed exactly once (a second free
      would break its precondition) and the head is a valid empty list again. */
  method DeleteOptionList(list: OptionQueue)
    requires list.Valid()
    modifies list, list.first, list.nodes, Slots(list.nodes)
    ensures list.Valid() && list.nodes == []
    ensures forall n :: n in old(list.nodes) ==> n.freed
  {
    ghost var gone: seq<Node<DhcpOption>>, rest := [], list.nodes;
    assert LinkedAt(list.first, list.nodes, 0);
    ChainOfQueue(list);
    var opt := list.first.ptr;
    while opt != null
      invariant opt == NodeAt(rest, 0) && Chain(rest)
      invariant gone + rest == old(list.nodes)
      invariant forall n :: n in gone ==> n.freed
      decreases |rest|
    {
      NextToGo(gone, rest, old(list.nodes));
      var first: Node<DhcpOption> := opt;
      var tmp := first.next.ptr;
      FreeFirst(first, rest[1..]);
      gone, rest := gone + [first], rest[1..];
      opt := tmp;
    }
    assert gone == old(list.nodes);
    list.Init();
  }

  lemma ChainOfQueue(list: OptionQueue)
    requires list.Valid()
    ensures Chain(list.nodes)
  {
    forall j | 0 <= j < |list.nodes|
      ensures AllocatedAt(list.nodes, j)
    {
      assert LinkedAt(list.first, list.nodes, j) && LinkedAt(list.first, list.nodes, j + 1);
    }
  }
}
