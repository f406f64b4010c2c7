/** Lease bindings as values, and what ip_pool_manager.c computes over a list of
    them. Times are unbounded integers. */
module Bindings {
  import opened Words

  // is_static
  const DYNAMIC := 0
  const STATIC := 1
  const STATIC_OR_DYNAMIC := 2

  // status
  const EMPTY := 0
  const ASSOCIATED := 1
  const PENDING := 2
  const EXPIRED := 3
  const RELEASED := 4

  /** How long a binding may stay PENDING, in seconds. */
  const PENDING_TIME := 3600

  /** `cident` stands for the first cident_len bytes of the identifier. */
  datatype Binding = Binding(address: u32, cident: seq<byte>, bindingTime: int, leaseTime: int,
                             status: int, isStatic: int)

  // ----- search_binding

  predicate Matches(b: Binding, cident: seq<byte>, isStatic: int, status: int) {
    && (b.isStatic == isStatic || isStatic == STATIC_OR_DYNAMIC)
    && b.cident == cident
    && (status == 0 || b.status == status)
  }

  /** The position of the first match, or the length of the list. */
  function Search(bs: seq<Binding>, cident: seq<byte>, isStatic: int, status: int): (k: nat)
    ensures k <= |bs|
    ensures k < |bs| ==> Matches(bs[k], cident, isStatic, status)
  {
    if bs == [] || Matches(bs[0], cident, isStatic, status) then 0
    else 1 + Search(bs[1..], cident, isStatic, status)
  }

  lemma {:induction false} SearchIsFirst(bs: seq<Binding>, cident: seq<byte>, isStatic: int, status: int, j: nat)
    requires j < Search(bs, cident, isStatic, status)
    ensures !Matches(bs[j], cident, isStatic, status)
  {
    if j > 0 {
      SearchIsFirst(bs[1..], cident, isStatic, status, j - 1);
    }
  }

  /** Anything that is a first match is what the search finds. */
  lemma {:induction false} FirstIsSearch(bs: seq<Binding>, cident: seq<byte>, isStatic: int, status: int, k: nat)
    requires k <= |bs| && (k < |bs| ==> Matches(bs[k], cident, isStatic, status))
    requires forall j :: 0 <= j < k ==> !Matches(bs[j], cident, isStatic, status)
    ensures Search(bs, cident, isStatic, status) == k
  {
    if k > 0 {
      FirstIsSearch(bs[1..], cident, isStatic, status, k - 1);
    }
  }

  /** What is found has the client identifier, the kind unless 2 asks for any, and the
      status unless 0 asks for any; and nothing in front of it does. */
  lemma SearchMeans(bs: seq<Binding>, cident: seq<byte>, isStatic: int, status: int, j: nat)
    requires j < |bs| && j <= Search(bs, cident, isStatic, status)
    ensures (bs[j].cident == cident && (isStatic == 2 || bs[j].isStatic == isStatic)
             && (status == 0 || bs[j].status == status))
            <==> j == Search(bs, cident, isStatic, status)
  {
    if j < Search(bs, cident, isStatic, status) {
      SearchIsFirst(bs, cident, isStatic, status, j);
    }
  }

  // ----- update_bindings_statuses, cleanup_expired_bindings

  function Updated(b: Binding, now: int): Binding {
    if b.status == PENDING && now - b.bindingTime > PENDING_TIME then b.(status := EXPIRED) else b
  }

  function UpdateAll(bs: seq<Binding>, now: int): (us: seq<Binding>)
    ensures |us| == |bs|
    ensures forall i :: 0 <= i < |bs| ==> us[i] == Updated(bs[i], now)
  {
    seq(|bs|, i requires 0 <= i < |bs| => Updated(bs[i], now))
  }

  /** Only the status of a binding changes, from 2 to 3 after more than 3600 seconds. */
  lemma OverdueChanges(bs: seq<Binding>, now: int, i: nat)
    requires i < |bs|
    ensures var b, u := bs[i], UpdateAll(bs, now)[i];
            && u.address == b.address && u.cident == b.cident && u.isStatic == b.isStatic
            && u.bindingTime == b.bindingTime && u.leaseTime == b.leaseTime
            && u.status == if b.status == 2 && now - b.bindingTime > 3600 then 3 else b.status
  {
  }

  function DropExpired(bs: seq<Binding>): seq<Binding> {
    if bs == [] then []
    else if bs[0].status == EXPIRED then DropExpired(bs[1..])
    else [bs[0]] + DropExpired(bs[1..])
  }

  lemma {:induction false} DropExpiredAppend(bs: seq<Binding>, cs: seq<Binding>)
    ensures DropExpired(bs + cs) == DropExpired(bs) + DropExpired(cs)
  {
    if bs == [] {
      assert bs + cs == cs;
    } else {
      assert (bs + cs)[1..] == bs[1..] + cs;
      DropExpiredAppend(bs[1..], cs);
    }
  }

  lemma DropExpiredSnoc(bs: seq<Binding>, b: Binding)
    ensures DropExpired(bs + [b]) == if b.status == EXPIRED then DropExpired(bs) else DropExpired(bs) + [b]
  {
    DropExpiredAppend(bs, [b]);
    assert [b][1..] == [];
    assert DropExpired([b]) == if b.status == EXPIRED then [] else [b];
  }

  /** Positions in a list, from front to back. */
  ghost predicate Increasing(at: seq<nat>) {
    forall i, j :: 0 <= i < j < |at| ==> at[i] < at[j]
  }

  /** `kept` is `bs` at the increasing positions `at`, which are those of the
      bindings that are not EXPIRED: none is lost, made up, repeated or moved. */
  ghost predicate KeptAt(bs: seq<Binding>, kept: seq<Binding>, at: seq<nat>) {
    && |at| == |kept| && Increasing(at)
    && (forall i :: 0 <= i < |at| ==> at[i] < |bs| && kept[i] == bs[at[i]] && bs[at[i]].status != EXPIRED)
    && (forall k: nat :: k < |bs| && bs[k].status != EXPIRED ==> k in at)
  }

  lemma KeptAtSnoc(bs: seq<Binding>, kept: seq<Binding>, at: seq<nat>, b: Binding)
    requires KeptAt(bs, kept, at)
    ensures if b.status == EXPIRED then KeptAt(bs + [b], kept, at)
            else KeptAt(bs + [b], kept + [b], at + [|bs|])
  {
    var longer := at + [|bs|];
    if b.status != EXPIRED {
      assert longer[|at|] == |bs|;
      forall k: nat | k < |bs + [b]| && (bs + [b])[k].status != EXPIRED
        ensures k in longer
      {
        assert k < |bs| ==> k in at;
      }
    }
  }

  /** What the clean-up keeps, and where it stood. */
  lemma {:induction false} DropExpiredKeeps(bs: seq<Binding>) returns (at: seq<nat>)
    ensures KeptAt(bs, DropExpired(bs), at)
    decreases |bs|
  {
    at := [];
    if bs != [] {
      var n, b := |bs| - 1, bs[|bs| - 1];
      var before := DropExpiredKeeps(bs[..n]);
      assert bs == bs[..n] + [b];
      DropExpiredSnoc(bs[..n], b);
      KeptAtSnoc(bs[..n], DropExpired(bs[..n]), before, b);
      at := if b.status == EXPIRED then before else before + [n];
    }
  }

  /** One round of maintenance: expire what is overdue, then drop it. */
  function Maintain(bs: seq<Binding>, now: int): seq<Binding> {
    DropExpired(UpdateAll(bs, now))
  }

  /** Maintenance in one pass: what survives it, unchanged. */
  function Survivors(bs: seq<Binding>, now: int): seq<Binding> {
    if bs == [] then []
    else if Overdue(bs[0], now) then Survivors(bs[1..], now)
    else [bs[0]] + Survivors(bs[1..], now)
  }

  predicate Overdue(b: Binding, now: int) {
    b.status == EXPIRED || (b.status == PENDING && now - b.bindingTime > PENDING_TIME)
  }

  lemma {:induction false} MaintainKeepsSurvivors(bs: seq<Binding>, now: int)
    ensures Maintain(bs, now) == Survivors(bs, now)
  {
    if bs != [] {
      assert UpdateAll(bs, now) == [Updated(bs[0], now)] + UpdateAll(bs[1..], now);
      assert UpdateAll(bs, now)[1..] == UpdateAll(bs[1..], now);
      MaintainKeepsSurvivors(bs[1..], now);
    } else {
      assert UpdateAll(bs, now) == [];
    }
  }

  /** An early round changes nothing about the outcome of a later one. */
  lemma {:induction false} MaintainTwice(bs: seq<Binding>, t1: int, t2: int)
    requires t1 <= t2
    ensures Maintain(Maintain(bs, t1), t2) == Maintain(bs, t2)
  {
    MaintainKeepsSurvivors(bs, t1);
    MaintainKeepsSurvivors(bs, t2);
    MaintainKeepsSurvivors(Survivors(bs, t1), t2);
    SurvivorsTwice(bs, t1, t2);
  }

  lemma {:induction false} SurvivorsTwice(bs: seq<Binding>, t1: int, t2: int)
    requires t1 <= t2
    ensures Survivors(Survivors(bs, t1), t2) == Survivors(bs, t2)
  {
    if bs != [] {
      SurvivorsTwice(bs[1..], t1, t2);
      if !Overdue(bs[0], t1) {
        assert ([bs[0]] + Survivors(bs[1..], t1))[1..] == Survivors(bs[1..], t1);
      }
    }
  }
}
