/** LIST_INSERT_HEAD without a lock, as send_DHCP_Offer uses it: each insertion loads
    the head into its element's next pointer and later stores the element as the
    head. The thread model takes the two for one step; here they are two, and
    insertions of several workers interleave. Nothing is removed meanwhile. */
module UnlockedInsert {

  /** Next pointers do not change once an element can be reached, so what an insertion
      has loaded is the list behind the pointer. */
  datatype Insertion<T> = Waiting(elem: T) | Loaded(elem: T, next: seq<T>) | Stored(elem: T)

  /** `list` is what can be reached from the head. */
  datatype Shared<T> = Shared(list: seq<T>, insertions: seq<Insertion<T>>)

  function Begin<T>(list: seq<T>, elems: seq<T>): Shared<T> {
    Shared(list, seq(|elems|, i requires 0 <= i < |elems| => Waiting(elems[i])))
  }

  predicate CanStep<T>(s: Shared<T>, i: nat) {
    i < |s.insertions| && !s.insertions[i].Stored?
  }

  function Step<T>(s: Shared<T>, i: nat): Shared<T>
    requires CanStep(s, i)
  {
    match s.insertions[i]
    case Waiting(e) => s.(insertions := s.insertions[i := Loaded(e, s.list)])
    case Loaded(e, next) => Shared([e] + next, s.insertions[i := Stored(e)])
  }

  ghost predicate IsSchedule<T>(s: Shared<T>, steps: seq<nat>)
    decreases steps
  {
    steps == [] || (CanStep(s, steps[0]) && IsSchedule(Step(s, steps[0]), steps[1..]))
  }

  ghost function Outcome<T>(s: Shared<T>, steps: seq<nat>): Shared<T>
    requires IsSchedule(s, steps)
    decreases steps
  {
    if steps == [] then s else Outcome(Step(s, steps[0]), steps[1..])
  }

  ghost predicate Complete<T>(s: Shared<T>) {
    forall i :: 0 <= i < |s.insertions| ==> s.insertions[i].Stored?
  }

  /** Insertion `i` stores while another one has loaded and not stored. */
  ghost predicate Clobbers<T>(s: Shared<T>, i: nat)
    requires CanStep(s, i)
  {
    s.insertions[i].Loaded? && exists j :: 0 <= j < |s.insertions| && j != i && s.insertions[j].Loaded?
  }

  /** That happens somewhere in the schedule. */
  ghost predicate Overlaps<T>(s: Shared<T>, steps: seq<nat>)
    requires IsSchedule(s, steps)
    decreases steps
  {
    steps != [] && (Clobbers(s, steps[0]) || Overlaps(Step(s, steps[0]), steps[1..]))
  }

  /** The elements of the insertions that have stored. */
  ghost function Elems<T>(insertions: seq<Insertion<T>>): multiset<T> {
    if insertions == [] then multiset{}
    else (if insertions[0].Stored? then multiset{insertions[0].elem} else multiset{}) + Elems(insertions[1..])
  }

  lemma {:induction false} ElemsMove<T>(insertions: seq<Insertion<T>>, i: nat, at: Insertion<T>)
    requires i < |insertions| && !insertions[i].Stored?
    ensures Elems(insertions[i := at]) ==
            Elems(insertions) + if at.Stored? then multiset{at.elem} else multiset{}
  {
    var moved := insertions[i := at];
    if i == 0 {
      assert moved[1..] == insertions[1..];
    } else {
      assert moved[1..] == insertions[1..][i - 1 := at];
      ElemsMove(insertions[1..], i - 1, at);
    }
  }

  // ----- While nothing has got lost

  /** The list holds everything that was stored, and what was loaded is what it holds. */
  ghost predicate Intact<T>(s: Shared<T>, bs: seq<T>) {
    && multiset(s.list) == multiset(bs) + Elems(s.insertions)
    && forall i :: 0 <= i < |s.insertions| && s.insertions[i].Loaded? ==> s.insertions[i].next == s.list
  }

  lemma StaysIntact<T>(s: Shared<T>, bs: seq<T>, i: nat)
    requires Intact(s, bs) && CanStep(s, i) && !Clobbers(s, i)
    ensures Intact(Step(s, i), bs)
  {
    var s' := Step(s, i);
    ElemsMove(s.insertions, i, s'.insertions[i]);
    if s.insertions[i].Loaded? {
      assert multiset(s'.list) == multiset{s.insertions[i].elem} + multiset(s.list);
    }
  }

  lemma {:induction false} IntactForGood<T>(s: Shared<T>, bs: seq<T>, steps: seq<nat>)
    requires Intact(s, bs) && IsSchedule(s, steps) && !Overlaps(s, steps)
    ensures Intact(Outcome(s, steps), bs)
    decreases steps
  {
    if steps != [] {
      StaysIntact(s, bs, steps[0]);
      IntactForGood(Step(s, steps[0]), bs, steps[1..]);
    }
  }

  // ----- Once something has got lost, or will

  /** What the list may hold: the old bindings and those stored. */
  ghost function Most<T>(s: Shared<T>, bs: seq<T>): nat {
    |bs| + |Elems(s.insertions)|
  }

  /** No more can be reached than that, and what was loaded and is not the list any
      more was less. */
  ghost predicate Limited<T>(s: Shared<T>, bs: seq<T>) {
    && |s.list| <= Most(s, bs)
    && forall i :: 0 <= i < |s.insertions| && s.insertions[i].Loaded? ==>
                     s.insertions[i].next == s.list || |s.insertions[i].next| < Most(s, bs)
  }

  ghost predicate Lossy<T>(s: Shared<T>, bs: seq<T>) {
    || |s.list| < Most(s, bs)
    || exists i :: 0 <= i < |s.insertions| && s.insertions[i].Loaded? && |s.insertions[i].next| < Most(s, bs)
  }

  lemma LossStays<T>(s: Shared<T>, bs: seq<T>, i: nat)
    requires Limited(s, bs) && CanStep(s, i)
    ensures Limited(Step(s, i), bs)
    ensures Lossy(s, bs) || Clobbers(s, i) ==> Lossy(Step(s, i), bs)
  {
    var s' := Step(s, i);
    ElemsMove(s.insertions, i, s'.insertions[i]);
    assert Most(s', bs) == Most(s, bs) + if s.insertions[i].Loaded? then 1 else 0;
    if Clobbers(s, i) {
      var j :| 0 <= j < |s.insertions| && j != i && s.insertions[j].Loaded?;
      assert s'.insertions[j] == s.insertions[j];
    } else if Lossy(s, bs) && |s.list| >= Most(s, bs) {
      var j :| 0 <= j < |s.insertions| && s.insertions[j].Loaded? && |s.insertions[j].next| < Most(s, bs);
      assert j != i ==> s'.insertions[j] == s.insertions[j];
    }
  }

  lemma {:induction false} LossForGood<T>(s: Shared<T>, bs: seq<T>, steps: seq<nat>)
    requires Limited(s, bs) && IsSchedule(s, steps) && (Lossy(s, bs) || Overlaps(s, steps))
    ensures Lossy(Outcome(s, steps), bs)
    decreases steps
  {
    if steps != [] {
      LossStays(s, bs, steps[0]);
      LossForGood(Step(s, steps[0]), bs, steps[1..]);
    }
  }

  // ----- The exact condition

  ghost predicate Inserts<T>(insertions: seq<Insertion<T>>, elems: seq<T>) {
    |insertions| == |elems| && forall i :: 0 <= i < |elems| ==> insertions[i].elem == elems[i]
  }

  lemma {:induction false} InsertsForGood<T>(s: Shared<T>, elems: seq<T>, steps: seq<nat>)
    requires Inserts(s.insertions, elems) && IsSchedule(s, steps)
    ensures Inserts(Outcome(s, steps).insertions, elems)
    decreases steps
  {
    if steps != [] {
      InsertsForGood(Step(s, steps[0]), elems, steps[1..]);
    }
  }

  lemma {:induction false} AllStored<T>(insertions: seq<Insertion<T>>, elems: seq<T>)
    requires Inserts(insertions, elems) && forall i :: 0 <= i < |elems| ==> insertions[i].Stored?
    ensures Elems(insertions) == multiset(elems)
  {
    if elems != [] {
      AllStored(insertions[1..], elems[1..]);
      assert elems == [elems[0]] + elems[1..];
    }
  }

  lemma {:induction false} NoneStored<T>(insertions: seq<Insertion<T>>)
    requires forall i :: 0 <= i < |insertions| ==> !insertions[i].Stored?
    ensures Elems(insertions) == multiset{}
  {
    if insertions != [] {
      NoneStored(insertions[1..]);
    }
  }

  lemma BeginIsIntact<T>(bs: seq<T>, elems: seq<T>)
    ensures var s := Begin(bs, elems); Intact(s, bs) && Limited(s, bs) && Inserts(s.insertions, elems)
  {
    NoneStored(Begin(bs, elems).insertions);
  }

  lemma LostByOverlap<T>(bs: seq<T>, elems: seq<T>, steps: seq<nat>)
    requires IsSchedule(Begin(bs, elems), steps) && Complete(Outcome(Begin(bs, elems), steps))
    requires Overlaps(Begin(bs, elems), steps)
    ensures |Outcome(Begin(bs, elems), steps).list| < |bs| + |elems|
  {
    var s := Begin(bs, elems);
    BeginIsIntact(bs, elems);
    LossForGood(s, bs, steps);
    InsertsForGood(s, elems, steps);
    AllStored(Outcome(s, steps).insertions, elems);
  }

  lemma KeptWithout<T>(bs: seq<T>, elems: seq<T>, steps: seq<nat>)
    requires IsSchedule(Begin(bs, elems), steps) && Complete(Outcome(Begin(bs, elems), steps))
    requires !Overlaps(Begin(bs, elems), steps)
    ensures multiset(Outcome(Begin(bs, elems), steps).list) == multiset(bs) + multiset(elems)
  {
    var s := Begin(bs, elems);
    BeginIsIntact(bs, elems);
    IntactForGood(s, bs, steps);
    InsertsForGood(s, elems, steps);
    AllStored(Outcome(s, steps).insertions, elems);
  }

  /** When all insertions are through, the list holds the old bindings and all new ones,
      each once, if and only if none of them stored between load and store of another. */
  lemma NothingLostIff<T>(bs: seq<T>, elems: seq<T>, steps: seq<nat>)
    requires IsSchedule(Begin(bs, elems), steps) && Complete(Outcome(Begin(bs, elems), steps))
    ensures multiset(Outcome(Begin(bs, elems), steps).list) == multiset(bs) + multiset(elems)
            <==> !Overlaps(Begin(bs, elems), steps)
  {
    if Overlaps(Begin(bs, elems), steps) {
      LostByOverlap(bs, elems, steps);
      assert |multiset(bs) + multiset(elems)| == |bs| + |elems|;
    } else {
      KeptWithout(bs, elems, steps);
    }
  }

  /** Two insertions that both load first: the first one to store is lost. */
  lemma FirstStoreIsLost<T>(bs: seq<T>, x: T, y: T)
    ensures var s, steps := Begin(bs, [x, y]), [0, 1, 0, 1];
            IsSchedule(s, steps) && Overlaps(s, steps) && Complete(Outcome(s, steps))
            && Outcome(s, steps).list == [y] + bs
  {
    var s := Begin(bs, [x, y]);
    var a := Step(s, 0);
    var b := Step(a, 1);
    var c := Step(b, 0);
    var d := Step(c, 1);
    assert b.insertions[0].Loaded? && b.insertions[1].Loaded?;
    var steps: seq<nat> := [0, 1, 0, 1];
    assert steps[1..] == [1, 0, 1] && steps[1..][1..] == [0, 1] && steps[1..][1..][1..] == [1];
    assert steps[1..][1..][1..][1..] == [];
    assert Outcome(s, steps) == d;
  }
}
