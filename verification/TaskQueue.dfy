/** The global task array of server_connection.c, as it is changed while its mutex
    is held. */
module TaskQueue {

  const CAPACITY: nat := 256

  class TaskQueue<T> {
    const slots: array<T>
    var count: nat

    ghost predicate Valid()
      reads this
    {
      slots.Length == CAPACITY && count <= CAPACITY
    }

    /** The tasks not taken yet, oldest first. */
    ghost function Pending(): seq<T>
      requires Valid()
      reads this, slots
    {
      slots[..count]
    }

    constructor (blank: T)
      ensures Valid() && Pending() == [] && fresh(slots) && slots.Length == 256
    {
      slots := new T[CAPACITY](_ => blank);
      count := 0;
    }

    /** submitTask, between lock and unlock. It does not look whether there is room. */
    method Submit(task: T)
      requires Valid() && count < CAPACITY
      modifies this`count, slots
      ensures Valid() && Pending() == old(Pending()) + [task]
    {
      slots[count] := task;
      count := count + 1;
    }

    /** startThread, once there is a task: the first one is taken out and the
        others move down by one. */
    method Take() returns (task: T)
      requires Valid() && count > 0
      modifies this`count, slots
      ensures Valid() && [task] + Pending() == old(Pending())
    {
      task := slots[0];
      var i := 0;
      while i < count - 1
        invariant Valid() && count == old(count) && 0 <= i <= count - 1
        invariant forall j :: 0 <= j < i ==> slots[j] == old(slots[j + 1])
        invariant forall j :: i <= j < count ==> slots[j] == old(slots[j])
      {
        slots[i] := slots[i + 1];
        i := i + 1;
      }
      count := count - 1;
    }
  }
}
