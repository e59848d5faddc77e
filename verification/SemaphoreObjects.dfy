/** The semaphore and its acquisitions as the objects that update their fields in place, each
    method tied to the step it takes. */
module SemaphoreObjects {
  import opened Semaphores

  class Semaphore {
    const capacity: nat
    var current: int
    var queue: seq<nat>
    var firstHere: bool
    var ticks: set<nat>

    ghost function Value(): Sem
      reads this
    {
      Sem(capacity, current, queue, ticks)
    }

    constructor (capacity: nat)
      ensures Value() == Sem(capacity, 0, [], {}) && !firstHere
    {
      this.capacity := capacity;
      current := 0;
      queue := [];
      firstHere := false;
      ticks := {};
    }

    /** Takes a permit for the task, or queues it; the caller runs the task when told to. The
        detour over `firstHere` changes nothing in the end, whatever its value was. */
    method TakeFor(id: nat) returns (now: bool)
      modifies this
      ensures (Value(), now) == Take(old(Value()), id)
      ensures firstHere == old(firstHere)
    {
      var isFirst := 0;
      if !firstHere {
        current := current + 1;
        firstHere := true;
        isFirst := 1;
      }
      if current + 1 - isFirst > capacity {
        if isFirst == 1 {
          current := current - 1;
          firstHere := false;
        }
        queue := queue + [id];
        return false;
      }
      current := current + 1 - isFirst;
      if isFirst == 1 {
        firstHere := false;
      }
      return true;
    }

    method LeaveOne() returns (threw: bool)
      modifies this
      ensures (Value(), threw) == Leave(old(Value()))
      ensures firstHere == old(firstHere)
    {
      current := current - 1;
      if |queue| == 0 {
        return current < 0;
      }
      var item := queue[0];
      if 1 + current > capacity {
        return false;
      }
      queue := queue[1..];
      current := current + 1;
      ticks := ticks + {item};
      return false;
    }

    method IsAvailable(n: int) returns (free: bool)
      ensures free == Available(Value(), n)
    {
      free := current + n <= capacity;
    }
  }

  class SemaphoreAcquisition {
    const sem: Semaphore
    const id: nat
    var acquired: bool
    var disposed: bool
    var timedOut: bool

    ghost function Value(): Acquisition
      reads this
    {
      Acquisition(acquired, disposed, timedOut)
    }

    /** The step of `Acquire`: a new acquisition that either runs its task at once or waits. */
    constructor (sem: Semaphore, id: nat)
      modifies sem
      ensures this.sem == sem && this.id == id
      ensures var (taken, now) := Take(old(sem.Value()), id);
        if now then (sem.Value(), Value(), false) == Granted(taken, NEW_ACQUISITION)
        else sem.Value() == taken && Value() == NEW_ACQUISITION
    {
      this.sem := sem;
      this.id := id;
      acquired := false;
      disposed := false;
      timedOut := false;
      new;
      var now := sem.TakeFor(id);
      if now {
        var threw := Task();
      }
    }

    /** The callback given to the semaphore. */
    method Task() returns (threw: bool)
      modifies this, sem
      ensures (sem.Value(), Value(), threw) == Granted(old(sem.Value()), old(Value()))
    {
      threw := false;
      if disposed || timedOut {
        threw := sem.LeaveOne();
        return;
      }
      acquired := true;
    }

    /** The event loop runs a task that a leave granted. */
    method RunScheduled() returns (threw: bool)
      requires id in sem.ticks
      modifies this, sem
      ensures var was := old(sem.Value());
        (sem.Value(), Value(), threw) == Granted(was.(ticks := was.ticks - {id}), old(Value()))
    {
      sem.ticks := sem.ticks - {id};
      threw := Task();
    }

    method DisposeThis() returns (threw: bool)
      modifies this, sem
      ensures (sem.Value(), Value(), threw) == Dispose(old(sem.Value()), old(Value()))
    {
      threw := false;
      if disposed {
        return;
      }
      disposed := true;
      if !acquired {
        return;
      }
      threw := sem.LeaveOne();
      if threw {
        return;
      }
      acquired := false;
    }

    method TimeOutThis()
      modifies this
      ensures Value() == old(Value()).(timedOut := true)
    {
      timedOut := true;
    }
  }
}
