/** The counting semaphore and acquisitions of it that can time out or be disposed. */
module Semaphores {
  // That can happen at any moment: in the queue, between grant and start, or while holding the permit.

  /** The semaphore; `ticks` holds the granted tasks that the event loop has not run yet. */
  datatype Sem = Sem(capacity: nat, current: int, queue: seq<nat>, ticks: set<nat>)

  datatype Acquisition = Acquisition(acquired: bool, disposed: bool, timedOut: bool)

  const NEW_ACQUISITION := Acquisition(false, false, false)

  predicate Available(s: Sem, n: int) {
    s.current + n <= s.capacity
  }

  /** The semaphore after a take, and whether the task ran at once. */
  function Take(s: Sem, id: nat): (Sem, bool) {
    if Available(s, 1) then (s.(current := s.current + 1), true)
    else (s.(queue := s.queue + [id]), false)
  }

  /** The semaphore after one permit was given back, and whether the call threw. */
  function Leave(s: Sem): (Sem, bool) {
    var current := s.current - 1;
    if s.queue == [] then (s.(current := current), current < 0)
    else if current + 1 > s.capacity then (s.(current := current), false)
    else (Sem(s.capacity, current + 1, s.queue[1..], s.ticks + {s.queue[0]}), false)
  }

  /** What the task does once the permit is granted. */
  function Granted(s: Sem, a: Acquisition): (Sem, Acquisition, bool) {
    if a.disposed || a.timedOut then
      var (left, threw) := Leave(s);
      (left, a, threw)
    else (s, a.(acquired := true), false)
  }

  function Dispose(s: Sem, a: Acquisition): (Sem, Acquisition, bool) {
    if a.disposed then (s, a, false)
    else if !a.acquired then (s, a.(disposed := true), false)
    else
      var (left, threw) := Leave(s);
      (left, Acquisition(threw, true, a.timedOut), threw)
  }

  // ---------------------------------------------------------------------------------
  // Any number of acquisitions of one semaphore

  /** `granted` is the history of grants, at once or by a leave. */
  datatype State = State(sem: Sem, acquisitions: seq<Acquisition>, granted: seq<nat>, threw: bool)

  datatype Step = Acquire | TimeOut(id: nat) | DisposeIt(id: nat) | RunTask(id: nat)

  predicate Enabled(st: State, step: Step) {
    match step
    case Acquire => true
    case TimeOut(id) => id < |st.acquisitions|
    case DisposeIt(id) => id < |st.acquisitions|
    case RunTask(id) => id in st.sem.ticks && id < |st.acquisitions|
  }

  /** The head of the queue when a leave took it out. */
  function Dequeued(before: Sem, after: Sem): seq<nat> {
    if |after.queue| < |before.queue| then [before.queue[0]] else []
  }

  function After(st: State, id: nat, outcome: (Sem, Acquisition, bool)): State
    requires id < |st.acquisitions|
  {
    var (sem, acquisition, threw) := outcome;
    State(sem, st.acquisitions[id := acquisition], st.granted + Dequeued(st.sem, sem), st.threw || threw)
  }

  function Next(st: State, step: Step): State
    requires Enabled(st, step)
  {
    match step
    case Acquire =>
      var id := |st.acquisitions|;
      var (sem, now) := Take(st.sem, id);
      if now then
        var (held, a, threw) := Granted(sem, NEW_ACQUISITION);
        State(held, st.acquisitions + [a], st.granted + [id], st.threw || threw)
      else State(sem, st.acquisitions + [NEW_ACQUISITION], st.granted, st.threw)
    case TimeOut(id) =>
      st.(acquisitions := st.acquisitions[id := st.acquisitions[id].(timedOut := true)])
    case DisposeIt(id) => After(st, id, Dispose(st.sem, st.acquisitions[id]))
    case RunTask(id) =>
      var sem := st.sem.(ticks := st.sem.ticks - {id});
      After(st.(sem := sem), id, Granted(sem, st.acquisitions[id]))
  }

  function Start(capacity: nat): State {
    State(Sem(capacity, 0, [], {}), [], [], false)
  }

  ghost predicate Run(st: State, steps: seq<Step>)
    decreases |steps|
  {
    steps == [] || (Enabled(st, steps[0]) && Run(Next(st, steps[0]), steps[1..]))
  }

  ghost function Final(st: State, steps: seq<Step>): State
    requires Run(st, steps)
    decreases |steps|
  {
    if steps == [] then st else Final(Next(st, steps[0]), steps[1..])
  }

  // ---------------------------------------------------------------------------------
  // The invariant

  function Holders(acquisitions: seq<Acquisition>): nat {
    if acquisitions == [] then 0
    else Holders(acquisitions[..|acquisitions| - 1]) + (if acquisitions[|acquisitions| - 1].acquired then 1 else 0)
  }

  /** Every permit is held by an acquisition or travels with a task that has not run yet. */
  ghost predicate PermitsCounted(st: State) {
    && st.sem.current == Holders(st.acquisitions) + |st.sem.ticks|
    && st.sem.current <= st.sem.capacity
    && (st.sem.queue != [] ==> st.sem.current == st.sem.capacity)
  }

  /** Grants go to acquisitions in the order they arrived, and the queue holds the rest. */
  ghost predicate ArrivalOrder(st: State) {
    var all := st.granted + st.sem.queue;
    |all| == |st.acquisitions| && forall i | 0 <= i < |all| :: all[i] == i
  }

  ghost predicate PhasesApart(st: State) {
    && (forall id | id in st.sem.ticks :: id < |st.granted| && id < |st.acquisitions| && !st.acquisitions[id].acquired)
    && (forall i | 0 <= i < |st.acquisitions| :: st.acquisitions[i].acquired ==>
          i < |st.granted| && !st.acquisitions[i].disposed)
  }

  ghost predicate Inv(st: State) {
    PermitsCounted(st) && ArrivalOrder(st) && PhasesApart(st) && !st.threw
  }

  lemma {:induction false} HoldersUpdate(acquisitions: seq<Acquisition>, id: nat, a: Acquisition)
    requires id < |acquisitions|
    ensures Holders(acquisitions[id := a]) ==
      Holders(acquisitions) - (if acquisitions[id].acquired then 1 else 0) + (if a.acquired then 1 else 0)
  {
    var n := |acquisitions| - 1;
    if id == n {
      assert acquisitions[id := a][..n] == acquisitions[..n];
    } else {
      assert acquisitions[id := a][..n] == acquisitions[..n][id := a];
      HoldersUpdate(acquisitions[..n], id, a);
    }
  }

  lemma {:induction false} NoHolders(acquisitions: seq<Acquisition>)
    requires forall i | 0 <= i < |acquisitions| :: !acquisitions[i].acquired
    ensures Holders(acquisitions) == 0
  {
    if acquisitions != [] {
      NoHolders(acquisitions[..|acquisitions| - 1]);
    }
  }

  lemma {:induction false} SomeHolder(acquisitions: seq<Acquisition>, id: nat)
    requires id < |acquisitions| && acquisitions[id].acquired
    ensures Holders(acquisitions) > 0
  {
    var n := |acquisitions| - 1;
    if id < n {
      SomeHolder(acquisitions[..n], id);
    }
  }

  /** What a leave needs to keep everything in place: the permit it gives back is still counted
      in `current`, and nothing else counts it. */
  lemma {:induction false} LeaveKeeps(st: State, after: State)
    requires ArrivalOrder(st) && PhasesApart(st) && !st.threw
    requires st.sem.current == Holders(st.acquisitions) + |st.sem.ticks| + 1
    requires st.sem.current <= st.sem.capacity && (st.sem.queue != [] ==> st.sem.current == st.sem.capacity)
    requires after == State(Leave(st.sem).0, st.acquisitions, st.granted + Dequeued(st.sem, Leave(st.sem).0),
                            st.threw || Leave(st.sem).1)
    ensures Inv(after)
  {
    if st.sem.queue != [] {
      var head := st.sem.queue[0];
      var all := st.granted + st.sem.queue;
      assert all[|st.granted|] == head;
      assert head == |st.granted|;
      assert after.granted + after.sem.queue == all;
      assert head !in st.sem.ticks;
      assert !st.acquisitions[head].acquired;
    } else {
      assert after.granted == st.granted;
    }
  }

  lemma {:induction false} AcquireKeeps(st: State)
    requires Inv(st)
    ensures Inv(Next(st, Acquire))
  {
    var after := Next(st, Acquire);
    var n := |st.acquisitions|;
    assert after.acquisitions[..n] == st.acquisitions;
    if Available(st.sem, 1) {
      assert after.granted + after.sem.queue == st.granted + [n];
      assert st.granted + st.sem.queue == st.granted;
    } else {
      assert after.granted + after.sem.queue == st.granted + st.sem.queue + [n];
    }
  }

  lemma {:induction false} TimeOutKeeps(st: State, id: nat)
    requires Inv(st) && Enabled(st, TimeOut(id))
    ensures Inv(Next(st, TimeOut(id)))
  {
    HoldersUpdate(st.acquisitions, id, st.acquisitions[id].(timedOut := true));
  }

  lemma {:induction false} DisposeKeeps(st: State, id: nat)
    requires Inv(st) && Enabled(st, DisposeIt(id))
    ensures Inv(Next(st, DisposeIt(id)))
  {
    var a := st.acquisitions[id];
    var after := Next(st, DisposeIt(id));
    if a.disposed || !a.acquired {
      HoldersUpdate(st.acquisitions, id, a.(disposed := true));
      assert after.granted == st.granted;
      assert a.disposed ==> st.acquisitions[id := a] == st.acquisitions;
    } else {
      var b := Acquisition(false, true, a.timedOut);
      HoldersUpdate(st.acquisitions, id, b);
      SomeHolder(st.acquisitions, id);
      LeaveKeeps(st.(acquisitions := st.acquisitions[id := b]), after);
    }
  }

  lemma {:induction false} RunTaskKeeps(st: State, id: nat)
    requires Inv(st) && Enabled(st, RunTask(id))
    ensures Inv(Next(st, RunTask(id)))
  {
    var a := st.acquisitions[id];
    var sem := st.sem.(ticks := st.sem.ticks - {id});
    var after := Next(st, RunTask(id));
    if a.disposed || a.timedOut {
      assert st.acquisitions[id := a] == st.acquisitions;
      LeaveKeeps(st.(sem := sem), after);
    } else {
      HoldersUpdate(st.acquisitions, id, a.(acquired := true));
      assert after.granted == st.granted;
    }
  }

  lemma {:induction false} StepKeepsInv(st: State, step: Step)
    requires Inv(st) && Enabled(st, step)
    ensures Inv(Next(st, step))
  {
    match step
    case Acquire => AcquireKeeps(st);
    case TimeOut(id) => TimeOutKeeps(st, id);
    case DisposeIt(id) => DisposeKeeps(st, id);
    case RunTask(id) => RunTaskKeeps(st, id);
  }

  /** In every run the permits in use are exactly the held ones and those on their way, they stay
      within the capacity, none is idle while somebody waits, grants follow the order of arrival
      and no leave is one too many. */
  lemma {:induction false} RunKeepsInv(st: State, steps: seq<Step>)
    requires Inv(st) && Run(st, steps)
    ensures Inv(Final(st, steps)) && Final(st, steps).sem.capacity == st.sem.capacity
    decreases |steps|
  {
    if steps != [] {
      StepKeepsInv(st, steps[0]);
      RunKeepsInv(Next(st, steps[0]), steps[1..]);
    }
  }

  /** No more acquisitions hold a permit than there are, and nobody is granted one before an
      earlier arrival. */
  lemma {:induction false} ExclusiveAndInOrder(capacity: nat, steps: seq<Step>, i: nat, j: nat)
    requires Run(Start(capacity), steps) && i < j
    ensures var st := Final(Start(capacity), steps);
      && Holders(st.acquisitions) <= capacity
      && (j in st.granted ==> i in st.granted)
      && (j < |st.acquisitions| && st.acquisitions[j].acquired ==> i !in st.sem.queue)
  {
    RunKeepsInv(Start(capacity), steps);
    var st := Final(Start(capacity), steps);
    var all := st.granted + st.sem.queue;
    assert forall k | 0 <= k < |st.granted| :: st.granted[k] == all[k];
    assert forall k | 0 <= k < |st.sem.queue| :: st.sem.queue[k] == all[|st.granted| + k];
    if j in st.granted {
      assert st.granted[i] == i;
    }
  }

  ghost predicate AllDisposed(st: State) {
    forall i | 0 <= i < |st.acquisitions| :: st.acquisitions[i].disposed
  }

  /** Once everything is disposed and every granted task has run, all permits are back. */
  lemma {:induction false} AllPermitsComeBack(capacity: nat, steps: seq<Step>)
    requires Run(Start(capacity), steps)
    ensures var st := Final(Start(capacity), steps);
      AllDisposed(st) && st.sem.ticks == {} ==>
        st.sem.current == 0 && (capacity > 0 ==> st.sem.queue == [] && |st.granted| == |st.acquisitions|)
  {
    RunKeepsInv(Start(capacity), steps);
    var st := Final(Start(capacity), steps);
    if AllDisposed(st) && st.sem.ticks == {} {
      NoHolders(st.acquisitions);
    }
  }

  /** When everything is disposed, running the granted tasks empties the queue: each task passes
      its permit on, so a run of tasks can be no longer than those granted or waiting. */
  lemma {:induction false} TasksDrain(st: State, steps: seq<Step>)
    requires Inv(st) && AllDisposed(st) && Run(st, steps)
    requires forall i | 0 <= i < |steps| :: steps[i].RunTask?
    ensures AllDisposed(Final(st, steps))
    ensures |Final(st, steps).sem.ticks| + |Final(st, steps).sem.queue| + |steps|
         == |st.sem.ticks| + |st.sem.queue|
    decreases |steps|
  {
    if steps != [] {
      var id := steps[0].id;
      assert st.acquisitions[id := st.acquisitions[id]] == st.acquisitions;
      RunTaskKeeps(st, id);
      DisposedTaskPassesOn(st, id);
      TasksDrain(Next(st, steps[0]), steps[1..]);
    }
  }

  lemma {:induction false} DisposedTaskPassesOn(st: State, id: nat)
    requires Inv(st) && AllDisposed(st) && Enabled(st, RunTask(id))
    ensures var after := Next(st, RunTask(id));
      && after.acquisitions == st.acquisitions
      && |after.sem.ticks| + |after.sem.queue| + 1 == |st.sem.ticks| + |st.sem.queue|
  {
    var rest := st.sem.ticks - {id};
    assert st.acquisitions[id := st.acquisitions[id]] == st.acquisitions;
    if st.sem.queue != [] {
      var head := st.sem.queue[0];
      assert (st.granted + st.sem.queue)[|st.granted|] == head;
      assert head !in st.sem.ticks;
      assert |rest + {head}| == |rest| + 1;
    }
  }

  /** A permit is available exactly when a take would be granted at once. */
  lemma {:induction false} AvailableMeansGranted(s: Sem, id: nat)
    ensures Available(s, 1) <==> Take(s, id).1
    ensures Take(s, id).1 <==> Take(s, id).0.queue == s.queue
  {
    assert |s.queue + [id]| == |s.queue| + 1;
  }

  /** More permits in use than there are cannot come about; if they did, a leave would let nobody in
      until the excess is gone. */
  lemma {:induction false} ExcessLetsNobodyIn(capacity: nat, steps: seq<Step>, s: Sem)
    requires Run(Start(capacity), steps)
    ensures Final(Start(capacity), steps).sem.current <= capacity
    ensures s.current > s.capacity && s.queue != [] ==>
              Leave(s).0.queue == s.queue && Leave(s).0.ticks == s.ticks && Leave(s).0.current == s.current - 1
              && !Leave(s).1
  {
    RunKeepsInv(Start(capacity), steps);
  }

  predicate Late(a: Acquisition) {
    !a.acquired && (a.disposed || a.timedOut)
  }

  /** An acquisition that timed out or was disposed before its task ran never comes to hold a
      permit, whatever happens afterwards. */
  lemma {:induction false} LateNeverHolds(st: State, steps: seq<Step>, id: nat)
    requires Run(st, steps) && id < |st.acquisitions| && Late(st.acquisitions[id])
    ensures id < |Final(st, steps).acquisitions| && Late(Final(st, steps).acquisitions[id])
    decreases |steps|
  {
    if steps != [] {
      LateNeverHolds(Next(st, steps[0]), steps[1..], id);
    }
  }

  /** The permit it was granted goes to the next in the queue, or back. */
  lemma {:induction false} LateTaskPassesOn(st: State, id: nat)
    requires Inv(st) && Enabled(st, RunTask(id)) && Late(st.acquisitions[id])
    ensures var (before, after) := (st.sem, Next(st, RunTask(id)).sem);
      && after.capacity == before.capacity && Next(st, RunTask(id)).acquisitions == st.acquisitions
      && if before.queue == [] then
           after.queue == [] && after.current == before.current - 1 && after.ticks == before.ticks - {id}
         else
           && before.queue == [before.queue[0]] + after.queue && after.current == before.current
           && after.ticks == before.ticks - {id} + {before.queue[0]}
  {
    assert st.acquisitions[id := st.acquisitions[id]] == st.acquisitions;
  }

  /** No disposal and no task gives back a permit that is not in use. */
  lemma {:induction false} NoLeaveThrows(st: State, id: nat)
    requires Inv(st) && id < |st.acquisitions|
    ensures !Dispose(st.sem, st.acquisitions[id]).2
    ensures id in st.sem.ticks ==> !Granted(st.sem.(ticks := st.sem.ticks - {id}), st.acquisitions[id]).2
  {
    if st.acquisitions[id].acquired {
      SomeHolder(st.acquisitions, id);
    }
  }
}
