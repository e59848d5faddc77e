/** One HiLo generator per collection tag: callers look the tag up, and those who do not find it
    look again under the semaphore before they create the generator. */
module MultiTypeHilo {
  import S = Semaphores

  /** Where a call stands: waiting for the semaphore, holding it while an id is fetched, or done
      with it and using a generator. */
  datatype Caller =
    | Waiting(tag: string, id: nat)
    | Holding(tag: string, id: nat, generator: nat)
    | Using(tag: string, generator: nat)

  /** `made` holds the tag of each generator ever created, `owner` the call behind each acquisition. */
  datatype State = State(sem: S.State, generators: map<string, nat>, made: seq<string>, callers: seq<Caller>,
                         owner: seq<nat>)

  /** A resumed call keeps the semaphore while it fetches an id only if it finds the generator
      and is one for the next id. */
  datatype Step = Call(tag: string) | Resume(caller: nat, forNextId: bool) | Release(caller: nat) | RunTask(id: nat)

  predicate Acquired(s: State, id: nat) {
    id < |s.sem.acquisitions| && s.sem.acquisitions[id].acquired
  }

  predicate Enabled(s: State, step: Step) {
    match step
    case Call(_) => true
    case Resume(c, _) => c < |s.callers| && s.callers[c].Waiting? && Acquired(s, s.callers[c].id)
    case Release(c) => c < |s.callers| && s.callers[c].Holding? && Acquired(s, s.callers[c].id)
    case RunTask(id) => S.Enabled(s.sem, S.RunTask(id))
  }

  function Leave(s: State, id: nat): S.State
    requires Acquired(s, id)
  {
    S.Next(s.sem, S.DisposeIt(id))
  }

  function Next(s: State, step: Step): State
    requires Enabled(s, step)
  {
    match step
    case Call(tag) =>
      if tag in s.generators then s.(callers := s.callers + [Using(tag, s.generators[tag])])
      else
        s.(sem := S.Next(s.sem, S.Acquire), owner := s.owner + [|s.callers|],
           callers := s.callers + [Waiting(tag, |s.sem.acquisitions|)])
    case Resume(c, forNextId) =>
      var tag, id := s.callers[c].tag, s.callers[c].id;
      if tag in s.generators then
        if forNextId then s.(callers := s.callers[c := Holding(tag, id, s.generators[tag])])
        else s.(sem := Leave(s, id), callers := s.callers[c := Using(tag, s.generators[tag])])
      else
        s.(sem := Leave(s, id), generators := s.generators[tag := |s.made|], made := s.made + [tag],
           callers := s.callers[c := Using(tag, |s.made|)])
    case Release(c) =>
      s.(sem := Leave(s, s.callers[c].id),
         callers := s.callers[c := Using(s.callers[c].tag, s.callers[c].generator)])
    case RunTask(id) => s.(sem := S.Next(s.sem, S.RunTask(id)))
  }

  const START := State(S.Start(1), map[], [], [], [])

  ghost predicate Run(s: State, steps: seq<Step>)
    decreases |steps|
  {
    steps == [] || (Enabled(s, steps[0]) && Run(Next(s, steps[0]), steps[1..]))
  }

  ghost function Final(s: State, steps: seq<Step>): State
    requires Run(s, steps)
    decreases |steps|
  {
    if steps == [] then s else Final(Next(s, steps[0]), steps[1..])
  }

  // ---------------------------------------------------------------------------------
  // The invariant

  /** The table and the generators created belong together, one to one. */
  ghost predicate OneEach(s: State) {
    && (forall tag | tag in s.generators :: s.generators[tag] < |s.made| && s.made[s.generators[tag]] == tag)
    && (forall g | 0 <= g < |s.made| :: s.made[g] in s.generators && s.generators[s.made[g]] == g)
  }

  /** Whoever has a generator has the one in the table. */
  ghost predicate FromTable(s: State) {
    forall c | 0 <= c < |s.callers| && !s.callers[c].Waiting? ::
      s.callers[c].tag in s.generators && s.generators[s.callers[c].tag] == s.callers[c].generator
  }

  /** Acquisitions that are not disposed belong to calls that still have to give them back. */
  ghost predicate Owned(s: State) {
    && |s.owner| == |s.sem.acquisitions|
    && (forall id | 0 <= id < |s.owner| :: s.owner[id] < |s.callers|
          && (!s.sem.acquisitions[id].disposed ==>
                var caller := s.callers[s.owner[id]]; !caller.Using? && caller.id == id))
    && (forall c | 0 <= c < |s.callers| && !s.callers[c].Using? ::
          var id := s.callers[c].id;
          id < |s.owner| && s.owner[id] == c && !s.sem.acquisitions[id].disposed
          && (s.callers[c].Holding? ==> s.sem.acquisitions[id].acquired))
  }

  /** Granted acquisitions wait for their task, hold the permit or have given it back; the others
      are untouched, and nobody times out. */
  ghost predicate Phases(sem: S.State) {
    forall id | 0 <= id < |sem.acquisitions| ::
      var a := sem.acquisitions[id];
      && !a.timedOut
      && (id < |sem.granted| <==> a.acquired || a.disposed || id in sem.sem.ticks)
      && (id in sem.sem.ticks ==> !a.disposed)
  }

  ghost predicate Inv(s: State) {
    S.Inv(s.sem) && s.sem.sem.capacity == 1 && Phases(s.sem) && OneEach(s) && FromTable(s) && Owned(s)
  }

  lemma {:induction false} LeaveKeeps(s: State, id: nat)
    requires S.Inv(s.sem) && Phases(s.sem) && Acquired(s, id)
    ensures var sem := Leave(s, id);
      && S.Inv(sem) && Phases(sem) && sem.sem.capacity == s.sem.sem.capacity
      && sem.acquisitions == s.sem.acquisitions[id := S.Acquisition(false, true, false)]
  {
    S.DisposeKeeps(s.sem, id);
    if s.sem.sem.queue != [] {
      var all := s.sem.granted + s.sem.sem.queue;
      assert all[|s.sem.granted|] == s.sem.sem.queue[0];
    }
  }

  lemma {:induction false} CallKeeps(s: State, tag: string)
    requires Inv(s)
    ensures Inv(Next(s, Call(tag)))
  {
    if tag !in s.generators {
      S.AcquireKeeps(s.sem);
      assert S.Take(s.sem.sem, |s.sem.acquisitions|).0.capacity == 1;
      AcquirePhases(s.sem);
    }
  }

  lemma {:induction false} AcquirePhases(sem: S.State)
    requires S.Inv(sem) && Phases(sem)
    ensures var sem' := S.Next(sem, S.Acquire);
      && Phases(sem') && |sem'.acquisitions| == |sem.acquisitions| + 1
      && sem'.acquisitions[..|sem.acquisitions|] == sem.acquisitions
      && !sem'.acquisitions[|sem.acquisitions|].disposed
  {
    var n := |sem.acquisitions|;
    assert |sem.granted + sem.sem.queue| == n;
  }

  /** A call that gives its permit back owns nothing any more, and the others keep what they own. */
  lemma {:induction false} LeavingKeepsOwned(s: State, c: nat, generator: nat, after: State)
    requires Owned(s) && c < |s.callers| && !s.callers[c].Using?
    requires after.owner == s.owner && after.callers == s.callers[c := Using(s.callers[c].tag, generator)]
    requires after.sem.acquisitions == s.sem.acquisitions[s.callers[c].id := S.Acquisition(false, true, false)]
    ensures Owned(after)
  {
    var id := s.callers[c].id;
    forall d | 0 <= d < |after.callers| && !after.callers[d].Using?
      ensures d != c && s.callers[d].id != id
    {
      assert s.owner[s.callers[d].id] == d;
    }
  }

  lemma {:induction false} LeavingKeepsFromTable(s: State, c: nat, after: State)
    requires FromTable(s) && c < |s.callers| && s.callers[c].tag in s.generators
    requires var tag := s.callers[c].tag; after.callers == s.callers[c := Using(tag, s.generators[tag])]
    requires after.generators == s.generators
    ensures FromTable(after)
  {
  }

  /** A call that finds its generator leaves with the one from the table. */
  lemma {:induction false} LeavingKeeps(s: State, c: nat, after: State)
    requires Inv(s) && c < |s.callers| && !s.callers[c].Using? && Acquired(s, s.callers[c].id)
    requires s.callers[c].tag in s.generators
    requires after.generators == s.generators && after.made == s.made && after.owner == s.owner
    requires after.sem == Leave(s, s.callers[c].id)
    requires var tag := s.callers[c].tag; after.callers == s.callers[c := Using(tag, s.generators[tag])]
    ensures Inv(after)
  {
    LeaveKeeps(s, s.callers[c].id);
    LeavingKeepsOwned(s, c, s.generators[s.callers[c].tag], after);
    LeavingKeepsFromTable(s, c, after);
  }

  /** A call that finds no generator creates the first one for its tag. */
  lemma {:induction false} CreatingKeeps(s: State, c: nat, after: State)
    requires Inv(s) && Enabled(s, Resume(c, false)) && s.callers[c].tag !in s.generators
    requires after == Next(s, Resume(c, false))
    ensures Inv(after)
  {
    LeaveKeeps(s, s.callers[c].id);
    LeavingKeepsOwned(s, c, |s.made|, after);
    assert OneEach(after) by {
      NewGenerator(s, s.callers[c].tag, after);
    }
    assert FromTable(after);
  }

  lemma {:induction false} NewGenerator(s: State, tag: string, after: State)
    requires OneEach(s) && tag !in s.generators
    requires after.generators == s.generators[tag := |s.made|] && after.made == s.made + [tag]
    ensures OneEach(after)
  {
  }

  lemma {:induction false} ResumeKeeps(s: State, c: nat, forNextId: bool)
    requires Inv(s) && Enabled(s, Resume(c, forNextId))
    ensures Inv(Next(s, Resume(c, forNextId)))
  {
    if s.callers[c].tag !in s.generators {
      CreatingKeeps(s, c, Next(s, Resume(c, forNextId)));
    } else if !forNextId {
      LeavingKeeps(s, c, Next(s, Resume(c, forNextId)));
    }
  }

  lemma {:induction false} ReleaseKeeps(s: State, c: nat)
    requires Inv(s) && Enabled(s, Release(c))
    ensures Inv(Next(s, Release(c)))
  {
    LeavingKeeps(s, c, Next(s, Release(c)));
  }

  lemma {:induction false} RunTaskKeeps(s: State, id: nat)
    requires Inv(s) && Enabled(s, RunTask(id))
    ensures Inv(Next(s, RunTask(id)))
  {
    S.RunTaskKeeps(s.sem, id);
    var sem := Next(s, RunTask(id)).sem;
    assert sem.acquisitions == s.sem.acquisitions[id := s.sem.acquisitions[id].(acquired := true)];
  }

  lemma {:induction false} StepKeepsInv(s: State, step: Step)
    requires Inv(s) && Enabled(s, step)
    ensures Inv(Next(s, step))
  {
    match step
    case Call(tag) => CallKeeps(s, tag);
    case Resume(c, forNextId) => ResumeKeeps(s, c, forNextId);
    case Release(c) => ReleaseKeeps(s, c);
    case RunTask(id) => RunTaskKeeps(s, id);
  }

  /** The invariant holds in every run, and a tag that has a generator keeps it. */
  lemma {:induction false} RunKeepsInv(s: State, steps: seq<Step>)
    requires Inv(s) && Run(s, steps)
    ensures Inv(Final(s, steps))
    ensures forall tag | tag in s.generators ::
              tag in Final(s, steps).generators && Final(s, steps).generators[tag] == s.generators[tag]
    decreases |steps|
  {
    if steps != [] {
      StepKeepsInv(s, steps[0]);
      RunKeepsInv(Next(s, steps[0]), steps[1..]);
    }
  }

  predicate Served(s: State, c: nat) {
    c < |s.callers| && !s.callers[c].Waiting?
  }

  /** The tags that were asked for, call by call. */
  function Asked(steps: seq<Step>): seq<string> {
    if steps == [] then [] else (if steps[0].Call? then [steps[0].tag] else []) + Asked(steps[1..])
  }

  function Tags(callers: seq<Caller>): seq<string> {
    seq(|callers|, c requires 0 <= c < |callers| => callers[c].tag)
  }

  lemma {:induction false} CallsKeepTheirTags(s: State, steps: seq<Step>)
    requires Run(s, steps)
    ensures Tags(Final(s, steps).callers) == Tags(s.callers) + Asked(steps)
    decreases |steps|
  {
    if steps != [] {
      CallsKeepTheirTags(Next(s, steps[0]), steps[1..]);
      assert Tags(Next(s, steps[0]).callers) == Tags(s.callers) + if steps[0].Call? then [steps[0].tag] else [];
    }
  }

  lemma {:induction false} ServedAsAsked(steps: seq<Step>, s: State, c: nat)
    requires Run(START, steps) && s == Final(START, steps) && Served(s, c)
    ensures c < |Asked(steps)| && s.callers[c].tag == Asked(steps)[c]
    ensures s.callers[c].generator < |s.made| && s.made[s.callers[c].generator] == Asked(steps)[c]
    ensures Asked(steps)[c] in s.generators && s.generators[Asked(steps)[c]] == s.callers[c].generator
  {
    RunKeepsInv(START, steps);
    CallsKeepTheirTags(START, steps);
    assert Tags(s.callers)[c] == s.callers[c].tag;
  }

  /** The call has a generator that was made for the tag it asked for. */
  ghost predicate WellServed(s: State, asked: seq<string>, c: nat) {
    && c < |asked| && c < |s.callers|
    && !s.callers[c].Waiting? && s.callers[c].generator < |s.made|
    && s.made[s.callers[c].generator] == asked[c]
  }

  /** In every interleaving no tag gets two generators, every call that is served has one that was
      made for the tag it asked for, and all calls for a tag use the same one. */
  lemma {:induction false} OneGeneratorPerTag(steps: seq<Step>, g: nat, h: nat, c: nat, d: nat)
    requires Run(START, steps)
    ensures var s, asked := Final(START, steps), Asked(steps);
      && (g < h < |s.made| ==> s.made[g] != s.made[h])
      && (Served(s, c) ==> WellServed(s, asked, c))
      && (Served(s, c) && Served(s, d) && WellServed(s, asked, d) && asked[c] == asked[d] ==>
            s.callers[c].generator == s.callers[d].generator)
  {
    RunKeepsInv(START, steps);
    if Served(Final(START, steps), c) {
      ServedAsAsked(steps, Final(START, steps), c);
    }
    if Served(Final(START, steps), d) {
      ServedAsAsked(steps, Final(START, steps), d);
    }
  }

  lemma {:induction false} SomeoneHolds(acquisitions: seq<S.Acquisition>) returns (id: nat)
    requires S.Holders(acquisitions) > 0
    ensures id < |acquisitions| && acquisitions[id].acquired
  {
    var n := |acquisitions| - 1;
    if acquisitions[n].acquired {
      id := n;
    } else {
      id := SomeoneHolds(acquisitions[..n]);
    }
  }

  /** While a call waits for the semaphore, some step is possible: it has the permit itself, a
      granted task is due, or the call that has the permit can go on. */
  lemma {:induction false} NoCallIsStuck(s: State, c: nat) returns (step: Step)
    requires Inv(s) && c < |s.callers| && s.callers[c].Waiting?
    ensures Enabled(s, step) && !step.Call?
  {
    if s.sem.acquisitions[s.callers[c].id].acquired {
      step := Resume(c, false);
    } else if s.sem.sem.ticks != {} {
      var due :| due in s.sem.sem.ticks;
      step := RunTask(due);
    } else {
      assert |s.sem.granted + s.sem.sem.queue| > |s.sem.granted|;
      var holder := SomeoneHolds(s.sem.acquisitions);
      var d := s.owner[holder];
      step := if s.callers[d].Waiting? then Resume(d, false) else Release(d);
    }
  }

  /** The resumptions and releases that the calls still have before them. */
  function CallsLeft(callers: seq<Caller>): nat {
    if callers == [] then 0
    else
      var last := callers[|callers| - 1];
      CallsLeft(callers[..|callers| - 1]) + (if last.Waiting? then 2 else if last.Holding? then 1 else 0)
  }

  /** The tasks that still have to grant an acquisition. */
  function GrantsLeft(acquisitions: seq<S.Acquisition>): nat {
    if acquisitions == [] then 0
    else
      var last := acquisitions[|acquisitions| - 1];
      GrantsLeft(acquisitions[..|acquisitions| - 1]) + (if last.acquired || last.disposed then 0 else 1)
  }

  lemma {:induction false} CallsLeftUpdate(callers: seq<Caller>, c: nat, caller: Caller)
    requires c < |callers| && !caller.Waiting? && (caller.Holding? ==> callers[c].Waiting?) && !callers[c].Using?
    ensures CallsLeft(callers[c := caller]) < CallsLeft(callers)
  {
    var n := |callers| - 1;
    if c == n {
      assert callers[c := caller][..n] == callers[..n];
    } else {
      assert callers[c := caller][..n] == callers[..n][c := caller];
      CallsLeftUpdate(callers[..n], c, caller);
    }
  }

  lemma {:induction false} GrantsLeftUpdate(acquisitions: seq<S.Acquisition>, id: nat, a: S.Acquisition)
    requires id < |acquisitions| && (a.acquired || a.disposed)
    ensures var settled := acquisitions[id].acquired || acquisitions[id].disposed;
      GrantsLeft(acquisitions[id := a]) + (if settled then 0 else 1) == GrantsLeft(acquisitions)
  {
    var n := |acquisitions| - 1;
    if id == n {
      assert acquisitions[id := a][..n] == acquisitions[..n];
    } else {
      assert acquisitions[id := a][..n] == acquisitions[..n][id := a];
      GrantsLeftUpdate(acquisitions[..n], id, a);
    }
  }

  function Left(s: State): nat {
    CallsLeft(s.callers) + GrantsLeft(s.sem.acquisitions)
  }

  lemma {:induction false} StepsRunOut(s: State, step: Step)
    requires Inv(s) && Enabled(s, step) && !step.Call?
    ensures Left(Next(s, step)) < Left(s)
  {
    var after := Next(s, step);
    match step
    case Resume(c, forNextId) =>
      var id := s.callers[c].id;
      CallsLeftUpdate(s.callers, c, after.callers[c]);
      if after.sem != s.sem {
        LeaveKeeps(s, id);
        GrantsLeftUpdate(s.sem.acquisitions, id, after.sem.acquisitions[id]);
      }
    case Release(c) =>
      var id := s.callers[c].id;
      CallsLeftUpdate(s.callers, c, after.callers[c]);
      LeaveKeeps(s, id);
      GrantsLeftUpdate(s.sem.acquisitions, id, after.sem.acquisitions[id]);
    case RunTask(id) =>
      GrantsLeftUpdate(s.sem.acquisitions, id, s.sem.acquisitions[id].(acquired := true));
  }

  lemma {:induction false} RunsOut(s: State, steps: seq<Step>)
    requires Inv(s) && Run(s, steps) && forall i | 0 <= i < |steps| :: !steps[i].Call?
    ensures |steps| + Left(Final(s, steps)) <= Left(s)
    decreases |steps|
  {
    if steps != [] {
      StepsRunOut(s, steps[0]);
      StepKeepsInv(s, steps[0]);
      RunsOut(Next(s, steps[0]), steps[1..]);
    }
  }

  /** Once no new call comes in, every schedule is at most as long as the work left, and when it
      can go no further every call has got its generator. */
  lemma {:induction false} EveryCallIsServed(before: seq<Step>, steps: seq<Step>)
    requires Run(START, before) && Run(Final(START, before), steps)
    requires forall i | 0 <= i < |steps| :: !steps[i].Call?
    ensures var s := Final(Final(START, before), steps);
      && |steps| + Left(s) <= Left(Final(START, before))
      && ((forall step: Step :: Enabled(s, step) ==> step.Call?) ==> forall c: nat | c < |s.callers| :: Served(s, c))
  {
    RunKeepsInv(START, before);
    var s := Final(START, before);
    RunsOut(s, steps);
    var last := Final(s, steps);
    RunKeepsInv(s, steps);
    if c: nat :| c < |last.callers| && !Served(last, c) {
      var step := NoCallIsStuck(last, c);
    }
  }
}
