/** Calls for an id come to an end once the server answers: every step that is not a new call uses
    up some of the work that is left. */
module HiloProgress {
  import opened HiloProtocol
  import opened Wrappers

  /** A caller with neither a result nor a refused request of its own. */
  predicate Hopeful(s: State, c: nat)
    requires WellFormed(s) && c < |s.callers|
  {
    match s.callers[c]
    case Done(_, _) => false
    case Failed(_) => false
    case AwaitMine(t) => !s.tasks[t].Faulted?
    case _ => true
  }

  /** The resumptions that a caller needs, as things stand, until it has to wait for somebody else. */
  function Detour(s: State, c: nat): nat
    requires WellFormed(s) && c < |s.callers|
  {
    match s.callers[c]
    case AwaitCurrent(t, r) =>
      if s.nextRangeTask == Some(t) && (r == s.range || !s.tasks[t].Resolved?) then 0 else 2
    case AwaitMine(_) => 1
    case AwaitLatest(_) => 1
    case _ => 0
  }

  function HopefulUpTo(s: State, k: nat): nat
    requires WellFormed(s) && k <= |s.callers|
  {
    if k == 0 then 0 else HopefulUpTo(s, k - 1) + (if Hopeful(s, k - 1) then 1 else 0)
  }

  function DetoursUpTo(s: State, k: nat): (total: nat)
    requires WellFormed(s) && k <= |s.callers|
    ensures total <= 2 * k
  {
    if k == 0 then 0 else DetoursUpTo(s, k - 1) + Detour(s, k - 1)
  }

  predicate InFlight(s: State) {
    s.nextRangeTask.Some? && s.nextRangeTask.value < |s.tasks| && s.tasks[s.nextRangeTask.value].Pending?
  }

  predicate UsedUp(r: Range) {
    r.current >= r.maxId
  }

  /** What the callers can still make happen: a request for each, its answer and an id out of it. */
  function Hopes(s: State): nat
    requires WellFormed(s)
  {
    3 * HopefulUpTo(s, |s.callers|) + (if UsedUp(s.ranges[s.range]) then 2 else 0) + (if InFlight(s) then 0 else 1)
  }

  function Left(s: State): nat
    requires WellFormed(s)
  {
    Hopes(s) * (2 * |s.callers| + 1) + DetoursUpTo(s, |s.callers|)
  }

  /** Every request in flight was started by a caller that still waits for it. */
  ghost predicate InFlightOwned(s: State) {
    forall t | 0 <= t < |s.tasks| && s.tasks[t].Pending? :: AwaitMine(t) in s.callers
  }

  // ---------------------------------------------------------------------------------
  // Every request in flight has its owner

  lemma {:induction false} StepKeepsOwned(s: State, step: Step)
    requires Inv(s) && Enabled(s, step) && InFlightOwned(s)
    ensures InFlightOwned(Apply(s, step))
  {
    var s' := Apply(s, step);
    forall t | 0 <= t < |s'.tasks| && s'.tasks[t].Pending? ensures AwaitMine(t) in s'.callers {
      if t < |s.tasks| && s.tasks[t].Pending? {
        var c :| 0 <= c < |s.callers| && s.callers[c] == AwaitMine(t);
        assert s'.callers[c] == AwaitMine(t);
      } else {
        var c := if step.Call? then |s.callers| else step.caller;
        assert s'.callers[c] == AwaitMine(t);
      }
    }
  }

  lemma {:induction false} RunKeepsOwned(steps: seq<Step>)
    ensures Exec(steps).Some? ==> Inv(Exec(steps).value) && InFlightOwned(Exec(steps).value)
  {
    RunKeepsInv(steps);
    if steps != [] && Exec(steps).Some? {
      var before := steps[..|steps| - 1];
      RunKeepsOwned(before);
      StepKeepsOwned(Exec(before).value, steps[|steps| - 1]);
    }
  }

  // ---------------------------------------------------------------------------------
  // Every step but a call uses something up

  lemma {:induction false} NoMoreHopeful(s: State, s': State, k: nat)
    requires WellFormed(s) && WellFormed(s') && k <= |s.callers| == |s'.callers|
    requires forall c | 0 <= c < k && Hopeful(s', c) :: Hopeful(s, c)
    ensures HopefulUpTo(s', k) <= HopefulUpTo(s, k)
  {
    if k > 0 {
      NoMoreHopeful(s, s', k - 1);
    }
  }

  lemma {:induction false} OneLessHopeful(s: State, s': State, k: nat, c: nat)
    requires WellFormed(s) && WellFormed(s') && c < k <= |s.callers| == |s'.callers|
    requires forall d | 0 <= d < k && Hopeful(s', d) :: Hopeful(s, d)
    requires Hopeful(s, c) && !Hopeful(s', c)
    ensures HopefulUpTo(s', k) < HopefulUpTo(s, k)
  {
    if c == k - 1 {
      NoMoreHopeful(s, s', k - 1);
    } else {
      OneLessHopeful(s, s', k - 1, c);
    }
  }

  lemma {:induction false} OneShorterDetour(s: State, s': State, k: nat, c: nat)
    requires WellFormed(s) && WellFormed(s') && c < k <= |s.callers| == |s'.callers|
    requires forall d | 0 <= d < k && d != c :: Detour(s', d) <= Detour(s, d)
    requires Detour(s', c) < Detour(s, c)
    ensures DetoursUpTo(s', k) < DetoursUpTo(s, k)
  {
    if c == k - 1 {
      NoLongerDetours(s, s', k - 1);
    } else {
      OneShorterDetour(s, s', k - 1, c);
    }
  }

  lemma {:induction false} NoLongerDetours(s: State, s': State, k: nat)
    requires WellFormed(s) && WellFormed(s') && k <= |s.callers| == |s'.callers|
    requires forall d | 0 <= d < k :: Detour(s', d) <= Detour(s, d)
    ensures DetoursUpTo(s', k) <= DetoursUpTo(s, k)
  {
    if k > 0 {
      NoLongerDetours(s, s', k - 1);
    }
  }

  lemma {:induction false} FewerHopes(s: State, s': State)
    requires WellFormed(s) && WellFormed(s') && |s.callers| == |s'.callers| && Hopes(s') < Hopes(s)
    ensures Left(s') < Left(s)
  {
    LessTimes(Hopes(s'), Hopes(s), 2 * |s.callers| + 1);
  }

  lemma {:induction false} LessTimes(a: nat, b: nat, n: nat)
    requires a < b
    ensures a * n + n <= b * n
    decreases b
  {
    if b > a + 1 {
      LessTimes(a, b - 1, n);
    }
  }

  lemma {:induction false} RefusalUsesUp(s: State, t: nat)
    requires Inv(s) && InFlightOwned(s) && Enabled(s, Refuse(t))
    ensures Left(Apply(s, Refuse(t))) < Left(s)
  {
    var s' := Apply(s, Refuse(t));
    assert AwaitMine(t) in s.callers;
    var c :| 0 <= c < |s.callers| && s.callers[c] == AwaitMine(t);
    assert s.nextRangeTask == Some(t);
    OneLessHopeful(s, s', |s.callers|, c);
    FewerHopes(s, s');
  }

  lemma {:induction false} AnswerUsesUp(s: State, t: nat, low: int, high: int, serverTag: string)
    requires Inv(s) && Enabled(s, Grant(t, low, high, serverTag)) && low <= high
    ensures Left(Apply(s, Grant(t, low, high, serverTag))) < Left(s)
  {
    var s' := Apply(s, Grant(t, low, high, serverTag));
    assert s.nextRangeTask == Some(t) && s.ranges[s.range].Exhausted();
    assert WellFormed(s');
    NoMoreHopeful(s, s', |s.callers|);
    FewerHopes(s, s');
  }

  /** From the head of the loop a caller leaves with an id, or waits for the newest task. */
  lemma {:induction false} LoopHeadUsesUp(s: State, c: nat)
    requires Inv(s) && c < |s.callers| && s.nextRangeTask.Some? && Hopeful(s, c) && Detour(s, c) > 0
    ensures WellFormed(LoopHead(s, c)) && Left(LoopHead(s, c)) < Left(s)
  {
    var s' := LoopHead(s, c);
    var r := s.ranges[s.range];
    LoopHeadKeepsInv(s, c);
    if r.current + 1 <= r.maxId {
      OneLessHopeful(s, s', |s.callers|, c);
      FewerHopes(s, s');
    } else {
      LoopHeadWaits(s, c);
      SameHopes(s, s', c);
    }
  }

  lemma {:induction false} LoopHeadWaits(s: State, c: nat)
    requires Inv(s) && c < |s.callers| && s.nextRangeTask.Some?
    requires s.ranges[s.range].current + 1 > s.ranges[s.range].maxId
    ensures var s' := LoopHead(s, c);
      && s'.callers == s.callers[c := AwaitCurrent(s.nextRangeTask.value, s.range)]
      && s'.tasks == s.tasks && s'.nextRangeTask == s.nextRangeTask && s'.range == s.range
      && |s'.ranges| == |s.ranges| && UsedUp(s.ranges[s.range]) && UsedUp(s'.ranges[s'.range])
  {
  }

  /** A caller moves on although nothing else changed. */
  lemma {:induction false} SameHopes(s: State, s': State, c: nat)
    requires WellFormed(s) && WellFormed(s') && c < |s.callers|
    requires s'.tasks == s.tasks && s'.nextRangeTask == s.nextRangeTask && s'.range == s.range
    requires UsedUp(s'.ranges[s'.range]) == UsedUp(s.ranges[s.range])
    requires |s'.callers| == |s.callers| && forall d | 0 <= d < |s.callers| && d != c :: s'.callers[d] == s.callers[d]
    requires Detour(s', c) < Detour(s, c) && (Hopeful(s', c) ==> Hopeful(s, c))
    ensures Left(s') < Left(s)
  {
    NoMoreHopeful(s, s', |s.callers|);
    OneShorterDetour(s, s', |s.callers|, c);
    if Hopes(s') < Hopes(s) {
      FewerHopes(s, s');
    }
  }

  lemma {:induction false} ReplaceUsesUp(s: State, c: nat, t: nat)
    requires Inv(s) && c < |s.callers| && s.callers[c].AwaitCurrent? && s.callers[c].task == t && s.tasks[t].Settled()
    requires s.nextRangeTask == Some(t) ==> s.ranges[s.range].Exhausted()
    ensures WellFormed(Replace(s, c, Some(t))) && Left(Replace(s, c, Some(t))) < Left(s)
  {
    var s' := Replace(s, c, Some(t));
    if s.nextRangeTask == Some(t) {
      assert forall u | 0 <= u < |s.tasks| :: s.tasks[u].Settled();
      NewTaskKeepsInv(s, c);
      assert GetValue(s.tasks + [NotStarted], |s.tasks|) == s.tasks + [Pending];
      NoMoreHopeful(s, s', |s.callers|);
      FewerHopes(s, s');
    } else {
      assert GetValue(s.tasks, s.nextRangeTask.value) == s.tasks;
      SameHopes(s, s', c);
    }
  }

  lemma {:induction false} ResumptionUsesUp(s: State, c: nat)
    requires Inv(s) && Enabled(s, Resume(c))
    ensures WellFormed(Apply(s, Resume(c))) && Left(Apply(s, Resume(c))) < Left(s)
  {
    var s' := Apply(s, Resume(c));
    assert s.tasks != [] && s.nextRangeTask.Some?;
    match s.callers[c]
    case AwaitCurrent(t, r) =>
      if s.tasks[t].Resolved? && r != s.range {
        LoopHeadUsesUp(s, c);
      } else {
        ReplaceUsesUp(s, c, t);
      }
    case AwaitMine(t) =>
      if s.tasks[t].Resolved? {
        LoopHeadUsesUp(s, c);
      } else {
        SameHopes(s, s', c);
      }
    case AwaitLatest(t) => LoopHeadUsesUp(s, c);
  }

  /** A step of a schedule in which nobody new calls and no answer is empty. */
  predicate Serves(step: Step) {
    !step.Call? && (step.Grant? ==> step.low <= step.high)
  }

  lemma {:induction false} StepUsesUp(s: State, step: Step)
    requires Inv(s) && InFlightOwned(s) && Enabled(s, step) && Serves(step)
    ensures WellFormed(Apply(s, step)) && Left(Apply(s, step)) < Left(s)
  {
    StepKeepsInv(s, step);
    match step
    case Resume(c) => ResumptionUsesUp(s, c);
    case Grant(t, low, high, serverTag) => AnswerUsesUp(s, t, low, high, serverTag);
    case Refuse(t) => RefusalUsesUp(s, t);
  }

  lemma {:induction false} LastOfRun(before: seq<Step>, steps: seq<Step>)
    requires steps != [] && Exec(before + steps).Some?
    ensures var n := |steps| - 1;
      && Exec(before + steps[..n]).Some? && WellFormed(Exec(before + steps[..n]).value)
      && Enabled(Exec(before + steps[..n]).value, steps[n])
      && Exec(before + steps).value == Apply(Exec(before + steps[..n]).value, steps[n])
  {
    var all := before + steps;
    assert all[..|all| - 1] == before + steps[..|steps| - 1] && all[|all| - 1] == steps[|steps| - 1];
  }

  lemma {:induction false} RunUsesUp(before: seq<Step>, steps: seq<Step>)
    requires Exec(before + steps).Some? && forall i | 0 <= i < |steps| :: Serves(steps[i])
    ensures Exec(before).Some? && Inv(Exec(before).value) && Inv(Exec(before + steps).value)
    ensures |steps| + Left(Exec(before + steps).value) <= Left(Exec(before).value)
    decreases |steps|
  {
    RunKeepsOwned(before + steps);
    if steps == [] {
      assert before + steps == before;
    } else {
      var n := |steps| - 1;
      LastOfRun(before, steps);
      RunUsesUp(before, steps[..n]);
      RunKeepsOwned(before + steps[..n]);
      StepUsesUp(Exec(before + steps[..n]).value, steps[n]);
    }
  }

  /** Once nobody new calls and no answer is empty, a schedule is at most as long as the work left, and
      when it can go no further every call has its id or failed with a refusal of its own request. */
  lemma {:induction false} EveryCallEnds(before: seq<Step>, steps: seq<Step>)
    requires Exec(before + steps).Some? && forall i | 0 <= i < |steps| :: Serves(steps[i])
    ensures Exec(before).Some? && WellFormed(Exec(before).value) && WellFormed(Exec(before + steps).value)
    ensures var s := Exec(before + steps).value;
      && |steps| + Left(s) <= Left(Exec(before).value)
      && ((forall step | Enabled(s, step) :: step.Call?) ==>
            forall c | 0 <= c < |s.callers| :: s.callers[c].Done? || s.callers[c].Failed?)
  {
    RunUsesUp(before, steps);
    var s := Exec(before + steps).value;
    if c :| 0 <= c < |s.callers| && !s.callers[c].Done? && !s.callers[c].Failed? {
      NoCallerIsStuck(before + steps, s, c);
    }
  }

  // ---------------------------------------------------------------------------------
  // Calls one after the other

  function FirstCall(low: int, high: int, tag: string): seq<Step> {
    [Call] + [Grant(0, low, high, tag)] + [Resume(0)]
  }

  function CallsAfter(n: nat): seq<Step> {
    seq(n, _ => Call)
  }

  ghost predicate GaveInOrder(s: State, low: int, high: int, tag: string, n: nat) {
    && WellFormed(s) && |s.ranges| == 2 && s.range == 1
    && s.ranges[1] == Range(low, high, low + n, tag)
    && s.callers == seq(n + 1, i => Done(1, NextId(low + i, tag)))
  }

  lemma {:induction false} ExecOne(steps: seq<Step>, step: Step)
    requires Exec(steps).Some?
    ensures Exec(steps + [step])
         == if WellFormed(Exec(steps).value) && Enabled(Exec(steps).value, step) then
              Some(Apply(Exec(steps).value, step))
            else None
  {
    assert (steps + [step])[..|steps|] == steps;
  }

  /** After the first call, and after its answer. */
  function Asking(): State {
    State([Range(1, 0, 1, NO_TAG)], 0, [Pending], Some(0), [AwaitMine(0)])
  }

  function Answered(low: int, high: int, tag: string): State {
    State([Range(1, 0, 1, NO_TAG), NewRange(low, high, tag)], 1, [Resolved], Some(0), [AwaitMine(0)])
  }

  lemma {:induction false} FirstCallAsks()
    ensures WellFormed(INIT) && Apply(INIT, Call) == Asking()
  {
  }

  lemma {:induction false} AnswerArrives(low: int, high: int, tag: string)
    ensures WellFormed(Asking()) && Enabled(Asking(), Grant(0, low, high, tag))
    ensures Apply(Asking(), Grant(0, low, high, tag)) == Answered(low, high, tag)
  {
  }

  lemma {:induction false} FirstIdIsLow(low: int, high: int, tag: string)
    requires low <= high
    ensures WellFormed(Answered(low, high, tag)) && Enabled(Answered(low, high, tag), Resume(0))
    ensures GaveInOrder(Apply(Answered(low, high, tag), Resume(0)), low, high, tag, 0)
  {
  }

  lemma {:induction false} FirstCallIsServed(low: int, high: int, tag: string)
    requires low <= high
    ensures Exec(FirstCall(low, high, tag)).Some?
    ensures GaveInOrder(Exec(FirstCall(low, high, tag)).value, low, high, tag, 0)
  {
    assert [] + [Call] == [Call];
    ExecOne([], Call);
    FirstCallAsks();
    ExecOne([Call], Grant(0, low, high, tag));
    AnswerArrives(low, high, tag);
    ExecOne([Call] + [Grant(0, low, high, tag)], Resume(0));
    FirstIdIsLow(low, high, tag);
  }

  lemma {:induction false} NextIdFollows(s: State, low: int, high: int, tag: string, n: nat)
    requires GaveInOrder(s, low, high, tag, n) && low + n < high
    ensures GaveInOrder(Apply(s, Call), low, high, tag, n + 1)
  {
  }

  /** Calls made one after the other get the ids of the server's answer in order, from its lowest to
      its highest, and no further request is made. */
  lemma {:induction false} IdsInOrder(low: int, high: int, tag: string, n: nat)
    requires low + n <= high
    ensures Exec(FirstCall(low, high, tag) + CallsAfter(n)).Some?
    ensures GaveInOrder(Exec(FirstCall(low, high, tag) + CallsAfter(n)).value, low, high, tag, n)
  {
    if n == 0 {
      FirstCallIsServed(low, high, tag);
      assert FirstCall(low, high, tag) + CallsAfter(0) == FirstCall(low, high, tag);
    } else {
      IdsInOrder(low, high, tag, n - 1);
      var steps := FirstCall(low, high, tag) + CallsAfter(n - 1);
      assert FirstCall(low, high, tag) + CallsAfter(n) == steps + [Call];
      ExecOne(steps, Call);
      NextIdFollows(Exec(steps).value, low, high, tag, n - 1);
    }
  }
}
