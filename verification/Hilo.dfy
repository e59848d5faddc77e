/** HiLo identifiers for many concurrent callers. */
module HiloProtocol {
  import opened Wrappers

  // The callers of one generator share a local range of ids and one "next range" task.
  // The program is single threaded and interleaves only at an `await`, so a caller is
  // described by the `await` it is parked at, and one step runs a caller from there to its
  // next `await` or to its end. The server is the environment: it answers or refuses the
  // request that a task has in flight.

  /** A range object; `current` is the last id handed out (or tried). */
  datatype Range = Range(minId: int, maxId: int, current: int, serverTag: string) {
    predicate Exhausted() {
      current > maxId
    }

    /** The last id of the range that a caller has received. */
    function LastIssued(): int {
      if current <= maxId then current else maxId
    }

    predicate Issued(id: int) {
      minId <= id <= LastIssued()
    }
  }

  /** The state of a memoised task. */
  datatype Task = NotStarted | Pending | Resolved | Faulted {
    predicate Settled() {
      Resolved? || Faulted?
    }
  }

  datatype NextId = NextId(id: int, serverTag: string)

  /** Where a caller of `getNextId` stands.  `Done` also records the range object the id came from. */
  datatype Caller =
    | Ready
    | AwaitCurrent(task: nat, range: nat)
    | AwaitMine(task: nat)
    | AwaitLatest(task: nat)
    | Done(range: nat, result: NextId)
    | Failed(task: nat)

  /** All range objects and tasks ever created, the two fields that point into them, and the callers. */
  datatype State = State(
    ranges: seq<Range>,
    range: nat,
    tasks: seq<Task>,
    nextRangeTask: Option<nat>,
    callers: seq<Caller>)

  datatype Step =
    | Call
    | Resume(caller: nat)
    | Grant(task: nat, low: int, high: int, serverTag: string)
    | Refuse(task: nat)

  const NO_TAG := ""

  function NewRange(low: int, high: int, serverTag: string): Range {
    Range(low, high, low - 1, serverTag)
  }

  const INIT := State([NewRange(1, 0, NO_TAG)], 0, [], None, [])

  /** What every segment of the code relies on for its reads to be defined. */
  predicate WellFormed(s: State) {
    && s.range < |s.ranges|
    && (s.nextRangeTask.Some? ==> s.nextRangeTask.value < |s.tasks|)
    && (forall c | 0 <= c < |s.callers| ::
          match s.callers[c]
          case AwaitCurrent(t, r) => t < |s.tasks| && r < |s.ranges| && s.nextRangeTask.Some?
          case AwaitMine(t) => t < |s.tasks|
          case AwaitLatest(t) => t < |s.tasks|
          case Done(r, _) => r < |s.ranges|
          case Failed(t) => t < |s.tasks|
          case Ready => true)
  }

  /** The first call starts the task, every later call returns the same one. */
  function GetValue(tasks: seq<Task>, t: nat): seq<Task>
    requires t < |tasks|
  {
    if tasks[t].NotStarted? then tasks[t := Pending] else tasks
  }

  function At(s: State, c: nat, pc: Caller): State
    requires c < |s.callers|
  {
    s.(callers := s.callers[c := pc])
  }

  /** From the test of `_nextRangeTask` against the task seen earlier to the next `await`. */
  function Replace(s: State, c: nat, current: Option<nat>): State
    requires WellFormed(s) && c < |s.callers|
    requires s.nextRangeTask == current || s.nextRangeTask.Some?
  {
    if s.nextRangeTask == current then
      var mine := |s.tasks|;
      var s1 := s.(tasks := GetValue(s.tasks + [NotStarted], mine), nextRangeTask := Some(mine));
      At(s1, c, AwaitMine(mine))
    else
      var latest := s.nextRangeTask.value;
      At(s.(tasks := GetValue(s.tasks, latest)), c, AwaitLatest(latest))
  }

  /** From the head of the loop to the next `await`, or to the return. */
  function LoopHead(s: State, c: nat): State
    requires WellFormed(s) && c < |s.callers|
  {
    var r := s.range;
    var id := s.ranges[r].current + 1;
    var s1 := s.(ranges := s.ranges[r := s.ranges[r].(current := id)]);
    if id <= s.ranges[r].maxId then
      At(s1, c, Done(r, NextId(id, s.ranges[r].serverTag)))
    else if s.nextRangeTask.None? then
      Replace(s1, c, None)   // reading a value of the missing first task throws and is caught
    else
      var t := s.nextRangeTask.value;
      At(s1.(tasks := GetValue(s.tasks, t)), c, AwaitCurrent(t, r))
  }

  predicate Enabled(s: State, step: Step)
    requires WellFormed(s)
  {
    match step
    case Call => true
    case Resume(c) =>
      && c < |s.callers|
      && (match s.callers[c]
          case AwaitCurrent(t, _) => s.tasks[t].Settled()
          case AwaitMine(t) => s.tasks[t].Settled()
          case AwaitLatest(t) => s.tasks[t].Settled()
          case _ => false)
    case Grant(t, _, _, _) => t < |s.tasks| && s.tasks[t].Pending?
    case Refuse(t) => t < |s.tasks| && s.tasks[t].Pending?
  }

  function ResumeCaller(s: State, c: nat): State
    requires WellFormed(s) && Enabled(s, Resume(c))
  {
    match s.callers[c]
    case AwaitCurrent(t, r) =>
      if s.tasks[t].Resolved? && r != s.range then LoopHead(s, c) else Replace(s, c, Some(t))
    case AwaitMine(t) =>
      if s.tasks[t].Resolved? then LoopHead(s, c) else At(s, c, Failed(t))
    case AwaitLatest(_) => LoopHead(s, c)
  }

  /** A call runs at once, up to its first `await`. */
  function Enter(s: State): State
    requires WellFormed(s)
  {
    LoopHead(s.(callers := s.callers + [Ready]), |s.callers|)
  }

  function GrantRange(s: State, t: nat, low: int, high: int, serverTag: string): State
    requires t < |s.tasks|
  {
    s.(ranges := s.ranges + [NewRange(low, high, serverTag)],
       range := |s.ranges|,
       tasks := s.tasks[t := Resolved])
  }

  function Apply(s: State, step: Step): State
    requires WellFormed(s) && Enabled(s, step)
  {
    match step
    case Call => Enter(s)
    case Resume(c) => ResumeCaller(s, c)
    case Grant(t, low, high, tag) => GrantRange(s, t, low, high, tag)
    case Refuse(t) => s.(tasks := s.tasks[t := Faulted])
  }

  /** The state after a schedule, if every step of it was possible when it was taken. */
  function Exec(steps: seq<Step>): Option<State> {
    if steps == [] then Some(INIT)
    else
      match Exec(steps[..|steps| - 1])
      case None => None
      case Some(s) =>
        if WellFormed(s) && Enabled(s, steps[|steps| - 1]) then Some(Apply(s, steps[|steps| - 1]))
        else None
  }

  // ---------------------------------------------------------------------------------
  // The invariant

  /** Tasks: the field names the newest one, and only that one can be in flight. */
  ghost predicate TasksInOrder(s: State) {
    && (s.nextRangeTask.None? ==> s.tasks == [])
    && (s.nextRangeTask.Some? ==> s.nextRangeTask.value == |s.tasks| - 1)
    && (forall t | 0 <= t < |s.tasks| :: !s.tasks[t].NotStarted?)
    && (forall t | 0 <= t < |s.tasks| - 1 :: s.tasks[t].Settled())
  }

  /** Ranges: the first one is empty, the field names the newest one, every older one is used up, and so is the
      current one whenever a request is in flight. */
  ghost predicate RangesInOrder(s: State)
    requires WellFormed(s)
  {
    && s.range == |s.ranges| - 1
    && s.ranges[0].minId == 1 && s.ranges[0].maxId == 0
    && (forall r | 0 <= r < |s.ranges| :: s.ranges[r].current >= s.ranges[r].minId - 1)
    && (forall r | 0 <= r < |s.ranges| - 1 :: s.ranges[r].Exhausted())
    && (forall t | 0 <= t < |s.tasks| :: s.tasks[t].Pending? ==> s.ranges[s.range].Exhausted())
  }

  ghost predicate CallersInOrder(s: State)
    requires WellFormed(s)
  {
    forall c | 0 <= c < |s.callers| ::
      match s.callers[c]
      case AwaitCurrent(t, r) =>
        && s.ranges[r].Exhausted()
        && (t == |s.tasks| - 1 && !s.tasks[t].Resolved? ==> r == s.range)
      case Failed(t) => s.tasks[t].Faulted?
      case _ => true
  }

  predicate Owns(pc: Caller, t: nat) {
    pc == AwaitMine(t) || pc == Failed(t)
  }

  /** No request has two owners, so its failure reaches at most one caller. */
  ghost predicate OwnersDistinct(s: State) {
    forall c, d, t | 0 <= c < d < |s.callers| && Owns(s.callers[c], t) :: !Owns(s.callers[d], t)
  }

  /** Results are exactly the issued parts of the ranges: each lies in its range... */
  ghost predicate ResultsIssued(s: State)
    requires WellFormed(s)
  {
    forall c | 0 <= c < |s.callers| && s.callers[c].Done? ::
      var r := s.ranges[s.callers[c].range];
      r.Issued(s.callers[c].result.id) && s.callers[c].result.serverTag == r.serverTag
  }

  /** ... no id of a range goes to two callers ... */
  ghost predicate ResultsDistinct(s: State) {
    forall c, d | 0 <= c < d < |s.callers| && s.callers[c].Done? && s.callers[d].Done? ::
      s.callers[c].range == s.callers[d].range ==> s.callers[c].result.id != s.callers[d].result.id
  }

  predicate Received(s: State, r: nat, id: int)
    requires r < |s.ranges|
  {
    Done(r, NextId(id, s.ranges[r].serverTag)) in s.callers
  }

  /** ... and every issued id has been received. */
  ghost predicate NothingLost(s: State) {
    forall r, id | 0 <= r < |s.ranges| && s.ranges[r].Issued(id) :: Received(s, r, id)
  }

  ghost predicate Inv(s: State) {
    && WellFormed(s)
    && TasksInOrder(s)
    && RangesInOrder(s)
    && CallersInOrder(s)
    && OwnersDistinct(s)
    && ResultsIssued(s)
    && ResultsDistinct(s)
    && NothingLost(s)
  }


  // ---------------------------------------------------------------------------------
  // Every step keeps the invariant

  predicate Waiting(pc: Caller) {
    !pc.Done? && !pc.Failed?
  }

  /** As long as every result stays where it is, nothing gets lost. */
  lemma {:induction false} ResultsStay(s: State, s': State)
    requires NothingLost(s) && s'.ranges == s.ranges && |s.callers| <= |s'.callers|
    requires forall i | 0 <= i < |s.callers| && s.callers[i].Done? :: s'.callers[i] == s.callers[i]
    ensures NothingLost(s')
  {
    forall r, id | 0 <= r < |s.ranges| && s.ranges[r].Issued(id) ensures Received(s', r, id) {
      assert Received(s, r, id);
      var i :| 0 <= i < |s.callers| && s.callers[i] == Done(r, NextId(id, s.ranges[r].serverTag));
      assert s'.callers[i] == s.callers[i];
    }
  }

  lemma {:induction false} EnterKeepsCallers(s: State)
    requires WellFormed(s) && CallersInOrder(s) && OwnersDistinct(s) && ResultsIssued(s) && ResultsDistinct(s)
    ensures var s' := s.(callers := s.callers + [Ready]);
            WellFormed(s') && CallersInOrder(s') && OwnersDistinct(s') && ResultsIssued(s') && ResultsDistinct(s')
  {
  }

  lemma {:induction false} EnterKeepsInv(s: State)
    requires Inv(s)
    ensures Inv(s.(callers := s.callers + [Ready]))
  {
    var s' := s.(callers := s.callers + [Ready]);
    ResultsStay(s, s');
    EnterKeepsCallers(s);
  }

  /** Moving a caller that has no result yet to another `await` loses nothing. */
  lemma {:induction false} ParkKeepsResults(s: State, c: nat, pc: Caller)
    requires Inv(s) && c < |s.callers| && Waiting(s.callers[c]) && !pc.Done?
    requires WellFormed(At(s, c, pc))
    ensures ResultsIssued(At(s, c, pc)) && ResultsDistinct(At(s, c, pc)) && NothingLost(At(s, c, pc))
  {
    ResultsStay(s, At(s, c, pc));
  }

  lemma {:induction false} TakeIdLosesNothing(s: State, c: nat)
    requires WellFormed(s) && NothingLost(s) && c < |s.callers| && Waiting(s.callers[c])
    requires s.ranges[s.range].current + 1 <= s.ranges[s.range].maxId
    ensures NothingLost(LoopHead(s, c))
  {
    var s' := LoopHead(s, c);
    var fresh_ := s.ranges[s.range].current + 1;
    assert s'.callers[c] == Done(s.range, NextId(fresh_, s.ranges[s.range].serverTag));
    forall r, id | 0 <= r < |s'.ranges| && s'.ranges[r].Issued(id) ensures Received(s', r, id) {
      if r != s.range || id != fresh_ {
        assert s.ranges[r].Issued(id) && Received(s, r, id);
        var i :| 0 <= i < |s.callers| && s.callers[i] == Done(r, NextId(id, s.ranges[r].serverTag));
        assert s'.callers[i] == s.callers[i];
      }
    }
  }

  /** An increment that stays inside the range issues exactly one new id, to one caller. */
  lemma {:induction false} TakeIdKeepsInv(s: State, c: nat)
    requires Inv(s) && c < |s.callers| && Waiting(s.callers[c])
    requires s.ranges[s.range].current + 1 <= s.ranges[s.range].maxId
    ensures Inv(LoopHead(s, c))
  {
    var s' := LoopHead(s, c);
    TakeIdLosesNothing(s, c);
    assert s'.callers[c] == Done(s.range, NextId(s.ranges[s.range].current + 1, s.ranges[s.range].serverTag));
    assert OwnersDistinct(s') && ResultsIssued(s') && ResultsDistinct(s');
  }

  /** Incrementing a range that is used up changes nothing that counts. */
  lemma {:induction false} OverrunKeepsInv(s: State)
    requires Inv(s) && s.ranges[s.range].current + 1 > s.ranges[s.range].maxId
    ensures var r := s.ranges[s.range];
            var s' := s.(ranges := s.ranges[s.range := r.(current := r.current + 1)]);
            Inv(s') && s'.ranges[s'.range].Exhausted()
  {
    var r := s.ranges[s.range];
    var s' := s.(ranges := s.ranges[s.range := r.(current := r.current + 1)]);
    forall k, id | 0 <= k < |s'.ranges| && s'.ranges[k].Issued(id) ensures Received(s', k, id) {
      assert s.ranges[k].Issued(id) && Received(s, k, id);
    }
  }

  /** A new task is installed only after every older one has settled on a used-up range. */
  lemma {:induction false} NewTaskKeepsInv(s: State, c: nat)
    requires Inv(s) && c < |s.callers| && Waiting(s.callers[c]) && s.ranges[s.range].Exhausted()
    requires forall t | 0 <= t < |s.tasks| :: s.tasks[t].Settled()
    ensures var mine := |s.tasks|;
            Inv(At(s.(tasks := s.tasks + [Pending], nextRangeTask := Some(mine)), c, AwaitMine(mine)))
  {
    var mine := |s.tasks|;
    ResultsStay(s, At(s.(tasks := s.tasks + [Pending], nextRangeTask := Some(mine)), c, AwaitMine(mine)));
  }

  lemma {:induction false} ReplaceKeepsInv(s: State, c: nat, current: Option<nat>)
    requires Inv(s) && c < |s.callers| && Waiting(s.callers[c])
    requires s.nextRangeTask == current || s.nextRangeTask.Some?
    requires s.nextRangeTask == current ==>
               && s.ranges[s.range].Exhausted()
               && (forall t | 0 <= t < |s.tasks| :: s.tasks[t].Settled())
    ensures Inv(Replace(s, c, current))
  {
    if s.nextRangeTask == current {
      NewTaskKeepsInv(s, c);
      assert GetValue(s.tasks + [NotStarted], |s.tasks|) == s.tasks + [Pending];
    } else {
      var latest := s.nextRangeTask.value;
      assert s == s.(tasks := GetValue(s.tasks, latest));
      ParkKeepsResults(s, c, AwaitLatest(latest));
    }
  }

  /** Starting a task that has been started already, and waiting for it. */
  lemma {:induction false} AwaitCurrentKeepsInv(s: State, c: nat)
    requires Inv(s) && c < |s.callers| && Waiting(s.callers[c])
    requires s.nextRangeTask.Some? && s.ranges[s.range].Exhausted()
    ensures var t := s.nextRangeTask.value;
            Inv(At(s.(tasks := GetValue(s.tasks, t)), c, AwaitCurrent(t, s.range)))
  {
    var t := s.nextRangeTask.value;
    assert s == s.(tasks := GetValue(s.tasks, t));
    ParkKeepsResults(s, c, AwaitCurrent(t, s.range));
  }

  lemma {:induction false} LoopHeadKeepsInv(s: State, c: nat)
    requires Inv(s) && c < |s.callers| && Waiting(s.callers[c])
    ensures Inv(LoopHead(s, c))
  {
    var r := s.ranges[s.range];
    if r.current + 1 <= r.maxId {
      TakeIdKeepsInv(s, c);
    } else {
      OverrunKeepsInv(s);
      var s1 := s.(ranges := s.ranges[s.range := r.(current := r.current + 1)]);
      if s.nextRangeTask.None? {
        ReplaceKeepsInv(s1, c, None);
      } else {
        AwaitCurrentKeepsInv(s1, c);
      }
    }
  }

  lemma {:induction false} ResumeKeepsInv(s: State, c: nat)
    requires Inv(s) && Enabled(s, Resume(c))
    ensures Inv(ResumeCaller(s, c))
  {
    match s.callers[c]
    case AwaitCurrent(t, r) =>
      if s.tasks[t].Resolved? && r != s.range {
        LoopHeadKeepsInv(s, c);
      } else {
        ReplaceKeepsInv(s, c, Some(t));
      }
    case AwaitMine(t) =>
      if s.tasks[t].Resolved? {
        LoopHeadKeepsInv(s, c);
      } else {
        ParkKeepsResults(s, c, Failed(t));
      }
    case AwaitLatest(_) => LoopHeadKeepsInv(s, c);
  }

  lemma {:induction false} ServerKeepsInv(s: State, step: Step)
    requires Inv(s) && Enabled(s, step) && (step.Grant? || step.Refuse?)
    ensures Inv(Apply(s, step))
  {
    var s' := Apply(s, step);
    assert step.task == |s.tasks| - 1;
    forall r, id | 0 <= r < |s'.ranges| && s'.ranges[r].Issued(id) ensures Received(s', r, id) {
      assert r < |s.ranges| && s.ranges[r].Issued(id) && Received(s, r, id);
    }
  }

  lemma {:induction false} StepKeepsInv(s: State, step: Step)
    requires Inv(s) && Enabled(s, step)
    ensures Inv(Apply(s, step))
  {
    match step
    case Call =>
      EnterKeepsInv(s);
      LoopHeadKeepsInv(s.(callers := s.callers + [Ready]), |s.callers|);
    case Resume(c) => ResumeKeepsInv(s, c);
    case Grant(_, _, _, _) => ServerKeepsInv(s, step);
    case Refuse(_) => ServerKeepsInv(s, step);
  }

  lemma {:induction false} RunKeepsInv(steps: seq<Step>)
    ensures Exec(steps).Some? ==> Inv(Exec(steps).value)
  {
    if steps != [] && Exec(steps).Some? {
      var before := steps[..|steps| - 1];
      RunKeepsInv(before);
      StepKeepsInv(Exec(before).value, steps[|steps| - 1]);
    }
  }

  // ---------------------------------------------------------------------------------
  // What every schedule guarantees

  ghost predicate Reached(steps: seq<Step>, s: State) {
    Exec(steps) == Some(s)
  }

  ghost predicate UniqueIds(s: State) {
    forall c, d | 0 <= c < d < |s.callers| && s.callers[c].Done? && s.callers[d].Done? ::
      s.callers[c].result.id != s.callers[d].result.id
  }

  ghost predicate IssuedPartsDisjoint(s: State) {
    forall r, q, id | 0 <= r < q < |s.ranges| :: !(s.ranges[r].Issued(id) && s.ranges[q].Issued(id))
  }

  /** Two calls get the same id exactly when the server let two ranges overlap in ids that
      have been handed out: the client itself never duplicates. */
  lemma {:induction false} UniqueExactlyWhenIssuedPartsDisjoint(steps: seq<Step>, s: State)
    requires Reached(steps, s)
    ensures UniqueIds(s) <==> IssuedPartsDisjoint(s)
  {
    RunKeepsInv(steps);
    if !IssuedPartsDisjoint(s) {
      var r, q, id :| 0 <= r < q < |s.ranges| && s.ranges[r].Issued(id) && s.ranges[q].Issued(id);
      assert Received(s, r, id) && Received(s, q, id);
      var c :| 0 <= c < |s.callers| && s.callers[c] == Done(r, NextId(id, s.ranges[r].serverTag));
      var d :| 0 <= d < |s.callers| && s.callers[d] == Done(q, NextId(id, s.ranges[q].serverTag));
      assert c != d;
    }
    if IssuedPartsDisjoint(s) {
      forall c, d | 0 <= c < d < |s.callers| && s.callers[c].Done? && s.callers[d].Done?
        ensures s.callers[c].result.id != s.callers[d].result.id
      {
        var r, q, id := s.callers[c].range, s.callers[d].range, s.callers[c].result.id;
        assert s.ranges[r].Issued(id);
        if r < q {
          assert !s.ranges[q].Issued(id);
        } else if q < r {
          assert !s.ranges[q].Issued(id);
        }
      }
    }
  }

  /** What the server answered, in order. */
  datatype Answer = Answer(low: int, high: int, serverTag: string) {
    predicate Covers(id: int) {
      low <= id <= high
    }
  }

  function Answers(steps: seq<Step>): seq<Answer> {
    if steps == [] then []
    else
      var last := steps[|steps| - 1];
      Answers(steps[..|steps| - 1])
      + if last.Grant? then [Answer(last.low, last.high, last.serverTag)] else []
  }

  /** Behind the empty range of the start, the ranges are exactly the answers of the server. */
  lemma {:induction false} RangesAreAnswers(steps: seq<Step>, s: State)
    requires Reached(steps, s)
    ensures |s.ranges| == |Answers(steps)| + 1 && s.ranges[0].maxId < s.ranges[0].minId
    ensures forall k | 0 <= k < |Answers(steps)| :: var a, r := Answers(steps)[k], s.ranges[k + 1];
              r.minId == a.low && r.maxId == a.high && r.serverTag == a.serverTag
    decreases |steps|
  {
    if steps != [] {
      var before, last := steps[..|steps| - 1], steps[|steps| - 1];
      var s0 := Exec(before).value;
      RangesAreAnswers(before, s0);
      BoundsStay(s0, last);
    }
  }

  /** A step other than an answer leaves the bounds of all ranges alone. */
  lemma {:induction false} BoundsStay(s: State, step: Step)
    requires WellFormed(s) && Enabled(s, step)
    ensures var s' := Apply(s, step);
      && |s'.ranges| == |s.ranges| + (if step.Grant? then 1 else 0)
      && (forall r | 0 <= r < |s.ranges| ::
            s'.ranges[r].minId == s.ranges[r].minId && s'.ranges[r].maxId == s.ranges[r].maxId
            && s'.ranges[r].serverTag == s.ranges[r].serverTag)
  {
  }

  ghost predicate AnswersDisjoint(answers: seq<Answer>) {
    forall i, j, id | 0 <= i < j < |answers| :: !(answers[i].Covers(id) && answers[j].Covers(id))
  }

  /** If no id lies in two answers of the server, no id is given twice. */
  lemma {:induction false} DisjointAnswersGiveUniqueIds(steps: seq<Step>, s: State)
    requires Reached(steps, s) && AnswersDisjoint(Answers(steps))
    ensures UniqueIds(s)
  {
    RunKeepsInv(steps);
    RangesAreAnswers(steps, s);
    UniqueExactlyWhenIssuedPartsDisjoint(steps, s);
    forall r, q, id | 0 <= r < q < |s.ranges| ensures !(s.ranges[r].Issued(id) && s.ranges[q].Issued(id)) {
      if r > 0 {
        assert !(Answers(steps)[r - 1].Covers(id) && Answers(steps)[q - 1].Covers(id));
      }
    }
  }

  /** Every id lies in an answer of the server and carries its tag. */
  lemma {:induction false} IdsAreAnswered(steps: seq<Step>, s: State, c: nat) returns (k: nat)
    requires Reached(steps, s) && c < |s.callers| && s.callers[c].Done?
    ensures k < |Answers(steps)|
    ensures var a, result := Answers(steps)[k], s.callers[c].result;
      a.Covers(result.id) && result.serverTag == a.serverTag
  {
    RunKeepsInv(steps);
    RangesAreAnswers(steps, s);
    var r := s.callers[c].range;
    assert s.ranges[r].Issued(s.callers[c].result.id);
    k := r - 1;
  }

  /** Every id of every answer but the last has been received, by exactly one caller, with its tag. */
  lemma {:induction false} NoGaps(steps: seq<Step>, s: State, k: nat, id: int)
    requires Reached(steps, s) && k + 1 < |Answers(steps)|
    requires Answers(steps)[k].Covers(id)
    ensures exists c :: 0 <= c < |s.callers| && s.callers[c] == Done(k + 1, NextId(id, Answers(steps)[k].serverTag))
                        && forall d | 0 <= d < |s.callers| && s.callers[d].Done? && d != c ::
                             !(s.callers[d].range == k + 1 && s.callers[d].result.id == id)
  {
    RunKeepsInv(steps);
    RangesAreAnswers(steps, s);
    var r := k + 1;
    assert s.ranges[r].Issued(id) && Received(s, r, id);
    var c :| 0 <= c < |s.callers| && s.callers[c] == Done(r, NextId(id, s.ranges[r].serverTag));
    forall d | 0 <= d < |s.callers| && s.callers[d].Done? && d != c
      ensures !(s.callers[d].range == r && s.callers[d].result.id == id)
    {
      if d < c {
      } else {
        assert c < d;
      }
    }
  }

  /** When the server answers, every id of the answer before has been received. */
  lemma {:induction false} AnswerFindsRangeUsedUp(steps: seq<Step>, s: State, step: Step, id: int)
    requires Reached(steps, s) && WellFormed(s) && step.Grant? && Enabled(s, step) && Answers(steps) != []
    requires Answers(steps)[|Answers(steps)| - 1].Covers(id)
    ensures var last := Answers(steps)[|Answers(steps)| - 1];
      exists r :: Done(r, NextId(id, last.serverTag)) in s.callers
  {
    RunKeepsInv(steps);
    RangesAreAnswers(steps, s);
    assert s.ranges[s.range].Issued(id) && Received(s, s.range, id);
  }

  lemma {:induction false} AtMostOneRequestInFlight(steps: seq<Step>, s: State, t: nat, u: nat)
    requires Reached(steps, s)
    requires t < |s.tasks| && u < |s.tasks| && s.tasks[t].Pending? && s.tasks[u].Pending?
    ensures t == u && s.nextRangeTask == Some(t)
  {
    RunKeepsInv(steps);
  }

  /** A caller fails only through a request that it started itself and the server refused, and
      one refusal fails at most one caller: everybody else who waited for it tries again. */
  lemma {:induction false} RefusalFailsAtMostOneCaller(steps: seq<Step>, s: State, c: nat, d: nat)
    requires Reached(steps, s) && c < |s.callers| && s.callers[c].Failed?
    ensures s.callers[c].task < |s.tasks| && s.tasks[s.callers[c].task].Faulted?
    ensures d < |s.callers| && c != d ==> s.callers[d] != s.callers[c]
  {
    RunKeepsInv(steps);
    if d < |s.callers| && c != d {
      var t := s.callers[c].task;
      assert Owns(s.callers[c], t);
      assert !Owns(s.callers[d], t);
    }
  }

  lemma {:induction false} NobodyGetsReady(s: State, step: Step)
    requires WellFormed(s) && Enabled(s, step) && Ready !in s.callers
    ensures Ready !in Apply(s, step).callers
  {
    var s' := Apply(s, step);
    var c := if step.Call? then |s.callers| else if step.Resume? then step.caller else 0;
    if step.Call? || step.Resume? {
      assert forall i | 0 <= i < |s'.callers| && i != c :: s'.callers[i] == s.callers[i];
    }
  }

  /** Nobody is seen between entering and the first `await`. */
  lemma {:induction false} NobodyIsReady(steps: seq<Step>)
    requires Exec(steps).Some?
    ensures Ready !in Exec(steps).value.callers
  {
    if steps != [] {
      var before := Exec(steps[..|steps| - 1]).value;
      NobodyIsReady(steps[..|steps| - 1]);
      NobodyGetsReady(before, steps[|steps| - 1]);
    }
  }

  lemma {:induction false} WaitingGoesOn(s: State, c: nat)
    requires Inv(s) && c < |s.callers| && Waiting(s.callers[c]) && s.callers[c] != Ready
    ensures Enabled(s, Resume(c)) || (s.nextRangeTask.Some? && Enabled(s, Refuse(s.nextRangeTask.value)))
  {
    var t := s.callers[c].task;
    assert t < |s.tasks| - 1 ==> s.tasks[t].Settled();
  }

  /** No caller is stuck: one without a result can go on, or waits for the request in flight. */
  lemma {:induction false} NoCallerIsStuck(steps: seq<Step>, s: State, c: nat)
    requires Reached(steps, s) && c < |s.callers| && !s.callers[c].Done? && !s.callers[c].Failed?
    ensures WellFormed(s)
    ensures Enabled(s, Resume(c)) || (s.nextRangeTask.Some? && Enabled(s, Refuse(s.nextRangeTask.value)))
  {
    RunKeepsInv(steps);
    NobodyIsReady(steps);
    WaitingGoesOn(s, c);
  }

  // ---------------------------------------------------------------------------------
  // The generator itself

  /** The shared fields of the generator and of the range and task objects it points to. */
  class HiloIdGenerator {
    var ranges: seq<Range>
    var range: nat
    var tasks: seq<Task>
    var nextRangeTask: Option<nat>
    var callers: seq<Caller>

    ghost function Model(): State
      reads this
    {
      State(ranges, range, tasks, nextRangeTask, callers)
    }

    constructor ()
      ensures Model() == INIT
    {
      ranges, range, tasks, nextRangeTask, callers := [NewRange(1, 0, NO_TAG)], 0, [], None, [];
    }

    method Increment() returns (id: int)
      requires range < |ranges|
      modifies `ranges
      ensures id == old(ranges[range].current) + 1
      ensures ranges == old(ranges)[range := old(ranges[range]).(current := id)]
    {
      id := ranges[range].current + 1;
      ranges := ranges[range := ranges[range].(current := id)];
    }

    /** One caller, from the `await` it is parked at to the next one. */
    method RunCaller(c: nat)
      requires WellFormed(Model()) && Enabled(Model(), Resume(c))
      modifies this
      ensures Model() == Apply(old(Model()), Resume(c))
    {
      match callers[c] {
        case AwaitCurrent(t, r) =>
          if tasks[t].Resolved? && r != range {
            FromLoopHead(c);
          } else {
            TryReplace(c, Some(t));
          }
        case AwaitMine(t) =>
          if tasks[t].Resolved? {
            FromLoopHead(c);
          } else {
            callers := callers[c := Failed(t)];
          }
        case AwaitLatest(_) =>
          FromLoopHead(c);
      }
    }

    method EnterCall() returns (c: nat)
      requires WellFormed(Model())
      modifies this
      ensures c == |old(callers)| && Model() == Apply(old(Model()), Call)
    {
      c := |callers|;
      callers := callers + [Ready];
      FromLoopHead(c);
    }

    method FromLoopHead(c: nat)
      requires WellFormed(Model()) && c < |callers|
      modifies this
      ensures Model() == LoopHead(old(Model()), c)
    {
      var current := nextRangeTask;
      var id := Increment();
      if id <= ranges[range].maxId {
        callers := callers[c := Done(range, NextId(id, ranges[range].serverTag))];
        return;
      }
      if current.Some? {
        StartTask(current.value);
        callers := callers[c := AwaitCurrent(current.value, range)];
      } else {
        TryReplace(c, current);
      }
    }

    method TryReplace(c: nat, current: Option<nat>)
      requires WellFormed(Model()) && c < |callers|
      requires nextRangeTask == current || nextRangeTask.Some?
      modifies this
      ensures Model() == Replace(old(Model()), c, current)
    {
      if nextRangeTask == current {
        var mine := |tasks|;
        tasks := tasks + [NotStarted];
        nextRangeTask := Some(mine);
        StartTask(mine);
        callers := callers[c := AwaitMine(mine)];
      } else {
        StartTask(nextRangeTask.value);
        callers := callers[c := AwaitLatest(nextRangeTask.value)];
      }
    }

    method StartTask(t: nat)
      requires t < |tasks|
      modifies `tasks
      ensures tasks == GetValue(old(tasks), t)
    {
      if tasks[t].NotStarted? {
        tasks := tasks[t := Pending];
      }
    }

    /** The server's answer reaches the task: the range is replaced, then the task settles. */
    method OnAnswer(t: nat, low: int, high: int, serverTag: string)
      requires WellFormed(Model()) && Enabled(Model(), Grant(t, low, high, serverTag))
      modifies this
      ensures Model() == Apply(old(Model()), Grant(t, low, high, serverTag))
    {
      ranges := ranges + [NewRange(low, high, serverTag)];
      range := |ranges| - 1;
      tasks := tasks[t := Resolved];
    }

    method OnRefusal(t: nat)
      requires WellFormed(Model()) && Enabled(Model(), Refuse(t))
      modifies this
      ensures Model() == Apply(old(Model()), Refuse(t))
    {
      tasks := tasks[t := Faulted];
    }
  }
}
