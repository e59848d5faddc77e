/** Whole lives of a selector: when a speed test ever begins, when it ends unnoticed, and when its
    cap is reached. */
module SpeedTestRuns {
  import opened NodeSelection
  import opened SpeedTestPhase

  /** A recording arrives, a topology arrives, a command asks for a speed test, or a minute is over. */
  datatype Step =
    | Record(index: int, node: ServerNode)
    | Install(topology: Topology, force: bool)
    | Schedule
    | Tick

  function AfterRecording(s: Selector, r: Recording): Selector {
    match r
    case Ignored => s
    case Counted(s') => s'
    case Elected(_, _, _, s') => s'
  }

  /** The timer only ticks once it exists. */
  function After(s: Selector, step: Step): (s': Selector)
    requires s.Valid()
    ensures s'.Valid()
  {
    match step
    case Record(index, node) => AfterRecording(s, RecordFastest(s, index, node))
    case Install(topology, force) => OnUpdateTopology(s, topology, force)
    case Schedule => ScheduleSpeedTest(s)
    case Tick => if s.timer then SwitchToSpeedTestPhase(s) else s
  }

  function Run(s: Selector, steps: seq<Step>): (s': Selector)
    requires s.Valid()
    ensures s'.Valid()
    decreases |steps|
  {
    if steps == [] then s else Run(After(s, steps[0]), steps[1..])
  }

  predicate Testing(s: Selector) {
    s.speedTestMode > 1
  }

  // ---------------------------------------------------------------------------------
  // When the first speed test begins

  predicate Installed(s: Selector, step: Step) {
    step.Install? && (s.topology.etag < step.topology.etag || step.force)
  }

  /** Where the fastest node is in the topology that arrives. */
  function FastestIn(s: Selector, topology: Topology): nat
    requires s.fastest < |s.Nodes()|
  {
    IndexOfTag(topology.nodes, s.Nodes()[s.fastest].clusterTag)
  }

  /** A topology arrives without the fastest node. */
  predicate Drops(s: Selector, step: Step) {
    Installed(s, step) && s.fastest < |s.Nodes()| && FastestIn(s, step.topology) == |step.topology.nodes|
  }

  predicate Counts(s: Selector, step: Step)
    requires s.Valid()
  {
    step.Record? && !RecordFastest(s, step.index, step.node).Ignored?
  }

  predicate Begins(s: Selector, step: Step)
    requires s.Valid()
  {
    Drops(s, step) || Counts(s, step)
  }

  /** No phase and no wins, as a new selector is: neither asking nor waiting changes that, since
      the switch into a phase only works from the mode after an election. */
  ghost predicate Asleep(s: Selector) {
    s.Valid() && s.speedTestMode == 1 && s.fastestRecords == Zeros(|s.Nodes()|)
  }

  lemma {:induction false} SleepEnds(s: Selector, step: Step)
    requires Asleep(s)
    ensures if Begins(s, step) then Testing(After(s, step)) else Asleep(After(s, step))
  {
  }

  /** The states that a run goes through. */
  function Before(s: Selector, steps: seq<Step>, k: nat): (s': Selector)
    requires s.Valid() && k <= |steps|
    ensures s'.Valid()
  {
    Run(s, steps[..k])
  }

  lemma {:induction false} BeforeNext(s: Selector, steps: seq<Step>, k: nat)
    requires s.Valid() && 0 < k <= |steps|
    ensures Before(s, steps, k) == Before(After(s, steps[0]), steps[1..], k - 1)
  {
    assert steps[..k][0] == steps[0] && steps[..k][1..] == steps[1..][..k - 1];
  }

  ghost predicate EverTesting(s: Selector, steps: seq<Step>)
    requires s.Valid()
  {
    exists k | 0 <= k <= |steps| :: Testing(Before(s, steps, k))
  }

  ghost predicate EverBegun(s: Selector, steps: seq<Step>)
    requires s.Valid()
  {
    exists k | 0 <= k < |steps| :: Begins(Before(s, steps, k), steps[k])
  }

  lemma {:induction false} FirstStep(s: Selector, steps: seq<Step>)
    requires s.Valid() && steps != []
    ensures var s1, rest := After(s, steps[0]), steps[1..];
      && (EverTesting(s, steps) <==> Testing(s) || EverTesting(s1, rest))
      && (EverBegun(s, steps) <==> Begins(s, steps[0]) || EverBegun(s1, rest))
  {
    var s1, rest := After(s, steps[0]), steps[1..];
    assert Before(s, steps, 0) == s;
    forall k | 0 < k <= |steps| ensures Before(s, steps, k) == Before(s1, rest, k - 1) {
      BeforeNext(s, steps, k);
    }
    if EverTesting(s1, rest) {
      var k :| 0 <= k <= |rest| && Testing(Before(s1, rest, k));
      assert Testing(Before(s, steps, k + 1));
    }
    if EverBegun(s1, rest) {
      var k :| 0 <= k < |rest| && Begins(Before(s1, rest, k), rest[k]);
      assert Begins(Before(s, steps, k + 1), steps[k + 1]);
    }
    if k :| 0 < k < |steps| && Begins(Before(s, steps, k), steps[k]) {
      assert Begins(Before(s1, rest, k - 1), rest[k - 1]);
    }
  }

  /** Over its whole life a selector is in a speed test at some time if and only if at some time a
      topology arrived without the fastest node, or a recording counted that no test had asked
      for; commands that ask for a test and the timer never start the first one. */
  lemma {:induction false} TestsExactlyWhenBegun(topology: Topology, steps: seq<Step>)
    ensures var s := NewSelector(topology);
      EverTesting(s, steps) <==> EverBegun(s, steps)
  {
    AsleepTestsExactlyWhenBegun(NewSelector(topology), steps);
  }

  lemma {:induction false} AsleepTestsExactlyWhenBegun(s: Selector, steps: seq<Step>)
    requires Asleep(s)
    ensures EverTesting(s, steps) <==> EverBegun(s, steps)
    decreases |steps|
  {
    if steps == [] {
      assert steps[..0] == [];
    } else {
      FirstStep(s, steps);
      SleepEnds(s, steps[0]);
      if Begins(s, steps[0]) {
        assert Before(After(s, steps[0]), steps[1..], 0) == After(s, steps[0]);
      } else {
        AsleepTestsExactlyWhenBegun(After(s, steps[0]), steps[1..]);
      }
    }
  }

  // ---------------------------------------------------------------------------------
  // Whether the first speed test still runs

  /** A topology arrives that has the fastest node beyond the places known so far, or that replaces
      one without any node: the mode is not carried over. */
  predicate Loses(s: Selector, step: Step) {
    && Installed(s, step) && !Drops(s, step)
    && (s.fastest >= |s.Nodes()| || FastestIn(s, step.topology) >= |s.fastestRecords|)
  }

  /** Before any recording counts. */
  ghost predicate Quiet(s: Selector) {
    s.Valid() && s.speedTestMode in {1, 2} && s.fastestRecords == Zeros(|s.Nodes()|)
  }

  lemma {:induction false} QuietStep(s: Selector, step: Step)
    requires Quiet(s) && !Counts(s, step)
    ensures Quiet(After(s, step))
    ensures Testing(After(s, step)) <==> Drops(s, step) || (Testing(s) && !Loses(s, step))
  {
  }

  predicate DropsAt(s: Selector, steps: seq<Step>, k: nat)
    requires s.Valid() && k < |steps|
  {
    Drops(Before(s, steps, k), steps[k])
  }

  predicate LosesAt(s: Selector, steps: seq<Step>, k: nat)
    requires s.Valid() && k < |steps|
  {
    Loses(Before(s, steps, k), steps[k])
  }

  /** A topology dropped the fastest node, and none after it lost the mode. */
  ghost predicate StillTesting(s: Selector, steps: seq<Step>)
    requires s.Valid()
  {
    exists k | 0 <= k < |steps| :: DropsAt(s, steps, k) && forall j | k < j < |steps| :: !LosesAt(s, steps, j)
  }

  lemma {:induction false} LastStep(s: Selector, steps: seq<Step>)
    requires s.Valid() && steps != []
    ensures Run(s, steps) == After(Run(s, steps[..|steps| - 1]), steps[|steps| - 1])
    decreases |steps|
  {
    var n := |steps| - 1;
    if n > 0 {
      LastStep(After(s, steps[0]), steps[1..]);
      assert steps[..n][0] == steps[0] && steps[..n][1..] == steps[1..][..n - 1];
    }
  }

  lemma {:induction false} SamePrefix(s: Selector, steps: seq<Step>, k: nat)
    requires s.Valid() && k < |steps|
    ensures Before(s, steps[..|steps| - 1], k) == Before(s, steps, k)
    ensures k < |steps| - 1 ==> DropsAt(s, steps[..|steps| - 1], k) == DropsAt(s, steps, k)
    ensures k < |steps| - 1 ==> LosesAt(s, steps[..|steps| - 1], k) == LosesAt(s, steps, k)
  {
    assert steps[..|steps| - 1][..k] == steps[..k];
  }

  lemma {:induction false} StillTestingLonger(s: Selector, steps: seq<Step>)
    requires s.Valid() && steps != [] && var n := |steps| - 1;
             DropsAt(s, steps, n) || (StillTesting(s, steps[..n]) && !LosesAt(s, steps, n))
    ensures StillTesting(s, steps)
  {
    var n := |steps| - 1;
    if !DropsAt(s, steps, n) {
      var before := steps[..n];
      var k :| 0 <= k < n && DropsAt(s, before, k) && forall j | k < j < n :: !LosesAt(s, before, j);
      SamePrefix(s, steps, k);
      forall j | k < j < |steps| ensures !LosesAt(s, steps, j) {
        SamePrefix(s, steps, j);
      }
    }
  }

  lemma {:induction false} StillTestingShorter(s: Selector, steps: seq<Step>)
    requires s.Valid() && StillTesting(s, steps)
    ensures steps != [] && var n := |steps| - 1;
            DropsAt(s, steps, n) || (StillTesting(s, steps[..n]) && !LosesAt(s, steps, n))
  {
    var k :| 0 <= k < |steps| && DropsAt(s, steps, k) && forall j | k < j < |steps| :: !LosesAt(s, steps, j);
    var n := |steps| - 1;
    if k < n {
      SamePrefix(s, steps, k);
      forall j | k < j < n ensures !LosesAt(s, steps[..n], j) {
        SamePrefix(s, steps, j);
        assert !LosesAt(s, steps, j);
      }
    }
  }

  ghost predicate NothingCounts(s: Selector, steps: seq<Step>)
    requires s.Valid()
  {
    forall k | 0 <= k < |steps| :: !Counts(Before(s, steps, k), steps[k])
  }

  /** As long as no recording counts, a new selector is in a speed test exactly when a topology
      dropped the fastest node and none after it lost the mode again. */
  lemma {:induction false} TestsNowExactlyWhen(topology: Topology, steps: seq<Step>)
    requires NothingCounts(NewSelector(topology), steps)
    ensures var s := NewSelector(topology);
      Quiet(Run(s, steps)) && (Testing(Run(s, steps)) <==> StillTesting(s, steps))
    decreases |steps|
  {
    var s := NewSelector(topology);
    if steps != [] {
      var n := |steps| - 1;
      forall k | 0 <= k < n ensures !Counts(Before(s, steps[..n], k), steps[..n][k]) {
        SamePrefix(s, steps, k);
      }
      TestsNowExactlyWhen(topology, steps[..n]);
      LastStep(s, steps);
      QuietStep(Run(s, steps[..n]), steps[n]);
      if Testing(Run(s, steps)) {
        StillTestingLonger(s, steps);
      }
      if StillTesting(s, steps) {
        StillTestingShorter(s, steps);
      }
    }
  }

  // ---------------------------------------------------------------------------------
  // When the cap is reached

  /** A recording that counts, or a topology that arrives with the fastest node among the places
      known so far. */
  predicate StaysInPhase(s: Selector, step: Step)
    requires s.Valid()
  {
    match step
    case Record(index, node) => RecordFastest(s, index, node).Counted?
    case Install(topology, _) =>
      Installed(s, step) && s.fastest < |s.Nodes()|
      && FastestIn(s, topology) < |topology.nodes| && FastestIn(s, topology) < |s.fastestRecords|
    case _ => true
  }

  predicate PhaseRun(s: Selector, steps: seq<Step>)
    requires s.Valid()
    decreases |steps|
  {
    steps == [] || (StaysInPhase(s, steps[0]) && PhaseRun(After(s, steps[0]), steps[1..]))
  }

  /** The wins that the topologies of the run forget. */
  function Forgotten(s: Selector, steps: seq<Step>): nat
    requires s.Valid()
    decreases |steps|
  {
    if steps == [] then 0
    else (if steps[0].Install? then Sum(s.fastestRecords) else 0) + Forgotten(After(s, steps[0]), steps[1..])
  }

  lemma {:induction false} StepDrifts(s: Selector, step: Step, drift: nat)
    requires InDrift(s, drift) && StaysInPhase(s, step)
    ensures InDrift(After(s, step), drift + if step.Install? then Sum(s.fastestRecords) else 0)
  {
    match step
    case Record(index, node) => SumOfBump(s.fastestRecords, index);
    case Install(topology, _) => ReorderDrifts(s, drift, topology);
    case _ =>
  }

  lemma {:induction false} RunDrifts(s: Selector, steps: seq<Step>, drift: nat)
    requires InDrift(s, drift) && PhaseRun(s, steps)
    ensures InDrift(Run(s, steps), drift + Forgotten(s, steps))
    decreases |steps|
  {
    if steps != [] {
      StepDrifts(s, steps[0], drift);
      RunDrifts(After(s, steps[0]), steps[1..], drift + if steps[0].Install? then Sum(s.fastestRecords) else 0);
    }
  }

  /** One more step in front of a run. */
  lemma {:induction false} StepFirst(s: Selector, step: Step, rest: seq<Step>)
    requires s.Valid() && StaysInPhase(s, step) && PhaseRun(After(s, step), rest)
    ensures PhaseRun(s, [step] + rest) && Run(s, [step] + rest) == Run(After(s, step), rest)
    ensures Forgotten(s, [step] + rest)
         == (if step.Install? then Sum(s.fastestRecords) else 0) + Forgotten(After(s, step), rest)
  {
    var steps := [step] + rest;
    assert steps[0] == step && steps[1..] == rest;
  }

  /** The start of a phase: no wins, and the counter two ahead. */
  ghost predicate FreshPhase(s: Selector) {
    s.Valid() && s.fastestRecords == Zeros(|s.Nodes()|) && s.speedTestMode == 2
  }

  /** A run within a phase that forgets so many wins and ends with n nodes, one recording away from
      the cap. */
  ghost predicate EndsAtCap(s: Selector, steps: seq<Step>, forgotten: nat, n: nat, i: nat)
    requires s.Valid()
  {
    && PhaseRun(s, steps) && Forgotten(s, steps) == forgotten
    && |Run(s, steps).Nodes()| == n && CapElects(Run(s, steps), i)
  }

  ghost predicate ReachesCap(s: Selector, steps: seq<Step>, drift: nat, n: nat, i: nat) {
    FreshPhase(s) && EndsAtCap(s, steps, drift, n, i)
  }

  function SameTags(n: nat): Topology {
    Topology(1, seq(n, i requires 0 <= i < n => ServerNode(i, "A", Member)))
  }

  /** A selector on such a topology without wins. */
  function Drifted(n: nat, mode: nat): (s: Selector)
    ensures s.Valid()
  {
    Selector(SameTags(n), Zeros(n), Zeros(n), 0, mode, 0, true)
  }

  function WinAndForget(n: nat, rest: seq<Step>): seq<Step>
    requires n > 0
  {
    [Record(0, SameTags(n).nodes[0])] + ([Install(SameTags(n), true)] + rest)
  }

  /** One win and one topology forget one win. */
  lemma {:induction false} ForgetOne(n: nat, drift: nat, rest: seq<Step>, forgotten: nat, m: nat, i: nat)
    requires n > 0 && drift + 3 <= 10 * n && EndsAtCap(Drifted(n, drift + 3), rest, forgotten, m, i)
    ensures EndsAtCap(Drifted(n, drift + 2), WinAndForget(n, rest), forgotten + 1, m, i)
  {
    var s, record, install := Drifted(n, drift + 2), Record(0, SameTags(n).nodes[0]), Install(SameTags(n), true);
    var s1 := After(s, record);
    SumOfZeros(n);
    SumOfBump(Zeros(n), 0);
    assert RecordFastest(s, 0, SameTags(n).nodes[0]).Counted?;
    assert After(s1, install) == Drifted(n, drift + 3);
    StepFirst(s1, install, rest);
    StepFirst(s, record, [install] + rest);
  }

  lemma {:induction false} SomeBelowNine(wins: seq<nat>) returns (i: nat)
    requires Sum(wins) < 9 * |wins|
    ensures i < |wins| && wins[i] < 9
  {
    if wins[0] < 9 {
      i := 0;
    } else {
      var rest := SomeBelowNine(wins[1..]);
      i := rest + 1;
    }
  }

  /** Recordings go on until the cap is reached, since it comes before every node has nine wins. */
  lemma {:induction false} FillUp(s: Selector, drift: nat) returns (steps: seq<Step>, i: nat)
    requires InDrift(s, drift) && drift + 1 >= |s.Nodes()| && Sum(s.fastestRecords) < 9 * |s.Nodes()|
    ensures EndsAtCap(s, steps, 0, |s.Nodes()|, i)
    decreases 9 * |s.Nodes()| - Sum(s.fastestRecords)
  {
    i := SomeBelowNine(s.fastestRecords);
    if CapElects(s, i) {
      steps := [];
    } else {
      var record := Record(i, s.Nodes()[i]);
      SumOfBump(s.fastestRecords, i);
      assert RecordFastest(s, i, s.Nodes()[i]).Counted?;
      StepDrifts(s, record, drift);
      var rest: seq<Step>;
      rest, i := FillUp(After(s, record), drift);
      StepFirst(s, record, rest);
      steps := [record] + rest;
    }
  }

  lemma {:induction false} Shrunk(many: nat, mode: nat, n: nat)
    requires many > 0 && n > 0
    ensures var s, shrink := Drifted(many, mode), Install(SameTags(n), true);
      StaysInPhase(s, shrink) && After(s, shrink) == Drifted(n, mode)
  {
  }

  lemma {:induction false} ShrinkThenFill(many: nat, drift: nat, n: nat) returns (steps: seq<Step>, i: nat)
    requires many > 0 && n > 0 && drift + 1 >= n
    ensures EndsAtCap(Drifted(many, drift + 2), steps, 0, n, i)
  {
    var shrink, middle := Install(SameTags(n), true), Drifted(n, drift + 2);
    SumOfZeros(many);
    SumOfZeros(n);
    Shrunk(many, drift + 2, n);
    var fill: seq<Step>;
    fill, i := FillUp(middle, drift);
    StepFirst(Drifted(many, drift + 2), shrink, fill);
    steps := [shrink] + fill;
  }

  /** With enough nodes the rest of the wins is forgotten first; then only n nodes are left. */
  lemma {:induction false} ForgetThenFill(many: nat, done: nat, drift: nat, n: nat)
      returns (steps: seq<Step>, i: nat)
    requires n > 0 && drift + 1 >= n && done <= drift && drift + 3 <= 10 * many
    ensures EndsAtCap(Drifted(many, done + 2), steps, drift - done, n, i)
    decreases drift - done
  {
    if done == drift {
      steps, i := ShrinkThenFill(many, drift, n);
    } else {
      var rest: seq<Step>;
      rest, i := ForgetThenFill(many, done + 1, drift, n);
      ForgetOne(many, done, rest, drift - done - 1, n, i);
      steps := WinAndForget(many, rest);
    }
  }

  /** The branch for too many concurrent tests is taken with n nodes at the end of some run from the
      start of a phase that forgets so many wins, if and only if there is a node and n is at most
      one more than the wins forgotten. */
  lemma {:induction false} CapReachedInRunExactlyWhen(n: nat, drift: nat)
    ensures (exists s: Selector, steps: seq<Step>, i: nat :: ReachesCap(s, steps, drift, n, i))
            <==> n > 0 && drift + 1 >= n
  {
    if n > 0 && drift + 1 >= n {
      var many := drift + 3;
      var steps, i := ForgetThenFill(many, 0, drift, n);
      assert ReachesCap(Drifted(many, 2), steps, drift, n, i);
    }
    forall s: Selector, steps: seq<Step>, i: nat | ReachesCap(s, steps, drift, n, i)
      ensures n > 0 && drift + 1 >= n
    {
      SumOfZeros(|s.Nodes()|);
      RunDrifts(s, steps, 0);
      CapReachedExactlyWhen(n, drift);
    }
  }
}
