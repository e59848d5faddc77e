/** Failover: a command that cannot reach a node is sent to another one. */
module Failover {
  import opened NodeSelection
  import opened Wrappers

  // It goes on until a node answers or the chosen node is one that has failed for this command
  // before. Between two sends the environment may restore nodes (health checks), count failures
  // of other commands and install topologies.

  /** `failedNodes` holds node identities; it is emptied when the recorded etag differs from the current one. */
  datatype Command = Command(failedNodes: set<nat>, failoverEtag: int)

  const INITIAL_TOPOLOGY_ETAG := -2

  const NEW_COMMAND := Command({}, INITIAL_TOPOLOGY_ETAG)

  datatype Update = Update(topology: Topology, force: bool)

  /** One thing that happens while a request is under way; `TopologyArrives` installs the next
      of the topologies that are still to come, if there is one. */
  datatype Event = NodeRestored(identity: nat) | OtherFailure(index: int) | TopologyArrives

  datatype Weather = Weather(events: seq<Event>, answered: bool)

  /** The executor and one command, together with the topologies that are still to come. */
  datatype World = World(selector: Selector, etag: int, command: Command, pending: seq<Update>)
  {
    /** The executor's etag is that of the selector's topology. */
    predicate Valid() {
      selector.Valid() && etag == selector.topology.etag && Distinct(selector.Nodes())
      && forall u | 0 <= u < |pending| :: Distinct(pending[u].topology.nodes)
    }

    predicate EtagRecorded() {
      command.failoverEtag == etag
    }
  }

  /** Different places of a topology hold different node objects. */
  predicate Distinct(nodes: seq<ServerNode>) {
    forall i, j | 0 <= i < j < |nodes| :: nodes[i].identity != nodes[j].identity
  }

  function Ids(nodes: seq<ServerNode>): set<nat> {
    set i | 0 <= i < |nodes| :: nodes[i].identity
  }

  // ---------------------------------------------------------------------------------
  // One send and its failure

  /** Before the first send the command records the etag, if the topology has one. */
  function RecordEtag(w: World): World {
    if w.command.failoverEtag == INITIAL_TOPOLOGY_ETAG && w.selector.topology.etag != 0 then
      w.(command := w.command.(failoverEtag := w.selector.topology.etag))
    else w
  }

  function Happen(w: World, e: Event): (w': World)
    requires w.Valid()
    ensures w'.Valid() && w'.command == w.command
    ensures w'.pending == w.pending || (w.pending != [] && w'.pending == w.pending[1..])
    ensures w'.pending == w.pending ==> w'.selector.topology == w.selector.topology
  {
    match e
    case NodeRestored(id) => w.(selector := RestoreNode(w.selector, id))
    case OtherFailure(i) => w.(selector := OnFailedRequest(w.selector, i))
    case TopologyArrives =>
      if w.pending == [] then w
      else
        var s := OnUpdateTopology(w.selector, w.pending[0].topology, w.pending[0].force);
        World(s, s.topology.etag, w.command, w.pending[1..])
  }

  function HappenAll(w: World, events: seq<Event>): (w': World)
    requires w.Valid()
    ensures w'.Valid() && w'.command == w.command
    ensures |w'.pending| <= |w.pending|
    ensures |w'.pending| == |w.pending| ==> w'.pending == w.pending && w'.selector.topology == w.selector.topology
    decreases |events|
  {
    if events == [] then w else HappenAll(Happen(w, events[0]), events[1..])
  }

  /** What follows a failed send. */
  datatype Decision = NoNodesLeft | GiveUp(world: World) | SendTo(index: nat, world: World)

  function HandleServerDown(w: World, policy: Policy, node: ServerNode, index: int): Decision
    requires w.Valid()
  {
    var s1 := OnFailedRequest(w.selector, index);
    match Choose(policy, s1)
    case NoNodes => NoNodesLeft
    case Chosen(next, s2) =>
      var failed := w.command.failedNodes + {node.identity};
      var command :=
        if w.command.failoverEtag != w.etag then Command({}, w.etag)
        else w.command.(failedNodes := failed);
      var w' := w.(selector := s2, command := command);
      if next < |s2.Nodes()| && s2.Nodes()[next].identity !in command.failedNodes then SendTo(next, w')
      else GiveUp(w')
  }

  lemma {:induction false} ChoiceIsInTopology(policy: Policy, s: Selector)
    requires s.Valid()
    ensures match Choose(policy, s)
            case NoNodes => s.Nodes() == []
            case Chosen(i, s') =>
              && i < |s.Nodes()| && s'.Valid() && s'.topology == s.topology && s'.failures == s.failures
  {
  }

  lemma {:induction false} DecisionKeepsWorld(w: World, policy: Policy, node: ServerNode, index: int)
    requires w.Valid()
    ensures match HandleServerDown(w, policy, node, index)
            case NoNodesLeft => w.selector.Nodes() == []
            case GiveUp(w') =>
              && w'.Valid() && w'.pending == w.pending && w'.EtagRecorded()
              && w'.selector.topology == w.selector.topology && w'.command.failedNodes != {}
            case SendTo(i, w') =>
              && w'.Valid() && w'.pending == w.pending && w'.EtagRecorded()
              && w'.selector.topology == w.selector.topology
              && i < |w'.selector.Nodes()| && w'.selector.Nodes()[i].identity !in w'.command.failedNodes
              && (w.EtagRecorded() ==> w'.command.failedNodes == w.command.failedNodes + {node.identity})
  {
    ChoiceIsInTopology(policy, OnFailedRequest(w.selector, index));
  }

  // ---------------------------------------------------------------------------------
  // The whole run

  datatype Outcome = Answered | NoNodesException | AllFailed(failedNodes: set<nat>)

  datatype Run = Run(sends: seq<ServerNode>, outcome: Outcome)

  /** The nodes that this command has not failed on. */
  function Untried(w: World): set<nat> {
    Ids(w.selector.Nodes()) - w.command.failedNodes
  }

  ghost predicate CanSend(w: World, index: nat) {
    && w.Valid() && index < |w.selector.Nodes()|
    && w.selector.Nodes()[index].identity !in w.command.failedNodes
  }

  /** The measure that bounds the recursion: topologies to come, then whether the recorded
      etag is out of date, then the untried nodes. */
  function Stale(w: World): nat {
    if RecordEtag(w).EtagRecorded() then 0 else 1
  }

  lemma {:induction false} MeasureDrops(w: World, policy: Policy, index: nat, events: seq<Event>)
    requires CanSend(w, index)
    ensures var node := w.selector.Nodes()[index];
            match HandleServerDown(HappenAll(RecordEtag(w), events), policy, node, index)
            case SendTo(next, w') =>
              && CanSend(w', next) && Stale(w') == 0
              && (|w'.pending| < |w.pending|
                  || (|w'.pending| == |w.pending| && Stale(w) == 1)
                  || (|w'.pending| == |w.pending| && Stale(w) == 0 && Untried(w') < Untried(w)))
            case _ => true
  {
    var node := w.selector.Nodes()[index];
    var w1 := HappenAll(RecordEtag(w), events);
    DecisionKeepsWorld(w1, policy, node, index);
    match HandleServerDown(w1, policy, node, index)
    case SendTo(next, w') =>
      if |w'.pending| == |w.pending| && Stale(w) == 0 {
        assert w1.EtagRecorded();
        assert node.identity in Untried(w) && node.identity !in Untried(w');
      }
    case _ =>
  }

  /** Sends to the node at `index`, lets the weather of this attempt happen, and goes on. */
  ghost function Execute(w: World, policy: Policy, index: nat, weather: nat -> Weather, attempt: nat): Run
    requires CanSend(w, index)
    decreases |w.pending|, Stale(w), Untried(w)
  {
    var node := w.selector.Nodes()[index];
    var w1 := HappenAll(RecordEtag(w), weather(attempt).events);
    if weather(attempt).answered then Run([node], Answered)
    else
      MeasureDrops(w, policy, index, weather(attempt).events);
      match HandleServerDown(w1, policy, node, index)
      case NoNodesLeft => Run([node], NoNodesException)
      case GiveUp(w2) => Run([node], AllFailed(w2.command.failedNodes))
      case SendTo(next, w2) =>
        var rest := Execute(w2, policy, next, weather, attempt + 1);
        Run([node] + rest.sends, rest.outcome)
  }

  /** `run` is what follows when the send to `node` fails and leaves the world as `w1`. */
  ghost predicate FailedSend(w1: World, node: ServerNode, index: int, policy: Policy, weather: nat -> Weather,
      attempt: nat, run: Run) {
    w1.Valid() &&
    match HandleServerDown(w1, policy, node, index)
    case NoNodesLeft => run == Run([node], NoNodesException)
    case GiveUp(w2) => run == Run([node], AllFailed(w2.command.failedNodes))
    case SendTo(next, w2) =>
      CanSend(w2, next) &&
      var rest := Execute(w2, policy, next, weather, attempt + 1);
      run == Run([node] + rest.sends, rest.outcome)
  }

  lemma {:induction false} ExecuteUnfolds(w: World, policy: Policy, index: nat, weather: nat -> Weather, attempt: nat)
    requires CanSend(w, index)
    ensures var run := Execute(w, policy, index, weather, attempt);
            var node := w.selector.Nodes()[index];
            if weather(attempt).answered then run == Run([node], Answered)
            else FailedSend(HappenAll(RecordEtag(w), weather(attempt).events), node, index, policy, weather, attempt,
                run)
  {
    MeasureDrops(w, policy, index, weather(attempt).events);
  }

  /** `d` is the decision after the send at `index` from `w` has failed. */
  ghost predicate DecidedAfter(w: World, policy: Policy, index: nat, weather: nat -> Weather, attempt: nat,
      d: Decision) {
    && CanSend(w, index) && !weather(attempt).answered
    && d == HandleServerDown(HappenAll(RecordEtag(w), weather(attempt).events), policy, w.selector.Nodes()[index],
        index)
  }

  ghost predicate MeasureBelow(w': World, w: World) {
    || |w'.pending| < |w.pending|
    || (|w'.pending| == |w.pending| && Stale(w') < Stale(w))
    || (|w'.pending| == |w.pending| && Stale(w') == Stale(w) && Untried(w') < Untried(w))
  }

  lemma {:induction false} DecisionDeterminesRun(w: World, policy: Policy, index: nat, weather: nat -> Weather,
      attempt: nat, d: Decision)
    requires DecidedAfter(w, policy, index, weather, attempt, d)
    ensures var node := w.selector.Nodes()[index];
            var run := Execute(w, policy, index, weather, attempt);
            match d
            case NoNodesLeft => run == Run([node], NoNodesException)
            case GiveUp(w2) => run == Run([node], AllFailed(w2.command.failedNodes))
            case SendTo(next, w2) =>
              CanSend(w2, next) && MeasureBelow(w2, w) &&
              var rest := Execute(w2, policy, next, weather, attempt + 1);
              run == Run([node] + rest.sends, rest.outcome)
  {
    ExecuteUnfolds(w, policy, index, weather, attempt);
    MeasureDrops(w, policy, index, weather(attempt).events);
  }

  /** The run that is left after a decision. */
  ghost function RestOf(policy: Policy, weather: nat -> Weather, attempt: nat, d: Decision): Run
    requires d.SendTo? ==> CanSend(d.world, d.index)
  {
    match d
    case NoNodesLeft => Run([], NoNodesException)
    case GiveUp(w2) => Run([], AllFailed(w2.command.failedNodes))
    case SendTo(next, w2) => Execute(w2, policy, next, weather, attempt + 1)
  }

  /** The same for a run given by name. */
  lemma {:induction false} RunAfterDecision(w: World, policy: Policy, index: nat, weather: nat -> Weather,
      attempt: nat, d: Decision, run: Run)
    requires DecidedAfter(w, policy, index, weather, attempt, d)
    requires run == Execute(w, policy, index, weather, attempt)
    ensures d.SendTo? ==> CanSend(d.world, d.index) && MeasureBelow(d.world, w)
    ensures var rest := RestOf(policy, weather, attempt, d);
            run == Run([w.selector.Nodes()[index]] + rest.sends, rest.outcome)
  {
    DecisionDeterminesRun(w, policy, index, weather, attempt, d);
  }

  lemma {:induction false} AnsweredRun(w: World, policy: Policy, index: nat, weather: nat -> Weather, attempt: nat,
      run: Run)
    requires CanSend(w, index) && weather(attempt).answered
    requires run == Execute(w, policy, index, weather, attempt)
    ensures run == Run([w.selector.Nodes()[index]], Answered)
  {
    ExecuteUnfolds(w, policy, index, weather, attempt);
  }

  // ---------------------------------------------------------------------------------
  // Any weather

  function TotalNodes(updates: seq<Update>): nat {
    if updates == [] then 0 else |updates[0].topology.nodes| + TotalNodes(updates[1..])
  }

  /** Sends still allowed: one per untried node, or one per node after the pending reset of
      `failedNodes`, and one per node of each topology that is still to come. */
  function Budget(w: World): nat {
    (if Stale(w) == 1 then |w.selector.Nodes()| + 1 else |Untried(w)|) + TotalNodes(w.pending)
  }

  lemma {:induction false} IdsCount(nodes: seq<ServerNode>)
    ensures |Ids(nodes)| <= |nodes|
  {
    if nodes != [] {
      var last := |nodes| - 1;
      IdsCount(nodes[..last]);
      assert Ids(nodes) == Ids(nodes[..last]) + {nodes[last].identity};
    }
  }

  lemma {:induction false} UntriedCount(w: World)
    ensures |Untried(w)| <= |w.selector.Nodes()|
  {
    IdsCount(w.selector.Nodes());
    SubsetCount(Untried(w), Ids(w.selector.Nodes()));
  }

  lemma {:induction false} SubsetCount(a: set<nat>, b: set<nat>)
    requires a <= b
    ensures |a| <= |b|
    ensures a < b ==> |a| < |b|
  {
    if a != {} {
      var x :| x in a;
      SubsetCount(a - {x}, b - {x});
    }
  }

  /** Events either leave the topology alone, or use up at least as many nodes of the
      topologies to come as the one in force afterwards has. */
  lemma {:induction false} EventsSpendBudget(w: World, events: seq<Event>)
    requires w.Valid()
    ensures var w' := HappenAll(w, events);
            && TotalNodes(w'.pending) <= TotalNodes(w.pending)
            && (w'.selector.topology == w.selector.topology
                || |w'.selector.Nodes()| + TotalNodes(w'.pending) <= TotalNodes(w.pending))
    decreases |events|
  {
    if events != [] {
      EventsSpendBudget(Happen(w, events[0]), events[1..]);
    }
  }

  /** Failover ends whatever the environment does, and within this many sends. */
  lemma {:induction false} SendsAreBounded(w: World, policy: Policy, index: nat, weather: nat -> Weather, attempt: nat)
    requires CanSend(w, index)
    ensures |Execute(w, policy, index, weather, attempt).sends| <= Budget(w)
    decreases |w.pending|, Stale(w), Untried(w)
  {
    var node := w.selector.Nodes()[index];
    var events := weather(attempt).events;
    var w1 := HappenAll(RecordEtag(w), events);
    assert node.identity in Untried(w);
    MeasureDrops(w, policy, index, events);
    EventsSpendBudget(RecordEtag(w), events);
    if !weather(attempt).answered {
      match HandleServerDown(w1, policy, node, index)
      case SendTo(next, w2) =>
        SendsAreBounded(w2, policy, next, weather, attempt + 1);
        DecisionKeepsWorld(w1, policy, node, index);
        UntriedCount(w2);
        if w1.selector.topology == w.selector.topology && Stale(w) == 0 {
          assert w1.EtagRecorded();
          SubsetCount(Untried(w2), Untried(w));
        }
      case _ =>
    }
  }

  /** While the topology stands, no node is sent to twice, even when health checks restore
      nodes between the attempts. */
  lemma {:induction false} NoNodeTwice(w: World, policy: Policy, index: nat, weather: nat -> Weather, attempt: nat)
    requires CanSend(w, index) && w.pending == [] && Stale(w) == 0
    ensures var sends := Execute(w, policy, index, weather, attempt).sends;
            && Distinct(sends)
            && (forall k | 0 <= k < |sends| ::
                  sends[k] in w.selector.Nodes() && sends[k].identity !in w.command.failedNodes)
    decreases Untried(w)
  {
    var node := w.selector.Nodes()[index];
    var events := weather(attempt).events;
    var w1 := HappenAll(RecordEtag(w), events);
    MeasureDrops(w, policy, index, events);
    if !weather(attempt).answered {
      match HandleServerDown(w1, policy, node, index)
      case SendTo(next, w2) =>
        DecisionKeepsWorld(w1, policy, node, index);
        assert w1.EtagRecorded();
        NoNodeTwice(w2, policy, next, weather, attempt + 1);
      case _ =>
    }
  }

  /** Giving up always has a failure to report. */
  lemma {:induction false} GivesUpWithAReason(w: World, policy: Policy, index: nat, weather: nat -> Weather,
      attempt: nat)
    requires CanSend(w, index)
    ensures var outcome := Execute(w, policy, index, weather, attempt).outcome;
            outcome.AllFailed? ==> outcome.failedNodes != {}
    decreases |w.pending|, Stale(w), Untried(w)
  {
    var node := w.selector.Nodes()[index];
    var w1 := HappenAll(RecordEtag(w), weather(attempt).events);
    MeasureDrops(w, policy, index, weather(attempt).events);
    DecisionKeepsWorld(w1, policy, node, index);
    if !weather(attempt).answered {
      match HandleServerDown(w1, policy, node, index)
      case SendTo(next, w2) => GivesUpWithAReason(w2, policy, next, weather, attempt + 1);
      case _ =>
    }
  }

  // ---------------------------------------------------------------------------------
  // Calm weather: every send fails and nothing else happens

  ghost predicate Calm(weather: nat -> Weather) {
    forall k :: weather(k) == Weather([], false)
  }

  /** The places in [lo, hi) of members, or of the other nodes. */
  function Places(nodes: seq<ServerNode>, lo: nat, hi: nat, member: bool): seq<nat>
    requires lo <= hi <= |nodes|
    decreases hi - lo
  {
    if lo == hi then []
    else (if nodes[lo].role.Member? == member then [lo] else []) + Places(nodes, lo + 1, hi, member)
  }

  function Without(p: seq<nat>, x: nat): seq<nat>
  {
    if p == [] then [] else (if p[0] == x then [] else [p[0]]) + Without(p[1..], x)
  }

  /** The fixed order in which a policy prefers the places of a topology. */
  function Priority(policy: Policy, nodes: seq<ServerNode>, fastest: nat): seq<nat> {
    var n := |nodes|;
    var members, others := Places(nodes, 0, n, true), Places(nodes, 0, n, false);
    match policy
    case Preferred => members + others
    case Session(id) =>
      if n == 0 then []
      else
        var start := SessionStart(id, n);
        Places(nodes, start, n, true) + Places(nodes, 0, start, true) + others
    case Fastest =>
      if fastest < n && nodes[fastest].role.Member? then [fastest] + Without(members, fastest) + others
      else members + others
  }

  predicate NoFailures(failures: seq<nat>, i: nat) {
    i < |failures| && failures[i] == 0
  }

  /** The places without failures, in the order given. */
  function UpOnly(p: seq<nat>, failures: seq<nat>): seq<nat>
  {
    if p == [] then []
    else (if NoFailures(failures, p[0]) then [p[0]] else []) + UpOnly(p[1..], failures)
  }

  function Order(policy: Policy, s: Selector): seq<nat>
    requires s.Valid()
  {
    UpOnly(Priority(policy, s.Nodes(), s.fastest), s.failures)
  }

  lemma {:induction false} PlacesMembership(nodes: seq<ServerNode>, lo: nat, hi: nat, member: bool)
    requires lo <= hi <= |nodes|
    ensures forall i :: i in Places(nodes, lo, hi, member) <==> lo <= i < hi && nodes[i].role.Member? == member
    decreases hi - lo
  {
    if lo < hi {
      PlacesMembership(nodes, lo + 1, hi, member);
    }
  }

  lemma {:induction false} WithoutMembership(p: seq<nat>, x: nat)
    ensures forall i :: i in Without(p, x) <==> i in p && i != x
  {
    if p != [] {
      WithoutMembership(p[1..], x);
    }
  }

  lemma {:induction false} UpOnlyMembership(p: seq<nat>, failures: seq<nat>)
    ensures forall i :: i in UpOnly(p, failures) <==> i in p && NoFailures(failures, i)
  {
    if p != [] {
      UpOnlyMembership(p[1..], failures);
    }
  }

  ghost predicate NoRepeats(p: seq<nat>) {
    forall j, k | 0 <= j < k < |p| :: p[j] != p[k]
  }

  lemma {:induction false} UpOnlyCons(x: nat, p: seq<nat>, failures: seq<nat>)
    ensures UpOnly([x] + p, failures) == (if NoFailures(failures, x) then [x] else []) + UpOnly(p, failures)
  {
    assert ([x] + p)[1..] == p;
  }

  lemma {:induction false} Assoc(a: seq<nat>, b: seq<nat>, c: seq<nat>)
    ensures a + (b + c) == a + b + c
  {
  }

  lemma {:induction false} UpOnlyConcat(p: seq<nat>, q: seq<nat>, failures: seq<nat>)
    ensures UpOnly(p + q, failures) == UpOnly(p, failures) + UpOnly(q, failures)
  {
    if p == [] {
      assert p + q == q;
    } else {
      var head := if NoFailures(failures, p[0]) then [p[0]] else [];
      assert p == [p[0]] + p[1..];
      Assoc([p[0]], p[1..], q);
      UpOnlyCons(p[0], p[1..] + q, failures);
      UpOnlyCons(p[0], p[1..], failures);
      UpOnlyConcat(p[1..], q, failures);
      Assoc(head, UpOnly(p[1..], failures), UpOnly(q, failures));
    }
  }

  lemma {:induction false} UpOnlyNoRepeats(p: seq<nat>, failures: seq<nat>)
    requires NoRepeats(p)
    ensures NoRepeats(UpOnly(p, failures))
  {
    if p != [] {
      UpOnlyNoRepeats(p[1..], failures);
      UpOnlyMembership(p[1..], failures);
      var rest := UpOnly(p[1..], failures);
      forall k | 0 <= k < |rest| ensures rest[k] != p[0] {
        assert rest[k] in p[1..];
      }
    }
  }

  /** A failure outside the list changes nothing in it. */
  lemma {:induction false} UpOnlyElsewhere(p: seq<nat>, failures: seq<nat>, i: nat)
    requires i < |failures| && (i !in p || failures[i] != 0)
    ensures UpOnly(p, failures[i := failures[i] + 1]) == UpOnly(p, failures)
  {
    if p != [] {
      UpOnlyElsewhere(p[1..], failures, i);
    }
  }

  /** A failure of the head removes the head. */
  lemma {:induction false} UpOnlyAfterHead(p: seq<nat>, failures: seq<nat>)
    requires NoRepeats(p) && UpOnly(p, failures) != []
    ensures var i := UpOnly(p, failures)[0];
            NoFailures(failures, i) && UpOnly(p, failures[i := failures[i] + 1]) == UpOnly(p, failures)[1..]
  {
    if NoFailures(failures, p[0]) {
      UpOnlyElsewhere(p[1..], failures, p[0]);
    } else {
      UpOnlyAfterHead(p[1..], failures);
    }
  }

  lemma {:induction false} UpOnlyWithout(p: seq<nat>, failures: seq<nat>, x: nat)
    requires x < |failures| && failures[x] != 0
    ensures UpOnly(Without(p, x), failures) == UpOnly(p, failures)
  {
    if p != [] {
      UpOnlyWithout(p[1..], failures, x);
      UpOnlyCons(p[0], Without(p[1..], x), failures);
      assert p[0] == x ==> Without(p, x) == Without(p[1..], x);
      assert p[0] != x ==> Without(p, x) == [p[0]] + Without(p[1..], x);
    }
  }

  lemma {:induction false} PlacesSplit(nodes: seq<ServerNode>, lo: nat, mid: nat, hi: nat)
    requires lo <= mid <= hi <= |nodes|
    ensures Places(nodes, lo, hi, true) == Places(nodes, lo, mid, true) + Places(nodes, mid, hi, true)
    decreases mid - lo
  {
    if lo < mid {
      PlacesSplit(nodes, lo + 1, mid, hi);
    }
  }

  lemma {:induction false} PlacesNoRepeats(nodes: seq<ServerNode>, lo: nat, hi: nat, member: bool)
    requires lo <= hi <= |nodes|
    ensures NoRepeats(Places(nodes, lo, hi, member))
    decreases hi - lo
  {
    if lo < hi {
      PlacesNoRepeats(nodes, lo + 1, hi, member);
      PlacesMembership(nodes, lo + 1, hi, member);
      var rest := Places(nodes, lo + 1, hi, member);
      forall k | 0 <= k < |rest| ensures lo != rest[k] {
        assert rest[k] in rest;
      }
    }
  }

  lemma {:induction false} WithoutNoRepeats(p: seq<nat>, x: nat)
    requires NoRepeats(p)
    ensures NoRepeats(Without(p, x))
  {
    if p != [] {
      WithoutNoRepeats(p[1..], x);
      WithoutMembership(p[1..], x);
      var rest := Without(p[1..], x);
      forall k | 0 <= k < |rest| ensures rest[k] != p[0] {
        assert rest[k] in p[1..];
      }
    }
  }

  lemma {:induction false} NoRepeatsConcat(a: seq<nat>, b: seq<nat>)
    requires NoRepeats(a) && NoRepeats(b)
    requires forall x | x in a :: x !in b
    ensures NoRepeats(a + b)
  {
    forall j, k | 0 <= j < k < |a + b| ensures (a + b)[j] != (a + b)[k] {
      if j < |a| && k >= |a| {
        assert a[j] in a && b[k - |a|] in b;
      }
    }
  }

  /** Each policy ranks every place of the topology exactly once. */
  lemma {:induction false} PriorityIsPermutation(policy: Policy, nodes: seq<ServerNode>, fastest: nat)
    ensures forall i :: i in Priority(policy, nodes, fastest) <==> 0 <= i < |nodes|
    ensures NoRepeats(Priority(policy, nodes, fastest))
  {
    var n := |nodes|;
    var members, others := Places(nodes, 0, n, true), Places(nodes, 0, n, false);
    PlacesNoRepeats(nodes, 0, n, true);
    PlacesNoRepeats(nodes, 0, n, false);
    PlacesMembership(nodes, 0, n, true);
    PlacesMembership(nodes, 0, n, false);
    NoRepeatsConcat(members, others);
    match policy
    case Preferred =>
    case Session(id) =>
      if n > 0 {
        var start := SessionStart(id, n);
        var a, b := Places(nodes, start, n, true), Places(nodes, 0, start, true);
        PlacesNoRepeats(nodes, start, n, true);
        PlacesNoRepeats(nodes, 0, start, true);
        PlacesMembership(nodes, start, n, true);
        PlacesMembership(nodes, 0, start, true);
        NoRepeatsConcat(a, b);
        NoRepeatsConcat(a + b, others);
      }
    case Fastest =>
      if fastest < n && nodes[fastest].role.Member? {
        WithoutNoRepeats(members, fastest);
        WithoutMembership(members, fastest);
        NoRepeatsConcat([fastest], Without(members, fastest));
        NoRepeatsConcat([fastest] + Without(members, fastest), others);
      }
  }

  /** The order lists every node that is up, and no other, once each. */
  lemma {:induction false} OrderIsUpNodes(policy: Policy, s: Selector)
    requires s.Valid()
    ensures forall i :: i in Order(policy, s) <==> 0 <= i && s.Up(i)
    ensures NoRepeats(Order(policy, s))
  {
    PriorityIsPermutation(policy, s.Nodes(), s.fastest);
    UpOnlyNoRepeats(Priority(policy, s.Nodes(), s.fastest), s.failures);
    UpOnlyMembership(Priority(policy, s.Nodes(), s.fastest), s.failures);
  }

  lemma {:induction false} OrderShrinks(policy: Policy, s: Selector)
    requires s.Valid() && Order(policy, s) != []
    ensures Order(policy, s)[0] < |s.failures| && s.failures[Order(policy, s)[0]] == 0
    ensures Order(policy, OnFailedRequest(s, Order(policy, s)[0])) == Order(policy, s)[1..]
  {
    var p := Priority(policy, s.Nodes(), s.fastest);
    PriorityIsPermutation(policy, s.Nodes(), s.fastest);
    UpOnlyAfterHead(p, s.failures);
    var i := UpOnly(p, s.failures)[0];
    assert NoFailures(s.failures, i);
    var s' := OnFailedRequest(s, i);
    assert s'.failures == s.failures[i := s.failures[i] + 1];
    assert Order(policy, s') == UpOnly(p, s'.failures);
  }

  /** The up places from `lo` on, with `lo` itself made explicit. */
  lemma {:induction false} PlacesCons(nodes: seq<ServerNode>, lo: nat, hi: nat, failures: seq<nat>, member: bool)
    requires lo < hi <= |nodes|
    ensures UpOnly(Places(nodes, lo, hi, member), failures)
            == (if NoFailures(failures, lo) && nodes[lo].role.Member? == member then [lo] else [])
               + UpOnly(Places(nodes, lo + 1, hi, member), failures)
  {
    var rest := Places(nodes, lo + 1, hi, member);
    UpOnlyCons(lo, rest, failures);
    if nodes[lo].role.Member? == member {
      assert Places(nodes, lo, hi, member) == [lo] + rest;
    } else {
      assert Places(nodes, lo, hi, member) == rest;
    }
  }

  /** The first member that is up, read off the list of members that are up. */
  lemma {:induction false} FirstUpIsHead(s: Selector, lo: nat, hi: nat)
    requires s.Valid() && lo <= hi <= |s.failures|
    ensures FirstUp(s, lo, hi, true) == HeadOr(UpOnly(Places(s.Nodes(), lo, hi, true), s.failures), hi)
    decreases hi - lo
  {
    if lo < hi {
      PlacesCons(s.Nodes(), lo, hi, s.failures, true);
      FirstUpIsHead(s, lo + 1, hi);
    }
  }

  function HeadOr(p: seq<nat>, otherwise: nat): nat {
    if p == [] then otherwise else p[0]
  }

  lemma {:induction false} FirstUpOtherIsHead(s: Selector, lo: nat, hi: nat)
    requires s.Valid() && lo <= hi <= |s.failures|
    requires UpOnly(Places(s.Nodes(), lo, hi, true), s.failures) == []
    ensures FirstUp(s, lo, hi, false) == HeadOr(UpOnly(Places(s.Nodes(), lo, hi, false), s.failures), hi)
    decreases hi - lo
  {
    if lo < hi {
      PlacesCons(s.Nodes(), lo, hi, s.failures, true);
      PlacesCons(s.Nodes(), lo, hi, s.failures, false);
      FirstUpOtherIsHead(s, lo + 1, hi);
    }
  }

  /** What the order depends on. */
  ghost predicate SameView(s: Selector, s': Selector) {
    s.topology == s'.topology && s.failures == s'.failures && s.fastest == s'.fastest
  }

  /** Choosing from an order: its head, or the round-robin place when nothing is up. */
  ghost predicate Follows(order: seq<nat>, s: Selector, choice: Choice) {
    match choice
    case NoNodes => s.Nodes() == []
    case Chosen(i, s') =>
      && s'.Valid() && SameView(s, s') && i < |s.Nodes()|
      && (if order != [] then i == order[0] && s'.roundRobin == s.roundRobin
          else i == s.roundRobin && s'.roundRobin == (s.roundRobin + 1) % |s.Nodes()|)
  }

  /** The order of the preferred policy: members that are up, then other nodes that are up. */
  lemma {:induction false} PreferredOrder(s: Selector)
    requires s.Valid()
    ensures Order(Preferred, s) == UpOnly(Places(s.Nodes(), 0, |s.failures|, true), s.failures)
                                   + UpOnly(Places(s.Nodes(), 0, |s.failures|, false), s.failures)
  {
    UpOnlyConcat(Places(s.Nodes(), 0, |s.failures|, true), Places(s.Nodes(), 0, |s.failures|, false), s.failures);
  }

  /** No member is up: the first other node that is up, or the round-robin place. */
  lemma {:induction false} FallbackFollowsOrder(s: Selector)
    requires s.Valid() && UpOnly(Places(s.Nodes(), 0, |s.failures|, true), s.failures) == []
    ensures FirstUp(s, 0, |s.failures|, true) == |s.failures|
    ensures var others := UpOnly(Places(s.Nodes(), 0, |s.failures|, false), s.failures);
            FirstUp(s, 0, |s.failures|, false) == HeadOr(others, |s.failures|)
    ensures Order(Preferred, s) == UpOnly(Places(s.Nodes(), 0, |s.failures|, false), s.failures)
  {
    FirstUpIsHead(s, 0, |s.failures|);
    FirstUpOtherIsHead(s, 0, |s.failures|);
    PreferredOrder(s);
  }

  lemma {:induction false} PreferredFollowsOrder(s: Selector)
    requires s.Valid()
    ensures Follows(Order(Preferred, s), s, ChoosePreferred(s))
  {
    var n, order := |s.failures|, Order(Preferred, s);
    var members := UpOnly(Places(s.Nodes(), 0, n, true), s.failures);
    if members == [] {
      FallbackFollowsOrder(s);
      OrderIsUpNodes(Preferred, s);
      assert order != [] ==> order[0] in order;
    } else {
      PreferredOrder(s);
      FirstUpIsHead(s, 0, n);
      OrderIsUpNodes(Preferred, s);
      assert order[0] in order && order[0] == members[0];
    }
  }

  /** The order of the session policy: members from the session's place on, members before it, other nodes. */
  lemma {:induction false} SessionOrder(s: Selector, id: int)
    requires s.Valid() && |s.failures| > 0
    ensures var start := SessionStart(id, |s.failures|);
            Order(Session(id), s) == UpOnly(Places(s.Nodes(), start, |s.failures|, true), s.failures)
                                     + UpOnly(Places(s.Nodes(), 0, start, true), s.failures)
                                     + UpOnly(Places(s.Nodes(), 0, |s.failures|, false), s.failures)
  {
    var n := |s.failures|;
    var start := SessionStart(id, n);
    var a, b, others := Places(s.Nodes(), start, n, true), Places(s.Nodes(), 0, start, true),
        Places(s.Nodes(), 0, n, false);
    UpOnlyConcat(a, b, s.failures);
    UpOnlyConcat(a + b, others, s.failures);
  }

  lemma {:induction false} SessionFollowsOrder(s: Selector, id: int)
    requires s.Valid()
    ensures Follows(Order(Session(id), s), s, ChooseBySession(s, id))
  {
    var n := |s.failures|;
    if n > 0 {
      var start := SessionStart(id, n);
      SessionOrder(s, id);
      FirstUpIsHead(s, start, n);
      FirstUpIsHead(s, 0, start);
      var a, b := UpOnly(Places(s.Nodes(), start, n, true), s.failures),
          UpOnly(Places(s.Nodes(), 0, start, true), s.failures);
      UpOnlyMembership(Places(s.Nodes(), start, n, true), s.failures);
      UpOnlyMembership(Places(s.Nodes(), 0, start, true), s.failures);
      PlacesMembership(s.Nodes(), start, n, true);
      PlacesMembership(s.Nodes(), 0, start, true);
      if a != [] {
        assert a[0] in a;
      } else if b != [] {
        assert b[0] in b;
      } else {
        PlacesSplit(s.Nodes(), 0, start, n);
        UpOnlyConcat(Places(s.Nodes(), 0, start, true), Places(s.Nodes(), start, n, true), s.failures);
        PreferredOrder(s);
        PreferredFollowsOrder(s);
        assert Order(Session(id), s) == Order(Preferred, s);
        assert ChooseBySession(s, id) == ChoosePreferred(s);
      }
    }
  }

  /** When the fastest node is down it does not matter that it ranks first. */
  lemma {:induction false} FastestDownOrder(s: Selector)
    requires s.Valid() && !s.UpMember(s.fastest)
    ensures Order(Fastest, s) == Order(Preferred, s)
  {
    var n, f := |s.failures|, s.fastest;
    if f < n && s.Nodes()[f].role.Member? {
      var members, others := Places(s.Nodes(), 0, n, true), Places(s.Nodes(), 0, n, false);
      UpOnlyConcat([f] + Without(members, f), others, s.failures);
      UpOnlyCons(f, Without(members, f), s.failures);
      UpOnlyWithout(members, s.failures, f);
      PreferredOrder(s);
    }
  }

  lemma {:induction false} FastestUpOrder(s: Selector)
    requires s.Valid() && s.UpMember(s.fastest)
    ensures Order(Fastest, s) != [] && Order(Fastest, s)[0] == s.fastest
  {
    var n, f := |s.failures|, s.fastest;
    var members, others := Places(s.Nodes(), 0, n, true), Places(s.Nodes(), 0, n, false);
    assert [f] + Without(members, f) + others == [f] + (Without(members, f) + others);
    UpOnlyCons(f, Without(members, f) + others, s.failures);
  }

  lemma {:induction false} FollowsFromSameView(order: seq<nat>, s: Selector, s': Selector, choice: Choice)
    requires SameView(s, s') && s.roundRobin == s'.roundRobin
    requires Follows(order, s', choice)
    ensures Follows(order, s, choice)
  {
  }

  /** Going back to testing does not change what the preferred policy does. */
  lemma {:induction false} FastestDownFollowsOrder(s: Selector)
    requires s.Valid() && !s.UpMember(s.fastest)
    ensures Follows(Order(Preferred, s), s, ChooseFastest(s))
  {
    var s' := ScheduleSpeedTest(s);
    PreferredOrder(s);
    PreferredOrder(s');
    PreferredFollowsOrder(s');
    FollowsFromSameView(Order(Preferred, s'), s, s', ChoosePreferred(s'));
  }

  lemma {:induction false} FastestFollowsOrder(s: Selector)
    requires s.Valid()
    ensures Follows(Order(Fastest, s), s, ChooseFastest(s))
  {
    if s.UpMember(s.fastest) {
      FastestUpOrder(s);
    } else {
      FastestDownOrder(s);
      FastestDownFollowsOrder(s);
    }
  }

  lemma {:induction false} ChoiceFollowsOrder(policy: Policy, s: Selector)
    requires s.Valid()
    ensures Follows(Order(policy, s), s, Choose(policy, s))
  {
    match policy
    case Preferred => PreferredFollowsOrder(s);
    case Session(id) => SessionFollowsOrder(s, id);
    case Fastest => FastestFollowsOrder(s);
  }

  // ---------------------------------------------------------------------------------
  // A run in calm weather

  function NodesAt(nodes: seq<ServerNode>, order: seq<nat>): (r: seq<ServerNode>)
    requires forall k | 0 <= k < |order| :: order[k] < |nodes|
    ensures |r| == |order| && forall k | 0 <= k < |order| :: r[k] == nodes[order[k]]
  {
    seq(|order|, k requires 0 <= k < |order| => nodes[order[k]])
  }

  lemma {:induction false} OrderInRange(policy: Policy, s: Selector)
    requires s.Valid()
    ensures forall k | 0 <= k < |Order(policy, s)| :: Order(policy, s)[k] < |s.Nodes()|
  {
    OrderIsUpNodes(policy, s);
    forall k | 0 <= k < |Order(policy, s)| ensures Order(policy, s)[k] < |s.Nodes()| {
      assert Order(policy, s)[k] in Order(policy, s);
    }
  }

  function OrderedNodes(policy: Policy, s: Selector): seq<ServerNode>
    requires s.Valid()
  {
    OrderInRange(policy, s);
    NodesAt(s.Nodes(), Order(policy, s))
  }

  /** `failedNodes` holds exactly the nodes with failures, except the one at `missing`, if any. */
  ghost predicate InStep(w: World, missing: Option<nat>) {
    && w.Valid()
    && (missing.Some? ==> missing.value < |w.selector.failures| && w.selector.failures[missing.value] > 0)
    && forall j | 0 <= j < |w.selector.failures| ::
         w.selector.Nodes()[j].identity in w.command.failedNodes
         <==> w.selector.failures[j] > 0 && missing != Some(j)
  }

  /** The repeated send to the node that dropped out of `failedNodes`. */
  function Repeat(s: Selector, missing: Option<nat>): seq<ServerNode> {
    if missing.Some? && missing.value < |s.Nodes()| && missing.value == s.roundRobin
    then [s.Nodes()[missing.value]] else []
  }

  lemma {:induction false} FailureStaysInStep(w: World, missing: Option<nat>, policy: Policy, index: nat)
    requires CanSend(w, index) && InStep(w, missing) && w.EtagRecorded()
    ensures var node := w.selector.Nodes()[index];
            var missing' := if missing == Some(index) then None else missing;
            match HandleServerDown(w, policy, node, index)
            case NoNodesLeft => false
            case GiveUp(w') => InStep(w', missing')
            case SendTo(_, w') => InStep(w', missing')
  {
    ChoiceIsInTopology(policy, OnFailedRequest(w.selector, index));
  }

  /** Two or more nodes up: the failure of the head leads to the next one. */
  lemma {:induction false} DecisionGoesOn(w: World, missing: Option<nat>, policy: Policy)
    requires InStep(w, missing) && w.EtagRecorded() && |Order(policy, w.selector)| > 1
    requires CanSend(w, Order(policy, w.selector)[0])
    ensures var order := Order(policy, w.selector);
            var d := HandleServerDown(w, policy, w.selector.Nodes()[order[0]], order[0]);
            && d.SendTo? && d.index == order[1] && InStep(d.world, missing)
            && d.world.EtagRecorded() && d.world.pending == w.pending
            && d.world.selector.topology == w.selector.topology && d.world.selector.roundRobin == w.selector.roundRobin
            && Order(policy, d.world.selector) == order[1..]
  {
    var index := Order(policy, w.selector)[0];
    var s1 := OnFailedRequest(w.selector, index);
    OrderShrinks(policy, w.selector);
    OrderShrinks(policy, s1);
    ChoiceFollowsOrder(policy, s1);
    FailureStaysInStep(w, missing, policy, index);
    DecisionKeepsWorld(w, policy, w.selector.Nodes()[index], index);
  }

  /** Nothing is left up after this failure: the run ends, or repeats the missing node. */
  lemma {:induction false} DecisionAtTheEnd(w: World, missing: Option<nat>, policy: Policy, index: nat)
    requires InStep(w, missing) && w.EtagRecorded() && CanSend(w, index)
    requires Order(policy, OnFailedRequest(w.selector, index)) == []
    ensures var d := HandleServerDown(w, policy, w.selector.Nodes()[index], index);
            var missing' := if missing == Some(index) then None else missing;
            if missing' == Some(w.selector.roundRobin) then
              && d.SendTo? && d.index == w.selector.roundRobin && InStep(d.world, missing')
              && d.world.EtagRecorded() && d.world.pending == w.pending
              && d.world.selector.topology == w.selector.topology
              && Order(policy, d.world.selector) == []
            else
              && d.GiveUp?
              && d.world.command.failedNodes == w.command.failedNodes + {w.selector.Nodes()[index].identity}
  {
    var s1 := OnFailedRequest(w.selector, index);
    AllHaveFailed(policy, s1);
    ChoiceFollowsOrder(policy, s1);
    FailureStaysInStep(w, missing, policy, index);
    DecisionKeepsWorld(w, policy, w.selector.Nodes()[index], index);
  }

  lemma {:induction false} AllHaveFailed(policy: Policy, s: Selector)
    requires s.Valid() && Order(policy, s) == []
    ensures forall j | 0 <= j < |s.failures| :: s.failures[j] > 0
  {
    OrderIsUpNodes(policy, s);
    forall j | 0 <= j < |s.failures| ensures s.failures[j] > 0 {
      assert !(j in Order(policy, s));
    }
  }

  /** A second failure of a node changes nothing when every node has failed already. */
  lemma {:induction false} StillAllFailed(policy: Policy, s: Selector, index: nat)
    requires s.Valid() && Order(policy, s) == [] && index < |s.failures|
    ensures Order(policy, OnFailedRequest(s, index)) == []
  {
    AllHaveFailed(policy, s);
    var p := Priority(policy, s.Nodes(), s.fastest);
    UpOnlyElsewhere(p, s.failures, index);
    var s' := OnFailedRequest(s, index);
    assert s'.failures == s.failures[index := s.failures[index] + 1];
    assert Order(policy, s') == UpOnly(p, s'.failures);
  }

  /** One send in calm weather. */
  lemma {:induction false} CalmSend(w: World, policy: Policy, index: nat, weather: nat -> Weather, attempt: nat)
    requires CanSend(w, index) && Calm(weather)
    ensures FailedSend(RecordEtag(w), w.selector.Nodes()[index], index, policy, weather, attempt,
                       Execute(w, policy, index, weather, attempt))
  {
    assert weather(attempt).events == [];
    MeasureDrops(w, policy, index, []);
  }

  /** With every node failing, the last round: the missing node at the round-robin place. */
  lemma {:induction false} LastRound(w: World, policy: Policy, index: nat, weather: nat -> Weather, attempt: nat)
    requires CanSend(w, index) && InStep(w, Some(index)) && w.EtagRecorded() && Calm(weather)
    requires Order(policy, w.selector) == []
    ensures var run := Execute(w, policy, index, weather, attempt);
            run.sends == [w.selector.Nodes()[index]] && run.outcome.AllFailed?
  {
    StillAllFailed(policy, w.selector, index);
    assert RecordEtag(w) == w;
    DecisionAtTheEnd(w, Some(index), policy, index);
    CalmSend(w, policy, index, weather, attempt);
  }

  lemma {:induction false} HeadCanBeSentTo(w: World, missing: Option<nat>, policy: Policy)
    requires InStep(w, missing) && Order(policy, w.selector) != []
    ensures CanSend(w, Order(policy, w.selector)[0])
  {
    OrderShrinks(policy, w.selector);
  }

  lemma {:induction false} CalmHead(w: World, missing: Option<nat>, policy: Policy, weather: nat -> Weather,
      attempt: nat, run: Run)
      returns (w': World, rest: Run)
    requires InStep(w, missing) && w.EtagRecorded() && Calm(weather) && |Order(policy, w.selector)| > 1
    requires RunsAs(w, policy, weather, attempt, run)
    ensures InStep(w', missing) && w'.EtagRecorded()
    ensures w'.selector.topology == w.selector.topology && w'.selector.roundRobin == w.selector.roundRobin
    ensures Order(policy, w'.selector) == Order(policy, w.selector)[1..]
    ensures RunsAs(w', policy, weather, attempt + 1, rest)
    ensures run == Run([w.selector.Nodes()[Order(policy, w.selector)[0]]] + rest.sends, rest.outcome)
  {
    var index := Order(policy, w.selector)[0];
    CalmSend(w, policy, index, weather, attempt);
    assert RecordEtag(w) == w;
    DecisionGoesOn(w, missing, policy);
    w' := HandleServerDown(w, policy, w.selector.Nodes()[index], index).world;
    HeadCanBeSentTo(w', missing, policy);
    rest := Execute(w', policy, Order(policy, w'.selector)[0], weather, attempt + 1);
  }

  /** `run` is the run from `w` on, starting with the head of the policy's order. */
  ghost predicate RunsAs(w: World, policy: Policy, weather: nat -> Weather, attempt: nat, run: Run) {
    && w.Valid() && Order(policy, w.selector) != [] && CanSend(w, Order(policy, w.selector)[0])
    && run == Execute(w, policy, Order(policy, w.selector)[0], weather, attempt)
  }

  lemma {:induction false} CalmTail(w: World, missing: Option<nat>, policy: Policy, weather: nat -> Weather,
      attempt: nat)
    requires InStep(w, missing) && w.EtagRecorded() && Calm(weather) && |Order(policy, w.selector)| == 1
    ensures CanSend(w, Order(policy, w.selector)[0])
    ensures var run := Execute(w, policy, Order(policy, w.selector)[0], weather, attempt);
            && run.sends == [w.selector.Nodes()[Order(policy, w.selector)[0]]] + Repeat(w.selector, missing)
            && run.outcome.AllFailed?
  {
    HeadCanBeSentTo(w, missing, policy);
    var index := Order(policy, w.selector)[0];
    var node := w.selector.Nodes()[index];
    CalmSend(w, policy, index, weather, attempt);
    assert RecordEtag(w) == w;
    OrderShrinks(policy, w.selector);
    DecisionAtTheEnd(w, missing, policy, index);
    if missing == Some(w.selector.roundRobin) {
      LastRound(HandleServerDown(w, policy, node, index).world, policy, w.selector.roundRobin, weather, attempt + 1);
    }
  }

  lemma {:induction false} NodesAtCons(nodes: seq<ServerNode>, order: seq<nat>)
    requires order != [] && forall k | 0 <= k < |order| :: order[k] < |nodes|
    ensures NodesAt(nodes, order) == [nodes[order[0]]] + NodesAt(nodes, order[1..])
  {
  }

  lemma {:induction false} OrderedNodesCons(policy: Policy, s: Selector, s': Selector)
    requires s.Valid() && s'.Valid() && s.topology == s'.topology
    requires Order(policy, s) != [] && Order(policy, s') == Order(policy, s)[1..]
    ensures Order(policy, s)[0] < |s.Nodes()|
    ensures OrderedNodes(policy, s) == [s.Nodes()[Order(policy, s)[0]]] + OrderedNodes(policy, s')
  {
    var order, nodes := Order(policy, s), s.Nodes();
    OrderInRange(policy, s);
    NodesAtCons(nodes, order);
    assert OrderedNodes(policy, s) == NodesAt(nodes, order);
    assert OrderedNodes(policy, s') == NodesAt(nodes, order[1..]);
  }

  /** What is left of a run, in closed form. */
  function Expected(w: World, missing: Option<nat>, policy: Policy): seq<ServerNode>
    requires w.Valid()
  {
    OrderedNodes(policy, w.selector) + Repeat(w.selector, missing)
  }

  lemma {:induction false} ExpectedCons(w: World, w': World, missing: Option<nat>, policy: Policy)
    requires w.Valid() && w'.Valid() && Order(policy, w.selector) != []
    requires w'.selector.topology == w.selector.topology && w'.selector.roundRobin == w.selector.roundRobin
    requires Order(policy, w'.selector) == Order(policy, w.selector)[1..]
    ensures Order(policy, w.selector)[0] < |w.selector.Nodes()|
    ensures Expected(w, missing, policy)
            == [w.selector.Nodes()[Order(policy, w.selector)[0]]] + Expected(w', missing, policy)
  {
    OrderedNodesCons(policy, w.selector, w'.selector);
    assert Repeat(w.selector, missing) == Repeat(w'.selector, missing);
  }

  lemma {:induction false} ExpectedLast(w: World, missing: Option<nat>, policy: Policy)
    requires w.Valid() && |Order(policy, w.selector)| == 1
    ensures Order(policy, w.selector)[0] < |w.selector.Nodes()|
    ensures Expected(w, missing, policy)
            == [w.selector.Nodes()[Order(policy, w.selector)[0]]] + Repeat(w.selector, missing)
  {
    OrderInRange(policy, w.selector);
  }

  lemma {:induction false} CalmLast(w: World, missing: Option<nat>, policy: Policy, weather: nat -> Weather,
      attempt: nat, run: Run)
    requires InStep(w, missing) && w.EtagRecorded() && Calm(weather) && |Order(policy, w.selector)| == 1
    requires RunsAs(w, policy, weather, attempt, run)
    ensures run.sends == Expected(w, missing, policy) && run.outcome.AllFailed?
  {
    CalmTail(w, missing, policy, weather, attempt);
    ExpectedLast(w, missing, policy);
  }

  lemma {:induction false} CalmCons(w: World, w': World, missing: Option<nat>, policy: Policy, run: Run, rest: Run)
    requires w.Valid() && w'.Valid() && Order(policy, w.selector) != []
    requires w'.selector.topology == w.selector.topology && w'.selector.roundRobin == w.selector.roundRobin
    requires Order(policy, w'.selector) == Order(policy, w.selector)[1..]
    requires Order(policy, w.selector)[0] < |w.selector.Nodes()|
    requires run == Run([w.selector.Nodes()[Order(policy, w.selector)[0]]] + rest.sends, rest.outcome)
    requires rest.sends == Expected(w', missing, policy) && rest.outcome.AllFailed?
    ensures run.sends == Expected(w, missing, policy) && run.outcome.AllFailed?
  {
    ExpectedCons(w, w', missing, policy);
  }

  /** The rest of a run follows the order of the nodes that are up, then repeats the missing
      node exactly when the round-robin place points at it. */
  lemma {:induction false} CalmRun(w: World, missing: Option<nat>, policy: Policy, weather: nat -> Weather,
      attempt: nat, run: Run)
    requires InStep(w, missing) && w.EtagRecorded() && Calm(weather)
    requires RunsAs(w, policy, weather, attempt, run)
    ensures run.sends == Expected(w, missing, policy) && run.outcome.AllFailed?
    decreases |Order(policy, w.selector)|
  {
    if |Order(policy, w.selector)| > 1 {
      var w', rest := CalmHead(w, missing, policy, weather, attempt, run);
      CalmRun(w', missing, policy, weather, attempt + 1, rest);
      CalmCons(w, w', missing, policy, run, rest);
    } else {
      CalmLast(w, missing, policy, weather, attempt, run);
    }
  }

  // ---------------------------------------------------------------------------------
  // A fresh command on a healthy cluster

  ghost predicate Healthy(s: Selector) {
    s.Valid() && Distinct(s.Nodes()) && s.Nodes() != [] && s.failures == Zeros(|s.Nodes()|)
  }

  /** A new command right after its first node has been chosen. */
  function Start(s: Selector, policy: Policy): World
    requires s.Valid()
  {
    var chosen := match Choose(policy, s) case NoNodes => s case Chosen(_, s') => s';
    World(chosen, s.topology.etag, NEW_COMMAND, [])
  }

  /** The first node to be tried: the head of the policy's ranking. */
  function First(policy: Policy, s: Selector): nat
    requires s.Valid() && Order(policy, s) != []
  {
    Order(policy, s)[0]
  }

  lemma {:induction false} HealthyOrder(s: Selector, policy: Policy)
    requires Healthy(s)
    ensures Order(policy, s) != [] && First(policy, s) < |s.Nodes()|
    ensures Start(s, policy).Valid() && SameView(s, Start(s, policy).selector)
    ensures Start(s, policy).selector.roundRobin == s.roundRobin
    ensures Choose(policy, s).Chosen? && Choose(policy, s).index == First(policy, s)
    ensures Order(policy, Start(s, policy).selector) == Order(policy, s)
  {
    OrderIsUpNodes(policy, s);
    assert s.Up(0);
    ChoiceFollowsOrder(policy, s);
    OrderInRange(policy, s);
  }

  lemma {:induction false} CalmSendsWithEtag(s: Selector, policy: Policy, weather: nat -> Weather)
    requires Healthy(s) && Calm(weather) && s.topology.etag != 0
    ensures Order(policy, s) != [] && CanSend(Start(s, policy), First(policy, s))
    ensures var run := Execute(Start(s, policy), policy, First(policy, s), weather, 0);
            run.outcome.AllFailed? && run.sends == OrderedNodes(policy, s)
  {
    HealthyOrder(s, policy);
    var w := Start(s, policy);
    var w1 := RecordEtag(w);
    assert OrderedNodes(policy, w1.selector) == OrderedNodes(policy, s);
    CalmRun(w1, None, policy, weather, 0, Execute(w1, policy, First(policy, s), weather, 0));
    CalmSend(w, policy, First(policy, s), weather, 0);
    CalmSend(w1, policy, First(policy, s), weather, 0);
  }

  /** With an etag recorded every send belongs to one topology; without one (etag 0) the
      first failure is forgotten, and that node is tried again if the round-robin place
      points at it when nothing else is left. */
  lemma {:induction false} CalmSends(s: Selector, policy: Policy, weather: nat -> Weather)
    requires Healthy(s) && Calm(weather)
    ensures Order(policy, s) != [] && CanSend(Start(s, policy), First(policy, s))
    ensures var run := Execute(Start(s, policy), policy, First(policy, s), weather, 0);
            && run.outcome.AllFailed?
            && run.sends == OrderedNodes(policy, s)
                            + (if s.topology.etag == 0 && s.roundRobin == First(policy, s)
                                then [s.Nodes()[First(policy, s)]] else [])
  {
    HealthyOrder(s, policy);
    if s.topology.etag != 0 {
      CalmSendsWithEtag(s, policy, weather);
    } else {
      ForgottenFirstFailure(s, policy, weather);
    }
  }

  lemma {:induction false} ForgottenHead(s: Selector, policy: Policy, weather: nat -> Weather) returns (w': World)
    requires Healthy(s) && Calm(weather) && s.topology.etag == 0
    ensures Order(policy, s) != [] && CanSend(Start(s, policy), First(policy, s))
    ensures InStep(w', Some(First(policy, s))) && w'.EtagRecorded()
    ensures w'.selector.topology == s.topology
    ensures Order(policy, w'.selector) == Order(policy, s)[1..]
    ensures if |Order(policy, s)| > 1 then w'.selector.roundRobin == s.roundRobin else |s.Nodes()| == 1
    ensures var next := if |Order(policy, s)| > 1 then Order(policy, s)[1] else First(policy, s);
            && CanSend(w', next)
            && var rest := Execute(w', policy, next, weather, 1);
               Execute(Start(s, policy), policy, First(policy, s), weather, 0)
               == Run([s.Nodes()[First(policy, s)]] + rest.sends, rest.outcome)
  {
    HealthyOrder(s, policy);
    var w, index := Start(s, policy), First(policy, s);
    CalmSend(w, policy, index, weather, 0);
    assert RecordEtag(w) == w && !w.EtagRecorded();
    var s1 := OnFailedRequest(w.selector, index);
    OrderShrinks(policy, w.selector);
    ChoiceFollowsOrder(policy, s1);
    DecisionKeepsWorld(w, policy, s.Nodes()[index], index);
    w' := HandleServerDown(w, policy, s.Nodes()[index], index).world;
    if |Order(policy, s)| == 1 {
      OneNodeOrder(s, policy);
    }
  }

  lemma {:induction false} ForgottenFirstFailure(s: Selector, policy: Policy, weather: nat -> Weather)
    requires Healthy(s) && Calm(weather) && s.topology.etag == 0
    ensures Order(policy, s) != [] && CanSend(Start(s, policy), First(policy, s))
    ensures var run := Execute(Start(s, policy), policy, First(policy, s), weather, 0);
            && run.outcome.AllFailed?
            && run.sends == Expected(Start(s, policy), Some(First(policy, s)), policy)
  {
    var w' := ForgottenHead(s, policy, weather);
    HealthyOrder(s, policy);
    var w, missing := Start(s, policy), Some(First(policy, s));
    if |Order(policy, s)| > 1 {
      CalmRun(w', missing, policy, weather, 1, Execute(w', policy, Order(policy, s)[1], weather, 1));
      ExpectedCons(w, w', missing, policy);
    } else {
      OneNodeOrder(s, policy);
      LastRound(w', policy, First(policy, s), weather, 1);
      ExpectedLast(w, missing, policy);
    }
  }

  /** A healthy cluster with a one-element order has one node. */
  lemma {:induction false} OneNodeOrder(s: Selector, policy: Policy)
    requires Healthy(s) && |Order(policy, s)| == 1
    ensures |s.Nodes()| == 1 && s.roundRobin == 0 && First(policy, s) == 0
  {
    OrderIsUpNodes(policy, s);
    assert s.Up(0);
    if |s.Nodes()| > 1 {
      var order := Order(policy, s);
      assert s.Up(1);
      assert false;
    }
    OrderInRange(policy, s);
  }

  ghost predicate EachNodeOnce(nodes: seq<ServerNode>, sends: seq<ServerNode>) {
    Distinct(sends) && forall node :: node in sends <==> node in nodes
  }

  lemma {:induction false} EveryNodeIsOrdered(s: Selector, policy: Policy)
    requires Healthy(s)
    ensures forall node :: node in OrderedNodes(policy, s) <==> node in s.Nodes()
    ensures Distinct(OrderedNodes(policy, s))
  {
    OrderIsUpNodes(policy, s);
    OrderInRange(policy, s);
    var order, nodes := Order(policy, s), OrderedNodes(policy, s);
    forall node ensures node in nodes <==> node in s.Nodes() {
      if node in s.Nodes() {
        var i :| 0 <= i < |s.Nodes()| && s.Nodes()[i] == node;
        assert s.Up(i);
        var k :| 0 <= k < |order| && order[k] == i;
        assert nodes[k] == node;
      }
    }
  }

  /** In calm weather a fresh command goes to every node of a healthy topology exactly once,
      members first, exactly when the topology has an etag or the round-robin place is not
      the first node tried. */
  lemma {:induction false} EachNodeOnceExactlyWhen(s: Selector, policy: Policy, weather: nat -> Weather)
    requires Healthy(s) && Calm(weather)
    ensures Order(policy, s) != [] && CanSend(Start(s, policy), First(policy, s))
    ensures EachNodeOnce(s.Nodes(), Execute(Start(s, policy), policy, First(policy, s), weather, 0).sends)
            <==> s.topology.etag != 0 || s.roundRobin != First(policy, s)
  {
    CalmSends(s, policy, weather);
    OrderIsUpNodes(policy, s);
    OrderInRange(policy, s);
    var nodes := OrderedNodes(policy, s);
    EveryNodeIsOrdered(s, policy);
    if s.topology.etag == 0 && s.roundRobin == First(policy, s) {
      var sends := nodes + [s.Nodes()[First(policy, s)]];
      assert sends[0] == sends[|sends| - 1];
    } else {
      assert Execute(Start(s, policy), policy, First(policy, s), weather, 0).sends == nodes + [];
    }
  }

  /** Members come before all other nodes, whatever the policy. */
  lemma {:induction false} MembersFirst(policy: Policy, s: Selector, j: nat, k: nat)
    requires s.Valid() && j < k < |Order(policy, s)|
    ensures Order(policy, s)[j] < |s.Nodes()| && Order(policy, s)[k] < |s.Nodes()|
    ensures s.Nodes()[Order(policy, s)[k]].role.Member? ==> s.Nodes()[Order(policy, s)[j]].role.Member?
  {
    OrderInRange(policy, s);
    var n := |s.failures|;
    var others := UpOnly(Places(s.Nodes(), 0, n, false), s.failures);
    var members := MemberPart(policy, s);
    var order := Order(policy, s);
    assert order == members + others;
    UpOnlyMembership(Places(s.Nodes(), 0, n, false), s.failures);
    PlacesMembership(s.Nodes(), 0, n, false);
    if k >= |members| {
      assert others[k - |members|] in others;
    } else {
      assert members[j] in members;
    }
  }

  lemma {:induction false} MemberPart(policy: Policy, s: Selector) returns (members: seq<nat>)
    requires s.Valid()
    ensures Order(policy, s) == members + UpOnly(Places(s.Nodes(), 0, |s.failures|, false), s.failures)
    ensures forall x | x in members :: x < |s.Nodes()| && s.Nodes()[x].role.Member?
  {
    var n := |s.failures|;
    var all, others := Places(s.Nodes(), 0, n, true), Places(s.Nodes(), 0, n, false);
    var part: seq<nat>;
    match policy {
      case Preferred => part := all;
      case Session(id) =>
        if n == 0 {
          part := [];
        } else {
          part := Places(s.Nodes(), SessionStart(id, n), n, true) + Places(s.Nodes(), 0, SessionStart(id, n), true);
        }
      case Fastest =>
        if s.fastest < n && s.Nodes()[s.fastest].role.Member? {
          part := [s.fastest] + Without(all, s.fastest);
        } else {
          part := all;
        }
    }
    assert Priority(policy, s.Nodes(), s.fastest) == part + others;
    PlacesMembership(s.Nodes(), 0, n, true);
    if policy.Session? && n > 0 {
      PlacesMembership(s.Nodes(), SessionStart(policy.id, n), n, true);
      PlacesMembership(s.Nodes(), 0, SessionStart(policy.id, n), true);
    }
    WithoutMembership(all, s.fastest);
    UpOnlyConcat(part, others, s.failures);
    UpOnlyMembership(part, s.failures);
    members := UpOnly(part, s.failures);
  }

  // ---------------------------------------------------------------------------------
  // How a run ends, and what happens meanwhile

  /** How many attempts in a row are not answered before one is, at most so many. */
  function Unanswered(weather: nat -> Weather, attempt: nat, most: nat): nat
    decreases most
  {
    if most == 0 || weather(attempt).answered then 0 else 1 + Unanswered(weather, attempt + 1, most - 1)
  }

  ghost predicate EndsAtTheAnswer(run: Run, first: ServerNode, weather: nat -> Weather, attempt: nat) {
    && run.sends != [] && run.sends[0] == first
    && Unanswered(weather, attempt, |run.sends|)
       == if run.outcome.Answered? then |run.sends| - 1 else |run.sends|
  }

  lemma {:induction false} FailedThenEnds(w1: World, node: ServerNode, index: nat, policy: Policy,
      weather: nat -> Weather, attempt: nat, run: Run)
    requires FailedSend(w1, node, index, policy, weather, attempt, run) && !weather(attempt).answered
    requires match HandleServerDown(w1, policy, node, index)
             case SendTo(next, w2) =>
               EndsAtTheAnswer(Execute(w2, policy, next, weather, attempt + 1), w2.selector.Nodes()[next], weather,
                               attempt + 1)
             case _ => true
    ensures EndsAtTheAnswer(run, node, weather, attempt)
  {
  }

  /** A run starts at the node it was asked for, goes on after every failure, and is answered
      exactly when its last node answers. */
  lemma {:induction false} AnsweredByTheLast(w: World, policy: Policy, index: nat, weather: nat -> Weather,
      attempt: nat)
    requires CanSend(w, index)
    ensures EndsAtTheAnswer(Execute(w, policy, index, weather, attempt), w.selector.Nodes()[index], weather, attempt)
    decreases |w.pending|, Stale(w), Untried(w)
  {
    var node, run := w.selector.Nodes()[index], Execute(w, policy, index, weather, attempt);
    ExecuteUnfolds(w, policy, index, weather, attempt);
    if !weather(attempt).answered {
      var w1 := HappenAll(RecordEtag(w), weather(attempt).events);
      MeasureDrops(w, policy, index, weather(attempt).events);
      match HandleServerDown(w1, policy, node, index) {
        case SendTo(next, w2) => AnsweredByTheLast(w2, policy, next, weather, attempt + 1);
        case _ =>
      }
      FailedThenEnds(w1, node, index, policy, weather, attempt, run);
    }
  }

  /** While the topology stands, what is reported in the end are the nodes that had failed before
      and those of this run. */
  lemma {:induction false} ReportsTheFailed(w: World, policy: Policy, index: nat, weather: nat -> Weather,
      attempt: nat)
    requires CanSend(w, index) && w.pending == [] && Stale(w) == 0
    ensures var run := Execute(w, policy, index, weather, attempt);
            run.outcome.AllFailed? ==> run.outcome.failedNodes == w.command.failedNodes + Ids(run.sends)
    decreases Untried(w)
  {
    var node := w.selector.Nodes()[index];
    var w1 := HappenAll(RecordEtag(w), weather(attempt).events);
    MeasureDrops(w, policy, index, weather(attempt).events);
    assert w1.EtagRecorded();
    if !weather(attempt).answered {
      match HandleServerDown(w1, policy, node, index)
      case SendTo(next, w2) =>
        DecisionKeepsWorld(w1, policy, node, index);
        ReportsTheFailed(w2, policy, next, weather, attempt + 1);
        IdsCons(node, Execute(w2, policy, next, weather, attempt + 1).sends);
      case _ =>
        IdsCons(node, []);
    }
  }

  lemma {:induction false} IdsCons(node: ServerNode, nodes: seq<ServerNode>)
    ensures Ids([node] + nodes) == {node.identity} + Ids(nodes)
  {
    var all := [node] + nodes;
    assert all[0] == node && forall i | 0 <= i < |nodes| :: all[i + 1] == nodes[i];
  }

  /** A health check brings back the one node it is about, a failure of another command takes one
      place out, and a topology that arrives is installed exactly when it is newer or forced; the
      failures count for the nodes of the topology that stands. */
  lemma {:induction false} EventsDoAsTold(w: World, e: Event, k: nat)
    requires w.Valid() && k < |w.selector.Nodes()|
    ensures match e
            case NodeRestored(id) =>
              && Happen(w, e).selector.topology == w.selector.topology
              && (Happen(w, e).selector.Up(k) <==> w.selector.Up(k) || w.selector.Nodes()[k].identity == id)
            case OtherFailure(i) =>
              && Happen(w, e).selector.topology == w.selector.topology
              && (Happen(w, e).selector.Up(k) <==> w.selector.Up(k) && k != i)
            case TopologyArrives => true
  {
  }

  lemma {:induction false} TopologyArrivesExactlyWhen(w: World)
    requires w.Valid()
    ensures var w' := Happen(w, TopologyArrives);
      if w.pending == [] then w' == w
      else
        var update := w.pending[0];
        && w'.pending == w.pending[1..] && w'.etag == w'.selector.topology.etag
        && if update.topology.etag > w.selector.topology.etag || update.force then
             && w'.selector.topology == update.topology
             && forall k: nat | k < |update.topology.nodes| :: w'.selector.Up(k)
           else w'.selector == w.selector
  {
  }

  lemma {:induction false} EventsInOrder(w: World, events: seq<Event>, e: Event)
    requires w.Valid()
    ensures HappenAll(w, events + [e]) == Happen(HappenAll(w, events), e)
    decreases |events|
  {
    var all := events + [e];
    if events == [] {
      assert all[0] == e && all[1..] == [];
    } else {
      assert all[0] == events[0] && all[1..] == events[1..] + [e];
      EventsInOrder(Happen(w, events[0]), events[1..], e);
    }
  }
}
