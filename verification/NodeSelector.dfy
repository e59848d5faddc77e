/** Choosing a cluster node for a request, and electing the fastest one. */
module NodeSelection {
  import opened Numbers
  import opened Wrappers

  // Failure counters, the session and fastest-node policies, and the speed test.

  datatype Role = NoRole | Promotable | Member | Rehab

  /** A node object; two node objects are the same exactly when their identities are. */
  datatype ServerNode = ServerNode(identity: nat, clusterTag: string, role: Role)

  datatype Topology = Topology(etag: int, nodes: seq<ServerNode>)

  /** The selector state; `timer` tells whether the periodic speed-test timer exists. */
  datatype Selector = Selector(
    topology: Topology,
    failures: seq<nat>,
    fastestRecords: seq<nat>,
    fastest: nat,
    speedTestMode: nat,
    roundRobin: nat,
    timer: bool)
  {
    function Nodes(): seq<ServerNode> {
      topology.nodes
    }

    predicate Valid() {
      && |failures| == |topology.nodes|
      && |fastestRecords| == |topology.nodes|
      && (roundRobin < |topology.nodes| || (roundRobin == 0 && topology.nodes == []))
    }

    predicate Up(i: nat) {
      i < |failures| && i < |topology.nodes| && failures[i] == 0
    }

    predicate UpMember(i: nat) {
      Up(i) && topology.nodes[i].role.Member?
    }
  }

  /** The ways in which a command picks a node. */
  datatype Policy = Preferred | Session(id: int) | Fastest

  datatype Choice = NoNodes | Chosen(index: nat, selector: Selector)

  // ---------------------------------------------------------------------------------
  // Choosing

  /** The first node in [lo, hi) that is up (and a member, if asked), or hi. */
  function FirstUp(s: Selector, lo: nat, hi: nat, member: bool): (i: nat)
    requires s.Valid() && lo <= hi <= |s.failures|
    ensures lo <= i <= hi
    ensures i < hi ==> if member then s.UpMember(i) else s.Up(i)
    ensures forall k | lo <= k < i :: if member then !s.UpMember(k) else !s.Up(k)
    decreases hi - lo
  {
    if lo == hi then hi
    else if (if member then s.UpMember(lo) else s.Up(lo)) then lo
    else FirstUp(s, lo + 1, hi, member)
  }

  function ChoosePreferred(s: Selector): Choice
    requires s.Valid()
  {
    var n := |s.failures|;
    var i := FirstUp(s, 0, n, true);
    if i < n then Chosen(i, s)
    else if n == 0 then NoNodes
    else
      var j := FirstUp(s, 0, n, false);
      if j < n then Chosen(j, s)
      else Chosen(s.roundRobin, s.(roundRobin := (s.roundRobin + 1) % n))
  }

  function Abs(a: int): nat {
    if a >= 0 then a else -a
  }

  /** The place that a session id gives: by its size, whatever its sign. */
  function SessionStart(id: int, n: nat): (i: nat)
    requires n > 0
    ensures i < n && i == (if id >= 0 then id else -id) % n
  {
    Abs(Remainder(id, n))
  }

  function ChooseBySession(s: Selector, id: int): Choice
    requires s.Valid()
  {
    var n := |s.failures|;
    if n == 0 then NoNodes
    else
      var start := SessionStart(id, n);
      var i := FirstUp(s, start, n, true);
      if i < n then Chosen(i, s)
      else
        var j := FirstUp(s, 0, start, true);
        if j < start then Chosen(j, s) else ChoosePreferred(s)
  }

  function ChooseFastest(s: Selector): Choice
    requires s.Valid()
  {
    if s.UpMember(s.fastest) then Chosen(s.fastest, s) else ChoosePreferred(ScheduleSpeedTest(s))
  }

  function Choose(policy: Policy, s: Selector): Choice
    requires s.Valid()
  {
    match policy
    case Preferred => ChoosePreferred(s)
    case Session(id) => ChooseBySession(s, id)
    case Fastest => ChooseFastest(s)
  }

  datatype ReadBalance = ReadNone | RoundRobin | FastestNode

  datatype Conventions = Conventions(useSessionContext: bool, readBalance: ReadBalance)

  datatype SessionInfo = SessionInfo(id: int, canUseLoadBalance: bool)

  /** Which policy a command without a selected node tag falls under. */
  function PolicyFor(isRead: bool, conventions: Conventions, session: Option<SessionInfo>): Policy {
    if conventions.useSessionContext && session.Some? && session.value.canUseLoadBalance then Session(session.value.id)
    else if !isRead then Preferred
    else
      match conventions.readBalance
      case ReadNone => Preferred
      case RoundRobin => Session(if session.Some? then session.value.id else 0)
      case FastestNode => Fastest
  }

  /** The node of a request, and the selector after it was chosen. */
  function RequestNode(isRead: bool, conventions: Conventions, session: Option<SessionInfo>, s: Selector): Choice
    requires s.Valid()
  {
    Choose(PolicyFor(isRead, conventions, session), s)
  }

  // ---------------------------------------------------------------------------------
  // Changes to the state

  function OnFailedRequest(s: Selector, index: int): Selector {
    if index < 0 || index >= |s.failures| then s
    else s.(failures := s.failures[index := s.failures[index] + 1])
  }

  function IndexOfNode(nodes: seq<ServerNode>, identity: nat): (i: nat)
    ensures i <= |nodes|
    ensures i < |nodes| ==> nodes[i].identity == identity
    ensures forall k | 0 <= k < i :: nodes[k].identity != identity
  {
    if nodes == [] then 0
    else if nodes[0].identity == identity then 0
    else 1 + IndexOfNode(nodes[1..], identity)
  }

  function RestoreNode(s: Selector, identity: nat): Selector
    requires s.Valid()
  {
    var i := IndexOfNode(s.Nodes(), identity);
    if i == |s.Nodes()| then s else s.(failures := s.failures[i := 0])
  }

  function Zeros(n: nat): seq<nat> {
    seq(n, _ => 0)
  }

  function NewSelector(topology: Topology): (s: Selector)
    ensures s.Valid()
  {
    Selector(topology, Zeros(|topology.nodes|), Zeros(|topology.nodes|), 0, 1, 0, false)
  }

  function IndexOfTag(nodes: seq<ServerNode>, tag: string): (i: nat)
    ensures i <= |nodes|
    ensures i < |nodes| ==> nodes[i].clusterTag == tag
    ensures forall k | 0 <= k < i :: nodes[k].clusterTag != tag
  {
    if nodes == [] then 0
    else if nodes[0].clusterTag == tag then 0
    else 1 + IndexOfTag(nodes[1..], tag)
  }

  /** A fresh state that follows the fastest node of the state it replaces. */
  function Successor(topology: Topology, prev: Selector): (s: Selector)
    requires prev.Valid()
    ensures s.Valid() && s.topology == topology
    ensures s.failures == Zeros(|topology.nodes|)
  {
    var fresh_ := NewSelector(topology).(timer := prev.timer);
    if prev.fastest >= |prev.Nodes()| then fresh_
    else
      var i := IndexOfTag(topology.nodes, prev.Nodes()[prev.fastest].clusterTag);
      if i >= |topology.nodes| then fresh_.(speedTestMode := 2)
      else if i < |prev.fastestRecords| && prev.fastestRecords[i] < 10 then
        fresh_.(fastest := i, speedTestMode := prev.speedTestMode)
      else fresh_.(fastest := i)
  }

  /** What the successor carries over: the fastest node is looked up by its tag, the first place
      with that tag counting; if it is gone, the speed tests begin. */
  lemma {:induction false} SuccessorFollowsFastest(topology: Topology, prev: Selector)
    requires prev.Valid() && prev.fastest < |prev.Nodes()|
    ensures var s, tag := Successor(topology, prev), prev.Nodes()[prev.fastest].clusterTag;
      if exists k :: 0 <= k < |topology.nodes| && topology.nodes[k].clusterTag == tag then
        && s.fastest < |s.Nodes()| && s.Nodes()[s.fastest].clusterTag == tag
        && (forall k | 0 <= k < s.fastest :: s.Nodes()[k].clusterTag != tag)
        && s.speedTestMode == (if s.fastest < |prev.fastestRecords| && prev.fastestRecords[s.fastest] < 10 then
                                 prev.speedTestMode
                               else 1)
      else s.fastest == 0 && s.speedTestMode == 2
    ensures Successor(topology, prev).timer == prev.timer && Successor(topology, prev).roundRobin == 0
    ensures forall k | 0 <= k < |topology.nodes| :: Successor(topology, prev).fastestRecords[k] == 0
  {
    var i := IndexOfTag(topology.nodes, prev.Nodes()[prev.fastest].clusterTag);
  }

  function OnUpdateTopology(s: Selector, topology: Topology, force: bool): (s': Selector)
    requires s.Valid()
    ensures s'.Valid()
  {
    if s.topology.etag >= topology.etag && !force then s else Successor(topology, s)
  }

  // ---------------------------------------------------------------------------------
  // The speed test

  function SwitchToSpeedTestPhase(s: Selector): (s': Selector)
    ensures s.Valid() ==> s'.Valid()
  {
    if s.speedTestMode == 0 then s.(speedTestMode := 2, fastestRecords := Zeros(|s.fastestRecords|)) else s
  }

  function ScheduleSpeedTest(s: Selector): (s': Selector)
    ensures s.Valid() ==> s'.Valid()
  {
    if s.timer then s else SwitchToSpeedTestPhase(s).(timer := true)
  }

  /** What one recording does; `wins` are the counters at the moment of an election. */
  datatype Recording =
    | Ignored
    | Counted(selector: Selector)
    | Elected(winner: nat, wins: seq<nat>, tooMany: bool, selector: Selector)

  ghost predicate IsFirstMax(wins: seq<nat>, i: nat) {
    if forall k | 0 <= k < |wins| :: wins[k] == 0 then i == 0
    else
      && i < |wins|
      && (forall k | 0 <= k < |wins| :: wins[k] <= wins[i])
      && (forall k | 0 <= k < i :: wins[k] < wins[i])
  }

  function MaxIndexFrom(wins: seq<nat>, i: nat, maxIndex: nat, maxValue: nat): nat
    requires i <= |wins|
    decreases |wins| - i
  {
    if i == |wins| then maxIndex
    else if maxValue >= wins[i] then MaxIndexFrom(wins, i + 1, maxIndex, maxValue)
    else MaxIndexFrom(wins, i + 1, i, wins[i])
  }

  function Elect(s: Selector, winner: nat, tooMany: bool): Recording {
    Elected(winner, s.fastestRecords, tooMany, ScheduleSpeedTest(s.(fastest := winner, speedTestMode := 0)))
  }

  function RecordFastest(s: Selector, index: int, node: ServerNode): Recording
    requires s.Valid()
  {
    if index < 0 || index >= |s.fastestRecords| then Ignored
    else if node.identity != s.Nodes()[index].identity then Ignored
    else
      var s1 := s.(fastestRecords := s.fastestRecords[index := s.fastestRecords[index] + 1]);
      if s1.fastestRecords[index] >= 10 then Elect(s1, index, false)
      else
        var s2 := s1.(speedTestMode := s1.speedTestMode + 1);
        if s2.speedTestMode <= |s.Nodes()| * 10 then Counted(s2)
        else Elect(s2, MaxIndexFrom(s2.fastestRecords, 0, 0, 0), true)
  }

  // ---------------------------------------------------------------------------------
  // The selector object

  class NodeSelector {
    var topology: Topology
    var failures: seq<nat>
    var fastestRecords: seq<nat>
    var fastest: nat
    var speedTestMode: nat
    var roundRobin: nat
    var timer: bool

    ghost function Model(): Selector
      reads this
    {
      Selector(topology, failures, fastestRecords, fastest, speedTestMode, roundRobin, timer)
    }

    ghost predicate Valid()
      reads this
    {
      Model().Valid()
    }

    constructor (topology: Topology)
      ensures Valid() && Model() == NewSelector(topology)
    {
      this.topology := topology;
      failures, fastestRecords := Zeros(|topology.nodes|), Zeros(|topology.nodes|);
      fastest, speedTestMode, roundRobin, timer := 0, 1, 0, false;
    }

    method FailedRequest(index: int)
      requires Valid()
      modifies `failures
      ensures Valid() && Model() == OnFailedRequest(old(Model()), index)
    {
      if index < 0 || index >= |failures| {
        return;
      }
      failures := failures[index := failures[index] + 1];
    }

    method RestoreNodeIndex(node: ServerNode)
      requires Valid()
      modifies `failures
      ensures Valid() && Model() == RestoreNode(old(Model()), node.identity)
    {
      var i := 0;
      while i < |topology.nodes| && topology.nodes[i].identity != node.identity
        invariant 0 <= i <= |topology.nodes|
        invariant forall k | 0 <= k < i :: topology.nodes[k].identity != node.identity
      {
        i := i + 1;
      }
      if i < |topology.nodes| {
        failures := failures[i := 0];
      }
    }

    method FirstUpIn(lo: nat, hi: nat, member: bool) returns (i: nat)
      requires Valid() && lo <= hi <= |failures|
      ensures i == FirstUp(Model(), lo, hi, member)
    {
      i := lo;
      while i < hi
        invariant lo <= i <= hi
        invariant FirstUp(Model(), lo, hi, member) == FirstUp(Model(), i, hi, member)
      {
        if failures[i] == 0 && (!member || topology.nodes[i].role.Member?) {
          return;
        }
        i := i + 1;
      }
    }

    /** Each chooser gives the index and says whether there was a node at all. */
    method GetPreferredNode() returns (found: bool, index: nat)
      requires Valid()
      modifies `roundRobin
      ensures Valid()
      ensures match ChoosePreferred(old(Model()))
              case NoNodes => !found && Model() == old(Model())
              case Chosen(i, s) => found && index == i && Model() == s
    {
      found, index := true, 0;
      index := FirstUpIn(0, |failures|, true);
      if index < |failures| {
        return;
      }
      if |topology.nodes| == 0 {
        found := false;
        return;
      }
      index := FirstUpIn(0, |failures|, false);
      if index < |failures| {
        return;
      }
      index := roundRobin;
      roundRobin := (roundRobin + 1) % |topology.nodes|;
    }

    method GetNodeBySessionId(sessionId: int) returns (found: bool, index: nat)
      requires Valid()
      modifies `roundRobin
      ensures Valid()
      ensures match ChooseBySession(old(Model()), sessionId)
              case NoNodes => !found && Model() == old(Model())
              case Chosen(i, s) => found && index == i && Model() == s
    {
      found, index := true, 0;
      if |topology.nodes| == 0 {
        found := false;
        return;
      }
      var start := SessionStart(sessionId, |topology.nodes|);
      index := FirstUpIn(start, |failures|, true);
      if index < |failures| {
        return;
      }
      index := FirstUpIn(0, start, true);
      if index < start {
        return;
      }
      found, index := GetPreferredNode();
    }

    method GetFastestNode() returns (found: bool, index: nat)
      requires Valid()
      modifies this
      ensures Valid()
      ensures match ChooseFastest(old(Model()))
              case NoNodes => !found && Model() == ScheduleSpeedTest(old(Model()))
              case Chosen(i, s) => found && index == i && Model() == s
    {
      if fastest < |failures| && failures[fastest] == 0 && topology.nodes[fastest].role.Member? {
        return true, fastest;
      }
      StartSpeedTestTimer();
      found, index := GetPreferredNode();
    }

    method SwitchPhase()
      modifies this
      ensures Model() == SwitchToSpeedTestPhase(old(Model()))
    {
      if speedTestMode == 0 {
        speedTestMode := 1;
      } else {
        return;
      }
      fastestRecords := Zeros(|fastestRecords|);
      speedTestMode := speedTestMode + 1;
    }

    method StartSpeedTestTimer()
      modifies this
      ensures Model() == ScheduleSpeedTest(old(Model()))
    {
      if timer {
        return;
      }
      SwitchPhase();
      timer := true;
    }

    method FindMaxIndex() returns (maxIndex: nat)
      ensures maxIndex == MaxIndexFrom(fastestRecords, 0, 0, 0)
      ensures IsFirstMax(fastestRecords, maxIndex)
    {
      var maxValue := 0;
      maxIndex := 0;
      var i := 0;
      while i < |fastestRecords|
        invariant 0 <= i <= |fastestRecords|
        invariant forall k | 0 <= k < i :: fastestRecords[k] <= maxValue
        invariant if maxValue == 0 then maxIndex == 0 else
                    maxIndex < i && fastestRecords[maxIndex] == maxValue
                    && forall k | 0 <= k < maxIndex :: fastestRecords[k] < maxValue
        invariant MaxIndexFrom(fastestRecords, 0, 0, 0) == MaxIndexFrom(fastestRecords, i, maxIndex, maxValue)
      {
        if maxValue < fastestRecords[i] {
          maxIndex, maxValue := i, fastestRecords[i];
        }
        i := i + 1;
      }
    }

    method SelectFastest(index: nat)
      modifies this
      ensures Model() == ScheduleSpeedTest(old(Model()).(fastest := index, speedTestMode := 0))
    {
      fastest := index;
      speedTestMode := 0;
      StartSpeedTestTimer();
    }

    method Record(index: int, node: ServerNode)
      requires Valid()
      modifies this
      ensures Valid()
      ensures match RecordFastest(old(Model()), index, node)
              case Ignored => Model() == old(Model())
              case Counted(s) => Model() == s
              case Elected(_, _, _, s) => Model() == s
    {
      if index < 0 || index >= |fastestRecords| {
        return;
      }
      if node.identity != topology.nodes[index].identity {
        return;
      }
      fastestRecords := fastestRecords[index := fastestRecords[index] + 1];
      if fastestRecords[index] >= 10 {
        SelectFastest(index);
        return;
      }
      speedTestMode := speedTestMode + 1;
      if speedTestMode <= |topology.nodes| * 10 {
        return;
      }
      var maxIndex := FindMaxIndex();
      SelectFastest(maxIndex);
    }

    /** Replaces the whole state, keeping only the timer and what is known of the fastest node. */
    method UpdateTopology(newTopology: Topology, force: bool) returns (changed: bool)
      requires Valid()
      modifies this
      ensures Valid() && Model() == OnUpdateTopology(old(Model()), newTopology, force)
      ensures changed <==> force || old(topology).etag < newTopology.etag
    {
      if topology.etag >= newTopology.etag && !force {
        return false;
      }
      var newFastest, newMode := 0, 1;
      if fastest < |topology.nodes| {
        var tag := topology.nodes[fastest].clusterTag;
        var index := 0;
        while index < |newTopology.nodes| && newTopology.nodes[index].clusterTag != tag
          invariant 0 <= index <= |newTopology.nodes|
          invariant forall k | 0 <= k < index :: newTopology.nodes[k].clusterTag != tag
        {
          index := index + 1;
        }
        if index >= |newTopology.nodes| {
          newMode := 2;
        } else {
          newFastest := index;
          if newFastest < |fastestRecords| && fastestRecords[newFastest] < 10 {
            newMode := speedTestMode;
          }
        }
      }
      topology := newTopology;
      failures, fastestRecords := Zeros(|newTopology.nodes|), Zeros(|newTopology.nodes|);
      fastest, speedTestMode, roundRobin := newFastest, newMode, 0;
      return true;
    }
  }
}
