/** The failover recursion on the executor, command and selector objects, which update their fields
    in place, tied to the run it follows. */
module FailoverExecution {
  import opened NodeSelection
  import opened Wrappers
  import F = Failover

  lemma {:induction false} SplitHead(before: seq<ServerNode>, node: ServerNode, sends: seq<ServerNode>)
    requires sends != [] && sends[0] == node
    ensures before + [node] + sends[1..] == before + sends
  {
  }

  class RavenCommand {
    const isReadRequest: bool
    var failedNodes: set<nat>
    var failoverTopologyEtag: int

    constructor (isReadRequest: bool)
      ensures this.isReadRequest == isReadRequest
      ensures failedNodes == {} && failoverTopologyEtag == F.INITIAL_TOPOLOGY_ETAG
    {
      this.isReadRequest := isReadRequest;
      failedNodes, failoverTopologyEtag := {}, F.INITIAL_TOPOLOGY_ETAG;
    }
  }

  /** `pending` holds the topologies that the environment will still deliver, `sent` the nodes contacted. */
  class RequestExecutor {
    const nodeSelector: NodeSelector
    const conventions: Conventions
    var topologyEtag: int
    var pending: seq<F.Update>
    var sent: seq<ServerNode>

    ghost function World(command: RavenCommand): F.World
      reads this, nodeSelector, command
    {
      F.World(nodeSelector.Model(), topologyEtag, F.Command(command.failedNodes, command.failoverTopologyEtag), pending)
    }

    function PolicyOf(command: RavenCommand, session: Option<SessionInfo>): Policy {
      PolicyFor(command.isReadRequest, conventions, session)
    }

    constructor (selector: NodeSelector, conventions: Conventions, pending: seq<F.Update>)
      requires selector.Valid()
      ensures nodeSelector == selector && this.conventions == conventions && topologyEtag == selector.topology.etag
      ensures this.pending == pending && sent == []
    {
      nodeSelector := selector;
      this.conventions := conventions;
      topologyEtag := selector.topology.etag;
      this.pending := pending;
      sent := [];
    }

    /** Everything that happens while one request is under way. */
    method LetHappen(command: RavenCommand, events: seq<F.Event>)
      requires World(command).Valid()
      modifies this`topologyEtag, this`pending, nodeSelector
      ensures World(command) == F.HappenAll(old(World(command)), events)
    {
      var i := 0;
      while i < |events|
        invariant 0 <= i <= |events|
        invariant World(command).Valid()
        invariant F.HappenAll(World(command), events[i..]) == F.HappenAll(old(World(command)), events)
      {
        assert events[i..][0] == events[i] && events[i..][1..] == events[i + 1..];
        match events[i] {
          case NodeRestored(identity) =>
            nodeSelector.RestoreNodeIndex(ServerNode(identity, "", NoRole));
          case OtherFailure(index) =>
            nodeSelector.FailedRequest(index);
          case TopologyArrives =>
            if |pending| > 0 {
              var _ := nodeSelector.UpdateTopology(pending[0].topology, pending[0].force);
              topologyEtag := nodeSelector.topology.etag;
              pending := pending[1..];
            }
        }
        i := i + 1;
      }
    }

    method RecordEtag(command: RavenCommand)
      requires World(command).Valid()
      modifies command`failoverTopologyEtag
      ensures World(command) == F.RecordEtag(old(World(command)))
    {
      if command.failoverTopologyEtag == F.INITIAL_TOPOLOGY_ETAG {
        if nodeSelector.topology.etag != 0 {
          command.failoverTopologyEtag := nodeSelector.topology.etag;
        }
      }
    }

    /** The node that the command's policy gives: the session's node when sessions take part in load
        balancing, the preferred node for writes, and what the conventions say for reads. */
    method ChooseNodeForRequest(command: RavenCommand, session: Option<SessionInfo>) returns (found: bool, index: nat)
      requires nodeSelector.Valid()
      modifies nodeSelector
      ensures nodeSelector.Valid()
      ensures match RequestNode(command.isReadRequest, conventions, session, old(nodeSelector.Model()))
              case NoNodes => !found && nodeSelector.topology == old(nodeSelector.topology)
              case Chosen(i, s) => found && index == i && nodeSelector.Model() == s
    {
      if conventions.useSessionContext {
        if session.Some? && session.value.canUseLoadBalance {
          found, index := nodeSelector.GetNodeBySessionId(session.value.id);
          return;
        }
      }
      if !command.isReadRequest {
        found, index := nodeSelector.GetPreferredNode();
        return;
      }
      match conventions.readBalance {
        case ReadNone => found, index := nodeSelector.GetPreferredNode();
        case RoundRobin =>
          found, index := nodeSelector.GetNodeBySessionId(if session.Some? then session.value.id else 0);
        case FastestNode => found, index := nodeSelector.GetFastestNode();
      }
    }

    /** Sends to a node; `w` is the world at this point and `run` what the specification says follows. */
    method ExecuteOnSpecificNode(command: RavenCommand, session: Option<SessionInfo>, nodeIndex: nat,
                                 weather: nat -> F.Weather, attempt: nat, ghost w: F.World, ghost run: F.Run)
      returns (outcome: F.Outcome)
      requires World(command) == w && F.CanSend(w, nodeIndex)
      requires run == F.Execute(w, PolicyOf(command, session), nodeIndex, weather, attempt)
      modifies this, nodeSelector, command
      ensures sent == old(sent) + run.sends && outcome == run.outcome
      decreases |w.pending|, F.Stale(w), F.Untried(w), 1
    {
      RecordEtag(command);
      var chosenNode := nodeSelector.topology.nodes[nodeIndex];
      sent := sent + [chosenNode];
      assert World(command) == F.RecordEtag(w);
      LetHappen(command, weather(attempt).events);
      if weather(attempt).answered {
        F.AnsweredRun(w, PolicyOf(command, session), nodeIndex, weather, attempt, run);
        return F.Answered;
      }
      outcome := HandleServerDown(command, session, chosenNode, nodeIndex, weather, attempt, w, run);
      SplitHead(old(sent), chosenNode, run.sends);
    }

    /** Books the failure of `chosenNode` and chooses what to do next. */
    method BookFailure(command: RavenCommand, session: Option<SessionInfo>, chosenNode: ServerNode, nodeIndex: nat)
      returns (found: bool, retry: bool, next: nat, ghost d: F.Decision)
      requires World(command).Valid()
      modifies nodeSelector, command
      ensures d == F.HandleServerDown(old(World(command)), PolicyOf(command, session), chosenNode, nodeIndex)
      ensures match d
              case NoNodesLeft => !found
              case GiveUp(w) => found && !retry && World(command) == w
              case SendTo(i, w) => found && retry && next == i && World(command) == w
    {
      d := F.HandleServerDown(World(command), PolicyOf(command, session), chosenNode, nodeIndex);
      F.ChoiceIsInTopology(PolicyOf(command, session), OnFailedRequest(nodeSelector.Model(), nodeIndex));
      command.failedNodes := command.failedNodes + {chosenNode.identity};
      nodeSelector.FailedRequest(nodeIndex);
      found, next := ChooseNodeForRequest(command, session);
      retry := false;
      if !found {
        return;
      }
      if command.failoverTopologyEtag != topologyEtag {
        command.failedNodes := {};
        command.failoverTopologyEtag := topologyEtag;
      }
      retry := nodeSelector.topology.nodes[next].identity !in command.failedNodes;
    }

    /** The failure of a send to `chosenNode`; `w` is the world at the send. */
    method HandleServerDown(command: RavenCommand, session: Option<SessionInfo>, chosenNode: ServerNode, nodeIndex: nat,
                            weather: nat -> F.Weather, attempt: nat, ghost w: F.World, ghost run: F.Run)
      returns (outcome: F.Outcome)
      requires F.CanSend(w, nodeIndex) && chosenNode == w.selector.Nodes()[nodeIndex] && !weather(attempt).answered
      requires World(command) == F.HappenAll(F.RecordEtag(w), weather(attempt).events)
      requires run == F.Execute(w, PolicyOf(command, session), nodeIndex, weather, attempt)
      modifies this, nodeSelector, command
      ensures run.sends != [] && run.sends[0] == chosenNode
      ensures sent == old(sent) + run.sends[1..] && outcome == run.outcome
      decreases |w.pending|, F.Stale(w), F.Untried(w), 0
    {
      ghost var d;
      var found, retry, next;
      found, retry, next, d := BookFailure(command, session, chosenNode, nodeIndex);
      F.RunAfterDecision(w, PolicyOf(command, session), nodeIndex, weather, attempt, d, run);
      ghost var rest := F.RestOf(PolicyOf(command, session), weather, attempt, d);
      if !found {
        return F.NoNodesException;
      }
      if !retry {
        return F.AllFailed(command.failedNodes);
      }
      outcome := ExecuteOnSpecificNode(command, session, next, weather, attempt + 1, d.world, rest);
    }
  }
}
