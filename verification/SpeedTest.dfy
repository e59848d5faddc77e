/** The election of the fastest node, over whole speed-test phases. */
module SpeedTestPhase {
  import opened NodeSelection

  // The counter `speedTestMode` is never compared with the number of wins, yet it bounds the
  // phase: it runs two ahead of the total number of wins, and no node can collect more than
  // nine wins without being elected.

  function Sum(wins: seq<nat>): nat {
    if wins == [] then 0 else wins[0] + Sum(wins[1..])
  }

  lemma {:induction false} SumOfBump(wins: seq<nat>, i: nat)
    requires i < |wins|
    ensures Sum(wins[i := wins[i] + 1]) == Sum(wins) + 1
  {
    if i > 0 {
      assert wins[i := wins[i] + 1][1..] == wins[1..][i - 1 := wins[i] + 1];
      SumOfBump(wins[1..], i - 1);
    }
  }

  lemma {:induction false} SumBound(wins: seq<nat>, most: nat)
    requires forall i | 0 <= i < |wins| :: wins[i] <= most
    ensures Sum(wins) <= most * |wins|
  {
    if wins != [] {
      SumBound(wins[1..], most);
    }
  }

  lemma {:induction false} SumOfZeros(n: nat)
    ensures Sum(Zeros(n)) == 0
  {
    if n > 0 {
      assert Zeros(n)[1..] == Zeros(n - 1);
      SumOfZeros(n - 1);
    }
  }

  /** A running phase that no topology change has disturbed. */
  ghost predicate InPhase(s: Selector) {
    && s.Valid()
    && (forall i | 0 <= i < |s.fastestRecords| :: s.fastestRecords[i] <= 9)
    && s.speedTestMode == Sum(s.fastestRecords) + 2
  }

  /** Both ways into a phase: the switch out of the idle mode, and a new topology that lacks the fastest node. */
  lemma {:induction false} PhaseStarts(s: Selector, topology: Topology)
    requires s.Valid()
    ensures s.speedTestMode == 0 ==>
              InPhase(SwitchToSpeedTestPhase(s)) && Sum(SwitchToSpeedTestPhase(s).fastestRecords) == 0
    ensures s.fastest < |s.Nodes()|
            && IndexOfTag(topology.nodes, s.Nodes()[s.fastest].clusterTag) == |topology.nodes|
            ==> InPhase(Successor(topology, s))
  {
    SumOfZeros(|s.fastestRecords|);
    SumOfZeros(|topology.nodes|);
  }

  /** A topology that still has the fastest node keeps the mode but clears the counters, so a
      running phase stays undisturbed exactly when nothing had been recorded in it yet. */
  lemma {:induction false} PhaseSurvivesReorderWhenFresh(s: Selector, topology: Topology)
    requires InPhase(s) && s.fastest < |s.Nodes()|
    requires var i := IndexOfTag(topology.nodes, s.Nodes()[s.fastest].clusterTag);
             i < |topology.nodes| && i < |s.fastestRecords|
    ensures InPhase(Successor(topology, s)) <==> Sum(s.fastestRecords) == 0
  {
    SumOfZeros(|topology.nodes|);
  }

  /** While a phase runs the periodic timer and stale recordings do not disturb it. */
  lemma {:induction false} TimerIsHarmless(s: Selector, index: int, node: ServerNode)
    requires InPhase(s)
    ensures SwitchToSpeedTestPhase(s) == s
    ensures index < 0 || index >= |s.Nodes()| || s.Nodes()[index].identity != node.identity ==>
              RecordFastest(s, index, node).Ignored?
  {
  }

  /** One valid recording with at least two nodes: it counts, or it elects the node with its
      tenth win; the "too many concurrent tests" branch is not reachable. */
  lemma {:induction false} RecordInPhase(s: Selector, i: nat)
    requires InPhase(s) && i < |s.Nodes()| && |s.Nodes()| >= 2
    ensures match RecordFastest(s, i, s.Nodes()[i])
            case Ignored => false
            case Counted(s') =>
              && InPhase(s') && s'.topology == s.topology
              && s'.fastestRecords == s.fastestRecords[i := s.fastestRecords[i] + 1]
            case Elected(winner, wins, tooMany, s') =>
              && !tooMany && winner == i
              && wins == s.fastestRecords[i := 10] && s.fastestRecords[i] == 9
              && s'.fastest == i
  {
    var wins := s.fastestRecords[i := s.fastestRecords[i] + 1];
    SumOfBump(s.fastestRecords, i);
    if wins[i] < 10 {
      SumBound(wins, 9);
    }
  }

  lemma {:induction false} MaxIndexIsFirst(wins: seq<nat>, i: nat, maxIndex: nat)
    requires i <= |wins|
    requires if forall k | 0 <= k < i :: wins[k] == 0 then maxIndex == 0
             else
               maxIndex < i && (forall k | 0 <= k < i :: wins[k] <= wins[maxIndex])
               && (forall k | 0 <= k < maxIndex :: wins[k] < wins[maxIndex])
    ensures var maxValue := if maxIndex < i then wins[maxIndex] else 0;
      IsFirstMax(wins, MaxIndexFrom(wins, i, maxIndex, maxValue))
    decreases |wins| - i
  {
    if i < |wins| {
      var maxValue := if maxIndex < i then wins[maxIndex] else 0;
      MaxIndexIsFirst(wins, i + 1, if maxValue >= wins[i] then maxIndex else i);
    }
  }

  /** An election ends the phase; if no timer runs yet it starts one, and the next phase with it. */
  lemma {:induction false} ElectionStartsTimer(s: Selector, i: nat)
    requires s.Valid() && i < |s.Nodes()| && RecordFastest(s, i, s.Nodes()[i]).Elected?
    ensures var e := RecordFastest(s, i, s.Nodes()[i]);
      && e.selector.fastest == e.winner && e.selector.timer
      && e.selector.topology == s.topology && e.selector.failures == s.failures
      && e.wins == s.fastestRecords[i := s.fastestRecords[i] + 1]
      && (if e.tooMany then IsFirstMax(e.wins, e.winner) else e.winner == i && e.wins[i] >= 10)
      && (if s.timer then e.selector.speedTestMode == 0 && e.selector.fastestRecords == e.wins
          else e.selector.speedTestMode == 2
               && forall k | 0 <= k < |s.Nodes()| :: e.selector.fastestRecords[k] == 0)
  {
    var wins := s.fastestRecords[i := s.fastestRecords[i] + 1];
    MaxIndexIsFirst(wins, 0, 0);
  }

  /** A phase whose counter runs ahead of the wins by more than the usual two: `drift` wins were
      forgotten when the topology was reordered while it ran. */
  ghost predicate InDrift(s: Selector, drift: nat) {
    && s.Valid()
    && (forall i | 0 <= i < |s.fastestRecords| :: s.fastestRecords[i] <= 9)
    && s.speedTestMode == Sum(s.fastestRecords) + 2 + drift
  }

  /** A reorder that keeps the fastest node adds the wins it clears to the drift. */
  lemma {:induction false} ReorderDrifts(s: Selector, drift: nat, topology: Topology)
    requires InDrift(s, drift) && s.fastest < |s.Nodes()|
    requires var i := IndexOfTag(topology.nodes, s.Nodes()[s.fastest].clusterTag);
             i < |topology.nodes| && i < |s.fastestRecords|
    ensures InDrift(Successor(topology, s), drift + Sum(s.fastestRecords))
  {
    SumOfZeros(|topology.nodes|);
  }

  /** A recording that counts keeps the drift. */
  lemma {:induction false} RecordingKeepsDrift(s: Selector, drift: nat, i: nat)
    requires InDrift(s, drift) && i < |s.Nodes()|
    ensures var r := RecordFastest(s, i, s.Nodes()[i]);
            r.Counted? ==> InDrift(r.selector, drift)
  {
    SumOfBump(s.fastestRecords, i);
  }

  ghost predicate CapElects(s: Selector, i: nat) {
    s.Valid() && i < |s.Nodes()| && RecordFastest(s, i, s.Nodes()[i]).Elected?
    && RecordFastest(s, i, s.Nodes()[i]).tooMany
  }

  /** A phase that is one recording away from the cap, if the cap can be reached at all. */
  lemma {:induction false} NearlyFull(n: nat, drift: nat) returns (s: Selector)
    requires n > 0 && drift + 1 >= n
    ensures InDrift(s, drift) && |s.Nodes()| == n && CapElects(s, 0)
  {
    var nodes := seq(n, i requires 0 <= i < n => ServerNode(i, "A", Member));
    var nines := seq(n, _ => 9);
    var wins := nines[0 := 8];
    SumOfNines(n);
    SumOfBump(wins, 0);
    assert wins[0 := 9] == nines;
    s := Selector(Topology(1, nodes), Zeros(n), wins, 0, Sum(wins) + 2 + drift, 0, true);
  }

  lemma {:induction false} SumOfNines(n: nat)
    ensures Sum(seq(n, _ => 9)) == 9 * n
  {
    if n > 0 {
      assert seq(n, _ => 9)[1..] == seq(n - 1, _ => 9);
      SumOfNines(n - 1);
    }
  }

  /** The "too many concurrent tests" branch can be taken in a phase of n nodes exactly when the
      drift is at least n - 1: without a reorder only with a single node, and with one as soon
      as enough wins were forgotten. */
  lemma {:induction false} CapReachedExactlyWhen(n: nat, drift: nat)
    ensures (exists s: Selector, i: nat :: InDrift(s, drift) && |s.Nodes()| == n && CapElects(s, i))
            <==> n > 0 && drift + 1 >= n
  {
    if n > 0 && drift + 1 >= n {
      var s := NearlyFull(n, drift);
      assert CapElects(s, 0);
    }
    forall s: Selector, i: nat | InDrift(s, drift) && |s.Nodes()| == n && CapElects(s, i)
      ensures n > 0 && drift + 1 >= n
    {
      var wins := s.fastestRecords[i := s.fastestRecords[i] + 1];
      SumOfBump(s.fastestRecords, i);
      SumBound(wins, 9);
    }
  }

  /** Plays valid recordings until one elects a node: the position of that recording, or None. */
  datatype Election = NotYet(selector: Selector) | At(position: nat, winner: nat, wins: seq<nat>, tooMany: bool)

  function Play(s: Selector, picks: seq<nat>): Election
    requires s.Valid() && forall k | 0 <= k < |picks| :: picks[k] < |s.Nodes()|
    decreases |picks|
  {
    if picks == [] then NotYet(s)
    else
      match RecordFastest(s, picks[0], s.Nodes()[picks[0]])
      case Ignored => Play(s, picks[1..])
      case Counted(s') =>
        (match Play(s', picks[1..])
         case NotYet(s'') => NotYet(s'')
         case At(p, winner, wins, tooMany) => At(p + 1, winner, wins, tooMany))
      case Elected(winner, wins, tooMany, _) => At(0, winner, wins, tooMany)
  }

  function Wins(picks: seq<nat>, i: nat): nat {
    if picks == [] then 0 else (if picks[0] == i then 1 else 0) + Wins(picks[1..], i)
  }

  /** What the counters mean: every node has its earlier wins plus its wins among the recordings played. */
  ghost predicate CountsTo(before: seq<nat>, picks: seq<nat>, after: seq<nat>) {
    |before| == |after| && forall i | 0 <= i < |after| :: after[i] == before[i] + Wins(picks, i)
  }

  /** Ten wins for the winner, at most nine for every other node. */
  ghost predicate ClearWinner(picks: seq<nat>, n: nat, winner: nat) {
    Wins(picks, winner) == 10 && forall i | 0 <= i < n && i != winner :: Wins(picks, i) <= 9
  }

  lemma {:induction false} CountsToCons(before: seq<nat>, i: nat, rest: seq<nat>, after: seq<nat>)
    requires i < |before| && CountsTo(before[i := before[i] + 1], rest, after)
    ensures CountsTo(before, [i] + rest, after)
  {
    assert ([i] + rest)[1..] == rest;
  }

  /** What a play from a phase comes to, with `before` the counters at its start. */
  ghost predicate PlayedOut(before: seq<nat>, picks: seq<nat>, e: Election) {
    match e
    case NotYet(s) =>
      InPhase(s) && CountsTo(before, picks, s.fastestRecords)
    case At(p, winner, wins, tooMany) =>
      && p < |picks| && picks[p] == winner && winner < |wins| && !tooMany
      && CountsTo(before, picks[..p + 1], wins)
      && wins[winner] == 10
      && (forall i | 0 <= i < |wins| && i != winner :: wins[i] <= 9)
  }

  /** A counted recording before a play. */
  lemma {:induction false} PlayedOutCons(before: seq<nat>, i: nat, rest: seq<nat>, e: Election)
    requires i < |before| && PlayedOut(before[i := before[i] + 1], rest, e)
    ensures PlayedOut(before, [i] + rest, if e.At? then e.(position := e.position + 1) else e)
  {
    match e
    case NotYet(s) => CountsToCons(before, i, rest, s.fastestRecords);
    case At(p, _, wins, _) =>
      assert ([i] + rest)[..p + 2] == [i] + rest[..p + 1];
      CountsToCons(before, i, rest[..p + 1], wins);
  }

  lemma {:induction false} PlayCounts(s: Selector, picks: seq<nat>)
    requires InPhase(s) && |s.Nodes()| >= 2
    requires forall k | 0 <= k < |picks| :: picks[k] < |s.Nodes()|
    ensures PlayedOut(s.fastestRecords, picks, Play(s, picks))
    decreases |picks|
  {
    if picks != [] {
      var i, rest, before := picks[0], picks[1..], s.fastestRecords;
      assert picks == [i] + rest;
      RecordInPhase(s, i);
      match RecordFastest(s, i, s.Nodes()[i])
      case Counted(s') =>
        PlayCounts(s', rest);
        PlayedOutCons(before, i, rest, Play(s', rest));
      case Elected(winner, wins, _, _) =>
        assert picks[..1] == [i] + [];
        assert CountsTo(before[i := before[i] + 1], [], wins);
        CountsToCons(before, i, [], wins);
    }
  }

  /** From a fresh phase of n >= 2 nodes, 9n + 1 valid recordings elect a node: the first to
      collect ten wins, which is strictly ahead of all others at that moment. */
  lemma {:induction false} ElectedWithinBound(s: Selector, picks: seq<nat>)
    requires s.Valid() && s.fastestRecords == Zeros(|s.Nodes()|) && s.speedTestMode == 2
    requires |s.Nodes()| >= 2
    requires forall k | 0 <= k < |picks| :: picks[k] < |s.Nodes()|
    requires |picks| >= 9 * |s.Nodes()| + 1
    ensures Play(s, picks).At?
    ensures var e := Play(s, picks);
            && e.position <= 9 * |s.Nodes()| && !e.tooMany
            && e.position < |picks| && e.winner == picks[e.position]
            && ClearWinner(picks[..e.position + 1], |s.Nodes()|, e.winner)
  {
    SumOfZeros(|s.Nodes()|);
    PlayCounts(s, picks);
    var e := Play(s, picks);
    if e.NotYet? {
      PrefixSum(picks, s.fastestRecords, e.selector.fastestRecords);
      SumBound(e.selector.fastestRecords, 9);
      assert false;
    }
    assert CountsTo(s.fastestRecords, picks[..e.position + 1], e.wins);
    PrefixSum(picks[..e.position + 1], s.fastestRecords, e.wins);
    WinnerBound(e.wins, e.winner);
  }

  /** The wins of all nodes together are the recordings played. */
  lemma {:induction false} PrefixSum(picks: seq<nat>, before: seq<nat>, after: seq<nat>)
    requires CountsTo(before, picks, after)
    requires forall k | 0 <= k < |picks| :: picks[k] < |before|
    ensures Sum(after) == Sum(before) + |picks|
  {
    if picks == [] {
      assert after == before;
    } else {
      var middle := before[picks[0] := before[picks[0]] + 1];
      SumOfBump(before, picks[0]);
      PrefixSum(picks[1..], middle, after);
    }
  }

  lemma {:induction false} WinnerBound(wins: seq<nat>, winner: nat)
    requires winner < |wins| && wins[winner] == 10
    requires forall i | 0 <= i < |wins| && i != winner :: wins[i] <= 9
    ensures Sum(wins) <= 9 * |wins| + 1
  {
    var lowered := wins[winner := 9];
    SumBound(lowered, 9);
    SumOfBump(lowered, winner);
    assert lowered[winner := 10] == wins;
  }
}
