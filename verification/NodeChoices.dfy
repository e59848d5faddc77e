/** Which node a request goes to, in terms of the nodes themselves. */
module NodeChoices {
  import opened NodeSelection
  import opened Wrappers

  predicate Alive(s: Selector, k: nat) {
    k < |s.topology.nodes| && k < |s.failures| && s.failures[k] == 0
  }

  predicate AliveMember(s: Selector, k: nat) {
    Alive(s, k) && s.topology.nodes[k].role == Member
  }

  ghost predicate SomeAlive(s: Selector) {
    exists k: nat :: Alive(s, k)
  }

  ghost predicate SomeAliveMember(s: Selector) {
    exists k: nat :: AliveMember(s, k)
  }

  /** The first member that is up, else the first node that is up, else the next one in turn. */
  ghost predicate IsFirstChoice(s: Selector, choice: Choice) {
    if SomeAliveMember(s) then
      && choice.Chosen? && AliveMember(s, choice.index) && choice.selector == s
      && forall k: nat | k < choice.index :: !AliveMember(s, k)
    else if SomeAlive(s) then
      && choice.Chosen? && Alive(s, choice.index) && choice.selector == s
      && forall k: nat | k < choice.index :: !Alive(s, k)
    else if s.topology.nodes != [] then
      && choice.Chosen? && choice.index == s.roundRobin
      && choice.selector.roundRobin == (if s.roundRobin + 1 == |s.topology.nodes| then 0 else s.roundRobin + 1)
      && choice.selector.(roundRobin := s.roundRobin) == s
    else choice.NoNodes?
  }

  /** How far a place lies behind another one, going round. */
  function Behind(place: nat, k: nat, n: nat): nat
    requires place < n && k < n
  {
    if k >= place then k - place else k + n - place
  }

  /** The first member that is up from the place on, going round. */
  ghost predicate IsFirstFrom(s: Selector, place: nat, choice: Choice)
    requires place < |s.topology.nodes|
  {
    && choice.Chosen? && AliveMember(s, choice.index) && choice.selector == s
    && forall k: nat | AliveMember(s, k) ::
         Behind(place, choice.index, |s.topology.nodes|) <= Behind(place, k, |s.topology.nodes|)
  }

  lemma {:induction false} SmallRemainder(a: nat, n: nat)
    requires a < n
    ensures a % n == a
  {
  }

  lemma {:induction false} NextInTurn(k: nat, n: nat)
    requires k < n
    ensures (k + 1) % n == if k + 1 == n then 0 else k + 1
  {
    if k + 1 < n {
      SmallRemainder(k + 1, n);
    }
  }

  lemma {:induction false} PreferredIsFirstChoice(s: Selector)
    requires s.Valid()
    ensures IsFirstChoice(s, ChoosePreferred(s))
  {
    var n := |s.failures|;
    var i, j := FirstUp(s, 0, n, true), FirstUp(s, 0, n, false);
    assert forall k: nat | k < n :: s.UpMember(k) <==> AliveMember(s, k);
    assert forall k: nat | k < n :: s.Up(k) <==> Alive(s, k);
    if n > 0 {
      NextInTurn(s.roundRobin, n);
    }
  }

  lemma {:induction false} SessionIsFirstFrom(s: Selector, id: int)
    requires s.Valid() && s.topology.nodes != []
    ensures var place := (if id >= 0 then id else -id) % |s.topology.nodes|;
      if SomeAliveMember(s) then IsFirstFrom(s, place, ChooseBySession(s, id))
      else IsFirstChoice(s, ChooseBySession(s, id))
  {
    var n := |s.failures|;
    var place := SessionStart(id, n);
    var i, j := FirstUp(s, place, n, true), FirstUp(s, 0, place, true);
    assert forall k: nat | k < n :: s.UpMember(k) <==> AliveMember(s, k);
    if i == n && j == place {
      PreferredIsFirstChoice(s);
    }
  }

  /** The session decides for writes and reads alike. */
  predicate BySession(conventions: Conventions, session: Option<SessionInfo>) {
    conventions.useSessionContext && session.Some? && session.value.canUseLoadBalance
  }

  /** Writes, and reads without a balance: the first choice, whatever the session. */
  lemma {:induction false} PlainRequestTakesFirstChoice(isRead: bool, conventions: Conventions,
                                                        session: Option<SessionInfo>, s: Selector)
    requires s.Valid() && !BySession(conventions, session) && (isRead ==> conventions.readBalance == ReadNone)
    ensures IsFirstChoice(s, RequestNode(isRead, conventions, session, s))
  {
    PreferredIsFirstChoice(s);
  }

  /** With session context, and for reads in turn, the place of the session; without a session the
      first place. */
  lemma {:induction false} SessionRequestTakesItsPlace(isRead: bool, conventions: Conventions,
                                                       session: Option<SessionInfo>, s: Selector)
    requires s.Valid() && s.topology.nodes != []
    requires BySession(conventions, session) || (isRead && conventions.readBalance == RoundRobin)
    ensures var id := if session.Some? then session.value.id else 0;
      var place, choice := (if id >= 0 then id else -id) % |s.topology.nodes|,
                           RequestNode(isRead, conventions, session, s);
      && (if SomeAliveMember(s) then IsFirstFrom(s, place, choice) else IsFirstChoice(s, choice))
      && (AliveMember(s, place) ==> choice == Chosen(place, s))
  {
    var id := if session.Some? then session.value.id else 0;
    SessionIsFirstFrom(s, id);
  }

  /** Reads from the fastest node: that node while it is a member that is up, otherwise the first
      choice, after a speed test was asked for. */
  lemma {:induction false} FastestRequestTakesFastest(conventions: Conventions, session: Option<SessionInfo>,
                                                      s: Selector)
    requires s.Valid() && !BySession(conventions, session) && conventions.readBalance == FastestNode
    ensures var choice := RequestNode(true, conventions, session, s);
      if AliveMember(s, s.fastest) then choice == Chosen(s.fastest, s)
      else exists s': Selector :: s'.timer && s'.topology == s.topology && s'.failures == s.failures
                        && s'.roundRobin == s.roundRobin && IsFirstChoice(s', choice)
  {
    if !AliveMember(s, s.fastest) {
      PreferredIsFirstChoice(ScheduleSpeedTest(s));
    }
  }

  /** No node at all. */
  lemma {:induction false} NoNodeForRequest(isRead: bool, conventions: Conventions, session: Option<SessionInfo>,
                                            s: Selector)
    requires s.Valid()
    ensures RequestNode(isRead, conventions, session, s).NoNodes? <==> s.topology.nodes == []
  {
    match PolicyFor(isRead, conventions, session)
    case Preferred => PreferredIsFirstChoice(s);
    case Session(id) =>
      if s.topology.nodes != [] {
        SessionIsFirstFrom(s, id);
      }
    case Fastest => PreferredIsFirstChoice(ScheduleSpeedTest(s));
  }

  /** Every place is the place of some session. */
  lemma {:induction false} EveryPlaceHasASession(n: nat, place: nat)
    requires place < n
    ensures SessionStart(place, n) == place
    ensures SessionStart(-(place as int), n) == place
  {
    SmallRemainder(place, n);
  }

  /** A new selector has every node up and starts at the first; no test and no timer runs. */
  lemma {:induction false} NewSelectorIsFresh(topology: Topology, k: nat)
    ensures var s := NewSelector(topology);
      && (Alive(s, k) <==> k < |topology.nodes|) && s.topology == topology
      && s.fastest == 0 && s.roundRobin == 0 && s.speedTestMode == 1 && !s.timer
      && (k < |topology.nodes| ==> s.fastestRecords[k] == 0)
  {
  }

  // ---------------------------------------------------------------------------------
  // Failures and recoveries

  /** A failure takes one place out, and no other place notices. */
  lemma {:induction false} FailureTakesOneOut(s: Selector, index: nat, k: nat)
    requires s.Valid()
    ensures var s' := OnFailedRequest(s, index);
      && s'.Valid() && s'.(failures := s.failures) == s
      && (Alive(s', k) <==> Alive(s, k) && k != index)
  {
  }

  lemma {:induction false} FailureOutsideIsIgnored(s: Selector, index: int)
    requires s.Valid() && (index < 0 || index >= |s.topology.nodes|)
    ensures OnFailedRequest(s, index) == s
  {
  }

  /** A node that recovers is up at its first place, and no other place notices. */
  lemma {:induction false} RecoveryBringsOneBack(s: Selector, identity: nat, i: nat, k: nat)
    requires s.Valid() && i < |s.topology.nodes| && s.topology.nodes[i].identity == identity
    requires forall j | 0 <= j < i :: s.topology.nodes[j].identity != identity
    ensures var s' := RestoreNode(s, identity);
      && s'.Valid() && s'.(failures := s.failures) == s
      && (Alive(s', k) <==> Alive(s, k) || k == i)
  {
  }

  lemma {:induction false} UnknownRecoveryIsIgnored(s: Selector, identity: nat)
    requires s.Valid() && forall j | 0 <= j < |s.topology.nodes| :: s.topology.nodes[j].identity != identity
    ensures RestoreNode(s, identity) == s
  {
  }
}
