/** Observables that share one connection. */
module Subscriptions {
  // Each registers one handler for all its subscribers, and the connection counts subscribers to
  // know when to disconnect. A handler is a number; the same handler may be subscribed more than once.

  /** The shared handler of an observable, registered for a type of change. */
  datatype Listener = Listener(type_: nat, owner: nat)

  datatype Connection = Connection(value: int, listeners: seq<Listener>, errorListeners: seq<nat>,
                                   disconnects: nat)

  datatype Observable = Observable(type_: nat, subscribers: set<nat>, hasHandler: bool,
                                   errorSubscribers: set<nat>, hasErrorHandler: bool)

  function Dec(c: Connection): Connection {
    c.(value := c.value - 1, disconnects := if c.value == 1 then c.disconnects + 1 else c.disconnects)
  }

  /** An emitter removes the latest registration of a listener. */
  function RemoveLatest<T(==)>(list: seq<T>, x: T): seq<T> {
    if list == [] then []
    else
      var n := |list| - 1;
      if list[n] == x then list[..n] else RemoveLatest(list[..n], x) + [list[n]]
  }

  function OnData(c: Connection, o: Observable, id: nat, handler: nat): (Connection, Observable) {
    var listeners := if o.hasHandler then c.listeners else c.listeners + [Listener(o.type_, id)];
    (c.(listeners := listeners, value := c.value + 1),
     o.(hasHandler := true, subscribers := o.subscribers + {handler}))
  }

  function OffData(c: Connection, o: Observable, id: nat, handler: nat): (Connection, Observable) {
    var counted := if handler in o.subscribers then Dec(c) else c;
    var left := o.subscribers - {handler};
    if left != {} then (counted, o.(subscribers := left))
    else
      (if o.hasHandler then counted.(listeners := RemoveLatest(c.listeners, Listener(o.type_, id))) else counted,
       o.(subscribers := left, hasHandler := false))
  }

  function OnError(c: Connection, o: Observable, id: nat, handler: nat): (Connection, Observable) {
    (if o.hasErrorHandler then c else c.(errorListeners := c.errorListeners + [id]),
     o.(hasErrorHandler := true, errorSubscribers := o.errorSubscribers + {handler}))
  }

  function OffError(c: Connection, o: Observable, id: nat, handler: nat): (Connection, Observable) {
    var left := o.errorSubscribers - {handler};
    if left != {} then (c, o.(errorSubscribers := left))
    else
      (if o.hasErrorHandler then c.(errorListeners := RemoveLatest(c.errorListeners, id)) else c,
       o.(errorSubscribers := left, hasErrorHandler := false))
  }

  // ---------------------------------------------------------------------------------
  // Any number of observables on one connection

  /** `duplicates` counts the data subscriptions made for a handler already subscribed. */
  datatype State = State(connection: Connection, observables: seq<Observable>, duplicates: nat)

  datatype Event = Data | Error

  datatype Step = Create(type_: nat) | On(event: Event, id: nat, handler: nat) | Off(event: Event, id: nat,
      handler: nat)

  predicate Enabled(st: State, step: Step) {
    step.Create? || step.id < |st.observables|
  }

  function Outcome(st: State, step: Step): (Connection, Observable)
    requires Enabled(st, step) && !step.Create?
  {
    var c, o := st.connection, st.observables[step.id];
    match step
    case On(Data, id, handler) => OnData(c, o, id, handler)
    case Off(Data, id, handler) => OffData(c, o, id, handler)
    case On(Error, id, handler) => OnError(c, o, id, handler)
    case Off(Error, id, handler) => OffError(c, o, id, handler)
  }

  predicate Duplicate(st: State, step: Step)
    requires Enabled(st, step)
  {
    step.On? && step.event.Data? && step.handler in st.observables[step.id].subscribers
  }

  function Next(st: State, step: Step): State
    requires Enabled(st, step)
  {
    if step.Create? then st.(observables := st.observables + [Observable(step.type_, {}, false, {}, false)])
    else
      var (connection, observable) := Outcome(st, step);
      State(connection, st.observables[step.id := observable],
            if Duplicate(st, step) then st.duplicates + 1 else st.duplicates)
  }

  ghost predicate Run(st: State, steps: seq<Step>)
    decreases |steps|
  {
    steps == [] || (Enabled(st, steps[0]) && Run(Next(st, steps[0]), steps[1..]))
  }

  ghost function Final(st: State, steps: seq<Step>): State
    requires Run(st, steps)
    decreases |steps|
  {
    if steps == [] then st else Final(Next(st, steps[0]), steps[1..])
  }

  const START := State(Connection(0, [], [], 0), [], 0)

  function Total(observables: seq<Observable>): nat {
    if observables == [] then 0
    else Total(observables[..|observables| - 1]) + |observables[|observables| - 1].subscribers|
  }

  // ---------------------------------------------------------------------------------
  // The invariant

  ghost predicate NoRepeats<T(!new)>(list: seq<T>) {
    forall i, j | 0 <= i < j < |list| :: list[i] != list[j]
  }

  /** The counter is the number of data subscribers plus the duplicates that were counted too. */
  ghost predicate Counted(st: State) {
    st.connection.value == Total(st.observables) + st.duplicates
  }

  ghost predicate Wanted(st: State, l: Listener) {
    l.owner < |st.observables| && l.type_ == st.observables[l.owner].type_
    && st.observables[l.owner].subscribers != {}
  }

  ghost predicate ErrorWanted(st: State, id: nat) {
    id < |st.observables| && st.observables[id].errorSubscribers != {}
  }

  /** Every observable with subscribers has its handler registered, once, and no other has. */
  ghost predicate Registered(st: State) {
    && NoRepeats(st.connection.listeners)
    && (forall l :: l in st.connection.listeners <==> Wanted(st, l))
    && (forall i | 0 <= i < |st.observables| ::
          st.observables[i].hasHandler <==> st.observables[i].subscribers != {})
  }

  ghost predicate ErrorsRegistered(st: State) {
    && NoRepeats(st.connection.errorListeners)
    && (forall id :: id in st.connection.errorListeners <==> ErrorWanted(st, id))
    && (forall i | 0 <= i < |st.observables| ::
          st.observables[i].hasErrorHandler <==> st.observables[i].errorSubscribers != {})
  }

  ghost predicate Inv(st: State) {
    Counted(st) && Registered(st) && ErrorsRegistered(st)
  }

  lemma {:induction false} TotalUpdate(observables: seq<Observable>, id: nat, o: Observable)
    requires id < |observables|
    ensures Total(observables[id := o]) == Total(observables) - |observables[id].subscribers| + |o.subscribers|
  {
    var n := |observables| - 1;
    if id == n {
      assert observables[id := o][..n] == observables[..n];
    } else {
      assert observables[id := o][..n] == observables[..n][id := o];
      TotalUpdate(observables[..n], id, o);
    }
  }

  lemma {:induction false} TotalCovers(observables: seq<Observable>, id: nat)
    requires id < |observables|
    ensures Total(observables) >= |observables[id].subscribers|
  {
    var n := |observables| - 1;
    if id < n {
      TotalCovers(observables[..n], id);
    }
  }

  lemma {:induction false} RemoveLatestRemoves<T(!new)>(list: seq<T>, x: T)
    requires NoRepeats(list)
    ensures NoRepeats(RemoveLatest(list, x))
    ensures forall y :: y in RemoveLatest(list, x) <==> y in list && y != x
    decreases |list|
  {
    if list != [] {
      var n := |list| - 1;
      var rest := list[..n];
      assert list == rest + [list[n]];
      if list[n] != x {
        RemoveLatestRemoves(rest, x);
        assert forall i | 0 <= i < |RemoveLatest(rest, x)| :: RemoveLatest(rest, x)[i] in rest;
      }
    }
  }

  /** What a step on one observable needs to keep the registrations of all. */
  lemma {:induction false} RegisteredAfter(st: State, after: State, id: nat)
    requires Registered(st) && id < |st.observables| == |after.observables|
    requires forall i | 0 <= i < |st.observables| && i != id :: after.observables[i] == st.observables[i]
    requires var o, p, mine := st.observables[id], after.observables[id], Listener(st.observables[id].type_, id);
      && p.type_ == o.type_ && (p.hasHandler <==> p.subscribers != {})
      && (p.hasHandler == o.hasHandler ==> after.connection.listeners == st.connection.listeners)
      && (p.hasHandler && !o.hasHandler ==> after.connection.listeners == st.connection.listeners + [mine])
      && (!p.hasHandler && o.hasHandler ==> after.connection.listeners == RemoveLatest(st.connection.listeners, mine))
    ensures Registered(after)
  {
    var mine := Listener(st.observables[id].type_, id);
    RemoveLatestRemoves(st.connection.listeners, mine);
    assert mine in st.connection.listeners <==> st.observables[id].hasHandler;
    forall l ensures l in after.connection.listeners <==> Wanted(after, l) {
      assert l.owner != id ==> Wanted(after, l) == Wanted(st, l);
    }
  }

  lemma {:induction false} ErrorsRegisteredAfter(st: State, after: State, id: nat)
    requires ErrorsRegistered(st) && id < |st.observables| == |after.observables|
    requires forall i | 0 <= i < |st.observables| && i != id :: after.observables[i] == st.observables[i]
    requires var o, p := st.observables[id], after.observables[id];
      && (p.hasErrorHandler <==> p.errorSubscribers != {})
      && (p.hasErrorHandler == o.hasErrorHandler ==> after.connection.errorListeners == st.connection.errorListeners)
      && (p.hasErrorHandler && !o.hasErrorHandler ==>
            after.connection.errorListeners == st.connection.errorListeners + [id])
      && (!p.hasErrorHandler && o.hasErrorHandler ==>
            after.connection.errorListeners == RemoveLatest(st.connection.errorListeners, id))
    ensures ErrorsRegistered(after)
  {
    RemoveLatestRemoves(st.connection.errorListeners, id);
    assert id in st.connection.errorListeners <==> st.observables[id].hasErrorHandler;
    forall i: nat ensures i in after.connection.errorListeners <==> ErrorWanted(after, i) {
      assert i != id ==> ErrorWanted(after, i) == ErrorWanted(st, i);
    }
  }

  lemma {:induction false} SubscribeKeeps(st: State, id: nat, handler: nat)
    requires Inv(st) && id < |st.observables|
    ensures Inv(Next(st, On(Data, id, handler)))
  {
    var o, after := st.observables[id], Next(st, On(Data, id, handler));
    TotalUpdate(st.observables, id, after.observables[id]);
    assert handler in o.subscribers + {handler};
    assert handler in o.subscribers ==> o.subscribers + {handler} == o.subscribers;
    RegisteredAfter(st, after, id);
    ErrorsRegisteredAfter(st, after, id);
  }

  lemma {:induction false} UnsubscribeKeeps(st: State, id: nat, handler: nat)
    requires Inv(st) && id < |st.observables|
    ensures Inv(Next(st, Off(Data, id, handler)))
  {
    var o, after := st.observables[id], Next(st, Off(Data, id, handler));
    TotalUpdate(st.observables, id, after.observables[id]);
    assert handler !in o.subscribers ==> o.subscribers - {handler} == o.subscribers;
    RegisteredAfter(st, after, id);
    ErrorsRegisteredAfter(st, after, id);
  }

  lemma {:induction false} ErrorStepKeeps(st: State, step: Step)
    requires Inv(st) && Enabled(st, step) && !step.Create? && step.event.Error?
    ensures Inv(Next(st, step))
  {
    var id, handler := step.id, step.handler;
    var o, after := st.observables[id], Next(st, step);
    TotalUpdate(st.observables, id, after.observables[id]);
    assert handler in o.errorSubscribers + {handler};
    RegisteredAfter(st, after, id);
    ErrorsRegisteredAfter(st, after, id);
  }

  lemma {:induction false} CreateKeeps(st: State, type_: nat)
    requires Inv(st)
    ensures Inv(Next(st, Create(type_)))
  {
    var after := Next(st, Create(type_));
    assert after.observables[..|st.observables|] == st.observables;
    forall l ensures Wanted(after, l) == Wanted(st, l) {
    }
    forall i: nat ensures ErrorWanted(after, i) == ErrorWanted(st, i) {
    }
  }

  /** In every run the counter is exact up to duplicate subscriptions, and the shared handlers
      are registered exactly while somebody subscribes. */
  lemma {:induction false} RunKeepsInv(st: State, steps: seq<Step>)
    requires Inv(st) && Run(st, steps)
    ensures Inv(Final(st, steps))
    decreases |steps|
  {
    if steps != [] {
      StepKeepsInv(st, steps[0]);
      RunKeepsInv(Next(st, steps[0]), steps[1..]);
    }
  }

  lemma {:induction false} StepKeepsInv(st: State, step: Step)
    requires Inv(st) && Enabled(st, step)
    ensures Inv(Next(st, step))
  {
    if step.Create? {
      CreateKeeps(st, step.type_);
    } else if step == On(Data, step.id, step.handler) {
      SubscribeKeeps(st, step.id, step.handler);
    } else if step == Off(Data, step.id, step.handler) {
      UnsubscribeKeeps(st, step.id, step.handler);
    } else {
      ErrorStepKeeps(st, step);
    }
  }

  // ---------------------------------------------------------------------------------
  // Who is subscribed

  function Subscribers(o: Observable, event: Event): set<nat> {
    match event
    case Data => o.subscribers
    case Error => o.errorSubscribers
  }

  /** The steps subscribe the handler and do not unsubscribe it afterwards. */
  ghost predicate EndsOn(steps: seq<Step>, event: Event, id: nat, handler: nat) {
    exists i :: 0 <= i < |steps| && steps[i] == On(event, id, handler) && Off(event, id, handler) !in steps[i..]
  }

  lemma {:induction false} EndsOnStep(steps: seq<Step>, event: Event, id: nat, handler: nat)
    requires steps != []
    ensures EndsOn(steps, event, id, handler)
            <==> EndsOn(steps[1..], event, id, handler)
                 || (steps[0] == On(event, id, handler) && Off(event, id, handler) !in steps[1..])
  {
    var rest := steps[1..];
    assert steps[0..] == steps == [steps[0]] + rest;
    assert forall i | 0 <= i < |rest| :: rest[i] == steps[i + 1] && rest[i..] == steps[i + 1..];
    if EndsOn(steps, event, id, handler) {
      var i :| 0 <= i < |steps| && steps[i] == On(event, id, handler) && Off(event, id, handler) !in steps[i..];
      if i > 0 {
        assert rest[i - 1] == steps[i];
      }
    }
  }

  predicate SubscribedTo(st: State, event: Event, id: nat, handler: nat) {
    id < |st.observables| && handler in Subscribers(st.observables[id], event)
  }

  lemma {:induction false} StepSubscribes(st: State, step: Step, event: Event, id: nat, handler: nat)
    requires Enabled(st, step)
    ensures SubscribedTo(Next(st, step), event, id, handler)
            <==> if step == On(event, id, handler) then true
                 else if step == Off(event, id, handler) then false
                 else SubscribedTo(st, event, id, handler)
  {
  }

  lemma {:induction false} SubscribedFrom(st: State, steps: seq<Step>, event: Event, id: nat, handler: nat)
    requires Run(st, steps)
    ensures SubscribedTo(Final(st, steps), event, id, handler)
            <==> EndsOn(steps, event, id, handler)
                 || (SubscribedTo(st, event, id, handler) && Off(event, id, handler) !in steps)
    decreases |steps|
  {
    if steps != [] {
      EndsOnStep(steps, event, id, handler);
      StepSubscribes(st, steps[0], event, id, handler);
      SubscribedFrom(Next(st, steps[0]), steps[1..], event, id, handler);
      assert steps == [steps[0]] + steps[1..];
    }
  }

  /** After any run the subscribers of an observable, for data and for errors, are exactly the
      handlers that were subscribed there and not unsubscribed since. */
  lemma {:induction false} SubscribedExactlyWhen(steps: seq<Step>, event: Event, id: nat, handler: nat)
    requires Run(START, steps)
    ensures SubscribedTo(Final(START, steps), event, id, handler) <==> EndsOn(steps, event, id, handler)
  {
    SubscribedFrom(START, steps, event, id, handler);
  }

  /** The types in which observables were created. */
  function Created(steps: seq<Step>): seq<nat> {
    if steps == [] then []
    else (if steps[0].Create? then [steps[0].type_] else []) + Created(steps[1..])
  }

  function TypesOf(observables: seq<Observable>): seq<nat> {
    seq(|observables|, i requires 0 <= i < |observables| => observables[i].type_)
  }

  /** Every observable keeps the type it was created with. */
  lemma {:induction false} TypesAreKept(st: State, steps: seq<Step>)
    requires Run(st, steps)
    ensures TypesOf(Final(st, steps).observables) == TypesOf(st.observables) + Created(steps)
    decreases |steps|
  {
    if steps != [] {
      var after, one := Next(st, steps[0]), if steps[0].Create? then [steps[0].type_] else [];
      TypesAreKept(after, steps[1..]);
      assert TypesOf(after.observables) == TypesOf(st.observables) + one;
    }
  }

  // ---------------------------------------------------------------------------------
  // The disconnect action

  /** The step takes the last data subscriber away. */
  ghost predicate Drops(st: State, step: Step)
    requires Enabled(st, step)
  {
    Total(st.observables) > 0 && Total(Next(st, step).observables) == 0
  }

  /** The step disconnects exactly when it takes the last subscriber away and no handler was ever
      subscribed twice; one duplicate keeps the connection up for good. */
  lemma {:induction false} DisconnectsExactlyOnDrop(st: State, step: Step)
    requires Inv(st) && Enabled(st, step)
    ensures Next(st, step).connection.disconnects
         == st.connection.disconnects + if Drops(st, step) && st.duplicates == 0 then 1 else 0
  {
    StepKeepsInv(st, step);
    if step.Create? {
      assert (st.observables + [Observable(step.type_, {}, false, {}, false)])[..|st.observables|] == st.observables;
    } else {
      var o := st.observables[step.id];
      var after := Next(st, step);
      TotalUpdate(st.observables, step.id, after.observables[step.id]);
      TotalCovers(after.observables, step.id);
      if step.On? && step.event.Data? {
        assert step.handler in after.observables[step.id].subscribers;
      } else if step.Off? && step.event.Data? {
        assert step.handler !in o.subscribers ==> o.subscribers - {step.handler} == o.subscribers;
      }
    }
  }

  ghost function DropCount(st: State, steps: seq<Step>): nat
    requires Run(st, steps)
    decreases |steps|
  {
    if steps == [] then 0
    else (if Drops(st, steps[0]) then 1 else 0) + DropCount(Next(st, steps[0]), steps[1..])
  }

  lemma {:induction false} DuplicatesOnlyGrow(st: State, steps: seq<Step>)
    requires Run(st, steps)
    ensures Final(st, steps).duplicates >= st.duplicates
    decreases |steps|
  {
    if steps != [] {
      DuplicatesOnlyGrow(Next(st, steps[0]), steps[1..]);
    }
  }

  /** Without duplicate subscriptions the disconnect action runs once for each drop to zero. */
  lemma {:induction false} OneDisconnectPerDrop(st: State, steps: seq<Step>)
    requires Inv(st) && Run(st, steps) && Final(st, steps).duplicates == 0
    ensures Final(st, steps).connection.disconnects == st.connection.disconnects + DropCount(st, steps)
    decreases |steps|
  {
    DuplicatesOnlyGrow(st, steps);
    if steps != [] {
      StepKeepsInv(st, steps[0]);
      DisconnectsExactlyOnDrop(st, steps[0]);
      OneDisconnectPerDrop(Next(st, steps[0]), steps[1..]);
    }
  }

  /** After a duplicate subscription the connection is never given up again. */
  lemma {:induction false} DuplicateNeverDisconnects(st: State, steps: seq<Step>)
    requires Inv(st) && Run(st, steps) && st.duplicates > 0
    ensures Final(st, steps).connection.disconnects == st.connection.disconnects
    decreases |steps|
  {
    if steps != [] {
      StepKeepsInv(st, steps[0]);
      DisconnectsExactlyOnDrop(st, steps[0]);
      DuplicateNeverDisconnects(Next(st, steps[0]), steps[1..]);
    }
  }

  // ---------------------------------------------------------------------------------
  // Delivery

  /** One handler run by the emitter: which subscribers are called, if the filter lets it pass. */
  function Called(st: State, l: Listener, type_: nat, passes: nat -> bool): multiset<(nat, nat)> {
    if l.type_ == type_ && l.owner < |st.observables| && passes(l.owner) then
      multiset(set h | h in st.observables[l.owner].subscribers :: (l.owner, h))
    else multiset{}
  }

  function Delivered(st: State, listeners: seq<Listener>, type_: nat, passes: nat -> bool): multiset<(nat, nat)> {
    if listeners == [] then multiset{}
    else Called(st, listeners[0], type_, passes) + Delivered(st, listeners[1..], type_, passes)
  }

  lemma {:induction false} DeliveredByOwn(st: State, listeners: seq<Listener>, type_: nat, passes: nat -> bool,
                                          id: nat, handler: nat)
    requires NoRepeats(listeners) && forall i | 0 <= i < |listeners| :: Wanted(st, listeners[i])
    ensures Delivered(st, listeners, type_, passes)[(id, handler)]
         == if Listener(type_, id) in listeners && id < |st.observables| && passes(id)
               && handler in st.observables[id].subscribers
            then 1 else 0
    decreases |listeners|
  {
    if listeners != [] {
      var l := listeners[0];
      DeliveredByOwn(st, listeners[1..], type_, passes, id, handler);
      assert listeners == [l] + listeners[1..];
      CalledByOwn(st, l, type_, passes, id, handler);
    }
  }

  lemma {:induction false} CalledByOwn(st: State, l: Listener, type_: nat, passes: nat -> bool, id: nat, handler: nat)
    requires Wanted(st, l)
    ensures Called(st, l, type_, passes)[(id, handler)]
         == if l == Listener(type_, id) && passes(id) && handler in st.observables[id].subscribers then 1 else 0
  {
    if l.type_ == type_ && passes(l.owner) {
      var called := set h | h in st.observables[l.owner].subscribers :: (l.owner, h);
      assert (id, handler) in called <==> id == l.owner && handler in st.observables[id].subscribers;
      assert multiset(called)[(id, handler)] == if (id, handler) in called then 1 else 0;
    }
  }

  lemma {:induction false} RegisteredDeliver(st: State, type_: nat, passes: nat -> bool, id: nat, handler: nat)
    requires Registered(st)
    ensures Delivered(st, st.connection.listeners, type_, passes)[(id, handler)]
         == if id < |st.observables| && st.observables[id].type_ == type_ && passes(id)
               && handler in st.observables[id].subscribers then 1 else 0
  {
    var listeners := st.connection.listeners;
    forall i | 0 <= i < |listeners| ensures Wanted(st, listeners[i]) {
      assert listeners[i] in listeners;
    }
    DeliveredByOwn(st, listeners, type_, passes, id, handler);
    assert Listener(type_, id) in listeners <==> Wanted(st, Listener(type_, id));
  }

  /** A change reaches every subscriber of its type whose filter accepts it exactly once, and
      nobody else. */
  lemma {:induction false} EverySubscriberOnce(steps: seq<Step>, type_: nat, passes: nat -> bool, id: nat, handler: nat)
    requires Run(START, steps)
    ensures var st := Final(START, steps);
      Delivered(st, st.connection.listeners, type_, passes)[(id, handler)]
      == if id < |st.observables| && st.observables[id].type_ == type_ && passes(id)
            && handler in st.observables[id].subscribers then 1 else 0
  {
    RunKeepsInv(START, steps);
    var st := Final(START, steps);
    RegisteredDeliver(st, type_, passes, id, handler);
  }
}
