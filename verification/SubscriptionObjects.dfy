/** The connection state and its observables as objects that update their fields in place, each
    method tied to the step it takes. */
module SubscriptionObjects {
  import opened Subscriptions

  class DatabaseConnectionState {
    var count: int
    var listeners: seq<Listener>
    var errorListeners: seq<nat>
    var disconnects: nat

    ghost function Value(): Connection
      reads this
    {
      Connection(count, listeners, errorListeners, disconnects)
    }

    constructor ()
      ensures Value() == START.connection
    {
      count := 0;
      listeners := [];
      errorListeners := [];
      disconnects := 0;
    }

    method Inc()
      modifies this`count
      ensures count == old(count) + 1
    {
      count := count + 1;
    }

    /** Runs the disconnect action when the counter reaches zero. */
    method DecOne()
      modifies this
      ensures Value() == Dec(old(Value()))
    {
      count := count - 1;
      if count == 0 {
        disconnects := disconnects + 1;
      }
    }

    method AddOnChange(l: Listener)
      modifies this`listeners
      ensures listeners == old(listeners) + [l]
    {
      listeners := listeners + [l];
    }

    method RemoveOnChange(l: Listener)
      modifies this`listeners
      ensures listeners == RemoveLatest(old(listeners), l)
    {
      listeners := DropLatest(listeners, l);
    }

    method AddOnError(id: nat)
      modifies this`errorListeners
      ensures errorListeners == old(errorListeners) + [id]
    {
      errorListeners := errorListeners + [id];
    }

    method RemoveOnError(id: nat)
      modifies this`errorListeners
      ensures errorListeners == RemoveLatest(old(errorListeners), id)
    {
      errorListeners := DropLatest(errorListeners, id);
    }
  }

  lemma {:induction false} RemoveLatestInFront<T>(list: seq<T>, k: nat, x: T)
    requires k <= |list| && forall i | k <= i < |list| :: list[i] != x
    ensures RemoveLatest(list, x) == RemoveLatest(list[..k], x) + list[k..]
    decreases |list|
  {
    var n := |list| - 1;
    if k <= n {
      RemoveLatestInFront(list[..n], k, x);
      assert list[..n][..k] == list[..k];
      assert list[..n][k..] + [list[n]] == list[k..];
    } else {
      assert list[..k] == list;
    }
  }

  /** The emitter scans its listeners from the end. */
  method DropLatest<T(==)>(list: seq<T>, x: T) returns (left: seq<T>)
    ensures left == RemoveLatest(list, x)
  {
    var k := |list|;
    while k > 0
      invariant 0 <= k <= |list|
      invariant forall i | k <= i < |list| :: list[i] != x
    {
      k := k - 1;
      if list[k] == x {
        RemoveLatestInFront(list, k + 1, x);
        assert list[..k + 1][..k] == list[..k];
        return list[..k] + list[k + 1..];
      }
    }
    RemoveLatestInFront(list, 0, x);
    assert list[0..] == list;
    return list;
  }

  class ChangesObservable {
    const type_: nat
    const id: nat
    const connection: DatabaseConnectionState
    var subscribers: set<nat>
    var errorSubscribers: set<nat>
    var hasHandler: bool
    var hasErrorHandler: bool

    ghost function Value(): Observable
      reads this
    {
      Observable(type_, subscribers, hasHandler, errorSubscribers, hasErrorHandler)
    }

    constructor (type_: nat, id: nat, connection: DatabaseConnectionState)
      ensures this.type_ == type_ && this.id == id && this.connection == connection
      ensures Value() == Observable(type_, {}, false, {}, false)
    {
      this.type_ := type_;
      this.id := id;
      this.connection := connection;
      subscribers := {};
      errorSubscribers := {};
      hasHandler := false;
      hasErrorHandler := false;
    }

    method Subscribe(event: Event, handler: nat)
      modifies this, connection
      ensures (connection.Value(), Value()) ==
        if event.Data? then OnData(old(connection.Value()), old(Value()), id, handler)
        else OnError(old(connection.Value()), old(Value()), id, handler)
    {
      match event
      case Data =>
        if !hasHandler {
          hasHandler := true;
          connection.AddOnChange(Listener(type_, id));
        }
        subscribers := subscribers + {handler};
        connection.Inc();
      case Error =>
        if !hasErrorHandler {
          hasErrorHandler := true;
          connection.AddOnError(id);
        }
        errorSubscribers := errorSubscribers + {handler};
    }

    method Unsubscribe(event: Event, handler: nat)
      modifies this, connection
      ensures (connection.Value(), Value()) ==
        if event.Data? then OffData(old(connection.Value()), old(Value()), id, handler)
        else OffError(old(connection.Value()), old(Value()), id, handler)
    {
      match event
      case Data =>
        var deleted := handler in subscribers;
        subscribers := subscribers - {handler};
        if deleted {
          connection.DecOne();
        }
        if subscribers == {} {
          if hasHandler {
            connection.RemoveOnChange(Listener(type_, id));
          }
          hasHandler := false;
        }
      case Error =>
        errorSubscribers := errorSubscribers - {handler};
        if errorSubscribers == {} {
          if hasErrorHandler {
            connection.RemoveOnError(id);
          }
          hasErrorHandler := false;
        }
    }
  }
}
