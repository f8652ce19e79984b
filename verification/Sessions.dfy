/** Whole calls of the external client, one after another: what the broker holds against handlers. */
module Sessions {
  // ---- Client and broker as values ---------------------------------------

  /** Handlers maps a filter to the subscription ids registered for it; remote is what the broker
      holds for this client. */
  datatype Session = Session(started: bool, handlers: map<string, set<int>>, remote: set<string>)

  /** A write of a filter fails exactly when the filter is refused; the packet is then not processed
      and the connection is lost. */
  type Refused = set<string>

  function Register(handlers: map<string, set<int>>, filter: string, id: int): map<string, set<int>> {
    handlers[filter := (if filter in handlers then handlers[filter] else {}) + {id}]
  }

  function Deregister(handlers: map<string, set<int>>, filter: string, id: int): map<string, set<int>> {
    if filter !in handlers then handlers
    else if handlers[filter] - {id} == {} then handlers - {filter}
    else handlers[filter := handlers[filter] - {id}]
  }

  /** Nothing to send, not connected, or the outcome of one SUBSCRIBE. */
  function SubscribeCall(s: Session, filter: string, id: int, accepted: bool): Session {
    var handlers := Register(s.handlers, filter, id);
    if (filter in s.handlers && s.handlers[filter] != {}) || !s.started then s.(handlers := handlers)
    else if accepted then s.(handlers := handlers, remote := s.remote + {filter})
    else s.(handlers := handlers, started := false)
  }

  function UnsubscribeCall(s: Session, filter: string, id: int, accepted: bool): Session {
    var handlers := Deregister(s.handlers, filter, id);
    if filter !in s.handlers || filter in handlers || !s.started then s.(handlers := handlers)
    else if accepted then s.(handlers := handlers, remote := s.remote - {filter})
    else s.(handlers := handlers, started := false)
  }

  /** A connection made, the session discarded if clean, and every filter sent again. */
  predicate Renew(s: Session, clean: bool, dialed: bool, refused: Refused, r: Session) {
    if !dialed then r == s
    else
      && r.handlers == s.handlers
      && r.started == (s.handlers.Keys !! refused)
      && (r.started ==> r.remote == (if clean then {} else s.remote) + s.handlers.Keys)
      && (if clean then {} else s.remote) <= r.remote <= (if clean then {} else s.remote) + (s.handlers.Keys - refused)
  }

  // ---- Client and broker as objects --------------------------------------

  class Broker {
    var filters: set<string>

    constructor ()
      ensures filters == {}
    {
      filters := {};
    }
  }

  class Client {
    const clean: bool
    const broker: Broker
    var started: bool
    var handlers: map<string, set<int>>

    constructor (clean: bool, broker: Broker)
      ensures this.clean == clean && this.broker == broker
      ensures State() == Session(false, map[], broker.filters)
    {
      this.clean, this.broker := clean, broker;
      started, handlers := false, map[];
    }

    function State(): Session
      reads this, broker
    {
      Session(started, handlers, broker.filters)
    }

    method SubscribeRemote(filter: string, accepted: bool) returns (ok: bool)
      requires started
      modifies this`started, broker
      ensures ok == accepted == started
      ensures broker.filters == if accepted then old(broker.filters) + {filter} else old(broker.filters)
    {
      if accepted {
        broker.filters := broker.filters + {filter};
      } else {
        started := false;
      }
      ok := accepted;
    }

    method Subscribe(filter: string, id: int, handler: bool, accepted: bool) returns (ok: bool)
      modifies this`started, this`handlers, broker
      ensures State() == if handler then SubscribeCall(old(State()), filter, id, accepted) else old(State())
      ensures ok <==> handler && (old(started) ==> started)
    {
      if !handler {
        return false;
      }
      var m: set<int> := {};
      if filter in handlers {
        m := handlers[filter];
      }
      var firstRemote := |m| == 0;
      handlers := handlers[filter := m + {id}];
      if !firstRemote || !started {
        return true;
      }
      ok := SubscribeRemote(filter, accepted);
    }

    method Unsubscribe(filter: string, id: int, accepted: bool) returns (ok: bool)
      modifies this`started, this`handlers, broker
      ensures State() == UnsubscribeCall(old(State()), filter, id, accepted)
      ensures ok <==> (old(started) ==> started)
    {
      if filter !in handlers {
        return true;
      }
      var m := handlers[filter] - {id};
      handlers := handlers[filter := m];
      var shouldRemoteUnsub := |m| == 0;
      if shouldRemoteUnsub {
        handlers := handlers - {filter};
      }
      if !shouldRemoteUnsub || !started {
        return true;
      }
      if accepted {
        broker.filters := broker.filters - {filter};
      } else {
        started := false;
      }
      ok := accepted;
    }

    /** Dialing, setConnected and the sending of every filter, in no particular order. */
    method Reconnect(dialed: bool, refused: Refused) returns (ok: bool)
      modifies this`started, broker
      ensures Renew(old(State()), clean, dialed, refused, State())
      ensures !dialed ==> State() == old(State())
      ensures dialed ==> (started <==> forall f | f in handlers :: f !in refused)
      ensures dialed && started ==> broker.filters == (if clean then {} else old(broker.filters)) + handlers.Keys
      ensures dialed && !clean ==> old(broker.filters) <= broker.filters
      ensures dialed ==> forall f | f in broker.filters ::
                (!clean && f in old(broker.filters)) || (f in handlers && f !in refused)
      ensures ok <==> dialed && started
    {
      if !dialed {
        return false;
      }
      if clean {
        broker.filters := {};
      }
      started := true;
      ghost var kept := broker.filters;
      var todo := handlers.Keys;
      while todo != {}
        invariant todo <= handlers.Keys && handlers == old(handlers)
        invariant started && broker.filters == kept + (handlers.Keys - todo)
        invariant handlers.Keys - todo !! refused
        decreases todo
      {
        var filter :| filter in todo;
        todo := todo - {filter};
        var sent := SubscribeRemote(filter, filter !in refused);
        if !sent {
          return false;
        }
      }
      ok := true;
    }

    method Start(dialed: bool, refused: Refused) returns (ok: bool)
      modifies this`started, broker
      ensures old(started) ==> ok && State() == old(State())
      ensures !old(started) ==> Renew(old(State()), clean, dialed, refused, State()) && ok == started
    {
      if started {
        return true;
      }
      ok := Reconnect(dialed, refused);
    }

    method Stop()
      modifies this`started
      ensures State() == old(State()).(started := false) && !started
    {
      started := false;
    }
  }

  // ---- Runs --------------------------------------------------------------

  datatype Call =
    | Subscribe(filter: string, id: int, accepted: bool)
    | Unsubscribe(filter: string, id: int, accepted: bool)
    | Start(dialed: bool, refused: Refused)
    | Reconnect(dialed: bool, refused: Refused)
    | Stop
    | Loss

  /** One call; a loss is reported by a read loop or a failed publish. */
  predicate Step(s: Session, clean: bool, c: Call, r: Session) {
    match c
    case Subscribe(filter, id, accepted) => r == SubscribeCall(s, filter, id, accepted)
    case Unsubscribe(filter, id, accepted) => r == UnsubscribeCall(s, filter, id, accepted)
    case Start(dialed, refused) => if s.started then r == s else Renew(s, clean, dialed, refused, r)
    case Reconnect(dialed, refused) => Renew(s, clean, dialed, refused, r)
    case Stop => r == s.(started := false)
    case Loss => r == s.(started := false)
  }

  predicate Run(clean: bool, remote: set<string>, calls: seq<Call>, states: seq<Session>) {
    && |states| == |calls| + 1
    && states[0] == Session(false, map[], remote)
    && forall k | 0 <= k < |calls| :: Step(states[k], clean, calls[k], states[k + 1])
  }

  predicate NoEmptyHandlers(s: Session) {
    forall filter | filter in s.handlers :: s.handlers[filter] != {}
  }

  /** With clean sessions the broker holds exactly the filters with handlers; with kept ones at least them. */
  predicate Agreed(s: Session, clean: bool) {
    s.started ==> if clean then s.remote == s.handlers.Keys else s.handlers.Keys <= s.remote
  }

  lemma StepKeeps(s: Session, clean: bool, c: Call, r: Session)
    requires NoEmptyHandlers(s) && Agreed(s, clean) && Step(s, clean, c, r)
    ensures NoEmptyHandlers(r) && Agreed(r, clean)
  {
    if c.Subscribe? || c.Unsubscribe? {
      assert Register(s.handlers, c.filter, c.id).Keys == s.handlers.Keys + {c.filter};
      var left := Deregister(s.handlers, c.filter, c.id);
      assert left.Keys == if c.filter in left then s.handlers.Keys else s.handlers.Keys - {c.filter};
    }
  }

  /** For every sequence of calls, failed writes and reconnects included: no filter is left with an
      empty handler set, and whenever the client is connected the broker's filters are the handlers'. */
  lemma {:induction false} BrokerAgrees(clean: bool, remote: set<string>, calls: seq<Call>, states: seq<Session>,
                                        k: nat)
    requires Run(clean, remote, calls, states) && k < |states|
    ensures NoEmptyHandlers(states[k]) && Agreed(states[k], clean)
  {
    if k == 0 {
    } else {
      BrokerAgrees(clean, remote, calls, states, k - 1);
      StepKeeps(states[k - 1], clean, calls[k - 1], states[k]);
    }
  }

  /** A filter has a handler with an id exactly while that id is registered and not removed since. */
  predicate Registered(calls: seq<Call>, filter: string, id: int) {
    if calls == [] then false
    else
      var n := |calls| - 1;
      match calls[n]
      case Subscribe(f, i, _) => (f == filter && i == id) || Registered(calls[..n], filter, id)
      case Unsubscribe(f, i, _) => !(f == filter && i == id) && Registered(calls[..n], filter, id)
      case _ => Registered(calls[..n], filter, id)
  }

  lemma {:induction false} HandlersRegistered(clean: bool, remote: set<string>, calls: seq<Call>,
                                              states: seq<Session>, filter: string, id: int)
    requires Run(clean, remote, calls, states)
    ensures var s := states[|calls|];
            filter in s.handlers && id in s.handlers[filter] <==> Registered(calls, filter, id)
  {
    if calls == [] {
    } else {
      var n := |calls| - 1;
      assert Run(clean, remote, calls[..n], states[..n + 1]);
      HandlersRegistered(clean, remote, calls[..n], states[..n + 1], filter, id);
      assert Step(states[n], clean, calls[n], states[n + 1]);
    }
  }

  lemma Member<T>(xs: set<T>) returns (x: T)
    requires xs != {}
    ensures x in xs
  {
    x :| x in xs;
  }

  /** So under clean sessions a connected client is subscribed at the broker to exactly the filters
      some call registered and none removed, whatever failed on the way. */
  lemma RemoteIsRegistered(remote: set<string>, calls: seq<Call>, states: seq<Session>, filter: string)
    requires Run(true, remote, calls, states) && states[|calls|].started
    ensures filter in states[|calls|].remote <==> exists id :: Registered(calls, filter, id)
  {
    var s := states[|calls|];
    BrokerAgrees(true, remote, calls, states, |calls|);
    if filter in s.remote {
      var id := Member(s.handlers[filter]);
      HandlersRegistered(true, remote, calls, states, filter, id);
      assert Registered(calls, filter, id);
    }
    if id :| Registered(calls, filter, id) {
      HandlersRegistered(true, remote, calls, states, filter, id);
    }
  }

  // ---- Kept sessions -----------------------------------------------------

  /** The call takes the filter's last handler away. */
  predicate DropsLast(s: Session, c: Call, filter: string) {
    c.Unsubscribe? && c.filter == filter && filter in s.handlers && filter !in Deregister(s.handlers, filter, c.id)
  }

  /** The filter's UNSUBSCRIBE went through. */
  predicate Withdrawn(s: Session, c: Call, filter: string) {
    DropsLast(s, c, filter) && s.started && c.accepted
  }

  /** The filter's SUBSCRIBE went through: its first handler's, or a new connection's. */
  predicate Delivered(s: Session, c: Call, r: Session, filter: string) {
    match c
    case Subscribe(f, _, accepted) => f == filter && s.started && accepted &&
        (filter in s.handlers ==> s.handlers[filter] == {})
    case Start(dialed, _) => !s.started && dialed && filter in s.handlers && filter in r.remote
    case Reconnect(dialed, _) => dialed && filter in s.handlers && filter in r.remote
    case _ => false
  }

  /** The broker got the filter at this point of the run, or had it from the start, and no withdrawal
      followed. */
  predicate HeldSince(remote: set<string>, calls: seq<Call>, states: seq<Session>, filter: string, j: nat)
    requires |states| == |calls| + 1
  {
    && j <= |calls|
    && (if j == 0 then filter in remote else Delivered(states[j - 1], calls[j - 1], states[j], filter))
    && forall k | j <= k < |calls| :: !Withdrawn(states[k], calls[k], filter)
  }

  /** The broker had the filter, whose last handler went away without a withdrawal at this point of the
      run, or which had none from the start; and no later call subscribed to it. */
  predicate StaleSince(remote: set<string>, calls: seq<Call>, states: seq<Session>, filter: string, j: nat)
    requires |states| == |calls| + 1
  {
    && j <= |calls|
    && (if j == 0 then filter in remote
        else filter in states[j - 1].remote && DropsLast(states[j - 1], calls[j - 1], filter) &&
             !Withdrawn(states[j - 1], calls[j - 1], filter))
    && forall k | j <= k < |calls| :: !(calls[k].Subscribe? && calls[k].filter == filter)
  }

  predicate Stale(s: Session, filter: string) {
    filter in s.remote && filter !in s.handlers
  }

  lemma KeptStep(s: Session, c: Call, r: Session, filter: string)
    requires Step(s, false, c, r)
    ensures filter in r.remote <==> Delivered(s, c, r, filter) || (filter in s.remote && !Withdrawn(s, c, filter))
    ensures Stale(r, filter) <==>
            (filter in s.remote && DropsLast(s, c, filter) && !Withdrawn(s, c, filter)) ||
            (Stale(s, filter) && !(c.Subscribe? && c.filter == filter))
  {
    if c.Unsubscribe? && filter !in s.handlers {
      assert filter !in Deregister(s.handlers, c.filter, c.id);
    }
  }

  /** With kept sessions the broker holds a filter exactly when a SUBSCRIBE of it went through, or it
      was there from the start, and no UNSUBSCRIBE of it has gone through since. */
  lemma {:induction false} KeptAtBroker(remote: set<string>, calls: seq<Call>, states: seq<Session>, filter: string)
    requires Run(false, remote, calls, states)
    ensures filter in states[|calls|].remote <==> exists j: nat :: HeldSince(remote, calls, states, filter, j)
  {
    if calls == [] {
      assert filter in remote ==> HeldSince(remote, calls, states, filter, 0);
    } else {
      var n := |calls| - 1;
      assert Run(false, remote, calls[..n], states[..n + 1]);
      KeptAtBroker(remote, calls[..n], states[..n + 1], filter);
      KeptStep(states[n], calls[n], states[n + 1], filter);
      hide Step, Withdrawn, Delivered;
      forall j: nat
        ensures HeldSince(remote, calls, states, filter, j) <==>
                if j == n + 1 then Delivered(states[n], calls[n], states[n + 1], filter)
                else
                  && HeldSince(remote, calls[..n], states[..n + 1], filter, j)
                  && !Withdrawn(states[n], calls[n], filter)
      {
      }
      hide HeldSince, Run;
      assert HeldSince(remote, calls, states, filter, n + 1) <==> Delivered(states[n], calls[n], states[n + 1], filter);
      if filter in states[n].remote && !Withdrawn(states[n], calls[n], filter) {
        var j: nat :| HeldSince(remote, calls[..n], states[..n + 1], filter, j);
        assert HeldSince(remote, calls, states, filter, j);
      }
    }
  }

  /** With kept sessions the broker holds a filter that has no handler exactly when it did so from the
      start, or some call took its last handler away while disconnected or failing to write, the broker
      then holding it; and no later call subscribed to it. */
  lemma {:induction false} StaleExactly(remote: set<string>, calls: seq<Call>, states: seq<Session>, filter: string)
    requires Run(false, remote, calls, states)
    ensures Stale(states[|calls|], filter) <==> exists j: nat :: StaleSince(remote, calls, states, filter, j)
  {
    if calls == [] {
      assert filter in remote ==> StaleSince(remote, calls, states, filter, 0);
    } else {
      var n := |calls| - 1;
      assert Run(false, remote, calls[..n], states[..n + 1]);
      StaleExactly(remote, calls[..n], states[..n + 1], filter);
      KeptStep(states[n], calls[n], states[n + 1], filter);
      hide Step, Stale, DropsLast, Withdrawn;
      forall j: nat
        ensures StaleSince(remote, calls, states, filter, j) <==>
                if j == n + 1 then
                  && filter in states[n].remote && DropsLast(states[n], calls[n], filter)
                  && !Withdrawn(states[n], calls[n], filter)
                else
                  && StaleSince(remote, calls[..n], states[..n + 1], filter, j)
                  && !(calls[n].Subscribe? && calls[n].filter == filter)
      {
      }
      hide StaleSince, Run;
      assert StaleSince(remote, calls, states, filter, n + 1) <==>
          filter in states[n].remote && DropsLast(states[n], calls[n], filter) &&
              !Withdrawn(states[n], calls[n], filter);
      if Stale(states[n], filter) && !(calls[n].Subscribe? && calls[n].filter == filter) {
        var j: nat :| StaleSince(remote, calls[..n], states[..n + 1], filter, j);
        assert StaleSince(remote, calls, states, filter, j);
      }
    }
  }

  /** So a connected client and its broker agree exactly when no filter has gone stale and stayed so. */
  lemma KeptSessionAgrees(remote: set<string>, calls: seq<Call>, states: seq<Session>)
    requires Run(false, remote, calls, states) && states[|calls|].started
    ensures states[|calls|].remote == states[|calls|].handlers.Keys <==>
            forall filter, j: nat :: !StaleSince(remote, calls, states, filter, j)
  {
    var s := states[|calls|];
    BrokerAgrees(false, remote, calls, states, |calls|);
    forall filter, j: nat | StaleSince(remote, calls, states, filter, j)
      ensures Stale(s, filter)
    {
      StaleExactly(remote, calls, states, filter);
    }
    if s.remote != s.handlers.Keys {
      var filter :| filter in s.remote && filter !in s.handlers.Keys;
      StaleExactly(remote, calls, states, filter);
    }
  }

  /** And it can have kept one: a filter unsubscribed while disconnected stays at the broker. */
  lemma StaleFilter(filter: string) returns (calls: seq<Call>, states: seq<Session>)
    ensures Run(false, {}, calls, states) && states[|calls|].started
    ensures states[|calls|].remote == {filter} && states[|calls|].handlers == map[]
  {
    calls := [Start(true, {}), Subscribe(filter, 1, true), Stop, Unsubscribe(filter, 1, true), Start(true, {})];
    var held := map[filter := {1}];
    states := [Session(false, map[], {}), Session(true, map[], {}), Session(true, held, {filter}),
      Session(false, held, {filter}), Session(false, map[], {filter}), Session(true, map[], {filter})];
    var none: set<int> := {};
    assert {1} - {1} == none && none + {1} == {1};
    assert held - {filter} == map[];
    assert Register(map[], filter, 1) == held && Deregister(held, filter, 1) == map[];
  }
}
