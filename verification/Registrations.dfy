/** The topic registrar over the external client, whole calls one after another. */
module Registrations {
  import opened Subscribers
  import Sessions

  /** Failed holds the entries of the Topic calls whose Subscribe returned an error. */
  datatype State = State(reg: Registrar, session: Sessions.Session, failed: set<Entry>)

  /** A Topic call no Stop interrupts, and whether it returned nil. */
  function TopicCall(s: State, acl: Acl, filter: string, accepted: bool): (State, bool) {
    var (reg, a) := Admit(s.reg, acl, filter);
    if !a.Reserved? then (s, false)
    else
      var session := Sessions.SubscribeCall(s.session, filter, a.entry.id, accepted);
      if s.session.started && !session.started then (State(reg, session, s.failed + {a.entry}), false)
      else (State(Settle(reg, a.entry).0, session, s.failed), true)
  }

  function Drained(session: Sessions.Session, items: seq<Entry>, refused: set<Entry>): Sessions.Session {
    if items == [] then session
    else
      var e := items[|items| - 1];
      Sessions.UnsubscribeCall(Drained(session, items[..|items| - 1], refused), e.filter, e.id, e !in refused)
  }

  function StopCall(s: State, refused: set<Entry>): State {
    var (reg, taken) := Close(s.reg);
    if taken.None? then s else State(reg, Drained(s.session, taken.value, refused), s.failed)
  }

  /** What a Topic call answers: nil exactly when running, allowed, and not failing to send a filter that
      has to be sent. Its handler is registered at the client either way, its entry kept or marked failed. */
  lemma TopicOutcome(s: State, acl: Acl, filter: string, accepted: bool)
    ensures var (r, ok) := TopicCall(s, acl, filter, accepted);
            var e := Entry(filter, s.reg.nextID);
            var admitted := !s.reg.stopped && (acl.enabled ==> exists p | p in acl.allowed :: p <= filter);
            var sends := s.session.started && (filter in s.session.handlers ==> s.session.handlers[filter] == {});
            && (ok <==> admitted && (sends ==> accepted))
            && (!admitted ==> r == s)
            && (ok ==> r.reg == Registrar(e.id + 1, false, s.reg.items + [e]) && r.failed == s.failed)
            && (admitted && !ok ==> r.reg == Registrar(e.id + 1, false, s.reg.items) && r.failed == s.failed + {e})
            && (admitted ==> filter in r.session.handlers && e.id in r.session.handlers[filter])
  {
    AllowedPrefix(acl, filter);
    hide Allowed;
  }

  method Topic<H>(m: ManagedPubSub<H>, client: Sessions.Client, filter: string, handler: H, own: seq<H -> H>,
                  accepted: bool, ghost failed: set<Entry>) returns (ok: bool, ghost failed': set<Entry>)
    modifies m`nextID, m`items, client`started, client`handlers, client.broker
    ensures (State(m.Fields(), client.State(), failed'), ok) ==
            TopicCall(State(old(m.Fields()), old(client.State()), failed), m.acl, filter, accepted)
  {
    failed' := failed;
    var a, wrapped, chain := m.Reserve(filter, handler, own);
    if !a.Reserved? {
      return false, failed';
    }
    ok := client.Subscribe(filter, a.entry.id, true, accepted);
    if !ok {
      failed' := failed + {a.entry};
      return;
    }
    ok := m.Commit(a.entry);
  }

  method Stop<H>(m: ManagedPubSub<H>, client: Sessions.Client, refused: set<Entry>, ghost failed: set<Entry>)
    modifies m`items, m`stopped, client`started, client`handlers, client.broker
    ensures State(m.Fields(), client.State(), failed) ==
              StopCall(State(old(m.Fields()), old(client.State()), failed), refused)
  {
    var drain := m.BeginStop();
    if drain.None? {
      return;
    }
    var taken := drain.value;
    for i := 0 to |taken|
      invariant m.Fields() == Close(old(m.Fields())).0
      invariant client.State() == Drained(old(client.State()), taken[..i], refused)
    {
      assert taken[..i + 1][..i] == taken[..i];
      var ok := client.Unsubscribe(taken[i].filter, taken[i].id, taken[i] !in refused);
    }
    assert taken[..|taken|] == taken;
  }

  // ---- Runs --------------------------------------------------------------

  datatype Call = Topic(filter: string, accepted: bool) | Stop(refused: set<Entry>) | Connection(call: Sessions.Call)

  predicate Step(s: State, acl: Acl, clean: bool, c: Call, r: State) {
    match c
    case Topic(filter, accepted) => r == TopicCall(s, acl, filter, accepted).0
    case Stop(refused) => r == StopCall(s, refused)
    case Connection(call) =>
      !call.Subscribe? && !call.Unsubscribe? && Sessions.Step(s.session, clean, call, r.session) &&
          r == s.(session := r.session)
  }

  predicate Run(acl: Acl, clean: bool, remote: set<string>, calls: seq<Call>, states: seq<State>) {
    && |states| == |calls| + 1
    && states[0] == State(Registrar(1, false, []), Sessions.Session(false, map[], remote), {})
    && forall k | 0 <= k < |calls| :: Step(states[k], acl, clean, calls[k], states[k + 1])
  }

  predicate HasHandler(s: Sessions.Session, filter: string, id: int) {
    filter in s.handlers && id in s.handlers[filter]
  }

  /** The client's handlers are those of the entries kept and of the entries that failed. */
  ghost predicate Inv(s: State, clean: bool) {
    && Sessions.NoEmptyHandlers(s.session) && Sessions.Agreed(s.session, clean)
    && (forall e | e in s.reg.items || e in s.failed :: e.id < s.reg.nextID)
    && (forall e | e in s.reg.items :: e !in s.failed)
    && (forall filter, id | HasHandler(s.session, filter, id) :: id >= 0 && Held(s, Entry(filter, id)))
    && (forall e | Held(s, e) :: HasHandler(s.session, e.filter, e.id))
  }

  predicate Held(s: State, e: Entry) {
    e in s.reg.items || e in s.failed
  }

  lemma TopicKeeps(s: State, acl: Acl, clean: bool, filter: string, accepted: bool)
    requires Inv(s, clean)
    ensures Inv(TopicCall(s, acl, filter, accepted).0, clean)
  {
    var a := Admit(s.reg, acl, filter).1;
    if a.Reserved? {
      var e := a.entry;
      var session := Sessions.SubscribeCall(s.session, filter, e.id, accepted);
      Sessions.StepKeeps(s.session, clean, Sessions.Subscribe(filter, e.id, accepted), session);
      assert forall f, id :: HasHandler(session, f, id) <==>
               HasHandler(s.session, f, id) || (f == filter && id == e.id);
      var r := TopicCall(s, acl, filter, accepted).0;
      assert forall x :: Held(r, x) <==> Held(s, x) || x == e;
    }
  }

  lemma {:induction false} DrainKeeps(session: Sessions.Session, clean: bool, items: seq<Entry>, refused: set<Entry>)
    requires Sessions.NoEmptyHandlers(session) && Sessions.Agreed(session, clean)
    ensures var r := Drained(session, items, refused);
            Sessions.NoEmptyHandlers(r) && Sessions.Agreed(r, clean) &&
            forall f, id :: HasHandler(r, f, id) <==> HasHandler(session, f, id) && !(id >= 0 && Entry(f, id) in items)
  {
    if items == [] {
    } else {
      var n := |items| - 1;
      var e := items[n];
      DrainKeeps(session, clean, items[..n], refused);
      var before := Drained(session, items[..n], refused);
      var r := Drained(session, items, refused);
      Sessions.StepKeeps(before, clean, Sessions.Unsubscribe(e.filter, e.id, e !in refused), r);
      assert forall f, id :: HasHandler(r, f, id) <==> HasHandler(before, f, id) && !(f == e.filter && id == e.id);
      assert forall x :: x in items <==> x in items[..n] || x == e;
    }
  }

  lemma StopKeeps(s: State, clean: bool, refused: set<Entry>)
    requires Inv(s, clean)
    ensures Inv(StopCall(s, refused), clean)
  {
    DrainKeeps(s.session, clean, s.reg.items, refused);
    assert forall x :: Held(StopCall(s, refused), x) && !s.reg.stopped ==> x in s.failed;
  }

  lemma StepKeeps(s: State, acl: Acl, clean: bool, c: Call, r: State)
    requires Inv(s, clean) && Step(s, acl, clean, c, r)
    ensures Inv(r, clean) && s.failed <= r.failed
  {
    match c
    case Topic(filter, accepted) => TopicKeeps(s, acl, clean, filter, accepted);
    case Stop(refused) => StopKeeps(s, clean, refused);
    case Connection(call) =>
      Sessions.StepKeeps(s.session, clean, call, r.session);
      assert r.session.handlers == s.session.handlers;
      assert forall f, id :: HasHandler(r.session, f, id) <==> HasHandler(s.session, f, id);
      assert forall e :: Held(r, e) <==> Held(s, e);
  }

  lemma {:induction false} RunKeeps(acl: Acl, clean: bool, remote: set<string>, calls: seq<Call>, states: seq<State>,
                                    k: nat)
    requires Run(acl, clean, remote, calls, states) && k < |states|
    ensures Inv(states[k], clean)
  {
    if k == 0 {
    } else {
      hide Inv, Step;
      RunKeeps(acl, clean, remote, calls, states, k - 1);
      StepKeeps(states[k - 1], acl, clean, calls[k - 1], states[k]);
    }
  }

  lemma {:induction false} FailedStays(acl: Acl, clean: bool, remote: set<string>, calls: seq<Call>,
                                       states: seq<State>, j: nat, k: nat)
    requires Run(acl, clean, remote, calls, states) && j <= k < |states|
    ensures states[j].failed <= states[k].failed
  {
    if j < k {
      FailedStays(acl, clean, remote, calls, states, j, k - 1);
      RunKeeps(acl, clean, remote, calls, states, k - 1);
      hide Inv, Step;
      StepKeeps(states[k - 1], acl, clean, calls[k - 1], states[k]);
    }
  }

  predicate Owned(s: State, filter: string) {
    exists k :: 0 <= k < |s.reg.items| && s.reg.items[k].filter == filter
  }

  /** Over this client the registrar owns less than the broker holds: whenever it is connected, with
      clean sessions, the broker's filters are those of the kept entries and of the Topic calls that
      failed. So each has an owner exactly when each failed call's filter is kept by another call. */
  lemma FailedTopicsLinger(acl: Acl, remote: set<string>, calls: seq<Call>, states: seq<State>, k: nat)
    requires Run(acl, true, remote, calls, states) && k < |states| && states[k].session.started
    ensures var s := states[k];
            (forall f :: f in s.session.remote <==> Owned(s, f) || exists e | e in s.failed :: e.filter == f) &&
            ((forall f | f in s.session.remote :: Owned(s, f)) <==> forall e | e in s.failed :: Owned(s, e.filter))
  {
    RunKeeps(acl, true, remote, calls, states, k);
    var s := states[k];
    forall f
      ensures f in s.session.remote <==> Owned(s, f) || exists e | e in s.failed :: e.filter == f
    {
      if f in s.session.remote {
        var id := Sessions.Member(s.session.handlers[f]);
        assert HasHandler(s.session, f, id);
        assert Held(s, Entry(f, id));
      }
      if e :| Held(s, e) && e.filter == f {
        assert HasHandler(s.session, e.filter, e.id);
      }
      assert forall e | e in s.reg.items :: Held(s, e);
    }
  }

  /** A Topic call that was admitted and returned an error: from then on no item stands for it, Stop or
      not, and whenever the client is connected its filter is at the broker, kept sessions included. */
  lemma FailedTopicReturns(acl: Acl, clean: bool, remote: set<string>, calls: seq<Call>, states: seq<State>, j: nat,
                           k: nat)
    requires Run(acl, clean, remote, calls, states) && j < k < |states| && calls[j].Topic?
    requires Admit(states[j].reg, acl, calls[j].filter).1.Reserved?
    requires !TopicCall(states[j], acl, calls[j].filter, calls[j].accepted).1
    ensures var e := Admit(states[j].reg, acl, calls[j].filter).1.entry;
            e !in states[k].reg.items && (states[k].session.started ==> e.filter in states[k].session.remote)
  {
    var e := Admit(states[j].reg, acl, calls[j].filter).1.entry;
    assert Step(states[j], acl, clean, calls[j], states[j + 1]);
    assert e in states[j + 1].failed;
    FailedStays(acl, clean, remote, calls, states, j + 1, k);
    RunKeeps(acl, clean, remote, calls, states, k);
    assert Held(states[k], e);
    assert HasHandler(states[k].session, e.filter, e.id);
  }
}
