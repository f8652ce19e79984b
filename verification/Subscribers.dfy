/** The topic registrar: reserve an id, subscribe, then commit or roll back, racing with Stop. */
module Subscribers {
  import opened Text

  datatype Entry = Entry(filter: string, id: nat)

  datatype Acl = Acl(enabled: bool, allowed: seq<string>)

  predicate Allowed(acl: Acl, filter: string) {
    acl.enabled ==> exists i :: 0 <= i < |acl.allowed| && acl.allowed[i] <= filter
  }

  // ---- Critical sections -------------------------------------------------

  /** The fields the mutex guards, middlewares aside. */
  datatype Registrar = Registrar(nextID: nat, stopped: bool, items: seq<Entry>)

  datatype Admission = Stopped | NotAllowed | Reserved(entry: Entry)

  function Admit(r: Registrar, acl: Acl, filter: string): (Registrar, Admission) {
    if r.stopped then (r, Stopped)
    else if !Allowed(acl, filter) then (r, NotAllowed)
    else (r.(nextID := r.nextID + 1), Reserved(Entry(filter, r.nextID)))
  }

  /** The second critical section of Topic: keep the entry unless Stop came in between. */
  function Settle(r: Registrar, e: Entry): (Registrar, bool) {
    if r.stopped then (r, false) else (r.(items := r.items + [e]), true)
  }

  /** The critical section of Stop: the first call takes every item, later calls take nothing. */
  function Close(r: Registrar): (Registrar, Option<seq<Entry>>) {
    if r.stopped then (r, None) else (r.(stopped := true, items := []), Some(r.items))
  }

  // ---- Middlewares -------------------------------------------------------

  function Compose<H>(mws: seq<H -> H>, handler: H): H {
    if mws == [] then handler else mws[0](Compose(mws[1..], handler))
  }

  /** Middlewares given to Use run outside those given to Topic, whatever the split. */
  lemma {:induction false} ComposeAppend<H>(a: seq<H -> H>, b: seq<H -> H>, handler: H)
    ensures Compose(a + b, handler) == Compose(a, Compose(b, handler))
  {
    if a == [] {
      assert a + b == b;
    } else {
      assert (a + b)[1..] == a[1..] + b;
      ComposeAppend(a[1..], b, handler);
    }
  }

  /** Handlers from the outermost to the bare one, each the next one behind its middleware. */
  ghost predicate Chain<H>(chain: seq<H>, mws: seq<H -> H>, handler: H) {
    && |chain| == |mws| + 1 && chain[|mws|] == handler
    && forall k | 0 <= k < |mws| :: chain[k] == mws[k](chain[k + 1])
  }

  /** There is one such chain for a list of middlewares, and composing them gives its first handler. */
  lemma {:induction false} ChainStarts<H>(chain: seq<H>, mws: seq<H -> H>, handler: H)
    requires Chain(chain, mws, handler)
    ensures chain[0] == Compose(mws, handler)
  {
    if mws == [] {
    } else {
      ChainStarts(chain[1..], mws[1..], handler);
    }
  }

  /** The first middleware of the registrar sees a message before the first of the call. */
  lemma ComposeTwo<H>(m: H -> H, n: H -> H, handler: H)
    ensures Compose([m] + [n], handler) == m(n(handler)) && Compose([m], handler) == m(handler) &&
              Compose([], handler) == handler
  {
    ChainStarts([m(n(handler)), n(handler), handler], [m] + [n], handler);
    ChainStarts([m(handler), handler], [m], handler);
  }

  /** The chain is what the loop leaves behind, from its last turn to its first. */
  method ApplyTopicMiddlewares<H>(handler: H, mws: seq<H -> H>) returns (wrapped: H, ghost chain: seq<H>)
    ensures Chain(chain, mws, handler) && wrapped == chain[0]
    ensures wrapped == Compose(mws, handler)
  {
    wrapped := handler;
    chain := [handler];
    for i := |mws| downto 0
      invariant Chain(chain, mws[i..], handler) && wrapped == chain[0]
    {
      wrapped := mws[i](wrapped);
      chain := [wrapped] + chain;
    }
    ChainStarts(chain, mws, handler);
  }

  // ---- The registrar and a broker, as objects ----------------------------

  /** The broker's subscriptions, and what was last registered for each; whether it accepts a request
      is for the caller to say. */
  class Broker<H> {
    var live: set<Entry>
    var handlers: map<Entry, H>

    constructor ()
      ensures live == {} && handlers == map[]
    {
      live, handlers := {}, map[];
    }

    method Subscribe(e: Entry, handler: H, accepts: bool)
      modifies this
      ensures live == if accepts then old(live) + {e} else old(live)
      ensures handlers == if accepts then old(handlers)[e := handler] else old(handlers)
    {
      if accepts {
        live, handlers := live + {e}, handlers[e := handler];
      }
    }

    method Unsubscribe(e: Entry, accepts: bool)
      modifies this`live
      ensures live == if accepts then old(live) - {e} else old(live)
    {
      if accepts {
        live := live - {e};
      }
    }
  }

  class ManagedPubSub<H> {
    const acl: Acl
    var nextID: nat
    var stopped: bool
    var items: seq<Entry>
    var mws: seq<H -> H>

    constructor (acl: Acl)
      ensures this.acl == acl && mws == [] && Fields() == Registrar(1, false, [])
    {
      this.acl := acl;
      nextID, stopped, items, mws := 1, false, [], [];
    }

    function Fields(): Registrar
      reads this
    {
      Registrar(nextID, stopped, items)
    }

    method IsTopicAllowed(filter: string) returns (ok: bool)
      ensures ok <==> acl.enabled ==> exists p | p in acl.allowed :: |p| <= |filter| && filter[..|p|] == p
      ensures ok == Allowed(acl, filter)
    {
      if !acl.enabled {
        return true;
      }
      for i := 0 to |acl.allowed|
        invariant forall k | 0 <= k < i :: !(acl.allowed[k] <= filter)
      {
        if acl.allowed[i] <= filter {
          return true;
        }
      }
      ok := false;
    }

    method Reserve(filter: string, handler: H, own: seq<H -> H>)
      returns (a: Admission, wrapped: H, ghost chain: seq<H>)
      modifies this`nextID
      ensures (Fields(), a) == Admit(old(Fields()), acl, filter)
      ensures a == if stopped then Stopped else if !Allowed(acl, filter) then NotAllowed
                   else Reserved(Entry(filter, old(nextID)))
      ensures nextID == if a.Reserved? then old(nextID) + 1 else old(nextID)
      ensures a.Reserved? ==> Chain(chain, mws + own, handler) && wrapped == chain[0]
      ensures a.Reserved? ==> wrapped == Compose(mws, Compose(own, handler))
    {
      wrapped, chain := handler, [];
      if stopped {
        return Stopped, handler, [];
      }
      var ok := IsTopicAllowed(filter);
      if !ok {
        return NotAllowed, handler, [];
      }
      a := Reserved(Entry(filter, nextID));
      nextID := nextID + 1;
      wrapped, chain := ApplyTopicMiddlewares(handler, mws + own);
      ComposeAppend(mws, own, handler);
    }

    method Commit(e: Entry) returns (kept: bool)
      modifies this`items
      ensures (Fields(), kept) == Settle(old(Fields()), e)
      ensures kept == !stopped && items == if kept then old(items) + [e] else old(items)
    {
      if stopped {
        return false;
      }
      items := items + [e];
      kept := true;
    }

    method BeginStop() returns (drain: Option<seq<Entry>>)
      modifies this`items, this`stopped
      ensures (Fields(), drain) == Close(old(Fields()))
      ensures stopped && if old(stopped) then drain.None? && items == old(items)
                         else drain == Some(old(items)) && items == []
    {
      if stopped {
        return None;
      }
      stopped := true;
      drain := Some(items);
      items := [];
    }

    method Use(more: seq<H -> H>)
      modifies this`mws
      ensures mws == old(mws) + more
    {
      if |more| == 0 {
        return;
      }
      mws := mws + more;
    }

    /** A whole Topic call that no Stop interrupts. */
    method Topic(broker: Broker<H>, filter: string, handler: H, own: seq<H -> H>, accepts: bool) returns (kept: bool)
      modifies this`nextID, this`items, broker
      ensures kept <==> !stopped && Allowed(acl, filter) && accepts
      ensures kept ==> items == old(items) + [Entry(filter, old(nextID))]
      ensures kept ==> broker.live == old(broker.live) + {Entry(filter, old(nextID))}
      ensures kept ==>
                broker.handlers == old(broker.handlers)[Entry(filter, old(nextID)) := Compose(mws + own, handler)]
      ensures !kept ==> items == old(items)
      ensures !kept ==> broker.live == old(broker.live) && broker.handlers == old(broker.handlers)
      ensures nextID == old(nextID) + if !stopped && Allowed(acl, filter) then 1 else 0
    {
      var a, wrapped, chain := Reserve(filter, handler, own);
      if !a.Reserved? {
        return false;
      }
      ChainStarts(chain, mws + own, handler);
      broker.Subscribe(a.entry, wrapped, accepts);
      if !accepts {
        return false;
      }
      kept := Commit(a.entry);
    }

    /** Stop unsubscribes every item, going on after failures, and fails if any of them did. */
    method Stop(broker: Broker<H>, refused: set<Entry>) returns (failed: bool)
      modifies this`items, this`stopped, broker
      ensures !old(stopped) ==> stopped && items == []
      ensures old(stopped) ==> !failed && Fields() == old(Fields()) && broker.live == old(broker.live)
      ensures !old(stopped) ==> broker.live == old(broker.live) - ((set e | e in old(items)) - refused)
      ensures !old(stopped) ==> (failed <==> exists e | e in old(items) :: e in refused)
    {
      var drain := BeginStop();
      failed := false;
      if drain.None? {
        return;
      }
      var taken := drain.value;
      for i := 0 to |taken|
        invariant stopped && items == []
        invariant broker.live == old(broker.live) - ((set e | e in taken[..i]) - refused)
        invariant failed <==> exists e | e in taken[..i] :: e in refused
      {
        assert taken[..i + 1] == taken[..i] + [taken[i]];
        broker.Unsubscribe(taken[i], taken[i] !in refused);
        failed := failed || taken[i] in refused;
      }
      assert taken[..|taken|] == taken;
    }
  }

  // ---- All interleavings -------------------------------------------------

  /** How far a Topic call has come. */
  datatype Call =
    | Turned                      // stopped or not allowed, no id drawn
    | Subscribing(entry: Entry)   // reserved, broker not asked yet
    | Refused(entry: Entry)       // the broker said no
    | Committing(entry: Entry)    // subscribed, second critical section still to come
    | Committed(entry: Entry)     // returned nil
    | RollingBack(entry: Entry)   // found the registrar stopped
    | RolledBack(entry: Entry)
    | Orphaned(entry: Entry)      // the rollback's Unsubscribe failed and was reported

  /** The list Stop took, how far it is, and the positions whose Unsubscribe failed. */
  datatype Drain = Drain(items: seq<Entry>, next: nat, failed: set<nat>)

  datatype System = System(reg: Registrar, live: set<Entry>, calls: seq<Call>, drain: Option<Drain>)

  datatype Action =
    | BeginTopic(filter: string)
    | Subscribe(t: nat, accepts: bool)
    | Commit(t: nat)
    | Rollback(t: nat, accepts: bool)
    | BeginStop
    | DrainNext(accepts: bool)

  function Initial(): System {
    System(Registrar(1, false, []), {}, [], None)
  }

  function Step(s: System, acl: Acl, a: Action): Option<System> {
    match a
    case BeginTopic(filter) =>
      var (reg, admission) := Admit(s.reg, acl, filter);
      Some(s.(reg := reg, calls := s.calls + [if admission.Reserved? then Subscribing(admission.entry) else Turned]))
    case Subscribe(t, accepts) =>
      if t >= |s.calls| || !s.calls[t].Subscribing? then None
      else
        var e := s.calls[t].entry;
        if accepts then Some(s.(live := s.live + {e}, calls := s.calls[t := Committing(e)]))
        else Some(s.(calls := s.calls[t := Refused(e)]))
    case Commit(t) =>
      if t >= |s.calls| || !s.calls[t].Committing? then None
      else
        var e := s.calls[t].entry;
        var (reg, kept) := Settle(s.reg, e);
        Some(s.(reg := reg, calls := s.calls[t := if kept then Committed(e) else RollingBack(e)]))
    case Rollback(t, accepts) =>
      if t >= |s.calls| || !s.calls[t].RollingBack? then None
      else
        var e := s.calls[t].entry;
        if accepts then Some(s.(live := s.live - {e}, calls := s.calls[t := RolledBack(e)]))
        else Some(s.(calls := s.calls[t := Orphaned(e)]))
    case BeginStop =>
      var (reg, taken) := Close(s.reg);
      Some(if taken.None? then s else s.(reg := reg, drain := Some(Drain(taken.value, 0, {}))))
    case DrainNext(accepts) =>
      if s.drain.None? || s.drain.value.next >= |s.drain.value.items| then None
      else
        var d := s.drain.value;
        if accepts then Some(s.(live := s.live - {d.items[d.next]}, drain := Some(d.(next := d.next + 1))))
        else Some(s.(drain := Some(d.(next := d.next + 1, failed := d.failed + {d.next}))))
  }

  /** The state a schedule leads to, if every action of it is possible. */
  function From(s: System, acl: Acl, schedule: seq<Action>): Option<System> {
    if schedule == [] then Some(s)
    else
      var before := From(s, acl, schedule[..|schedule| - 1]);
      if before.None? then None else Step(before.value, acl, schedule[|schedule| - 1])
  }

  function Run(acl: Acl, schedule: seq<Action>): Option<System> {
    From(Initial(), acl, schedule)
  }

  /** A Topic call whose steps follow one another does what the whole call does. */
  lemma WholeTopic(s: System, acl: Acl, filter: string, accepts: bool)
    ensures var t := |s.calls|;
            var e, begun := Entry(filter, s.reg.nextID), Step(s, acl, BeginTopic(filter)).value;
            if s.reg.stopped || (acl.enabled && forall p | p in acl.allowed :: !(p <= filter)) then
              begun == s.(calls := s.calls + [Turned])
            else
              var asked := Step(begun, acl, Subscribe(t, accepts));
              asked.Some? &&
              if !accepts then
                asked.value == s.(reg := s.reg.(nextID := e.id + 1), calls := s.calls + [Refused(e)])
              else
                Step(asked.value, acl, Commit(t)) ==
                Some(System(Registrar(e.id + 1, false, s.reg.items + [e]), s.live + {e},
                            s.calls + [Committed(e)], s.drain))
  {
    var t, e := |s.calls|, Entry(filter, s.reg.nextID);
    AllowedPrefix(acl, filter);
    hide Allowed;
    LastReplaced(s.calls, Subscribing(e), Refused(e));
    LastReplaced(s.calls, Subscribing(e), Committing(e));
    LastReplaced(s.calls, Committing(e), Committed(e));
  }

  lemma AllowedPrefix(acl: Acl, filter: string)
    ensures Allowed(acl, filter) <==> acl.enabled ==> exists p | p in acl.allowed :: p <= filter
  {
    if p :| p in acl.allowed && p <= filter {
      var i :| 0 <= i < |acl.allowed| && acl.allowed[i] == p;
    } else {
      assert forall i | 0 <= i < |acl.allowed| :: acl.allowed[i] in acl.allowed;
    }
  }

  lemma LastReplaced<T>(xs: seq<T>, x: T, y: T)
    ensures (xs + [x])[|xs| := y] == xs + [y]
  {
  }

  /** A call that Stop overtakes unsubscribes again, and says whether that failed. */
  lemma CaughtByStop(s: System, acl: Acl, t: nat, accepts: bool)
    requires t < |s.calls| && s.calls[t].Committing? && s.reg.stopped
    ensures var e := s.calls[t].entry;
            var late := Step(s, acl, Commit(t));
            late == Some(s.(calls := s.calls[t := RollingBack(e)])) &&
            Step(late.value, acl, Rollback(t, accepts)) ==
            Some(if accepts then s.(live := s.live - {e}, calls := s.calls[t := RolledBack(e)])
                 else s.(calls := s.calls[t := Orphaned(e)]))
  {
    var e := s.calls[t].entry;
    assert s.calls[t := RollingBack(e)][t := RolledBack(e)] == s.calls[t := RolledBack(e)];
    assert s.calls[t := RollingBack(e)][t := Orphaned(e)] == s.calls[t := Orphaned(e)];
  }

  /** A Stop whose steps follow one another unsubscribes the items in order, those refused excepted. */
  lemma {:induction false} WholeStop(s: System, acl: Acl, refused: set<Entry>, n: nat)
    returns (schedule: seq<Action>, r: System)
    requires !s.reg.stopped && n <= |s.reg.items|
    ensures |schedule| == n + 1 && schedule[0] == BeginStop && forall k | 0 < k <= n :: schedule[k].DrainNext?
    ensures From(s, acl, schedule) == Some(r) && r.reg == Registrar(s.reg.nextID, true, [])
    ensures r.live == s.live - ((set e | e in s.reg.items[..n]) - refused)
    ensures r.drain.Some? && r.drain.value.items == s.reg.items && r.drain.value.next == n
    ensures r.drain.value.failed == set k | 0 <= k < n && s.reg.items[k] in refused
  {
    if n == 0 {
      schedule, r := [BeginStop], Step(s, acl, BeginStop).value;
      assert schedule[..0] == [];
    } else {
      schedule, r := WholeStop(s, acl, refused, n - 1);
      var front, e := schedule, s.reg.items[n - 1];
      schedule := front + [DrainNext(e !in refused)];
      assert schedule[..n] == front;
      assert s.reg.items[..n] == s.reg.items[..n - 1] + [e];
      r := Step(r, acl, DrainNext(e !in refused)).value;
    }
  }

  // ---- Ownership ---------------------------------------------------------

  /** Who answers for a live subscription: an item, a Topic call in flight (or one that reported
      a failed rollback), or Stop's drain list (or a failure it reports). */
  datatype Owner = ByItem(k: nat) | ByCall(t: nat) | ByDrain(k: nat)

  predicate Holds(s: System, o: Owner, e: Entry) {
    match o
    case ByItem(k) => k < |s.reg.items| && s.reg.items[k] == e
    case ByCall(t) => t < |s.calls| && CallHolds(s.calls[t], e)
    case ByDrain(k) => s.drain.Some? && DrainHolds(s.drain.value, k, e)
  }

  predicate CallHolds(c: Call, e: Entry) {
    (c.Committing? || c.RollingBack? || c.Orphaned?) && c.entry == e
  }

  predicate DrainHolds(d: Drain, k: nat, e: Entry) {
    k < |d.items| && d.items[k] == e && (k >= d.next || k in d.failed)
  }

  /** The entries kept by Topic calls that returned nil. */
  function Kept(s: System): seq<Entry> {
    if s.drain.Some? then s.drain.value.items else s.reg.items
  }

  /** The ids of all calls ever made differ and lie below the counter. */
  ghost predicate IdsDiffer(s: System) {
    && s.reg.nextID >= 1
    && (forall t | 0 <= t < |s.calls| && !s.calls[t].Turned? :: 1 <= s.calls[t].entry.id < s.reg.nextID)
    && (forall t, v | 0 <= t < v < |s.calls| && !s.calls[t].Turned? && !s.calls[v].Turned? ::
          s.calls[t].entry.id != s.calls[v].entry.id)
  }

  /** What is kept is what was committed, each once. */
  ghost predicate KeptCommitted(s: System) {
    && (forall e | e in Kept(s) :: Committed(e) in s.calls)
    && (forall e | Committed(e) in s.calls :: e in Kept(s))
    && (forall i, j | 0 <= i < j < |Kept(s)| :: Kept(s)[i] != Kept(s)[j])
  }

  ghost predicate DrainOk(s: System) {
    && (s.reg.stopped <==> s.drain.Some?)
    && (s.reg.stopped ==> s.reg.items == [])
    && (s.drain.Some? ==> s.drain.value.next <= |s.drain.value.items|)
    && (s.drain.Some? ==> forall k | k in s.drain.value.failed :: k < s.drain.value.next)
  }

  ghost predicate LiveOwned(s: System) {
    forall e :: e in s.live <==> exists o :: Holds(s, o, e)
  }

  ghost predicate Inv(s: System) {
    IdsDiffer(s) && KeptCommitted(s) && DrainOk(s) && LiveOwned(s)
  }

  lemma OwnedLive(s: System, o: Owner, e: Entry)
    requires LiveOwned(s) && Holds(s, o, e)
    ensures e in s.live
  {
  }

  /** A call's entry is kept exactly when the call returned nil. */
  lemma KeptIffCommitted(s: System, t: nat)
    requires IdsDiffer(s) && KeptCommitted(s) && t < |s.calls| && !s.calls[t].Turned?
    ensures s.calls[t].entry in Kept(s) <==> s.calls[t].Committed?
  {
    var e := s.calls[t].entry;
    if e in Kept(s) {
      var v :| 0 <= v < |s.calls| && s.calls[v] == Committed(e);
      assert v < t || t < v || v == t;
    } else {
      assert s.calls[t] in s.calls;
    }
  }

  /** No entry has two owners. */
  lemma OneOwner(s: System, o: Owner, p: Owner, e: Entry)
    requires Inv(s) && Holds(s, o, e) && Holds(s, p, e)
    ensures o == p
  {
    if o.ByCall? {
      KeptIffCommitted(s, o.t);
    }
    if p.ByCall? {
      KeptIffCommitted(s, p.t);
    }
    assert !o.ByCall? || !p.ByCall? ==> e in Kept(s);
  }

  lemma BeginTopicKeeps(s: System, acl: Acl, filter: string)
    requires Inv(s)
    ensures Inv(Step(s, acl, BeginTopic(filter)).value)
  {
    var s' := Step(s, acl, BeginTopic(filter)).value;
    var c := s'.calls[|s.calls|];
    assert s'.calls == s.calls + [c] && Kept(s') == Kept(s);
    assert forall e :: Committed(e) in s'.calls <==> Committed(e) in s.calls;
    forall e
      ensures e in s'.live <==> exists o :: Holds(s', o, e)
    {
      assert forall o :: Holds(s', o, e) <==> Holds(s, o, e);
    }
  }

  /** Replacing one call by another of the same entry, neither committed, keeps the other facts. */
  lemma CallChanged(s: System, s': System, t: nat, c: Call)
    requires Inv(s) && t < |s.calls| && !s.calls[t].Turned? && !s.calls[t].Committed?
    requires !c.Turned? && !c.Committed? && c.entry == s.calls[t].entry
    requires s' == s.(calls := s.calls[t := c], live := s'.live)
    ensures IdsDiffer(s') && KeptCommitted(s') && DrainOk(s')
  {
    assert Kept(s') == Kept(s);
    forall e
      ensures Committed(e) in s'.calls <==> Committed(e) in s.calls
    {
      if Committed(e) in s.calls {
        var v :| 0 <= v < |s.calls| && s.calls[v] == Committed(e);
        assert s'.calls[v] == Committed(e);
      }
    }
  }

  lemma SubscribeKeeps(s: System, acl: Acl, t: nat, accepts: bool)
    requires Inv(s) && Step(s, acl, Subscribe(t, accepts)).Some?
    ensures Inv(Step(s, acl, Subscribe(t, accepts)).value)
  {
    var s' := Step(s, acl, Subscribe(t, accepts)).value;
    CallChanged(s, s', t, s'.calls[t]);
    hide IdsDiffer, KeptCommitted, DrainOk;
    var mine := s.calls[t].entry;
    forall e
      ensures e in s'.live <==> exists o :: Holds(s', o, e)
    {
      assert forall o :: Holds(s', o, e) <==> Holds(s, o, e) || (accepts && o == ByCall(t) && e == mine);
      assert accepts ==> Holds(s', ByCall(t), mine);
    }
  }

  lemma RollbackKeeps(s: System, acl: Acl, t: nat, accepts: bool)
    requires Inv(s) && Step(s, acl, Rollback(t, accepts)).Some?
    ensures Inv(Step(s, acl, Rollback(t, accepts)).value)
  {
    var s' := Step(s, acl, Rollback(t, accepts)).value;
    CallChanged(s, s', t, s'.calls[t]);
    var mine := s.calls[t].entry;
    assert Holds(s, ByCall(t), mine);
    forall o | Holds(s, o, mine)
      ensures o == ByCall(t)
    {
      OneOwner(s, o, ByCall(t), mine);
    }
    hide IdsDiffer, KeptCommitted, DrainOk;
    forall e
      ensures e in s'.live <==> exists o :: Holds(s', o, e)
    {
      assert forall o :: Holds(s', o, e) <==> Holds(s, o, e) && !(accepts && o == ByCall(t));
    }
  }

  lemma CommitKeeps(s: System, acl: Acl, t: nat)
    requires Inv(s) && Step(s, acl, Commit(t)).Some?
    ensures Inv(Step(s, acl, Commit(t)).value)
  {
    var s' := Step(s, acl, Commit(t)).value;
    var mine := s.calls[t].entry;
    var n := |s.reg.items|;
    assert Holds(s, ByCall(t), mine);
    if s.reg.stopped {
      CallChanged(s, s', t, s'.calls[t]);
      hide IdsDiffer, KeptCommitted, DrainOk;
      forall e
        ensures e in s'.live <==> exists o :: Holds(s', o, e)
      {
        assert forall o :: Holds(s', o, e) <==> Holds(s, o, e);
      }
    } else {
      CommitKept(s, s', t);
      hide IdsDiffer, KeptCommitted;
      forall e
        ensures e in s'.live <==> exists o :: Holds(s', o, e)
      {
        assert forall o :: Holds(s', o, e) <==> (Holds(s, o, e) && o != ByCall(t)) || (o == ByItem(n) && e == mine);
        assert forall o :: Holds(s, o, e) && o == ByCall(t) ==> Holds(s', ByItem(n), e);
      }
    }
  }

  lemma CommitKept(s: System, s': System, t: nat)
    requires Inv(s) && t < |s.calls| && s.calls[t].Committing? && !s.reg.stopped
    requires s' == s.(reg := s.reg.(items := s.reg.items + [s.calls[t].entry]),
                      calls := s.calls[t := Committed(s.calls[t].entry)])
    ensures IdsDiffer(s') && KeptCommitted(s') && DrainOk(s')
  {
    var mine := s.calls[t].entry;
    forall e
      ensures Committed(e) in s'.calls <==> Committed(e) in s.calls || e == mine
    {
      assert s'.calls[t] == Committed(mine);
      if Committed(e) in s.calls {
        var v :| 0 <= v < |s.calls| && s.calls[v] == Committed(e);
        assert s'.calls[v] == Committed(e);
      }
    }
    KeptIffCommitted(s, t);
  }

  lemma BeginStopKeeps(s: System, acl: Acl)
    requires Inv(s)
    ensures Inv(Step(s, acl, BeginStop).value)
  {
    var s' := Step(s, acl, BeginStop).value;
    assert Kept(s') == Kept(s);
    if !s.reg.stopped {
      forall e
        ensures e in s'.live <==> exists o :: Holds(s', o, e)
      {
        forall o | Holds(s, o, e)
          ensures exists p :: Holds(s', p, e)
        {
          assert Holds(s', if o.ByItem? then ByDrain(o.k) else o, e);
        }
        forall o | Holds(s', o, e)
          ensures exists p :: Holds(s, p, e)
        {
          assert Holds(s, if o.ByDrain? then ByItem(o.k) else o, e);
        }
      }
    }
  }

  lemma DrainNextKeeps(s: System, acl: Acl, accepts: bool)
    requires Inv(s) && Step(s, acl, DrainNext(accepts)).Some?
    ensures Inv(Step(s, acl, DrainNext(accepts)).value)
  {
    var s' := Step(s, acl, DrainNext(accepts)).value;
    var n := s.drain.value.next;
    var mine := s.drain.value.items[n];
    assert Holds(s, ByDrain(n), mine);
    forall o | Holds(s, o, mine)
      ensures o == ByDrain(n)
    {
      OneOwner(s, o, ByDrain(n), mine);
    }
    assert Kept(s') == Kept(s);
    assert IdsDiffer(s') && KeptCommitted(s') && DrainOk(s');
    hide IdsDiffer, KeptCommitted;
    forall e
      ensures e in s'.live <==> exists o :: Holds(s', o, e)
    {
      assert forall o :: Holds(s', o, e) <==> Holds(s, o, e) && !(accepts && o == ByDrain(n));
    }
  }

  lemma StepKeeps(s: System, acl: Acl, a: Action)
    requires Inv(s) && Step(s, acl, a).Some?
    ensures Inv(Step(s, acl, a).value)
  {
    match a
    case BeginTopic(filter) => BeginTopicKeeps(s, acl, filter);
    case Subscribe(t, accepts) => SubscribeKeeps(s, acl, t, accepts);
    case Commit(t) => CommitKeeps(s, acl, t);
    case Rollback(t, accepts) => RollbackKeeps(s, acl, t, accepts);
    case BeginStop => BeginStopKeeps(s, acl);
    case DrainNext(accepts) => DrainNextKeeps(s, acl, accepts);
  }

  // ---- What holds after every schedule -----------------------------------

  lemma {:induction false} RunKeeps(acl: Acl, schedule: seq<Action>)
    requires Run(acl, schedule).Some?
    ensures Inv(Run(acl, schedule).value)
  {
    if schedule == [] {
    } else {
      var front := schedule[..|schedule| - 1];
      RunKeeps(acl, front);
      StepKeeps(Run(acl, front).value, acl, schedule[|schedule| - 1]);
    }
  }

  /** In every interleaving a subscription is live if and only if it has an owner, and it never has two. */
  lemma ExactlyOneOwner(acl: Acl, schedule: seq<Action>, e: Entry)
    requires Run(acl, schedule).Some?
    ensures var s := Run(acl, schedule).value;
            (e in s.live <==> exists o :: Holds(s, o, e)) &&
            (forall o, p | Holds(s, o, e) && Holds(s, p, e) :: o == p)
  {
    var s := Run(acl, schedule).value;
    RunKeeps(acl, schedule);
    forall o, p | Holds(s, o, e) && Holds(s, p, e)
      ensures o == p
    {
      OneOwner(s, o, p, e);
    }
  }

  /** No two Topic calls of a run draw the same id. */
  lemma IdsNeverRepeat(acl: Acl, schedule: seq<Action>, t: nat, v: nat)
    requires Run(acl, schedule).Some? && t != v
    requires var s := Run(acl, schedule).value;
             t < |s.calls| && v < |s.calls| && !s.calls[t].Turned? && !s.calls[v].Turned?
    ensures var s := Run(acl, schedule).value; s.calls[t].entry.id != s.calls[v].entry.id
  {
    RunKeeps(acl, schedule);
  }

  /** Topic's answer is true: until Stop begins, the subscription of a call that returned nil is
      live, and that of a call refused or rolled back never is. */
  lemma AnswersHold(acl: Acl, schedule: seq<Action>, t: nat)
    requires Run(acl, schedule).Some? && t < |Run(acl, schedule).value.calls|
    ensures var s := Run(acl, schedule).value;
            (s.calls[t].Committed? && !s.reg.stopped ==> s.calls[t].entry in s.live) &&
            (s.calls[t].Refused? || s.calls[t].RolledBack? || s.calls[t].Subscribing? ==> s.calls[t].entry !in s.live)
  {
    var s := Run(acl, schedule).value;
    RunKeeps(acl, schedule);
    var c := s.calls[t];
    if c.Committed? && !s.reg.stopped {
      var k :| 0 <= k < |s.reg.items| && s.reg.items[k] == c.entry;
      assert Holds(s, ByItem(k), c.entry);
    } else if c.Refused? || c.RolledBack? || c.Subscribing? {
      KeptIffCommitted(s, t);
      forall o
        ensures !Holds(s, o, c.entry)
      {
        assert o.ByCall? && o.t < |s.calls| && o.t != t && !s.calls[o.t].Turned? ==>
                 s.calls[o.t].entry.id != c.entry.id;
      }
    }
  }

  /** Stop has gone through its list and no Topic call is between its steps. */
  predicate Quiet(s: System) {
    && s.drain.Some? && s.drain.value.next == |s.drain.value.items|
    && forall c | c in s.calls :: !c.Subscribing? && !c.Committing? && !c.RollingBack?
  }

  /** Every Unsubscribe so far succeeded. */
  predicate NoFailure(s: System) {
    (s.drain.Some? ==> s.drain.value.failed == {}) && forall c | c in s.calls :: !c.Orphaned?
  }

  /** Once stopped with nothing in flight, no subscription is left if and only if no Unsubscribe failed. */
  lemma NothingLeft(acl: Acl, schedule: seq<Action>)
    requires Run(acl, schedule).Some? && Quiet(Run(acl, schedule).value)
    ensures var s := Run(acl, schedule).value; s.live == {} <==> NoFailure(s)
  {
    var s := Run(acl, schedule).value;
    RunKeeps(acl, schedule);
    if NoFailure(s) {
      forall e
        ensures e !in s.live
      {
        forall o
          ensures !Holds(s, o, e)
        {
          assert o.ByCall? && o.t < |s.calls| ==> s.calls[o.t] in s.calls;
        }
      }
    }
    forall t: nat | t < |s.calls| && s.calls[t].Orphaned?
      ensures s.calls[t].entry in s.live
    {
      OwnedLive(s, ByCall(t), s.calls[t].entry);
    }
    forall k: nat | k in s.drain.value.failed
      ensures s.drain.value.items[k] in s.live
    {
      OwnedLive(s, ByDrain(k), s.drain.value.items[k]);
    }
  }

  /** Stopping is final: whatever follows, nothing is admitted, committed or taken a second time. */
  lemma StoppedForGood(s: System, acl: Acl, a: Action)
    requires Inv(s) && s.reg.stopped && Step(s, acl, a).Some?
    ensures var s' := Step(s, acl, a).value;
            s'.reg == s.reg && s'.drain.Some? && s'.drain.value.items == s.drain.value.items &&
            (forall e :: Committed(e) in s'.calls <==> Committed(e) in s.calls)
  {
    var s' := Step(s, acl, a).value;
    StepKeeps(s, acl, a);
    assert forall e :: e in Kept(s) <==> e in Kept(s');
    assert forall e | e in Kept(s) :: Committed(e) in s.calls && Committed(e) in s'.calls;
  }
}
