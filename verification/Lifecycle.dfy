/** The external MQTT client's connection: Start, Stop, failed writes, read loops and the reconnect
    loop, interleaved at every lock. */
module Lifecycle {
  import opened Text

  /** A connection; each successful dial makes a new one. */
  type Conn = nat

  // ---- Critical sections -------------------------------------------------

  /** The fields the mutex guards. */
  datatype Link = Link(conn: Option<Conn>, started: bool, closing: bool, reconnecting: bool)

  function Opened(l: Link, c: Conn): Link {
    l.(conn := Some(c), started := true)
  }

  /** Start's first critical section, when it proceeds. */
  function Began(l: Link): Link {
    l.(closing := false)
  }

  /** The deferred reset of a reconnect loop. */
  function LoopEnded(l: Link): Link {
    l.(reconnecting := false)
  }

  function Stopped(l: Link): Link {
    l.(conn := None, started := false, closing := true)
  }

  /** A newer connection is in place. */
  predicate Stale(l: Link, c: Conn) {
    l.conn.Some? && l.conn.value != c
  }

  predicate ShouldReconnect(l: Link, c: Conn, reconnect: bool) {
    !Stale(l, c) && reconnect && !l.closing && !l.reconnecting
  }

  function Lost(l: Link, c: Conn, reconnect: bool): Link {
    if Stale(l, c) then l
    else l.(conn := None, started := false, reconnecting := l.reconnecting || ShouldReconnect(l, c, reconnect))
  }

  /** The client's fields with the critical sections that change them. */
  class External {
    var conn: Option<Conn>
    var started: bool
    var closing: bool
    var reconnecting: bool

    constructor ()
      ensures Fields() == Link(None, false, false, false)
    {
      conn, started, closing, reconnecting := None, false, false, false;
    }

    function Fields(): Link
      reads this
    {
      Link(conn, started, closing, reconnecting)
    }

    method BeginStart() returns (proceed: bool)
      modifies this`closing
      ensures proceed <==> !started
      ensures Fields() == if proceed then Began(old(Fields())) else old(Fields())
      ensures closing == (old(closing) && old(started))
    {
      if started {
        return false;
      }
      closing := false;
      proceed := true;
    }

    method SetConnected(c: Conn)
      modifies this`conn, this`started
      ensures Fields() == Opened(old(Fields()), c)
      ensures conn == Some(c) && started
    {
      conn := Some(c);
      started := true;
    }

    method Stop() returns (taken: Option<Conn>)
      modifies this`conn, this`started, this`closing
      ensures Fields() == Stopped(old(Fields())) && taken == old(conn)
      ensures conn.None? && !started && closing
    {
      closing := true;
      taken := conn;
      conn := None;
      started := false;
    }

    method HandleConnectionLoss(c: Conn, reconnect: bool) returns (stale: bool, spawn: bool)
      modifies this`conn, this`started, this`reconnecting
      ensures Fields() == Lost(old(Fields()), c, reconnect)
      ensures stale == Stale(old(Fields()), c) && spawn == ShouldReconnect(old(Fields()), c, reconnect)
      ensures stale <==> old(conn).Some? && old(conn).value != c
      ensures spawn <==> !stale && reconnect && !closing && !old(reconnecting)
      ensures if stale then conn == old(conn) && started == old(started) else conn.None? && !started
      ensures reconnecting <==> old(reconnecting) || spawn
    {
      if conn.Some? && conn.value != c {
        return true, false;
      }
      conn := None;
      started := false;
      spawn := reconnect && !closing && !reconnecting;
      if spawn {
        reconnecting := true;
      }
      stale := false;
    }

    method ConnectedConn() returns (r: Option<Conn>)
      ensures r == if started && conn.Some? then conn else None
    {
      if !started || conn.None? {
        return None;
      }
      r := conn;
    }

    method EndReconnect()
      modifies this`reconnecting
      ensures Fields() == LoopEnded(old(Fields())) && !reconnecting
    {
      reconnecting := false;
    }
  }

  // ---- All interleavings -------------------------------------------------

  datatype Starter =
    | Dialing
    | Dialed(c: Conn)         // established, not yet set
    | Connected(c: Conn)      // set, read loop not yet spawned
    | Resubscribing(c: Conn)  // read loop spawned, filters being sent
    | Done

  datatype Looper =
    | Looking                     // spawned, or back at the top of the loop
    | Trying
    | Made(c: Conn)           // established, not yet set
    | Renewing(c: Conn)       // set, filters being sent; the read loop comes after them
    | Waiting
    | Leaving                 // about to run the deferred reset
    | Gone

  datatype System = System(
    link: Link,
    nextConn: Conn,
    seen: set<Conn>,          // connections that have been current
    doomed: set<Conn>,        // connections closed, or about to be
    readers: set<Conn>,       // connections with a read loop
    starters: seq<Starter>,
    loops: seq<Looper>)

  datatype Action =
    | BeginStart
    | StartDial(t: nat, ok: bool)
    | StartConnect(t: nat)
    | StartSpawn(t: nat)
    | StartResubscribe(t: nat, ok: bool)
    | Stop
    | WriteFails(c: Conn)
    | ReadFails(c: Conn)
    | LoopCheck(i: nat)
    | LoopDial(i: nat, ok: bool)
    | LoopConnect(i: nat)
    | LoopResubscribe(i: nat, ok: bool)
    | LoopWait(i: nat, fired: bool)
    | LoopLeave(i: nat)

  function Initial(): System {
    System(Link(None, false, false, false), 0, {}, {}, {}, [], [])
  }

  /** The effect of handleConnectionLoss, spawning included. */
  function Report(s: System, c: Conn, reconnect: bool): System {
    s.(link := Lost(s.link, c, reconnect),
       doomed := if Stale(s.link, c) then s.doomed else s.doomed + {c},
       loops := if ShouldReconnect(s.link, c, reconnect) then s.loops + [Looking] else s.loops)
  }

  function Connect(s: System, c: Conn): System {
    s.(link := Opened(s.link, c), seen := s.seen + {c})
  }

  function StarterStep(s: System, t: nat, a: Action): Option<System>
    requires t < |s.starters|
  {
    match (s.starters[t], a)
    case (Dialing, StartDial(_, ok)) =>
      if ok then Some(s.(nextConn := s.nextConn + 1, starters := s.starters[t := Dialed(s.nextConn)]))
      else Some(s.(starters := s.starters[t := Done]))
    case (Dialed(c), StartConnect(_)) => Some(Connect(s, c).(starters := s.starters[t := Connected(c)]))
    case (Connected(c), StartSpawn(_)) => Some(s.(readers := s.readers + {c},
                                                  starters := s.starters[t := Resubscribing(c)]))
    case (Resubscribing(c), StartResubscribe(_, ok)) =>
      var done := s.(starters := s.starters[t := Done]);
      Some(if ok then done else Report(done, c, false))
    case _ => None
  }

  function LoopStep(s: System, i: nat, a: Action): Option<System>
    requires i < |s.loops|
  {
    match (s.loops[i], a)
    case (Looking, LoopCheck(_)) => Some(s.(loops := s.loops[i := if s.link.closing then Leaving else Trying]))
    case (Trying, LoopDial(_, ok)) =>
      if ok then Some(s.(nextConn := s.nextConn + 1, loops := s.loops[i := Made(s.nextConn)]))
      else Some(s.(loops := s.loops[i := Waiting]))
    case (Made(c), LoopConnect(_)) => Some(Connect(s, c).(loops := s.loops[i := Renewing(c)]))
    case (Renewing(c), LoopResubscribe(_, ok)) =>
      if ok then Some(s.(readers := s.readers + {c}, loops := s.loops[i := Leaving]))
      else Some(Report(s.(loops := s.loops[i := Waiting]), c, false))
    case (Waiting, LoopWait(_, fired)) =>
      if fired then Some(s.(loops := s.loops[i := Looking]))
      else if s.link.closing then Some(s.(loops := s.loops[i := Leaving]))
      else None
    case (Leaving, LoopLeave(_)) => Some(s.(link := LoopEnded(s.link), loops := s.loops[i := Gone]))
    case _ => None
  }

  function Step(s: System, a: Action): Option<System> {
    match a
    case BeginStart =>
      if s.link.started then Some(s.(starters := s.starters + [Done]))
      else Some(s.(link := Began(s.link), starters := s.starters + [Dialing]))
    case Stop =>
      Some(s.(link := Stopped(s.link),
              doomed := if s.link.conn.Some? then s.doomed + {s.link.conn.value} else s.doomed))
    case WriteFails(c) => if c in s.seen then Some(Report(s, c, true)) else None
    case ReadFails(c) => if c in s.readers then Some(Report(s, c, true).(readers := s.readers - {c})) else None
    case StartDial(t, _) => if t < |s.starters| then StarterStep(s, t, a) else None
    case StartConnect(t) => if t < |s.starters| then StarterStep(s, t, a) else None
    case StartSpawn(t) => if t < |s.starters| then StarterStep(s, t, a) else None
    case StartResubscribe(t, _) => if t < |s.starters| then StarterStep(s, t, a) else None
    case LoopCheck(i) => if i < |s.loops| then LoopStep(s, i, a) else None
    case LoopDial(i, _) => if i < |s.loops| then LoopStep(s, i, a) else None
    case LoopConnect(i) => if i < |s.loops| then LoopStep(s, i, a) else None
    case LoopResubscribe(i, _) => if i < |s.loops| then LoopStep(s, i, a) else None
    case LoopWait(i, _) => if i < |s.loops| then LoopStep(s, i, a) else None
    case LoopLeave(i) => if i < |s.loops| then LoopStep(s, i, a) else None
  }

  /** Which steps are possible: a thread takes the step it has come to, a wait ends by itself or on Stop,
      and losses are reported for connections that have been current or are read. */
  lemma StepPossible(s: System, a: Action)
    ensures Step(s, a).Some? <==>
            match a
            case BeginStart => true
            case Stop => true
            case WriteFails(c) => c in s.seen
            case ReadFails(c) => c in s.readers
            case StartDial(t, _) => t < |s.starters| && s.starters[t].Dialing?
            case StartConnect(t) => t < |s.starters| && s.starters[t].Dialed?
            case StartSpawn(t) => t < |s.starters| && s.starters[t].Connected?
            case StartResubscribe(t, _) => t < |s.starters| && s.starters[t].Resubscribing?
            case LoopCheck(i) => i < |s.loops| && s.loops[i].Looking?
            case LoopDial(i, _) => i < |s.loops| && s.loops[i].Trying?
            case LoopConnect(i) => i < |s.loops| && s.loops[i].Made?
            case LoopResubscribe(i, _) => i < |s.loops| && s.loops[i].Renewing?
            case LoopWait(i, fired) => i < |s.loops| && s.loops[i].Waiting? && (fired || s.link.closing)
            case LoopLeave(i) => i < |s.loops| && s.loops[i].Leaving?
  {
  }

  /** Which connections a step closes: the one Stop takes, or the one reported unless it is stale. */
  lemma StepCloses(s: System, a: Action)
    requires Step(s, a).Some?
    ensures var l := s.link;
            Step(s, a).value.doomed == s.doomed +
            match a
            case Stop => if l.conn.Some? then {l.conn.value} else {}
            case WriteFails(c) => if l.conn.Some? && l.conn.value != c then {} else {c}
            case ReadFails(c) => if l.conn.Some? && l.conn.value != c then {} else {c}
            case StartResubscribe(t, ok) =>
              if ok || t >= |s.starters| || !s.starters[t].Resubscribing? ||
                 (l.conn.Some? && l.conn.value != s.starters[t].c) then {} else {s.starters[t].c}
            case LoopResubscribe(i, ok) =>
              if ok || i >= |s.loops| || !s.loops[i].Renewing? ||
                 (l.conn.Some? && l.conn.value != s.loops[i].c) then {} else {s.loops[i].c}
            case _ => {}
  {
  }

  /** What every step does to the fields, as the critical section it stands for does. */
  lemma StepFields(s: System, a: Action)
    requires Step(s, a).Some?
    ensures var l, r := s.link, Step(s, a).value.link;
            match a
            case BeginStart => r == if l.started then l else Link(l.conn, false, false, l.reconnecting)
            case Stop => r == Link(None, false, true, l.reconnecting)
            case StartConnect(t) => s.starters[t].Dialed? &&
                r == Link(Some(s.starters[t].c), true, l.closing, l.reconnecting)
            case LoopConnect(i) => s.loops[i].Made? && r == Link(Some(s.loops[i].c), true, l.closing, l.reconnecting)
            case WriteFails(c) =>
              r == if l.conn.Some? && l.conn.value != c then l
                  else Link(None, false, l.closing, l.reconnecting || !l.closing)
            case ReadFails(c) =>
              r == if l.conn.Some? && l.conn.value != c then l
                  else Link(None, false, l.closing, l.reconnecting || !l.closing)
            case StartResubscribe(t, ok) => s.starters[t].Resubscribing? &&
              r == if ok || (l.conn.Some? && l.conn.value != s.starters[t].c) then l
                   else Link(None, false, l.closing, l.reconnecting)
            case LoopResubscribe(i, ok) => s.loops[i].Renewing? &&
              r == if ok || (l.conn.Some? && l.conn.value != s.loops[i].c) then l
                   else Link(None, false, l.closing, l.reconnecting)
            case LoopLeave(i) => s.loops[i].Leaving? && r == Link(l.conn, l.started, l.closing, false)
            case _ => r == l
  {
  }

  /** And what it does to the threads: a loop is spawned exactly by a reported loss with reconnection,
      not stale, while not closing and no loop is alive; it goes on from where it was. */
  lemma StepThreads(s: System, a: Action)
    requires Step(s, a).Some?
    ensures var r := Step(s, a).value;
            match a
            case BeginStart =>
              r.starters == s.starters + [if s.link.started then Done else Dialing] && r.loops == s.loops
            case WriteFails(c) =>
              r.loops == s.loops + Spawned(s, c) && r.starters == s.starters && r.readers == s.readers
            case ReadFails(c) =>
              r.loops == s.loops + Spawned(s, c) && r.starters == s.starters && r.readers == s.readers - {c}
            case Stop => r.loops == s.loops && r.starters == s.starters && r.readers == s.readers
            case LoopCheck(i) => r.loops[i] == if s.link.closing then Leaving else Trying
            case LoopDial(i, ok) => r.loops[i] == if ok then Made(s.nextConn) else Waiting
            case LoopConnect(i) => s.loops[i].Made? && r.loops[i] == Renewing(s.loops[i].c)
            case LoopResubscribe(i, ok) => s.loops[i].Renewing? && r.loops[i] == (if ok then Leaving else Waiting) &&
              r.readers == s.readers + if ok then {s.loops[i].c} else {}
            case LoopWait(i, fired) => r.loops[i] == (if fired then Looking else Leaving) && (!fired ==> s.link.closing)
            case LoopLeave(i) => r.loops[i] == Gone
            case StartDial(t, ok) => r.starters[t] == if ok then Dialed(s.nextConn) else Done
            case StartConnect(t) => s.starters[t].Dialed? && r.starters[t] == Connected(s.starters[t].c)
            case StartSpawn(t) => s.starters[t].Connected? && r.starters[t] == Resubscribing(s.starters[t].c) &&
              r.readers == s.readers + {s.starters[t].c}
            case StartResubscribe(t, ok) => r.starters[t] == Done && r.loops == s.loops
  {
  }

  function Spawned(s: System, c: Conn): seq<Looper> {
    if (s.link.conn.Some? && s.link.conn.value != c) || s.link.closing || s.link.reconnecting then [] else [Looking]
  }

  /** The state a schedule leads to, if every action of it is possible. */
  function From(s: System, schedule: seq<Action>): Option<System> {
    if schedule == [] then Some(s)
    else
      var before := From(s, schedule[..|schedule| - 1]);
      if before.None? then None else Step(before.value, schedule[|schedule| - 1])
  }

  function Run(schedule: seq<Action>): Option<System> {
    From(Initial(), schedule)
  }

  // ---- Invariants --------------------------------------------------------

  predicate StartedIffConn(s: System) {
    s.link.started <==> s.link.conn.Some?
  }

  /** At most one reconnect loop is alive, and there is one exactly when reconnecting is set. */
  ghost predicate OneLoop(s: System) {
    && (forall i, j | 0 <= i < |s.loops| && 0 <= j < |s.loops| && !s.loops[i].Gone? && !s.loops[j].Gone? :: i == j)
    && (s.link.reconnecting <==> exists i :: 0 <= i < |s.loops| && !s.loops[i].Gone?)
  }

  /** A connection made but not yet set is known to one thread only. */
  ghost predicate FreshConns(s: System) {
    && (forall c | c in s.seen :: c < s.nextConn)
    && s.doomed <= s.seen && s.readers <= s.seen
    && (forall t | 0 <= t < |s.starters| && s.starters[t].Dialed? ::
        s.starters[t].c < s.nextConn && s.starters[t].c !in s.seen)
    && (forall i | 0 <= i < |s.loops| && s.loops[i].Made? :: s.loops[i].c < s.nextConn && s.loops[i].c !in s.seen)
    && (forall t, v | 0 <= t < v < |s.starters| && s.starters[t].Dialed? && s.starters[v].Dialed? ::
        s.starters[t].c != s.starters[v].c)
    && (forall t, i | 0 <= t < |s.starters| && 0 <= i < |s.loops| && s.starters[t].Dialed? && s.loops[i].Made? ::
        s.starters[t].c != s.loops[i].c)
    && (forall t | 0 <= t < |s.starters| && (s.starters[t].Connected? || s.starters[t].Resubscribing?) ::
        s.starters[t].c in s.seen)
    && (forall i | 0 <= i < |s.loops| && s.loops[i].Renewing? :: s.loops[i].c in s.seen)
  }

  /** The current connection is open, and read, or about to be by the thread that made it. */
  ghost predicate Watched(s: System) {
    s.link.conn.Some? ==>
      var c := s.link.conn.value;
      c in s.seen && c !in s.doomed && (c in s.readers || Connected(c) in s.starters || Renewing(c) in s.loops)
  }

  ghost predicate Inv(s: System) {
    StartedIffConn(s) && OneLoop(s) && FreshConns(s) && Watched(s)
  }

  /** Updating one place of a sequence keeps the members at the others. */
  lemma Elsewhere<T>(xs: seq<T>, k: nat, x: T, y: T)
    requires k < |xs| && y in xs && xs[k] != y
    ensures y in xs[k := x]
  {
    var j :| 0 <= j < |xs| && xs[j] == y;
    assert xs[k := x][j] == y;
  }

  lemma ReportKeeps(s: System, c: Conn, reconnect: bool)
    requires StartedIffConn(s) && OneLoop(s) && FreshConns(s) && (Watched(s) || s.link.conn == Some(c)) && c in s.seen
    ensures Inv(Report(s, c, reconnect))
  {
    var s' := Report(s, c, reconnect);
    if ShouldReconnect(s.link, c, reconnect) {
      assert s'.loops[|s.loops|] == Looking;
      assert forall i | 0 <= i < |s.loops| :: s'.loops[i] == s.loops[i];
    } else {
      assert s'.loops == s.loops;
    }
    assert s'.link.conn.Some? ==> s' == s;
  }

  lemma StarterKeeps(s: System, t: nat, a: Action)
    requires Inv(s) && t < |s.starters| && StarterStep(s, t, a).Some?
    ensures Inv(StarterStep(s, t, a).value)
  {
    var s' := StarterStep(s, t, a).value;
    var next := if s.starters[t].Resubscribing? then s.(starters := s.starters[t := Done]) else s';
    assert next.loops == s.loops;
    assert next.starters[t] in next.starters;
    if s.link.conn.Some? && Connected(s.link.conn.value) in s.starters &&
        s.starters[t] != Connected(s.link.conn.value) {
      Elsewhere(s.starters, t, next.starters[t], Connected(s.link.conn.value));
    }
    assert Inv(next);
    if s.starters[t].Resubscribing? && !a.ok {
      ReportKeeps(next, s.starters[t].c, false);
    }
  }

  /** The step of a loop before a failed resubscription is reported. */
  ghost function LoopMoved(s: System, i: nat, a: Action): System
    requires i < |s.loops| && LoopStep(s, i, a).Some?
  {
    if s.loops[i].Renewing? && !a.ok then s.(loops := s.loops[i := Waiting]) else LoopStep(s, i, a).value
  }

  lemma LoopFresh(s: System, i: nat, a: Action)
    requires Inv(s) && i < |s.loops| && LoopStep(s, i, a).Some?
    ensures FreshConns(LoopMoved(s, i, a))
  {
    hide StartedIffConn, Watched;
    assert forall j | 0 <= j < |s.loops| && j != i :: s.loops[j].Gone?;
  }

  lemma LoopAlone(s: System, i: nat, a: Action)
    requires Inv(s) && i < |s.loops| && LoopStep(s, i, a).Some?
    ensures StartedIffConn(LoopMoved(s, i, a)) && OneLoop(LoopMoved(s, i, a))
  {
    hide FreshConns, Watched;
    var next := LoopMoved(s, i, a);
    assert forall j | 0 <= j < |s.loops| && j != i :: next.loops[j] == s.loops[j] && s.loops[j].Gone?;
    assert a.LoopLeave? || !next.loops[i].Gone?;
  }

  lemma LoopKeeps(s: System, i: nat, a: Action)
    requires Inv(s) && i < |s.loops| && LoopStep(s, i, a).Some?
    ensures Inv(LoopStep(s, i, a).value)
  {
    LoopFresh(s, i, a);
    LoopAlone(s, i, a);
    var next := LoopMoved(s, i, a);
    assert next.loops[i] in next.loops;
    hide OneLoop;
    if s.link.conn.Some? && Renewing(s.link.conn.value) in s.loops && s.loops[i] != Renewing(s.link.conn.value) {
      Elsewhere(s.loops, i, next.loops[i], Renewing(s.link.conn.value));
    }
    if s.loops[i].Renewing? && !a.ok {
      ReportKeeps(next, s.loops[i].c, false);
    }
  }

  lemma StepKeeps(s: System, a: Action)
    requires Inv(s) && Step(s, a).Some?
    ensures Inv(Step(s, a).value)
  {
    match a
    case BeginStart => StartKeeps(s);
    case Stop =>
    case WriteFails(c) => ReportKeeps(s, c, true);
    case ReadFails(c) => ReadFailsKeeps(s, c);
    case StartDial(t, _) => StarterKeeps(s, t, a);
    case StartConnect(t) => StarterKeeps(s, t, a);
    case StartSpawn(t) => StarterKeeps(s, t, a);
    case StartResubscribe(t, _) => StarterKeeps(s, t, a);
    case LoopCheck(i) => LoopKeeps(s, i, a);
    case LoopDial(i, _) => LoopKeeps(s, i, a);
    case LoopConnect(i) => LoopKeeps(s, i, a);
    case LoopResubscribe(i, _) => LoopKeeps(s, i, a);
    case LoopWait(i, _) => LoopKeeps(s, i, a);
    case LoopLeave(i) => LoopKeeps(s, i, a);
  }

  lemma StartKeeps(s: System)
    requires Inv(s)
    ensures Inv(Step(s, BeginStart).value)
  {
    var s' := Step(s, BeginStart).value;
    assert s'.starters[..|s.starters|] == s.starters;
    assert forall x :: x in s.starters ==> x in s'.starters;
  }

  /** A read loop ends only by reporting its connection, which is then no longer current. */
  lemma ReadFailsKeeps(s: System, c: Conn)
    requires Inv(s) && c in s.readers
    ensures Inv(Step(s, ReadFails(c)).value)
  {
    ReportKeeps(s, c, true);
    var mid := Report(s, c, true);
    assert mid.link.conn != Some(c);
  }

  lemma {:induction false} RunKeeps(schedule: seq<Action>)
    requires Run(schedule).Some?
    ensures Inv(Run(schedule).value)
  {
    if schedule == [] {
    } else {
      var front := schedule[..|schedule| - 1];
      RunKeeps(front);
      StepKeeps(Run(front).value, schedule[|schedule| - 1]);
    }
  }

  // ---- What holds after every schedule -----------------------------------

  /** In every interleaving: started holds exactly when there is a connection; at most one reconnect
      loop is alive, and one is exactly when reconnecting is set. */
  lemma LinkAgrees(schedule: seq<Action>)
    requires Run(schedule).Some?
    ensures var s := Run(schedule).value;
            (s.link.started <==> s.link.conn.Some?) &&
            (s.link.reconnecting <==> exists i :: 0 <= i < |s.loops| && !s.loops[i].Gone?) &&
            (forall i, j | 0 <= i < |s.loops| && 0 <= j < |s.loops| && !s.loops[i].Gone? && !s.loops[j].Gone? :: i == j)
  {
    RunKeeps(schedule);
  }

  /** With no thread between making a connection and reading it, a client that calls itself
      connected holds an open connection with a read loop. */
  lemma ConnectedIsRead(schedule: seq<Action>)
    requires Run(schedule).Some?
    requires forall x | x in Run(schedule).value.starters :: !x.Connected?
    requires forall x | x in Run(schedule).value.loops :: !x.Renewing?
    ensures var s := Run(schedule).value;
            s.link.started ==> s.link.conn.Some? && s.link.conn.value in s.readers && s.link.conn.value !in s.doomed
  {
    RunKeeps(schedule);
  }

  /** The connection an action reports lost, if it reports one. */
  function Reported(s: System, a: Action): Option<Conn> {
    match a
    case WriteFails(c) => Some(c)
    case ReadFails(c) => Some(c)
    case StartResubscribe(t, ok) =>
      if t < |s.starters| && s.starters[t].Resubscribing? && !ok then Some(s.starters[t].c) else None
    case LoopResubscribe(i, ok) =>
      if i < |s.loops| && s.loops[i].Renewing? && !ok then Some(s.loops[i].c) else None
    case _ => None
  }

  /** The current connection goes away only through Stop, through a report about itself, or by being
      replaced with a newer one; a report about any other connection leaves all four fields alone. */
  lemma {:induction false} OnlyOwnLoss(s: System, a: Action, d: Conn)
    requires Inv(s) && s.link.conn == Some(d) && Step(s, a).Some?
    ensures ConnKept(s, a, Step(s, a).value, d)
  {
    hide OneLoop, Watched, StartedIffConn, FreshConns, StarterStep, LoopStep, Connect, Report;
    match a
    case StartDial(t, _) => StarterOwnLoss(s, t, a, d);
    case StartConnect(t) => StarterOwnLoss(s, t, a, d);
    case StartSpawn(t) => StarterOwnLoss(s, t, a, d);
    case StartResubscribe(t, _) => StarterOwnLoss(s, t, a, d);
    case LoopCheck(i) => LoopOwnLoss(s, i, a, d);
    case LoopDial(i, _) => LoopOwnLoss(s, i, a, d);
    case LoopConnect(i) => LoopOwnLoss(s, i, a, d);
    case LoopResubscribe(i, _) => LoopOwnLoss(s, i, a, d);
    case LoopWait(i, _) => LoopOwnLoss(s, i, a, d);
    case LoopLeave(i) => LoopOwnLoss(s, i, a, d);
    case WriteFails(c) => ReportOwnLoss(s, c, true, d);
    case ReadFails(c) => ReportOwnLoss(s, c, true, d);
    case _ =>
  }

  predicate ConnKept(s: System, a: Action, s': System, d: Conn) {
    && (s'.link.conn == None ==> a.Stop? || Reported(s, a) == Some(d))
    && (s'.link.conn.Some? && s'.link.conn.value != d ==>
        s'.link.conn.value !in s.seen && (a.StartConnect? || a.LoopConnect?))
    && (Reported(s, a).Some? && Reported(s, a).value != d ==> s'.link == s.link)
  }

  lemma ReportOwnLoss(s: System, c: Conn, reconnect: bool, d: Conn)
    requires s.link.conn == Some(d)
    ensures c != d ==> Report(s, c, reconnect).link == s.link
    ensures c == d ==> Report(s, c, reconnect).link.conn == None
  {
  }

  lemma StarterOwnLoss(s: System, t: nat, a: Action, d: Conn)
    requires FreshConns(s) && s.link.conn == Some(d) && t < |s.starters| && Step(s, a).Some? &&
               Step(s, a) == StarterStep(s, t, a)
    requires a in {StartConnect(t), StartSpawn(t)} || (a.StartDial? && a.t == t) || (a.StartResubscribe? && a.t == t)
    ensures ConnKept(s, a, Step(s, a).value, d)
  {
  }

  lemma LoopOwnLoss(s: System, i: nat, a: Action, d: Conn)
    requires FreshConns(s) && s.link.conn == Some(d) && i < |s.loops| && Step(s, a).Some? &&
               Step(s, a) == LoopStep(s, i, a)
    requires a in {LoopCheck(i), LoopConnect(i), LoopLeave(i)} || (a.LoopDial? && a.i == i) ||
             (a.LoopResubscribe? && a.i == i) || (a.LoopWait? && a.i == i)
    ensures ConnKept(s, a, Step(s, a).value, d)
  {
  }

  // ---- When a loss is recovered from -------------------------------------

  /** A loop that will try to connect again. */
  predicate ActiveLoop(s: System) {
    exists i :: 0 <= i < |s.loops| && !s.loops[i].Gone? && !s.loops[i].Leaving?
  }

  predicate LeavingLoop(s: System) {
    exists i :: 0 <= i < |s.loops| && s.loops[i].Leaving?
  }

  /** A Start that is dialing, or has a connection it has not begun to read. */
  predicate Ahead(x: Starter) {
    x.Dialing? || x.Dialed? || x.Connected?
  }

  predicate StartAhead(s: System) {
    exists t :: 0 <= t < |s.starters| && Ahead(s.starters[t])
  }

  /** Nobody is left to make a connection, or to notice that one is gone. */
  predicate Quiet(s: System) {
    s.readers == {} && !StartAhead(s) && !ActiveLoop(s)
  }

  /** Not told to stop, not connected, and nobody will reconnect. */
  predicate Abandoned(s: System) {
    !s.link.closing && s.link.conn.None? && Quiet(s)
  }

  /** The loss of the current connection leaves a loop trying again if and only if no loop is on its
      way out at that moment. */
  lemma LossRecovered(s: System, c: Conn)
    requires Inv(s) && s.link.conn == Some(c) && !s.link.closing
    ensures ActiveLoop(Report(s, c, true)) <==> !LeavingLoop(s)
  {
    var r := Report(s, c, true);
    if !s.link.reconnecting {
      assert r.loops[|s.loops|] == Looking;
    } else {
      assert r.loops == s.loops;
    }
  }

  /** The two ways a client comes to be abandoned: the only Start ahead fails to dial while nobody else
      is trying; or the last read loop fails while the loop that could take over is on its way out. */
  predicate Abandons(s: System, a: Action) {
    !s.link.closing && !ActiveLoop(s) &&
    match a
    case StartDial(t, ok) =>
      !ok && s.link.conn.None? && s.readers == {} && forall v | 0 <= v < |s.starters| && v != t :: !Ahead(s.starters[v])
    case ReadFails(c) => !Stale(s.link, c) && s.readers == {c} && !StartAhead(s) && LeavingLoop(s)
    case _ => false
  }

  lemma StarterAbandons(s: System, t: nat, a: Action)
    requires Inv(s) && !Abandoned(s) && t < |s.starters| && Step(s, a).Some? && Step(s, a) == StarterStep(s, t, a)
    requires a in {StartConnect(t), StartSpawn(t)} || (a.StartDial? && a.t == t) || (a.StartResubscribe? && a.t == t)
    ensures Abandoned(Step(s, a).value) <==> Abandons(s, a)
  {
    var s' := Step(s, a).value;
    assert s'.starters == s.starters[t := s'.starters[t]];
    assert forall v | 0 <= v < |s.starters| && v != t :: s'.starters[v] == s.starters[v];
    if a.StartResubscribe? {
      assert s'.loops == s.loops && s'.readers == s.readers;
      assert StartAhead(s') <==> StartAhead(s);
      if s.link.conn.Some? {
        WatchedNotQuiet(s);
      }
    } else if a.StartDial? && !a.ok {
      assert s'.loops == s.loops;
    } else {
      assert a.StartSpawn? || Ahead(s'.starters[t]);
    }
  }

  /** Someone watches the current connection. */
  lemma WatchedNotQuiet(s: System)
    requires Inv(s) && s.link.conn.Some?
    ensures !Quiet(s)
  {
  }

  lemma LoopAbandons(s: System, i: nat, a: Action)
    requires Inv(s) && !Abandoned(s) && i < |s.loops| && Step(s, a).Some? && Step(s, a) == LoopStep(s, i, a)
    requires a in {LoopCheck(i), LoopConnect(i), LoopLeave(i)} || (a.LoopDial? && a.i == i) ||
             (a.LoopResubscribe? && a.i == i) || (a.LoopWait? && a.i == i)
    ensures !Abandoned(Step(s, a).value)
  {
    var s' := Step(s, a).value;
    assert s'.loops == s.loops[i := s'.loops[i]] && s'.starters == s.starters;
    if a.LoopLeave? {
      assert forall j | 0 <= j < |s.loops| && j != i :: s'.loops[j] == s.loops[j];
      assert ActiveLoop(s) <==> ActiveLoop(s');
    } else if !s'.loops[i].Leaving? {
      assert ActiveLoop(s');
    }
  }

  lemma ReadAbandons(s: System, c: Conn)
    requires Inv(s) && c in s.readers
    ensures Abandoned(Step(s, ReadFails(c)).value) <==> Abandons(s, ReadFails(c))
  {
    var s' := Step(s, ReadFails(c)).value;
    if ShouldReconnect(s.link, c, true) {
      assert s'.loops[|s.loops|] == Looking;
    } else {
      assert s'.loops == s.loops;
      assert s.readers - {c} == {} <==> s.readers == {c};
    }
  }

  lemma WriteAbandons(s: System, c: Conn)
    requires Inv(s) && !Abandoned(s) && c in s.seen
    ensures !Abandoned(Step(s, WriteFails(c)).value)
  {
    var s' := Step(s, WriteFails(c)).value;
    if ShouldReconnect(s.link, c, true) {
      assert s'.loops[|s.loops|] == Looking;
    } else {
      assert s'.loops == s.loops;
      if s.link.conn.Some? {
        WatchedNotQuiet(s);
      }
    }
  }

  /** A step abandons the client if and only if it is one of those two. */
  lemma AbandonedExactly(s: System, a: Action)
    requires Inv(s) && !Abandoned(s) && Step(s, a).Some?
    ensures Abandoned(Step(s, a).value) <==> Abandons(s, a)
  {
    match a
    case BeginStart => BeginNotAbandoned(s);
    case Stop =>
    case WriteFails(c) => WriteAbandons(s, c);
    case ReadFails(c) => ReadAbandons(s, c);
    case StartDial(t, _) => StarterAbandons(s, t, a);
    case StartConnect(t) => StarterAbandons(s, t, a);
    case StartSpawn(t) => StarterAbandons(s, t, a);
    case StartResubscribe(t, _) => StarterAbandons(s, t, a);
    case LoopCheck(i) => LoopAbandons(s, i, a);
    case LoopDial(i, _) => LoopAbandons(s, i, a);
    case LoopConnect(i) => LoopAbandons(s, i, a);
    case LoopResubscribe(i, _) => LoopAbandons(s, i, a);
    case LoopWait(i, _) => LoopAbandons(s, i, a);
    case LoopLeave(i) => LoopAbandons(s, i, a);
  }

  lemma BeginNotAbandoned(s: System)
    requires Inv(s)
    ensures !Abandoned(Step(s, BeginStart).value)
  {
    var s' := Step(s, BeginStart).value;
    assert s'.starters[|s.starters|] == if s.link.started then Done else Dialing;
  }

  /** An abandoned client stays abandoned until Start or Stop is called, or a writer that still held an
      old connection reports it while no loop is on its way out. */
  lemma AbandonedStays(s: System, a: Action)
    requires Inv(s) && Abandoned(s) && Step(s, a).Some?
    ensures Abandoned(Step(s, a).value) <==> !(a.BeginStart? || a.Stop? || (a.WriteFails? && !LeavingLoop(s)))
  {
    var s' := Step(s, a).value;
    if a.BeginStart? {
      BeginNotAbandoned(s);
    } else if a.WriteFails? {
      if LeavingLoop(s) {
        assert s'.loops == s.loops;
      } else {
        assert s'.loops[|s.loops|] == Looking;
      }
    } else if a.StartResubscribe? {
      assert forall v | 0 <= v < |s.starters| && v != a.t :: s'.starters[v] == s.starters[v];
      assert s'.loops == s.loops;
    } else if a.LoopLeave? {
      assert forall j | 0 <= j < |s.loops| && j != a.i :: s'.loops[j] == s.loops[j];
    }
  }

  ghost predicate AbandonedSince(schedule: seq<Action>, k: nat) {
    && k <= |schedule|
    && (forall j | k <= j <= |schedule| :: Run(schedule[..j]).Some? && Abandoned(Run(schedule[..j]).value))
    && (k > 0 ==> Run(schedule[..k - 1]).Some? && Abandons(Run(schedule[..k - 1]).value, schedule[k - 1]))
  }

  /** So in every run that ends abandoned, the client has been so from the start, or from one of those
      two steps on. */
  lemma {:induction false} AbandonedHistory(schedule: seq<Action>) returns (k: nat)
    requires Run(schedule).Some? && Abandoned(Run(schedule).value)
    ensures AbandonedSince(schedule, k)
  {
    if schedule == [] {
      k := 0;
    } else {
      var n := |schedule| - 1;
      var front := schedule[..n];
      var s := Run(front).value;
      RunKeeps(front);
      assert Run(schedule) == Step(s, schedule[n]);
      hide Abandons, Abandoned, Inv, Step, Run, From;
      assert schedule[..|schedule|] == schedule;
      if Abandoned(s) {
        k := AbandonedHistory(front);
        forall j | k <= j <= |schedule|
          ensures Run(schedule[..j]).Some? && Abandoned(Run(schedule[..j]).value)
        {
          assert j <= n ==> schedule[..j] == front[..j];
        }
        assert k > 0 ==> schedule[..k - 1] == front[..k - 1];
      } else {
        AbandonedExactly(s, schedule[n]);
        k := |schedule|;
      }
    }
  }

  // ---- When Stop keeps the client down -----------------------------------

  /** Someone is about to have a connection to set. */
  predicate Coming(s: System) {
    (exists t :: 0 <= t < |s.starters| && (s.starters[t].Dialing? || s.starters[t].Dialed?)) ||
    (exists i :: 0 <= i < |s.loops| && (s.loops[i].Trying? || s.loops[i].Made?))
  }

  predicate Down(s: System) {
    s.link.closing && !s.link.started && !Coming(s)
  }

  lemma StepDown(s: System, a: Action)
    requires Down(s) && !a.BeginStart? && Step(s, a).Some?
    ensures Down(Step(s, a).value)
  {
    var s' := Step(s, a).value;
    assert forall t | 0 <= t < |s.starters| ::
             s'.starters[t] == s.starters[t] || s'.starters[t].Resubscribing? || s'.starters[t].Done?;
    assert |s'.loops| == |s.loops|;
    assert forall i | 0 <= i < |s.loops| ::
        s'.loops[i] == s.loops[i] || s'.loops[i].Leaving? || s'.loops[i].Waiting? || s'.loops[i].Looking? ||
            s'.loops[i].Gone?;
  }

  predicate NoStart(schedule: seq<Action>) {
    forall a | a in schedule :: !a.BeginStart?
  }

  lemma {:induction false} StaysDown(s: System, schedule: seq<Action>)
    requires Down(s) && NoStart(schedule) && From(s, schedule).Some?
    ensures Down(From(s, schedule).value)
  {
    if schedule == [] {
    } else {
      var front := schedule[..|schedule| - 1];
      StaysDown(s, front);
      assert schedule[|schedule| - 1] in schedule;
      StepDown(From(s, front).value, schedule[|schedule| - 1]);
    }
  }

  lemma Two(s: System, a: Action, b: Action)
    requires Step(s, a).Some?
    ensures From(s, [a]) == Step(s, a) && From(s, [a, b]) == Step(Step(s, a).value, b)
  {
    hide Step;
    assert [a][..0] == [] && [a, b][..1] == [a];
  }

  lemma ComesUp(s: System) returns (schedule: seq<Action>)
    requires Coming(s)
    ensures NoStart(schedule) && From(s, schedule).Some? && From(s, schedule).value.link.started
  {
    if t :| 0 <= t < |s.starters| && (s.starters[t].Dialing? || s.starters[t].Dialed?) {
      schedule := if s.starters[t].Dialing? then [StartDial(t, true), StartConnect(t)] else [StartConnect(t)];
    } else {
      var i :| 0 <= i < |s.loops| && (s.loops[i].Trying? || s.loops[i].Made?);
      schedule := if s.loops[i].Trying? then [LoopDial(i, true), LoopConnect(i)] else [LoopConnect(i)];
    }
    Two(s, schedule[0], schedule[|schedule| - 1]);
  }

  /** A stopped client that is down can come up again without a new Start if and only if, at that
      moment, a Start or a reconnect loop is dialing or has a connection it has not yet set. */
  lemma UpWithoutStart(s: System)
    requires s.link.closing && !s.link.started
    ensures Coming(s) <==> exists schedule ::
              NoStart(schedule) && From(s, schedule).Some? && From(s, schedule).value.link.started
  {
    if Coming(s) {
      var schedule := ComesUp(s);
    } else {
      forall schedule | NoStart(schedule) && From(s, schedule).Some?
        ensures !From(s, schedule).value.link.started
      {
        StaysDown(s, schedule);
      }
    }
  }

  // ---- What does not hold ------------------------------------------------

  lemma RunNext(schedule: seq<Action>, s: System, a: Action)
    requires Run(schedule) == Some(s)
    ensures Run(schedule + [a]) == Step(s, a)
  {
    assert (schedule + [a])[..|schedule + [a]| - 1] == schedule;
  }

  /** The client can be left disconnected with nobody to reconnect it: the read loop of a renewed
      connection fails before the loop that renewed it has reset reconnecting. */
  lemma LeftDisconnected() returns (schedule: seq<Action>)
    ensures Run(schedule).Some?
    ensures var s := Run(schedule).value;
            !s.link.closing && s.link.conn == None && s.readers == {} &&
            (forall x | x in s.loops :: x.Gone?) && (forall x | x in s.starters :: x.Done?)
  {
    var s: System;
    schedule, s := Renewed();
    schedule, s := Follow(schedule, s, LoopResubscribe(0, true));
    schedule, s := Follow(schedule, s, ReadFails(1));
    schedule, s := Follow(schedule, s, LoopLeave(0));
  }

  lemma Follow(schedule: seq<Action>, s: System, a: Action) returns (longer: seq<Action>, next: System)
    requires Run(schedule) == Some(s) && Step(s, a).Some?
    ensures Run(longer) == Some(next) && Step(s, a) == Some(next)
  {
    RunNext(schedule, s, a);
    longer, next := schedule + [a], Step(s, a).value;
  }

  lemma FirstLoss() returns (schedule: seq<Action>, s: System)
    ensures Run(schedule) == Some(s)
    ensures s == System(Link(None, false, false, true), 1, {0}, {0}, {}, [Done], [Looking])
  {
    schedule, s := Follow([], Initial(), BeginStart);
    schedule, s := Follow(schedule, s, StartDial(0, true));
    schedule, s := Follow(schedule, s, StartConnect(0));
    schedule, s := Follow(schedule, s, StartSpawn(0));
    schedule, s := Follow(schedule, s, StartResubscribe(0, true));
    schedule, s := Follow(schedule, s, ReadFails(0));
  }

  lemma Renewed() returns (schedule: seq<Action>, s: System)
    ensures Run(schedule) == Some(s)
    ensures s == System(Link(Some(1), true, false, true), 2, {0, 1}, {0}, {}, [Done], [Renewing(1)])
  {
    schedule, s := FirstLoss();
    schedule, s := Follow(schedule, s, LoopCheck(0));
    schedule, s := Follow(schedule, s, LoopDial(0, true));
    schedule, s := Follow(schedule, s, LoopConnect(0));
  }

  /** Nor does Stop exclude a later connection: a Start that is dialing sets its connection anyway. */
  lemma ConnectedAfterStop() returns (schedule: seq<Action>)
    ensures Run(schedule).Some? && Run(schedule).value.link.closing && Run(schedule).value.link.started
  {
    var s: System;
    schedule, s := Follow([], Initial(), BeginStart);
    schedule, s := Follow(schedule, s, StartDial(0, true));
    schedule, s := Follow(schedule, s, Stop);
    schedule, s := Follow(schedule, s, StartConnect(0));
  }
}
