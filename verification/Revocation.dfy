/** Token revocation: a map with times to live that has to outlast the tokens it names. */
module Revocation {
  import opened Text

  // ---- The cache and the store -------------------------------------------

  datatype Naming = Naming(prefix: string, namespace: string) {
    function Key(jti: string): string {
      if namespace != "" then prefix + namespace + ":" + jti else prefix + jti
    }
  }

  lemma KeyInjective(n: Naming, a: string, b: string)
    requires n.Key(a) == n.Key(b)
    ensures a == b
  {
    var front := if n.namespace != "" then n.prefix + n.namespace + ":" else n.prefix;
    assert n.Key(a) == front + a && n.Key(b) == front + b;
    assert (front + a)[|front|..] == a && (front + b)[|front|..] == b;
  }

  /** Keys to the times their entries run out. */
  type Items = map<string, int>

  function Put(items: Items, key: string, now: int, ttl: int): Items {
    if ttl <= 0 then items else items[key := now + ttl]
  }

  datatype Look = Miss | Expired | Present

  function Inspect(items: Items, key: string, now: int): Look {
    if key !in items then Miss else if now > items[key] then Expired else Present
  }

  /** The map after a Get: an entry found past its end is gone. */
  function Inspected(items: Items, key: string, now: int): Items {
    if Inspect(items, key, now).Expired? then items - {key} else items
  }

  class InMemoryRevocationCache {
    var items: Items

    constructor ()
      ensures items == map[]
    {
      items := map[];
    }

    method Set(key: string, now: int, ttl: int)
      modifies this
      ensures items == Put(old(items), key, now, ttl)
      ensures items == if 0 < ttl then old(items)[key := now + ttl] else old(items)
    {
      if ttl <= 0 {
        return;
      }
      items := items[key := now + ttl];
    }

    /** Get up to its read lock's release. */
    method Peek(key: string, now: int) returns (look: Look)
      ensures look == Inspect(items, key, now)
    {
      if key !in items {
        return Miss;
      }
      look := if now > items[key] then Expired else Present;
    }

    /** Get's lazy deletion, under the write lock, without a second look. */
    method Delete(key: string)
      modifies this
      ensures items == old(items) - {key}
    {
      items := items - {key};
    }

    method Get(key: string, now: int) returns (found: bool)
      modifies this
      ensures found <==> Inspect(old(items), key, now).Present?
      ensures found <==> key in old(items) && now <= old(items)[key]
      ensures items == Inspected(old(items), key, now)
      ensures items == if key in old(items) && old(items)[key] < now then old(items) - {key} else old(items)
    {
      var look := Peek(key, now);
      if look.Expired? {
        Delete(key);
      }
      found := look.Present?;
    }
  }

  // ---- The manager, one call at a time -----------------------------------

  datatype Claims = Claims(subject: string, jti: string, expiresAt: Option<int>, tokenType: string)

  datatype Outcome = Done | NoStore | MissingJTI | MissingExp | MissingSubject | WrongType | Invalid | Revoked

  /** Verify refuses a token from its expiry on; everything else it checks is in genuine. */
  predicate Verifies(c: Claims, genuine: bool, now: int) {
    genuine && (c.expiresAt.Some? ==> now < c.expiresAt.value)
  }

  function Validate(c: Claims, genuine: bool, expected: string, now: int): Outcome {
    if !Verifies(c, genuine, now) then Invalid
    else if c.tokenType == "" || (expected != "" && c.tokenType != expected) then WrongType
    else Done
  }

  /** What passes Validate: genuine and not yet expired, of a type, and of the one expected if any. */
  predicate Passes(c: Claims, genuine: bool, expected: string, now: int) {
    && genuine && (c.expiresAt.Some? ==> now < c.expiresAt.value)
    && c.tokenType != "" && (expected != "" ==> c.tokenType == expected)
  }

  class JWTManager {
    const naming: Naming
    const store: InMemoryRevocationCache?

    constructor (naming: Naming, store: InMemoryRevocationCache?)
      ensures this.naming == naming && this.store == store
    {
      this.naming, this.store := naming, store;
    }

    method RevokeClaims(c: Claims, now: int) returns (r: Outcome)
      modifies store
      ensures r == if store == null then NoStore else if c.jti == "" then MissingJTI
                else if c.expiresAt.None? then MissingExp else Done
      ensures r != Done && store != null ==> store.items == old(store.items)
      ensures r == Done ==> store.items == if now < c.expiresAt.value
                then old(store.items)[naming.Key(c.jti) := c.expiresAt.value] else old(store.items)
    {
      if store == null {
        return NoStore;
      }
      if c.jti == "" {
        return MissingJTI;
      }
      if c.expiresAt.None? {
        return MissingExp;
      }
      var ttl := c.expiresAt.value - now;
      if ttl <= 0 {
        return Done;
      }
      store.Set(naming.Key(c.jti), now, ttl);
      r := Done;
    }

    method EnsureNotRevoked(c: Claims, now: int) returns (r: Outcome)
      modifies store
      ensures store == null ==> r == Done
      ensures store != null && c.jti == "" ==> r == MissingJTI && store.items == old(store.items)
      ensures store != null && c.jti != "" ==>
                r == (if Inspect(old(store.items), naming.Key(c.jti), now).Present? then Revoked else Done) &&
                store.items == Inspected(old(store.items), naming.Key(c.jti), now)
    {
      if store == null {
        return Done;
      }
      if c.jti == "" {
        return MissingJTI;
      }
      var found := store.Get(naming.Key(c.jti), now);
      r := if found then Revoked else Done;
    }

    /** The clock is read twice: by Verify, and by the store. */
    method ValidateActive(c: Claims, genuine: bool, expected: string, verifyAt: int, readAt: int) returns (r: Outcome)
      requires verifyAt <= readAt
      modifies store
      ensures r == Invalid <==> !genuine || (c.expiresAt.Some? && c.expiresAt.value <= verifyAt)
      ensures r == WrongType <==>
                genuine && (c.expiresAt.Some? ==> verifyAt < c.expiresAt.value) &&
                (c.tokenType == "" || (expected != "" && c.tokenType != expected))
      ensures r == MissingJTI <==> Passes(c, genuine, expected, verifyAt) && store != null && c.jti == ""
      ensures r == Revoked <==>
                Passes(c, genuine, expected, verifyAt) && store != null && c.jti != "" &&
                naming.Key(c.jti) in old(store.items) && readAt <= old(store.items)[naming.Key(c.jti)]
      ensures r == Done <==>
                && genuine && (c.expiresAt.Some? ==> verifyAt < c.expiresAt.value)
                && c.tokenType != "" && (expected != "" ==> c.tokenType == expected)
                && (store != null ==> c.jti != "")
                && (store != null && naming.Key(c.jti) in old(store.items) ==>
                      old(store.items)[naming.Key(c.jti)] < readAt)
      ensures store != null ==>
                store.items ==
                if Passes(c, genuine, expected, verifyAt) && c.jti != "" && naming.Key(c.jti) in old(store.items) &&
                   old(store.items)[naming.Key(c.jti)] < readAt
                then old(store.items) - {naming.Key(c.jti)} else old(store.items)
    {
      r := Validate(c, genuine, expected, verifyAt);
      if r == Done {
        r := EnsureNotRevoked(c, readAt);
      }
    }

    /** RotateRefresh and RotateAccess up to the signing of new tokens. The clock is read twice: by
        Verify, and by the revocation. The old token's entry is left in the store exactly when the
        token was still alive at the second reading; rotation goes on to signing either way. */
    method RotateOut(c: Claims, genuine: bool, expected: string, verifyAt: int, revokeAt: int) returns (r: Outcome)
      requires verifyAt <= revokeAt
      modifies store
      ensures r == RotateOutcome(c, genuine, expected, verifyAt, store != null)
      ensures r == Invalid <==> !genuine || (c.expiresAt.Some? && c.expiresAt.value <= verifyAt)
      ensures r == WrongType <==>
                genuine && (c.expiresAt.Some? ==> verifyAt < c.expiresAt.value) &&
                (c.tokenType == "" || (expected != "" && c.tokenType != expected))
      ensures r == Done <==>
                && genuine && c.expiresAt.Some? && verifyAt < c.expiresAt.value
                && c.tokenType != "" && (expected != "" ==> c.tokenType == expected)
                && c.subject != "" && c.jti != "" && store != null
      ensures r == MissingSubject <==> Passes(c, genuine, expected, verifyAt) && c.subject == ""
      ensures r == NoStore <==> Passes(c, genuine, expected, verifyAt) && c.subject != "" && store == null
      ensures r == MissingJTI <==>
                Passes(c, genuine, expected, verifyAt) && c.subject != "" && store != null && c.jti == ""
      ensures r != Done && store != null ==> store.items == old(store.items)
      ensures r == Done ==> store != null && c.expiresAt.Some?
      ensures r == Done && revokeAt < c.expiresAt.value ==>
                store.items == old(store.items)[naming.Key(c.jti) := c.expiresAt.value]
      ensures r == Done && revokeAt >= c.expiresAt.value ==> store.items == old(store.items)
    {
      r := Validate(c, genuine, expected, verifyAt);
      if r != Done {
        return;
      }
      if c.subject == "" {
        return MissingSubject;
      }
      r := RevokeClaims(c, revokeAt);
    }
  }

  /** What a rotation answers; the store's contents do not matter to it. */
  function RotateOutcome(c: Claims, genuine: bool, expected: string, verifyAt: int, hasStore: bool): Outcome {
    if Validate(c, genuine, expected, verifyAt) != Done then Validate(c, genuine, expected, verifyAt)
    else if c.subject == "" then MissingSubject
    else if !hasStore then NoStore
    else if c.jti == "" then MissingJTI
    else if c.expiresAt.None? then MissingExp
    else Done
  }

  /** A rotation that was granted, or a token that was revoked, does not stand in the way of another
      rotation: it is granted again exactly while the token verifies, that is before its expiry. */
  lemma RotatesAgain(c: Claims, genuine: bool, expected: string, first: int, second: int, hasStore: bool)
    requires RotateOutcome(c, genuine, expected, first, hasStore) == Done
    ensures RotateOutcome(c, genuine, expected, second, hasStore) == Done <==> second < c.expiresAt.value
  {
  }

  // ---- All interleavings -------------------------------------------------

  /** A Revoke call: its time to live worked out, or returned without error. */
  datatype Revoking = Timed(jti: string, ttl: int) | Complete(jti: string)

  /** A ValidateActive call: refused by Verify, past it, or answered. */
  datatype Checking = Refused(jti: string) | Verified(jti: string, at: int) | Judged(jti: string, accepted: bool)

  datatype System = System(now: int, items: Items, deletes: multiset<string>, revokes: seq<Revoking>,
                           checks: seq<Checking>)

  datatype Action =
    | Tick(elapsed: nat)
    | BeginRevoke(jti: string)
    | FinishRevoke(r: nat)
    | Verify(jti: string)
    | Read(c: nat)
    | DeleteKey(key: string)

  function Initial(now: int): System {
    System(now, map[], multiset{}, [], [])
  }

  /** Every jti belongs to one expiry. */
  type Expiry = string -> int

  function Step(n: Naming, exp: Expiry, s: System, a: Action): Option<System> {
    match a
    case Tick(elapsed) => Some(s.(now := s.now + elapsed))
    case BeginRevoke(jti) =>
      var ttl := exp(jti) - s.now;
      Some(s.(revokes := s.revokes + [if ttl <= 0 then Complete(jti) else Timed(jti, ttl)]))
    case FinishRevoke(r) =>
      if r >= |s.revokes| || !s.revokes[r].Timed? then None
      else
        var v := s.revokes[r];
        Some(s.(items := Put(s.items, n.Key(v.jti), s.now, v.ttl), revokes := s.revokes[r := Complete(v.jti)]))
    case Verify(jti) =>
      Some(s.(checks := s.checks + [if s.now < exp(jti) then Verified(jti, s.now) else Refused(jti)]))
    case Read(c) =>
      if c >= |s.checks| || !s.checks[c].Verified? then None
      else
        var key := n.Key(s.checks[c].jti);
        var look := Inspect(s.items, key, s.now);
        Some(s.(checks := s.checks[c := Judged(s.checks[c].jti, !look.Present?)],
                deletes := if look.Expired? then s.deletes + multiset{key} else s.deletes))
    case DeleteKey(key) =>
      if key in s.deletes then Some(s.(items := s.items - {key}, deletes := s.deletes - multiset{key})) else None
  }

  function Run(n: Naming, exp: Expiry, start: int, schedule: seq<Action>): Option<System> {
    if schedule == [] then Some(Initial(start))
    else
      var before := Run(n, exp, start, schedule[..|schedule| - 1]);
      if before.None? then None else Step(n, exp, before.value, schedule[|schedule| - 1])
  }

  /** A revocation whose steps follow one another leaves what the whole call leaves. */
  lemma WholeRevoke(n: Naming, exp: Expiry, s: System, jti: string)
    ensures var begun := Step(n, exp, s, BeginRevoke(jti)).value;
            if exp(jti) <= s.now then begun == s.(revokes := s.revokes + [Complete(jti)])
            else
              Step(n, exp, begun, FinishRevoke(|s.revokes|)) ==
              Some(s.(items := s.items[n.Key(jti) := exp(jti)], revokes := s.revokes + [Complete(jti)]))
  {
    var r := |s.revokes|;
    assert forall c, d :: (s.revokes + [c])[r := d] == s.revokes + [d];
  }

  /** A check whose steps follow one another, its deletion included, answers as the whole call does and
      leaves the map as it does. */
  lemma WholeCheck(n: Naming, exp: Expiry, s: System, jti: string)
    ensures var c, key, begun := |s.checks|, n.Key(jti), Step(n, exp, s, Verify(jti)).value;
            if exp(jti) <= s.now then begun == s.(checks := s.checks + [Refused(jti)])
            else
              var read := Step(n, exp, begun, Read(c));
              read.Some? &&
              if key in s.items && s.items[key] < s.now then
                Step(n, exp, read.value, DeleteKey(key)) ==
                Some(s.(items := s.items - {key}, checks := s.checks + [Judged(jti, true)]))
              else read.value == s.(checks := s.checks + [Judged(jti, key !in s.items)])
  {
    var c, key := |s.checks|, n.Key(jti);
    assert forall x, y :: (s.checks + [x])[c := y] == s.checks + [y];
    assert s.deletes + multiset{key} - multiset{key} == s.deletes;
  }

  /** Entries outlast their tokens; a deletion is pending only for a token that has expired; a
      revocation that returned is in the map while its token is alive. */
  ghost predicate Inv(n: Naming, exp: Expiry, s: System) {
    && (forall jti | n.Key(jti) in s.items :: s.items[n.Key(jti)] >= exp(jti))
    && (forall r | 0 <= r < |s.revokes| && s.revokes[r].Timed? ::
        0 < s.revokes[r].ttl && s.now + s.revokes[r].ttl >= exp(s.revokes[r].jti))
    && (forall jti | n.Key(jti) in s.deletes :: s.now > exp(jti))
    && (forall jti | Complete(jti) in s.revokes :: s.now >= exp(jti) || n.Key(jti) in s.items)
    && (forall c | 0 <= c < |s.checks| && s.checks[c].Verified? ::
        s.checks[c].at < exp(s.checks[c].jti) && s.checks[c].at <= s.now)
    && (forall jti | n.Key(jti) in s.items :: Begun(s, jti))
  }

  predicate Begun(s: System, jti: string) {
    exists r :: 0 <= r < |s.revokes| && s.revokes[r].jti == jti
  }

  lemma FinishKeeps(n: Naming, exp: Expiry, s: System, r: nat)
    requires Inv(n, exp, s) && Step(n, exp, s, FinishRevoke(r)).Some?
    ensures Inv(n, exp, Step(n, exp, s, FinishRevoke(r)).value)
  {
    var s' := Step(n, exp, s, FinishRevoke(r)).value;
    var v := s.revokes[r];
    forall jti | n.Key(jti) in s'.items
      ensures s'.items[n.Key(jti)] >= exp(jti) && Begun(s', jti)
    {
      if n.Key(jti) == n.Key(v.jti) {
        KeyInjective(n, jti, v.jti);
        assert s'.revokes[r].jti == jti;
      } else {
        assert Begun(s, jti);
        var q :| 0 <= q < |s.revokes| && s.revokes[q].jti == jti;
        assert s'.revokes[q].jti == jti;
      }
    }
    forall jti | Complete(jti) in s'.revokes
      ensures s'.now >= exp(jti) || n.Key(jti) in s'.items
    {
      assert jti == v.jti || Complete(jti) in s.revokes;
    }
  }

  lemma ReadKeeps(n: Naming, exp: Expiry, s: System, c: nat)
    requires Inv(n, exp, s) && Step(n, exp, s, Read(c)).Some?
    ensures Inv(n, exp, Step(n, exp, s, Read(c)).value)
  {
    var s' := Step(n, exp, s, Read(c)).value;
    var key := n.Key(s.checks[c].jti);
    forall jti | n.Key(jti) in s'.deletes
      ensures s'.now > exp(jti)
    {
      assert n.Key(jti) in s.deletes || (n.Key(jti) == key && key in s.items && s.now > s.items[key]);
    }
    assert forall jti :: Begun(s, jti) ==> Begun(s', jti);
  }

  lemma BeginKeeps(n: Naming, exp: Expiry, s: System, jti: string)
    requires Inv(n, exp, s)
    ensures Inv(n, exp, Step(n, exp, s, BeginRevoke(jti)).value)
  {
    var s' := Step(n, exp, s, BeginRevoke(jti)).value;
    assert s'.revokes[..|s.revokes|] == s.revokes;
    forall x | Begun(s, x)
      ensures Begun(s', x)
    {
      var q :| 0 <= q < |s.revokes| && s.revokes[q].jti == x;
      assert s'.revokes[q].jti == x;
    }
  }

  /** A late deletion only ever removes the entry of an expired token. */
  lemma DeleteKeeps(n: Naming, exp: Expiry, s: System, key: string)
    requires Inv(n, exp, s) && key in s.deletes
    ensures Inv(n, exp, Step(n, exp, s, DeleteKey(key)).value)
  {
    var s' := Step(n, exp, s, DeleteKey(key)).value;
    assert forall x :: x in s'.deletes ==> x in s.deletes;
    assert forall x | x in s'.items :: x in s.items && s'.items[x] == s.items[x];
    assert forall jti :: Begun(s, jti) ==> Begun(s', jti);
  }

  lemma StepKeeps(n: Naming, exp: Expiry, s: System, a: Action)
    requires Inv(n, exp, s) && Step(n, exp, s, a).Some?
    ensures Inv(n, exp, Step(n, exp, s, a).value)
  {
    var s' := Step(n, exp, s, a).value;
    match a
    case FinishRevoke(r) => FinishKeeps(n, exp, s, r);
    case Read(c) => ReadKeeps(n, exp, s, c);
    case BeginRevoke(jti) => BeginKeeps(n, exp, s, jti);
    case DeleteKey(key) => DeleteKeeps(n, exp, s, key);
    case _ =>
      assert forall jti :: Begun(s, jti) ==> Begun(s', jti);
  }

  lemma {:induction false} RunKeeps(n: Naming, exp: Expiry, start: int, schedule: seq<Action>)
    requires Run(n, exp, start, schedule).Some?
    ensures Inv(n, exp, Run(n, exp, start, schedule).value)
  {
    if schedule == [] {
    } else {
      hide Inv, Step;
      var front := schedule[..|schedule| - 1];
      RunKeeps(n, exp, start, front);
      StepKeeps(n, exp, Run(n, exp, start, front).value, schedule[|schedule| - 1]);
    }
  }

  lemma CompleteStays(n: Naming, exp: Expiry, s: System, a: Action, jti: string)
    requires Complete(jti) in s.revokes && Step(n, exp, s, a).Some?
    ensures Complete(jti) in Step(n, exp, s, a).value.revokes
  {
    var s' := Step(n, exp, s, a).value;
    var q :| 0 <= q < |s.revokes| && s.revokes[q] == Complete(jti);
    assert s'.revokes[q] == Complete(jti);
  }

  /** Once a revocation has returned, whatever else happens, a check of that token that reads the
      store later refuses it, except a check whose token expired between Verify's clock read and the
      store's. In particular a check that reads the store before the expiry always refuses. */
  lemma RevokedIsRejected(n: Naming, exp: Expiry, start: int, schedule: seq<Action>, c: nat)
    requires Run(n, exp, start, schedule).Some?
    requires var s := Run(n, exp, start, schedule).value;
             c < |s.checks| && s.checks[c].Verified? && Complete(s.checks[c].jti) in s.revokes
    ensures var s := Run(n, exp, start, schedule).value;
            var jti, at := s.checks[c].jti, s.checks[c].at;
            var next := Step(n, exp, s, Read(c));
            next.Some? && (next.value.checks[c] == Judged(jti, true) ==> at < exp(jti) <= s.now)
  {
    RunKeeps(n, exp, start, schedule);
  }

  /** A token nobody set out to revoke is accepted whenever it verifies. */
  lemma {:induction false} OthersUnaffected(n: Naming, exp: Expiry, start: int, schedule: seq<Action>, c: nat)
    requires Run(n, exp, start, schedule).Some?
    requires var s := Run(n, exp, start, schedule).value;
             c < |s.checks| && s.checks[c].Verified? && !Begun(s, s.checks[c].jti)
    ensures var s := Run(n, exp, start, schedule).value;
            Step(n, exp, s, Read(c)).Some? && Step(n, exp, s, Read(c)).value.checks[c] == Judged(s.checks[c].jti, true)
  {
    RunKeeps(n, exp, start, schedule);
  }

  // ---- What the assumptions are for --------------------------------------

  lemma Follow(n: Naming, exp: Expiry, start: int, schedule: seq<Action>, s: System, a: Action)
    returns (longer: seq<Action>, next: System)
    requires Run(n, exp, start, schedule) == Some(s) && Step(n, exp, s, a).Some?
    ensures Run(n, exp, start, longer) == Some(next) && Step(n, exp, s, a) == Some(next)
  {
    longer, next := schedule + [a], Step(n, exp, s, a).value;
    assert longer[..|longer| - 1] == schedule;
  }

  /** A run that ends with a check of a revoked token past Verify, at this reading of the clock, whose
      read of the store now accepts it; stored when the revocation's entry is still in the map. */
  ghost predicate Accepts(n: Naming, exp: Expiry, schedule: seq<Action>, start: int, c: nat, jti: string, at: int,
                          now: int, stored: bool) {
    Run(n, exp, start, schedule).Some? &&
    var s := Run(n, exp, start, schedule).value;
    && s.now == now && c < |s.checks| && s.checks[c] == Verified(jti, at) && Complete(jti) in s.revokes
    && (stored ==> n.Key(jti) in s.items)
    && Step(n, exp, s, Read(c)).value.checks[c] == Judged(jti, true)
  }

  /** Revoked once the token has expired, no entry is written, and the late read accepts. */
  lemma LateRevocation(n: Naming, exp: Expiry, jti: string, at: int, now: int) returns (schedule: seq<Action>)
    requires at < exp(jti) <= now
    ensures Accepts(n, exp, schedule, at, 0, jti, at, now, false)
  {
    var s: System;
    schedule, s := [], Initial(at);
    assert Run(n, exp, at, schedule) == Some(s);
    hide Run;
    schedule, s := Follow(n, exp, at, schedule, s, Verify(jti));
    schedule, s := Follow(n, exp, at, schedule, s, Tick(now - at));
    schedule, s := Follow(n, exp, at, schedule, s, BeginRevoke(jti));
    assert s.revokes[0] == Complete(jti);
  }

  /** Revoked before, the entry is written and the late read finds it run out. */
  lemma LateRead(n: Naming, exp: Expiry, jti: string, at: int, now: int) returns (schedule: seq<Action>)
    requires at < exp(jti) < now
    ensures Accepts(n, exp, schedule, at, 0, jti, at, now, true)
  {
    var s: System;
    schedule, s := [], Initial(at);
    assert Run(n, exp, at, schedule) == Some(s);
    hide Run;
    schedule, s := Follow(n, exp, at, schedule, s, BeginRevoke(jti));
    schedule, s := Follow(n, exp, at, schedule, s, FinishRevoke(0));
    schedule, s := Follow(n, exp, at, schedule, s, Verify(jti));
    schedule, s := Follow(n, exp, at, schedule, s, Tick(now - at));
    assert s.revokes[0] == Complete(jti);
  }

  /** The exception is real, and exactly this: for two readings of the clock, some run lets a check
      with these readings accept a token whose revocation has returned if and only if the expiry lies
      after the first and not after the second; while the entry is still in the map, if and only if it
      lies strictly between them. */
  lemma StraddlingAccepted(n: Naming, exp: Expiry, jti: string, at: int, now: int)
    ensures (exists schedule, start, c: nat :: Accepts(n, exp, schedule, start, c, jti, at, now, false)) <==>
              at < exp(jti) <= now
    ensures (exists schedule, start, c: nat :: Accepts(n, exp, schedule, start, c, jti, at, now, true)) <==>
              at < exp(jti) < now
  {
    forall schedule, start, c: nat, stored | Accepts(n, exp, schedule, start, c, jti, at, now, stored)
      ensures at < exp(jti) <= now && (stored ==> exp(jti) < now)
    {
      RunKeeps(n, exp, start, schedule);
    }
    hide Accepts;
    if at < exp(jti) <= now {
      var schedule := LateRevocation(n, exp, jti, at, now);
    }
    if at < exp(jti) < now {
      var schedule := LateRead(n, exp, jti, at, now);
    }
  }

  /** Were two tokens to share a jti, revoking the one that expires first would end the revocation of
      the other early: from then on a store read finds the later token revoked exactly until the
      earlier expiry. */
  lemma SharedJTIShortens(items: Items, key: string, now: int, later: int, earlier: int, readAt: int)
    requires now < earlier < later
    ensures var both := Put(Put(items, key, now, later - now), key, now, earlier - now);
            Inspect(both, key, readAt).Present? <==> readAt <= earlier
  {
  }
}
