/** The two-level cache over API key lookups, and the revoker and rotator that invalidate it. */
module KeyCache {
  import opened Text

  /** A stored key: its expiry, and everything else about it. */
  datatype StoredKey = StoredKey(content: int, expiresAt: Option<int>)

  /** What a lookup finds: a key, or that there is none. */
  type Finding = Option<StoredKey>

  datatype Config = Config(l1TTL: int, negativeTTL: int, maxEntries: nat, redis: bool, prefix: string,
                           namespace: string) {
    /** After withDefaults. */
    predicate Valid() {
      l1TTL > 0 && negativeTTL > 0 && maxEntries > 0
    }

    /** The longest time to live either level gives out. */
    function Longest(): int {
      if l1TTL > negativeTTL then l1TTL else negativeTTL
    }

    /** How stale an answer can be: once through L1, and once more through the store if there is one. */
    function Bound(): int {
      if redis then 2 * Longest() else Longest()
    }

    /** The namespace is taken with its surrounding spaces already trimmed. */
    function RedisKey(keyID: string): string {
      if namespace != "" then prefix + namespace + ":" + keyID else prefix + keyID
    }

    function TTLFor(v: Finding, now: int): (ttl: int)
      requires Valid()
      ensures 0 < ttl <= Longest()
    {
      if v.None? || v.value.expiresAt.None? then (if v.None? then negativeTTL else l1TTL)
      else
        var untilExp := v.value.expiresAt.value - now;
        if untilExp <= 0 then negativeTTL
        else if untilExp < l1TTL then untilExp
        else l1TTL
    }
  }

  lemma RedisKeyInjective(cfg: Config, a: string, b: string)
    requires cfg.RedisKey(a) == cfg.RedisKey(b)
    ensures a == b
  {
    var front := if cfg.namespace != "" then cfg.prefix + cfg.namespace + ":" else cfg.prefix;
    assert cfg.RedisKey(a) == front + a && cfg.RedisKey(b) == front + b;
    assert (front + a)[|front|..] == a && (front + b)[|front|..] == b;
  }

  datatype Entry = Entry(key: Finding, expire: int)

  datatype Payload = Negative | Encoded(key: StoredKey) | Corrupt

  datatype Item = Item(payload: Payload, deadline: int)

  function Encode(v: Finding): Payload {
    if v.None? then Negative else Encoded(v.value)
  }

  /** The cached part of the state. */
  datatype Cache = Cache(l1: map<string, Entry>, l2: map<string, Item>)

  datatype Answer = Found(v: Finding) | Failed

  /** What becomes of a write to the store: done, not done and an error, or done and still an error. */
  datatype Write = Done | Lost | Unsure {
    predicate Takes() {
      !Lost?
    }
  }

  /** How the store and the base behave during a call. A store may lose an item early, never keep it
      past its deadline. */
  datatype Outside = Outside(getFails: bool, getMisses: bool, put: Write, del: Write, base: Answer)

  predicate Unreadable(cfg: Config, l2: map<string, Item>, now: int, keyID: string) {
    var rk := cfg.RedisKey(keyID);
    rk in l2 && now <= l2[rk].deadline && l2[rk].payload.Corrupt?
  }

  datatype Read = ReadFailed | Missing | Hit(v: Finding)

  function ReadL2(cfg: Config, l2: map<string, Item>, now: int, keyID: string, o: Outside): (Read, map<string, Item>) {
    var rk := cfg.RedisKey(keyID);
    if !cfg.redis then (Missing, l2)
    else if o.getFails then (ReadFailed, l2)
    else if o.getMisses || rk !in l2 || now > l2[rk].deadline then (Missing, l2)
    else
      match l2[rk].payload
      case Negative => (Hit(None), l2)
      case Encoded(key) => (Hit(Some(key)), l2)
      case Corrupt => (Missing, if o.del.Takes() then l2 - {rk} else l2)
  }

  /** L1 after an insertion; a full L1 first drops one entry of its choice. */
  predicate Inserted(cfg: Config, l1: map<string, Entry>, keyID: string, e: Entry, r: map<string, Entry>) {
    if |l1| >= cfg.maxEntries then exists victim | victim in l1 :: r == (l1 - {victim})[keyID := e]
    else r == l1[keyID := e]
  }

  /** What a lookup does past L1: the store, then the base. Asked says whether the base was consulted. */
  predicate Fill(cfg: Config, s: Cache, now: int, keyID: string, o: Outside, r: Cache, a: Answer, asked: bool)
    requires cfg.Valid()
  {
    var (read, l2) := ReadL2(cfg, s.l2, now, keyID, o);
    match read
    case ReadFailed => r == Cache(s.l1, l2) && a == Failed && !asked
    case Hit(v) =>
      Inserted(cfg, s.l1, keyID, Entry(v, now + cfg.TTLFor(v, now)), r.l1) && r.l2 == l2 && a == Found(v) && !asked
    case Missing =>
      asked &&
      match o.base
      case Failed => r == Cache(s.l1, l2) && a == Failed
      case Found(v) =>
        Inserted(cfg, s.l1, keyID, Entry(v, now + cfg.TTLFor(v, now)), r.l1) &&
        (if cfg.redis && o.put.Takes() then
           r.l2 == l2[cfg.RedisKey(keyID) := Item(Encode(v), now + cfg.TTLFor(v, now))]
         else r.l2 == l2) &&
        a == if cfg.redis && o.put != Done then Failed else Found(v)
  }

  /** One FindByKeyID. */
  predicate Find(cfg: Config, s: Cache, now: int, keyID: string, o: Outside, r: Cache, a: Answer, asked: bool)
    requires cfg.Valid()
  {
    if keyID == "" then r == s && a == Found(None) && !asked
    else if keyID in s.l1 && now <= s.l1[keyID].expire then r == s && a == Found(s.l1[keyID].key) && !asked
    else Fill(cfg, s.(l1 := s.l1 - {keyID}), now, keyID, o, r, a, asked)
  }

  lemma NoStore(cfg: Config, l2: map<string, Item>, now: int, keyID: string, o: Outside)
    requires !cfg.redis
    ensures ReadL2(cfg, l2, now, keyID, o) == (Missing, l2)
  {
  }

  function Invalidate(cfg: Config, s: Cache, keyID: string, del: Write): (Cache, bool) {
    if !cfg.redis then (s.(l1 := s.l1 - {keyID}), true)
    else (Cache(s.l1 - {keyID}, if del.Takes() then s.l2 - {cfg.RedisKey(keyID)} else s.l2), del == Done)
  }

  function Rotate(cfg: Config, s: Cache, keyID: string, issued: Option<string>, del: Write,
                  delIssued: Write): (Cache, bool) {
    var (first, ok) := Invalidate(cfg, s, keyID, del);
    if ok && issued.Some? && issued.value != "" && issued.value != keyID then
      Invalidate(cfg, first, issued.value, delIssued)
    else (first, ok)
  }

  /** The rotation issued a key of another id. */
  predicate Other(keyID: string, issued: Option<string>) {
    issued.Some? && issued.value != "" && issued.value != keyID
  }

  /** The store keys a deletion removes. */
  function Deleted(cfg: Config, keyID: string, del: Write): set<string> {
    if cfg.redis && del != Lost then {cfg.RedisKey(keyID)} else {}
  }

  // ---- The cache as an object --------------------------------------------

  class Store {
    var items: map<string, Item>

    constructor ()
      ensures items == map[]
    {
      items := map[];
    }
  }

  class CachedLookup {
    const cfg: Config
    const redis: Store
    var l1: map<string, Entry>

    constructor (cfg: Config, redis: Store)
      ensures this.cfg == cfg && this.redis == redis && State() == Cache(map[], redis.items)
    {
      this.cfg, this.redis := cfg, redis;
      l1 := map[];
    }

    function State(): Cache
      reads this, redis
    {
      Cache(l1, redis.items)
    }

    method GetL1(keyID: string, now: int) returns (hit: Option<Finding>)
      modifies this`l1
      ensures keyID in old(l1) && now <= old(l1)[keyID].expire ==> hit == Some(old(l1)[keyID].key) && l1 == old(l1)
      ensures !(keyID in old(l1) && now <= old(l1)[keyID].expire) ==> hit == None && l1 == old(l1) - {keyID}
    {
      if keyID !in l1 {
        return None;
      }
      if now > l1[keyID].expire {
        l1 := l1 - {keyID};
        return None;
      }
      hit := Some(l1[keyID].key);
    }

    method SetL1(keyID: string, v: Finding, ttl: int, now: int)
      requires cfg.Valid()
      modifies this`l1
      ensures Inserted(cfg, old(l1), keyID, Entry(v, now + ttl), l1)
    {
      if |l1| >= cfg.maxEntries {
        assert l1.Keys != {};
        var victim :| victim in l1;
        l1 := l1 - {victim};
      }
      l1 := l1[keyID := Entry(v, now + ttl)];
    }

    method GetL2(keyID: string, now: int, o: Outside) returns (read: Read)
      requires cfg.redis
      modifies redis
      ensures (read, redis.items) == ReadL2(cfg, old(redis.items), now, keyID, o)
      ensures redis.items ==
              if !o.getFails && !o.getMisses && Unreadable(cfg, old(redis.items), now, keyID) && o.del != Lost
              then old(redis.items) - {cfg.RedisKey(keyID)} else old(redis.items)
    {
      if o.getFails {
        return ReadFailed;
      }
      var rk := cfg.RedisKey(keyID);
      if o.getMisses || rk !in redis.items || now > redis.items[rk].deadline {
        return Missing;
      }
      match redis.items[rk].payload {
        case Negative => read := Hit(None);
        case Encoded(key) => read := Hit(Some(key));
        case Corrupt =>
          if o.del.Takes() {
            redis.items := redis.items - {rk};
          }
          read := Missing;
      }
    }

    method FindByKeyID(keyID: string, now: int, o: Outside) returns (a: Answer, asked: bool)
      requires cfg.Valid()
      modifies this`l1, redis
      ensures Find(cfg, old(State()), now, keyID, o, State(), a, asked)
      ensures keyID == "" ==> a == Found(None) && !asked && State() == old(State())
    {
      hide Fill;
      if keyID == "" {
        return Found(None), false;
      }
      var hit := GetL1(keyID, now);
      if hit.Some? {
        return Found(hit.value), false;
      }
      a, asked := Load(keyID, now, o);
    }

    /** The part that concurrent lookups of one key share. */
    method Load(keyID: string, now: int, o: Outside) returns (a: Answer, asked: bool)
      requires cfg.Valid()
      modifies this`l1, redis
      ensures Fill(cfg, old(State()), now, keyID, o, State(), a, asked)
    {
      hide Inserted, ReadL2;
      var read := Missing;
      if cfg.redis {
        read := GetL2(keyID, now, o);
      } else {
        NoStore(cfg, redis.items, now, keyID, o);
      }
      if read.ReadFailed? {
        return Failed, false;
      }
      if read.Hit? {
        SetL1(keyID, read.v, cfg.TTLFor(read.v, now), now);
        return Found(read.v), false;
      }
      asked := true;
      if o.base.Failed? {
        return Failed, true;
      }
      var v := o.base.v;
      SetL1(keyID, v, cfg.TTLFor(v, now), now);
      if cfg.redis {
        if o.put.Takes() {
          redis.items := redis.items[cfg.RedisKey(keyID) := Item(Encode(v), now + cfg.TTLFor(v, now))];
        }
        if o.put != Done {
          return Failed, true;
        }
      }
      a := Found(v);
    }

    method InvalidateKey(keyID: string, del: Write) returns (ok: bool)
      modifies this`l1, redis
      ensures (State(), ok) == Invalidate(cfg, old(State()), keyID, del)
      ensures l1 == old(l1) - {keyID}
      ensures redis.items ==
              if cfg.redis && del != Lost then old(redis.items) - {cfg.RedisKey(keyID)} else old(redis.items)
      ensures ok <==> cfg.redis ==> del == Done
    {
      l1 := l1 - {keyID};
      if !cfg.redis {
        return true;
      }
      if del.Takes() {
        redis.items := redis.items - {cfg.RedisKey(keyID)};
      }
      ok := del == Done;
    }

    /** CachedRevoker: the base revokes first, and only then is the cache told. */
    method RevokeKey(keyID: string, baseRevokes: bool, del: Write) returns (ok: bool)
      modifies this`l1, redis
      ensures !baseRevokes ==> !ok && State() == old(State())
      ensures baseRevokes ==> (State(), ok) == Invalidate(cfg, old(State()), keyID, del)
    {
      if !baseRevokes {
        return false;
      }
      ok := InvalidateKey(keyID, del);
    }

    /** CachedRotator: the old key is dropped, and the new one too when it has another id. */
    method RotateKey(keyID: string, issued: Option<string>, baseRotates: bool, del: Write, delIssued: Write)
      returns (ok: bool)
      modifies this`l1, redis
      ensures !baseRotates ==> !ok && State() == old(State())
      ensures baseRotates ==> (State(), ok) == Rotate(cfg, old(State()), keyID, issued, del, delIssued)
      ensures ok <==> baseRotates && (cfg.redis ==> del == Done && (Other(keyID, issued) ==> delIssued == Done))
      ensures baseRotates && (cfg.redis ==> del == Done) && Other(keyID, issued) ==>
                l1 == old(l1) - {keyID, issued.value} &&
                redis.items == old(redis.items) - Deleted(cfg, keyID, del) - Deleted(cfg, issued.value, delIssued)
      ensures baseRotates && !((cfg.redis ==> del == Done) && Other(keyID, issued)) ==>
                l1 == old(l1) - {keyID} && redis.items == old(redis.items) - Deleted(cfg, keyID, del)
      ensures ok ==> Forgotten(cfg, State(), keyID)
      ensures ok && issued.Some? && issued.value != "" ==> Forgotten(cfg, State(), issued.value)
    {
      if !baseRotates {
        return false;
      }
      ok := InvalidateKey(keyID, del);
      if ok && issued.Some? && issued.value != "" && issued.value != keyID {
        ok := InvalidateKey(issued.value, delIssued);
      }
    }
  }

  // ---- Runs --------------------------------------------------------------

  /** An answer the base gave. */
  datatype Ask = Ask(time: int, keyID: string, v: Finding)

  /** The cache, the clock, and all the base has answered. */
  datatype System = System(cache: Cache, now: int, log: set<Ask>)

  datatype Op =
    | Lookup(keyID: string, o: Outside, a: Answer, asked: bool)
    | Drop(keyID: string, del: Write)
    | Garble(redisKey: string, deadline: int)
    | Tick(elapsed: nat)

  predicate Step(cfg: Config, s: System, op: Op, r: System)
    requires cfg.Valid()
  {
    match op
    case Lookup(keyID, o, a, asked) =>
      && Find(cfg, s.cache, s.now, keyID, o, r.cache, a, asked)
      && r.now == s.now
      && r.log == if asked && o.base.Found? then s.log + {Ask(s.now, keyID, o.base.v)} else s.log
    case Drop(keyID, del) => r == s.(cache := Invalidate(cfg, s.cache, keyID, del).0)
    case Garble(redisKey, deadline) => r == s.(cache := s.cache.(l2 := s.cache.l2[redisKey := Item(Corrupt, deadline)]))
    case Tick(elapsed) => r == s.(now := s.now + elapsed)
  }

  ghost predicate Run(cfg: Config, ops: seq<Op>, states: seq<System>)
    requires cfg.Valid()
  {
    && |states| == |ops| + 1
    && states[0].cache == Cache(map[], map[]) && states[0].log == {}
    && forall k | 0 <= k < |ops| :: Step(cfg, states[k], ops[k], states[k + 1])
  }

  /** The base gave v for the key at most d ago, and the value may be used until then. */
  ghost predicate GivenBy(log: set<Ask>, now: int, keyID: string, v: Finding, until: int, d: int) {
    exists a | a in log :: a.keyID == keyID && a.v == v && a.time <= now && until <= a.time + d
  }

  ghost predicate Inv(cfg: Config, s: System) {
    && |s.cache.l1| <= cfg.maxEntries
    && (forall k | k in s.cache.l1 :: GivenBy(s.log, s.now, k, s.cache.l1[k].key, s.cache.l1[k].expire, cfg.Bound()))
    && (cfg.redis ==> forall k | cfg.RedisKey(k) in s.cache.l2 && !s.cache.l2[cfg.RedisKey(k)].payload.Corrupt? ::
          StoredGiven(cfg, s, k, s.cache.l2[cfg.RedisKey(k)]))
  }

  ghost predicate StoredGiven(cfg: Config, s: System, k: string, item: Item) {
    exists v :: item.payload == Encode(v) && GivenBy(s.log, s.now, k, v, item.deadline, cfg.Longest())
  }

  lemma InsertedMembers(cfg: Config, l1: map<string, Entry>, keyID: string, e: Entry, r: map<string, Entry>)
    requires Inserted(cfg, l1, keyID, e, r)
    ensures keyID in r && r[keyID] == e
    ensures forall k | k in r && k != keyID :: k in l1 && r[k] == l1[k]
  {
  }

  lemma InsertedSize(cfg: Config, l1: map<string, Entry>, keyID: string, e: Entry, r: map<string, Entry>)
    requires cfg.Valid() && |l1| <= cfg.maxEntries && Inserted(cfg, l1, keyID, e, r)
    ensures |r| <= cfg.maxEntries
  {
    if |l1| >= cfg.maxEntries {
      var victim :| victim in l1 && r == (l1 - {victim})[keyID := e];
      Grown(l1 - {victim}, keyID, e);
      Removed(l1, victim);
    } else {
      Grown(l1, keyID, e);
    }
  }

  lemma Grown(l1: map<string, Entry>, keyID: string, e: Entry)
    ensures |l1[keyID := e]| <= |l1| + 1
  {
    assert l1[keyID := e].Keys == l1.Keys + {keyID};
  }

  lemma Removed(l1: map<string, Entry>, keyID: string)
    ensures |l1 - {keyID}| == if keyID in l1 then |l1| - 1 else |l1|
  {
    assert (l1 - {keyID}).Keys == l1.Keys - {keyID};
    if keyID !in l1 {
      assert l1 - {keyID} == l1;
    }
  }

  lemma GivenStill(log: set<Ask>, now: int, more: set<Ask>, later: int, keyID: string, v: Finding, until: int, d: int)
    requires GivenBy(log, now, keyID, v, until, d) && log <= more && now <= later
    ensures GivenBy(more, later, keyID, v, until, d)
  {
    var a :| a in log && a.keyID == keyID && a.v == v && a.time <= now && until <= a.time + d;
    assert a in more;
  }

  /** Time passing and the base answering keep what was given. */
  lemma InvLater(cfg: Config, s: System, r: System)
    requires Inv(cfg, s) && r.cache == s.cache && s.log <= r.log && s.now <= r.now
    ensures Inv(cfg, r)
  {
    forall k | k in s.cache.l1
      ensures GivenBy(r.log, r.now, k, s.cache.l1[k].key, s.cache.l1[k].expire, cfg.Bound())
    {
      GivenStill(s.log, s.now, r.log, r.now, k, s.cache.l1[k].key, s.cache.l1[k].expire, cfg.Bound());
    }
    forall k | cfg.redis && cfg.RedisKey(k) in s.cache.l2 && !s.cache.l2[cfg.RedisKey(k)].payload.Corrupt?
      ensures StoredGiven(cfg, r, k, s.cache.l2[cfg.RedisKey(k)])
    {
      var item := s.cache.l2[cfg.RedisKey(k)];
      var v :| item.payload == Encode(v) && GivenBy(s.log, s.now, k, v, item.deadline, cfg.Longest());
      GivenStill(s.log, s.now, r.log, r.now, k, v, item.deadline, cfg.Longest());
    }
  }

  /** Dropping entries keeps the invariant. */
  lemma InvDropped(cfg: Config, s: System, l1: map<string, Entry>, l2: map<string, Item>)
    requires Inv(cfg, s) && |l1| <= cfg.maxEntries
    requires forall k | k in l1 :: k in s.cache.l1 && l1[k] == s.cache.l1[k]
    requires forall k | k in l2 :: l2[k].payload.Corrupt? || (k in s.cache.l2 && l2[k] == s.cache.l2[k])
    ensures Inv(cfg, s.(cache := Cache(l1, l2)))
  {
    forall k | cfg.redis && cfg.RedisKey(k) in l2 && !l2[cfg.RedisKey(k)].payload.Corrupt?
      ensures StoredGiven(cfg, s.(cache := Cache(l1, l2)), k, l2[cfg.RedisKey(k)])
    {
      assert StoredGiven(cfg, s, k, l2[cfg.RedisKey(k)]);
    }
  }

  /** An answer the base gave at most d ago may be put into L1 for its time to live. */
  lemma InvInserted(cfg: Config, s: System, keyID: string, v: Finding, d: int, l1: map<string, Entry>)
    requires cfg.Valid() && Inv(cfg, s) && GivenBy(s.log, s.now, keyID, v, s.now, d)
    requires d <= if cfg.redis then cfg.Longest() else 0
    requires Inserted(cfg, s.cache.l1, keyID, Entry(v, s.now + cfg.TTLFor(v, s.now)), l1)
    ensures Inv(cfg, s.(cache := s.cache.(l1 := l1)))
  {
    var e := Entry(v, s.now + cfg.TTLFor(v, s.now));
    InsertedSize(cfg, s.cache.l1, keyID, e, l1);
    InsertedMembers(cfg, s.cache.l1, keyID, e, l1);
    EntryGiven(cfg, s, keyID, v, d);
    hide Inserted, GivenBy, StoredGiven;
    var r := s.(cache := s.cache.(l1 := l1));
    forall k | cfg.redis && cfg.RedisKey(k) in r.cache.l2 && !r.cache.l2[cfg.RedisKey(k)].payload.Corrupt?
      ensures StoredGiven(cfg, r, k, r.cache.l2[cfg.RedisKey(k)])
    {
      StoredStill(cfg, s, k, r.cache.l2[cfg.RedisKey(k)], r);
    }
  }

  lemma StoredStill(cfg: Config, s: System, k: string, item: Item, r: System)
    requires StoredGiven(cfg, s, k, item) && r.log == s.log && r.now == s.now
    ensures StoredGiven(cfg, r, k, item)
  {
  }

  lemma EntryGiven(cfg: Config, s: System, keyID: string, v: Finding, d: int)
    requires cfg.Valid() && GivenBy(s.log, s.now, keyID, v, s.now, d)
    requires d <= if cfg.redis then cfg.Longest() else 0
    ensures GivenBy(s.log, s.now, keyID, v, s.now + cfg.TTLFor(v, s.now), cfg.Bound())
  {
    var a :| a in s.log && a.keyID == keyID && a.v == v && a.time <= s.now && s.now <= a.time + d;
  }

  /** A fresh answer may be stored for its time to live. */
  lemma InvStored(cfg: Config, s: System, keyID: string, v: Finding, l2: map<string, Item>)
    requires cfg.Valid() && Inv(cfg, s) && GivenBy(s.log, s.now, keyID, v, s.now, 0)
    requires l2 == s.cache.l2[cfg.RedisKey(keyID) := Item(Encode(v), s.now + cfg.TTLFor(v, s.now))]
    ensures Inv(cfg, s.(cache := s.cache.(l2 := l2)))
  {
    var r := s.(cache := s.cache.(l2 := l2));
    forall k | cfg.redis && cfg.RedisKey(k) in l2 && !l2[cfg.RedisKey(k)].payload.Corrupt?
      ensures StoredGiven(cfg, r, k, l2[cfg.RedisKey(k)])
    {
      if cfg.RedisKey(k) == cfg.RedisKey(keyID) {
        RedisKeyInjective(cfg, k, keyID);
        var a :| a in s.log && a.keyID == keyID && a.v == v && a.time <= s.now && s.now <= a.time;
        assert GivenBy(r.log, r.now, k, v, l2[cfg.RedisKey(k)].deadline, cfg.Longest());
      } else {
        assert StoredGiven(cfg, s, k, l2[cfg.RedisKey(k)]);
      }
    }
  }

  /** What the store answers was given by the base, and its time is not up. */
  lemma HitGiven(cfg: Config, s: System, keyID: string, o: Outside)
    requires Inv(cfg, s) && ReadL2(cfg, s.cache.l2, s.now, keyID, o).0.Hit?
    ensures cfg.redis && GivenBy(s.log, s.now, keyID, ReadL2(cfg, s.cache.l2, s.now, keyID, o).0.v, s.now,
                                 cfg.Longest())
  {
    var item := s.cache.l2[cfg.RedisKey(keyID)];
    assert StoredGiven(cfg, s, keyID, item);
    var v :| item.payload == Encode(v) && GivenBy(s.log, s.now, keyID, v, item.deadline, cfg.Longest());
    var a :| a in s.log && a.keyID == keyID && a.v == v && a.time <= s.now && item.deadline <= a.time + cfg.Longest();
    assert a.v == ReadL2(cfg, s.cache.l2, s.now, keyID, o).0.v;
  }

  /** A lookup keeps the invariant, and what it finds the base gave within the bound. */
  lemma FindKeeps(cfg: Config, s: System, op: Op, r: System)
    requires cfg.Valid() && Inv(cfg, s) && op.Lookup? && Step(cfg, s, op, r)
    ensures Inv(cfg, r)
    ensures op.a.Found? && op.keyID != "" ==> GivenBy(r.log, r.now, op.keyID, op.a.v, r.now, cfg.Bound())
  {
    var keyID, o := op.keyID, op.o;
    if keyID == "" {
    } else if keyID in s.cache.l1 && s.now <= s.cache.l1[keyID].expire {
      var e := s.cache.l1[keyID];
      var a :| a in s.log && a.keyID == keyID && a.v == e.key && a.time <= s.now && e.expire <= a.time + cfg.Bound();
    } else {
      EntryDropped(cfg, s, keyID);
      FillKeeps(cfg, s.(cache := s.cache.(l1 := s.cache.l1 - {keyID})), keyID, o, op.a, op.asked, r);
    }
  }

  /** Reading the store at most drops the item read. */
  lemma ReadDrops(cfg: Config, l2: map<string, Item>, now: int, keyID: string, o: Outside)
    ensures var left := ReadL2(cfg, l2, now, keyID, o).1; forall k | k in left :: k in l2 && left[k] == l2[k]
  {
  }

  lemma ReadKeeps(cfg: Config, s: System, keyID: string, o: Outside)
    requires Inv(cfg, s)
    ensures Inv(cfg, s.(cache := Cache(s.cache.l1, ReadL2(cfg, s.cache.l2, s.now, keyID, o).1)))
  {
    ReadDrops(cfg, s.cache.l2, s.now, keyID, o);
    hide ReadL2, StoredGiven, GivenBy;
    InvDropped(cfg, s, s.cache.l1, ReadL2(cfg, s.cache.l2, s.now, keyID, o).1);
  }

  lemma EntryDropped(cfg: Config, s: System, keyID: string)
    requires Inv(cfg, s)
    ensures Inv(cfg, s.(cache := s.cache.(l1 := s.cache.l1 - {keyID})))
  {
    Removed(s.cache.l1, keyID);
    hide StoredGiven, GivenBy;
    InvDropped(cfg, s, s.cache.l1 - {keyID}, s.cache.l2);
  }

  /** A lookup past L1. */
  lemma FillKeeps(cfg: Config, s: System, keyID: string, o: Outside, a: Answer, asked: bool, r: System)
    requires cfg.Valid() && Inv(cfg, s) && r.now == s.now
    requires Fill(cfg, s.cache, s.now, keyID, o, r.cache, a, asked)
    requires r.log == if asked && o.base.Found? then s.log + {Ask(s.now, keyID, o.base.v)} else s.log
    ensures Inv(cfg, r)
    ensures a.Found? ==> GivenBy(r.log, r.now, keyID, a.v, r.now, cfg.Bound())
  {
    hide ReadL2, Inserted, Inv, GivenBy;
    var (read, l2) := ReadL2(cfg, s.cache.l2, s.now, keyID, o);
    var mid := s.(cache := Cache(s.cache.l1, l2));
    ReadKeeps(cfg, s, keyID, o);
    match read
    case Hit(v) =>
      HitGiven(cfg, s, keyID, o);
      HitKeeps(cfg, mid, keyID, v, r);
    case Missing =>
      if o.base.Found? {
        FreshKeeps(cfg, mid, keyID, o.base.v, r, cfg.redis && o.put.Takes());
      } else {
        assert r == mid;
      }
    case ReadFailed =>
      assert r == mid;
  }

  /** The store has answered: into L1. */
  lemma HitKeeps(cfg: Config, mid: System, keyID: string, v: Finding, r: System)
    requires cfg.Valid() && Inv(cfg, mid) && cfg.redis && GivenBy(mid.log, mid.now, keyID, v, mid.now, cfg.Longest())
    requires Inserted(cfg, mid.cache.l1, keyID, Entry(v, mid.now + cfg.TTLFor(v, mid.now)), r.cache.l1)
    requires r == mid.(cache := mid.cache.(l1 := r.cache.l1))
    ensures Inv(cfg, r) && GivenBy(r.log, r.now, keyID, v, r.now, cfg.Bound())
  {
    hide Inv, Inserted, GivenBy;
    InvInserted(cfg, mid, keyID, v, cfg.Longest(), r.cache.l1);
    Looser(mid.log, mid.now, keyID, v, mid.now, cfg.Longest(), cfg.Bound());
  }

  lemma Looser(log: set<Ask>, now: int, keyID: string, v: Finding, until: int, d: int, e: int)
    requires GivenBy(log, now, keyID, v, until, d) && d <= e
    ensures GivenBy(log, now, keyID, v, until, e)
  {
  }

  /** The base has just answered: into L1, and into the store unless that fails. */
  lemma FreshKeeps(cfg: Config, mid: System, keyID: string, v: Finding, r: System, stored: bool)
    requires cfg.Valid() && Inv(cfg, mid)
    requires r.now == mid.now && r.log == mid.log + {Ask(mid.now, keyID, v)}
    requires Inserted(cfg, mid.cache.l1, keyID, Entry(v, mid.now + cfg.TTLFor(v, mid.now)), r.cache.l1)
    requires r.cache.l2 ==
             if stored then mid.cache.l2[cfg.RedisKey(keyID) := Item(Encode(v), mid.now + cfg.TTLFor(v, mid.now))]
             else mid.cache.l2
    ensures Inv(cfg, r) && GivenBy(r.log, r.now, keyID, v, r.now, cfg.Bound())
  {
    var told := mid.(log := r.log);
    assert Ask(mid.now, keyID, v) in r.log;
    assert GivenBy(r.log, r.now, keyID, v, r.now, 0);
    InvLater(cfg, mid, told);
    hide Inv, Inserted, GivenBy;
    InvInserted(cfg, told, keyID, v, 0, r.cache.l1);
    var kept := told.(cache := told.cache.(l1 := r.cache.l1));
    if stored {
      InvStored(cfg, kept, keyID, v, r.cache.l2);
      assert r == kept.(cache := kept.cache.(l2 := r.cache.l2));
    } else {
      assert r == kept;
    }
    Looser(r.log, r.now, keyID, v, r.now, 0, cfg.Bound());
  }

  lemma StepKeeps(cfg: Config, s: System, op: Op, r: System)
    requires cfg.Valid() && Inv(cfg, s) && Step(cfg, s, op, r)
    ensures Inv(cfg, r)
  {
    hide Inv, Find;
    match op
    case Lookup(_, _, _, _) => FindKeeps(cfg, s, op, r);
    case Tick(_) => InvLater(cfg, s, r);
    case Garble(_, _) => DroppedKeeps(cfg, s, r);
    case Drop(keyID, _) =>
      Removed(s.cache.l1, keyID);
      DroppedKeeps(cfg, s, r);
  }

  lemma DroppedKeeps(cfg: Config, s: System, r: System)
    requires Inv(cfg, s) && r == s.(cache := r.cache) && |r.cache.l1| <= |s.cache.l1|
    requires forall k | k in r.cache.l1 :: k in s.cache.l1 && r.cache.l1[k] == s.cache.l1[k]
    requires forall k | k in r.cache.l2 :: r.cache.l2[k].payload.Corrupt? ||
               (k in s.cache.l2 && r.cache.l2[k] == s.cache.l2[k])
    ensures Inv(cfg, r)
  {
    InvDropped(cfg, s, r.cache.l1, r.cache.l2);
  }

  lemma StepOf(cfg: Config, ops: seq<Op>, states: seq<System>, k: nat)
    requires cfg.Valid() && Run(cfg, ops, states) && k < |ops|
    ensures |states| == |ops| + 1 && Step(cfg, states[k], ops[k], states[k + 1])
  {
  }

  lemma {:induction false} RunKeeps(cfg: Config, ops: seq<Op>, states: seq<System>, k: nat)
    requires cfg.Valid() && Run(cfg, ops, states) && k < |states|
    ensures Inv(cfg, states[k])
  {
    if k == 0 {
    } else {
      hide Inv, Step;
      RunKeeps(cfg, ops, states, k - 1);
      StepOf(cfg, ops, states, k - 1);
      StepKeeps(cfg, states[k - 1], ops[k - 1], states[k]);
    }
  }

  // ---- What holds of every run -------------------------------------------

  /** Bounded staleness: whatever a lookup finds, the base gave for that key at most twice the
      longest time to live ago, or once if there is no store. */
  lemma BoundedStaleness(cfg: Config, ops: seq<Op>, states: seq<System>, k: nat)
    requires cfg.Valid() && Run(cfg, ops, states) && k < |ops|
    requires ops[k].Lookup? && ops[k].a.Found? && ops[k].keyID != ""
    ensures exists a | a in states[k + 1].log ::
              a.keyID == ops[k].keyID && a.v == ops[k].a.v && a.time <= states[k + 1].now <= a.time + cfg.Bound()
  {
    RunKeeps(cfg, ops, states, k);
    assert Step(cfg, states[k], ops[k], states[k + 1]);
    FindKeeps(cfg, states[k], ops[k], states[k + 1]);
  }

  predicate Live(s: System, id: string) {
    id in s.cache.l1 && s.now <= s.cache.l1[id].expire
  }

  /** The lookup at step j found no live entry and made the one that is there from then up to step k,
      for its time to live at that moment. */
  ghost predicate CachedBy(cfg: Config, ops: seq<Op>, states: seq<System>, j: nat, k: nat, id: string)
    requires cfg.Valid() && k < |states| == |ops| + 1
  {
    && j < k && ops[j].Lookup? && ops[j].keyID == id && !Live(states[j], id) && id in states[k].cache.l1
    && (forall m | j < m <= k :: id in states[m].cache.l1 && states[m].cache.l1[id] == states[k].cache.l1[id])
    && Brought(ops[j], states[k].cache.l1[id].key)
    && states[k].cache.l1[id].expire == states[j].now + cfg.TTLFor(states[k].cache.l1[id].key, states[j].now)
  }

  /** The lookup found this, in the store or at the base; in the latter case it may still have failed
      to store it. */
  predicate Brought(op: Op, v: Finding)
    requires op.Lookup?
  {
    op.a == Found(v) || (op.asked && op.o.base == Found(v))
  }

  /** If the key was valid at the time, the entry ends no later than the key. */
  predicate EndsInTime(e: Entry, cachedAt: int) {
    e.key.Some? && e.key.value.expiresAt.Some? && e.key.value.expiresAt.value > cachedAt ==>
        e.expire <= e.key.value.expiresAt.value
  }

  /** A step leaves an entry as it was, or is the lookup that makes it. */
  lemma EntryFrom(cfg: Config, s: System, op: Op, r: System, id: string)
    requires cfg.Valid() && Step(cfg, s, op, r) && id in r.cache.l1
    ensures (id in s.cache.l1 && r.cache.l1[id] == s.cache.l1[id]) ||
            (op.Lookup? && op.keyID == id && !Live(s, id) && Brought(op, r.cache.l1[id].key) &&
             r.cache.l1[id].expire == s.now + cfg.TTLFor(r.cache.l1[id].key, s.now))
  {
    if op.Lookup? {
      if id != op.keyID {
        FindTouches(cfg, s.cache, s.now, op.keyID, op.o, r.cache, op.a, op.asked);
      } else if op.keyID != "" && !Live(s, id) {
        FilledEntry(cfg, s.cache.(l1 := s.cache.l1 - {id}), s.now, id, op.o, r.cache, op.a, op.asked);
      }
    }
  }

  lemma FilledEntry(cfg: Config, s: Cache, now: int, id: string, o: Outside, r: Cache, a: Answer, asked: bool)
    requires cfg.Valid() && Fill(cfg, s, now, id, o, r, a, asked) && id !in s.l1
    ensures id in r.l1 ==> r.l1[id].expire == now + cfg.TTLFor(r.l1[id].key, now)
    ensures id in r.l1 ==> a == Found(r.l1[id].key) || (asked && o.base == Found(r.l1[id].key))
  {
    hide ReadL2;
    forall e | Inserted(cfg, s.l1, id, e, r.l1)
      ensures id in r.l1 && r.l1[id] == e
    {
      InsertedMembers(cfg, s.l1, id, e, r.l1);
    }
    hide Inserted;
  }

  lemma {:induction false} EntryOrigin(cfg: Config, ops: seq<Op>, states: seq<System>, k: nat, id: string)
    returns (j: nat)
    requires cfg.Valid() && Run(cfg, ops, states) && k < |states| == |ops| + 1 && id in states[k].cache.l1
    ensures CachedBy(cfg, ops, states, j, k, id)
  {
    hide *;
    StartsEmpty(cfg, ops, states);
    if k == 0 {
    } else {
      StepOf(cfg, ops, states, k - 1);
      EntryFrom(cfg, states[k - 1], ops[k - 1], states[k], id);
      if id in states[k - 1].cache.l1 && states[k].cache.l1[id] == states[k - 1].cache.l1[id] {
        j := EntryOrigin(cfg, ops, states, k - 1, id);
        CachedStill(cfg, ops, states, j, k, id);
      } else {
        j := k - 1;
        CachedNow(cfg, ops, states, k, id);
      }
    }
  }

  lemma CachedNow(cfg: Config, ops: seq<Op>, states: seq<System>, k: nat, id: string)
    requires cfg.Valid() && 0 < k < |states| == |ops| + 1 && id in states[k].cache.l1
    requires ops[k - 1].Lookup? && ops[k - 1].keyID == id && !Live(states[k - 1], id)
    requires Brought(ops[k - 1], states[k].cache.l1[id].key)
    requires states[k].cache.l1[id].expire ==
               states[k - 1].now + cfg.TTLFor(states[k].cache.l1[id].key, states[k - 1].now)
    ensures CachedBy(cfg, ops, states, k - 1, k, id)
  {
  }

  lemma StartsEmpty(cfg: Config, ops: seq<Op>, states: seq<System>)
    requires cfg.Valid() && Run(cfg, ops, states)
    ensures |states| > 0 && states[0].cache.l1 == map[]
  {
    hide Step;
  }

  lemma CachedStill(cfg: Config, ops: seq<Op>, states: seq<System>, j: nat, k: nat, id: string)
    requires cfg.Valid() && 0 < k < |states| == |ops| + 1 && CachedBy(cfg, ops, states, j, k - 1, id)
    requires id in states[k].cache.l1 && states[k].cache.l1[id] == states[k - 1].cache.l1[id]
    ensures CachedBy(cfg, ops, states, j, k, id)
  {
  }

  /** L1 stays within its size, and every entry was made by some lookup, for its time to live then; so
      no entry of a key that was valid when cached outlives the key. */
  lemma L1Bounded(cfg: Config, ops: seq<Op>, states: seq<System>, k: nat)
    requires cfg.Valid() && Run(cfg, ops, states) && k < |states| == |ops| + 1
    ensures |states[k].cache.l1| <= cfg.maxEntries
    ensures forall id | id in states[k].cache.l1 ::
              exists j: nat :: CachedBy(cfg, ops, states, j, k, id) && EndsInTime(states[k].cache.l1[id], states[j].now)
  {
    RunKeeps(cfg, ops, states, k);
    hide Run;
    forall id | id in states[k].cache.l1
      ensures exists j: nat :: CachedBy(cfg, ops, states, j, k, id) && EndsInTime(states[k].cache.l1[id], states[j].now)
    {
      var j := EntryOrigin(cfg, ops, states, k, id);
      assert EndsInTime(states[k].cache.l1[id], states[j].now);
    }
  }

  // ---- How long each answer is kept --------------------------------------

  /** What is found at a time is kept until the end: a missing key and one that has expired for the
      negative time to live, any other for the positive one, but not past its expiry. */
  ghost predicate KeptUntil(cfg: Config, v: Finding, at: int, end: int) {
    && (v.None? ==> end == at + cfg.negativeTTL)
    && (v.Some? && v.value.expiresAt.None? ==> end == at + cfg.l1TTL)
    && (v.Some? && v.value.expiresAt.Some? && v.value.expiresAt.value <= at ==> end == at + cfg.negativeTTL)
    && (v.Some? && v.value.expiresAt.Some? && at < v.value.expiresAt.value < at + cfg.l1TTL ==>
          end == v.value.expiresAt.value)
    && (v.Some? && v.value.expiresAt.Some? && at + cfg.l1TTL <= v.value.expiresAt.value &&
        at < v.value.expiresAt.value ==>
          end == at + cfg.l1TTL)
  }

  /** Every entry of every reachable state ends as its key says, counted from the lookup that made it. */
  lemma EntryLifetime(cfg: Config, ops: seq<Op>, states: seq<System>, k: nat, id: string) returns (j: nat)
    requires cfg.Valid() && Run(cfg, ops, states) && k < |states| == |ops| + 1 && id in states[k].cache.l1
    ensures CachedBy(cfg, ops, states, j, k, id)
    ensures KeptUntil(cfg, states[k].cache.l1[id].key, states[j].now, states[k].cache.l1[id].expire)
  {
    j := EntryOrigin(cfg, ops, states, k, id);
  }

  /** The store holds something readable for the key. */
  predicate Stored(cfg: Config, s: System, id: string) {
    cfg.redis && cfg.RedisKey(id) in s.cache.l2 && !s.cache.l2[cfg.RedisKey(id)].payload.Corrupt?
  }

  /** The lookup at step j asked the base and put its answer into the store, where it has been since. */
  ghost predicate StoredBy(cfg: Config, ops: seq<Op>, states: seq<System>, j: nat, k: nat, id: string)
    requires k < |states| == |ops| + 1
  {
    && j < k && ops[j].Lookup? && ops[j].keyID == id && ops[j].asked && ops[j].o.base.Found? &&
         Stored(cfg, states[k], id)
    && (forall m | j < m <= k :: cfg.RedisKey(id) in states[m].cache.l2 &&
          states[m].cache.l2[cfg.RedisKey(id)] == states[k].cache.l2[cfg.RedisKey(id)])
    && PutFor(cfg, states[k].cache.l2[cfg.RedisKey(id)], ops[j].o.base.v, states[j].now)
  }

  ghost predicate PutFor(cfg: Config, item: Item, v: Finding, at: int) {
    && (v.None? ==> item.payload.Negative?) && (v.Some? ==> item.payload == Encoded(v.value))
    && KeptUntil(cfg, v, at, item.deadline)
  }

  /** A step leaves a stored item as it was, or is the lookup that puts it there. */
  lemma ItemFrom(cfg: Config, s: System, op: Op, r: System, id: string)
    requires cfg.Valid() && Step(cfg, s, op, r) && Stored(cfg, r, id)
    ensures (cfg.RedisKey(id) in s.cache.l2 && r.cache.l2[cfg.RedisKey(id)] == s.cache.l2[cfg.RedisKey(id)]) ||
            (op.Lookup? && op.keyID == id && op.asked && op.o.base.Found? &&
             PutFor(cfg, r.cache.l2[cfg.RedisKey(id)], op.o.base.v, s.now))
  {
    if op.Lookup? {
      if cfg.RedisKey(op.keyID) == cfg.RedisKey(id) {
        RedisKeyInjective(cfg, op.keyID, id);
      } else {
        FindTouches(cfg, s.cache, s.now, op.keyID, op.o, r.cache, op.a, op.asked);
      }
      ReadDrops(cfg, s.cache.l2, s.now, op.keyID, op.o);
      hide Inserted;
    }
  }

  lemma StartsUnstored(cfg: Config, ops: seq<Op>, states: seq<System>)
    requires cfg.Valid() && Run(cfg, ops, states)
    ensures |states| > 0 && states[0].cache.l2 == map[]
  {
    hide Step;
  }

  /** Every readable item of every reachable state goes back to the lookup whose answer from the base
      it is, and runs out as that answer says. */
  lemma {:induction false} ItemLifetime(cfg: Config, ops: seq<Op>, states: seq<System>, k: nat, id: string)
    returns (j: nat)
    requires cfg.Valid() && Run(cfg, ops, states) && k < |states| == |ops| + 1 && Stored(cfg, states[k], id)
    ensures StoredBy(cfg, ops, states, j, k, id)
  {
    hide Step, Run, PutFor;
    StartsUnstored(cfg, ops, states);
    if k == 0 {
    } else {
      StepOf(cfg, ops, states, k - 1);
      ItemFrom(cfg, states[k - 1], ops[k - 1], states[k], id);
      var rk := cfg.RedisKey(id);
      if rk in states[k - 1].cache.l2 && states[k].cache.l2[rk] == states[k - 1].cache.l2[rk] {
        j := ItemLifetime(cfg, ops, states, k - 1, id);
      } else {
        j := k - 1;
      }
    }
  }

  /** A lookup asks the base exactly when L1 has no entry that is still good, and the store neither
      fails nor has a readable item whose time is not up. */
  lemma AskedExactly(cfg: Config, s: System, op: Op, r: System)
    requires cfg.Valid() && op.Lookup? && op.keyID != "" && Step(cfg, s, op, r)
    ensures op.asked <==>
            && (op.keyID in s.cache.l1 ==> s.cache.l1[op.keyID].expire < s.now)
            && (cfg.redis ==> !op.o.getFails)
            && (cfg.redis && !op.o.getMisses && Stored(cfg, s, op.keyID) ==>
                  s.cache.l2[cfg.RedisKey(op.keyID)].deadline < s.now)
    ensures op.asked ==> op.a == if cfg.redis && op.o.put != Done then Failed else op.o.base
  {
    hide Inserted;
  }

  /** A missing key is answered as missing, without asking, for the negative time to live after the
      lookup that found it missing; after it, unless the store answers or fails, the base is asked. */
  lemma NegativeAsksAgain(cfg: Config, ops: seq<Op>, states: seq<System>, k: nat, id: string) returns (j: nat)
    requires cfg.Valid() && Run(cfg, ops, states) && k < |ops| && |states| == |ops| + 1
    requires id in states[k].cache.l1 && states[k].cache.l1[id].key.None?
    requires ops[k].Lookup? && ops[k].keyID == id && id != ""
    requires cfg.redis ==> !ops[k].o.getFails && (ops[k].o.getMisses || !Stored(cfg, states[k], id))
    ensures CachedBy(cfg, ops, states, j, k, id)
    ensures ops[k].asked <==> states[j].now + cfg.negativeTTL < states[k].now
    ensures !ops[k].asked ==> ops[k].a == Found(None)
  {
    j := EntryLifetime(cfg, ops, states, k, id);
    StepOf(cfg, ops, states, k);
    AskedExactly(cfg, states[k], ops[k], states[k + 1]);
  }

  /** Neither level holds the key. */
  predicate Forgotten(cfg: Config, s: Cache, keyID: string) {
    keyID !in s.l1 && (cfg.redis ==> cfg.RedisKey(keyID) !in s.l2 || s.l2[cfg.RedisKey(keyID)].payload.Corrupt?)
  }

  /** Other lookups, invalidations and time leave a forgotten key forgotten. */
  lemma StaysForgotten(cfg: Config, s: System, op: Op, r: System, keyID: string)
    requires cfg.Valid() && Step(cfg, s, op, r) && Forgotten(cfg, s.cache, keyID)
    requires op.Lookup? ==> op.keyID != keyID
    ensures Forgotten(cfg, r.cache, keyID)
  {
    if op.Lookup? {
      if cfg.RedisKey(op.keyID) == cfg.RedisKey(keyID) {
        RedisKeyInjective(cfg, op.keyID, keyID);
      }
      FindTouches(cfg, s.cache, s.now, op.keyID, op.o, r.cache, op.a, op.asked);
    }
  }

  /** A lookup adds at most its own key to either level. */
  lemma FindTouches(cfg: Config, s: Cache, now: int, keyID: string, o: Outside, r: Cache, a: Answer, asked: bool)
    requires cfg.Valid() && Find(cfg, s, now, keyID, o, r, a, asked)
    ensures forall k | k in r.l1 && k != keyID :: k in s.l1 && r.l1[k] == s.l1[k]
    ensures forall k | k in r.l2 && k != cfg.RedisKey(keyID) :: k in s.l2 && r.l2[k] == s.l2[k]
  {
    var l1 := s.l1 - {keyID};
    var read := ReadL2(cfg, s.l2, now, keyID, o).0;
    forall e | Inserted(cfg, l1, keyID, e, r.l1)
      ensures forall k | k in r.l1 && k != keyID :: k in s.l1 && r.l1[k] == s.l1[k]
    {
      InsertedMembers(cfg, l1, keyID, e, r.l1);
    }
    ReadDrops(cfg, s.l2, now, keyID, o);
    hide Inserted, ReadL2;
  }

  lemma {:induction false} ForgottenUntil(cfg: Config, ops: seq<Op>, states: seq<System>, keyID: string, i: nat, j: nat)
    requires cfg.Valid() && Run(cfg, ops, states) && |states| == |ops| + 1 && i <= j <= |ops|
    requires Forgotten(cfg, states[i].cache, keyID)
    requires forall k | i <= k < j && ops[k].Lookup? :: ops[k].keyID != keyID
    ensures Forgotten(cfg, states[j].cache, keyID)
  {
    hide *;
    if i < j {
      StepOf(cfg, ops, states, j - 1);
      ForgottenUntil(cfg, ops, states, keyID, i, j - 1);
      StaysForgotten(cfg, states[j - 1], ops[j - 1], states[j], keyID);
    }
  }

  /** The first lookup of a key after an InvalidateKey whose deletion took effect, reported or not, and
      whatever happens to other keys in between, asks the base and answers nothing else; or it fails. */
  lemma FirstLookupAsks(cfg: Config, ops: seq<Op>, states: seq<System>, i: nat, j: nat)
    requires cfg.Valid() && Run(cfg, ops, states) && i < j < |ops|
    requires ops[i].Drop? && (cfg.redis ==> ops[i].del.Takes()) && ops[i].keyID != ""
    requires ops[j].Lookup? && ops[j].keyID == ops[i].keyID
    requires forall k | i < k < j && ops[k].Lookup? :: ops[k].keyID != ops[i].keyID
    ensures ops[j].a.Found? ==> ops[j].asked && ops[j].o.base == ops[j].a
  {
    var keyID := ops[i].keyID;
    assert Step(cfg, states[i], ops[i], states[i + 1]) && Step(cfg, states[j], ops[j], states[j + 1]);
    ForgottenUntil(cfg, ops, states, keyID, i + 1, j);
  }

  // ---- The bound is attained ---------------------------------------------

  /** The answer that lives longest: none, or a key without expiry. */
  function Lasting(cfg: Config): Finding {
    if cfg.l1TTL < cfg.negativeTTL then None else Some(StoredKey(0, None))
  }

  function Fresh(cfg: Config): Outside {
    Outside(false, false, Done, Done, Found(Lasting(cfg)))
  }

  function Asking(cfg: Config, id: string, asked: bool): Op {
    Lookup(id, Fresh(cfg), Found(Lasting(cfg)), asked)
  }

  /** L1 with one entry, made at a given time. */
  function Holding(cfg: Config, id: string, at: int): map<string, Entry> {
    map[id := Entry(Lasting(cfg), at + cfg.Longest())]
  }

  lemma HoldingInserted(cfg: Config, l1: map<string, Entry>, id: string, at: int)
    requires cfg.Valid() && l1 == map[]
    ensures cfg.TTLFor(Lasting(cfg), at) == cfg.Longest()
    ensures Inserted(cfg, l1 - {id}, id, Entry(Lasting(cfg), at + cfg.Longest()), Holding(cfg, id, at))
  {
    assert l1 - {id} == l1 && l1[id := Entry(Lasting(cfg), at + cfg.Longest())] == Holding(cfg, id, at);
  }

  /** The state after the base has answered at time 0. */
  function Told(cfg: Config, id: string): System {
    System(Cache(Holding(cfg, id, 0),
                 if cfg.redis then map[cfg.RedisKey(id) := Item(Encode(Lasting(cfg)), cfg.Longest())] else map[]),
           0, {Ask(0, id, Lasting(cfg))})
  }

  lemma FirstAsk(cfg: Config, id: string)
    requires cfg.Valid() && id != ""
    ensures Step(cfg, System(Cache(map[], map[]), 0, {}), Asking(cfg, id, true), Told(cfg, id))
  {
    HoldingInserted(cfg, map[], id, 0);
    hide Inserted;
    var items: map<string, Item> := map[];
    assert items[cfg.RedisKey(id) := Item(Encode(Lasting(cfg)), cfg.Longest())] ==
             map[cfg.RedisKey(id) := Item(Encode(Lasting(cfg)), cfg.Longest())];
  }

  /** The store still has the key: it comes back into an L1 that lost it. */
  lemma ComesBack(cfg: Config, s: System, id: string)
    requires cfg.Valid() && cfg.redis && id != "" && s.cache.l1 == map[]
    requires cfg.RedisKey(id) in s.cache.l2 && s.cache.l2[cfg.RedisKey(id)] == Item(Encode(Lasting(cfg)), s.now)
    ensures Step(cfg, s, Asking(cfg, id, false), s.(cache := s.cache.(l1 := Holding(cfg, id, s.now))))
  {
    HoldingInserted(cfg, s.cache.l1, id, s.now);
    hide Inserted;
  }

  lemma StillHeld(cfg: Config, s: System, id: string)
    requires cfg.Valid() && id != "" && id in s.cache.l1 && s.cache.l1[id] == Entry(Lasting(cfg), s.now)
    ensures Step(cfg, s, Asking(cfg, id, false), s)
  {
  }

  lemma Ticks(cfg: Config, s: System, t: nat)
    requires cfg.Valid()
    ensures Step(cfg, s, Tick(t), s.(now := s.now + t))
  {
  }

  lemma DropFails(cfg: Config, s: System, id: string, at: int)
    requires cfg.Valid() && cfg.redis && s.cache.l1 == Holding(cfg, id, at)
    ensures Step(cfg, s, Drop(id, Lost), s.(cache := s.cache.(l1 := map[])))
  {
    assert s.cache.l1 - {id} == map[];
  }

  lemma Extend(cfg: Config, ops: seq<Op>, states: seq<System>, op: Op, r: System)
    returns (more: seq<Op>, longer: seq<System>)
    requires cfg.Valid() && Run(cfg, ops, states) && |states| == |ops| + 1 && Step(cfg, states[|ops|], op, r)
    ensures more == ops + [op] && longer == states + [r] && Run(cfg, more, longer)
  {
    hide Step;
    more, longer := ops + [op], states + [r];
  }

  /** The bound is exact for every configuration: with a store, after an invalidation that could not
      reach it, the entry comes back at its last moment there and is answered until its last in L1;
      without one, an entry is answered until its last moment. */
  lemma BoundAttained(cfg: Config, id: string) returns (ops: seq<Op>, states: seq<System>)
    requires cfg.Valid() && id != ""
    ensures Run(cfg, ops, states) && |ops| > 0 && |states| == |ops| + 1 && ops[|ops| - 1] == Asking(cfg, id, false)
    ensures forall a | a in states[|ops|].log :: a.keyID == id && states[|ops|].now == a.time + cfg.Bound()
  {
    var t := cfg.Longest();
    FirstAsk(cfg, id);
    ops, states := [], [System(Cache(map[], map[]), 0, {})];
    assert Run(cfg, ops, states);
    hide Step, Run, Encode;
    var s := Told(cfg, id);
    ops, states := Extend(cfg, ops, states, Asking(cfg, id, true), s);
    Ticks(cfg, s, t);
    s := s.(now := t);
    ops, states := Extend(cfg, ops, states, Tick(t), s);
    if cfg.redis {
      DropFails(cfg, s, id, 0);
      s := s.(cache := s.cache.(l1 := map[]));
      ops, states := Extend(cfg, ops, states, Drop(id, Lost), s);
      ComesBack(cfg, s, id);
      s := s.(cache := s.cache.(l1 := Holding(cfg, id, t)));
      ops, states := Extend(cfg, ops, states, Asking(cfg, id, false), s);
      Ticks(cfg, s, t);
      s := s.(now := 2 * t);
      ops, states := Extend(cfg, ops, states, Tick(t), s);
    }
    StillHeld(cfg, s, id);
    ops, states := Extend(cfg, ops, states, Asking(cfg, id, false), s);
  }
}
