/** The TTL cache of api_server/audit_cache.py: a bounded map with eviction, proved against
    an unbounded map that remembers the last write of every key.

    Two readings of the store are used.  `Step` allows any entry with the earliest expiry to be
    dropped, and the theorems about whole runs hold for each choice.  `After` keeps the order of
    insertion, in which `min` finds the first of several such entries; it is one such choice, and
    the class follows it exactly. */
module AuditCache {
  import opened Wrappers

  // The JSON object of a response.
  type Payload = map<string, string>

  datatype Entry = Entry(expiresAt: real, payload: Payload)

  type Cache = map<string, Entry>

  datatype Config = Config(ttl: real, maxEntries: int)  // AUDIT_CACHE_TTL_SECONDS, max_entries

  predicate Live(e: Entry, now: real) { e.expiresAt > now }

  function DropExpired(c: Cache, now: real): Cache {
    map k | k in c && Live(c[k], now) :: c[k]
  }

  predicate Oldest(c: Cache, victim: string) {
    victim in c && forall k :: k in c ==> c[victim].expiresAt <= c[k].expiresAt
  }

  // ----- one call -----

  datatype Op =
    | Get(key: string, now: real)
    | Set(key: string, payload: Payload, ttl: Option<real>, now: real)
    | Clear

  function EffectiveTtl(ttl: Option<real>, conf: Config): real {
    if ttl.None? then conf.ttl else ttl.value
  }

  /** Whether a `set` gets as far as touching the store. */
  predicate Storing(op: Op, conf: Config) {
    op.Set? && conf.ttl > 0.0 && EffectiveTtl(op.ttl, conf) > 0.0
  }

  function NewEntry(op: Op, conf: Config): Entry
    requires op.Set?
  {
    Entry(op.now + EffectiveTtl(op.ttl, conf), op.payload)
  }

  function Answer(c: Cache, key: string, now: real, conf: Config): Option<Payload> {
    if conf.ttl > 0.0 && key in c && Live(c[key], now) then Some(c[key].payload) else None
  }

  /** What is left once `set` has made room; nothing is possible when `min` meets an empty
      dict, which needs max_entries < 1. */
  ghost predicate MadeRoom(c: Cache, room: Cache, now: real, conf: Config) {
    if |c| < conf.maxEntries then room == c
    else
      var live := DropExpired(c, now);
      if |live| < conf.maxEntries then room == live
      else exists victim :: Oldest(live, victim) && room == live - {victim}
  }

  ghost predicate Raises(c: Cache, now: real, conf: Config) {
    conf.maxEntries <= 0 && DropExpired(c, now) == map[]
  }

  ghost predicate Step(c: Cache, op: Op, c': Cache, conf: Config) {
    match op
    case Get(key, now) =>
      c' == if conf.ttl > 0.0 && key in c && !Live(c[key], now) then c - {key} else c
    case Set(key, _, _, now) =>
      if !Storing(op, conf) then c' == c
      else if Raises(c, now, conf) then c' == map[]
      else exists room :: MadeRoom(c, room, now, conf) && c' == room[key := NewEntry(op, conf)]
    case Clear => c' == map[]
  }

  // ----- whole runs -----

  /** The states a fresh cache passes through. */
  ghost predicate Run(states: seq<Cache>, ops: seq<Op>, conf: Config) {
    && |states| == |ops| + 1
    && states[0] == map[]
    && forall i :: 0 <= i < |ops| ==> Step(states[i], ops[i], states[i + 1], conf)
  }

  /** The reference: an unbounded map holding the last write of every key. */
  function Written(ops: seq<Op>, conf: Config): Cache {
    if ops == [] then map[] else Write(Written(ops[..|ops| - 1], conf), ops[|ops| - 1], conf)
  }

  function Write(w: Cache, op: Op, conf: Config): Cache {
    if op.Clear? then map[]
    else if Storing(op, conf) && conf.maxEntries >= 1 then w[op.key := NewEntry(op, conf)]
    else w
  }

  // Every entry of `c` is the last write of its key.
  ghost predicate Submap(c: Cache, w: Cache) {
    forall k :: k in c ==> k in w && c[k] == w[k]
  }

  ghost predicate Refines(c: Cache, w: Cache, conf: Config) {
    Submap(c, w) && |c| <= if conf.maxEntries >= 0 then conf.maxEntries else 0
  }

  lemma CardSubset(a: set<string>, b: set<string>)
    requires a <= b
    ensures |a| <= |b|
  {
    assert b == a + (b - a);
  }

  lemma MadeRoomShrinks(c: Cache, room: Cache, now: real, conf: Config)
    requires MadeRoom(c, room, now, conf)
    ensures room.Keys <= c.Keys && forall k :: k in room ==> room[k] == c[k]
    ensures conf.maxEntries >= 1 && |c| <= conf.maxEntries ==> |room| < conf.maxEntries
  {
    if |c| >= conf.maxEntries {
      var live := DropExpired(c, now);
      assert live.Keys <= c.Keys;
      CardSubset(live.Keys, c.Keys);
      if |live| >= conf.maxEntries {
        var victim :| Oldest(live, victim) && room == live - {victim};
        assert room.Keys == live.Keys - {victim};
      }
    }
  }

  lemma StepRefines(c: Cache, w: Cache, op: Op, c': Cache, conf: Config)
    requires Refines(c, w, conf) && Step(c, op, c', conf)
    ensures Refines(c', Write(w, op, conf), conf)
  {
    if Storing(op, conf) {
      StoreRefines(c, w, op, c', conf);
    } else {
      assert c'.Keys <= c.Keys;
      CardSubset(c'.Keys, c.Keys);
    }
  }

  lemma PutRefines(room: Cache, c: Cache, w: Cache, key: string, e: Entry)
    requires Submap(c, w) && room.Keys <= c.Keys && forall k :: k in room ==> room[k] == c[k]
    ensures Submap(room[key := e], w[key := e])
    ensures |room[key := e]| <= |room| + 1
  {
    assert room[key := e].Keys == room.Keys + {key};
  }

  lemma StoreRefines(c: Cache, w: Cache, op: Op, c': Cache, conf: Config)
    requires Refines(c, w, conf) && Step(c, op, c', conf) && Storing(op, conf)
    ensures Refines(c', Write(w, op, conf), conf)
  {
    if conf.maxEntries <= 0 {
      assert c == map[];
      assert DropExpired(c, op.now) == map[];
    } else {
      var room :| MadeRoom(c, room, op.now, conf) && c' == room[op.key := NewEntry(op, conf)];
      hide MadeRoom, Submap;
      MadeRoomShrinks(c, room, op.now, conf);
      PutRefines(room, c, w, op.key, NewEntry(op, conf));
    }
  }

  /** The bounded cache never disagrees with the last-write map and never outgrows its bound. */
  lemma {:induction false} CacheRefinesLastWrites(states: seq<Cache>, ops: seq<Op>, conf: Config, n: nat)
    requires Run(states, ops, conf) && n <= |ops|
    ensures Refines(states[n], Written(ops[..n], conf), conf)
  {
    if n > 0 {
      CacheRefinesLastWrites(states, ops, conf, n - 1);
      assert ops[..n][..n - 1] == ops[..n - 1];
      StepRefines(states[n - 1], Written(ops[..n - 1], conf), ops[n - 1], states[n], conf);
    }
  }

  // What the last-write map holds is the write of the last storing call of the key.
  lemma {:induction false} LastWrite(ops: seq<Op>, conf: Config, k: string) returns (i: nat)
    requires k in Written(ops, conf)
    ensures i < |ops| && Storing(ops[i], conf) && ops[i].key == k
    ensures Written(ops, conf)[k] == NewEntry(ops[i], conf)
    ensures forall j :: i < j < |ops| ==> !ops[j].Clear? && !(Storing(ops[j], conf) && ops[j].key == k)
  {
    var n := |ops| - 1;
    if Storing(ops[n], conf) && ops[n].key == k && conf.maxEntries >= 1 {
      i := n;
    } else {
      i := LastWrite(ops[..n], conf, k);
      assert conf.maxEntries >= 1 by { WrittenNeedsRoom(ops[..n], conf, k); }
    }
  }

  lemma {:induction false} WrittenNeedsRoom(ops: seq<Op>, conf: Config, k: string)
    requires k in Written(ops, conf)
    ensures conf.maxEntries >= 1
  {
    if conf.maxEntries < 1 {
      WrittenNeedsRoom(ops[..|ops| - 1], conf, k);
    }
  }

  /** Read off the calls: what a `get` hands out was stored under its key by an earlier `set`;
      no storing call of the key and no `clear` came in between; and the time of the `get` is
      still less than the time of that `set` plus its lifetime. */
  lemma HitIsLatestWrite(states: seq<Cache>, ops: seq<Op>, conf: Config, n: nat) returns (i: nat)
    requires Run(states, ops, conf) && n < |ops| && ops[n].Get?
    requires Answer(states[n], ops[n].key, ops[n].now, conf).Some?
    ensures i < n && ops[i].Set? && ops[i].key == ops[n].key
    ensures Answer(states[n], ops[n].key, ops[n].now, conf) == Some(ops[i].payload)
    ensures ops[n].now < ops[i].now + (if ops[i].ttl.None? then conf.ttl else ops[i].ttl.value)
    ensures forall j :: i < j < n ==> !ops[j].Clear? && !(Storing(ops[j], conf) && ops[j].key == ops[n].key)
  {
    CacheRefinesLastWrites(states, ops, conf, n);
    i := LastWrite(ops[..n], conf, ops[n].key);
  }

  /** What it takes for a call to store: a `set`, caching switched on, and a positive lifetime. */
  lemma StoringMeans(op: Op, conf: Config)
    ensures Storing(op, conf) <==> op.Set? && conf.ttl > 0.0 && (op.ttl.Some? ==> op.ttl.value > 0.0)
  {
  }

  /** Making room changes no entry.  While there is room it drops none; else it drops all that
      have expired, and if those left still fill the cache at most one more, which expires first. */
  ghost predicate Keeps(c: Cache, room: Cache, now: real, maxEntries: int) {
    && (forall k :: k in room ==> k in c && room[k] == c[k])
    && (|c| < maxEntries ==> room == c)
    && (|c| >= maxEntries ==> forall k :: k in room ==> c[k].expiresAt > now)
    && (forall k :: k in c && k !in room && c[k].expiresAt > now ==> Sacrificed(c, room, k, now, maxEntries))
  }

  // `k` was live, and so many others were that one had to go.
  ghost predicate Sacrificed(c: Cache, room: Cache, k: string, now: real, maxEntries: int)
    requires k in c
  {
    && maxEntries <= |set j | j in c && c[j].expiresAt > now|
    && forall j :: j in c && j != k && c[j].expiresAt > now ==> j in room && c[k].expiresAt <= c[j].expiresAt
  }

  /** A `set` that stores puts in its payload, to expire after its lifetime, and else only makes room. */
  ghost predicate StoresInto(c: Cache, key: string, payload: Payload, expiry: real, now: real, maxEntries: int, c': Cache) {
    exists room :: Keeps(c, room, now, maxEntries) && c' == room[key := Entry(expiry, payload)]
  }

  lemma MadeRoomKeeps(c: Cache, room: Cache, now: real, conf: Config)
    requires MadeRoom(c, room, now, conf)
    ensures Keeps(c, room, now, conf.maxEntries)
  {
    var live := DropExpired(c, now);
    assert live.Keys == set j | j in c && c[j].expiresAt > now;
    hide Sacrificed;
    if |c| >= conf.maxEntries && |live| >= conf.maxEntries {
      var victim :| Oldest(live, victim) && room == live - {victim};
      assert Sacrificed(c, room, victim, now, conf.maxEntries) by { VictimIsSacrificed(c, victim, now, conf.maxEntries); }
      assert forall k :: k in c && k !in room && c[k].expiresAt > now ==> k == victim;
    }
  }

  lemma VictimIsSacrificed(c: Cache, victim: string, now: real, maxEntries: int)
    requires Oldest(DropExpired(c, now), victim) && |DropExpired(c, now)| >= maxEntries
    ensures Sacrificed(c, DropExpired(c, now) - {victim}, victim, now, maxEntries)
  {
    var live := DropExpired(c, now);
    assert live.Keys == set j | j in c && c[j].expiresAt > now;
    forall j | j in c && j != victim && c[j].expiresAt > now
      ensures j in live - {victim} && c[victim].expiresAt <= c[j].expiresAt
    {
      assert j in live;
    }
  }

  lemma StoreMeans(c: Cache, op: Op, c': Cache, conf: Config)
    requires Step(c, op, c', conf) && Storing(op, conf) && !Raises(c, op.now, conf)
    ensures StoresInto(c, op.key, op.payload, op.now + (if op.ttl.None? then conf.ttl else op.ttl.value), op.now, conf.maxEntries, c')
  {
    hide MadeRoom, Keeps;
    var room :| MadeRoom(c, room, op.now, conf) && c' == room[op.key := NewEntry(op, conf)];
    MadeRoomKeeps(c, room, op.now, conf);
  }

  /** A live entry is lost to another key only when every expired entry is gone, the cache
      is still full, and no entry expires sooner. */
  lemma LiveLossIsOldest(c: Cache, op: Op, c': Cache, conf: Config, k: string)
    requires Step(c, op, c', conf) && !op.Clear? && conf.maxEntries >= 1
    requires k in c && Live(c[k], op.now) && k !in c'
    ensures op.Set? && op.key != k
    ensures |DropExpired(c, op.now)| >= conf.maxEntries && Oldest(DropExpired(c, op.now), k)
    ensures forall j :: j in c && j != k ==> (j in c' <==> Live(c[j], op.now) || j == op.key)
  {
    if Storing(op, conf) && op.key != k {
      var room :| MadeRoom(c, room, op.now, conf) && c' == room[op.key := NewEntry(op, conf)];
      var live := DropExpired(c, op.now);
      assert k in live;
      var victim :| Oldest(live, victim) && room == live - {victim};
      assert victim == k;
    }
  }

  /** What `set` leaves of a cache that stays full without its expired entries. */
  lemma FullRoom(c: Cache, op: Op, c': Cache, conf: Config) returns (victim: string)
    requires Storing(op, conf) && Step(c, op, c', conf) && conf.maxEntries >= 1
    requires |DropExpired(c, op.now)| >= conf.maxEntries
    ensures Oldest(DropExpired(c, op.now), victim)
    ensures c' == (DropExpired(c, op.now) - {victim})[op.key := NewEntry(op, conf)]
  {
    var live := DropExpired(c, op.now);
    assert live.Keys <= c.Keys;
    CardSubset(live.Keys, c.Keys);
    var room :| MadeRoom(c, room, op.now, conf) && c' == room[op.key := NewEntry(op, conf)];
    victim :| Oldest(live, victim) && room == live - {victim};
  }

  /** A live entry under another key is gone. */
  ghost predicate LosesLive(c: Cache, op: Op, c': Cache)
    requires op.Set?
  {
    exists k :: k in c && k != op.key && Live(c[k], op.now) && k !in c'
  }

  lemma LossNeedsFull(c: Cache, op: Op, c': Cache, conf: Config)
    requires Storing(op, conf) && Step(c, op, c', conf) && conf.maxEntries >= 1
    requires LosesLive(c, op, c')
    ensures |DropExpired(c, op.now)| >= conf.maxEntries
  {
    var k :| k in c && k != op.key && Live(c[k], op.now) && k !in c';
    LiveLossIsOldest(c, op, c', conf, k);
  }

  /** Storing under a new key loses a live entry exactly when the cache is full of live ones. */
  lemma NewKeyLosesLiveIff(c: Cache, op: Op, c': Cache, conf: Config)
    requires Storing(op, conf) && Step(c, op, c', conf) && conf.maxEntries >= 1 && op.key !in c
    ensures LosesLive(c, op, c') <==> |DropExpired(c, op.now)| >= conf.maxEntries
  {
    hide Step, Oldest;
    if |DropExpired(c, op.now)| >= conf.maxEntries {
      var victim := FullRoom(c, op, c', conf);
      VictimIsLive(c, op.now, victim);
      assert victim !in c';
    }
    if LosesLive(c, op, c') {
      LossNeedsFull(c, op, c', conf);
    }
  }

  lemma VictimIsLive(c: Cache, now: real, victim: string)
    requires Oldest(DropExpired(c, now), victim)
    ensures victim in c && Live(c[victim], now)
  {
  }

  // ----- the order of insertion -----

  /** The dict of the cache: its entries, and their keys in the order in which they were inserted. */
  datatype Dict = Dict(order: seq<string>, entries: Cache)

  ghost predicate InOrder(st: Dict) {
    && (forall k :: k in st.order <==> k in st.entries)
    && (forall i, j :: 0 <= i < j < |st.order| ==> st.order[i] != st.order[j])
  }

  /** `min` by expiry: the first inserted of those that expire first. */
  function FirstOldest(order: seq<string>, c: Cache): (victim: string)
    requires order != [] && forall k :: k in order ==> k in c
    ensures victim in order && forall k :: k in order ==> c[victim].expiresAt <= c[k].expiresAt
  {
    if |order| == 1 then order[0]
    else
      var v, k := FirstOldest(order[..|order| - 1], c), order[|order| - 1];
      if c[k].expiresAt < c[v].expiresAt then k else v
  }

  /** Ties go to the one inserted first. */
  lemma {:induction false} TiesGoToTheFirst(order: seq<string>, c: Cache) returns (i: nat)
    requires order != [] && forall k :: k in order ==> k in c
    ensures i < |order| && order[i] == FirstOldest(order, c)
    ensures forall j :: 0 <= j < i ==> c[order[j]].expiresAt > c[order[i]].expiresAt
  {
    var n := |order| - 1;
    i := n;
    if n > 0 {
      var j := TiesGoToTheFirst(order[..n], c);
      assert order[..n][j] == order[j];
      assert forall k :: k in order[..n] ==> c[order[j]].expiresAt <= c[k].expiresAt;
      assert forall k :: 0 <= k < n ==> order[k] in order[..n];
      hide FirstOldest;
      i := if c[order[n]].expiresAt < c[order[j]].expiresAt then n else j;
    }
  }

  /** The keys that stay, in the same order. */
  function Keep(order: seq<string>, keys: set<string>): seq<string> {
    if order == [] then []
    else Keep(order[..|order| - 1], keys) + (if order[|order| - 1] in keys then [order[|order| - 1]] else [])
  }

  function Restrict(st: Dict, keys: set<string>): Dict {
    Dict(Keep(st.order, keys), map k | k in st.entries && k in keys :: st.entries[k])
  }

  lemma {:induction false} KeepsOrder(order: seq<string>, keys: set<string>)
    requires forall i, j :: 0 <= i < j < |order| ==> order[i] != order[j]
    ensures forall k :: k in Keep(order, keys) <==> k in order && k in keys
    ensures forall i, j :: 0 <= i < j < |Keep(order, keys)| ==> Keep(order, keys)[i] != Keep(order, keys)[j]
  {
    if order != [] {
      var init, last := order[..|order| - 1], order[|order| - 1];
      KeepsOrder(init, keys);
      assert order == init + [last] && last !in init;
      assert last !in Keep(init, keys);
    }
  }

  /** Keeping works element by element, so those that stay stand in the order they stood in. */
  lemma {:induction false} KeepSplits(a: seq<string>, b: seq<string>, keys: set<string>)
    ensures Keep(a + b, keys) == Keep(a, keys) + Keep(b, keys)
    ensures |a| == 1 ==> Keep(a, keys) == if a[0] in keys then a else []
  {
    if |a| == 1 {
      assert a == [a[0]] && Keep(a[..0], keys) == [];
    }
    if b == [] {
      assert a + b == a;
    } else {
      KeepSplits(a, b[..|b| - 1], keys);
      assert (a + b)[..|a + b| - 1] == a + b[..|b| - 1];
    }
  }

  lemma RestrictInOrder(st: Dict, keys: set<string>)
    requires InOrder(st)
    ensures InOrder(Restrict(st, keys))
  {
    KeepsOrder(st.order, keys);
  }

  /** Assigning to a key that is there keeps its place. */
  function Put(st: Dict, key: string, e: Entry): Dict {
    Dict(if key in st.entries then st.order else st.order + [key], st.entries[key := e])
  }

  lemma PutInOrder(st: Dict, key: string, e: Entry)
    requires InOrder(st)
    ensures InOrder(Put(st, key, e))
  {
  }

  /** What is left once `set` has made room, or None when `min` meets an empty dict. */
  function Room(st: Dict, now: real, conf: Config): (room: Option<Dict>)
    requires InOrder(st)
    ensures room.Some? ==> InOrder(room.value)
  {
    if |st.entries| < conf.maxEntries then Some(st)
    else
      var live := LiveOnly(st, now);
      if |live.entries| < conf.maxEntries then Some(live)
      else if live.order == [] then None
      else
        RestrictInOrder(live, live.entries.Keys - {FirstOldest(live.order, live.entries)});
        Some(Restrict(live, live.entries.Keys - {FirstOldest(live.order, live.entries)}))
  }

  function LiveOnly(st: Dict, now: real): (live: Dict)
    requires InOrder(st)
    ensures InOrder(live) && live.entries == DropExpired(st.entries, now)
  {
    RestrictInOrder(st, DropExpired(st.entries, now).Keys);
    Restrict(st, DropExpired(st.entries, now).Keys)
  }

  function After(st: Dict, op: Op, conf: Config): (after: Dict)
    requires InOrder(st)
    ensures InOrder(after)
  {
    match op
    case Get(key, now) =>
      if conf.ttl > 0.0 && key in st.entries && !Live(st.entries[key], now) then
        RestrictInOrder(st, st.entries.Keys - {key});
        Restrict(st, st.entries.Keys - {key})
      else st
    case Set(key, _, _, now) =>
      if !Storing(op, conf) then st
      else if Room(st, now, conf).None? then Dict([], map[])
      else
        PutInOrder(Room(st, now, conf).value, key, NewEntry(op, conf));
        Put(Room(st, now, conf).value, key, NewEntry(op, conf))
    case Clear => Dict([], map[])
  }

  lemma FirstIsOldest(live: Dict)
    requires InOrder(live) && live.order != []
    ensures Oldest(live.entries, FirstOldest(live.order, live.entries))
  {
  }

  lemma NoOrderNoEntries(live: Dict)
    requires InOrder(live)
    ensures live.order == [] <==> live.entries == map[]
  {
    if live.entries != map[] {
      LiveHasOrder(live);
    }
    if live.order != [] {
      assert live.order[0] in live.entries;
    }
  }

  lemma RoomIsMadeRoom(st: Dict, now: real, conf: Config)
    requires InOrder(st)
    ensures Room(st, now, conf).None? <==> Raises(st.entries, now, conf)
    ensures Room(st, now, conf).Some? ==> MadeRoom(st.entries, Room(st, now, conf).value.entries, now, conf)
  {
    var live := LiveOnly(st, now);
    NoOrderNoEntries(live);
    hide DropExpired, Restrict, LiveOnly, FirstOldest, Oldest, InOrder;
    if |st.entries| < conf.maxEntries {
      assert conf.maxEntries > 0;
    } else if live.order != [] {
      FirstIsOldest(live);
      RestrictDrops(live, FirstOldest(live.order, live.entries));
    } else {
      assert |live.entries| == 0;
    }
  }

  /** What the cache does is one of the allowed steps, so every theorem about runs is about it. */
  lemma AfterIsStep(st: Dict, op: Op, conf: Config)
    requires InOrder(st)
    ensures Step(st.entries, op, After(st, op, conf).entries, conf)
  {
    match op
    case Get(key, now) => assert Restrict(st, st.entries.Keys - {key}).entries == st.entries - {key};
    case Set(key, _, _, now) => RoomIsMadeRoom(st, now, conf);
    case Clear =>
  }

  /** While there is room a `set` keeps every place: that of its own key too, if it has one, and
      else the key comes last. */
  lemma PlacesAreKept(st: Dict, op: Op, conf: Config)
    requires InOrder(st) && Storing(op, conf) && |st.entries| < conf.maxEntries
    ensures After(st, op, conf).order == if op.key in st.entries then st.order else st.order + [op.key]
  {
  }

  lemma AfterStoring(st: Dict, op: Op, conf: Config)
    requires InOrder(st) && Storing(op, conf)
    ensures Room(st, op.now, conf).None? <==> Raises(st.entries, op.now, conf)
    ensures After(st, op, conf) == match Room(st, op.now, conf) {
                                     case None => Dict([], map[])
                                     case Some(room) => Put(room, op.key, NewEntry(op, conf))
                                   }
  {
    RoomIsMadeRoom(st, op.now, conf);
    hide Room, Raises, MadeRoom, Put;
  }

  lemma SetMeans(st: Dict, op: Op, conf: Config)
    requires InOrder(st) && op.Set?
    ensures Step(st.entries, op, After(st, op, conf).entries, conf)
    ensures !Storing(op, conf) ==> After(st, op, conf) == st
    ensures Storing(op, conf) && Raises(st.entries, op.now, conf) ==> After(st, op, conf) == Dict([], map[])
    ensures Raises(st.entries, op.now, conf) ==>
              conf.maxEntries <= 0 && forall k :: k in st.entries ==> st.entries[k].expiresAt <= op.now
    ensures Storing(op, conf) && !Raises(st.entries, op.now, conf) ==>
              StoresInto(st.entries, op.key, op.payload, op.now + (if op.ttl.None? then conf.ttl else op.ttl.value),
                         op.now, conf.maxEntries, After(st, op, conf).entries)
  {
    AfterIsStep(st, op, conf);
    RoomIsMadeRoom(st, op.now, conf);
    assert !Storing(op, conf) ==> After(st, op, conf) == st;
    assert Storing(op, conf) && Raises(st.entries, op.now, conf) ==> After(st, op, conf) == Dict([], map[]);
    hide After, Step, MadeRoom, StoresInto;
    if Storing(op, conf) && !Raises(st.entries, op.now, conf) {
      StoreMeans(st.entries, op, After(st, op, conf).entries, conf);
    }
    if Raises(st.entries, op.now, conf) {
      assert forall k :: k in st.entries && Live(st.entries[k], op.now) ==> k in DropExpired(st.entries, op.now);
    }
  }

  /** The runs of the cache: from an empty dict, call by call. */
  function AfterAll(ops: seq<Op>, conf: Config): (st: Dict)
    ensures InOrder(st)
  {
    if ops == [] then Dict([], map[]) else After(AfterAll(ops[..|ops| - 1], conf), ops[|ops| - 1], conf)
  }

  lemma AfterAllRuns(ops: seq<Op>, conf: Config, states: seq<Cache>)
    requires |states| == |ops| + 1 && forall i :: 0 <= i <= |ops| ==> states[i] == AfterAll(ops[..i], conf).entries
    ensures Run(states, ops, conf)
  {
    forall i | 0 <= i < |ops| ensures Step(states[i], ops[i], states[i + 1], conf) {
      assert ops[..i + 1][..i] == ops[..i];
      AfterIsStep(AfterAll(ops[..i], conf), ops[i], conf);
    }
  }

  /** The key that goes when a cache full of live entries takes another. */
  function Victim(st: Dict, now: real): (victim: string)
    requires InOrder(st) && DropExpired(st.entries, now) != map[]
    ensures victim in DropExpired(st.entries, now)
  {
    var live := LiveOnly(st, now);
    LiveHasOrder(live);
    FirstOldest(live.order, live.entries)
  }

  lemma LiveHasOrder(live: Dict)
    requires InOrder(live) && live.entries != map[]
    ensures live.order != []
  {
    var k :| k in live.entries;
    assert k in live.order;
  }

  lemma FullAfter(st: Dict, op: Op, conf: Config)
    requires InOrder(st) && Storing(op, conf) && conf.maxEntries >= 1
    requires |DropExpired(st.entries, op.now)| >= conf.maxEntries
    ensures After(st, op, conf).entries
         == (DropExpired(st.entries, op.now) - {Victim(st, op.now)})[op.key := NewEntry(op, conf)]
  {
    var live := LiveOnly(st, op.now);
    LiveHasOrder(live);
    assert live.entries.Keys <= st.entries.Keys;
    CardSubset(live.entries.Keys, st.entries.Keys);
    RestrictDrops(live, Victim(st, op.now));
    hide DropExpired, Restrict, LiveOnly;
  }

  lemma RestrictDrops(st: Dict, victim: string)
    ensures Restrict(st, st.entries.Keys - {victim}).entries == st.entries - {victim}
  {
  }

  // Taking `victim` out of the live entries and refreshing a key loses a live entry under
  // another key exactly when the two are different.
  lemma VictimDecides(c: Cache, op: Op, c': Cache, victim: string, e: Entry)
    requires op.Set? && op.key in c && victim in DropExpired(c, op.now)
    requires c' == (DropExpired(c, op.now) - {victim})[op.key := e]
    ensures LosesLive(c, op, c') <==> victim != op.key
  {
    if victim != op.key {
      assert victim in c && Live(c[victim], op.now) && victim !in c';
    }
  }

  /** `set` makes room before it looks whether the key is already there, so refreshing a key can
      lose another live entry.  It does exactly when the cache is full of live entries and the
      key itself is not the one that `min` finds. */
  lemma RefreshLosesLiveIff(st: Dict, op: Op, conf: Config)
    requires InOrder(st) && Storing(op, conf) && conf.maxEntries >= 1 && op.key in st.entries
    ensures LosesLive(st.entries, op, After(st, op, conf).entries)
       <==> |DropExpired(st.entries, op.now)| >= conf.maxEntries && Victim(st, op.now) != op.key
  {
    var c, c' := st.entries, After(st, op, conf).entries;
    AfterIsStep(st, op, conf);
    hide After, Step, Victim, InOrder, DropExpired;
    if |DropExpired(c, op.now)| >= conf.maxEntries {
      FullAfter(st, op, conf);
      VictimDecides(c, op, c', Victim(st, op.now), NewEntry(op, conf));
    } else if LosesLive(c, op, c') {
      LossNeedsFull(c, op, c', conf);
    }
  }

  const TIED := Dict(["a", "b"], map["a" := Entry(9.0, map[]), "b" := Entry(9.0, map[])])

  lemma TiedIsLive()
    ensures InOrder(TIED) && DropExpired(TIED.entries, 1.0) == TIED.entries && |TIED.entries| == 2
  {
    assert TIED.entries.Keys == {"a", "b"};
  }

  lemma {:induction false} KeepAll(order: seq<string>, keys: set<string>)
    requires forall k :: k in order ==> k in keys
    ensures Keep(order, keys) == order
  {
    if order != [] {
      KeepAll(order[..|order| - 1], keys);
      assert order == order[..|order| - 1] + [order[|order| - 1]];
    }
  }

  lemma FirstOfTwo(a: string, b: string, c: Cache)
    requires a in c && b in c && c[a].expiresAt <= c[b].expiresAt
    ensures FirstOldest([a, b], c) == a
  {
    assert [a, b][..1] == [a];
    assert FirstOldest([a], c) == a;
  }

  lemma FirstOfTied()
    ensures InOrder(TIED) && DropExpired(TIED.entries, 1.0) != map[] && Victim(TIED, 1.0) == "a"
  {
    TiedIsLive();
    assert "a" in TIED.entries && "b" in TIED.entries;
    KeepAll(TIED.order, TIED.entries.Keys);
    FirstOfTwo("a", "b", TIED.entries);
    hide DropExpired, FirstOldest, Keep, InOrder;
    assert LiveOnly(TIED, 1.0).order == ["a", "b"];
  }

  /** Of two entries that expire together the first inserted goes: refreshing the second loses
      the first, and refreshing the first loses nothing. */
  lemma TieExample()
    ensures InOrder(TIED)
    ensures LosesLive(TIED.entries, Set("b", map[], None, 1.0), After(TIED, Set("b", map[], None, 1.0), Config(10.0, 2)).entries)
    ensures !LosesLive(TIED.entries, Set("a", map[], None, 1.0), After(TIED, Set("a", map[], None, 1.0), Config(10.0, 2)).entries)
  {
    TiedIsLive();
    FirstOfTied();
    hide After, Victim, InOrder, DropExpired, LosesLive;
    RefreshLosesLiveIff(TIED, Set("a", map[], None, 1.0), Config(10.0, 2));
    RefreshLosesLiveIff(TIED, Set("b", map[], None, 1.0), Config(10.0, 2));
  }

  const TWO_ENTRIES: Cache := map["a" := Entry(5.0, map[]), "b" := Entry(9.0, map[])]

  lemma TwoEntriesAreLive()
    ensures DropExpired(TWO_ENTRIES, 1.0) == TWO_ENTRIES && |TWO_ENTRIES| == 2
    ensures forall k :: Oldest(TWO_ENTRIES, k) <==> k == "a"
    ensures (TWO_ENTRIES - {"a"})["b" := Entry(11.0, map[])] == map["b" := Entry(11.0, map[])]
  {
    assert TWO_ENTRIES.Keys == {"a", "b"};
    assert "a" in TWO_ENTRIES && "b" in TWO_ENTRIES;
  }

  /** Refreshing the younger of two live entries of a full cache drops the older one. */
  lemma RefreshExample(c': Cache)
    ensures Step(TWO_ENTRIES, Set("b", map[], None, 1.0), c', Config(10.0, 2)) <==> c' == map["b" := Entry(11.0, map[])]
  {
    var op, conf := Set("b", map[], None, 1.0), Config(10.0, 2);
    TwoEntriesAreLive();
    assert NewEntry(op, conf) == Entry(11.0, map[]);
    hide DropExpired, Oldest, TWO_ENTRIES;
    assert MadeRoom(TWO_ENTRIES, TWO_ENTRIES - {"a"}, 1.0, conf);
    if Step(TWO_ENTRIES, op, c', conf) {
      hide Step;
      var victim := FullRoom(TWO_ENTRIES, op, c', conf);
    }
  }

  lemma RemoveOne(c: Cache, victim: string, key: string, e: Entry)
    requires victim in c && key in c && victim != key
    ensures (c - {victim})[key := e].Keys == c.Keys - {victim}
    ensures |(c - {victim})[key := e]| == |c| - 1
  {
    assert |c.Keys - {victim}| == |c.Keys| - 1;
  }

  /** Refreshing a key of a cache full of live entries, if it is not the first to expire, also
      leaves the cache one smaller. */
  lemma OverwriteAtCapacityShrinks(c: Cache, op: Op, c': Cache, conf: Config)
    requires Storing(op, conf) && Step(c, op, c', conf)
    requires |c| == conf.maxEntries && forall k :: k in c ==> Live(c[k], op.now)
    requires op.key in c && !Oldest(c, op.key)
    ensures |c'| == |c| - 1
    ensures exists victim :: Oldest(c, victim) && c'.Keys == c.Keys - {victim}
  {
    assert DropExpired(c, op.now) == c;
    assert c != map[];
    hide Step, Storing, Oldest, DropExpired;
    var victim := FullRoom(c, op, c', conf);
    VictimIsLive(c, op.now, victim);
    RemoveOne(c, victim, op.key, NewEntry(op, conf));
  }

  // ----- retention -----

  /** How many storing calls lie among ops[lo..hi]. */
  function Stores(ops: seq<Op>, lo: nat, hi: nat, conf: Config): nat
    requires lo <= hi <= |ops|
    decreases hi
  {
    if lo == hi then 0
    else Stores(ops, lo, hi - 1, conf) + (if Storing(ops[hi - 1], conf) then 1 else 0)
  }

  lemma StoresCount(ops: seq<Op>, lo: nat, hi: nat, conf: Config)
    requires lo <= hi <= |ops|
    ensures lo == hi ==> Stores(ops, lo, hi, conf) == 0
    ensures lo < hi ==>
              Stores(ops, lo, hi, conf) == Stores(ops, lo, hi - 1, conf) + (if Storing(ops[hi - 1], conf) then 1 else 0)
  {
  }

  /** Serial calls, a clock that never runs backwards and that moves between two `set`s,
      and one TTL for all of them. */
  ghost predicate Regular(ops: seq<Op>, conf: Config) {
    && (forall i :: 0 <= i < |ops| && Storing(ops[i], conf) ==> EffectiveTtl(ops[i].ttl, conf) == conf.ttl)
    && (forall i, j :: 0 <= i < j < |ops| && !ops[i].Clear? && !ops[j].Clear? ==>
          ops[i].now <= ops[j].now && (ops[i].Set? && ops[j].Set? ==> ops[i].now < ops[j].now))
  }

  /** Whatever is stored was put there by a `set` of its key. */
  lemma {:induction false} EntriesComeFromSets(states: seq<Cache>, ops: seq<Op>, conf: Config, n: nat, k: string)
    requires Run(states, ops, conf) && n <= |ops|
    requires k in states[n]
    ensures exists i :: 0 <= i < n && Storing(ops[i], conf) && ops[i].key == k && states[n][k] == NewEntry(ops[i], conf)
  {
    var m := n - 1;
    assert n > 0 && Step(states[m], ops[m], states[n], conf);
    var c, op := states[m], ops[m];
    if Storing(op, conf) && !Raises(c, op.now, conf) {
      var room :| MadeRoom(c, room, op.now, conf) && states[n] == room[op.key := NewEntry(op, conf)];
      MadeRoomShrinks(c, room, op.now, conf);
      if k != op.key {
        EntriesComeFromSets(states, ops, conf, m, k);
      }
    } else {
      EntriesComeFromSets(states, ops, conf, m, k);
    }
  }

  function Younger(c: Cache, expiry: real): set<string> {
    set k | k in c && c[k].expiresAt > expiry
  }

  // ops[i] stored `k`, and up to step n nothing replaced it, cleared the cache, or filled it up.
  ghost predicate Undisturbed(ops: seq<Op>, conf: Config, i: nat, n: nat) {
    && i < n <= |ops|
    && Storing(ops[i], conf)
    && Stores(ops, i + 1, n, conf) < conf.maxEntries
    && forall j :: i < j < n ==>
         !ops[j].Clear? && (ops[j].Set? ==> ops[j].key != ops[i].key) && ops[j].now < NewEntry(ops[i], conf).expiresAt
  }

  // `key` still holds `e`, no other entry expires together with it, and at most `n` expire later.
  ghost predicate Holds(c: Cache, key: string, e: Entry, n: nat) {
    && key in c && c[key] == e
    && (forall k :: k in c && k != key ==> c[k].expiresAt != e.expiresAt)
    && |Younger(c, e.expiresAt)| <= n
  }

  lemma {:induction false} EntryStays(states: seq<Cache>, ops: seq<Op>, conf: Config, i: nat, n: nat)
    requires Run(states, ops, conf) && Regular(ops, conf) && Undisturbed(ops, conf, i, n)
    ensures Holds(states[n], ops[i].key, NewEntry(ops[i], conf), Stores(ops, i + 1, n, conf))
    decreases n
  {
    hide Holds, Stores;
    var key, e, m := ops[i].key, NewEntry(ops[i], conf), n - 1;
    assert Step(states[m], ops[m], states[n], conf);
    if m == i {
      forall k | k in states[i] ensures states[i][k].expiresAt < e.expiresAt {
        EntriesComeFromSets(states, ops, conf, i, k);
      }
      EntryStored(states[i], ops[i], states[n], conf);
      StoresCount(ops, i + 1, n, conf);
    } else {
      StoresCount(ops, i + 1, n, conf);
      EntryStays(states, ops, conf, i, m);
      if Storing(ops[m], conf) {
        EntryStaysAcrossStore(states[m], ops[m], states[n], conf, key, e, Stores(ops, i + 1, m, conf));
      } else {
        EntryStaysAcrossRest(states[m], ops[m], states[n], conf, key, e, Stores(ops, i + 1, m, conf));
      }
    }
  }

  lemma EntryStored(c: Cache, op: Op, c': Cache, conf: Config)
    requires Step(c, op, c', conf) && Storing(op, conf) && conf.maxEntries >= 1
    requires forall k :: k in c ==> c[k].expiresAt < NewEntry(op, conf).expiresAt
    ensures Holds(c', op.key, NewEntry(op, conf), 0)
  {
    var room :| MadeRoom(c, room, op.now, conf) && c' == room[op.key := NewEntry(op, conf)];
    MadeRoomShrinks(c, room, op.now, conf);
    assert Younger(c', NewEntry(op, conf).expiresAt) == {};
  }

  lemma EntryStaysAcrossRest(c: Cache, op: Op, c': Cache, conf: Config, key: string, e: Entry, n: nat)
    requires Step(c, op, c', conf) && !op.Clear? && !Storing(op, conf)
    requires Holds(c, key, e, n) && Live(e, op.now)
    ensures Holds(c', key, e, n)
  {
    assert Younger(c', e.expiresAt) <= Younger(c, e.expiresAt);
    CardSubset(Younger(c', e.expiresAt), Younger(c, e.expiresAt));
  }

  // One more `set` of another key cannot evict `key` while fewer than max_entries - 1 entries are younger.
  lemma EntryStaysAcrossStore(c: Cache, op: Op, c': Cache, conf: Config, key: string, e: Entry, n: nat)
    requires Step(c, op, c', conf) && Storing(op, conf) && op.key != key
    requires Holds(c, key, e, n) && Live(e, op.now) && n < conf.maxEntries - 1
    requires NewEntry(op, conf).expiresAt != e.expiresAt
    ensures Holds(c', key, e, n + 1)
  {
    if key !in c' {
      LiveLossIsOldest(c, op, c', conf, key);
      var live := DropExpired(c, op.now);
      CardSubset(live.Keys - {key}, Younger(c, e.expiresAt));
      assert false;
    }
    var room :| MadeRoom(c, room, op.now, conf) && c' == room[op.key := NewEntry(op, conf)];
    MadeRoomShrinks(c, room, op.now, conf);
    CardSubset(Younger(c', e.expiresAt), Younger(c, e.expiresAt) + {op.key});
  }

  /** Retention: until it expires, an entry is returned as long as fewer than max_entries
      `set` calls have followed it. */
  lemma Retention(states: seq<Cache>, ops: seq<Op>, conf: Config, i: nat, n: nat)
    requires Run(states, ops, conf) && Regular(ops, conf) && Undisturbed(ops, conf, i, n)
    requires n < |ops| && ops[n].Get? && ops[n].key == ops[i].key
    requires ops[n].now < ops[i].now + conf.ttl
    ensures Answer(states[n], ops[n].key, ops[n].now, conf) == Some(ops[i].payload)
  {
    EntryStays(states, ops, conf, i, n);
  }

  // ----- the cache itself -----

  datatype SetOutcome = Skipped | Stored | ValueError

  class AuditResponseCache {
    const maxEntries: int
    var order: seq<string>
    var data: map<string, Entry>

    function State(): Dict
      reads this
    {
      Dict(order, data)
    }

    ghost predicate Valid()
      reads this
    {
      InOrder(State())
    }

    constructor (maxEntries: int)
      ensures Valid() && this.maxEntries == maxEntries && State() == Dict([], map[])
    {
      this.maxEntries := maxEntries;
      order, data := [], map[];
    }

    method Get(key: string, now: real, ttlSeconds: real) returns (hit: Option<Payload>)
      requires Valid()
      modifies this
      ensures Valid() && State() == After(old(State()), Op.Get(key, now), Config(ttlSeconds, maxEntries))
      ensures Step(old(data), Op.Get(key, now), data, Config(ttlSeconds, maxEntries))
      ensures hit == Answer(old(data), key, now, Config(ttlSeconds, maxEntries))
      ensures hit.Some? <==> ttlSeconds > 0.0 && key in old(data) && now < old(data)[key].expiresAt
      ensures hit.Some? ==> hit.value == old(data)[key].payload
      ensures data == if ttlSeconds > 0.0 && key in old(data) && old(data)[key].expiresAt <= now then old(data) - {key}
                      else old(data)
    {
      AfterIsStep(State(), Op.Get(key, now), Config(ttlSeconds, maxEntries));
      hide Step;
      if ttlSeconds <= 0.0 || key !in data {
        return None;
      }
      var ent := data[key];
      if ent.expiresAt <= now {
        Pop({key});
        return None;
      }
      return Some(ent.payload);
    }

    /** `pop` for each of the keys. */
    method Pop(keys: set<string>)
      requires Valid()
      modifies this
      ensures Valid() && State() == Restrict(old(State()), old(data).Keys - keys)
    {
      RestrictInOrder(State(), data.Keys - keys);
      order, data := Keep(order, data.Keys - keys), map k | k in data && k in data.Keys - keys :: data[k];
    }

    method Set(key: string, payload: Payload, ttl: Option<real>, now: real, ttlSeconds: real) returns (outcome: SetOutcome)
      requires Valid()
      modifies this
      ensures Valid() && State() == After(old(State()), Op.Set(key, payload, ttl, now), Config(ttlSeconds, maxEntries))
      ensures Step(old(data), Op.Set(key, payload, ttl, now), data, Config(ttlSeconds, maxEntries))
      ensures outcome.Skipped? <==> !Storing(Op.Set(key, payload, ttl, now), Config(ttlSeconds, maxEntries))
      ensures outcome.ValueError? <==>
                Storing(Op.Set(key, payload, ttl, now), Config(ttlSeconds, maxEntries))
                && Raises(old(data), now, Config(ttlSeconds, maxEntries))
      ensures outcome.Skipped? <==> ttlSeconds <= 0.0 || (ttl.Some? && ttl.value <= 0.0)
      ensures outcome.Skipped? ==> data == old(data)
      ensures outcome.ValueError? ==>
                data == map[] && maxEntries <= 0 && forall k :: k in old(data) ==> old(data)[k].expiresAt <= now
      ensures outcome.Stored? ==>
                StoresInto(old(data), key, payload, now + (if ttl.None? then ttlSeconds else ttl.value), now, maxEntries, data)
    {
      hide Step, StoresInto, InOrder, After, Raises;
      SetMeans(State(), Op.Set(key, payload, ttl, now), Config(ttlSeconds, maxEntries));
      var ttlS := if ttl.None? then ttlSeconds else ttl.value;
      if ttlSeconds <= 0.0 || ttlS <= 0.0 {
        return Skipped;
      }
      var roomy := Store(key, Entry(now + ttlS, payload), now, Op.Set(key, payload, ttl, now), Config(ttlSeconds, maxEntries));
      outcome := if roomy then Stored else ValueError;
    }

    /** The part of `set` under the lock. */
    method Store(key: string, e: Entry, now: real, ghost op: Op, ghost conf: Config) returns (ok: bool)
      requires Valid() && Storing(op, conf) && conf.maxEntries == maxEntries
      requires op.key == key && op.now == now && e == NewEntry(op, conf)
      modifies this
      ensures Valid() && State() == After(old(State()), op, conf)
      ensures ok <==> !Raises(old(data), now, conf)
    {
      hide Storing, EffectiveTtl, Put, InOrder, Room, After, Raises;
      AfterStoring(State(), op, conf);
      ok := MakeRoom(now, conf);
      if ok {
        Assign(key, e);
      }
    }

    /** `self._data[key] = ...` */
    method Assign(key: string, e: Entry)
      requires Valid()
      modifies this
      ensures Valid() && State() == Put(old(State()), key, e)
    {
      PutInOrder(State(), key, e);
      order := if key in data then order else order + [key];
      data := data[key := e];
    }

    /** The first half of `set`: at capacity, drop the expired entries, then the oldest. */
    method MakeRoom(now: real, ghost conf: Config) returns (ok: bool)
      requires Valid() && conf.maxEntries == maxEntries
      modifies this
      ensures Valid()
      ensures ok <==> Room(old(State()), now, conf).Some?
      ensures State() == if ok then Room(old(State()), now, conf).value else Dict([], map[])
    {
      ok := true;
      if |data| >= maxEntries {
        ghost var live := LiveOnly(State(), now);
        var expired := set k | k in data && data[k].expiresAt <= now;
        assert data.Keys - expired == DropExpired(data, now).Keys;
        Pop(expired);
        assert State() == live;
        if |data| >= maxEntries {
          if data == map[] {
            NoOrderNoEntries(State());
            return false;
          }
          assert order != [];
          var oldest := FindOldest(order, data);
          Pop({oldest});
        }
      }
    }

    /** `min` over the items, by expiry: the first of several is found. */
    static method FindOldest(order: seq<string>, c: Cache) returns (victim: string)
      requires order != [] && forall k :: k in order ==> k in c
      ensures victim == FirstOldest(order, c)
    {
      victim := order[0];
      assert order[..1] == [order[0]];
      for i := 1 to |order|
        invariant victim == FirstOldest(order[..i], c) && victim in order
      {
        assert order[..i + 1][..i] == order[..i];
        if c[order[i]].expiresAt < c[victim].expiresAt {
          victim := order[i];
        }
      }
      assert order[..|order|] == order;
    }

    method Clear()
      modifies this
      ensures Valid() && State() == Dict([], map[])
    {
      order, data := [], map[];
    }
  }
}
